/** The goroutines of GPUMiner.mineParallel (gpu_miner.go): workers, the progress goroutine that cancels, the
    goroutine that closes the channel, and the collector. Every step is one atomic operation, channel
    operation or stretch of local work. */
module ParallelSearch {
  import opened Bytes

  /** The hash of the header with a nonce and the target, both as numbers of 32 little-endian bytes; nonce number k
      of thread t, whatever the search order; and hashesPerThread. */
  datatype Job = Job(hash: U32 -> Hash32, target: nat, plan: (nat, nat) -> U32, budget: nat)

  predicate Accepts(job: Job, nonce: U32) {
    FromLE(job.hash(nonce)) <= job.target
  }

  /** Where a worker is in its loop. */
  datatype Place =
    | Head                  // before the loop guard, which loads found
    | Hashed                // the hash is computed and counted locally
    | Counting              // cancel was read as false at a multiple of 500
    | Testing               // before the comparison with the target
    | Winning               // before found.Swap
    | Sending               // Swap returned false: before the channel send
    | Bottom                // the loop guard failed: before the final count
    | Gone(exit: Exit)      // wg.Done

  /** How a worker left: through the bottom of its loop, after a hash that met the target, or on cancel. */
  datatype Exit = AtBottom | OnWin | OnCancel

  /** The nonces hashed so far, the last one current, are history beyond their number localHashCount; so is credit,
      what the worker has added to totalHashes. */
  datatype Worker = Worker(place: Place, tested: seq<U32>, credit: nat)

  function Local(me: Worker): nat { |me.tested| }

  function Current(me: Worker): U32 {
    if me.tested == [] then 0 else me.tested[|me.tested| - 1]
  }

  datatype Found = Found(nonce: U32, hash: Hash32)

  datatype Collector =
    | Waiting                                  // in the select
    | Joining(result: Found)                   // has a result, in wg.Wait
    | Draining                                 // waits for done
    | Returned(answer: Option<Found>, total: nat)

  /** `sent`, every result ever sent, is history. */
  datatype World = World(
    workers: seq<Worker>, found: bool, cancel: bool, total: nat,
    results: seq<Found>, sent: seq<Found>, closed: bool, done: bool, collector: Collector)

  /** A worker's next atomic operation. */
  datatype Step = Hash | Leave | Probe | Add | Test | Swap | Send | Finish

  datatype Action = Work(t: nat, step: Step) | Cancel | Stop | Close | Done | Receive | Join | TakeDone

  predicate AllGone(w: World) {
    forall t :: 0 <= t < |w.workers| ==> w.workers[t].place.Gone?
  }

  /** The loop guard decides between Hash and Leave. */
  predicate Can(job: Job, w: World, me: Worker, step: Step) {
    match step
    case Hash => me.place.Head? && Local(me) < job.budget && !w.found
    case Leave => me.place.Head? && !(Local(me) < job.budget && !w.found)
    case Probe => me.place.Hashed?
    case Add => me.place.Counting?
    case Test => me.place.Testing?
    case Swap => me.place.Winning?
    case Send => me.place.Sending? && !w.closed && |w.results| < |w.workers| // the channel's capacity
    case Finish => me.place.Bottom?
  }

  /** A store of the value already there is no step. */
  predicate Enabled(job: Job, w: World, a: Action) {
    match a
    case Work(t, step) => t < |w.workers| && Can(job, w, w.workers[t], step)
    case Cancel => !w.cancel
    case Stop => w.cancel && !w.found
    case Close => AllGone(w) && !w.closed
    case Done => w.closed && !w.done
    case Receive => w.collector.Waiting? && (w.results != [] || w.closed)
    case Join => w.collector.Joining? && AllGone(w)
    case TakeDone => (w.collector.Waiting? || w.collector.Draining?) && w.done
  }

  /** What the step adds to totalHashes. */
  function Gain(me: Worker, step: Step): nat {
    match step
    case Add => 500
    case Finish => Local(me) % 500
    case _ => 0
  }

  function NextPlace(job: Job, w: World, me: Worker, step: Step): Place {
    match step
    case Hash => Hashed
    case Leave => Bottom
    case Probe => if Local(me) % 500 != 0 then Testing else if w.cancel then Gone(OnCancel) else Counting
    case Add => Testing
    case Test => if Accepts(job, Current(me)) then Winning else Head
    case Swap => if w.found then Gone(OnWin) else Sending
    case Send => Gone(OnWin)
    case Finish => Gone(AtBottom)
  }

  function Move(job: Job, w: World, t: nat, me: Worker, step: Step): Worker {
    Worker(NextPlace(job, w, me, step),
           if step.Hash? then me.tested + [job.plan(t, Local(me))] else me.tested,
           me.credit + Gain(me, step))
  }

  function ResultOf(job: Job, me: Worker): Found {
    Found(Current(me), job.hash(Current(me)))
  }

  function Next(job: Job, w: World, a: Action): World
    requires Enabled(job, w, a)
  {
    match a
    case Work(t, step) =>
      var me := w.workers[t];
      w.(workers := w.workers[t := Move(job, w, t, me, step)],
         total := w.total + Gain(me, step),
         found := w.found || step.Swap?,
         results := if step.Send? then w.results + [ResultOf(job, me)] else w.results,
         sent := if step.Send? then w.sent + [ResultOf(job, me)] else w.sent)
    case Cancel => w.(cancel := true)
    case Stop => w.(found := true)
    case Close => w.(closed := true)
    case Done => w.(done := true)
    case Receive =>
      if w.results == [] then w.(collector := Draining)
      else
        var r := w.results[0];
        if r.nonce != 0 then w.(results := w.results[1..], found := true, collector := Joining(r))
        else w.(results := w.results[1..], collector := Draining)
    case Join =>
      var r := w.collector.result;
      if FromLE(r.hash) <= job.target then w.(collector := Returned(Some(r), w.total))
      else w.(collector := Draining)
    case TakeDone => w.(collector := Returned(None, w.total))
  }

  predicate Init(w: World) {
    && |w.workers| > 0
    && (forall t :: 0 <= t < |w.workers| ==> w.workers[t] == Worker(Head, [], 0))
    && !w.found && !w.cancel && w.total == 0 && w.results == [] && w.sent == [] && !w.closed && !w.done
    && w.collector.Waiting?
  }

  // ---------------------------------------------------------------- sums over the workers

  function Sum(ws: seq<Worker>, f: Worker -> nat): nat {
    if ws == [] then 0 else f(ws[0]) + Sum(ws[1..], f)
  }

  function Credit(me: Worker): nat { me.credit }

  /** Hashes performed, and added to totalHashes. */
  function Performed(ws: seq<Worker>): nat { Sum(ws, Local) }
  function Credited(ws: seq<Worker>): nat { Sum(ws, Credit) }

  lemma {:induction false} SumUpdate(ws: seq<Worker>, f: Worker -> nat, t: nat, me: Worker)
    requires t < |ws|
    ensures Sum(ws[t := me], f) == Sum(ws, f) - f(ws[t]) + f(me)
  {
    if t == 0 {
      assert ws[t := me][1..] == ws[1..];
    } else {
      assert ws[t := me][1..] == ws[1..][t - 1 := me];
      SumUpdate(ws[1..], f, t - 1, me);
    }
  }

  lemma {:induction false} SumConstant(ws: seq<Worker>, f: Worker -> nat, c: nat)
    requires forall t :: 0 <= t < |ws| ==> f(ws[t]) == c
    ensures Sum(ws, f) == |ws| * c
  {
    if ws != [] {
      SumConstant(ws[1..], f, c);
    }
  }

  lemma {:induction false} SumDifference(ws: seq<Worker>, f: Worker -> nat, g: Worker -> nat, h: Worker -> nat)
    requires forall t :: 0 <= t < |ws| ==> f(ws[t]) == g(ws[t]) + h(ws[t])
    ensures Sum(ws, f) == Sum(ws, g) + Sum(ws, h)
  {
    if ws != [] {
      SumDifference(ws[1..], f, g, h);
    }
  }

  lemma {:induction false} SumBound(ws: seq<Worker>, f: Worker -> nat, c: nat)
    requires forall t :: 0 <= t < |ws| ==> f(ws[t]) <= c
    ensures Sum(ws, f) <= c * |ws|
  {
    if ws != [] {
      SumBound(ws[1..], f, c);
    }
  }

  // ---------------------------------------------------------------- what every step keeps

  /** The hashes a worker leaves out of totalHashes. */
  function Uncounted(exit: Exit, local: nat): nat {
    match exit
    case AtBottom => 0
    case OnWin => local % 500
    case OnCancel => 500
  }

  /** A worker's counts, by its place. */
  predicate Counted(me: Worker) {
    var local := Local(me);
    match me.place
    case Hashed => local > 0 && me.credit == (if local % 500 == 0 then local - 500 else local - local % 500)
    case Counting => local % 500 == 0 && local > 0 && me.credit == local - 500
    case Gone(exit) => me.credit == local - Uncounted(exit, local) && (exit.OnCancel? ==> local >= 500)
    case _ => me.credit == local - local % 500
  }

  /** It has hashed the first nonces of its plan, within its budget. */
  predicate OnPlan(job: Job, t: nat, tested: seq<U32>) {
    |tested| <= job.budget && forall k :: 0 <= k < |tested| ==> tested[k] == job.plan(t, k)
  }

  predicate WorkerOk(job: Job, t: nat, me: Worker) {
    && Counted(me) && OnPlan(job, t, me.tested)
    && (me.place.Testing? || me.place.Winning? || me.place.Sending? ==> me.tested != [])
    && (me.place.Winning? || me.place.Sending? ==> Accepts(job, Current(me)))
  }

  predicate Genuine(job: Job, r: Found) {
    r.hash == job.hash(r.nonce) && Accepts(job, r.nonce)
  }

  /** Only one worker ever gets past Swap. */
  predicate OneWinner(w: World) {
    && (forall s, t :: 0 <= s < t < |w.workers| ==> !(w.workers[s].place.Sending? && w.workers[t].place.Sending?))
    && (forall t :: 0 <= t < |w.workers| && w.workers[t].place.Sending? ==> w.found && w.sent == [])
    && |w.sent| <= 1 && (w.sent != [] ==> w.found)
  }

  /** What was sent is genuine, and is in the channel until the collector receives it. */
  predicate Delivered(job: Job, w: World) {
    && (forall k :: 0 <= k < |w.sent| ==> Genuine(job, w.sent[k]))
    && (w.closed ==> AllGone(w)) && (w.done ==> w.closed)
    && match w.collector
       case Waiting => w.results == w.sent
       case Joining(r) => w.results == [] && w.sent == [r] && r.nonce != 0
       case Draining => w.results == [] && (w.sent == [] ==> w.closed) && (w.sent != [] ==> w.sent[0].nonce == 0)
       case Returned(answer, total) => AllGone(w) && total == w.total && Answered(w.results, w.sent, answer)
  }

  /** The answer is the result sent, exactly when it was received and has a nonzero nonce. */
  predicate Answered(results: seq<Found>, sent: seq<Found>, answer: Option<Found>) {
    if sent != [] && results == [] && sent[0].nonce != 0 then answer == Some(sent[0]) else answer == None
  }

  /** Why a worker has left its loop, and why found is set. */
  predicate Explained(job: Job, w: World) {
    && (forall t :: 0 <= t < |w.workers| ==>
          match w.workers[t].place
          case Bottom => w.found || Local(w.workers[t]) == job.budget
          case Gone(exit) =>
            w.found || (exit.AtBottom? && Local(w.workers[t]) == job.budget) || (exit.OnCancel? && w.cancel)
          case _ => true)
    && (w.found ==> w.cancel || w.sent != [] || exists t :: 0 <= t < |w.workers| && w.workers[t].place.Sending?)
  }

  ghost predicate Inv(job: Job, w: World) {
    && |w.workers| > 0
    && (forall t :: 0 <= t < |w.workers| ==> WorkerOk(job, t, w.workers[t]))
    && w.total == Credited(w.workers)
    && OneWinner(w) && Delivered(job, w) && Explained(job, w)
  }

  lemma InitInv(job: Job, w: World)
    requires Init(w)
    ensures Inv(job, w)
  {
    SumConstant(w.workers, Credit, 0);
  }

  lemma MoveOk(job: Job, w: World, t: nat, me: Worker, step: Step)
    requires WorkerOk(job, t, me) && Can(job, w, me, step)
    ensures WorkerOk(job, t, Move(job, w, t, me, step))
  {
    hide Accepts;
  }

  lemma WorkExplained(job: Job, w: World, t: nat, step: Step)
    requires Inv(job, w) && Enabled(job, w, Work(t, step))
    ensures Explained(job, Next(job, w, Work(t, step)))
  {
    hide Gain, Counted, Accepts, Delivered;
    var v := Next(job, w, Work(t, step));
    if step.Swap? && !w.found {
      assert v.workers[t].place.Sending?;
    } else if w.found && !w.cancel && w.sent == [] && !step.Send? {
      var s :| 0 <= s < |w.workers| && w.workers[s].place.Sending?;
      assert v.workers[s].place.Sending?;
    }
  }

  lemma WorkOneWinner(job: Job, w: World, t: nat, step: Step)
    requires Inv(job, w) && Enabled(job, w, Work(t, step))
    ensures OneWinner(Next(job, w, Work(t, step)))
  {
    hide Gain, WorkerOk, Accepts, Explained, Delivered;
  }

  lemma WorkDelivered(job: Job, w: World, t: nat, step: Step)
    requires Inv(job, w) && Enabled(job, w, Work(t, step))
    ensures Delivered(job, Next(job, w, Work(t, step)))
  {
    hide Gain, Counted, Accepts, Explained, OnPlan, Current;
    assert WorkerOk(job, t, w.workers[t]);
    if step.Send? {
      assert w.sent == [] && [] + [ResultOf(job, w.workers[t])] == [ResultOf(job, w.workers[t])];
    }
  }

  lemma WorkWorkers(job: Job, w: World, t: nat, step: Step)
    requires Inv(job, w) && Enabled(job, w, Work(t, step))
    ensures var v := Next(job, w, Work(t, step));
            |v.workers| == |w.workers| && forall s :: 0 <= s < |v.workers| ==> WorkerOk(job, s, v.workers[s])
  {
    MoveOk(job, w, t, w.workers[t], step);
    hide WorkerOk, Move, Explained, Delivered, OneWinner, Can, ResultOf, Gain, Credited;
  }

  lemma WorkTotal(job: Job, w: World, t: nat, step: Step)
    requires Inv(job, w) && Enabled(job, w, Work(t, step))
    ensures Next(job, w, Work(t, step)).total == Credited(Next(job, w, Work(t, step)).workers)
  {
    SumUpdate(w.workers, Credit, t, Move(job, w, t, w.workers[t], step));
    hide WorkerOk, Explained, Delivered, OneWinner, Can, ResultOf, Gain, NextPlace, Sum;
  }

  lemma WorkKeeps(job: Job, w: World, t: nat, step: Step)
    requires Inv(job, w) && Enabled(job, w, Work(t, step))
    ensures Inv(job, Next(job, w, Work(t, step)))
  {
    WorkExplained(job, w, t, step);
    WorkOneWinner(job, w, t, step);
    WorkDelivered(job, w, t, step);
    WorkWorkers(job, w, t, step);
    WorkTotal(job, w, t, step);
    hide Next, Enabled, WorkerOk, Explained, Delivered, OneWinner, Credited;
  }

  /** The steps of the other goroutines. */
  lemma OtherDelivered(job: Job, w: World, a: Action)
    requires Inv(job, w) && Enabled(job, w, a) && !a.Work?
    ensures Delivered(job, Next(job, w, a))
  {
    hide WorkerOk, Explained, Credited;
  }

  lemma OtherExplained(job: Job, w: World, a: Action)
    requires Inv(job, w) && Enabled(job, w, a) && !a.Work?
    ensures Explained(job, Next(job, w, a))
  {
    hide WorkerOk, Accepts, Genuine, OneWinner, Counted;
  }

  lemma OtherOneWinner(job: Job, w: World, a: Action)
    requires Inv(job, w) && Enabled(job, w, a) && !a.Work?
    ensures OneWinner(Next(job, w, a))
  {
    hide WorkerOk, Explained, Delivered, Credited;
  }

  lemma OtherKeeps(job: Job, w: World, a: Action)
    requires Inv(job, w) && Enabled(job, w, a) && !a.Work?
    ensures Inv(job, Next(job, w, a))
  {
    OtherDelivered(job, w, a);
    OtherExplained(job, w, a);
    OtherOneWinner(job, w, a);
    hide WorkerOk, OneWinner, Delivered, Explained, Credited;
  }

  /** Every step of every goroutine keeps all of it. */
  lemma StepKeeps(job: Job, w: World, a: Action)
    requires Inv(job, w) && Enabled(job, w, a)
    ensures Inv(job, Next(job, w, a))
  {
    hide Inv, Next, Enabled;
    if a.Work? {
      WorkKeeps(job, w, a.t, a.step);
    } else {
      OtherKeeps(job, w, a);
    }
  }

  // ---------------------------------------------------------------- every run ends

  /** Some goroutine can always step until the collector has returned: no send and no receive blocks for good. */
  lemma NoDeadlock(job: Job, w: World) returns (a: Action)
    requires Inv(job, w) && !w.collector.Returned?
    ensures Enabled(job, w, a) && !a.Cancel? && !a.Stop?
  {
    if t :| 0 <= t < |w.workers| && !w.workers[t].place.Gone? {
      a := Work(t, match w.workers[t].place
                   case Head => if Local(w.workers[t]) < job.budget && !w.found then Hash else Leave
                   case Hashed => Probe
                   case Counting => Add
                   case Testing => Test
                   case Winning => Swap
                   case Sending => Send
                   case Bottom => Finish
                   case Gone(_) => Leave);
    } else if !w.closed {
      a := Close;
    } else if !w.done {
      a := Done;
    } else if w.collector.Joining? {
      a := Join;
    } else {
      a := TakeDone;
    }
  }

  /** An upper bound on a worker's remaining steps. */
  function Left(me: Worker, budget: nat): nat {
    var rest := if Local(me) < budget then 8 * (budget - Local(me)) else 0;
    match me.place
    case Head => rest + 2
    case Hashed => rest + 7
    case Counting => rest + 6
    case Testing => rest + 5
    case Winning => rest + 4
    case Sending => rest + 3
    case Bottom => 1
    case Gone(_) => 0
  }

  function LeftOf(job: Job): Worker -> nat {
    (me: Worker) => Left(me, job.budget)
  }

  /** An upper bound on all remaining steps. */
  function Remaining(job: Job, w: World): nat {
    Sum(w.workers, LeftOf(job))
    + (if w.cancel then 0 else 1) + (if w.found then 0 else 1) + (if w.closed then 0 else 1) + (if w.done then 0 else 1)
    + match w.collector case Waiting => 3 case Joining(_) => 2 case Draining => 1 case Returned(_, _) => 0
  }

  lemma MoveDescends(job: Job, w: World, t: nat, me: Worker, step: Step)
    requires Can(job, w, me, step)
    ensures Left(Move(job, w, t, me, step), job.budget) < Left(me, job.budget)
  {
    hide Accepts, Gain;
  }

  lemma StepDescends(job: Job, w: World, a: Action)
    requires Enabled(job, w, a)
    ensures Remaining(job, Next(job, w, a)) < Remaining(job, w)
  {
    hide Left, Move, Sum, Accepts, AllGone;
    match a
    case Work(t, step) =>
      MoveDescends(job, w, t, w.workers[t], step);
      SumUpdate(w.workers, LeftOf(job), t, Move(job, w, t, w.workers[t], step));
    case _ =>
  }

  // ---------------------------------------------------------------- over whole runs

  ghost predicate Execution(job: Job, run: seq<World>, actions: seq<Action>) {
    && |run| == |actions| + 1 && Init(run[0])
    && forall i :: 0 <= i < |actions| ==>
          Enabled(job, run[i], actions[i])
          && run[i + 1] == Next(job, run[i], actions[i])
  }

  lemma {:induction false} ExecutionInv(job: Job, run: seq<World>, actions: seq<Action>, n: nat)
    requires Execution(job, run, actions) && n < |run|
    ensures Inv(job, run[n]) && |run[n].workers| == |run[0].workers|
    ensures n + Remaining(job, run[n]) <= Remaining(job, run[0])
    decreases n
  {
    hide Inv, Remaining, Init;
    if n == 0 {
      InitInv(job, run[0]);
    } else {
      ExecutionInv(job, run, actions, n - 1);
      StepKeeps(job, run[n - 1], actions[n - 1]);
      StepDescends(job, run[n - 1], actions[n - 1]);
    }
  }

  /** Every run is finite, at most eight steps for each hash of the budget and two more a worker, and seven; and a
      run that cannot be continued ends with the collector returned. */
  lemma EveryRunReturns(job: Job, run: seq<World>, actions: seq<Action>)
    requires Execution(job, run, actions)
    ensures |actions| <= |run[0].workers| * (8 * job.budget + 2) + 7
    ensures (forall a :: !Enabled(job, run[|actions|], a)) ==> run[|actions|].collector.Returned?
  {
    ExecutionInv(job, run, actions, |actions|);
    SumConstant(run[0].workers, LeftOf(job), 8 * job.budget + 2);
    hide Inv, Sum, Enabled;
    if !run[|actions|].collector.Returned? {
      var a := NoDeadlock(job, run[|actions|]);
    }
  }

  /** In every interleaving: at most one result is ever sent, a worker that is about to send finds room in an
      open channel, what is returned as found is a nonzero nonce with its hash, which meets the target, and the
      count never exceeds the hashes performed, nor lags them by more than 500 a worker. */
  lemma SearchSound(job: Job, run: seq<World>, actions: seq<Action>, n: nat)
    requires Execution(job, run, actions) && n < |run|
    ensures |run[n].sent| <= 1
    ensures forall t :: 0 <= t < |run[n].workers| && run[n].workers[t].place.Sending? ==>
              !run[n].closed && |run[n].results| < |run[n].workers|
    ensures run[n].collector.Returned? && run[n].collector.answer.Some? ==>
              var r := run[n].collector.answer.value;
              r.nonce != 0 && r.hash == job.hash(r.nonce) && FromLE(r.hash) <= job.target
    ensures run[n].total <= Performed(run[n].workers) <= run[n].total + 500 * |run[n].workers|
  {
    ExecutionInv(job, run, actions, n);
    CountLag(job, run[n]);
    hide Remaining, Execution, Explained, Counted;
  }

  /** What a worker has hashed and not added to totalHashes. */
  function Lag(me: Worker): nat {
    if me.credit <= Local(me) then Local(me) - me.credit else 0
  }

  lemma CountLag(job: Job, w: World)
    requires Inv(job, w)
    ensures Performed(w.workers) == w.total + Sum(w.workers, Lag)
    ensures Sum(w.workers, Lag) <= 500 * |w.workers|
  {
    hide Accepts, OneWinner, Delivered, Explained, OnPlan;
    SumDifference(w.workers, Local, Credit, Lag);
    SumBound(w.workers, Lag, 500);
  }

  /** Which runs return what they found: with a result sent, the collector's answer is that result if it is no longer
      in the channel and its nonce is not zero, and no answer otherwise; without one there is no answer. */
  lemma AnswerExact(job: Job, run: seq<World>, actions: seq<Action>, n: nat)
    requires Execution(job, run, actions) && n < |run| && run[n].collector.Returned?
    ensures var w := run[n];
      && (w.collector.answer.Some? <==> w.sent != [] && w.results == [] && w.sent[0].nonce != 0)
      && (w.collector.answer.Some? ==> w.collector.answer.value == w.sent[0])
  {
    ExecutionInv(job, run, actions, n);
    hide Remaining, Execution, Explained, OneWinner;
  }

  /** What a worker that has left never added. */
  function Missed(me: Worker): nat {
    if me.place.Gone? then Uncounted(me.place.exit, Local(me)) else 0
  }

  /** The count returned misses exactly the last localHashCount % 500 hashes of each worker that left on a hash that met
      the target, and 500 of each that left on cancel; it is every hash performed if and only if these are none. */
  lemma CountExact(job: Job, run: seq<World>, actions: seq<Action>, n: nat)
    requires Execution(job, run, actions) && n < |run| && run[n].collector.Returned?
    ensures Performed(run[n].workers) == run[n].collector.total + Sum(run[n].workers, Missed)
    ensures run[n].collector.total == Performed(run[n].workers) <==>
              forall t :: 0 <= t < |run[n].workers| ==> Missed(run[n].workers[t]) == 0
  {
    ExecutionInv(job, run, actions, n);
    hide Remaining, Execution, Explained, OneWinner, OnPlan, Accepts;
    SumDifference(run[n].workers, Local, Credit, Missed);
    SumZero(run[n].workers, Missed);
  }

  lemma {:induction false} SumZero(ws: seq<Worker>, f: Worker -> nat)
    ensures Sum(ws, f) == 0 <==> forall t :: 0 <= t < |ws| ==> f(ws[t]) == 0
  {
    if ws != [] {
      SumZero(ws[1..], f);
      assert forall t :: 0 < t < |ws| ==> ws[t] == ws[1..][t - 1];
    }
  }

  /** When no planned nonce meets the target and nothing cancels, a returned search has hashed every worker's
      whole plan, each nonce of it once and in order, found nothing, and returns their number. */
  lemma SearchExhausts(job: Job, run: seq<World>, actions: seq<Action>, n: nat)
    requires Execution(job, run, actions) && n < |run| && run[n].collector.Returned? && !run[n].cancel
    requires NoneAccepted(job, |run[0].workers|)
    ensures var w := run[n];
      && |w.workers| == |run[0].workers|
      && (forall t :: 0 <= t < |w.workers| ==>
            |w.workers[t].tested| == job.budget && OnPlan(job, t, w.workers[t].tested))
      && w.collector == Returned(None, |w.workers| * job.budget)
  {
    ExecutionInv(job, run, actions, n);
    NothingSent(job, run, actions, n);
    var w := run[n];
    hide Remaining, Execution, OneWinner, Accepts;
    assert forall t :: 0 <= t < |w.workers| ==>
             w.workers[t].place == Gone(AtBottom)
             && Local(w.workers[t]) == job.budget;
    CountExact(job, run, actions, n);
    SumConstant(w.workers, Local, job.budget);
  }

  /** Only a planned nonce can win. */
  lemma WinnerPlanned(job: Job, w: World, t: nat)
    requires Inv(job, w) && t < |w.workers| && w.workers[t].place.Sending?
    ensures exists k: nat :: k < job.budget && Accepts(job, job.plan(t, k))
  {
    hide Accepts, Counted, OneWinner, Delivered, Explained;
    var me := w.workers[t];
    assert WorkerOk(job, t, me);
    assert Current(me) == job.plan(t, |me.tested| - 1);
  }

  predicate NoneAccepted(job: Job, threads: nat) {
    forall t: nat, k: nat :: t < threads && k < job.budget ==> !Accepts(job, job.plan(t, k))
  }

  lemma NobodySends(job: Job, w: World)
    requires Inv(job, w) && NoneAccepted(job, |w.workers|)
    ensures forall t :: 0 <= t < |w.workers| ==> !w.workers[t].place.Sending?
  {
    hide Inv, Accepts;
    forall t: nat | t < |w.workers|
      ensures !w.workers[t].place.Sending?
    {
      if w.workers[t].place.Sending? {
        WinnerPlanned(job, w, t);
      }
    }
  }

  lemma SentStays(job: Job, w: World, a: Action)
    requires Enabled(job, w, a) && forall t :: 0 <= t < |w.workers| ==> !w.workers[t].place.Sending?
    ensures Next(job, w, a).sent == w.sent
  {
    hide Move, Gain;
  }

  lemma {:induction false} NothingSent(job: Job, run: seq<World>, actions: seq<Action>, n: nat)
    requires Execution(job, run, actions) && n < |run| && NoneAccepted(job, |run[0].workers|)
    ensures run[n].sent == [] && forall t :: 0 <= t < |run[n].workers| ==> !run[n].workers[t].place.Sending?
    decreases n
  {
    hide Remaining, Inv, NoneAccepted, Next, Enabled;
    ExecutionInv(job, run, actions, n);
    NobodySends(job, run[n]);
    if n > 0 {
      NothingSent(job, run, actions, n - 1);
      SentStays(job, run[n - 1], actions[n - 1]);
    }
  }

  // ---------------------------------------------------------------- what is reported

  /** Whether the comparison of the current nonce is over and found no win. */
  predicate Cleared(place: Place) {
    place.Head? || place.Bottom? || place == Gone(AtBottom)
  }

  /** No nonce before the current one meets the target, nor does the current one of a worker that went on; a worker
      that left on a win has one that does. */
  predicate Compared(job: Job, me: Worker) {
    && (forall k :: 0 <= k < |me.tested| - (if Cleared(me.place) then 0 else 1) ==> !Accepts(job, me.tested[k]))
    && (me.place == Gone(OnWin) ==> me.tested != [] && Accepts(job, Current(me)))
  }

  lemma MoveCompared(job: Job, w: World, t: nat, me: Worker, step: Step)
    requires WorkerOk(job, t, me) && Compared(job, me) && Can(job, w, me, step)
    ensures Compared(job, Move(job, w, t, me, step))
  {
    hide Accepts, Counted, OnPlan;
  }

  /** The nonce sent has been hashed by some worker. */
  predicate HasTested(w: World, nonce: U32) {
    exists t :: 0 <= t < |w.workers| && nonce in w.workers[t].tested
  }

  predicate SentTested(w: World) {
    forall k :: 0 <= k < |w.sent| ==> HasTested(w, w.sent[k].nonce)
  }

  lemma TestedStays(job: Job, w: World, a: Action, nonce: U32)
    requires Enabled(job, w, a) && HasTested(w, nonce)
    ensures HasTested(Next(job, w, a), nonce)
  {
    hide Can, NextPlace, Gain, ResultOf;
    var t :| 0 <= t < |w.workers| && nonce in w.workers[t].tested;
    assert nonce in Next(job, w, a).workers[t].tested;
  }

  lemma StepTested(job: Job, w: World, a: Action)
    requires Inv(job, w) && SentTested(w) && Enabled(job, w, a)
    ensures SentTested(Next(job, w, a))
  {
    var v := Next(job, w, a);
    forall k | 0 <= k < |v.sent|
      ensures HasTested(v, v.sent[k].nonce)
    {
      if k < |w.sent| {
        TestedStays(job, w, a, w.sent[k].nonce);
      } else {
        SenderTested(job, w, a.t);
        TestedStays(job, w, a, Current(w.workers[a.t]));
      }
    }
  }

  lemma SenderTested(job: Job, w: World, t: nat)
    requires Inv(job, w) && t < |w.workers| && w.workers[t].place.Sending?
    ensures HasTested(w, Current(w.workers[t]))
  {
    hide Accepts, OneWinner, Delivered, Explained, Counted, OnPlan;
    assert WorkerOk(job, t, w.workers[t]);
    assert Current(w.workers[t]) in w.workers[t].tested;
  }

  lemma StepCompared(job: Job, w: World, a: Action)
    requires Inv(job, w) && Enabled(job, w, a)
    requires forall t :: 0 <= t < |w.workers| ==> Compared(job, w.workers[t])
    ensures var v := Next(job, w, a); forall t :: 0 <= t < |v.workers| ==> Compared(job, v.workers[t])
  {
    hide WorkerOk, Compared, OneWinner, Delivered, Explained, Move, Can, Gain, ResultOf;
    if a.Work? {
      MoveCompared(job, w, a.t, w.workers[a.t], a.step);
    }
  }

  lemma InitCompared(job: Job, w: World)
    requires Init(w)
    ensures SentTested(w) && forall t :: 0 <= t < |w.workers| ==> Compared(job, w.workers[t])
  {
  }

  /** In every run: every nonce a worker has passed over fails the comparison, and what was sent was hashed. */
  lemma {:induction false} RunCompared(job: Job, run: seq<World>, actions: seq<Action>, n: nat)
    requires Execution(job, run, actions) && n < |run|
    ensures forall t :: 0 <= t < |run[n].workers| ==> Compared(job, run[n].workers[t])
    ensures SentTested(run[n])
    decreases n
  {
    hide Inv, Compared, Next, Enabled, SentTested, Init;
    if n == 0 {
      InitCompared(job, run[0]);
    } else {
      ExecutionInv(job, run, actions, n - 1);
      RunCompared(job, run, actions, n - 1);
      StepCompared(job, run[n - 1], actions[n - 1]);
      StepTested(job, run[n - 1], actions[n - 1]);
    }
  }

  /** A returned search that was not cancelled has sent a result if and only if one of the nonces it hashed meets the
      target, and if and only if one of those planned does. */
  lemma SearchDecides(job: Job, run: seq<World>, actions: seq<Action>, n: nat)
    requires Execution(job, run, actions) && n < |run| && run[n].collector.Returned? && !run[n].cancel
    ensures run[n].sent == [] <==>
              forall t, k :: 0 <= t < |run[n].workers| && 0 <= k < |run[n].workers[t].tested| ==>
                FromLE(job.hash(run[n].workers[t].tested[k])) > job.target
    ensures run[n].sent == [] <==>
              forall t: nat, k: nat :: t < |run[0].workers| && k < job.budget ==>
                FromLE(job.hash(job.plan(t, k))) > job.target
  {
    ExecutionInv(job, run, actions, n);
    RunCompared(job, run, actions, n);
    hide Execution, Remaining;
    if run[n].sent == [] {
      NothingMissed(job, run[n]);
    } else {
      WinTested(job, run[n]);
    }
  }

  /** With nothing sent, every worker hashed its plan to the end and nothing in it meets the target. */
  lemma NothingMissed(job: Job, w: World)
    requires Inv(job, w) && forall t :: 0 <= t < |w.workers| ==> Compared(job, w.workers[t])
    requires w.collector.Returned? && !w.cancel && w.sent == []
    ensures forall t, k :: 0 <= t < |w.workers| && 0 <= k < |w.workers[t].tested| ==>
              !Accepts(job, w.workers[t].tested[k])
    ensures NoneAccepted(job, |w.workers|)
  {
    hide Accepts, OneWinner, Credited;
    forall t: nat, k: nat | t < |w.workers| && k < job.budget
      ensures !Accepts(job, job.plan(t, k))
    {
      assert WorkerOk(job, t, w.workers[t]) && Compared(job, w.workers[t]);
      assert w.workers[t].tested[k] == job.plan(t, k);
    }
  }

  /** What was sent was planned and hashed, and meets the target. */
  lemma WinTested(job: Job, w: World)
    requires Inv(job, w) && SentTested(w) && w.sent != []
    ensures exists t, k :: 0 <= t < |w.workers| && 0 <= k < |w.workers[t].tested|
                           && Accepts(job, w.workers[t].tested[k])
    ensures !NoneAccepted(job, |w.workers|)
  {
    hide Accepts, OneWinner, Credited, Explained, Counted;
    var nonce := w.sent[0].nonce;
    assert HasTested(w, nonce) && Genuine(job, w.sent[0]);
    var t :| 0 <= t < |w.workers| && nonce in w.workers[t].tested;
    var k: nat :| k < |w.workers[t].tested| && w.workers[t].tested[k] == nonce;
    assert WorkerOk(job, t, w.workers[t]);
    assert nonce == job.plan(t, k);
  }

  // ---------------------------------------------------------------- stopping

  /** Once found is set nobody hashes another nonce, and it stays set. */
  lemma {:induction false} FoundStops(job: Job, run: seq<World>, actions: seq<Action>, m: nat, n: nat)
    requires Execution(job, run, actions) && m <= n < |run| && run[m].found
    ensures run[n].found && |run[n].workers| == |run[m].workers|
    ensures forall t :: 0 <= t < |run[n].workers| ==> run[n].workers[t].tested == run[m].workers[t].tested
    decreases n - m
  {
    hide Init, Next, Enabled;
    if m < n {
      FoundStops(job, run, actions, m, n - 1);
      StepFound(job, run[n - 1], actions[n - 1]);
    }
  }

  lemma StepFound(job: Job, w: World, a: Action)
    requires Enabled(job, w, a) && w.found
    ensures var v := Next(job, w, a);
            && v.found && |v.workers| == |w.workers|
            && forall t :: 0 <= t < |v.workers| ==> v.workers[t].tested == w.workers[t].tested
  {
    hide NextPlace, Gain, ResultOf, AllGone, Current;
  }

  /** Where a cancelled worker stops: at its next multiple of 500, or at the one it has reached and not yet probed. */
  function LastStop(me: Worker): nat {
    if me.place.Hashed? || me.place.Gone? then (Local(me) + 499) / 500 * 500 else Local(me) / 500 * 500 + 500
  }

  lemma MoveStops(job: Job, w: World, t: nat, me: Worker, step: Step)
    requires Can(job, w, me, step) && w.cancel
    ensures LastStop(Move(job, w, t, me, step)) <= LastStop(me)
  {
    hide Accepts, Gain;
  }

  lemma StepStops(job: Job, w: World, a: Action, t: nat)
    requires Enabled(job, w, a) && w.cancel && t < |w.workers|
    ensures var v := Next(job, w, a);
            v.cancel && |v.workers| == |w.workers| && LastStop(v.workers[t]) <= LastStop(w.workers[t])
  {
    if a.Work? && a.t == t {
      MoveStops(job, w, t, w.workers[t], a.step);
    }
    hide Can, Move, LastStop, ResultOf, Gain, AllGone;
  }

  lemma StopsLater(me: Worker)
    ensures Local(me) <= LastStop(me) <= Local(me) + 500 && LastStop(me) % 500 == 0
  {
  }

  /** After cancelMining is set, no worker hashes past the next multiple of 500. */
  lemma {:induction false} CancelStops(job: Job, run: seq<World>, actions: seq<Action>, m: nat, n: nat, t: nat)
    requires Execution(job, run, actions) && m <= n < |run| && run[m].cancel && t < |run[m].workers|
    ensures run[n].cancel && |run[n].workers| == |run[m].workers|
    ensures LastStop(run[n].workers[t]) <= LastStop(run[m].workers[t])
    ensures Local(run[n].workers[t]) <= LastStop(run[m].workers[t]) <= Local(run[m].workers[t]) + 500
    decreases n - m
  {
    hide Init, Next, Enabled, LastStop, Local;
    StopsLater(run[m].workers[t]);
    if m < n {
      CancelStops(job, run, actions, m, n - 1, t);
      StepStops(job, run[n - 1], actions[n - 1], t);
      StopsLater(run[n].workers[t]);
    }
  }

  // ---------------------------------------------------------------- when a result can be lost

  function Last(run: seq<World>): World
    requires run != []
  {
    run[|run| - 1]
  }

  /** Whoever wins, the search returns it: with `threads` workers, in every run. */
  ghost predicate NeverLoses(job: Job, threads: nat) {
    forall run: seq<World>, actions: seq<Action> :: Execution(job, run, actions) && |run[0].workers| == threads
      ==> KeepsResult(Last(run))
  }

  predicate KeepsResult(w: World) {
    w.collector.Returned? && w.sent != [] ==> w.collector.answer == Some(w.sent[0])
  }

  lemma Extend(job: Job, run: seq<World>, actions: seq<Action>, a: Action)
    returns (run': seq<World>, actions': seq<Action>)
    requires Execution(job, run, actions) && Enabled(job, Last(run), a)
    ensures Execution(job, run', actions') && run' != [] && run'[0] == run[0]
    ensures Last(run') == Next(job, Last(run), a)
  {
    hide Enabled, Next, Init;
    run', actions' := run + [Next(job, Last(run), a)], actions + [a];
    forall i | 0 <= i < |actions'|
      ensures Enabled(job, run'[i], actions'[i]) && run'[i + 1] == Next(job, run'[i], actions'[i])
    {
      if i < |actions| {
        assert actions'[i] == actions[i] && run'[i] == run[i] && run'[i + 1] == run[i + 1];
      }
    }
  }

  /** Only worker t has moved, and the collector still waits. */
  ghost predicate Alone(job: Job, w: World, threads: nat, t: nat, place: Place, k: nat) {
    && t < |w.workers| == threads && w.workers[t].place == place
    && |w.workers[t].tested| == k && OnPlan(job, t, w.workers[t].tested)
    && (forall s :: 0 <= s < threads && s != t ==> w.workers[s].place == Head)
    && !w.cancel && w.results == w.sent && !w.closed && !w.done && w.collector == Waiting
  }

  /** Before any result. */
  ghost predicate Searching(job: Job, w: World, threads: nat, t: nat, place: Place, k: nat) {
    Alone(job, w, threads, t, place, k) && !w.found && w.sent == []
  }

  lemma Hashes(job: Job, w: World, threads: nat, t: nat, k: nat)
    requires Searching(job, w, threads, t, Head, k) && k < job.budget
    ensures Enabled(job, w, Work(t, Hash))
    ensures Searching(job, Next(job, w, Work(t, Hash)), threads, t, Hashed, k + 1)
  {
    hide Gain;
  }

  /** A step of worker t that neither hashes nor wins. */
  lemma Moves(job: Job, w: World, threads: nat, t: nat, place: Place, k: nat, step: Step)
    requires Searching(job, w, threads, t, place, k)
    requires place == match step case Probe => Hashed case Add => Counting case Test => Testing case _ => Head
    requires step.Probe? || step.Add? || step.Test?
    ensures Enabled(job, w, Work(t, step))
    ensures Searching(job, Next(job, w, Work(t, step)), threads, t, NextPlace(job, w, w.workers[t], step), k)
  {
    hide Gain, Accepts;
  }

  /** From the loop head to the comparison with the target. */
  lemma ToTest(job: Job, run: seq<World>, actions: seq<Action>, threads: nat, t: nat, k: nat)
    returns (run': seq<World>, actions': seq<Action>)
    requires run != [] && Execution(job, run, actions) && Searching(job, Last(run), threads, t, Head, k)
             && k < job.budget
    ensures Execution(job, run', actions') && run' != [] && run'[0] == run[0]
    ensures Searching(job, Last(run'), threads, t, Testing, k + 1)
  {
    hide Execution, Next, Enabled;
    Hashes(job, Last(run), threads, t, k);
    run', actions' := Extend(job, run, actions, Work(t, Hash));
    Moves(job, Last(run'), threads, t, Hashed, k + 1, Probe);
    run', actions' := Extend(job, run', actions', Work(t, Probe));
    if (k + 1) % 500 == 0 {
      Moves(job, Last(run'), threads, t, Counting, k + 1, Add);
      run', actions' := Extend(job, run', actions', Work(t, Add));
    }
  }

  lemma TestedLast(job: Job, w: World, threads: nat, t: nat, k: nat)
    requires Searching(job, w, threads, t, Testing, k + 1)
    ensures Current(w.workers[t]) == job.plan(t, k)
  {
  }

  /** Worker t alone, up to the first nonce of its plan that wins. */
  lemma {:induction false} ToWin(job: Job, run: seq<World>, actions: seq<Action>,
                                threads: nat, t: nat, k: nat, end: nat)
    returns (run': seq<World>, actions': seq<Action>, first: nat)
    requires run != [] && Execution(job, run, actions) && Searching(job, Last(run), threads, t, Head, k)
    requires k <= end < job.budget && Accepts(job, job.plan(t, end))
    ensures Execution(job, run', actions') && run' != [] && run'[0] == run[0]
    ensures Searching(job, Last(run'), threads, t, Winning, first)
    decreases end - k
  {
    hide Execution, Next, Enabled, Accepts, Searching;
    run', actions' := ToTest(job, run, actions, threads, t, k);
    TestedLast(job, Last(run'), threads, t, k);
    Moves(job, Last(run'), threads, t, Testing, k + 1, Test);
    run', actions' := Extend(job, run', actions', Work(t, Test));
    if Accepts(job, job.plan(t, k)) {
      first := k + 1;
    } else {
      run', actions', first := ToWin(job, run', actions', threads, t, k + 1, end);
    }
  }

  /** A result is in the channel, the first `gone` workers and the winner have left, the others are at the loop head. */
  ghost predicate Delivering(w: World, threads: nat, t: nat, gone: nat) {
    && t < |w.workers| == threads && gone <= threads
    && (forall s :: 0 <= s < threads ==>
          if s == t || s < gone then w.workers[s].place.Gone? else w.workers[s].place == Head)
    && w.found && |w.results| == 1 && w.results == w.sent && !w.closed && !w.done && w.collector == Waiting
  }

  lemma SwapStep(job: Job, w: World, threads: nat, t: nat, k: nat)
    requires Searching(job, w, threads, t, Winning, k)
    ensures Enabled(job, w, Work(t, Swap))
    ensures var v := Next(job, w, Work(t, Swap)); Alone(job, v, threads, t, Sending, k) && v.found && v.sent == []
  {
    hide Gain, OnPlan;
  }

  lemma SendStep(job: Job, w: World, threads: nat, t: nat, k: nat)
    requires Alone(job, w, threads, t, Sending, k) && w.found && w.sent == []
    ensures Enabled(job, w, Work(t, Send))
    ensures Delivering(Next(job, w, Work(t, Send)), threads, t, 0)
  {
    hide Gain, OnPlan;
  }

  lemma LeaveStep(job: Job, w: World, threads: nat, t: nat, gone: nat)
    requires Delivering(w, threads, t, gone) && gone < threads && gone != t
    ensures Enabled(job, w, Work(gone, Leave))
    ensures var v := Next(job, w, Work(gone, Leave));
      Enabled(job, v, Work(gone, Finish)) && Delivering(Next(job, v, Work(gone, Finish)), threads, t, gone + 1)
  {
    hide Gain;
  }

  /** The other workers see found and leave. */
  lemma {:induction false} AllLeave(job: Job, run: seq<World>, actions: seq<Action>, threads: nat, t: nat, gone: nat)
    returns (run': seq<World>, actions': seq<Action>)
    requires run != [] && Execution(job, run, actions) && Delivering(Last(run), threads, t, gone)
    ensures Execution(job, run', actions') && run' != [] && run'[0] == run[0]
    ensures Delivering(Last(run'), threads, t, threads)
    decreases threads - gone
  {
    hide Execution, Next, Enabled;
    run', actions' := run, actions;
    if gone < threads {
      if gone != t {
        LeaveStep(job, Last(run'), threads, t, gone);
        run', actions' := Extend(job, run', actions', Work(gone, Leave));
        run', actions' := Extend(job, run', actions', Work(gone, Finish));
      }
      run', actions' := AllLeave(job, run', actions', threads, t, gone + 1);
    }
  }

  lemma DoneSteps(job: Job, w: World, threads: nat, t: nat)
    requires Delivering(w, threads, t, threads)
    ensures Enabled(job, w, Close)
    ensures var v := Next(job, w, Close);
      && Enabled(job, v, Done) && Enabled(job, Next(job, v, Done), TakeDone)
      && !KeepsResult(Next(job, Next(job, v, Done), TakeDone))
  {
  }

  /** The select takes done while the result waits in the channel. */
  lemma Loses(job: Job, threads: nat, t: nat, k: nat) returns (run: seq<World>, actions: seq<Action>)
    requires t < threads && k < job.budget && Accepts(job, job.plan(t, k))
    ensures Execution(job, run, actions) && |run[0].workers| == threads && !KeepsResult(Last(run))
  {
    var workers := seq(threads, _ => Worker(Head, [], 0));
    run, actions := [World(workers, false, false, 0, [], [], false, false, Waiting)], [];
    assert Searching(job, Last(run), threads, t, Head, 0);
    hide Execution, Next, Enabled, Accepts, KeepsResult, Searching, Alone, Delivering;
    var first;
    run, actions, first := ToWin(job, run, actions, threads, t, 0, k);
    SwapStep(job, Last(run), threads, t, first);
    run, actions := Extend(job, run, actions, Work(t, Swap));
    SendStep(job, Last(run), threads, t, first);
    run, actions := Extend(job, run, actions, Work(t, Send));
    run, actions := AllLeave(job, run, actions, threads, t, 0);
    DoneSteps(job, Last(run), threads, t);
    run, actions := Extend(job, run, actions, Close);
    run, actions := Extend(job, run, actions, Done);
    run, actions := Extend(job, run, actions, TakeDone);
  }

  /** The search returns whatever it finds, in every run, exactly for the jobs in which there is nothing to find: for
      any number of workers and any winning nonce of any plan, some run loses it. */
  lemma NeverLosesExact(job: Job, threads: nat)
    ensures NeverLoses(job, threads) <==> NoneAccepted(job, threads)
  {
    hide Accepts;
    if NoneAccepted(job, threads) {
      forall run: seq<World>, actions: seq<Action> | Execution(job, run, actions) && |run[0].workers| == threads
        ensures KeepsResult(Last(run))
      {
        NothingSent(job, run, actions, |actions|);
      }
    } else {
      var t: nat, k: nat :| t < threads && k < job.budget && Accepts(job, job.plan(t, k));
      var run, actions := Loses(job, threads, t, k);
    }
  }
}
