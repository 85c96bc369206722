# A verified model of a Dogecoin miner

The repository is a solo miner for Dogecoin: a header-chain client that speaks the peer-to-peer protocol, an
OpenCL scrypt kernel, CPU and GPU nonce searches, the difficulty rules, and the path from a block template to a
submitted block. This project models those parts and proves what they keep. `dafny verify dfyconfig.toml` checks
everything.

| module | models | main results |
|---|---|---|
| `Bytes`, `Bits` | byte orders, `big.Int` bytes, hexadecimal, bitwise operators | round trips; masks and shifts as arithmetic |
| `Difficulty` | compact bits, the DigiShield retarget | exact rounding, bounds, monotonicity, and where each ends |
| `Wire` | transaction, AuxPoW and header encodings, and skipping them | exact round trips; progress on arbitrary bytes |
| `WireFormat` | the same encodings read field by field | what is serialized is read back whole |
| `HeaderChain` | `processHeaders` and its client | what is accepted and committed; independence of how a chain is cut into messages; failed batches |
| `TipHistory` | the recorded block hashes | what they are over any payloads, and exactly when they stay a window |
| `Sync` | locators and the `getheaders` loop | the loop reaches an honest peer's tip |
| `Monitor` | the payment monitor beside the sync loop | sound and complete verdicts in every interleaving |
| `PaymentRecords` | its lists | what they hold in every interleaving |
| `Scrypt` | SHA-256 padding, HMAC, PBKDF2, scrypt as published | the unrolled forms |
| `Pbkdf2Kernel`, `RomixKernel`, `MineKernel` | the OpenCL kernel on arrays | it computes scrypt; the comparison |
| `KernelBatch` | work items on shared buffers, the host's check | the split kernels refine the single one; which wins are kept |
| `HashCompare` | the byte-wise comparison | it decides numeric order; when the two byte orders agree |
| `ParallelSearch` | the goroutines of the GPU miner's parallel search | safety, counting, termination and answers in every interleaving |
| `CpuSearch` | the collector of the CPU miner's parallel search | exactly which wins it keeps |
| `NonceSearch` | the GPU batch loop and the stride distribution | termination, tiling, exact coverage |
| `StrideSearch` | the parallel search in stride mode | exact coverage in every interleaving |
| `MineSubmit` | template, block, search, re-verification | miner and verifier agree; from tip to broadcast |
| `Base58` | address decoding | inverse of the standard encoding |

Double SHA-256, the SHA-256 compression function, Salsa20/8 and the scrypt hash of a header (outside the kernel
modules) are function parameters, so every result holds for any of them. Time, the peer's messages, driver
outcomes and random starts are parameters too. Classes and arrays are used where the source updates objects and
buffers; goroutines are a state machine whose steps are the atomic operations.

Where the code differs from its own comments, the code is modelled:

- the dampened timespan is clamped at 45 seconds in the code, a value it never reaches (`pow_dogecoin.go:60-66`);
- the history is said to keep 500 heights; it keeps 501, and more after a rejected message that went more than 501
  heights ahead, until the chain reaches that height again (`p2p.go:1975-1991`);
- the compact encoder is said to encode any positive target and drops the exponent below 2^24 (`pow_dogecoin.go:38-41`);
- both branches of the block reward return the same constant (`template_builder.go:20-27`);
- the GPU kernel reads the scrypt hash as a big-endian number, the CPU checks read the same bytes as a
  little-endian one, which keeps every kernel win only on the targets 0 and from 2^256 - 2
  (`scrypt_kernel.cl:382-393`, `gpu_miner.go:1615-1634`);
- the CPU miner's collector is said to double-check the hash and tests its bytes reversed, as they were sent for
  display (`scrypt.go:445-450`);
- stride nonces are reduced modulo 0xFFFFFFFF, so that nonce is never tested (`scrypt.go:367`).

## Model

| member | source | states |
|---|---|---|
| Bytes.DisplayHexInjective | hash_compare.go:11-19 | Two 32-byte hashes with the same display text are the same hash, so comparing display texts compares hashes |
| Bytes.HexRoundTrip | hash_compare.go:11-19 | Decoding hexadecimal text undoes encoding, for every byte string |
| Difficulty.EncodingIsLargestBelow | pow_dogecoin.go:32-49 | For 2^24 <= n < 2^256 the encoder picks, among all sign-clear encodings, the largest target not above n |
| Difficulty.LargestOfAll | pow_dogecoin.go:32-49 | It picks the largest among all 32-bit encodings if and only if the three leading bytes leave the sign bit clear or end in a zero byte |
| Difficulty.EncodingLoss | pow_dogecoin.go:32-49 | The encoding loses less than one part in 2^15 |
| Difficulty.EncodingMonotone | pow_dogecoin.go:32-49 | A larger target never gets smaller bits, from 2^24 up |
| Difficulty.EncodingIdempotent | pow_dogecoin.go:32-49 | Decoding and encoding again changes nothing |
| Difficulty.CanonicalRoundTrip | template_builder.go:31-42 | Canonical bits of a target of at least 2^24 survive decode and encode |
| Difficulty.DecodeForm | template_builder.go:31-42 | What bits decode to, in closed form: the low three bytes times 256^(size - 3), or shifted right below size 3 |
| Difficulty.SmallTargetsVanish | pow_dogecoin.go:38-41 | A positive target decodes back to something positive if and only if it is at least 2^24: below, the encoder drops the exponent |
| Difficulty.ShortEncoding | pow_dogecoin.go:38-41 | What the encoder returns below 2^24: the target's bytes left-aligned in three, without an exponent |
| Difficulty.SmallEncoding | pow_dogecoin.go:38-41 | The bits of a positive target of at most three bytes are below 2^24 and decode to zero |
| Difficulty.RoundingMonotone | pow_dogecoin.go:32-49 | Decode after encode keeps order over all targets up to 2^256, the vanishing ones included |
| Difficulty.TimespanLaws | pow_dogecoin.go:55-66 | The dampened timespan lies in [53, 90], is monotone in the actual one, and is exactly 60 for 53 to 67 seconds (Go's truncating division) |
| Difficulty.TimespanDamped | pow_dogecoin.go:55-66 | For gaps of 1 to 307 seconds the timespan is off a minute by an eighth of what the gap is, rounded toward a minute and to the same side; 53 below and 90 above |
| Difficulty.RetargetBounds | pow_dogecoin.go:71-75 | The new target is at least 53/60 of the prior one or the pow limit, at most 3/2 of it, and never above the limit |
| Difficulty.RetargetExact | pow_dogecoin.go:71-75 | Under the pow limit the new target is prior * timespan / 60 rounded down |
| Difficulty.RetargetMonotone | pow_dogecoin.go:71-75 | A longer timespan never gives a smaller target |
| Difficulty.PowLimitBytes | pow_dogecoin.go:19-26 | The pow limit is the 32-byte constant of the source |
| Difficulty.DigishieldMonotone | pow_dogecoin.go:53-77 | The next decoded target is monotone in tip time minus parent time, for any tip bits and times |
| Difficulty.DigishieldBitsMonotone | pow_dogecoin.go:53-77 | The bits themselves are monotone in the gap, over all times, if and only if the smallest and the largest possible new target are not separated by 2^8 or 2^16 |
| Difficulty.EncodingKeepsOrder | pow_dogecoin.go:32-49 | Bits keep the order of any two targets that such a gain of a byte below 2^24 does not separate |
| Difficulty.StableBits | pow_dogecoin.go:53-77 | Canonical bits with a target from 2^24 to the pow limit stay the same for any gap of 53 to 67 seconds |
| Difficulty.FastBlocksAreHarder | pow_dogecoin.go:53-77 | A gap below 53 seconds strictly lowers every positive target, rounding included |
| Difficulty.MainnetNextWork | pow_dogecoin.go:82-114 | On mainnet under DigiShield the next decoded target is within the pow limit and 3/2 of the tip's, whatever the block time and carried bits |
| Difficulty.NextWorkRetargets | pow_dogecoin.go:82-114 | From tip height 145000 with a known parent time, unless a testnet rule decides: canonical in-range bits stay for tip time minus parent time in [53, 67], and every positive target strictly falls below 53 |
| Difficulty.NextWorkMonotone | pow_dogecoin.go:82-114 | There, for the same bits, the next decoded target is monotone in the tip's time and antitone in the parent's |
| Difficulty.NextWorkKeeps | pow_dogecoin.go:99-111 | Below height 145000 or with parent time 0 the tip's bits are kept; on testnet from 157500 the result is then 0x1e0ffff0 if and only if the block is more than 120 seconds past the tip, or the tip has those bits and no others are carried |
| Difficulty.NextWorkTestnet | pow_dogecoin.go:83-97 | On testnet from 157500, whatever the rest: 0x1e0ffff0 more than 120 seconds past the tip; else the carried nonzero bits on a minimum-difficulty tip; and 0x1e0ffff0 without a tip |
| Wire.VarIntRoundTrip | p2p.go:2826-2853 | Reading a varint gives back the 64-bit number written and leaves exactly what followed |
| Wire.TxRoundTrip | p2p.go:2061-2104 | skipTransaction consumes exactly what the serializer wrote, whatever follows |
| Wire.AuxRoundTrip | p2p.go:2021-2058 | skipAuxPow consumes exactly what the serializer wrote for branches of 32-byte hashes, whatever follows |
| Wire.WrappedLengths | p2p.go:2021-2104 | A claimed script length of 2^63 or more, and a branch of a multiple of 2^59 hashes, skip no bytes |
| Wire.InputProgress | p2p.go:2069-2083 | Every completed input skip takes at least 41 bytes, even when its length wraps to a negative skip |
| Wire.OutputProgress | p2p.go:2088-2099 | Every completed output skip takes at least 9 bytes |
| Wire.InputIterationsBounded | p2p.go:2069-2083 | Whatever 64-bit count is claimed, at most remaining/41 inputs complete; all claimed ones do exactly when the skip succeeds |
| Wire.OutputIterationsBounded | p2p.go:2088-2099 | The same for outputs with remaining/9 |
| Wire.TxProgress | p2p.go:2061-2104 | On any bytes a successful skip leaves a proper suffix, at least ten bytes shorter |
| Wire.AuxProgress | p2p.go:2021-2058 | An AuxPoW takes at least 132 bytes on any input |
| Wire.Reader.Discard | p2p.go:2061-2104 | Skipping on a reader: a negative length reads nothing and succeeds, a short reader is drained and reported |
| Wire.Reader.ReadVarInt | p2p.go:2826-2853 | The reader method returns the parsed number and advances exactly past it |
| Wire.SkipTransaction | p2p.go:2061-2104 | The loops terminate on the bytes left and do what the specification of skipping says |
| Wire.SkipAuxPow | p2p.go:2021-2058 | The reader method agrees with the specification on success, failure and position |
| Wire.WriteVarInt | block.go:238-251 | Appends the encoding that VarIntRoundTrip inverts |
| Wire.SerializeTx | block.go:128-168 | Writes, in the source's order of writes, the bytes from which WireFormat.TxContent recovers every field |
| Wire.SerializeAux | block.go:183-236 | Writes the bytes from which WireFormat.AuxContent recovers every field; a nil coinbase and a nil parent header have their fixed forms |
| Wire.SerializeHeader | headers.go:290-299 | The six copies into the 80-byte buffer give the header bytes that HeaderRoundTrip inverts |
| WireFormat.TxContent | block.go:128-168 | A reader of the wire format gets the transaction back from its bytes, whatever follows: version, each outpoint, script and sequence, each value and script, lock time |
| WireFormat.AuxContent | block.go:183-236 | The same for AuxPoW with 32-byte hashes: coinbase, block hash, both branches with their indices, parent header; a nil coinbase reads as an empty transaction, a nil parent as zeros |
| WireFormat.VarIntForm | block.go:238-251 | A length is one byte below 0xfd, else a marker and the number in the fewest of 2, 4 or 8 bytes |
| WireFormat.HeaderContent | headers.go:290-299 | Each of the six header fields at its offset in the 80 bytes |
| HeaderChain.HeaderRoundTrip | p2p.go:1921-1946 | Parsing the 80 bytes recovers all six fields |
| HeaderChain.BytesRoundTrip | p2p.go:1921-1946 | Serializing the parsed fields gives back the 80 bytes, for every byte string |
| HeaderChain.EntriesRoundTrip | p2p.go:1916-1946 | Reading the encoding of any list of headers, with AuxPoW exactly where version bit 0x100 is set, recovers every field and leaves what followed |
| HeaderChain.MessageRoundTrip | p2p.go:1872-2017 | processHeaders on an encoded message commits exactly its headers when they link and otherwise rejects it as not linked, whatever bytes follow |
| HeaderChain.RunItemsIsRun | p2p.go:1915-2000 | Reading and linking header by header is reading all and then linking |
| HeaderChain.BatchSplit | p2p.go:1872-2017 | Processing A then B is processing A + B: tip, height, carried bits, parent time, locator ring and history, from any state and for any split, rejections included |
| HeaderChain.CutsDoNotMatter | p2p.go:1872-2017 | So for any cutting of a chain into any number of messages |
| HeaderChain.MessageSplit | p2p.go:1872-2017 | The same at byte level, on encoded messages |
| HeaderChain.RejectedBatch | p2p.go:1915-2017 | A rejected payload, whatever its bytes, leaves every field but the history; the history loses or keeps, but never rewrites, entries up to the committed height |
| HeaderChain.ApplyExact | p2p.go:1883-2000 | A nonempty list of headers is committed if and only if each names the hash of the one before it and the first the tip, checkpoint or genesis; tip, height, parent time, carried bits, locator ring and the untouched fields are then given from the headers and the old state alone |
| HeaderChain.AcceptedExact | p2p.go:1872-2017 | A payload of any bytes is accepted if and only if all its entries read and are so chained; it commits those headers, and an empty one changes nothing |
| TipHistory.HistoryAlways | p2p.go:1972-1991 | Over any payloads, rejected and malformed ones included, with H committed and W the greatest height ever recorded: all heights from max(b+1, W-500) to W have an entry, all entries up to H are the committed display hashes, and there are no others, so at most 501, if and only if no recording message since W was last reached started more than 501 below W |
| TipHistory.AnswerAtHeight | p2p.go:674-678 | What a lookup answers then: the committed header's display hash from max(b+1, W-500) to H, that or nothing at any height up to H, nothing outside b+1 to W |
| TipHistory.HistoryWindow | p2p.go:1972-1991 | Over any run of accepted messages from base height b to H, the keys are exactly max(b+1, H-500) to H, each with that header's display hash, at most 501 |
| TipHistory.WideRejection | p2p.go:1980-1990 | For every hash function, a rejected message of 502 linked headers and then one of a single header leave more than 501 entries |
| TipHistory.TrackStep | p2p.go:1975-1991 | One history write, above all entries, over one of a rejected message, or below them all |
| HeaderChain.AcceptedCount | p2p.go:1872-2017 | An accepted message claims fewer headers than a 81st of its bytes, so the returned int never wraps |
| HeaderChain.ItemProgress | p2p.go:1916-1946 | Every header entry takes at least 81 bytes |
| HeaderChain.P2PClient.ProcessHeaders | p2p.go:1872-2017 | New state and result of the method, over the class's fields, are those of the specification; accepted exactly when the entries read and are chained, with every field of the new tip, the parent time, the carried bits and the ring given |
| HeaderChain.P2PClient.LinkEntries | p2p.go:1915-2000 | The loop writes the history header by header and nothing else, before anything is committed |
| HeaderChain.P2PClient.RecordTip | p2p.go:1977-1991 | One history write and its pruning loop, in any order over the map |
| HeaderChain.Prune | p2p.go:1985-1989 | The delete loop keeps exactly the entries at or above the cutoff |
| HeaderChain.P2PClient.PrependLocatorHashesFromBatch | p2p.go:619-628 | The ring after a batch, newest first, cut to 24 at each step |
| HeaderChain.P2PClient.SetStartCheckpoint | p2p.go:696-717 | The empty text clears checkpoint, tip and ring but not the history; a text of 64 digits sets the checkpoint; any other text changes nothing |
| Sync.LocatorLaws | p2p.go:1739-1762 | A locator has 1 to 16 hashes, none twice, and starts with the tip when there is one, else with the checkpoint or zeros |
| Sync.LocatorExact | p2p.go:1739-1762 | The locator is the first 16 distinct hashes of the ring (the tip without one) and then the checkpoint, in order; the zero hash alone when there is neither |
| Sync.BuildLocator | p2p.go:1731-1769 | The loop over the ring with its set of hashes already added computes that locator |
| Sync.SendGetHeaders | p2p.go:1731-1769 | The payload written: version, counted locator, zero stop hash |
| Sync.GetHeadersRoundTrip | p2p.go:1731-1769 | A peer reads back protocol version 70015, exactly the locator, and a zero stop hash |
| Sync.ApplyKeepsRing | p2p.go:1994-2000 | Accepting headers keeps the ring's head at the tip |
| Sync.ForkIsOurTip | p2p.go:1731-1769 | For a client on the peer's chain, the peer finds our tip as the fork point |
| Sync.RoundAdvances | p2p.go:1775-1862 | An answer from our position is accepted and moves the tip along the peer's chain by up to 2000 blocks |
| Sync.HonestMessageAccepted | p2p.go:1872-2017 | processHeaders accepts the honest answer's bytes, and the gap to the peer's tip shrinks by their number |
| Sync.AwaitHeaders | p2p.go:1788-1857 | Other traffic is answered or passed over until headers arrive, an answer or the connection fails, or the deadline passes |
| Sync.RequestHeaders | p2p.go:1775-1862 | Terminates whatever the peer sends and whichever write fails; with an honest peer it stays on its chain, success means tip equal to the peer's, and a long enough deadline means success |
| Monitor.StepKeeps | payment_monitor_p2p.go:108-180 | Every step of sync loop, trackers and checkers keeps the invariant, and the committed chain only grows |
| Monitor.LookupSound | payment_monitor_p2p.go:118-143 | A nonempty answer read between the tip read and the end of a half-written message is the committed hash at that height |
| Monitor.MonitorSound | payment_monitor_p2p.go:108-180 | In every interleaving each payment is for the committed hash at its height, every verdict is right, no submission is paid twice, and exactly the confirmed ones are paid |
| PaymentRecords.ListsExact | payment_monitor_p2p.go:80-180 | In every interleaving the newest 100 tracked blocks are listed in order with their height, hash and time; a verdict is given only with the committed tip two above; paid exactly when confirmed; each payment is a tracked block's, with the reward of 10^12 |
| Monitor.ResolvedForGood | payment_monitor_p2p.go:126-128 | In every run a resolved submission keeps its verdict while it is listed |
| Monitor.CheckComplete | payment_monitor_p2p.go:108-180 | In every run, when a check ends, every listed submission from max(b+1, W-500) to two below the tip it read is resolved, rejected messages included |
| Monitor.VisitSettles | payment_monitor_p2p.go:123-176 | A visit resolves its submission then and there when it is that deep and that recent |
| Monitor.CommitKeeps | p2p.go:1994-2000 | Committing a message extends the committed chain and keeps the history right up to the new height |
| Monitor.WriteKeeps | p2p.go:1975-1991 | A history write above the committed height disturbs nothing the monitor may read |
| Monitor.VisitIsLoopTurn | payment_monitor_p2p.go:123-176 | A visit of the interleaved monitor is one turn of the class's loop |
| Monitor.PaymentMonitor.TrackSubmittedBlock | payment_monitor_p2p.go:80-103 | Appends and keeps the newest 100 |
| Monitor.PaymentMonitor.CheckForPayments | payment_monitor_p2p.go:108-180 | The loop's new lists and last height; no tip, no change |
| Monitor.PaymentMonitor.GetStats | payment_monitor_p2p.go:183-229 | Confirmed, orphaned and pending partition the list; totals and the ten newest payments |
| Monitor.TotalIsRewards | payment_monitor_p2p.go:204-206 | The total paid is the fixed reward times the number of payments |
| Bits.MaskLow | scrypt_kernel.cl:228 | Masking with 2^k - 1 is the remainder modulo 2^k |
| Bits.OrShifted | scrypt_kernel.cl:339-342 | Or-ing a number below 2^k with one shifted left by k is their sum |
| Scrypt.AbsorbPadded | scrypt_kernel.cl:67-76 | Hashing a padded message is absorbing its whole blocks and one last padded block |
| Scrypt.HmacUnrolled | scrypt_kernel.cl:87-166 | HMAC (section 2 of RFC 2104) of any key and message is the four compression chains the kernel runs |
| Scrypt.LengthField | scrypt_kernel.cl:74-75 | The 64-bit length of a message below 8192 bytes is six zero bytes and two more (section 5.1.1 of FIPS 180-4) |
| Pbkdf2Kernel.Sha256Hash80 | scrypt_kernel.cl:60-84 | The two hand-padded blocks give SHA-256 of the 80 bytes |
| Pbkdf2Kernel.AbsorbKey | scrypt_kernel.cl:94-127 | ipad and opad states for a key of at most 64 bytes or of 80 bytes, hashed first |
| Pbkdf2Kernel.Pbkdf2Block | scrypt_kernel.cl:87-166 | For an 80-byte salt and any block index, writes that block of PBKDF2 (section 5.2 of RFC 8018, c = 1) at the offset and nothing else |
| Pbkdf2Kernel.Pbkdf2Salt128Block1 | scrypt_kernel.cl:256-325 | For a 128-byte salt, writes block 1 of PBKDF2 |
| Pbkdf2Kernel.LastSaltBlock | scrypt_kernel.cl:136-146 | The hand-written last block is the padding of a 148-byte message |
| Pbkdf2Kernel.OuterHash | scrypt_kernel.cl:148-166 | The inner digest is serialized before the state is overwritten, and the outer padding is right |
| Pbkdf2Kernel.OuterHash128 | scrypt_kernel.cl:308-325 | The same without clearing the buffer first |
| Pbkdf2Kernel.ByteAtIsByte | scrypt_kernel.cl:77-83 | Shifting and masking picks the bytes of a word |
| Pbkdf2Kernel.PackIsWord | scrypt_kernel.cl:339-342 | Shifting and or-ing four bytes builds the little-endian word |
| RomixKernel.MixTwo | scrypt_kernel.cl:198-213 | scryptBlockMix (section 4 of RFC 7914) for r = 1 needs no reordering |
| RomixKernel.BlockMixSalsa8 | scrypt_kernel.cl:198-213 | The in-place form computes scryptBlockMix |
| RomixKernel.MaskIsIntegerify | scrypt_kernel.cl:228 | Word 16 masked with N - 1 is Integerify modulo N |
| RomixKernel.RomixFill | scrypt_kernel.cl:235-242 | V[i] is BlockMix iterated i times for every i below 1024, B is it iterated 1024 times, and nothing outside the slice changes |
| RomixKernel.RomixMix | scrypt_kernel.cl:245-253 | The second loop of scryptROMix over whatever the slice holds, which it only reads |
| RomixKernel.Romix | scrypt_kernel.cl:216-232 | Both loops compute scryptROMix (section 5 of RFC 7914) for N = 1024, r = 1, and change V only in the slice |
| MineKernel.Scrypt1024 | scrypt_kernel.cl:328-357 | scrypt (section 6 of RFC 7914) with p = 1 of the 80-byte header as password and salt |
| MineKernel.BuildHeader | scrypt_kernel.cl:371-377 | The 76 bytes and the wrapped nonce, little-endian |
| MineKernel.Compare | scrypt_kernel.cl:382-393 | The loop decides whether the hash as a big-endian number is at most the target as a little-endian one |
| MineKernel.OffsetExact | scrypt_kernel.cl:380 | The 32-bit scratchpad offset is exact for the work items below 65536 and for no others |
| MineKernel.MineScrypt | scrypt_kernel.cl:360-402 | One work item: its report in the results buffer, its own scratchpad slice only |
| MineKernel.ScryptFill | scrypt_kernel.cl:405-430 | Leaves table and state of its header in its own slices |
| MineKernel.ScryptMix | scrypt_kernel.cl:432-472 | The report from whatever table and state it reads |
| MineKernel.MixAfterFill | scrypt_kernel.cl:405-472 | Mixing what filling left gives the single kernel's hash |
| KernelBatch.RunSingle | gpu_miner.go:1526-1537 | A batch on the single kernel, in any order of work items, on shared buffers |
| KernelBatch.RunSplit | gpu_miner.go:1330-1357 | Fill, two buffer copies and mix report exactly what the single kernel reports, for any number of items and any order of filling and mixing |
| KernelBatch.SlotsApart | scrypt_kernel.cl:427 | A work item that writes only its slice leaves every other item's table alone |
| KernelBatch.FlagMeansWinner | gpu_miner.go:1605-1613 | From a cleared buffer the flag is set if and only if some item wins, and the buffer then holds one winner's nonce and hash |
| KernelBatch.RacingReports | scrypt_kernel.cl:394-401 | However the single stores of a batch race, the flag is set if and only if some item wins, and every slot holds what some winner stored there |
| KernelBatch.HostConfirms | gpu_miner.go:1605-1641 | On such a report the host's first check always passes; the second one, in the other byte order, decides, and passes on the targets where the orders agree |
| KernelBatch.WinsKept | gpu_miner.go:1605-1641 | The host keeps every kernel win if and only if the target is 0 or at least 2^256 - 2 |
| HashCompare.HashMeetsTargetLE | hash_compare.go:41-56 | The early-exit loop decides numeric <= on 32-byte little-endian values, and rejects other lengths |
| HashCompare.TopDifference | hash_compare.go:46-53 | The most significant differing byte decides |
| HashCompare.ByteOrdersAgree | hash_compare.go:41-56 | Reading hashes as big-endian and as little-endian numbers accepts the same ones if and only if the target is 0 or at least 2^256 - 2; accepting in either order implies accepting in the other on the same targets only |
| HashCompare.UnsafeOrders | scrypt_kernel.cl:382-393 | On every other target a hash that the first order accepts and the second refuses |
| HashCompare.ReverseBytesInPlace | hash_compare.go:60-65 | The array is reversed, for every length |
| ParallelSearch.StepKeeps | gpu_miner.go:1776-1966 | Every step of workers, canceller, closer and collector keeps the invariant |
| ParallelSearch.SearchSound | gpu_miner.go:1776-1966 | In every interleaving at most one result is sent, a sender finds room in an open channel, a returned nonce is nonzero and its hash meets the target, and the count never exceeds the hashes performed nor lags by more than 500 a worker |
| ParallelSearch.CountExact | gpu_miner.go:1930-1931 | The returned count misses exactly the last localHashCount % 500 hashes of each worker that left on a hash meeting the target and 500 of each that left on cancel; it is all hashes performed if and only if these are none |
| ParallelSearch.NoDeadlock | gpu_miner.go:1935-1966 | Until the collector has returned, some goroutine can step |
| ParallelSearch.EveryRunReturns | gpu_miner.go:1776-1966 | Every run has at most threads * (8 * hashesPerThread + 2) + 7 steps, and one that cannot continue ends with the collector returned |
| ParallelSearch.StepDescends | gpu_miner.go:1776-1966 | Every step lowers the bound on the remaining steps |
| ParallelSearch.AnswerExact | gpu_miner.go:1943-1966 | A returned run has an answer if and only if a result was sent, the collector received it and its nonce is not zero; the answer is that result |
| ParallelSearch.SearchExhausts | gpu_miner.go:1776-1966 | When no planned nonce meets the target and nothing cancels, a returned search has hashed every plan in full, each nonce once, and counts them all |
| ParallelSearch.SearchDecides | gpu_miner.go:1776-1966 | A returned search that was not cancelled has sent a result if and only if one of the nonces hashed meets the target, and if and only if one of the nonces planned does |
| ParallelSearch.RunCompared | gpu_miner.go:1880-1888 | In every run, every nonce a worker has passed over fails the comparison, a worker that left on a win last hashed one that meets it, and what was sent was hashed |
| ParallelSearch.FoundStops | gpu_miner.go:1865-1868 | Once found is set, no worker hashes another nonce |
| ParallelSearch.CancelStops | gpu_miner.go:1872-1879 | Once cancelMining is set, no worker hashes past its next multiple of 500 |
| ParallelSearch.NeverLosesExact | gpu_miner.go:1943-1966 | For any number of workers the search returns what was found in every run if and only if no planned nonce within the budget meets the target: for every winning nonce of any plan some run sends it and returns nothing |
| CpuSearch.Collect | scrypt.go:436-461 | The CPU miner's loop over the results, in any order of arrival: the first with a nonzero nonce whose bytes, as received, meet the target; none when none does; the panic case |
| CpuSearch.KeepsEveryWin | scrypt.go:436-461 | The CPU miner's collector keeps a win if and only if its nonce is nonzero and its hash, reversed for display by the worker, meets the target too; it keeps every nonzero win if and only if the target is 0 or at least 2^256 - 2 |
| NonceSearch.WorkSizeLaws | gpu_miner.go:1154-1173 | A batch has a positive multiple of 32 items, and exceeds the remaining hashes by less than 32 |
| NonceSearch.Recheck | gpu_miner.go:1605-1641 | A report is confirmed if and only if the flag is set and the reversed kernel hash and the recomputed hash both meet the target |
| NonceSearch.MineBatches | gpu_miner.go:1150-1662 | For every driver behaviour the loop ends and accounts consecutive intervals; it returns at the first confirmed report or fallback to the CPU, with that nonce and count, and otherwise maxHashes <= total < maxHashes + 32 |
| NonceSearch.TilesOnce | gpu_miner.go:1176 | In such intervals every counted nonce occurs in exactly one, modulo 2^32 |
| NonceSearch.StrideWorker | scrypt.go:360-388 | For all parameters, across batches, a worker tests its course in order, never 0xFFFFFFFF, and stops at the first nonce that passes; the course is the planned one while no nonce of the search wraps |
| NonceSearch.TestedIsPlanned | scrypt.go:298-303 | Nonce number k of thread t is base + t + threads * k while the whole search stays at or below 0xFFFFFFFF |
| NonceSearch.CoverageExact | gpu_miner.go:1866-1891 | All courses together test every nonce of [base, base + threads * hashes) exactly once if and only if that interval ends at or below 0xFFFFFFFF, for any batch size |
| StrideSearch.StrideExhausts | gpu_miner.go:1776-1966 | The same in every interleaving of the goroutines in which no hash meets the target and nothing cancels; the returned count is threads * hashes |
| MineSubmit.Pad32IsLow | template_builder.go:45-54 | Truncating or padding the bytes of a number to 32 gives its low 256 bits |
| MineSubmit.TargetHexValue | template_builder.go:45-54 | The target read back from the text is the target of the bits modulo 2^256 |
| MineSubmit.TargetBytesLE | scrypt.go:127-130 | Right-aligning and reversing in place gives the target's little-endian bytes |
| MineSubmit.AuxVersionBits | template_builder.go:111 | The AuxPoW bit is set and no other bit changes |
| Wire.HexTo32Bytes | block.go:254-269 | Sixteen swaps reverse the 32 decoded bytes; other texts are errors |
| MineSubmit.TemplateRoundTrip | main.go:1680-1698 | Parsing a tip-built template recovers the tip hash and the computed bits |
| MineSubmit.HeightPush | main.go:1704-1721 | A positive height is pushed as the minimal signed number that reads back as it; any other height as a single zero byte |
| MineSubmit.Miner.CreateEmptyBlock | main.go:1669-1841 | Header fields from the template; one coinbase given field by field: version 1, lock time 0, no outpoint, minimal height push, extra nonce and flags, the value to the payout script; the merkle root over it, the next extra nonce, and the error cases |
| MineSubmit.BaseAndNonce | scrypt.go:467-473 | The buffer that is hashed is the header that is submitted, for every nonce |
| MineSubmit.MineBlock | scrypt.go:78-110 | The first nonce of the sweep that meets the target, or none in maxHashes of them; the error and panic cases |
| MineSubmit.Sweep | scrypt.go:123-184 | The same from the header buffer and the in-place target bytes |
| MineSubmit.VerifyBlockPoW | main.go:1845-1890 | The verdict: invalid bits, out of range, or numeric comparison of hash and target |
| MineSubmit.SubmitBlock | main.go:1938-1994 | Broadcasts exactly the block with the nonce, its transactions unchanged, if and only if it has a payout and the verifier accepts it |
| MineSubmit.MinerAndVerifierAgree | main.go:1845-1890 | For a target in (0, 2^256) a nonce passes the miner's test if and only if the verifier accepts the block; outside, the verifier accepts none |
| MineSubmit.MinerAcceptsBadBits | scrypt.go:94-96 | The range is exact: a hash of zero passes the miner's test under any bits |
| MineSubmit.TargetForValue | scrypt.go:94-96 | The target searched with is that of the bits modulo 2^256, and 1 when that is zero |
| MineSubmit.BlockOnTip | template_builder.go:83-128 | The block made from the tip's template: the tip as parent, the next work's bits, version with bit 0x100 set, time modulo 2^32, a coinbase that pushes tip height + 1 and pays 10^12 to the payout script, and the merkle root over it |
| MineSubmit.MineOnTip | template_builder.go:83-128 | From tip to broadcast: a mined nonce is broadcast if and only if the target of the next work is in range, in the block BlockOnTip makes, and meets that target |
| Base58.Base58Decode | address.go:18-49 | Succeeds if and only if every character is in the alphabet, and returns leading zeros and the number's bytes |
| Base58.DecodeEncodeDigits | address.go:18-49 | Decoding undoes the standard encoding, for every byte string |
| Base58.EncodeDecodeDigits | address.go:18-49 | Encoding undoes decoding, and leading '1's and leading zero bytes are as many |
| Base58.DecodeInjective | address.go:18-49 | Two texts with the same decoding are the same text |
| Base58.RoundTrip | address.go:18-49 | The decoder itself returns every byte string from its standard text |
| Base58.IndexOf | address.go:21-31 | The alphabet search finds a character's digit or shows there is none |

## Left out

- NonceSearch.MineBatches: assumes maxHashes at most 2^64 - 32, above which the 64-bit counter could wrap; what the CPU search of the fallback returns is an input.
- WireFormat.AuxContent: is stated for branches of 32-byte hashes; a branch entry of another length is written as it is and cannot be read back.
- NonceSearch.StrideWorker: is about one worker that no other interrupts; how the found flag stops the others is in ParallelSearch, for any plan of nonces.
- ParallelSearch.SearchSound: counts `totalHashes` as an unbounded number; the 64-bit counter cannot wrap before 2^64 hashes. Stores that change nothing are no steps.
- ParallelSearch.SearchDecides: a worker of a backward search that starts at nonce 0 hashes nothing, which a plan of nonces does not express.
- KernelBatch.RunSingle: runs work items one after another in any order; racing stores to the results buffer are in RacingReports, racing accesses to the scratchpad follow from the disjoint slices and are not modelled as steps.
- KernelBatch.RunSplit: runs the items of each kernel one after another, at most 65536 of them, where the 32-bit offset is exact.
- Pbkdf2Kernel.Pbkdf2Block: takes keys of at most 64 or of exactly 80 bytes and an 80-byte salt, as the fixed padding of the kernel demands; the kernel is called with no others.
- MineKernel.MineScrypt: takes work items below 65536, where the 32-bit offset is exact; the host launches at most 8192.
- Sync.RequestHeaders: message framing and log output are not modelled; what a connection delivers, and which writes fail, are inputs.
- HeaderChain.P2PClient.ProcessHeaders: heights are unbounded, and the time of the last accepted batch is not a field.
- Monitor.MonitorSound: assumes no reset of the sync state during the run; ClearSyncState and SetStartCheckpoint leave the history uncleared.
- MineSubmit.Miner.CreateEmptyBlock: takes the decoded payout script; choosing and decoding the configured address is not modelled beyond Base58.
- MineSubmit.SubmitBlock: ends before the broadcast and covers the p2p mode; the serialized block with its five-byte AuxPoW is not modelled.
- MineSubmit.MineBlock: covers one thread. Of the CPU miner's multi-threaded search the collector is in CpuSearch and the stride course of one worker in NonceSearch; the interleaving in ParallelSearch is that of gpu_miner.go. The range and backward distributions enter as any plan of nonces and are not computed.
- The inner rounds of SHA-256 and Salsa20/8 are parameters.
- The random start, the configuration of batch size from device memory, buffer handling and driver probing are inputs.
- Sockets, peer discovery, RPC, the web interface, statistics and the optimizer are left out: input and output, or easy members.
- The block reward schedule, difficulty as a floating-point number and Base58Check checksums would only add easy members.
- Bits from a node's own block template, which the code reads as little-endian bytes, are left out; only tip-built templates are modelled.
