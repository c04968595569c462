# The windowcast datagram layer, its erasure code, and two text formats, verified

This project models the parts of windowcast whose correctness is an argument
rather than a reading: the `bud` packet layer (a datagram protocol with no
sockets and no clock), the Reed-Solomon erasure code under it, the glob matcher
that decides policies, and the Windows command lines and environment blocks the
agent builds. `dafny verify dfyconfig.toml` checks all of it.

## What is proved

- **End to end.** Frames are cut, given parity, sealed, carried by a network
  that drops, repeats, reorders and injects whatever it likes, opened and
  reassembled. Every frame delivered is byte for byte a frame that was sent,
  each one on a stream newer than the one before (`EndToEnd.FramesArriveAsSent`);
  and a frame alone on its stream, whose parity the receiver has room for, is
  delivered, once, exactly when the packets that opened hold shards enough for
  every block (`EndToEnd.FrameArrives`), as it is under every policy the program
  has (`EndToEnd.FrameArrivesUnderPolicies`). Of
  cryptography this assumes an ideal AEAD. Of the erasure code it assumes
  nothing, because the code is in the project.
- **The erasure code.** The logarithm tables describe the field of 256 elements
  (every law used is proved from doubling and reduction by 0x11d, and that 2
  generates the field from 17 groups of 15 doublings), Gauss-Jordan elimination
  with a pivot search finds the inverse of a matrix exactly when one exists,
  recovery returns the only data that explains the shards that came, and with a
  Cauchy matrix any k of the k + m shards are enough.
- **The receiver.** A 1024-bit window shifted in place stands for the set of
  accepted numbers; the reassembler conserves frames over every run, keeps its
  bounds on arbitrary input, and orders frames across the 32-bit wrap; the loss
  detector, the NACK codec, the resend store and the loss meter keep their
  promises over every run, and the NACK loop closes.
- **The two text formats and the matcher.** Reading what was written gives back
  what went in, and where the code falls short of that, a lemma says exactly
  when (see below).

## How it is laid out

`Words`, `Header`, `Replay`, `Packet` are the datagram and its protection.
`Blocks`, `Slots`, `Erasure`, `Parity`, `Fragment`, `Pending`, `Reassembler`,
`StreamOrder`, `Runs` cut frames and put them together; `Soundness` and
`Completeness` say that what is delivered was sent, and that what can be
delivered is, `Capacity` when that needs no more than enough shards, `Turns` what
becomes of one frame after another, and `Replies` what every packet is answered
with and does to the frames beside its own. `Feedback`, `Resend`, `LossDetector`, `LossMeter`, `NackLoop` are
the recovery layer. `GaloisField`, `LinearAlgebra`, `Elimination`,
`CauchyMatrix`, `ReedSolomon`, `CauchyErasure` are the code, and `EndToEnd` joins
it all. `Glob`, `CommandLine`, `EnvBlock` stand alone.

Objects whose methods change them are classes here (`ReplayWindow`, `Sealer`,
`Opener`, `Reassembler`, `Retransmitter`, `LossDetector`, `LossMeter`,
`AdaptiveParity`). Each method is tied to a function of the old state, and the
theorems are about those functions and their runs.

`Soundness`, `Completeness` and `NackLoop` are stated for any code that recovers
the blocks of the frame (`Sendable`); `EndToEnd.EveryFrameSendable` shows that
the code the program uses does, for every frame and every parity policy.

## Where the code and its description part

The model follows the code.

- The matcher compares characters before it looks for `*`, so a `*` in the text
  is taken literally by a `*` in the pattern: `*a` does not match `*`.
  `Globs.DecidesTextsWithoutStars` shows that the texts on which it judges every
  pattern rightly are exactly those without `*`.
- A command line gives its arguments back exactly when there is a program name
  and it holds no double quote (`CommandLine.SplitOfJoin`).
- An environment string is cut one byte in to look for `=`, so parsing a block
  panics exactly when a string before the first empty one starts outside ASCII
  (`EnvBlock.ParsePanics`; a variable named with an accented capital is enough,
  `EnvBlock.AccentPanics`). An entry reads back exactly when its name is not
  empty, starts with an ASCII character and has no `=` after that, and name and
  value are text (`EnvBlock.EntryReads`); a block does exactly when every
  variable does and none holds a NUL (`EnvBlock.BlockReads`).
- The cap on stored parity is described as memory no frame needs. A policy that
  gives one block more parity than it can use can fill the store and have a
  shard refused that another block needs; then every block has shards enough and
  the frame is not delivered (`Capacity.NoRoomLoses`). `Completeness.Room`, which
  the sender can compute, is exactly the condition under which that cannot
  happen (`Capacity.RoomIsExact`). The program's own policies meet it
  (`Completeness.RoomForThePolicies`).
- `dropped` is described as frames evicted or overtaken. It also counts frames
  given up by the caller and frames discarded because their packets contradict
  each other or grow too large; the conservation law needs all of them.
- A loss report's `sent` is clamped to 32 bits while the meter moves on, so the
  reports add up to the packets numbered exactly when every period has fewer
  than 2^32 of them (`LossMeters.ReportsAddUp`).
- A frame larger than the resend store is never remembered
  (`NackLoop.JustRemembered`), though the sender accepts frames of twice that size.

## Model

| member | source | states |
|---|---|---|
| EndToEnd.FramesArriveAsSent | bud/src/fragment.rs:258-401 | for all frames of acceptable size, all network behaviour and all give-ups: every delivered frame equals the sent one, no packet that reaches the reassembler in the run is refused, deliveries on a stream are strictly newer |
| EndToEnd.FrameArrives | bud/src/fragment.rs:348-383 | a frame alone on its stream, with room for its parity, is delivered once and whole if the packets opened hold enough shards for every block, and not at all otherwise |
| EndToEnd.FrameArrivesUnderPolicies | bud/src/parity.rs:75-161 | without parity, and with the adaptive policy at any estimate, there is always that room |
| EndToEnd.OnlySealedArrive | bud/src/packet.rs:118-138 | whatever the network injects, what reaches the reassembler is decodable and was sealed |
| EndToEnd.EveryFrameSendable | bud/src/parity.rs:174-190 | with the Cauchy code and any policy every block of an acceptable frame can be rebuilt from any k of its shards |
| EndToEnd.FramesAreSendable | bud/src/fragment.rs:27-47 | a collection of frames satisfies the hypotheses of the soundness theorems if and only if its keys agree with its frames and no frame is too large |
| GaloisField.BuildTables | fec/src/lib.rs:33-54 | the tables built by repeated doubling hold every power of 2 up to 509 and the logarithm of every element but 0 |
| GaloisField.Multiply | fec/src/lib.rs:57-62 | the table lookup is the field's product, for every pair |
| GaloisField.Invert | fec/src/lib.rs:65-68 | the table lookup is the field's inverse, for every element but 0 |
| GaloisField.Order | fec/src/lib.rs:38-54 | 255 doublings are the identity; 15, 51 and 85 are not |
| GaloisField.EveryIsAPower | fec/src/lib.rs:38-54 | every element but 0 is one of the first 255 powers of 2, so the logarithm is defined everywhere |
| GaloisField.MulAdds | fec/src/lib.rs:57-62 | multiplication distributes over XOR on both sides |
| GaloisField.MulAssociates | fec/src/lib.rs:57-62 | multiplication is associative, zero included |
| GaloisField.MulInverse | fec/src/lib.rs:65-68 | an element times its inverse is 1 |
| Elimination.Solve | fec/src/lib.rs:200-221 | the elimination returns a matrix if and only if the rows are independent, and then that matrix answers every system of those rows |
| Elimination.ClearColumn | fec/src/lib.rs:206-220 | scaling the pivot row and clearing the column keeps exactly the solutions and reduces one more column |
| Elimination.SwapKeeps | fec/src/lib.rs:203-204 | swapping two rows on both sides keeps exactly the solutions |
| Elimination.NoPivot | fec/src/lib.rs:202 | a column without a pivot exhibits a dependency, so returning nothing is right |
| CauchyMatrix.Independent | fec/src/lib.rs:111-119 | a vector with no more entries than points whose Cauchy sums vanish at each point is zero |
| CauchyMatrix.AnyRowsRegular | fec/src/lib.rs:100-120 | any n different rows of the n unit rows and the Cauchy rows are independent: every square sub-matrix is invertible |
| CauchyMatrix.ApartNotZero | fec/src/lib.rs:109-110 | the sum of two positions is 0 only when they are the same, so every inverse taken exists |
| ReedSolomon.EncodeShards | fec/src/lib.rs:148-170 | each parity shard is the matrix row applied to the data, byte by byte; the wrong number or sizes of shards are refused |
| ReedSolomon.EncodeRefuses | fec/src/lib.rs:148-157 | the number of shards and their sizes are refused exactly when wrong, the number first |
| ReedSolomon.CauchyElements | fec/src/lib.rs:103-120 | which shapes are refused, and that every element times the sum of its row's and column's numbers is 1 |
| ReedSolomon.AddScaled | fec/src/lib.rs:71-78 | adds the coefficient times the shard to the buffer in place, also by its shortcut for 0 |
| ReedSolomon.Recover | fec/src/lib.rs:176-238 | for any matrix and any shards: the data when all came, else the only data that explains the first n shards that came, else nothing |
| ReedSolomon.RecoverRefuses | fec/src/lib.rs:176-196 | the wrong number of places recovers nothing, all data shards are returned as they came, and otherwise too few shards or different sizes recover nothing |
| ReedSolomon.ExplainsOnce | fec/src/lib.rs:176-238 | shards with independent rows are explained by at most one data |
| ReedSolomon.RecoversData | fec/src/lib.rs:172-238 | for shards coded from some data, recovery returns that data if and only if no data shard is missing or the first n rows that came are independent |
| ReedSolomon.CauchyRecovers | fec/src/lib.rs:100-120 | with a Cauchy matrix any n shards return the data |
| CauchyErasure.AnyShardsRecover | fec/src/lib.rs:4-5 | any k of the k + m byte shards of one size, whatever it is, give the k data shards back, for all k + m up to 256 |
| CauchyErasure.CauchyMds | bud/src/fragment.rs:161-179 | so do those of the packet layer's size, which is what its results ask of a code |
| CauchyErasure.CauchyCode | bud/src/parity.rs:188-189 | the code has the shape the packet layer relies on, whatever the bytes |
| Headers.EncodeInto | bud/src/header.rs:60-72 | the buffer filled slice by slice holds the encoding |
| Headers.DecodeEncode | bud/src/header.rs:60-114 | a header followed by anything reads back if and only if its position lies in its frame or it is parity, and is refused by name otherwise |
| Headers.EncodeDecode | bud/src/header.rs:76-114 | the bytes decoded are the only ones that decode to that header |
| Headers.HeaderLayout | bud/src/header.rs:38-72 | where each field is in the 24 bytes, most significant byte first |
| Headers.DecodeRefuses | bud/src/header.rs:76-114 | each refusal exactly when: too short, another version, a position outside its frame, looked at in that order |
| Replay.ReplayWindow.Check | bud/src/replay.rs:58-66 | true exactly when the number was never accepted and is less than 1024 behind the highest |
| Replay.ReplayWindow.Accept | bud/src/replay.rs:70-89 | adds the number to what the bits stand for, newer, older and too old alike |
| Replay.ReplayWindow.Shift | bud/src/replay.rs:92-109 | in place, for every distance: new bit k is old bit k less the distance |
| Replay.ReplayWindow.ShiftWords | bud/src/replay.rs:97-108 | the descending pass reads every word before it overwrites it |
| Replay.ShiftedBit | bud/src/replay.rs:92-109 | shifting and joining 64-bit words moves the 1024 bits |
| Replay.RepresentsNewer | bud/src/replay.rs:70-81 | moving the window keeps bit k meaning that the number k below the highest was accepted |
| Replay.RepresentsOlder | bud/src/replay.rs:82-88 | so does setting a bit for a number inside the window, or none for one behind it |
| Replay.TakenOnce | bud/src/replay.rs:58-89 | over every run of checked packets no number is accepted twice |
| Replay.DistinctCount | bud/src/replay.rs:44-46 | no more packets are accepted than numbers up to the highest |
| Packets.NonceInjective | bud/src/packet.rs:36-40 | different packet numbers have different nonces |
| Packets.NonceLayout | bud/src/packet.rs:34-40 | four zero bytes, then the number, least significant byte first, as the Noise Protocol Framework has it |
| Packets.SealRefuses | bud/src/packet.rs:64-92 | a payload is refused exactly when it is too large or no number is left, and then nothing changes; otherwise it goes out under the next number |
| Packets.OpenRefuses | bud/src/packet.rs:118-138 | each refusal exactly when, in order: the header's, too short for a tag, taken or 1024 behind one taken, not sealed under this key |
| Packets.SealedThenOpened | bud/src/packet.rs:64-138 | at any point of any run a packet that is sealed and then delivered opens as what was sealed |
| Packets.Sealer.Seal | bud/src/packet.rs:64-92 | seals under the next number with the header as associated data, refuses a payload too large and an exhausted counter, and changes nothing when it refuses |
| Packets.Opener.Open | bud/src/packet.rs:118-138 | the order of the checks and their errors; the window moves only for a datagram that authenticated |
| Packets.Opener.Stats | bud/src/packet.rs:112-114 | the highest number accepted and how many were |
| Packets.OpensOnlySealed | bud/src/packet.rs:118-138 | a datagram that opens is, byte for byte, the wire form of a sealed packet, header included |
| Packets.StepSafe | bud/src/packet.rs:64-138 | sealing and delivering keep: numbers never reused, opened packets sealed, opened at most once |
| Packets.ChannelSafe | bud/src/packet.rs:64-138 | over every run no nonce is used twice, everything opened was sealed, nothing opens twice |
| Packets.SealedOpens | bud/src/packet.rs:118-138 | at any point of any run a sealed datagram opens unless it opened before or is 1024 or more behind, and which error it gets otherwise |
| Packets.OpenedCount | bud/src/replay.rs:34-46 | packets opened are at most highest + 1, which is at most the packets sealed |
| Blocks.ComputeBlocks | bud/src/parity.rs:51-66 | the loop yields the blocks |
| Blocks.BlocksPartition | bud/src/parity.rs:47-66 | the blocks are a gapless partition into the fewest ranges of at most 128, sizes within 1 of each other, the larger first |
| Parity.EncodeParity | bud/src/parity.rs:167-212 | the parity packets of every block in order, numbered across blocks |
| Parity.ParseParityPayload | bud/src/parity.rs:190-239 | a parity payload reads back if and only if it has a whole shard, an index below its count and a length that fits |
| Parity.ParityLayout | bud/src/parity.rs:190-196 | where each part of a parity payload is |
| Parity.ParityNumbered | bud/src/parity.rs:197-208 | parity packets are numbered from 0 over the whole frame and carry its stream, number, count and time |
| Parity.ParityCount | bud/src/parity.rs:174-178 | what the policy asks, or as much of it as still fits 256 shards |
| Parity.Parse | bud/src/parity.rs:225-239 | whatever the bytes, what is accepted is within bounds |
| Parity.AdaptiveParity.Observe | bud/src/parity.rs:138-144 | moves the estimate a quarter of the way to the reported rate and keeps it a rate |
| Parity.AdaptiveParity.ParityFor | bud/src/parity.rs:153-161 | at most the data, and none exactly when there is no loss to speak of |
| Parity.AdaptiveBounded | bud/src/parity.rs:153-161 | parity is at most the data it covers, none exactly when there is no loss to speak of, and otherwise the least that is enough for the loss or for the overhead allowed |
| Parity.AdaptiveFits | bud/src/parity.rs:153-188 | every block with its adaptive parity fits the code |
| Parity.SmoothConverges | bud/src/parity.rs:138-144 | n reports of a constant rate leave (3/4)^n of the first error |
| Parity.SmoothStaysARate | bud/src/parity.rs:138-144 | the estimate stays between 0 and 1 |
| Fragments.Fragment | bud/src/fragment.rs:51-80 | cuts the frame into its pieces, or refuses it exactly when it is too large |
| Fragments.FragmentWithParity | bud/src/fragment.rs:86-98 | the data packets followed by the parity packets |
| Fragments.PiecesJoin | bud/src/fragment.rs:51-80 | the pieces joined in order are the frame, the short last one included |
| Fragments.SentFrame.DataNumbered | bud/src/fragment.rs:62-80 | data packets are numbered in order and carry the frame's stream, number, count and time |
| Pendings.Recover | bud/src/fragment.rs:145-190 | the loop over blocks fills exactly the slots that can be rebuilt and keeps both counts true |
| Pendings.AbsorbKeeps | bud/src/fragment.rs:316-383 | what a frame holds only grows, its counts equal what they count, and the slots counted as recovered are exactly those filled beyond the packet's own |
| Pendings.RebuiltWellFormed | bud/src/fragment.rs:145-190 | rebuilding keeps every slot held and every bound |
| Reassembly.Reassembler.Push | bud/src/fragment.rs:258-401 | the new state and reply for any decodable header and any payload |
| Reassembly.Reassembler.Place | bud/src/fragment.rs:284-316 | finding or starting the packet's frame, making room by eviction |
| Reassembly.Reassembler.Add | bud/src/fragment.rs:318-383 | growing the frame, discarding it when it contradicts itself, rebuilding |
| Reassembly.Reassembler.Settle | bud/src/fragment.rs:379-400 | delivering a finished frame and dropping what it overtook |
| Reassembly.Reassembler.Abandon | bud/src/fragment.rs:244-254 | removes the frame if it waits and says whether it did |
| Reassembly.Reassembler.Incomplete | bud/src/fragment.rs:224-239 | each stream's waiting frames and their missing fragments, the streams in an arbitrary order |
| Reassembly.PushSound | bud/src/fragment.rs:258-401 | any packet leaves every waiting frame well formed and unfinished |
| Replies.MakesRoom | bud/src/fragment.rs:297-332 | fewer than 4 waiting frames all stay when one starts; otherwise exactly one goes, and once something was delivered it is the one every other is newer than |
| Replies.Unread | bud/src/fragment.rs:263-288 | a data fragment is refused as badly cut exactly when its size is wrong; misshapen parity and packets of frames not newer than the last delivered are skipped; none of them changes anything |
| Replies.KnownFrame | bud/src/fragment.rs:290-372 | a packet of a waiting frame gives it up as inconsistent or too large exactly when it contradicts it or overfills it, and is taken otherwise |
| Replies.Taken | bud/src/fragment.rs:319-377 | a packet that is taken puts its payload in its slot, or its shard in its place, and then the last length is the one this packet gives; all other parity stays |
| Replies.NewFrame | bud/src/fragment.rs:297-332 | a packet of a new frame starts it unless it claims to be too large, and then changes nothing |
| Replies.OthersStay | bud/src/fragment.rs:301-314 | a packet leaves every other waiting frame as it is, except the one evicted for its own and those its delivery overtakes |
| Replies.AbandonTells | bud/src/fragment.rs:244-254 | giving up says whether the frame waited, counts it exactly then, and touches no other stream |
| StreamOrder.NewerByDistance | bud/src/fragment.rs:119-123 | among numbers newer than a base, newer means further past it, across the wrap |
| StreamOrder.NewerIsTotal | bud/src/fragment.rs:119-123 | there it is a strict total order |
| StreamOrder.NewerOneWay | bud/src/fragment.rs:119-123 | in general two numbers are ordered one way exactly when they differ and are not half the range apart |
| StreamOrder.EvictsOldest | bud/src/fragment.rs:301-314 | once something was delivered the frame evicted is older than every other |
| StreamOrder.PushStreamKeeps | bud/src/fragment.rs:258-401 | at most 4 different frames wait, all newer than the last delivered; a delivery is newer still; frames and sizes are accounted for |
| StreamOrder.DeliveredSize | bud/src/fragment.rs:183-186 | a delivered frame has its counted length, at most a fragment over the limit |
| Runs.PushRebuilds | bud/src/fragment.rs:338-377 | one packet adds to the recovered count exactly the slots it caused to be filled beyond its own |
| Runs.RunKeepsInvariant | bud/src/fragment.rs:200-254 | over every run of pushes and give-ups: started = delivered + dropped + waiting, recovered = slots ever rebuilt, deliveries per stream strictly newer, sizes bounded and within the limit when nothing was rebuilt |
| Soundness.PacketReads | bud/src/fragment.rs:263-281 | every packet of a sent frame is read as the shard it carries |
| Soundness.RebuiltBlockGenuine | bud/src/fragment.rs:151-179 | a block with shards enough is rebuilt as it was sent, any other is left alone |
| Soundness.AbsorbGenuine | bud/src/fragment.rs:316-383 | a packet of the frame is never refused and leaves only sent bytes in the slots |
| Soundness.DeliversWhatWasSent | bud/src/fragment.rs:258-401 | for any code that recovers: over every run of sent packets and give-ups no packet is refused and every delivered frame was sent |
| Completeness.WholeWhenEnough | bud/src/fragment.rs:150-162 | a lone frame has every slot if and only if every block has k different shards |
| Completeness.RefusedHasEnough | bud/src/fragment.rs:353-358 | with room, the storage cap refuses a shard only of a block that has enough |
| Completeness.RoomWhenParityFits | bud/src/fragment.rs:353-358 | no block with more parity than data is condition enough for room |
| Completeness.RoomForThePolicies | bud/src/parity.rs:75-161 | sending no parity, and the adaptive policy at any estimate, leave room |
| Capacity.AbsorbStarves | bud/src/fragment.rs:353-377 | a block kept one shard short of what it needs stays as it is, whatever else arrives, and a full store stays full |
| Capacity.NoRoomLoses | bud/src/fragment.rs:353-358 | without room some run of the frame's own packets brings every block enough shards and delivers nothing |
| Capacity.RoomIsExact | bud/src/fragment.rs:353-383 | a lone frame is delivered by every run that brings every block enough shards if and only if it has room |
| Capacity.RoomOfTwoBlocks | bud/src/fragment.rs:353-358 | 129 fragments with 191 parity shards on the block of 65 have room exactly when the block of 64 has no parity |
| Completeness.PushLone | bud/src/fragment.rs:258-401 | the frame is returned by the very packet that makes every block have enough |
| Completeness.DeliveredWhenEnough | bud/src/fragment.rs:258-401 | over every run, with packets of other streams in between, a lone frame with room for its parity is delivered once at that packet |
| Turns.LateChangesNothing | bud/src/fragment.rs:283-289 | a packet of a frame not newer than the last delivered leaves the whole state as it was |
| Turns.DeliveredInTurn | bud/src/fragment.rs:258-401 | frames of one stream, each newer than the one before and each with enough arriving in its turn, are all delivered, once, whole and in that order, whatever arrives late or on other streams |
| Feedbacks.EncodeFeedback | bud/src/recovery.rs:64-111 | the bytes of every message; runs are built over the sorted distinct fragments and cut at 64 |
| Feedbacks.DecodeFeedback | bud/src/recovery.rs:115-164 | the message or nothing, for all bytes |
| Feedbacks.RunsAreMaximal | bud/src/recovery.rs:70-86 | the runs written give the set back, in order, and no two touch |
| Feedbacks.MaximalRunsUnique | bud/src/recovery.rs:70-86 | only one list of runs does |
| Feedbacks.NackReads | bud/src/recovery.rs:64-152 | a NACK decodes to the fragments of its first 64 runs when they are at most 4096, and to nothing otherwise |
| Feedbacks.NackArrives | bud/src/recovery.rs:64-152 | within those limits it decodes to itself |
| Feedbacks.OthersRead | bud/src/recovery.rs:97-164 | refresh requests and reports decode to themselves |
| Feedbacks.DecodeBounded | bud/src/recovery.rs:115-152 | no bytes decode to a request for more than 4096 fragments |
| Feedbacks.NackLayout | bud/src/recovery.rs:87-95 | where each part of a NACK is, most significant byte first |
| Feedbacks.OthersLayout | bud/src/recovery.rs:97-108 | the same for refresh requests and reports |
| Feedbacks.NackExact | bud/src/recovery.rs:127-152 | bytes decode to a NACK exactly when they are those of at most 64 runs in range with at most 4096 fragments, and then to those fragments |
| Feedbacks.RefreshExact | bud/src/recovery.rs:153-156 | bytes decode to a refresh request exactly when they are its encoding |
| Feedbacks.ReportExact | bud/src/recovery.rs:157-160 | bytes decode to a report exactly when they are its encoding |
| Resends.Retransmitter.Remember | bud/src/recovery.rs:189-213 | the store after one frame, the oldest dropped while it is over its limit |
| Resends.Retransmitter.Respond | bud/src/recovery.rs:218-244 | what is returned and which counters move |
| Resends.KeepsLongestSuffix | bud/src/recovery.rs:206-212 | dropping the oldest leaves the longest suffix that fits |
| Resends.AnswerCounts | bud/src/recovery.rs:231-242 | counters move by what was returned and never past the limit, repeated requests included |
| Resends.AnswersInTurn | bud/src/recovery.rs:231-242 | a request is answered fragment by fragment: each that is there and was sent again less than twice so far |
| Resends.RunKeeps | bud/src/recovery.rs:189-244 | over every run: the queue is the longest suffix of the accepted frames that fits, its size is right, no parity is held, nothing is returned more than twice |
| LossDetection.LossDetector.Poll | bud/src/recovery.rs:287-337 | the tracked frames, the refresh times, the reassembler and the messages after a poll, for any order of streams |
| LossDetection.WaitingAllKeys | bud/src/fragment.rs:224-239 | in any order of the streams each waiting frame is listed once and nothing else is |
| LossDetection.RunKeeps | bud/src/recovery.rs:287-337 | over runs with time not going back, of the messages sent: at most 2 NACKs per tracked frame since it is tracked, after the hold, one and a half round trips apart, only if a resend can come in time; refreshes spaced by the gap and covering every give-up; tracked frames are the waiting ones, all younger than the deadline |
| LossDetection.OneMoreSaid | bud/src/recovery.rs:299-334 | one decision adds one NACK to its own frame, or one refresh to its own stream, or nothing, and nothing to any other |
| LossDetection.PollIsLogged | bud/src/recovery.rs:287-337 | the messages those promises are about are the ones each poll returns, at the time of the poll |
| LossDetection.PollAsks | bud/src/recovery.rs:299-334 | a poll sends exactly one NACK, naming all that is missing, for each waiting frame that is old enough, young enough, can still be helped and was not asked for too often or too lately, and none for any other; it goes on tracking exactly those younger than the deadline |
| LossDetection.PollGivesUp | bud/src/recovery.rs:305-319 | after a poll the reassembler is rid of exactly the frames as old as the deadline |
| LossDetection.RefreshNames | bud/src/recovery.rs:308-319 | a refresh request names a waiting frame as old as the deadline |
| LossDetection.PolledFrames | bud/src/recovery.rs:287-337 | in every run, whatever came before: each waiting frame is asked for exactly when due by its age and the NACKs since it was first seen, given up exactly when as old as the deadline, and else tracked on from when it was first seen |
| LossMeters.LossMeter.Sample | bud/src/recovery.rs:357-373 | the report and the meter after a sample |
| LossMeters.ReportsAddUp | bud/src/recovery.rs:357-373 | reported sent adds up to the packets numbered if and only if every period is short enough to count; each report loses what it says was sent less what was accepted in its period, or nothing if more was; total loss covers what was never opened, and equals it exactly when no period accepts more than it reports |
| LossMeters.ChannelLossReported | bud/src/recovery.rs:357-373 | the same for the packets any run of a channel opened, bounded by the packets sealed |
| NackLoop.JustRemembered | bud/src/recovery.rs:189-213 | a frame just remembered is held whole with all resends left unless it is larger than the store |
| NackLoop.RespondsWithThose | bud/src/recovery.rs:218-244 | asked for fragments it holds, the sender returns exactly those, in order |
| NackLoop.PollRequests | bud/src/recovery.rs:287-337 | a poll asks for a waiting frame that is due, with one request for exactly the fragments it misses |
| NackLoop.LoopCloses | bud/src/recovery.rs:218-337 | once the answers to what the receiver misses arrive, in any order and repeated, the frame is delivered once, as sent |
| NackLoop.RequestCloses | bud/src/recovery.rs:64-337 | the same when the sender answers the request as it decodes it from the bytes of the message the detector sends |
| NackLoop.RequestArrives | bud/src/recovery.rs:64-152 | the message the detector sends for what a waiting frame misses survives its encoding when it fits one message |
| Globs.Glob | accounts/src/policy.rs:140-161 | terminates; true implies a match for all texts; for texts without a star true exactly when the pattern matches |
| Globs.ScanSound | accounts/src/policy.rs:140-161 | what the loop accepts is a match reachable from where it stands |
| Globs.LastStarSuffices | accounts/src/policy.rs:149-156 | only the last star needs retrying: any match through an earlier star is also one from the last |
| Globs.TryNextPosition | accounts/src/policy.rs:152-156 | when the pattern cannot go on, the last star has to take one character more |
| Globs.StarInTextFails | accounts/src/policy.rs:145-151 | every text with a star has a pattern that matches it and is refused |
| Globs.DecidesTextsWithoutStars | accounts/src/policy.rs:140-161 | the loop decides matching for every pattern on exactly the texts without a star |
| CommandLine.Quote | agent-windows/src/cmdline.rs:29-56 | the loop with its count of backslashes writes the quoted form |
| CommandLine.Join | agent-windows/src/cmdline.rs:8-27 | the program name by its own rule, then the arguments after spaces |
| CommandLine.Split | agent-windows/src/cmdline.rs:104-166 | the reader's loops yield the arguments read |
| CommandLine.NextArgument | agent-windows/src/cmdline.rs:128-163 | one argument and where it ends, with doubled quotes and halved backslashes |
| CommandLine.QuotedReads | agent-windows/src/cmdline.rs:29-56 | inside quotes every string comes back, held-over backslashes included |
| CommandLine.ArgumentsRead | agent-windows/src/cmdline.rs:8-56 | any list of arguments comes back |
| CommandLine.SplitOfJoin | agent-windows/src/cmdline.rs:8-56 | splitting what was joined gives the list back if and only if it is not empty and its program name has no double quote |
| CommandLine.JoinInjective | agent-windows/src/cmdline.rs:8-56 | so different such lists make different command lines |
| CommandLine.ReadStep | agent-windows/src/cmdline.rs:128-163 | the rules for backslashes, quotes and blanks, one turn at a time |
| CommandLine.QuotedWhen | agent-windows/src/cmdline.rs:29-33 | an argument is written as it is exactly when it is not empty and holds no space, tab, line break, vertical tab or quote |
| CommandLine.QuotedLength | agent-windows/src/cmdline.rs:34-55 | otherwise quoting adds two quotes and one backslash for each quote and each backslash before one or at the end, and no more |
| CommandLine.ProgramTextWhen | agent-windows/src/cmdline.rs:14-21 | the program name is put in quotes exactly when it is empty or holds a space or tab |
| CommandLine.JoinedStep | agent-windows/src/cmdline.rs:10-26 | each further argument adds one space and its quoted form |
| EnvBlock.WriteBlock | agent-windows/src/cmdline.rs:75-96 | the block written by overriding, sorting and appending in place |
| EnvBlock.SetAllMeans | agent-windows/src/cmdline.rs:80-83 | overriding one by one leaves the base entries no extra one replaces, then the last extra value of each name |
| EnvBlock.SameNameMeans | agent-windows/src/cmdline.rs:81 | names are the same exactly when equal but for the case of ASCII letters |
| EnvBlock.OverriddenIsGone | agent-windows/src/cmdline.rs:75-96 | a base entry whose name an extra one has in another case is not in what the block parses to |
| EnvBlock.LastOfEachOnce | agent-windows/src/cmdline.rs:80-83 | each extra name once, ignoring ASCII case, and no name lost |
| EnvBlock.SortIsStable | agent-windows/src/cmdline.rs:84 | sorted by upper-cased name, entries of equal key in the order they had |
| EnvBlock.KeyLeMeans | agent-windows/src/cmdline.rs:84 | the order sorted by is that of dictionaries |
| EnvBlock.BlockShape | agent-windows/src/cmdline.rs:85-96 | a block ends in two zeros, an empty one is just those, and a variable is its name, an equals sign and its value |
| EnvBlock.ParsePanics | agent-windows/src/cmdline.rs:60-71 | reading a block panics if and only if a string before the first empty one starts outside ASCII |
| EnvBlock.EntriesAre | agent-windows/src/cmdline.rs:61-63 | a block's strings end at a zero or at its end, and stop at the first empty one |
| EnvBlock.AccentPanics | agent-windows/src/cmdline.rs:67 | writing one variable whose name starts with an accented letter gives a block on which reading panics |
| EnvBlock.LossyIsText | agent-windows/src/cmdline.rs:65 | decoding always yields text |
| EnvBlock.LossyUnits | agent-windows/src/cmdline.rs:65 | decoding changes nothing but unpaired surrogates, into the replacement character |
| EnvBlock.HoldsReadable | agent-windows/src/cmdline.rs:64-70 | whatever is read from a string would read back from a string of its own |
| EnvBlock.EntryReads | agent-windows/src/cmdline.rs:60-71 | an entry reads back if and only if its name is not empty, starts in ASCII and has no equals sign after that, and name and value are text |
| EnvBlock.BlockReads | agent-windows/src/cmdline.rs:60-96 | parsing the block gives the kept and overriding variables in sorted order if and only if each of them reads back and holds no NUL |

## Left out

- `ChaCha20-Poly1305`: an ideal AEAD takes its place, in which decryption succeeds only on a nonce, associated data and ciphertext that were sealed together.
- The handshake and the key agreement: library code; both directional keys are taken as given.
- Packets that are not of frames: `EndToEnd` is about a channel that carries the packets of frames; feedback travels the other way.
- Parity.AdaptiveParity.Observe: does not model f32 rounding; the estimate is a real number.
- Reassembly.Reassembler.Push: waiting frames and streams are values inside the class, as the program's containers own them; that they are updated through a reference is not modelled.
- Replay.ReplayWindow.Shift: a 64-bit word is the sequence of its 64 bits, which is all that shifting, joining and testing them needs.
- Counters of packets and drops, and times, are unbounded; in the program they are 64 bits wide. Packet numbers, frame numbers, stream numbers and what is on the wire have their widths.
- Feedbacks.EncodeFeedback: asks for fewer than 65536 different fragment numbers, because the program's run length overflows when all of them are named.
- LossMeters.LossMeter.Sample: leaves out a first sample with a highest number of 2^64 - 1, on which the program's sum overflows; the sealer never uses that number.
- Completeness.DeliveredWhenEnough: is about a frame alone on its stream; with others waiting, eviction may give it up.
- Sorting and dropping repeats in the NACK encoder, and the stable sort of the environment, are library calls; they are modelled by what they yield.
- Globs.Glob: works on text already lower-cased; Unicode lower-casing is not modelled.
- EnvBlock.BlockReads: works on UTF-16 code units and takes upper-casing of names as any function.
- ReedSolomon.Recover: one loop of the program that scales or adds two rows at once is one method call per row here.
- The fixed parity matrix of GameStream audio: `ReedSolomon.Recover` and `ReedSolomon.RecoversData` hold for any matrix, but that matrix is not written out; nor is the check of a hand-made matrix's shape, which is the type `Coder`.
- First-match rule selection, device limits, the relay's frames and everything that captures, encodes, draws or calls the operating system.
