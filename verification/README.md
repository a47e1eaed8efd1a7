# Verification of unserding

A Dafny model of the stateful and bit-level cores of unserding, a pub/sub messaging
library over UDP multicast, with proofs about whole runs.

`dafny verify dfyconfig.toml` checks everything.

| file | what it models |
|---|---|
| `Wrappers.dfy` | the shared `Option` type |
| `Wire.dfy` | datagram header, tag-length-value records, the inverse pair `Encode`/`Records` |
| `Engine.dfy` | every socket operation as a function on values; `Io` holds what the system calls answer during one call |
| `Socket.dfy` | the same operations in place: class `UdSocket` over its buffers, class `PongService` over the statics of `svc-pong.c`; each method is proved equal to its function in `Engine.dfy` |
| `Publisher.dfy` | runs of one socket: numbering, conservation of messages |
| `Subscriber.dfy` | runs of `ud_chck_msg`: draining, and when what is drained is the datagram's own |
| `Delivery.dfy` | end to end: publisher, dropped datagrams, subscriber |
| `Batching.dfy` | greedy batching sends the fewest datagrams, and what each of them says |
| `PingCodec.dfy` | PING/PONG records: round trip, when what is read is the record's own, and the static buffer byte by byte |
| `Identity.dfy` | whose process id and host name a PING or PONG carries, over runs |
| `Network.dfy`, `Answering.dfy` | N nodes with multicast loopback: quiescence, and exactly how many PONGs each node gives, whatever bytes arrive |
| `Btea.dfy` | Corrected Block TEA on `uint32_t` as `bv32`: loops, neighbour-only specification, the equations of each round, the part of the key, inversion both ways |
| `Scores.dfy`, `Popcount.dfy` | score allocator with the mod-37 table, SWAR popcount |
| `Dealer.dfy` | the dealer's eight-slot connection ring |
| `Decoders.dfy` | the monitor's lazily paged decoder table |

## Where the obvious property is false

Seven promises hold only under a condition, which is proved to be exact.

* Packed messages come out as packed exactly when every accepted pack was *clean*: at most
  255 bytes (the length is cast to one byte, src/unserding.c:572), and not joining a batch
  pending under the wildcard service 0 with a nonzero service (src/unserding.c:565, 587),
  which relabels that batch. `Publisher.RunConserves` is the equivalence over all runs.
* What draining a datagram returns is settled by the datagram exactly when it is not
  accepted or every record the decoder reaches ends inside the payload
  (`Subscriber.DrainOwnIff`): nothing compares a record's length with the bytes received
  (src/unserding.c:645-659). Otherwise the messages take bytes from behind the payload, from
  an earlier datagram or up to 272 bytes after the buffer, where the socket keeps its send
  side (src/unserding.c:157-166); these may change with every call, so each call of the drain
  brings its own. `Subscriber.ReadsOn` is an example. Everything the encoder frames is
  covered (`Subscriber.FramedWalks`).
* A PING record draws exactly one PONG, and nothing else draws one, exactly when no wrong tag
  ends a PING datagram: the reaction (src/unserding.c:641-643) precedes the tag test
  (src/unserding.c:647), so a wrong tag is answered too. `Answering.OncePerRecordIff` is the
  equivalence for every node of a network, `Answering.DrainPongs` for one drained datagram;
  both rest on the exact count, one PONG per tag looked at. `Answering.WrongTagAnswered` is a
  PING of one payload byte that yields no message and one PONG.
* What `ud_chck_ping` reports is settled by the record exactly when it is refused unread or
  holds its own length byte and the whole name (`PingCodec.CheckPingOwnIff`, over all pong
  services): a shorter record is laid over whatever the static buffer held
  (src/svc-pong.c:139-148). `PingCodec.ShortPong` accepts four bytes under an old name.
* A PING or PONG is recovered exactly for host names of at most 58 bytes
  (`PingCodec.PingRoundTrip`); the packer clamps at 59, the checker rejects above 58.
* The dealer tests `fd > 0` (src/ud-dealer.c:303, 311), so a connection accepted on
  descriptor 0 is overwritten without being closed. `Dealer.RunIff` is the equivalence over
  all runs, `Dealer.DescriptorZeroLeaks` a run that shows it.
* For the same reason the shutdown loop (src/ud-dealer.c:302-306) closes every connection
  exactly when none was overwritten and none is served on descriptor 0 at that moment:
  `Dealer.ShutdownIff` over all runs, `Dealer.ZeroSurvivesShutdown` the shortest run.

The two dealer facts speak of the callbacks under any descriptors and events. In `main` the
event loop and the sockets opened before the first accept (src/ud-dealer.c:392-414) normally
occupy descriptor 0, and no code in src/ud-dealer.c raises EV_CUSTOM, so there the shutdown
branch is never entered.

Block TEA is inverted by its decryption exactly for lengths of at least two
(`Btea.InvertibleIff`); at length one the first round already maps two words to one.

## Where code and documentation disagree

The model follows the code.

* src/unserding.c:651 calls the length "12 bits"; line 652 adds the upper nibble of the tag
  to the length byte instead of shifting it. Encoded records have a zero nibble.
* info/unserding.texi says a PING payload may be empty; an empty datagram is never looked at,
  so it is never answered (`Answering.AnsweredIff`).
* info/unserding.texi gives PING flags 0xbeef; the code sends 0xda7a on every datagram.

## Model

| member | source | states |
|---|---|---|
| Wire.RecordsEncode | src/unserding.c:589-600 | decoding an encoded list of blobs gives the list back |
| Wire.EncodeRecords | src/unserding.c:645-659 | encoding what a framed payload decodes to gives the payload back |
| Wire.AppendRecord | src/unserding.c:589-603 | appending one record to a payload appends exactly one blob to what it decodes to |
| Wire.DecodeDatagram | src/unserding.c:485-488 | a framed datagram decodes to its records under its own service, with its packet number modulo 2^16 |
| Wire.Be32RoundTrip | src/svc-pong.c:86 | the pid survives the big-endian split and join |
| Socket.UdSocket.Flush | src/unserding.c:473-507 | in place: the pending payload goes out framed and numbered and the send side empties; a failed send changes nothing |
| Socket.UdSocket.PackMsg | src/unserding.c:568-605 | in place: flush on overflow or service change, then append the clipped record; refused only when that flush fails |
| Socket.UdSocket.Append | src/unserding.c:586-604 | in place: the record goes behind what is pending, its service onto the batch, nothing else changes |
| Socket.UdSocket.PackCmsg | src/unserding.c:710-754 | in place: an oversized control message or a failed send changes nothing, otherwise one numbered datagram goes out at once |
| Socket.UdSocket.Discard | src/unserding.c:509-554 | in place: fetch into the buffer, cut at 1440 bytes, reject short or foreign datagrams leaving nrd 0; or forget the current datagram |
| Socket.UdSocket.TakeRecord | src/unserding.c:645-660 | in place: the record at the cursor under the given service, or a reset when its tag is wrong |
| Socket.UdSocket.NextMsg | src/unserding.c:640-660 | in place: control reaction first, then the record at the cursor, or a reset when its tag is wrong |
| Socket.UdSocket.CheckMsg | src/unserding.c:620-661 | in place: the whole of one check, including the fetch and the -1 after a drained datagram |
| Socket.UdSocket.CheckCmsg | src/unserding.c:756-779 | in place: only 0xff04 draws a reaction; 0 on the control channel, -1 off it |
| Socket.UdSocket.GetAux | src/unserding.c:687-701 | packet number, service and size of the datagram in the buffer, none when it is empty |
| Socket.PongService.Inscribe | src/svc-pong.c:85-90 | in place: pid, clamped length and name go over the static buffer, the rest stays |
| Socket.UdSocket.PackPing | src/svc-pong.c:69-98 | in place: the static buffer is overwritten, pending data flushed, the control message sent |
| Socket.UdSocket.PackPong | src/svc-pong.c:100-123 | in place: the identity is read once and cached; an unreadable host name sends nothing |
| Socket.UdSocket.CheckPing | src/svc-pong.c:125-150 | in place: the record is copied over the static buffer, checked and terminated |
| Publisher.PackAppends | src/unserding.c:568-605 | an accepted pack appends one message, cut to its first (length mod 256) bytes, and changes earlier ones at most from service 0; nothing else under the clean condition |
| Publisher.PackRefused | src/unserding.c:576-584 | a pack is refused exactly when it needs a flush that fails, and then changes nothing |
| Publisher.FlushKeeps | src/unserding.c:473-507 | a flush, failed or not, loses, duplicates and relabels nothing |
| Publisher.CmsgKeeps | src/unserding.c:710-754 | a control message is refused exactly above 70 bytes or when its send fails; otherwise it goes out at once, alone, decoding to itself, and pending data stays |
| Publisher.CheckKeeps | src/unserding.c:640-643 | checking a message, including a PING that re-enters the send side, loses and relabels nothing |
| Publisher.RunConserves | src/unserding.c:473-605 | over every run with any failures, sent data plus pending data are the accepted messages up to clipping and relabelling, and equal them exactly when all packs were clean |
| Publisher.HonestRunConserves | src/unserding.c:473-605 | messages with a nonzero service and at most 255 bytes are conserved exactly, in order, over every run |
| Publisher.RunNumbers | src/unserding.c:478-506 | byte by byte over every run: the i-th datagram is 55 44, i modulo 2^16, the service, da 7a, and for each message it decodes to a 12, the length and the data; failed sends consume no number; nothing pending means no service pending |
| Publisher.WildcardRelabels | src/unserding.c:562-587 | two packs whose first message goes out relabelled |
| Subscriber.FetchIff | src/unserding.c:514-553 | a datagram is accepted by its own header alone; rejected ones leave nrd and nck 0, accepted ones show at most 1432 payload bytes unchanged; either way its first 1440 bytes are in the buffer and the rest of the buffer is as it was |
| Subscriber.DiscardForgets | src/unserding.c:548-553 | with a datagram in the buffer, read or not, a discard leaves nrd and nck 0 and nothing unread, and changes nothing else |
| Subscriber.TagDecides | src/unserding.c:645-660 | a call with a byte unread returns a message exactly when the byte at the cursor is 12 modulo 16; service, length, data and new cursor in terms of the buffer's bytes |
| Subscriber.TwelveBitLength | src/unserding.c:646-653 | the decoded length is the documented twelve-bit one exactly when the tag's upper nibble is clear |
| Subscriber.TakeRecord | src/unserding.c:645-660 | a call with a record unread returns it and steps over it, inside the payload |
| Subscriber.CheckConserves | src/unserding.c:620-661 | each call conserves received plus buffered plus queued messages and does exactly one unit of work |
| Subscriber.DrainDatagram | src/unserding.c:509-554 | a well-formed datagram yields its records once each in order, then -1 exactly once, and the receive side is empty |
| Subscriber.DrainAnyDatagram | src/unserding.c:620-661 | arbitrary payload bytes, and memory behind the buffer that changes with every call: the records of one walk over the payload, at most half as many as bytes, rounded up, then -1 with nrd and nck 0 |
| Subscriber.WalkOwnIff | src/unserding.c:645-659 | the walk is the same for all memories agreeing on header and payload if and only if every record it reaches ends inside the payload |
| Subscriber.DrainOwnIff | src/unserding.c:509-661 | the drained messages are the same whatever the receive buffer held before and whatever happens behind it meanwhile, if and only if the datagram is refused or every record the walk reaches ends inside its payload |
| Subscriber.FramedWalks | src/unserding.c:589-600 | a walk over an encoded payload meets every record, ends each inside the payload and meets no wrong tag |
| Subscriber.WalkReached | src/unserding.c:645-659 | how many records a walk returns is settled by the payload alone |
| Subscriber.LooksReached | src/unserding.c:640-650 | the calls that look at a tag are the records reached, and one more exactly when a wrong tag ends the payload |
| Subscriber.ReadsOn | src/unserding.c:645-656 | a two-byte payload whose message is the byte the buffer held behind it |
| Subscriber.AuxNumbers | src/unserding.c:687-701 | the receiver of the i-th datagram sees number i modulo 2^16, its service and size |
| Subscriber.AuxAfter | src/unserding.c:687-701 | after any call that returns a message the auxiliary data are the datagram's number and size and the message's own service; none after a -1 |
| Subscriber.AuxThroughout | src/unserding.c:687-701 | while the i-th datagram is drained every message finds number i modulo 2^16, its service and the whole payload size, the same for all records; nothing after the -1 |
| Subscriber.CallsConserve | src/unserding.c:620-661 | conservation over any number of calls, and the exact number of calls until idle |
| Delivery.DataLogSelects | src/unserding.c:473-507 | the data datagrams among all those sent, decoded, are the data log |
| Delivery.SubscriberGets | src/unserding.c:509-661 | of any well-formed datagrams exactly those that arrived are received, each entirely |
| Delivery.EndToEnd | src/unserding.c:473-754 | any publisher run, control datagrams included, any dropped datagrams: the subscriber gets exactly the datagrams that arrived, each entirely, byte for byte; the data ones sent are the accepted messages exactly when all packs were clean |
| Delivery.DataEndToEnd | src/unserding.c:614-661 | with data off the control channel, what arrives off it is the data datagrams that arrived; if none is dropped, the accepted messages exactly when all packs were clean |
| Batching.StaysAhead | src/unserding.c:556-605 | at every prefix greedy has opened fewer batches than any cut, or as many with a shorter open one |
| Batching.GreedyOptimal | src/unserding.c:556-605 | the greedy batches are a valid cut with the fewest batches |
| Batching.FewestDatagrams | src/unserding.c:473-605 | whatever sends fail on the way, packing and one successful flush send the minimum number of datagrams over all admissible cuts of the accepted messages, service 0 included, and attain it |
| Batching.GreedyDatagrams | src/unserding.c:556-605 | under the same failures the k-th datagram decodes to the k-th greedy batch, clipped and under its last service; to exactly that batch for nonzero services and at most 255 bytes |
| Batching.SingleService | src/unserding.c:562-566 | for nonzero services an admissible batch is one service and at most 1432 bytes |
| PingCodec.PackPingSends | src/svc-pong.c:85-97 | packing succeeds exactly when the control send does, for host names of any length, after the flush |
| PingCodec.PackPingLeaves | src/svc-pong.c:85-97 | the static buffer holds pid, length byte and name (cut modulo 256, to 59 above 58) over what it held, and the datagram's one record is just these bytes under 0xff04 or 0xff05 |
| PingCodec.CheckPingReads | src/svc-pong.c:125-150 | what any receiver recovers, whatever its static buffer held and whatever PONG overwrote it meanwhile |
| PingCodec.CheckPingIff | src/svc-pong.c:130-148 | only PING and PONG records of at most 64 bytes are accepted; one that holds its length byte and whole name is accepted exactly up to 58, with its own kind, pid and name |
| PingCodec.CheckPingLeaves | src/svc-pong.c:130-149 | the socket is the one ud_chck_msg leaves; a record not inspected leaves the statics alone; an inspected one lies over the buffer, and an accepted name is ended by a 0 there |
| PingCodec.ExtractOwnIff | src/svc-pong.c:139-148 | what is read from a record of at most 64 bytes is the same over all buffers if and only if it holds its length byte and, unless that is above 58, the whole name |
| PingCodec.CheckPingOwnIff | src/svc-pong.c:125-150 | for any socket and arrival the result is the same for all pong services, automatic PONG included, if and only if the record is refused unread or holds its length byte and whole name |
| PingCodec.ShortPong | src/svc-pong.c:130-148 | a PONG of four bytes is accepted under the name the buffer holds |
| PingCodec.PingRoundTrip | src/svc-pong.c:69-150 | kind, pid and host name are recovered if and only if the name has at most 58 bytes |
| Identity.PongTells | src/svc-pong.c:100-123 | a packed PING or PONG is read by every receiver with the known pid and name, or those read now; without a host name nothing changes |
| Identity.ReactionTells | src/unserding.c:640-643 | the PONG that answers a PING tells the same; a call that looks at no PING sends nothing and leaves the statics |
| Identity.RunReads | src/svc-pong.c:106-115 | over every run the identity is the first nonempty name read, with the pid of that moment |
| Identity.RunTells | src/svc-pong.c:100-123 | after any run every receiver reads that identity from hand-packed and automatic messages, whatever the environment says by then |
| Network.CheckSends | src/unserding.c:756-779 | a reaction is at most a flush and one PONG, and only to service 0xff04 |
| Network.NextWeight | src/unserding.c:640-660 | checking a record costs more weight than everything it sends to all nodes adds |
| Network.MoveDecreases | src/unserding.c:620-661 | every productive call or loss lowers the network's potential |
| Network.Quiesces | src/unserding.c:620-661 | no run of calls and losses is longer than the initial potential: the PING/PONG exchange dies out |
| Network.StuckIffQuiet | src/unserding.c:620-638 | a call can do something exactly while a datagram is fetched or waiting |
| Answering.AnsweredIff | src/unserding.c:620-661 | for any bytes: the call that fetches a datagram gives one PONG exactly when it is an accepted PING with a nonempty payload, the host name is known and the send succeeds; other services draw nothing |
| Answering.CheckAnswers | src/unserding.c:620-661 | for any socket and any arrival, a call with host known and send succeeding conserves PONGs given plus tags of PING datagrams due to be looked at |
| Answering.DrainPongs | src/unserding.c:620-661 | draining any PING datagram draws one PONG per tag looked at; as many as messages are returned if and only if no wrong tag ends it |
| Answering.WrongTagAnswered | src/unserding.c:641-650 | a PING of one wrong byte yields no message and one PONG |
| Answering.MoveAnswers | src/unserding.c:756-779 | each served call conserves, at every node and for any bytes queued, PONGs given plus looks due at PING datagrams |
| Answering.EveryPingAnswered | src/unserding.c:620-661 | in a loss-free run to quiet each node gives exactly one PONG per look at the PING datagrams queued or fetched there, malformed ones included, and no other |
| Answering.OncePerRecordIff | src/unserding.c:620-661 | it gives exactly one PONG per PING record and no other if and only if no wrong tag ends a PING datagram there |
| Answering.CanSettle | src/unserding.c:620-661 | from any network, malformed datagrams included, a loss-free run to quiet exists, no longer than the potential |
| Answering.OnePingNPongs | src/svc-pong.c:100-123 | one PING sent into a quiet network of N nodes draws exactly one PONG from each node, N in all |
| Btea.ScrambleIs | src/btea.c:11-16 | the scramble in word arithmetic: z / 32, 4y, y / 8, 16z, sums modulo 2^32, and the key word picked |
| Btea.PicksKey | src/btea.c:15 | the key word picked has the two low bits of p, flipped by bits 2 and 3 of the sum |
| Btea.KeyMatters | src/btea.c:11-16 | two keys scramble a cell alike exactly when they agree on the word picked for it |
| Btea.WholeKey | src/btea.c:27-35 | from four cells on two keys give the same round exactly when they are equal |
| Btea.PassSolves | src/btea.c:30-35 | a round solves its equations: each cell plus the scramble of its new left and old right neighbour, the last one's right neighbour being the new first |
| Btea.RoundsIs | src/btea.c:24 | 6 + q rounds for the q with q * n <= 52 < (q + 1) * n |
| Btea.EncTrace | src/btea.c:18-38 | encryption is just that many rounds, each solving its equations under the next multiple of 0x9e3779b9 |
| Btea.BackSolves | src/btea.c:51-56 | a decryption round solves its equations: each cell less the scramble of its old left and new right neighbour, the first one's left neighbour being the new last |
| Btea.DecTrace | src/btea.c:40-59 | decryption is as many such rounds as encryption makes, from the last sum to the first, also for one word |
| Btea.EncPass | src/btea.c:30-35 | the register-carrying inner loop is the neighbour-only pass, with z the last cell at its end |
| Btea.Encrypt | src/btea.c:18-38 | in place: the array becomes the specified encryption |
| Btea.DecPass | src/btea.c:51-56 | the inner decryption loop is the reverse pass, with y the first cell at its end |
| Btea.Decrypt | src/btea.c:40-59 | in place: the loop that only a zero sum ends computes the specified decryption, all rounds and no more |
| Btea.RoundTrip | src/btea.c:18-59 | decrypting after encrypting restores the array in place |
| Btea.BumpDrop | src/btea.c:32-35 | adding and subtracting a cell's scramble undo each other because a cell is not its own neighbour |
| Btea.Inverse | src/btea.c:18-59 | for two words or more each of encryption and decryption undoes the other, for every key |
| Btea.Permutes | src/btea.c:18-59 | for each key and length encryption is injective and onto |
| Btea.InvertibleIff | src/btea.c:18-59 | decryption undoes encryption for all arrays of a length exactly when the length is at least two |
| Btea.DeltaIsUnit | src/btea.c:4 | a multiple of DELTA is 0 modulo 2^32 only for multiples of 2^32 |
| Btea.ExitsAfterRounds | src/btea.c:46-57 | counting down from r rounds the sum is 0 after exactly r steps, and each step sees the matching round's sum |
| Scores.RightZeroesFinds | src/svc-pong.h:88-102 | the mod-37 table returns the index of the lowest set bit, 32 for zero |
| Scores.FindScoreLeast | src/svc-pong.h:104-109 | the smallest score not in the set, 32 exactly when all are taken |
| Scores.SetMembers | src/svc-pong.h:76-86 | set and unset add and remove one score, modulo 32, and touch no other |
| Scores.RunRefines | src/svc-pong.h:70-109 | every run of claims and releases refines a finite set: a claim takes the least free score, never a held one |
| Scores.FullSetUnchanged | src/svc-pong.h:76-80 | find-then-set on a full set changes nothing |
| Popcount.PairField | src/aux.h:25 | after step one each two-bit field is the sum of its two bits |
| Popcount.PairCounts | src/aux.h:25 | and so counts its own bits of the word |
| Popcount.NibbleField | src/aux.h:26 | step two leaves in each nibble the sum of its two fields, with a clear top bit |
| Popcount.NibbleCounts | src/aux.h:25-26 | after step two each nibble counts its own bits of the word |
| Popcount.ByteField | src/aux.h:27 | step three leaves in each byte the sum of its two nibbles, with a clear upper half |
| Popcount.ByteCounts | src/aux.h:25-27 | after step three each byte counts its own bits of the word |
| Popcount.TopSums | src/aux.h:28 | the multiplication puts the sum of all bytes into the top one without overflow |
| Popcount.Popcnt64Counts | src/aux.h:19-30 | the result is the number of set bits of every 64-bit word |
| Popcount.Popcnt32Counts | src/aux.h:19-30 | the result is the number of set bits of every 32-bit word |
| Dealer.ConnRing.EvIoShut | src/ud-dealer.c:109-121 | in place: the descriptor is closed and the slot reset |
| Dealer.ConnRing.DataCb | src/ud-dealer.c:265-289 | in place: a connection ends after its first datagram or error |
| Dealer.ConnRing.TcpCb | src/ud-dealer.c:291-332 | in place: eviction, accept with failure, round-robin advance, shutdown loop |
| Dealer.StepIff | src/ud-dealer.c:265-332 | an event keeps every connection live in one slot or closed once exactly when it does not reuse a slot serving descriptor 0 |
| Dealer.RunIff | src/ud-dealer.c:265-332 | a run ends with every accepted connection live in exactly one slot or closed exactly once, if and only if it never reused a slot still serving descriptor 0 |
| Dealer.EventEffects | src/ud-dealer.c:265-332 | a successful accept is live in its own slot, a failed one admits nothing, a data event closes its connection |
| Dealer.EvictsTheEighth | src/ud-dealer.c:310-319 | after any run, leaks included, an accept attempt closes exactly the connection accepted eight successful accepts before the one attempted, if still open and not on descriptor 0, also when the accept then fails |
| Dealer.RunAccounts | src/ud-dealer.c:291-332 | over every run without descriptor 0 each accepted connection is live in exactly one slot or closed exactly once |
| Dealer.ShutdownClosesAll | src/ud-dealer.c:300-308 | from a state with every connection accounted for, shutdown leaves nothing open and everything closed once if and only if no slot serves descriptor 0 |
| Dealer.ShutdownIff | src/ud-dealer.c:291-332 | over every run: after the shutdown every accepted connection has been closed exactly once and nothing is open, if and only if no slot serving descriptor 0 was reused and none serves it at the end |
| Dealer.ZeroSurvivesShutdown | src/ud-dealer.c:302-306 | one connection accepted on descriptor 0 is still open after the shutdown |
| Dealer.DescriptorZeroLeaks | src/ud-dealer.c:311-325 | a run in which the connection on descriptor 0 is lost |
| Decoders.SplitBijective | src/unsermon.c:125-139 | page and slot determine the service and conversely |
| Decoders.DecMap.Reg | src/unsermon.c:121-141 | in place: a page is allocated when missing, pages stay distinct, one cell is written; no memory changes nothing |
| Decoders.DecMap.Dereg | src/unsermon.c:143-157 | in place: one cell is cleared, or -1 for an unbound service |
| Decoders.DecMap.Lookup | src/unsermon.c:159-172 | the callback of the service, none on a missing page |
| Decoders.StepRefines | src/unsermon.c:121-157 | each operation does to the paged table what it does to a plain map, with the same success |
| Decoders.RunRefines | src/unsermon.c:121-172 | over every run, refused allocations included, the paged table is the plain map |
| Decoders.OthersUnchanged | src/unsermon.c:139-155 | an operation on one service leaves every other lookup unchanged |

## Left out

- Socket creation, multicast membership, socket options, source addresses: system calls only; a socket starts zeroed.
- Partial sends (src/unserding.c:492-495, 745-748): a send is all or nothing.
- The C type of `pno`: it counts without bound here and goes out modulo 2^16; the `int` overflow after 2^31 sends is not modelled.
- Zero-copy delivery: `ud_chck_msg` hands out a reference into the receive buffer; here the bytes are returned, so their lifetime until the next fetch is not modelled.
- The link between the memory behind the receive buffer and the send side it holds: `Subscriber.Drain` takes that memory from each call as arbitrary bytes; `Engine.CheckMsg`, `Calls` and the network keep it as it is, which no result about framed payloads or counts of PONGs depends on.
- Several sockets in one process sharing the statics of `svc-pong.c`: each socket call takes one pong service; the round trip holds for any contents of its buffer.
- `ud_pack` and `ud_chck` (src/unserding.c:607-612, 663-678): a wrapper and a clamped copy.
- Duplicated datagrams and datagrams from other programs in the N-node model: the network loses and reorders, it does not invent.
- What legacy-magic datagrams contain: their acceptance is modelled, their payload is treated as arbitrary bytes.
- Arrays longer than 2^32 words in `btea.c`, and the undefined `1 << 31` on a signed int in `svc-pong.h`, taken as bit 31.
- The SSE4.2 popcount.
- The dealer's UDP mode, splice path and resend loop; reads only matter here for ending a connection.
- The router, ping and monitor programs, the event loop, daemonising, logging and module loading: I/O and plumbing.
- Services CMD and TIME and the tick formats of the manual: no code here implements them.
