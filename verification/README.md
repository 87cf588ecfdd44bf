# micro_core: the reliable transport and its message layer, verified

This project models the communication stack of micro_core and proves what its documentation
promises of it: `mc_comm`, a selective-repeat sliding-window transport over a network that
loses, corrupts, duplicates and reorders frames, `mc_msg`, the message layer on top, and the
two small things both rest on, a CRC-16 and a sorted table with binary search.

The proofs work on values and the program works in place, so most layers come twice: once as
a value with its operations, about which the theorems are proved, and once as a class whose
methods follow the C code statement by statement and are proved to compute exactly those
operations.

| file | content |
|---|---|
| `Bytes.dfy`, `Seqs.dfy` | octets as bit patterns, little-endian fields, sequence lemmas |
| `Crc16.dfy` | the bytewise CRC loop, the bit-serial register it equals, polynomial division, burst errors |
| `Frame.dfy` | the frame layout, sealing and checking, the class that assembles frames from pieces |
| `Packets.dfy` | the packet record, its layout in a frame, the window slot |
| `WindowRing.dfy` | the window pool as a value: `wnd[k]` is the slot of id `bgn + k` |
| `Protocol.dfy` | one end of a connection, its four kinds of step, two ends and the network, runs |
| `Invariant.dfy`, `Safety.dfy` | the inductive invariant of one direction, and that every step keeps it |
| `Delivery.dfy` | in-order delivery, acknowledgements, retransmission, flush |
| `Liveness.dfy` | no deadlock: whatever is outstanding can move on |
| `Completion.dfy` | exactly when a blocked sender takes data again, a sending half empties, everything is delivered, a flush returns |
| `Fairness.dfy` | fair rounds empty a sender, whatever else happens |
| `Memory.dfy` | connections over memory that was not zeroed: exactly when they are right |
| `Weaving.dfy` | one end's own steps woven into what its peer does meanwhile |
| `WindowPool.dfy` | the pool as the program keeps it: a ring over an array |
| `Communication.dfy` | `mc_comm` as an object; what each call does, turn by turn |
| `Flush.dfy`, `SendCall.dfy`, `RecvCall.dfy` | what a call of flush, send or receive does while it waits, and exactly when it can return |
| `Reading.dfy` | what a read yields, and a receive call for octets that are there |
| `Resending.dfy` | acknowledgements remembered, nothing sent before its time, the delay |
| `Search.dfy`, `SortedArray.dfy` | binary search, nearest element, the sorted table |
| `Messages.dfy` | the message format, a reference parser, the incremental parser |
| `Messenger.dfy` | `mc_msg` as an object over `mc_comm` and the table |
| `EndToEnd.dfy` | messages across the lossy network, for runs and for objects |

## How the network and the environment are modelled

Each end keeps every packet it ever handed to the transport. A step of the network delivers to
an end any frame the peer ever sent, as often and in whatever order it likes, or any frame at
all that fails the CRC or header check. What the model assumes is that a frame which passes
the check was sent by the peer. Clock readings are arbitrary inputs of each step; one call
takes one reading of each clock.

At the level of objects the transport is a source of octets from which one read takes at most
what it asked for, and a blocking call is watched for a finite number of turns of its loop.
Each turn comes with the set of packets the peer has sent by then, so the peer may act between
any two turns. An object records every step of its life; `Woven` puts arbitrary steps of the
peer between them, and the results about runs are stated again for everything so woven.

Ids are unbounded numbers that stay, together with either capacity, below the sentinel
`0xFFFFFFFF` (`NoWrap`, `Roomy`); `get_index` is modelled in 32-bit arithmetic. The two
capacities of a connection are independent; only the frame sizes of the two ends agree.
`sizeof(mc_pkt)` is 12 while its data starts at offset 11, so a frame ends in one octet that
carries nothing; the model keeps it, as the CRC covers it.

## Where the code does not do what is expected of it

* A window that fills while no other is free is handed to the transport without a number
  (mc_window_pool.c:193-206). A later write sends it, if there is a second window; a sender with
  one window never accepts another octet (`LoneStuckForGood`, `OneWindowSticks`). Safety holds in
  spite of it, and outstanding windows still move on. `WriteSticksIff` says which write leads
  there, `UnblockPossibleIff` exactly when a blocked sender can take data again and
  `SendReturnsIff` when a call of `mc_comm_send` can get through,
  `EmptyingPossibleIff` when a sending half can be emptied without writing more, and
  `DeliveryPossibleIff` when everything accepted can still reach the other application.
* `mc_comm_flush` waits for both pools and never reads (mc_communication.c:178-186), so it fails
  for two reasons: a last window in the state above, or an unread octet that arrived in order.
  `FlushPossibleIff` says that it can complete if and only if neither is the case, and
  `FlushReturnsIff` says the same of the turns of the call itself;
  `UnreadBlocksFlush` leads to an end that has written nothing and yet cannot flush.
* `mc_sarray_remove` of an absent key takes away the next greater element, and
  `mc_msg_unsubscribe` with it, although the API text promises an error (doc/io/message/api.md:111-114);
  `RemoveKeepsOrder` says exactly when the right element goes, `RemoveAbsentExample` is an input
  for which it does not.
* With a receive pool of exactly four octets a message larger than the pool stops the parser
  for good: `AsksForMoreIff`, `JammedForGood`, and `FirstPayloadJams` for the first message with a
  payload. `mc_msg_init` accepts smaller pools too, and then the header call writes outside the
  pool: `WritesInsideIff` says that no sequence of reads does if and only if the pool has four
  octets at least, `PoolOfThree` is an input. Everything else about the parser is stated for
  pools that have them.
* `mc_comm_send` reports a timeout although everything was accepted if and only if the clock is
  past the deadline after the turn that took the last segment (mc_communication.c:161-164):
  `TimeoutThoughAccepted`.
* The CRC field lies inside the frame it protects, low octet first, so a burst across its border
  can escape: `EscapesIff` says exactly which damage does, `StraddlingBurstEscapes` is a burst of
  16 bits that always does.
* `wndpool_init` does not reset the read cursor (mc_window_pool.c:56-75), nor does anything else
  clear the caller's memory. `RightIff`: over any memory, all runs deliver in order and read inside
  their windows if and only if at either end the cursor found is zero, or the peer's only window
  holds one octet and so is never numbered. `CursorMisleads` is a run that delivers something else
  for every cursor inside the windows the peer can send, `CursorOutside` one that reads outside
  the window for every larger one. Whatever else the memory held, types included, does no harm;
  `Initial` asks only for the two cursors.

## Model

| member | source | states |
|---|---|---|
| Crc16.Crc16Ccitt | src/alg/algorithm.c:70-95 | the bytewise loop computes the bit-serial register of the message, for every length |
| Crc16.CrcIsPolynomialRemainder | src/alg/algorithm.c:78-92 | the value is the remainder of a long division of the message times x^16, its first 16 bits complemented, by x^16+x^12+x^5+1 |
| Crc16.FeedAtOnce | src/alg/algorithm.c:81-90 | up to 16 message bits may be loaded before shifting: why the octet-wise loop is right |
| Crc16.FeedLinear | src/alg/algorithm.c:80-92 | the difference of two runs is the run of the difference of their messages |
| Crc16.BurstDetected | src/alg/algorithm.c:70-95 | two different messages of equal length that agree outside 16 consecutive bits have different CRCs |
| Crc16.GeneratorEscapes | src/alg/algorithm.c:86 | sixteen is exact: a 17-bit pattern, the generator, is never seen at any position |
| Frame.SealThenCheck | src/io/communication/mc_frame.c:20-27 | a frame whose CRC field was filled in passes the check |
| Frame.DamageRejected | src/io/communication/mc_frame.c:20-27 | a valid frame damaged in one burst of 16 bits outside the CRC field, or anyhow inside it, is rejected |
| Frame.EscapesIff | src/io/communication/mc_frame.c:20-27 | any damage to a valid frame passes the check if and only if the register fed with the damage outside the CRC field equals the damage inside it |
| Frame.StraddlingBurstEscapes | src/io/communication/mc_frame.c:20-27 | in every valid frame of 13 octets one certain burst of 16 bits across the end of the CRC field passes |
| Frame.HeaderExactly | src/io/communication/mc_frame.c:10-13 | the header check accepts exactly the frames that start with the octets E9 and C7 |
| Frame.FrameIsCrcValid | src/io/communication/mc_frame.c:20-27 | the check that zeroes the field and restores it leaves the frame as it was and answers whether the CRC matches |
| Frame.Assembler.IoRecv | src/io/communication/mc_io.c:12-23 | however the octets arrive, the frames examined are the consecutive blocks of the stream; a block is handed on exactly if header and CRC are right |
| Frame.ChunkingIrrelevant | src/io/communication/mc_frame.c:36-43 | any cutting of a stream into reads examines the same blocks and leaves less than one block buffered |
| Packets.DecodeEncode | src/io/communication/mc_window.h:30-38 | reading a packet back from its frame gives the packet |
| Packets.Layout | src/io/communication/mc_window.h:24-38 | the offset, width and octet order of every field; a type octet of 0 is data and of 1 an acknowledgement |
| Packets.InvalidIsAllOnes | src/io/communication/mc_window.h:21 | the sentinel id is the field filled with ones |
| Packets.SealedSound | src/io/communication/mc_window_pool.c:117-129 | every packet that is sealed passes the peer's check |
| WindowRing.FillLeavesRoom | src/io/communication/mc_window_pool.c:185-208 | the copy loop terminates: a turn that copies nothing opens an empty window, and octets left over always find a free one |
| Protocol.MirrorRun | src/io/communication/mc_protocol.c:52-103 | the two ends are alike, so each result about runs for one end holds for the other |
| Liveness.MirrorQuietRun | src/io/communication/mc_protocol.c:52-103 | so does each result about runs in which all earlier packets are lost |
| Protocol.InitGivesInitRing | src/io/communication/mc_window_pool.c:56-75 | initialising any memory gives an empty pool with cleared slots, and the cursor found |
| Memory.ReadsInside | src/io/communication/mc_window_pool.c:146-167 | from every sound state no read starts outside the window it reads |
| Memory.CursorMisleads | src/io/communication/mc_window_pool.c:56-75 | a cursor left in memory, not larger than the windows the peer can send: some run, all its reads inside, hands out what was not sent in that order |
| Memory.CursorOutside | src/io/communication/mc_window_pool.c:153-157 | a cursor left in memory beyond the first window: some run reads outside it |
| Memory.HarmlessMemory | src/io/communication/mc_window_pool.c:56-75 | memory with zero receive cursors, or behind peers that never number a window, is right in every run |
| Memory.RightIff | src/io/communication/mc_window_pool.c:56-75 | over any memory: every run delivers in order, both ways, and reads inside its windows if and only if the cursors found do no harm |
| Invariant.FillKeeps | src/io/communication/mc_window_pool.c:169-211 | writing keeps the sending half sound: numbered windows are logged and on the wire, the rest is the open tail, whatever is sealed or handed over unsealed |
| Invariant.StaleKeeps | src/io/communication/mc_protocol.c:31-45 | so does sealing and resending a stale partial window |
| Invariant.AckKeeps | src/io/communication/mc_window_pool.c:131-144 | so does a true acknowledgement: only received windows are dropped, and no done window stays in front |
| Invariant.UnackedExactly | src/io/communication/mc_protocol.c:87-103 | a timer step takes from the outstanding range exactly the packets of ids not acknowledged whose time plus the delay has come |
| Safety.StoreKeeps | src/io/communication/mc_window_pool.c:92-99 | storing a genuine packet keeps the receiving half sound; storing it again changes nothing |
| Safety.ReadKeeps | src/io/communication/mc_window_pool.c:146-167 | a read of any size returns the next logged octets and keeps the cursor inside the first window |
| Reading.ReadYields | src/io/communication/mc_window_pool.c:146-167 | a read yields exactly the first octets pending: as many as asked for or all that is left of the first window, and nothing only if nothing is pending; the rest stays pending |
| Reading.RecvOfPending | src/io/communication/mc_communication.c:116-130 | a receive call for no more than is pending gets exactly its front, in at most as many turns as windows are stored in order, if it is in time |
| Safety.SenderStep | src/io/communication/mc_protocol.c:52-103 | whatever an end does, the direction in which it sends stays sound |
| Safety.ReceiverStep | src/io/communication/mc_protocol.c:52-79 | whatever an end does, the direction in which it receives stays sound, and it keeps what it received |
| Safety.RunKeepsInv | src/io/communication/mc_protocol.c:52-103 | the invariant of both directions holds in every reachable state |
| Delivery.ExactlyOnceInOrder | src/io/communication/mc_communication.c:105-168 | in every run the octets read at one end are a prefix of the octets accepted at the other |
| Delivery.ReadIsPrefix | src/io/communication/mc_window_pool.c:146-167 | so are the octets read followed by those stored in order |
| Delivery.AckSoundness | src/io/communication/mc_protocol.c:57-78 | acknowledgements on the wire, acknowledged windows and dropped ids name packets that the receiver has and keeps in every continuation; no acknowledged window is left in front of a sender |
| Delivery.AckRemovesExactly | src/io/communication/mc_window_pool.c:29-54 | whatever id is acknowledged, removal takes the maximal done prefix, never an unnumbered window, and leaves all other slots |
| Resending.AckIsRemembered | src/io/communication/mc_window_pool.c:131-144 | after an acknowledgement of any numbered id, first or not, that id is dropped or its window is marked |
| Resending.TickExactly | src/io/communication/mc_protocol.c:87-103 | what a timer step sends: exactly the outstanding packets not acknowledged whose time plus the delay has come, and the last window exactly if it is stale |
| Resending.NumberedStays | src/io/communication/mc_window_pool.c:131-211 | in every run a numbered window keeps packet and time until it is dropped, and never loses an acknowledgement |
| Resending.AckedNotResent | src/io/communication/mc_protocol.c:91-95 | in every run, once the acknowledgement of a numbered id has arrived, no timer step takes that id from the outstanding range |
| Resending.NumberedNow | src/io/communication/mc_window_pool.c:117-129 | a window carries the clock reading at which it was numbered, by a write or by the timer |
| Resending.NotBeforeTime | src/io/communication/mc_protocol.c:91-95 | in every run, no timer step takes an id from the outstanding range sooner than the delay after it was numbered |
| Resending.StaleExactly | src/io/communication/mc_protocol.c:31-45 | the timer sends the last window exactly if it is partly filled and 250 ms have passed since it was written; sealed once, under the number due, with its octets |
| Resending.NotStaleEarly | src/io/communication/mc_protocol.c:34-35 | in every run, not within 250 ms of the last write |
| Resending.TickInOrder | src/io/communication/mc_protocol.c:87-103 | all that a timer step sends is in strictly increasing order of ids |
| Resending.StuckIsHandedOver | src/io/communication/mc_window_pool.c:193-206 | a write that fills the last window with none free has handed it over as it is |
| Resending.AckSetsDelay | src/io/communication/mc_protocol.c:60-66 | an acknowledgement sets the delay to four fifths of the time since numbering, between 100 and 1000000 us |
| Delivery.RetransmissionStable | src/io/communication/mc_window_pool.c:117-129 | all transmissions of an id in a run are the same packet, which passes the check and carries what was logged |
| Delivery.UnackedInOrder | src/io/communication/mc_protocol.c:91-100 | the resent packets have strictly increasing ids of the outstanding range |
| Delivery.DuplicateIgnored | src/io/communication/mc_protocol.c:70-78 | a genuine packet received before leaves both pools and the cursor as they are and earns one sound acknowledgement |
| Delivery.WriteAllOrNothing | src/io/communication/mc_window_pool.c:169-211 | a segment is refused without effect exactly if it is empty, the pool is full or the open window is sealed; otherwise it is taken whole and log plus tail grow by its octets; at most capacity minus one ids are outstanding and the count never exceeds the capacity |
| Delivery.EmptySenderMeansStored | src/io/communication/mc_window_pool.c:108-115 | an empty sending half: the peer has stored everything accepted, in order |
| Delivery.FlushMeaning | src/io/communication/mc_communication.c:170-189 | with both pools empty, every octet accepted is stored by the peer and none that arrived in order waits here |
| Liveness.TickSendsFirst | src/io/communication/mc_protocol.c:87-103 | when its time has come the first outstanding window is resent, sealed first if it was open, also while the last window is full and unnumbered |
| Liveness.RoomOrReadable | src/io/communication/mc_window_pool.c:77-80 | if the receiver has no slot for that window it has octets to read, and reading them makes the slot, whatever the capacities |
| Liveness.Round | src/io/communication/mc_protocol.c:70-103 | from every sound state with an id outstanding or an open window to seal, one resend, at most one read by the peer, one delivery and one acknowledgement advance the window, even if every earlier packet is lost and the pool is full |
| Liveness.Drain | src/io/communication/mc_communication.c:170-189 | such rounds empty the sending half |
| Fairness.RoundMovesOn | src/io/communication/mc_protocol.c:52-103 | in any run without writes in which the packet of the first window arrives in the receiver's window and later its acknowledgement arrives, the sender's window moves on, whatever else happens |
| Fairness.FairRunsEmpty | src/io/communication/mc_protocol.c:52-103 | no run has more such rounds than ids in use; after that many the sending half is empty, or only its stuck window is left |
| Completion.StuckStays | src/io/communication/mc_window_pool.c:213-223 | a full unnumbered last window stays so in every run without a write |
| Completion.EmptyingPossibleIff | src/io/communication/mc_communication.c:170-189 | in every reachable state the sending half can be emptied without writing more if and only if its last window is not full and unnumbered |
| Completion.LoneStuckForGood | src/io/communication/mc_window_pool.c:171-174 | a sender whose only window is full and unnumbered accepts nothing in any run, writes included |
| Completion.UnblockPossibleIff | src/io/communication/mc_communication.c:144-166 | in every reachable state a run without writes leads to a sender that takes data, with every earlier packet lost, if and only if its last window is not stuck alone; if it is, no run does |
| Completion.UnreadStays | src/io/communication/mc_communication.c:178-186 | what arrived first and is unread stays unread while its end only delivers and resends |
| Completion.FlushPossibleIff | src/io/communication/mc_communication.c:170-189 | in every reachable state deliveries and timers at one end can empty both its pools, with every earlier packet lost, if and only if its last window is not stuck and its receiving half is empty; otherwise no such run does, whatever the peer does |
| Flush.FlushActs | src/io/communication/mc_communication.c:178-186 | whatever the turns of a flush show, it is a sequence of deliveries and timer steps |
| Flush.FlushReturnsIff | src/io/communication/mc_communication.c:170-189 | in every reachable state, whatever part of a frame is buffered, a call of flush can return true, for some transport, clock and peer, if and only if the last window is not stuck and the receiving half is empty |
| SendCall.WaitingSendTurns | src/io/communication/mc_communication.c:156-159 | each turn of a send that is refused offers the segment, delivers the frame it completes if that passes the check, and lets the timer run |
| SendCall.SendActs | src/io/communication/mc_communication.c:144-166 | whatever the turns show, a send is a sequence of protocol steps that accepts exactly the octets reported |
| SendCall.SendReturnsIff | src/io/communication/mc_communication.c:135-168 | in every reachable state, for data of any length, a send without a deadline can get through, for some transport, clock and peer, if and only if no window is stuck alone and, with one window only, the data is one segment |
| RecvCall.WaitingRecvTurns | src/io/communication/mc_communication.c:121-129 | each turn of a receive that finds nothing tries the pool, delivers the frame it completes if that passes the check, and lets the timer run |
| RecvCall.RecvReturnsIff | src/io/communication/mc_communication.c:105-133 | in every reachable state, a receive of any size without a deadline can get through, with a peer that writes nothing meanwhile, if and only if the peer has accepted that many octets not read yet, those of a stuck window not counted |
| Completion.UnreadBlocksFlush | src/io/communication/mc_communication.c:178-186 | an end that wrote nothing reaches a state from which no flush completes, once its peer's first segment lies unread |
| Completion.ReadOut | src/io/communication/mc_communication.c:105-133 | once the sending half is empty, reads alone hand the peer's application everything accepted |
| Completion.DeliveryPossibleIff | src/io/communication/mc_communication.c:105-189 | in every reachable state, even if every earlier packet is lost, all that was accepted can still reach the peer's application without another write if and only if the last window is not full and unnumbered |
| Completion.WriteSticksIff | src/io/communication/mc_window_pool.c:193-206 | a write leaves the last window in that state exactly if it is a whole payload, starts on a window boundary and takes the last free window |
| Completion.OneWindowSticks | src/io/communication/mc_window_pool.c:193-206 | a sender with one window is stuck after one whole payload; in every continuation it accepts nothing more and the peer reads nothing |
| Completion.FirstWriteArrives | src/io/communication/mc_communication.c:105-168 | for every capacity and segment, unless the segment fills an only window: a fresh connection has a run in which what it accepts is read at the other end |
| Weaving.WovenIsRun | src/io/communication/mc_communication.c:93-189 | one end's steps, with anything the peer is allowed to do between them, are its part of a run of the whole and lead to the same state |
| Weaving.InterleavedIsRun | src/io/communication/mc_communication.c:93-189 | the steps of two ends in any order in which each frame was sent before it arrives are a run that leads both to their states |
| Weaving.WovenDelivery | src/io/communication/mc_communication.c:105-168 | in-order delivery in both directions for every such use |
| Weaving.WovenFlushMeaning | src/io/communication/mc_communication.c:170-189 | both pools empty after such a use: everything accepted is stored by the peer, nothing in order waits here |
| WindowPool.IndexIsModulo | src/io/communication/mc_window_pool.c:11-19 | the 32-bit index computation gives id modulo capacity for ids on either side of the first one |
| WindowPool.WindowPool.constructor | src/io/communication/mc_window_pool.c:56-61 | the pool over given memory is the ring of its cleared slots with the cursor found there |
| WindowPool.WindowPool.Clear | src/io/communication/mc_window_pool.c:63-75 | all slots cleared, ids back to zero |
| WindowPool.WindowPool.GetIndex | src/io/communication/mc_window_pool.c:11-19 | an id of the window is found in its slot of the ring |
| WindowPool.WindowPool.ContainsId | src/io/communication/mc_window_pool.c:77-80 | whether the id lies in the window of the ring |
| WindowPool.WindowPool.Get | src/io/communication/mc_window_pool.c:82-85 | the slot that the ring's map gives for an id of the window |
| WindowPool.WindowPool.GetLast | src/io/communication/mc_window_pool.c:87-90 | the slot being filled |
| WindowPool.WindowPool.Empty | src/io/communication/mc_window_pool.c:108-115 | the test on ids and first slot decides emptiness of the ring |
| WindowPool.WindowPool.Incomplete | src/io/communication/mc_window_pool.c:213-223 | whether the last window is partly filled |
| WindowPool.WindowPool.GetCount | src/io/communication/mc_window_pool.c:101-106 | the 8-bit count never truncates and never exceeds the capacity |
| WindowPool.WindowPool.RemoveFirst | src/io/communication/mc_window_pool.c:35-45 | the ring moves on by one; its index stays the first id modulo the capacity |
| WindowPool.WindowPool.RemoveAcked | src/io/communication/mc_window_pool.c:47-54 | the loop removes exactly the done prefix and terminates |
| WindowPool.WindowPool.Acknowledge | src/io/communication/mc_window_pool.c:131-144 | marks the id and, if it is the first, removes the done prefix |
| WindowPool.WindowPool.Update | src/io/communication/mc_window_pool.c:92-99 | the packet is in the slot of its id, all other slots as before |
| WindowPool.WindowPool.Read | src/io/communication/mc_window_pool.c:146-167 | octets returned, cursor and removal as the ring's read |
| WindowPool.WindowPool.UpdateHeader | src/io/communication/mc_window_pool.c:117-129 | the open window is numbered, sealed and marked |
| WindowPool.WindowPool.Write | src/io/communication/mc_window_pool.c:169-211 | the copy loop terminates and gives the ring's write, packets handed over included |
| Communication.Comm.constructor | src/io/communication/mc_communication.c:72-91 | the state is that of the two pools and the acknowledgement buffer given, with the shortest delay and nothing yet sent, written or read |
| Communication.Comm.SendAck | src/io/communication/mc_protocol.c:12-23 | the acknowledgement handed over is the sealed one for the id, and is left in the buffer |
| Communication.Comm.ProtocolRecv | src/io/communication/mc_protocol.c:52-79 | both pools, acknowledgement buffer, delay and packets sent are those of the protocol step |
| Communication.Comm.SendUnacked | src/io/communication/mc_protocol.c:87-103 | the loop over the outstanding ids, then the stale window |
| Communication.Comm.ResendExpired | src/io/communication/mc_protocol.c:87-100 | the loop hands over the packets of exactly the expired unacknowledged ids, in order |
| Communication.Comm.SendStale | src/io/communication/mc_protocol.c:31-45 | a stale partial window is sealed once and sent |
| Communication.Comm.Poll | src/io/communication/mc_io.c:12-23 | one read from the transport delivers exactly the frame it completes, if that passes the check |
| Communication.Comm.Update | src/io/communication/mc_communication.c:93-103 | that read, then the timer step; no octets move to or from the application |
| Communication.Comm.SendOnce | src/io/communication/mc_communication.c:145-165 | one turn: a segment of at most one payload is taken whole, or refused and the connection gets a turn; then the clock decides |
| Communication.Comm.Send | src/io/communication/mc_communication.c:135-168 | state, history, count and status are those of the turns up to the first that ends the call; the first `count` octets are accepted, all on success; a timeout exactly if the clock was late after the last turn |
| Communication.Comm.RecvOnce | src/io/communication/mc_communication.c:116-130 | one turn: late, or octets stored in order are taken, or the connection gets a turn |
| Communication.Comm.Recv | src/io/communication/mc_communication.c:105-133 | state, history, octets and status are those of the turns up to the first that ends the call; success exactly if all octets asked for are there; a timeout exactly if the clock was late before the last turn |
| Communication.Comm.FlushOnce | src/io/communication/mc_communication.c:178-186 | one turn: the connection gets a turn, then the clock and the two pools decide |
| Communication.Comm.Flush | src/io/communication/mc_communication.c:170-189 | state, history and status are those of the turns up to the first that ends the call; true only with both pools empty, a timeout exactly if the clock was late after the last turn |
| Communication.SendOutcome | src/io/communication/mc_communication.c:145-165 | in every course of a send: a timeout exactly if the last turn ended late, success only with everything accepted |
| Communication.TimeoutThoughAccepted | src/io/communication/mc_communication.c:161-164 | a send that accepted everything reports a timeout if and only if the clock was late after the turn that took the last segment; a free pool and a passed deadline do it |
| Search.LowerBound | src/alg/algorithm.c:6-44 | an equal element if there is one, otherwise the insertion point |
| Search.InsertionPointUnique | src/alg/algorithm.c:6-44 | which is then unique |
| Search.Nearest | src/alg/algorithm.c:46-68 | an index of least absolute distance |
| SortedArray.InsertAddsOne | src/dsa/sarray.c:128-146 | insertion keeps order and adds one element to the multiset |
| SortedArray.RemoveKeepsOrder | src/dsa/sarray.c:163-186 | removal keeps order and takes one element, which has the key if and only if the key was present and is a greater one otherwise |
| SortedArray.RemoveAbsentExample | src/dsa/sarray.c:172-184 | removing 3 from the table 1, 5 deletes 5 |
| SortedArray.SortedArray.Find | src/dsa/sarray.c:109-126 | an equal element if there is one, otherwise the least greater one, otherwise nothing |
| SortedArray.SortedArray.Insert | src/dsa/sarray.c:128-146 | refused exactly at capacity, otherwise the shifted array holds the element at its place |
| SortedArray.SortedArray.Remove | src/dsa/sarray.c:163-186 | the element at the place found is gone, nothing if that is past the end; success is reported unless the table is empty |
| Messages.ParseEncoded | src/io/message/mc_message.c:231-255 | parsing the encoded messages gives them back |
| Messages.ParseCutStream | src/io/message/mc_message.c:231-255 | a stream cut anywhere parses to a prefix of the messages |
| Messages.MessageLayout | src/io/message/mc_message.c:231-255 | length, id, payload: offset, width and octet order |
| Messages.UpdateKeeps | src/io/message/mc_message.c:175-202 | one update, however short its reads, keeps: messages completed are the fitting whole ones so far, the pool holds the start of the current one and never loses its header |
| Messages.DropStep | src/io/message/mc_message.c:60-77 | an oversize message is skipped to its end without touching the header |
| Messages.ParserRoundTrip | src/io/message/mc_message.c:45-119 | for every fragmentation the messages completed are a prefix of those that fit, all of them at the end of the stream, where the parser stands at a message boundary |
| Messages.AsksForMoreIff | src/io/message/mc_message.c:60-106 | between updates the parser asks for octets, unless its pool is four octets long and the message at hand larger |
| Messages.OneUpdateIsEnough | src/io/message/mc_message.c:79-106 | a fitting message whose octets are all there takes one update |
| Messages.OversizePiece | src/io/message/mc_message.c:60-77 | of an oversize message each update takes as much as the pool has room for behind the header |
| Messages.JammedForGood | src/io/message/mc_message.c:60-77 | in that state no sequence of updates changes the parser, takes an octet or completes a message |
| Messages.FirstPayloadJams | src/io/message/mc_message.c:60-77 | with a pool of four octets any first message with a payload leads there, however the stream is cut |
| Messages.TargetsInside | src/io/message/mc_message.c:60-106 | with room for a header, both receive calls of every update aim inside the pool |
| Messages.WritesInsideIff | src/io/message/mc_message.c:99-106 | for a pool of any size: no sequence of reads is written outside it if and only if it has four octets at least |
| Messages.PoolOfThree | src/io/message/mc_message.c:99-106 | with three octets, a header in two pieces is written past the end |
| Messenger.Messenger.ReadHeader | src/io/message/mc_message.c:99-106 | the octets received extend the header in the pool |
| Messenger.Messenger.DropMessage | src/io/message/mc_message.c:60-77 | the skip step, on the pool array |
| Messenger.Messenger.StoreMessage | src/io/message/mc_message.c:79-97 | the collecting step and the message it completes |
| Messenger.Messenger.Dispatch | src/io/message/mc_message.c:108-119 | a callback is made exactly if somebody subscribes to the id, and to a subscriber of that id |
| Messenger.Messenger.Update | src/io/message/mc_message.c:175-202 | one turn of the connection and one parser step on exactly the octets its two receive calls yield within their timeouts; a completed message is dispatched and noted |
| Messenger.NotedIsKept | src/io/message/mc_message.c:175-202 | consecutive updates compose: the notes of all updates say what the parser was fed, which messages it completed and which calls were made by the table of the moment |
| EndToEnd.MessageAtOnce | src/io/message/mc_message.c:175-202 | a fitting message that lies whole in the receiving half is completed by one update, whatever the transport shows, if its two receive calls are in time and have turns enough |
| Messenger.PostedIsMailed | src/io/message/mc_message.c:231-255 | consecutive sends compose: the octets accepted are the encoding of the messages recorded, the last one perhaps in part, until a send after one broken off |
| Messenger.Messenger.Send | src/io/message/mc_message.c:231-274 | header, then payload exactly if the header was accepted in time, each with the whole timeout; the octets accepted are the front of the encoded message, all of it on success; a signal is a message without payload |
| Messenger.Messenger.Subscribe | src/io/message/mc_message.c:204-215 | one entry more, at its place, unless the table is full |
| Messenger.Messenger.Unsubscribe | src/io/message/mc_message.c:217-229 | the entry taken has the id exactly if there was one |
| EndToEnd.MessagesInOrder | src/io/message/mc_message.c:175-255 | over the lossy network, for every fragmentation and subscriptions that change in between: the messages completed are the first of those sent that fit the pool, and the calls made are those of them subscribed at their moment |
| EndToEnd.MessagesAllArrive | src/io/message/mc_message.c:175-283 | all of them, once the sending half is empty and nothing stored is left to read |
| EndToEnd.UseIsRun | src/io/communication/mc_communication.c:93-189 | the whole life of a connection object, whatever calls were made and whatever its peer did meanwhile, is one end's part of a run |
| EndToEnd.UseDelivers | src/io/communication/mc_communication.c:105-168 | so what it handed out is a prefix of what its peer accepted, and the other way round |
| EndToEnd.FlushedMeans | src/io/communication/mc_communication.c:170-189 | an object whose flush returned true: the peer has stored everything it accepted, and nothing that arrived in order waits in it |
| EndToEnd.MessengerInOrder | src/io/message/mc_message.c:175-229 | the calls a messenger object made in its life are, in order, those of the first fitting messages sent to it that were subscribed at their moment |
| EndToEnd.TwoMessengers | src/io/message/mc_message.c:175-255 | two messenger objects used in any way, their lives interleaved in any order: the calls one has made are, in order, those of the first fitting messages the other has sent that were subscribed at their moment |
| EndToEnd.TwoMessengersAll | src/io/message/mc_message.c:175-283 | all of them, once every send was accepted whole, the sender is empty and nothing waits unread |

## Left out

- Sockets, sleeping, the system clock, POSIX shims, the UDP harness: I/O; clocks and reads are inputs.
- `io_send`'s three attempts: a packet handed to it counts as sent once, and the network may duplicate or drop it.
- Undetected CRC collisions: a frame that passes the check is taken to be one the peer sent.
- Id wrap-around at 2^32, and messages longer than 65535 octets, whose length field truncates.
- `mc_comm_req_size`, `mc_comm_init`'s and `mc_msg_req_size`'s memory layout, NULL checks: thin; pools, buffers and table are separate objects here.
- WindowPool.WindowPool.Read: a cursor beyond the first window, which `RightIff` says when to expect, is taken to be at its end; the unsigned difference in the program wraps, and what it then copies is not modelled.
- Packets.Decode: a type octet other than that of an acknowledgement reads as data, as the program treats it, and is not kept.
- Messenger.Messenger.Send: what the peer makes of a message half accepted when a timeout strikes and the caller sends another is not modelled.
- Search.LowerBound: distances are exact numbers, not floats; it returns some equal element, not the first.
- Adaptive delay beyond its formula: performance is not a claim.
- `mc_sarray_remove_at`, `memlin.c`, `mc_chain.c`: nothing above uses them.
