# Verified model of the GoingPostal message transport

GoingPostal sends messages by mail and, where it can, over a direct connection that the bundled
libnice sets up.  This project models the parts that carry the messages and proves what they promise:

- **Pseudo-TCP** (`SeqNum`, `Fifo`, `Endpoint`, `SendQueue`, `Tcb`, `Sending`, `Acking`, `Receiving`,
  `Processing`, `Socket`, `Network`, `Connection`): the reliable byte stream.  `Endpoint` and `Network`
  define a reference endpoint with unbounded sequence numbers and prove safety of every run of two of them
  over a network that drops, duplicates and reorders.  The other modules model the code, with its 32-bit
  comparisons, its queues and its circular buffer, and prove that every call is a step of the reference
  endpoint.  `Connection.Run` puts both together.
- **Closing** (`Closing`): the connection state machine in all eleven states, with the flushing that a FIN or
  an RST forces.
- **ICE check lists** (`Candidates`, `PairPriority`, `CheckList`, `Unfreezing`, `Agent`, `Nomination`, `UniquePriority`,
  `Foundations`): order, pruning, nomination, role switch, the READY condition, unique priorities and foundations.  An
  agent's lists, triggered queue and role as a value are `Agent.View`, and every step is proved to do what the function
  `Agent.Next` says.
- **Framing and SDP** (`Framing`, `Sdp`): RFC 4571 frames over one TCP connection; candidates and streams
  printed and parsed.
- **CHUMP delivery** (`Lines`, `Mailbox`): newline-terminated messages over the stream, end to end, and mail
  delivered exactly once.

`dafny verify dfyconfig.toml` checks everything.

## How the pseudo-TCP proof is put together

A socket's private record is passed in three parts: outgoing data (`SendPart`), incoming data (`RecvPart`) and
the rest (`Control`).  The operations are methods on these values; `Socket.Socket` is the object that holds them
and assigns them.  The embedded buffers are byte queues with a staged area (`ByteQueue`); `ByteFifo.Fifo` is the
circular array, and each of its methods is proved to do to the array what the byte queue's function does to the
queue.  Sequence numbers are unbounded in the records, and every comparison the code makes goes through the
32-bit operators of `SeqNum`.  What WritePacket answers is nondeterministic, so each contract holds for every
answer.  `now` is a parameter of every call.

The scope is that of the stream: default buffer sizes without window scaling, an MTU above the packet overhead,
no FIN or RST, data only after the peer's CONNECT message, callbacks that do not call back into the socket.
`Processing.InScope` is the part of it that concerns one segment.  `Connection.RecentSegmentInScope` shows what it comes
to for streams of any length: of the segments a peer has sent, all that are less than 2^31 old, unless they trigger one
of two faults of the code, the phantom FIN and the empty retransmission, each with its exact condition below.

## Where the code does not do what it seems to

- `process` takes `rcv_fin == 0` for "no FIN received" but also compares with it.  A FIN that nobody sent is
  seen exactly when `Processing.PhantomFinExactly` says; then rcv_nxt is one too far (`Processing.ProcessBody`) and the
  connection leaves ESTABLISHED (`Closing.Machine.FollowFin`).
- `recover` is not renewed in a connection without losses, and `LARGER_OR_EQUAL (snd_una, recover)` is right only while
  snd_una is at most 2^31 - 2 past it (`Acking.StaleRecover`).  Past that, three duplicates of which the third does not
  echo `last_acked_ts` start no fast retransmit but are counted, and an acknowledgement of everything then makes the code
  retransmit with nothing in flight (`Acking.ResendsNothingExactly`; `Acking.ThreeDuplicates` says when three duplicates
  lead there, `Acking.ResendsNothingHappens` is an input).
- `pseudo_tcp_fifo_set_capacity` with exactly the number of queued bytes reports success without resizing
  (`ByteFifo.Fifo.SetCapacity`).
- Nagle's test compares the raw 32-bit snd_nxt and snd_una, and so misses a flight exactly when it crosses a multiple of
  2^32 (`Sending.NagleSeesFlight`, `Sending.NagleMissesWrap`).
- A shutdown whose FIN cannot be flushed closes the socket first and then fails the assertion in `set_state`
  (`Closing.Machine.DoShutdown` gives the exact condition; `Closing.Run` shows that without a failing write no run comes
  to it).
- `2 * max` in the pair priority is a 32-bit product, so the formula holds only below 2^31
  (`PairPriority.PriorityIsFormula`, `PairPriority.PriorityCollides`).
- The inner loop of `priv_conn_check_unfreeze_next` looks at the outer loop's pair, so it is not the lowest
  component of a foundation that is unfrozen but the pair of highest priority (`CheckList.UnfreezeNext`).  When the two
  are the same is `Unfreezing.UnfreezesAsAskedExactly`; an input where they differ is `Unfreezing.WrongPairTaken`.
- The assertions of the nomination tick can fail: `CheckList.AssertsExactly` gives the lists on which one election does,
  `Nomination.TickAbortsExactly` those on which a tick does, and `Nomination.NominationAborts` a run that comes to it.
- A new pair may be cut by the size limit before it is queued for its check: when is `Nomination.CutExactly`, an input is
  `Nomination.NewPairCut`.
- After a partial write `try_send` raises an exception, but the connection stays in use, and a later message is merged
  with the part.  When messages arrive as sent is `Lines.LinesAreSentExactly`; an input where they do not is
  `Lines.MergedLine`.
- A TCP candidate without tcptype is read as TCP-SO (`Sdp.MissingTcpType`).
- Candidate priorities are printed with `%d` and read as unsigned 64-bit; the detour through negative numbers is
  harmless (`Sdp.SignedRoundTrip`).
- `next_candidate_id` comes round after 2^32 foundations (`Foundations.AddedExactly`, `Foundations.NumbersComeRound`).

## Model

| member | source | states |
|---|---|---|
| `SeqNum.LargerAgreesExactly` | libnice/agent/pseudotcp.c:534-536 | LARGER and SMALLER on 32-bit values agree with the integer order if and only if the true distance is in [-2^31, 2^31 - 1] |
| `SeqNum.LargerOrEqualAgreesExactly` | libnice/agent/pseudotcp.c:535-537 | LARGER_OR_EQUAL agrees with the integer order if and only if the true distance is in [-2^31 - 1, 2^31 - 2] |
| `SeqNum.TimeDiffIsSignedDifference` | libnice/agent/pseudotcp.c:241-269 | time_diff is the signed representative modulo 2^32 of the difference of any two true times, and equals it exactly within half the range |
| `ByteFifo.Fifo.SetCapacity` | libnice/agent/pseudotcp.c:306-326 | keeps the queued bytes; really resizes except when the new size is exactly the number of queued bytes, where it reports success and does nothing |
| `ByteFifo.Fifo.ConsumeReadData` | libnice/agent/pseudotcp.c:328-335 | dequeues from the front; staged bytes keep their distance from the end of the queue |
| `ByteFifo.Fifo.ConsumeWriteBuffer` | libnice/agent/pseudotcp.c:337-343 | turns the first staged bytes into queued ones |
| `ByteFifo.Fifo.GetWriteRemaining` | libnice/agent/pseudotcp.c:345-349 | the size of the free area |
| `ByteFifo.Fifo.ReadOffset` | libnice/agent/pseudotcp.c:351-368 | the two copies around the end of the array read the queued bytes from the offset on |
| `ByteFifo.Fifo.WriteOffset` | libnice/agent/pseudotcp.c:370-388 | the two copies around the end of the array overwrite the staged area at the offset, cut to what fits |
| `ByteFifo.Fifo.Read` | libnice/agent/pseudotcp.c:390-401 | the circular buffer refines the byte queue |
| `ByteFifo.Fifo.Write` | libnice/agent/pseudotcp.c:403-412 | the circular buffer refines the byte queue |
| `SendQueue.QueueTiles` | libnice/agent/pseudotcp.c:1371-1402 | a queue that satisfies the invariant tiles [snd_una, snd_una + buffered): every number is in exactly one segment |
| `Tcb.QueueSpan` | libnice/agent/pseudotcp.c:2063-2149 | under the invariant unsent_slist starts at snd_nxt and is the never-transmitted rest of slist, and something in flight means a transmitted head |
| `Sending.Queue` | libnice/agent/pseudotcp.c:1371-1402 | the accepted bytes follow the buffered ones; they join the last segment exactly if that is of the same kind and was never sent, and the queue still tiles the sequence space |
| `Sending.LowerMss` | libnice/agent/pseudotcp.c:2096-2114 | steps down to the first later packet size whose MSS is below what was refused, with a congestion window of twice that, or fails if there is none |
| `Sending.SendFirst` | libnice/agent/pseudotcp.c:2063-2124 | ends for any answers of WritePacket; what goes out is the first bytes of the segment, as many as the MSS or the lower one that was accepted allow, unless it was sent too often before; the last answer decides how it ends |
| `Sending.Retransmit` | libnice/agent/pseudotcp.c:2126-2149 | a retransmission resends the first bytes at snd_una, counts them as sent once more, may split the head, keeps the tiling, and starts the timer if it was not running |
| `Sending.TransmitNew` | libnice/agent/pseudotcp.c:2126-2149 | a first transmission moves its bytes, as many as the MSS allows, from the unsent part to the part in flight, advances snd_nxt by as much and starts the timer if it was not running |
| `Sending.SplitUnsent` | libnice/agent/pseudotcp.c:2245-2256 | the first unsent segment becomes two, in both lists, and the tiling stays |
| `Sending.Available` | libnice/agent/pseudotcp.c:2170-2196 | never more than the MSS, the unsent bytes, and what min(snd_wnd, cwnd plus the limited-transmit allowance) leaves |
| `Sending.WindowIs` | libnice/agent/pseudotcp.c:2175-2179 | the window is min(snd_wnd, cwnd + dup_acks * mss) for up to two duplicates and min(snd_wnd, cwnd) after that |
| `Sending.AvailableIs` | libnice/agent/pseudotcp.c:2180-2197 | exactly min(unsent, mss) if that fits what the window leaves, otherwise what the window leaves if that is at least a quarter of it, otherwise nothing |
| `Sending.RestsExactly` | libnice/agent/pseudotcp.c:2165-2240 | nothing may be sent if and only if all is sent, or what the window leaves is too little by that rule, or Nagle holds it back |
| `Sending.SendRound` | libnice/agent/pseudotcp.c:2165-2269 | new bytes stay inside that window; each round sends one segment or answers what was asked for; the last one stops because nothing more may go out, or because a write failed |
| `Sending.AttemptSend` | libnice/agent/pseudotcp.c:2151-2270 | ends for every queue and every answer of WritePacket; every byte counted as sent has gone out once, in order; snd_nxt never passes snd_una + snd_wnd; the acknowledgement asked for has gone out, is delayed or waits with held-back data; on return all is sent, or the window leaves too little, or Nagle waits |
| `Sending.NagleSeesFlight` | libnice/agent/pseudotcp.c:2229-2236 | the raw 32-bit test sees data in flight if and only if the flight does not cross a multiple of 2^32 |
| `Sending.NagleMissesWrap` | libnice/agent/pseudotcp.c:2229-2236 | ten bytes in flight across 2^32 hold nothing back |
| `Acking.FreeSegments` | libnice/agent/pseudotcp.c:1713-1731 | exactly the acknowledged bytes leave the list, whole segments or part of one; the rest stays tiled and the list is never found empty |
| `Acking.Acked` | libnice/agent/pseudotcp.c:1695-1731 | snd_una becomes the acknowledgement and the send buffer loses exactly the bytes before it |
| `Acking.UpdateRtt` | libnice/agent/pseudotcp.c:1670-1693 | the estimates after a measurement by the formulas of RFC 6298, the timeout within its bounds, and refusal exactly of an echo from the future |
| `Acking.Classify` | libnice/agent/pseudotcp.c:1661-1664 | in range, the 32-bit test for a valuable or a repeated acknowledgement means what it says about the true numbers |
| `Acking.StaleRecover` | libnice/agent/pseudotcp.c:1734-1734 | with snd_una at or past recover, the test that ends recovery succeeds if and only if it is at most 2^31 - 2 past it |
| `Acking.ResendsNothingExactly` | libnice/agent/pseudotcp.c:1733-1749 | with recover less than 2^32 behind, the code retransmits with nothing in flight if and only if three duplicates were counted, all is acknowledged and recover is more than 2^31 - 2 behind |
| `Acking.ThreeDuplicates` | libnice/agent/pseudotcp.c:1765-1812 | three empty duplicates in a row leave the socket where acknowledging the whole flight triggers the empty retransmission if and only if the echo is not last_acked_ts and both ends of the flight compare as below recover |
| `Acking.StaleExactly` | libnice/agent/pseudotcp.c:1783-1784 | with recover less than 2^32 behind, both ends compare as below it if and only if snd_una is more than 2^31 - 2 past it |
| `Acking.ResendsNothingHappens` | libnice/agent/pseudotcp.c:1733-1812 | it happens: recover 0, 2^31 - 1 bytes acknowledged, one in flight, and three empty duplicates that do not echo last_acked_ts |
| `Acking.DuplicateAck` | libnice/agent/pseudotcp.c:1764-1818 | fast retransmit happens exactly on the third duplicate that the NewReno test allows, resends the bytes at snd_una and sets recover, threshold and window; other duplicates are counted, and inflate the window in recovery |
| `Acking.Progress` | libnice/agent/pseudotcp.c:1733-1763 | recovery goes on exactly while the 32-bit test finds snd_una below recover, with nothing in flight exactly under ResendsNothing; otherwise the window is that of the end of recovery, of slow start or of congestion avoidance |
| `Acking.NewAck` | libnice/agent/pseudotcp.c:1695-1763 | an acknowledgement of new data: window and timer set, and either the window grown or, in recovery, the head sent again and the window deflated |
| `Acking.ProcessAck` | libnice/agent/pseudotcp.c:1661-1818 | snd_una and snd_wnd change exactly for acknowledgements that count, in both directions; the whole control part is as a new, a repeated or a useless acknowledgement leaves it; the queue and timer invariants stay |
| `Endpoint.DrainIsFirstGap` | libnice/agent/pseudotcp.c:1997-2023 | reference definition of reassembly: the run delivered is the one and only run up to the first gap |
| `Receiving.TrimRange` | libnice/agent/pseudotcp.c:1957-1979 | the 32-bit trimming keeps exactly the bytes in [rcv_nxt, rcv_nxt + free space) |
| `Receiving.Merge` | libnice/agent/pseudotcp.c:2003-2023 | taking ranges off rlist stops exactly at the first gap; what stays lies past it |
| `Receiving.TakeInOrder` | libnice/agent/pseudotcp.c:1997-2023 | rcv_nxt moves to the first gap of all that has been accepted, those bytes are queued, rcv_wnd shrinks by as much, the rest stays staged |
| `Receiving.InsertRange` | libnice/agent/pseudotcp.c:2024-2038 | rlist stays ordered and gains exactly the new range |
| `Receiving.SaveOutOfOrder` | libnice/agent/pseudotcp.c:2024-2038 | bytes past a gap are staged at their place and nothing is delivered |
| `Receiving.ProcessData` | libnice/agent/pseudotcp.c:1957-2040 | for every segment: staged ranges are ordered, hold the right bytes, fit the free space, and rcv_nxt is the first gap in what has been accepted; a gap is reported as filled exactly when rcv_nxt passes the end of the segment |
| `Receiving.ProcessControl` | libnice/agent/pseudotcp.c:1988-1991 | a control segment uses sequence space but no buffer space |
| `Processing.ProcessConnect` | libnice/agent/pseudotcp.c:1631-1652 | only CONNECT messages pass; LISTEN queues its own and waits in SYN-RECEIVED, SYN-SENT is ESTABLISHED with the MSS of the MTU; nothing else changes |
| `Processing.ProcessHeader` | libnice/agent/pseudotcp.c:1598-1823 | handshake, timestamp and acknowledgement: the send window moves only as the segment says, and the state is that of the handshake table or CLOSED |
| `Processing.StampedExactly` | libnice/agent/pseudotcp.c:1655-1659 | in range, the timestamp to echo is taken from the segment if and only if it carries the number last acknowledged |
| `Processing.AckForIs` | libnice/agent/pseudotcp.c:1927-1950 | which acknowledgement a segment is answered with: at once if out of order or filling a gap, delayed if it brings data in order, none if empty and in order |
| `Processing.ProcessSegment` | libnice/agent/pseudotcp.c:1581-2061 | the whole effect of a segment, stage by stage: handshake, acknowledgement, data, answer and what is sent after it; the resulting state by the handshake table, or CLOSED |
| `Processing.PhantomFinExactly` | libnice/agent/pseudotcp.c:1843-1843 | with no FIN received, the code takes one for received exactly when rcv_nxt is no multiple of 2^32 and rcv_nxt plus the segment length is |
| `Processing.ProcessBody` | libnice/agent/pseudotcp.c:1957-2046 | after a data segment rcv_nxt is the first gap in what has been accepted if and only if there is no phantom FIN; with one it is a number too far |
| `Processing.PhantomFinHappens` | libnice/agent/pseudotcp.c:1843-1843 | the byte numbered 2^32 - 1 triggers it |
| `Processing.OpenWindow` | libnice/agent/pseudotcp.c:1219-1226 | the window opens to the whole free space exactly when it has grown by half a buffer or one MSS, or is smaller than the window; reopened exactly if the window was closed |
| `Processing.RecvBytes` | libnice/agent/pseudotcp.c:1181-1234 | returns the oldest queued bytes and leaves staged ones in place; the window opens exactly when OpenWindow says, and the peer is told if it was closed; with nothing to read nothing changes, unless the socket is closed |
| `Processing.SendBytes` | libnice/agent/pseudotcp.c:1236-1264 | accepts what fits, in order, and sends what may be sent |
| `Processing.RetransmitTimer` | libnice/agent/pseudotcp.c:973-1016 | an expired timer resends the bytes at snd_una and backs off: threshold, window, doubled timeout, recover; otherwise nothing happens |
| `Processing.NotifyClock` | libnice/agent/pseudotcp.c:944-1040 | nothing in a closed socket, otherwise the retransmission timer, then the probe of a closed window or the delayed acknowledgement, exactly when they are due |
| `Socket.ProcessIsStep` | libnice/agent/pseudotcp.c:1581-2061 | processing a segment is a step of the reference endpoint |
| `Socket.CallIsStep` | libnice/agent/pseudotcp.c:916-1264 | a call of the application or a timer is a step of the reference endpoint |
| `Socket.Initial` | libnice/agent/pseudotcp.c:801-857 | a new socket is the fresh reference endpoint, with the segment size, windows and timers that the init function sets |
| `Socket.Socket.NotifyPacket` | libnice/agent/pseudotcp.c:1581-2061 | the 32-bit socket simulates the unbounded endpoint on every segment in scope, and everything that ProcessSegment states has been done to it |
| `Socket.Socket.Connect` | libnice/agent/pseudotcp.c:916-932 | succeeds exactly in LISTEN, queues one CONNECT message and sends what may be sent |
| `Socket.Socket.Send` | libnice/agent/pseudotcp.c:1236-1264 | the accepted bytes, as many as fit in ESTABLISHED, are appended to the outgoing stream, and what may be sent is sent |
| `Socket.Socket.Recv` | libnice/agent/pseudotcp.c:1181-1234 | the returned bytes are the next ones of the incoming stream, and the window opens as RecvBytes says |
| `Socket.Socket.Clock` | libnice/agent/pseudotcp.c:944-1040 | a step that neither accepts nor delivers, and all that NotifyClock states |
| `Socket.Socket.Mtu` | libnice/agent/pseudotcp.c:934-942 | a step that neither accepts nor delivers; in ESTABLISHED the MSS is the MTU less the overhead |
| `Network.AbsorbKeeps` | libnice/agent/pseudotcp.c:1957-2040 | data of an honest segment extends the received stream along the sent one, and the rcv_wnd subtractions do not underflow |
| `Network.StepKeepsJoined` | libnice/agent/pseudotcp.c:1581-2061 | any call, with any segment ever sent by the peer, keeps the two endpoints joined, and the advertised right edge never moves back |
| `Network.EveryRunIsSafe` | libnice/agent/pseudotcp.c:1581-2061 | in every run of two reference endpoints over a dropping, duplicating, reordering network: received is a prefix of sent, snd_una <= peer rcv_nxt <= snd_nxt, the sender is inside the advertised window, the window inside the free space |
| `Connection.Run` | libnice/agent/pseudotcp.c:1581-2061 | the same for every script of calls, timeouts, write results and deliveries on two sockets of the model of the code, each of which does what it should at its end and nothing at the other |
| `Connection.NothingIsLost` | libnice/agent/pseudotcp.c:1581-2061 | every accepted byte not yet read is in the sender's or the receiver's buffer |
| `Connection.RecentSegmentInScope` | libnice/agent/pseudotcp.c:534-537 | for streams of any length, a segment the peer sent is in scope if and only if it is less than 2^31 old, in what it carries and acknowledges, and triggers neither the phantom FIN nor the empty retransmission |
| `Connection.EverySegmentInScope` | libnice/agent/pseudotcp.c:534-537 | while neither stream is longer than 2^31 - 2 bytes, every segment the peer ever sent is in scope |
| `Closing.Machine.SetState` | libnice/agent/pseudotcp.c:2559-2605 | changes the state along the table or stops the program |
| `Closing.AllowedExactly` | libnice/agent/pseudotcp.c:2577-2605 | the table of transitions, one by one |
| `Closing.Machine.Navigate` | libnice/agent/pseudotcp.c:2294-2317 | closedown reaches CLOSED from every state along allowed transitions |
| `Closing.Machine.AttemptSend` | libnice/agent/pseudotcp.c:2151-2270 | ends by a measure on the pending duplicate ack, unsent bytes and unsent segments; with FIN or RST it empties the queue or closes, as the write results decide |
| `Closing.Machine.Closedown` | libnice/agent/pseudotcp.c:2275-2318 | always ends in CLOSED; with FIN-ACK support and no failing write an RST has gone out |
| `Closing.Machine.DoConnect` | libnice/agent/pseudotcp.c:916-932 | from LISTEN to SYN-SENT with a CONNECT message queued, or CLOSED if a write fails; from any other state nothing |
| `Closing.Machine.DoShutdown` | libnice/agent/pseudotcp.c:1284-1358 | the assertion of set_state fails if and only if a FIN is due and the flush before it does not succeed; otherwise the state of figure 6 of RFC 793, with CLOSED for unread data |
| `Closing.Machine.DoClose` | libnice/agent/pseudotcp.c:1266-1281 | forced close always ends in CLOSED, with an RST sent if no write fails; the other one does and fails exactly as shutdown does |
| `Closing.Machine.DoClock` | libnice/agent/pseudotcp.c:944-1040 | TIME-WAIT ends, a lost peer closes, and nothing else changes unless a retransmission or a write fails |
| `Closing.Machine.DoPacket` | libnice/agent/pseudotcp.c:1598-1905 | the state, FIN-ACK support, readable bytes and FINs received and acknowledged after any segment, by a table over the old state and the segment, or CLOSED if a transmission failed |
| `Closing.Machine.Handle` | libnice/agent/pseudotcp.c:916-2061 | any event leads where NextFacts says, or to CLOSED because a transmission failed, and queues exactly the bytes it should |
| `Closing.Machine.FollowFin` | libnice/agent/pseudotcp.c:1847-1905 | every transition on a FIN and on the acknowledgement of ours, from every state, and the two facts noted |
| `Closing.Machine.Go` | libnice/agent/pseudotcp.c:2559-2605 | where the table allows the transition the assertion holds |
| `Closing.SuccessFlushes` | libnice/agent/pseudotcp.c:2151-2270 | if no write fails the flush empties the queue |
| `Closing.RefusedFin` | libnice/agent/pseudotcp.c:2260-2265 | one refused write keeps the FIN from going out |
| `Closing.Run` | libnice/agent/pseudotcp.c:2559-2605 | in every run all transitions are in the table, CLOSED is entered only from LISTEN, SYN-SENT, TIME-WAIT or LAST-ACK, no transition starts in it, and each state means what it says about FINs sent, received and acknowledged; each event leads where NextFacts says unless a transmission fails; only a shutdown or an unforced close can cut a run short, and if every write succeeds nothing does |
| `PairPriority.PriorityIsFormula` | libnice/agent/candidate.c:332-342 | the code computes the formula of section 5.7.2 of RFC 5245 if and only if both priorities are below 2^31 |
| `PairPriority.OfPairIsFormula` | libnice/agent/agent.c:2404-2411 | below 2^31, the formula with the controlling agent's candidate as G and the controlled one's as D |
| `PairPriority.PriorityIsInjective` | libnice/agent/candidate.c:332-342 | below 2^31 the pair priority determines the ordered pair |
| `PairPriority.PriorityCollides` | libnice/agent/candidate.c:332-342 | from 2^31 on it does not |
| `PairPriority.PriorityOrders` | libnice/agent/candidate.c:332-342 | below 2^31 it orders by the smaller priority, then the larger, then the controlling side |
| `PairPriority.MirroredPairsAgree` | libnice/agent/agent.c:2404-2411 | agents in opposite roles give mirrored pairs the same priority |
| `CheckList.InsertedKeeps` | libnice/agent/conncheck.c:2191-2192 | inserting keeps the list in descending order and its other invariants |
| `CheckList.Limit` | libnice/agent/conncheck.c:1862-1886 | the size limit keeps the pairs of highest priority |
| `CheckList.Add` | libnice/agent/conncheck.c:2149-2204 | a new pair is at its place, the list is cut to size, all invariants stay; the new pair itself is cut exactly when as many pairs as are allowed stand above it |
| `CheckList.FindFirst` | libnice/agent/conncheck.c:370-403 | the first waiting pair is the waiting pair of highest priority |
| `CheckList.UnfreezeNext` | libnice/agent/conncheck.c:459-501 | of each foundation the pair of highest priority is set waiting, whatever its component |
| `Unfreezing.UnfreezesAsAskedExactly` | libnice/agent/conncheck.c:449-501 | for every ordered list, the pairs the code takes are those that its comment and section 5.7.4 of RFC 5245 ask for if and only if the first pair of each foundation has the lowest component of the eligible ones |
| `Unfreezing.UnfreezeNextIsAskedExactly` | libnice/agent/conncheck.c:459-501 | the same about the resulting list, for a frozen list |
| `Unfreezing.WrongPairTaken` | libnice/agent/conncheck.c:459-501 | component 2 with the higher priority ahead of component 1 of the same foundation: the wrong one is taken |
| `CheckList.Thaw` | libnice/agent/conncheck.c:528-539 | exactly the frozen pairs with the foundation are set waiting |
| `CheckList.PrunePending` | libnice/agent/conncheck.c:2802-2858 | the pairs that are not frozen or waiting for the component stay, in order; none is counted as in progress exactly if all are below the highest nominated priority |
| `CheckList.PrunedSurvive` | libnice/agent/conncheck.c:2824-2835 | pruning never discards a valid pair |
| `CheckList.UpdateReady` | libnice/agent/conncheck.c:2002-2042 | READY if and only if a valid nominated pair exists and every check in progress has strictly lower priority than one; then none is frozen or waiting and the rest is not retransmitted |
| `CheckList.DroppedHas` | libnice/agent/conncheck.c:4431-4452 | exactly the pairs that use the socket go |
| `CheckList.DropSocket` | libnice/agent/conncheck.c:4431-4452 | the loop leaves those pairs, in order |
| `CheckList.SortedKeeps` | libnice/agent/conncheck.c:3127-3128 | sorting gives a permutation in descending order and keeps the invariants |
| `CheckList.Recalculate` | libnice/agent/conncheck.c:3117-3130 | after a role switch: the same pairs, priced for the new role, in descending order |
| `CheckList.AgentsAgree` | libnice/agent/conncheck.c:3117-3151 | mirrored pairs are ordered alike on both sides, also after a role switch |
| `CheckList.MayNominate` | libnice/agent/conncheck.c:906-956 | the stopping criterion, in both directions |
| `CheckList.NominateComponent` | libnice/agent/conncheck.c:906-982 | only without a chosen pair; elects the valid pair of highest priority not yet nominated; at most one pair per component is chosen; says when an assertion fails |
| `CheckList.AssertsExactly` | libnice/agent/conncheck.c:969-974 | the assertions fail if and only if an election is due and the pair elected is no longer DISCOVERED though it has a parent, or the check to repeat has not SUCCEEDED |
| `Agent.Agent.AddPair` | libnice/agent/conncheck.c:2149-2204 | the list is the old one with the pair at its place, cut to size, and the invariants hold |
| `Agent.Agent.TriggerNew` | libnice/agent/conncheck.c:2951-2962 | the list with the new pair in its place and in progress, and its number queued, exactly if the size limit does not cut it |
| `Agent.Agent.Conclude` | libnice/agent/conncheck.c:2002-2042 | READY only for a concluded component, no valid pair lost |
| `Agent.Agent.OrdinaryCheck` | libnice/agent/conncheck.c:815-846 | starts the waiting pair of highest priority, or the frozen one if none waits and not all are frozen, and changes nothing else |
| `Agent.Agent.Trigger` | libnice/agent/conncheck.c:2870-2948 | which check is repeated and queued, when the list is concluded instead, and when the assertion on a discovered pair fails |
| `Agent.Agent.Timeout` | libnice/agent/conncheck.c:747-770 | the pair has failed and the list is concluded |
| `Agent.Agent.StartFrozen` | libnice/agent/conncheck.c:1053-1063 | a list that is all frozen is started as UnfreezeNext says, any other left alone |
| `Agent.UnfreezeOther` | libnice/agent/conncheck.c:544-588 | exactly what a success unfreezes in the list of another stream |
| `Agent.Agent.UnfreezeRelated` | libnice/agent/conncheck.c:513-591 | all lists after a success: in its own the frozen pairs of the foundation, in the others what UnfreezeOther says |
| `Agent.Agent.Succeed` | libnice/agent/conncheck.c:3190-3245 | for each kind of reply the list and the number of the pair that is valid for the check; the pair leaves the triggered queue unless the mapped address is missing |
| `Agent.Agent.Discover` | libnice/agent/conncheck.c:3069-3111 | the discovered pair goes in at its place, linked to its parent |
| `Agent.Agent.Respond` | libnice/agent/conncheck.c:3260-3460 | for a success all lists: the pair, what it discovers and unfreezes, who is nominated, what is pruned; for a refusal the pair has failed; for a role conflict the lists in the new role, with the pair in progress and queued; READY only for a concluded component |
| `Agent.Agent.SwitchRole` | libnice/agent/conncheck.c:3117-3151 | each list holds the same pairs, priced for the new role and sorted |
| `Agent.Agent.Nominate` | libnice/agent/conncheck.c:848-985 | the elections of all components one after the other, when they are due, until an assertion fails; the checks to repeat join the triggered queue |
| `Agent.Agent.MarkNominated` | libnice/agent/conncheck.c:2049-2110 | every pair with the two candidates that is still in the list is marked in turn, with the pruning in between, until the assertion fails; nothing in the controlling role |
| `Agent.Agent.SendTriggered` | libnice/agent/conncheck.c:1068-1075 | the oldest number leaves the queue, and its pair, if there is one, is retransmitted from now on |
| `Agent.Agent.PruneSocket` | libnice/agent/conncheck.c:4415-4453 | exactly the pairs that use the socket go, and the invariants stay |
| `Agent.Agent.Enqueue` | libnice/agent/conncheck.c:250-260 | the pair is in progress and queued, nothing else changes |
| `Agent.Run` | libnice/agent/conncheck.c:370-383 | a run is the fold of Next over its steps, and in every reachable set of check lists: descending order, valid pairs neither frozen nor waiting, at most one pair per component with use_candidate_on_next_check |
| `Nomination.RoundAborts` | libnice/agent/conncheck.c:908-980 | the elections of one tick do not disturb each other: an assertion fails in the round if and only if the election of some component asserts on the list as the tick finds it |
| `Nomination.TickAbortsExactly` | libnice/agent/conncheck.c:848-985 | a tick stops the program if and only if a nomination is due in the regular controlling mode and some component's election asserts |
| `Nomination.ValidButRunning` | libnice/agent/conncheck.c:955-974 | an election asserts on every list whose first pair of the component is valid, of host candidates, not nominated and being checked again |
| `Nomination.NominationAborts` | libnice/agent/conncheck.c:3330-3447 | for every two host candidates a run of ten steps ends in the failed assertion: a reply without mapped address, a role conflict in the reply to the other transaction of the pair, a tick |
| `Nomination.CutExactly` | libnice/agent/conncheck.c:2193-2201 | the new pair is not in the list if and only if as many pairs as there is room for are above it |
| `Nomination.NewPairCut` | libnice/agent/conncheck.c:2951-2962 | with room for one, the pair of a second incoming check of lower priority is gone before it is queued |
| `Nomination.ResponseNominates` | libnice/agent/conncheck.c:3360-3400 | a successful response nominates the pair that is valid for the check if and only if that is due by role and mode; every other pair of the list is nominated exactly if it was; and that pair stays in the list |
| `Nomination.OthersNotNominated` | libnice/agent/conncheck.c:3360-3400 | in the other lists a successful response changes no nomination |
| `UniquePriority.EnsureUnique` | libnice/agent/conncheck.c:2112-2141 | ends unless all non-zero values are taken; returns the first free one, cyclically downward |
| `Framing.FramesOfMessage` | libnice/agent/agent.c:4750-4762 | every byte of a message is in exactly one frame, in order; none empty, all but the last of 0xF800 bytes, as few as possible |
| `Framing.Split` | libnice/agent/agent.c:4726-4803 | the loop over offsets writes the frames of the message, each behind its length |
| `Framing.Connection.Send` | libnice/agent/agent.c:4726-4816 | the message is appended to the stream of frames |
| `Framing.Connection.Arrive` | libnice/agent/agent.c:3728-3822 | any arrival chunking keeps the stream of frames |
| `Framing.Connection.Recv` | libnice/agent/agent.c:3728-3822 | delivers the first pending frame, or what fits of it, exactly when it has arrived whole; reports out-of-band exactly when it has only read a header |
| `Lines.MessagesAreForced` | tcp_support.py:63-73 | messages cut at newlines from a prefix of the sent text are a prefix of the messages sent |
| `Lines.OneWayConnection.TrySend` | tcp_support.py:118-126 | False unconnected, True if all is accepted, otherwise an exception; the accepted bytes are on the stream in any case |
| `Lines.LinesAreSentExactly` | tcp_support.py:63-73 | the lines on a stream are the messages whose try_send returned True if and only if none was accepted whole after one accepted in part |
| `Lines.MergedLine` | tcp_support.py:118-126 | one byte of a message and then a whole one arrive as one line |
| `Lines.PartsAlone` | tcp_support.py:118-126 | parts with no whole message after them do no harm |
| `Lines.LinesArriveInOrder` | tcp_support.py:63-73 | end to end over the pseudo-TCP stream: what is yielded is a prefix of the lines on the stream, and all of them once every byte has been read |
| `Lines.OneWayConnection.ReadMessages` | tcp_support.py:63-73 | over repeated calls every complete message is yielded once, in order |
| `Lines.MessagesArriveInOrder` | tcp_support.py:63-73 | end to end: what is yielded is a prefix of the messages sent if none was accepted whole after one accepted in part, and once every byte has been read the two are equal if and only if that is so |
| `Sdp.SignedRoundTrip` | libnice/agent/agent.c:5912-5916 | 32-bit numbers survive printing with %d and reading with strtoull, also from 2^31 on |
| `Sdp.ParseDecimal` | libnice/agent/agent.c:6227-6240 | a number is read back, or saturates |
| `Sdp.ParseSkips` | libnice/agent/agent.c:6227-6240 | white space and a plus sign before a number make no difference |
| `Sdp.ParseLine` | libnice/agent/agent.c:6196-6323 | the walk over the words and the checks after it are the reference parser that the round trip speaks of |
| `Sdp.MissingTcpType` | libnice/agent/agent.c:6282-6292 | every TCP candidate line that breaks off before the tcptype is read as the candidate with transport TCP-SO |
| `Sdp.CandidateRoundTrip` | libnice/agent/agent.c:5901-5931 | parsing a printed line gives every field back; port 0 is read as 9, and the base only if it differs from the address |
| `Sdp.WordsExample` | libnice/agent/agent.c:5903-5929 | the words of a UDP and of a TCP candidate line, letter by letter |
| `Sdp.ParseStream` | libnice/agent/agent.c:6147-6194 | the walk over the lines is the reference parser |
| `Sdp.RtcpLine` | libnice/agent/agent.c:5963-5970 | there is a line for RTCP exactly if there is a port for it |
| `Sdp.StreamRoundTrip` | libnice/agent/agent.c:5933-5987 | parsing a printed stream gives back ufrag, password and the candidates in reverse order |
| `Mailbox.Sort` | chumpd.py:258-261 | a stable permutation in order of timestamp, none counting as 0 |
| `Mailbox.Doom` | chumpd.py:79-93 | exactly the condemned mails are deleted |
| `Mailbox.Sync` | chumpd.py:95-127 | every message is queued under its key, everything else condemned |
| `Mailbox.Gather` | chumpd.py:247-261 | all pending messages of the key, by mail and TCP, each once and sorted; other keys untouched |
| `Mailbox.Server.Fetch` | chumpd.py:95-127 | exactly the messages in the mailbox are queued, under their keys, and exactly the other mails condemned |
| `Mailbox.Server.Recv` | chumpd.py:239-262 | all pending messages of the key, each mail once; other keys untouched |
| `Mailbox.Run` | chumpd.py:70-127 | in every interleaving no mail is returned twice and no message deleted before it was returned; every step does what it should, and each recv returns what was pending under its key |
| `Foundations.FindSame` | libnice/agent/discovery.c:368-418 | finds a live candidate of the same class if and only if there is one |
| `Foundations.AssignFoundation` | libnice/agent/discovery.c:363-423 | the foundation of the class if a live candidate has one, else the next number |
| `Foundations.AddedExactly` | libnice/agent/discovery.c:363-423 | with one candidate more, foundations keep their meaning if and only if its class was there or no live candidate had the foundation it got |
| `Foundations.NumbersComeRound` | libnice/agent/discovery.c:421-422 | after 2^32 foundations the first comes again, and two classes share it |
| `Foundations.Agent.Add` | libnice/agent/discovery.c:308-330 | redundant candidates are dropped, others appended; foundations keep their meaning exactly when the class was there or the next number was free |
| `Foundations.Run` | libnice/agent/discovery.c:363-423 | over any additions and removals, as long as each new candidate had its class or a free number, and so at least for 2^32 foundations, two live candidates share a foundation exactly when section 4.1.1.3 of RFC 5245 says so; every step does to the lists what it should |
## Left out

- FIN and RST inside the byte-stream proof: closing is covered by the state machine of `Closing`, where windows,
  sequence numbers and the contents of segments are abstracted to what decides the transitions.
- Closing.Machine.AttemptSend: without a FIN or an RST, how much goes out and with which acknowledgements is arbitrary;
  that is stated by `Sending.AttemptSend`.
- Closing.Machine.DoPacket: whether a segment acknowledges our FIN or completes the stream is an input, not
  computed from sequence numbers.
- Closing.Machine.DoClock: the head of slist that is retransmitted is taken to be in flight, as the timer
  invariant of the stream model says; which timers are due is an input.
- Processing.RetransmitTimer: a failed transmission sets the state to Closed at once; the RST flush that `closedown`
  does is in `Closing`.
- Processing.NotifyClock: TIME-WAIT and LAST-ACK are in `Closing`, and so is the RST flush.
- Processing.ProcessConnect: the options of the CONNECT message are not parsed; the effect of the FIN-ACK option is in
  `Closing.Machine.Greet`.
- Window scaling and the resizing of buffers in the handshake (`parse_options`, `resize_receive_buffer`): the
  CONNECT message is the default one.
- Data that arrives before the peer's CONNECT message: such segments are not in scope.
- Connection.Run: segments that are not in scope are lost, which the network may do anyway: those 2^31 or more old, data
  before the CONNECT message, and those that trigger the phantom FIN or the empty retransmission.
- Acking.ProcessAck: acknowledgements 2^31 or more away, and the one that triggers the empty retransmission, in which
  `transmit` is given no segment or one that was never sent, are not in scope.
- Processing.ProcessHeader: the same acknowledgements are not in scope.
- Processing.ProcessSegment: nor are segments 2^31 or more old and the one that triggers the phantom FIN.
- Socket.Socket.NotifyPacket: the same segments are not in scope.
- Update in place of the private record: the stream operations work on values that the socket object assigns, so
  aliasing between lists is not modelled (slist and unsent_slist share their segments in the code; in the model
  both lists are updated).
- Liveness: that every byte is delivered in the end.
- `largest`, which the code sets and never reads.
- The conversation number, `bReadEnable`, `bWriteEnable`, error codes, callbacks and `get_next_clock`'s timeouts.
- The byte layout of segment headers (`packet`, `parse`).
- Agent.Agent.SendTriggered: a pair that was freed leaves the triggered queue when its turn comes, not at once.
- Agent.Agent.Trigger: which pair a request matches is an input; sockets, transactions and timers are not modelled.
- Agent.Agent.MarkNominated: a pair that pruning takes away during the loop is passed over; the code would go on from its
  freed list node if it were the current one.
- Agent.Agent.Respond: the mapped address is reduced to the cases of `Reply`; selected pairs and component states
  other than READY are not modelled.
- Pointers between pairs are numbers, and a dangling one finds nothing.
- Google, MSN, WLM and OC2007 compatibility, remote foundations, candidate priority formulas, keepalives, TURN.
- Framing with several buffers per message, several TCP sockets that share the expected length, frames without
  payload, and errors of the socket.
- Sdp.ParseLine: addresses are their printed text, and which texts are addresses is a parameter.
- msgpack and base85: an encoded message is any text without a newline.
- Lines.OneWayConnection.ReadMessages: the generator is run to its end.
- Mailbox.Server.Recv: the order of mails with equal timestamps; a dictionary is iterated in any order.
- The mail server keeps INBOX selected, never uses a number again and loses nothing by itself; the offers and
  answers in control mails, `store` and `retrieve` are not modelled.
