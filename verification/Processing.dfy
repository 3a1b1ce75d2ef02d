/** The entry points of the pseudo-TCP socket, on the parts of its record. */
module Processing {
  import opened ByteFifo
  import opened SeqNum
  import opened Endpoint
  import opened SendQueue
  import opened Tcb
  import opened Sending
  import opened Acking
  import opened Receiving

  predicate SendValid(s: SendPart, c: Control) {
    && QueueValid(s) && MssValid(c) && TimersValid(c, s.snd_una, s.snd_nxt)
    && PACKET_OVERHEAD < c.mtu_advise <= 65535
    && (c.state == Listen ==> s.snd_una == 0 && s.End() == 0)
    && (c.state in {SynSent, SynReceived, Established} ==> CTL_LEN <= s.End())
  }

  /** The segment size is the MTU less the overhead, and the congestion control allows for two segments in the
      threshold and one in the window. */
  predicate Fitted(c0: Control, c: Control) {
    && c == c0.(mss := c.mss, msslevel := c.msslevel, ssthresh := c.ssthresh, cwnd := c.cwnd)
    && c.mss + PACKET_OVERHEAD == c0.mtu_advise && IsLevel(c.msslevel, c0.mtu_advise)
    && c.ssthresh == Max(2 * c.mss, c0.ssthresh) && c.cwnd == Max(c.mss, c0.cwnd)
  }

  /** Picks the packet-size level and the MSS from the advised MTU. */
  method AdjustMtu(c0: Control) returns (c: Control)
    requires PACKET_OVERHEAD < c0.mtu_advise <= 65535
    ensures MssValid(c) && Fitted(c0, c)
  {
    var level := LevelFor(c0.mtu_advise);
    var mss := c0.mtu_advise - PACKET_OVERHEAD;
    c := c0.(msslevel := level, mss := mss, ssthresh := Max(c0.ssthresh, 2 * mss), cwnd := Max(c0.cwnd, mss));
  }

  method SetEstablished(c0: Control) returns (c: Control)
    requires PACKET_OVERHEAD < c0.mtu_advise <= 65535
    ensures MssValid(c) && Fitted(c0.(state := Established), c)
  {
    c := AdjustMtu(c0.(state := Established));
  }

  method QueueConnectBytes(s0: SendPart) returns (s: SendPart)
    requires QueueValid(s0) && s0.End() == 0
    ensures QueueValid(s) && s.snd_una == 0 && s.snd_nxt == s0.snd_nxt
    ensures s.sbuf.contents == CONNECT && s.End() == CTL_LEN
  {
    QueueSpan(s0);
    var data, written := CONNECT, 0;
    s, written := Queue(s0, data, true);
    assert written == |data|;
    assert data[..|data|] == data && [] + data == data;
  }

  /** Queues the CONNECT message, and only that, on a fresh socket. */
  method QueueConnect(s0: SendPart, c0: Control, state: State) returns (s: SendPart, c: Control)
    requires SendValid(s0, c0) && c0.state == Listen && state in {SynSent, SynReceived}
    ensures SendValid(s, c) && c == c0.(state := state, snd_wnd := CTL_LEN)
    ensures s.snd_una == 0 && s.snd_nxt == s0.snd_nxt && s.sbuf.contents == CONNECT
  {
    s := QueueConnectBytes(s0);
    c := c0.(state := state, snd_wnd := CTL_LEN);
  }

  /** A control segment that is a CONNECT message. */
  predicate IsConnect(seg: Segment) {
    seg.ctl && seg.data != [] && seg.data[0] == 0
  }

  /** What a CONNECT message does: the passive side answers it and waits, the active side is connected.  Any
      other segment leaves everything as it is. */
  predicate Greeted(s0: SendPart, c0: Control, seg: Segment, s: SendPart, c: Control) {
    if IsConnect(seg) && c0.state == Listen then
      s.sbuf.contents == CONNECT && c == c0.(state := SynReceived, snd_wnd := CTL_LEN)
    else if IsConnect(seg) && c0.state == SynSent then s == s0 && Fitted(c0.(state := Established), c)
    else s == s0 && c == c0
  }

  /** The handshake part of `process`: control segments must be CONNECT messages. */
  method ProcessConnect(s0: SendPart, c0: Control, seg: Segment) returns (s: SendPart, c: Control, ok: bool)
    requires SendValid(s0, c0)
    ensures SendValid(s, c) && s.snd_una == s0.snd_una && s.snd_nxt == s0.snd_nxt
    ensures s.sbuf.contents == s0.sbuf.contents + Handshake(c0, seg)
    ensures ok <==> !seg.ctl || IsConnect(seg)
    ensures Greeted(s0, c0, seg, s, c)
  {
    s, c, ok := s0, c0, true;
    if seg.ctl {
      if seg.data == [] || seg.data[0] != 0 {
        ok := false;
      } else if c.state == Listen {
        s, c := QueueConnect(s, c, SynReceived);
        assert s0.sbuf.contents == [];
      } else if c.state == SynSent {
        c := SetEstablished(c);
      }
    }
  }

  /** Which acknowledgement a segment is answered with, once it has been taken: at once if it is out of order or
      fills a gap, after a delay if it brings data in order, none if it is empty and in order. */
  function FlagsFor(r0: RecvPart, r: RecvPart, c: Control, seg: Segment): SendFlags {
    if !seg.ctl && r0.rcv_nxt < r.rcv_nxt && seg.sqn + |seg.data| < r.rcv_nxt then SfImmediateAck
    else if (seg.sqn - r0.rcv_nxt) % MODULUS != 0 then SfDuplicateAck
    else if seg.data == [] then SfNone
    else if c.ack_delay > 0 then SfDelayedAck
    else SfImmediateAck
  }

  /** Which acknowledgement the arriving segment calls for. */
  function AckFor(r: RecvPart, c: Control, seg: Segment): SendFlags {
    if Wrap(seg.sqn) != Wrap(r.rcv_nxt) then SfDuplicateAck
    else if seg.data != [] then (if c.ack_delay == 0 then SfImmediateAck else SfDelayedAck)
    else SfNone
  }

  lemma AckForIs(r0: RecvPart, r: RecvPart, c: Control, seg: Segment)
    ensures FlagsFor(r0, r, c, seg) ==
              if !seg.ctl && r0.rcv_nxt < r.rcv_nxt && seg.sqn + |seg.data| < r.rcv_nxt then SfImmediateAck else AckFor(r0, c, seg)
  {
  }

  /** `received_fin` of `process`: all bytes before the FIN at `rcv_fin` have been received. */
  predicate ReceivedFin(rcv_nxt: nat, len: nat, rcv_fin: u32) {
    Wrap(rcv_nxt) != 0 && Wrap(rcv_nxt + len) == rcv_fin
  }

  /** While no FIN has come in, rcv_fin is 0, and the code takes that for the number of one. */
  predicate PhantomFin(r: RecvPart, seg: Segment) {
    ReceivedFin(r.rcv_nxt, |seg.data|, 0)
  }

  /** A FIN has a sequence number: rcv_nxt goes over it. */
  method CountFin(r0: RecvPart, seg: Segment, r1: RecvPart) returns (r: RecvPart)
    ensures r == if PhantomFin(r0, seg) then r1.(rcv_nxt := r1.rcv_nxt + 1) else r1
  {
    var received_fin := ReceivedFin(r0.rcv_nxt, |seg.data|, 0);
    r := r1;
    if received_fin {
      r := r.(rcv_nxt := r.rcv_nxt + 1);
    }
  }

  /** A FIN that nobody sent is seen exactly when as many bytes as the segment carries would take
      rcv_nxt, now no multiple of 2^32, to one. */
  lemma PhantomFinExactly(r: RecvPart, seg: Segment)
    ensures PhantomFin(r, seg) <==>
              r.rcv_nxt % MODULUS != 0 && exists k: nat :: r.rcv_nxt + |seg.data| == Times(k)
  {
    var x := r.rcv_nxt + |seg.data|;
    assert x == Times(x / MODULUS) + x % MODULUS;
    if k: nat :| x == Times(k) {
      assert Wrap(x) == 0;
    }
  }

  function Times(k: nat): nat {
    k * MODULUS
  }

  /** It does happen: the byte numbered 2^32 - 1 is enough. */
  lemma PhantomFinHappens(r: RecvPart, seg: Segment)
    requires r.rcv_nxt == MODULUS - 1 && |seg.data| == 1
    ensures PhantomFin(r, seg)
  {
  }

  /** Segments in the scope of the stream: sent by a peer's `packet`, near in sequence space, and
      data only after the CONNECT message. */
  predicate InScope(s: SendPart, r: RecvPart, c: Control, seg: Segment) {
    AckInRange(s, c, seg.ack) && DataInScope(r, seg)
  }

  predicate DataInScope(r: RecvPart, seg: Segment) {
    DataNear(r, seg) && !PhantomFin(r, seg)
  }

  predicate DataNear(r: RecvPart, seg: Segment) {
    && SeqInRange(r, seg)
    && (seg.ctl ==> seg.sqn + |seg.data| <= CTL_LEN)
    && (!seg.ctl && seg.data != [] ==> CTL_LEN <= r.rcv_nxt)
  }

  /** The bytes queued by a call that starts the handshake. */
  function Handshake(c: Control, seg: Segment): seq<byte> {
    if c.state == Listen && IsConnect(seg) then CONNECT else []
  }

  /** How a segment's acknowledgement, or the start of the handshake, moves the send window. */
  predicate WindowMoves(s0: SendPart, c0: Control, s: SendPart, c: Control, seg: Segment) {
    || (s.snd_una == s0.snd_una && c.snd_wnd == c0.snd_wnd)
    || (s.snd_una == s0.snd_una == 0 && c.snd_wnd == CTL_LEN)
    || (s.snd_una == seg.ack && c.snd_wnd == seg.wnd && s0.snd_una <= seg.ack <= s0.snd_nxt)
  }

  /** The send buffer after a call: what was in it and what was added, less what was acknowledged. */
  predicate Keeping(s0: SendPart, s: SendPart, added: seq<byte>) {
    Suffix(s.sbuf.contents, s0.sbuf.contents + added, s.snd_una - s0.snd_una)
  }

  /** `process` up to the acknowledgement: handshake, timestamp, acknowledgement. */
  method ProcessHeader(s0: SendPart, r: RecvPart, c0: Control, seg: Segment, now: u32)
    returns (s: SendPart, c: Control, ok: bool, pk: seq<Segment>, ghost s1: SendPart, ghost c1: Control, ghost c2: Control)
    requires SendValid(s0, c0) && AckInRange(s0, c0, seg.ack)
    ensures SendValid(s, c)
    ensures s.snd_nxt == s0.snd_nxt && WindowMoves(s0, c0, s, c, seg)
    ensures Keeping(s0, s, if c0.state == Closed then [] else Handshake(c0, seg))
    ensures AllEmitted(s, r, pk)
    ensures ok ==> c0.state != Closed && (!seg.ctl || IsConnect(seg))
    ensures ok && Counts(s0, seg, now) ==> s.snd_una == seg.ack && c.snd_wnd == seg.wnd
    ensures HeaderDone(s0, r, c0, seg, now, s1, c1, c2, s, c, ok, pk)
    ensures c.state in {Closed, StateAfter(c0.state, seg, ok)}
  {
    s, c, ok, pk := s0, c0.(lastrecv := now), c0.state != Closed, [];
    s1, c1, c2 := s, c, c;
    if ok {
      s, c, ok := ProcessConnect(s, c, seg);
    }
    if !ok {
      return;
    }
    s1, c1 := s, c;
    GreetedInRange(s0, c0.(lastrecv := now), seg, s1, c1);
    s, c, ok, pk, c2 := ProcessAckAfter(s0, c0, s, c, r, seg, now);
  }

  /** The acknowledgement, seen from before the handshake. */
  method ProcessAckAfter(ghost s0: SendPart, ghost c0: Control, s1: SendPart, c1: Control, r: RecvPart, seg: Segment, now: u32)
    returns (s: SendPart, c: Control, ok: bool, pk: seq<Segment>, ghost c2: Control)
    requires SendValid(s1, c1) && AckInRange(s1, c1, seg.ack) && c1.state != Closed
    requires s1.snd_una == s0.snd_una && s1.snd_nxt == s0.snd_nxt && s1.sbuf.contents == s0.sbuf.contents + Handshake(c0, seg)
    requires c1.snd_wnd == if IsConnect(seg) && c0.state == Listen then CTL_LEN else c0.snd_wnd
    requires c0.state == Listen ==> s0.snd_una == 0
    requires c1.state == StateAfter(c0.state, seg, seg.ctl)
    ensures SendValid(s, c) && s.snd_nxt == s0.snd_nxt && WindowMoves(s0, c0, s, c, seg)
    ensures Keeping(s0, s, Handshake(c0, seg))
    ensures ok && Counts(s0, seg, now) ==> s.snd_una == seg.ack && c.snd_wnd == seg.wnd
    ensures AllEmitted(s, r, pk) && AckFieldDone(s1, r, c1, seg, now, c2, s, c, ok, pk)
    ensures c.state in {Closed, StateAfter(c0.state, seg, ok)}
  {
    QueueSpan(s1);
    s, c, ok, pk, c2 := ProcessAckField(s1, c1, r, seg, now);
  }

  lemma GreetedInRange(s0: SendPart, c0: Control, seg: Segment, s: SendPart, c: Control)
    requires Greeted(s0, c0, seg, s, c) && s.snd_una == s0.snd_una && s.snd_nxt == s0.snd_nxt && AckInRange(s0, c0, seg.ack)
    ensures AckInRange(s, c, seg.ack) && c.state == StateAfter(c0.state, seg, seg.ctl) && (seg.ctl || c == c0)
    ensures c.snd_wnd == if IsConnect(seg) && c0.state == Listen then CTL_LEN else c0.snd_wnd
  {
  }

  /** Everything that the header of a segment does: `s1` and `c1` are the state after the handshake, `c2` the
      control part after the acknowledgement.  The first segment that is no CONNECT message connects the
      passive side. */
  predicate HeaderDone(s0: SendPart, r: RecvPart, c0: Control, seg: Segment, now: u32, s1: SendPart, c1: Control,
                       c2: Control, s: SendPart, c: Control, ok: bool, pk: seq<Segment>) {
    if c0.state == Closed || (seg.ctl && !IsConnect(seg)) then !ok && s == s0 && c == c0.(lastrecv := now) && pk == []
    else Greeted(s0, c0.(lastrecv := now), seg, s1, c1) && AckFieldDone(s1, r, c1, seg, now, c2, s, c, ok, pk)
  }

  predicate AckFieldDone(s0: SendPart, r: RecvPart, c0: Control, seg: Segment, now: u32, c2: Control,
                         s: SendPart, c: Control, ok: bool, pk: seq<Segment>) {
    && c0.ssthresh > 0 && AckDone(s0, Stamped(c0, seg), r, seg, now, s, c2, ok, pk)
    && if ok && c2.state == SynReceived && !seg.ctl then Fitted(c2.(state := Established), c) else c == c2
  }

  /** Timestamp and acknowledgement, and the end of the passive handshake. */
  method ProcessAckField(s0: SendPart, c0: Control, r: RecvPart, seg: Segment, now: u32)
    returns (s: SendPart, c: Control, ok: bool, pk: seq<Segment>, ghost c2: Control)
    requires SendValid(s0, c0) && AckInRange(s0, c0, seg.ack) && c0.state != Closed
    ensures SendValid(s, c)
    ensures s.snd_nxt == s0.snd_nxt && Suffix(s.sbuf.contents, s0.sbuf.contents, s.snd_una - s0.snd_una)
    ensures if Counts(s0, seg, now) then s.snd_una == seg.ack && c.snd_wnd == seg.wnd
            else s.snd_una == s0.snd_una && c.snd_wnd == c0.snd_wnd
    ensures AckFieldDone(s0, r, c0, seg, now, c2, s, c, ok, pk)
    ensures c.state in {Closed, if ok && c0.state == SynReceived && !seg.ctl then Established else c0.state}
    ensures AllEmitted(s, r, pk)
  {
    var ts := UpdateTimestamp(c0, seg);
    s, c, ok, pk := ProcessAck(s0, c0.(ts_recent := ts), r, seg, now);
    QueueSpan(s0);
    c2 := c;
    if ok && c.state == SynReceived && !seg.ctl {
      c := SetEstablished(c);
    }
  }

  /** The timestamp to echo is that of the segment that carries the number last acknowledged. */
  function Stamped(c: Control, seg: Segment): Control {
    if SmallerOrEqual(seg.sqn, c.ts_lastack) && Larger(seg.sqn + |seg.data|, c.ts_lastack) then c.(ts_recent := seg.tsval)
    else c
  }

  lemma StampedExactly(c: Control, seg: Segment)
    requires 2 - HALF <= seg.sqn - c.ts_lastack && seg.sqn + |seg.data| - c.ts_lastack <= HALF - 1
    ensures Stamped(c, seg) == if seg.sqn <= c.ts_lastack < seg.sqn + |seg.data| then c.(ts_recent := seg.tsval) else c
  {
  }

  method UpdateTimestamp(c: Control, seg: Segment) returns (ts: u32)
    ensures c.(ts_recent := ts) == Stamped(c, seg)
  {
    ts := c.ts_recent;
    if SmallerOrEqual(seg.sqn, c.ts_lastack) && Smaller(c.ts_lastack, seg.sqn + |seg.data|) {
      ts := seg.tsval;
    }
  }

  /** `process`: the whole effect of an arriving segment.  `pk` was sent before the data was taken,
      `pk'` after. */
  method ProcessSegment(s0: SendPart, r0: RecvPart, c0: Control, seg: Segment, now: u32)
    returns (s: SendPart, r: RecvPart, c: Control, ok: bool, pk: seq<Segment>, pk': seq<Segment>)
    requires SendValid(s0, c0) && RecvValid(r0) && InScope(s0, r0, c0, seg)
    ensures SendValid(s, c) && RecvValid(r)
    ensures s0.snd_nxt <= s.snd_nxt <= Max(s0.snd_nxt, s.snd_una + c.snd_wnd)
    ensures WindowMoves(s0, c0, s, c, seg)
    ensures Keeping(s0, s, if c0.state == Closed then [] else Handshake(c0, seg))
    ensures AllEmitted(s, r0, pk) && AllEmitted(s, r, pk')
    ensures if ok then Took(r0, r, seg) else r == r0
    ensures SegmentDone(s0, r0, c0, seg, now, s, r, c, ok, pk, pk')
    ensures c.state in {Closed, StateAfter(c0.state, seg, ok)}
  {
    r, pk' := r0, [];
    ghost var s1, c1, c2;
    s, c, ok, pk, s1, c1, c2 := ProcessHeader(s0, r0, c0, seg, now);
    ghost var m := Midway(s1, c1, c2, s, c);
    if ok {
      s, r, c, pk' := ProcessRestAfter(s0, c0, s, r0, c, seg, now, pk);
    }
    assert Through(s0, r0, c0, seg, now, m, s, r, c, ok, pk, pk');
  }

  /** The rest, seen from before the header. */
  method ProcessRestAfter(ghost s0: SendPart, ghost c0: Control, s1: SendPart, r0: RecvPart, c1: Control, seg: Segment,
                          now: u32, ghost pk0: seq<Segment>)
    returns (s: SendPart, r: RecvPart, c: Control, pk: seq<Segment>)
    requires SendValid(s1, c1) && RecvValid(r0) && DataInScope(r0, seg) && AllEmitted(s1, r0, pk0)
    requires s1.snd_nxt == s0.snd_nxt && WindowMoves(s0, c0, s1, c1, seg) && Keeping(s0, s1, Handshake(c0, seg))
    ensures SendValid(s, c) && RecvValid(r)
    ensures s0.snd_nxt <= s.snd_nxt <= Max(s0.snd_nxt, s.snd_una + c.snd_wnd)
    ensures WindowMoves(s0, c0, s, c, seg) && Keeping(s0, s, Handshake(c0, seg))
    ensures AllEmitted(s, r0, pk0) && AllEmitted(s, r, pk)
    ensures RestDone(s1, r0, c1, seg, now, s, r, c, pk) && c.state in {c1.state, Closed}
  {
    s, r, c, pk := ProcessRest(s1, r0, c1, seg, now);
    AllEmittedStays(s1, s, r0, pk0);
    HeaderThenRest(s0, c0, s1, c1, s, c, seg, Handshake(c0, seg));
  }

  /** The states that a segment goes through: after the handshake (`s1`, `c1`), after the acknowledgement (`c2`)
      and before its data is looked at (`s2`, `c3`). */
  datatype Midway = Midway(s1: SendPart, c1: Control, c2: Control, s2: SendPart, c3: Control)

  ghost predicate Through(s0: SendPart, r0: RecvPart, c0: Control, seg: Segment, now: u32, m: Midway,
                          s: SendPart, r: RecvPart, c: Control, ok: bool, pk: seq<Segment>, pk': seq<Segment>) {
    && HeaderDone(s0, r0, c0, seg, now, m.s1, m.c1, m.c2, m.s2, m.c3, ok, pk)
    && if ok then RestDone(m.s2, r0, m.c3, seg, now, s, r, c, pk') else s == m.s2 && r == r0 && c == m.c3 && pk' == []
  }

  /** Everything that a segment does. */
  ghost predicate SegmentDone(s0: SendPart, r0: RecvPart, c0: Control, seg: Segment, now: u32,
                              s: SendPart, r: RecvPart, c: Control, ok: bool, pk: seq<Segment>, pk': seq<Segment>) {
    exists m :: Through(s0, r0, c0, seg, now, m, s, r, c, ok, pk, pk')
  }

  /** Data and whatever can be sent after it. */
  ghost predicate RestDone(s0: SendPart, r0: RecvPart, c0: Control, seg: Segment, now: u32,
                           s: SendPart, r: RecvPart, c: Control, pk: seq<Segment>) {
    && Took(r0, r, seg) && s.snd_una == s0.snd_una && s.sbuf == s0.sbuf
    && Flushed(s0.snd_nxt, c0, r, FlagsFor(r0, r, c0, seg), now, s, c, pk)
  }

  /** The handshake: figure 6 of RFC 793, where the passive side is connected by the first segment that is no
      CONNECT message and is processed to the end.  Only a failed transmission leads elsewhere, to Closed. */
  function StateAfter(state: State, seg: Segment, ok: bool): State {
    match state
    case Listen => if IsConnect(seg) then SynReceived else Listen
    case SynSent => if IsConnect(seg) then Established else SynSent
    case SynReceived => if ok && !seg.ctl then Established else SynReceived
    case Established => Established
    case Closed => Closed
  }

  lemma HeaderThenRest(s0: SendPart, c0: Control, s1: SendPart, c1: Control, s: SendPart, c: Control, seg: Segment,
                       added: seq<byte>)
    requires s1.snd_nxt == s0.snd_nxt && WindowMoves(s0, c0, s1, c1, seg) && Keeping(s0, s1, added)
    requires s.snd_una == s1.snd_una && s.sbuf == s1.sbuf && c.snd_wnd == c1.snd_wnd
    requires s1.snd_nxt <= s.snd_nxt <= Max(s1.snd_nxt, s.snd_una + c.snd_wnd)
    ensures WindowMoves(s0, c0, s, c, seg) && Keeping(s0, s, added)
    ensures s0.snd_nxt <= s.snd_nxt <= Max(s0.snd_nxt, s.snd_una + c.snd_wnd)
  {
  }

  /** `process` after the acknowledgement: data, then whatever can be sent. */
  method ProcessRest(s0: SendPart, r0: RecvPart, c0: Control, seg: Segment, now: u32)
    returns (s: SendPart, r: RecvPart, c: Control, pk: seq<Segment>)
    requires SendValid(s0, c0) && RecvValid(r0) && DataInScope(r0, seg)
    ensures SendValid(s, c) && s.snd_una == s0.snd_una && s.sbuf == s0.sbuf && c.snd_wnd == c0.snd_wnd
    ensures s0.snd_nxt <= s.snd_nxt <= Max(s0.snd_nxt, s.snd_una + c.snd_wnd) && s.snd_nxt <= s.End()
    ensures RecvValid(r) && RestDone(s0, r0, c0, seg, now, s, r, c, pk)
    ensures AllEmitted(s, r, pk) && c.state in {c0.state, Closed}
  {
    var sflags := AckFor(r0, c0, seg);
    ghost var got;
    r, sflags, got := ProcessBody(r0, seg, sflags);
    AckForIs(r0, r, c0, seg);
    s, c, pk := SendAll(s0, r, c0, sflags, now);
  }

  /** What the data of a segment does to the receiving part. */
  ghost predicate Took(r0: RecvPart, r: RecvPart, seg: Segment) {
    if seg.ctl then Skipped(r0, r, seg) else Absorbed(r0, r, AcceptedBy(r0, seg.sqn, seg.data))
  }

  /** Data, then the FIN.  After a data segment rcv_nxt is the first gap in all that has been accepted
      exactly when there is no phantom FIN; with one it is a number too far. */
  method ProcessBody(r0: RecvPart, seg: Segment, sflags0: SendFlags)
    returns (r: RecvPart, sflags: SendFlags, ghost got: RecvPart)
    requires RecvValid(r0) && DataNear(r0, seg)
    ensures RecvValid(got) && Took(r0, got, seg)
    ensures r == if PhantomFin(r0, seg) then got.(rcv_nxt := got.rcv_nxt + 1) else got
    ensures !seg.ctl ==>
              (r.rcv_nxt == r0.rcv_nxt + |Drain(AcceptedBy(r0, seg.sqn, seg.data), r0.rcv_nxt)| <==> !PhantomFin(r0, seg))
    ensures sflags == if !seg.ctl && r0.rcv_nxt < got.rcv_nxt && seg.sqn + |seg.data| < got.rcv_nxt then SfImmediateAck else sflags0
  {
    sflags := sflags0;
    if seg.ctl {
      r := ProcessControl(r0, seg);
    } else {
      var recovered;
      r, recovered := ProcessData(r0, seg);
      if recovered {
        sflags := SfImmediateAck;
      }
    }
    got := r;
    r := CountFin(r0, seg, r);
  }

  /** `attempt_send` on a valid socket. */
  method SendAll(s0: SendPart, r: RecvPart, c0: Control, sflags: SendFlags, now: u32)
    returns (s: SendPart, c: Control, pk: seq<Segment>)
    requires SendValid(s0, c0)
    ensures SendValid(s, c) && s.snd_una == s0.snd_una && s.sbuf == s0.sbuf && c.snd_wnd == c0.snd_wnd
    ensures s0.snd_nxt <= s.snd_nxt <= Max(s0.snd_nxt, s.snd_una + c.snd_wnd) && s.snd_nxt <= s.End()
    ensures AllEmitted(s, r, pk) && Flushed(s0.snd_nxt, c0, r, sflags, now, s, c, pk) && c.state in {c0.state, Closed}
  {
    s, c, pk := AttemptSend(s0, c0, r, sflags, now);
    QueueSpan(s);
  }

  /** `pseudo_tcp_socket_connect`. */
  method ConnectSocket(s0: SendPart, r: RecvPart, c0: Control, now: u32)
    returns (s: SendPart, c: Control, ok: bool, pk: seq<Segment>)
    requires SendValid(s0, c0)
    ensures SendValid(s, c) && s.snd_una == s0.snd_una
    ensures ok <==> c0.state == Listen
    ensures if ok then s.snd_una == 0 && c.snd_wnd == CTL_LEN else s == s0 && c == c0 && pk == []
    ensures ok ==> Flushed(s0.snd_nxt, c0.(state := SynSent, snd_wnd := CTL_LEN), r, SfNone, now, s, c, pk)
    ensures s.sbuf.contents == s0.sbuf.contents + if ok then CONNECT else []
    ensures s0.snd_nxt <= s.snd_nxt <= Max(s0.snd_nxt, s.snd_una + c.snd_wnd)
    ensures AllEmitted(s, r, pk)
  {
    s, c, ok, pk := s0, c0, c0.state == Listen, [];
    if ok {
      s, c := QueueConnect(s, c, SynSent);
      assert s0.sbuf.contents == [];
      s, c, pk := SendAll(s, r, c, SfNone, now);
    }
  }

  /** `pseudo_tcp_socket_send`: -1 when not connected or when the buffer is full. */
  method SendBytes(s0: SendPart, r: RecvPart, c0: Control, data: seq<byte>, now: u32)
    returns (s: SendPart, c: Control, written: int, pk: seq<Segment>)
    requires SendValid(s0, c0)
    ensures SendValid(s, c) && s.snd_una == s0.snd_una && c.snd_wnd == c0.snd_wnd
    ensures written == if c0.state != Established || s0.sbuf.free == [] then -1 else Min(|data|, |s0.sbuf.free|)
    ensures s.sbuf.contents == s0.sbuf.contents + if written < 0 then [] else data[..written]
    ensures if written < 0 then s == s0 && c == c0 && pk == [] else Flushed(s0.snd_nxt, c0, r, SfNone, now, s, c, pk)
    ensures s0.snd_nxt <= s.snd_nxt <= Max(s0.snd_nxt, s.snd_una + c.snd_wnd)
    ensures AllEmitted(s, r, pk)
  {
    s, c, written, pk := s0, c0, -1, [];
    if c.state != Established || s.sbuf.free == [] {
      return;
    }
    s, written := Queue(s, data, false);
    s, c, pk := SendAll(s, r, c, SfNone, now);
  }

  /** The free space has grown by half a buffer or one MSS since the window was set; or it is smaller than the
      window, which the unsigned subtraction takes for very much. */
  predicate Opens(r: RecvPart, c: Control) {
    |r.rbuf.free| < r.rcv_wnd || r.rcv_wnd + Min(RCV_BUF / 2, c.mss) <= |r.rbuf.free|
  }

  /** Opens the window to the whole free space once it has grown by half a buffer or one MSS. */
  method OpenWindow(r0: RecvPart, c: Control) returns (r: RecvPart, reopened: bool)
    requires |r0.rbuf.free| <= RCV_BUF
    ensures r == r0.(rcv_wnd := if Opens(r0, c) then |r0.rbuf.free| else r0.rcv_wnd)
    ensures reopened <==> Opens(r0, c) && r0.rcv_wnd == 0
  {
    r, reopened := r0, false;
    // 64-bit unsigned subtraction
    if (|r.rbuf.free| - r.rcv_wnd) % 0x1_0000_0000_0000_0000 >= Min(RCV_BUF / 2, c.mss) {
      reopened := r.rcv_wnd == 0;
      r := r.(rcv_wnd := |r.rbuf.free|);
    }
  }

  /** What reading does besides: the window is opened if the space has grown enough, and if it was closed the
      peer is told. */
  predicate ReadDone(s0: SendPart, r0: RecvPart, c0: Control, len: nat, now: u32,
                     s: SendPart, r: RecvPart, c: Control, out: seq<byte>, pk: seq<Segment>) {
    var opens := len > 0 && (out != [] || c0.state == Closed) && Opens(r.(rcv_wnd := r0.rcv_wnd), c0);
    && r.rcv_wnd == (if opens then |r.rbuf.free| else r0.rcv_wnd)
    && if opens && r0.rcv_wnd == 0 then Flushed(s0.snd_nxt, c0, r, SfImmediateAck, now, s, c, pk)
       else s == s0 && c == c0 && pk == []
  }

  /** `pseudo_tcp_socket_recv`: reads in-order bytes and leaves staged ones in place.  With nothing to
      read it does nothing, unless the socket is closed, which counts as having received a FIN. */
  method RecvBytes(s0: SendPart, r0: RecvPart, c0: Control, len: nat, now: u32)
    returns (s: SendPart, r: RecvPart, c: Control, out: seq<byte>, pk: seq<Segment>)
    requires SendValid(s0, c0) && RecvValid(r0)
    ensures SendValid(s, c) && RecvValid(r) && s.snd_una == s0.snd_una && s.sbuf == s0.sbuf && c.snd_wnd == c0.snd_wnd
    ensures out == r0.rbuf.contents[..Min(len, |r0.rbuf.contents|)]
    ensures r.rbuf == r0.rbuf.ConsumeReadData(|out|) && r == r0.(rbuf := r.rbuf, rcv_wnd := r.rcv_wnd)
    ensures ReadDone(s0, r0, c0, len, now, s, r, c, out, pk)
    ensures s0.snd_nxt <= s.snd_nxt <= Max(s0.snd_nxt, s.snd_una + c.snd_wnd)
    ensures AllEmitted(s, r, pk)
  {
    QueueSpan(s0);
    s, r, c, pk := s0, r0, c0, [];
    out, r := TakeBytes(r0, len);
    if len == 0 || (out == [] && c.state != Closed) {
      return;
    }
    var reopened;
    r, reopened := OpenWindow(r, c);
    if reopened {
      s, c, pk := SendAll(s, r, c, SfImmediateAck, now);
    }
  }

  /** Reads from the buffer. */
  method TakeBytes(r0: RecvPart, len: nat) returns (out: seq<byte>, r: RecvPart)
    requires RecvValid(r0)
    ensures out == r0.rbuf.contents[..Min(len, |r0.rbuf.contents|)]
    ensures r == r0.(rbuf := r0.rbuf.ConsumeReadData(|out|)) && RecvValid(r)
  {
    var (bytes, after) := r0.rbuf.Read(len);
    out, r := bytes, r0.(rbuf := after);
    if r0.rbuf.contents == [] {
      assert out == [];
    }
  }

  /** The timer started at `base` has run for `delay`. */
  predicate Expired(base: u32, delay: nat, now: u32) {
    TimeDiff(Wrap(base + delay), now) <= 0
  }

  /** What the retransmission timer does; `c1` is the control part after the transmission. */
  predicate RetransmitDone(s0: SendPart, r: RecvPart, c0: Control, now: u32, c1: Control,
                           s: SendPart, c: Control, ok: bool, pk: seq<Segment>) {
    if c0.rto_base == 0 || !Expired(c0.rto_base, c0.rx_rto, now) then ok && s == s0 && c == c0 && pk == []
    else if ok then
      && s0.snd_una <= s0.snd_nxt && ResentHead(s0, c0, s, c1, r, now, pk)
      && c == BackedOff(c1, s0.snd_nxt - s0.snd_una, s0.snd_nxt, now)
    else s == s0 && pk == [] && c.state == Closed
  }

  /** Congestion and timer state after a retransmission timeout with `n` bytes in flight: the threshold is half of
      that, the window one segment, and the timer is doubled (section 3.1 of RFC 5681, section 5 of RFC 6298). */
  function BackedOff(c: Control, n: nat, nxt: nat, now: u32): Control {
    var b := c.(ssthresh := if n < 4 * c.mss then 2 * c.mss else n / 2, cwnd := Wrap(c.mss), rto_base := now, recover := nxt,
                rx_rto := if c.state == Established || c.state == Closed then Min(2 * c.rx_rto, MAX_RTO)
                          else Min(2 * c.rx_rto, DEF_RTO));
    if c.dup_acks < 3 then b else b.(dup_acks := 0, fast_recovery := false)
  }

  /** The retransmission timer: once it has run out, the first unacknowledged bytes go out again and
      the timer starts anew; before that nothing happens. */
  method RetransmitTimer(s0: SendPart, r: RecvPart, c0: Control, now: u32)
    returns (s: SendPart, c: Control, ok: bool, pk: seq<Segment>, ghost c1: Control)
    requires SendValid(s0, c0)
    ensures SendValid(s, c) && s == s0.(slist := s.slist) && c.snd_wnd == c0.snd_wnd
    ensures c.state == if ok then c0.state else Closed
    ensures AllEmitted(s, r, pk) && RetransmitDone(s0, r, c0, now, c1, s, c, ok, pk)
  {
    s, c, ok, pk, c1 := s0, c0, true, [], c0;
    var due := Due(c.rto_base, c.rx_rto, now);
    if c.rto_base != 0 && due {
      s, c, ok, pk, c1 := RetransmitNow(s, r, c, now);
    }
  }

  method RetransmitNow(s0: SendPart, r: RecvPart, c0: Control, now: u32)
    returns (s: SendPart, c: Control, ok: bool, pk: seq<Segment>, ghost c1: Control)
    requires SendValid(s0, c0) && s0.snd_una < s0.snd_nxt
    ensures SendValid(s, c) && s == s0.(slist := s.slist) && c.snd_wnd == c0.snd_wnd
    ensures c.state == (if ok then c0.state else Closed) && AllEmitted(s, r, pk)
    ensures if ok then ResentHead(s0, c0, s, c1, r, now, pk) && c == BackedOff(c1, s0.snd_nxt - s0.snd_una, s0.snd_nxt, now)
            else s == s0 && pk == []
  {
    var status;
    s, c, status, pk := Retransmit(s0, c0, r, now);
    ok, c1 := status == Ok, c;
    if ok {
      BookedValid(s0, c0, r, now, s, c);
      c := BackOff(s, c, now);
    } else {
      RefusedValid(s0, c0, c);
      c := c.(state := Closed);
    }
  }

  lemma BookedValid(s0: SendPart, c0: Control, r: RecvPart, now: u32, s: SendPart, c: Control)
    requires SendValid(s0, c0) && QueueValid(s) && s == s0.(slist := s.slist) && s.snd_una < s.snd_nxt
    requires MssValid(c) && Booked(c0, c, r, now)
    ensures SendValid(s, c) && s.snd_nxt <= s.snd_una + SND_BUF && c.state == c0.state && c.snd_wnd == c0.snd_wnd
  {
    QueueSpan(s);
  }

  lemma RefusedValid(s: SendPart, c0: Control, c: Control)
    requires SendValid(s, c0) && MssValid(c) && Refused(c0, c)
    ensures SendValid(s, c.(state := Closed)) && c.snd_wnd == c0.snd_wnd
  {
  }

  /** Whether a timer started at `base` has run for `delay`. */
  method Due(base: u32, delay: nat, now: u32) returns (due: bool)
    ensures due <==> Expired(base, delay, now)
  {
    due := TimeDiff(Wrap(base + delay), now) <= 0;
  }

  /** Congestion and timer state after a retransmission timeout. */
  method BackOff(s: SendPart, c0: Control, now: u32) returns (c: Control)
    requires SendValid(s, c0) && s.snd_una < s.snd_nxt <= s.snd_una + SND_BUF
    ensures SendValid(s, c) && c.state == c0.state && c.snd_wnd == c0.snd_wnd
    ensures c == BackedOff(c0, s.snd_nxt - s.snd_una, s.snd_nxt, now)
  {
    var nInFlight := Minus(s.snd_nxt, s.snd_una);
    var limit := if c0.state in {Listen, SynSent, SynReceived} then DEF_RTO else MAX_RTO;
    c := c0.(ssthresh := Max(nInFlight / 2, 2 * c0.mss), cwnd := c0.mss,
             rx_rto := Min(limit, c0.rx_rto * 2), rto_base := now, recover := s.snd_nxt);
    if c.dup_acks >= 3 {
      c := c.(dup_acks := 0, fast_recovery := false);
    }
  }

  /** A closed window is probed when nothing has been sent for a while, and given up when nothing has been
      received for 15 seconds; a delayed acknowledgement goes out when it is due. */
  predicate AcksDone(s: SendPart, r: RecvPart, c0: Control, now: u32, c: Control, pk: seq<Segment>) {
    var window := r.rcv_wnd % 0x1_0000;
    if c0.snd_wnd == 0 && Expired(c0.lastsend, c0.rx_rto, now) then
      if TimeDiff(now, c0.lastrecv) >= 15000 then c == c0.(state := Closed) && pk == []
      else
        && c == c0.(ts_lastack := r.rcv_nxt, t_ack := 0, lastsend := now, rx_rto := Min(2 * c0.rx_rto, MAX_RTO))
        && pk == [Segment(s.snd_nxt - 1, r.rcv_nxt, window, false, [], now, c0.ts_recent)]
    else if c0.t_ack != 0 && Expired(c0.t_ack, c0.ack_delay, now) then
      && c == c0.(ts_lastack := r.rcv_nxt, t_ack := 0)
      && pk == [Segment(s.snd_nxt, r.rcv_nxt, window, false, [], now, c0.ts_recent)]
    else c == c0 && pk == []
  }

  /** The timers for closed windows and delayed acknowledgements. */
  method AckTimers(s: SendPart, r: RecvPart, c0: Control, now: u32)
    returns (c: Control, pk: seq<Segment>)
    requires SendValid(s, c0)
    ensures SendValid(s, c) && c.snd_wnd == c0.snd_wnd
    ensures AllEmitted(s, r, pk) && AcksDone(s, r, c0, now, c, pk)
  {
    c, pk := c0, [];
    var due := Due(c.lastsend, c.rx_rto, now);
    if c.snd_wnd == 0 && due {
      if TimeDiff(now, c.lastrecv) >= 15000 {
        c := c.(state := Closed);
        return;
      }
      c, pk := Acknowledge(s, c, r, s.snd_nxt - 1, now);
      c := c.(lastsend := now, rx_rto := Min(MAX_RTO, c.rx_rto * 2));
    }
    due := Due(c.t_ack, c.ack_delay, now);
    if c.t_ack != 0 && due {
      var pk1;
      c, pk1 := Acknowledge(s, c, r, s.snd_nxt, now);
      AllEmittedConcat(s, r, pk, pk1);
      pk := pk + pk1;
    }
  }

  /** `pseudo_tcp_socket_notify_clock`, while the connection is open. */
  method NotifyClock(s0: SendPart, r: RecvPart, c0: Control, now: u32)
    returns (s: SendPart, c: Control, pk: seq<Segment>)
    requires SendValid(s0, c0)
    ensures SendValid(s, c) && s == s0.(slist := s.slist) && c.snd_wnd == c0.snd_wnd
    ensures AllEmitted(s, r, pk) && ClockDone(s0, r, c0, now, s, c, pk)
  {
    s, c, pk := s0, c0, [];
    if c.state == Closed {
      return;
    }
    var ok;
    ghost var c1;
    s, c, ok, pk, c1 := RetransmitTimer(s, r, c, now);
    ghost var m, pk0 := Ticked(c1, c, ok, |pk|), pk;
    if ok {
      var pk1;
      c, pk1 := AckTimers(s, r, c, now);
      AllEmittedConcat(s, r, pk, pk1);
      pk := pk + pk1;
      assert pk[..m.n] == pk0 && pk[m.n..] == pk1;
    } else {
      assert pk[..m.n] == pk0 && pk[m.n..] == [];
    }
    assert TickThrough(s0, r, c0, now, m, s, c, pk);
  }

  /** Between the timers: the control part after the retransmission (`c1`) and after its timer (`c2`), whether it
      went well, and how many segments it sent. */
  datatype Ticked = Ticked(c1: Control, c2: Control, ok: bool, n: nat)

  predicate TickThrough(s0: SendPart, r: RecvPart, c0: Control, now: u32, m: Ticked, s: SendPart, c: Control, pk: seq<Segment>) {
    && m.n <= |pk| && RetransmitDone(s0, r, c0, now, m.c1, s, m.c2, m.ok, pk[..m.n])
    && if m.ok then AcksDone(s, r, m.c2, now, c, pk[m.n..]) else c == m.c2 && pk[m.n..] == []
  }

  /** Everything that the clock does: nothing in a closed socket, otherwise one timer after the other. */
  ghost predicate ClockDone(s0: SendPart, r: RecvPart, c0: Control, now: u32, s: SendPart, c: Control, pk: seq<Segment>) {
    if c0.state == Closed then s == s0 && c == c0 && pk == []
    else exists m :: TickThrough(s0, r, c0, now, m, s, c, pk)
  }

  /** `pseudo_tcp_socket_notify_mtu`. */
  method NotifyMtu(s: SendPart, c0: Control, mtu: nat) returns (c: Control)
    requires SendValid(s, c0) && PACKET_OVERHEAD < mtu <= 65535
    ensures SendValid(s, c) && c.snd_wnd == c0.snd_wnd
    ensures var c1 := c0.(mtu_advise := mtu); if c0.state == Established then Fitted(c1, c) else c == c1
  {
    c := c0.(mtu_advise := mtu);
    if c.state == Established {
      c := AdjustMtu(c);
    }
  }
}
