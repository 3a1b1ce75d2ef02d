/** The sending half of the pseudo-TCP socket: queueing, transmission, retransmission. */
module Sending {
  import opened ByteFifo
  import opened SeqNum
  import opened Endpoint
  import opened SendQueue
  import opened Tcb

  datatype WriteResult = WrSuccess | WrTooLarge | WrFail
  datatype SendFlags = SfNone | SfDelayedAck | SfImmediateAck | SfDuplicateAck

  /* ---------- queueing ---------- */

  method BufferWrite(b: ByteQueue, data: seq<byte>) returns (b': ByteQueue, written: nat)
    ensures written == Min(|data|, |b.free|)
    ensures b'.contents == b.contents + data[..written]
    ensures |b'.free| == |b.free| - written
  {
    var (n, after) := b.Write(data);
    b', written := after, n;
  }

  /** Queues as much of `data` as fits, on the tail segment if that is of the same kind and has
      not been transmitted. */
  method Queue(q0: SendPart, data: seq<byte>, ctl: bool) returns (q: SendPart, written: nat)
    requires QueueValid(q0)
    requires if ctl then q0.End() == 0 && data == CONNECT else CTL_LEN <= q0.End()
    ensures QueueValid(q) && q.snd_una == q0.snd_una && q.snd_nxt == q0.snd_nxt
    ensures written == Min(|data|, |q0.sbuf.free|)
    ensures q.sbuf.contents == q0.sbuf.contents + data[..written]
    ensures |q.slist| == |q0.slist| + if q0.slist != [] && Coalesces(q0.slist[|q0.slist| - 1], ctl) then 0 else 1
  {
    QueueSpan(q0);
    var len := Min(|data|, |q0.sbuf.free|);
    q := Enlist(q0, len, ctl);
    var b;
    b, written := BufferWrite(q.sbuf, data[..len]);
    FilledIsValid(q0, q, b, len);
    assert data[..len][..len] == data[..len];
    q := q.(sbuf := b);
  }

  lemma FilledIsValid(q0: SendPart, q: SendPart, b: ByteQueue, len: nat)
    requires QueueValid(q0) && q == q0.(slist := q.slist, unsent_slist := q.unsent_slist)
    requires q.slist == Flight(q0) + q.unsent_slist && Pending(q.unsent_slist, q.snd_nxt, q.End() + len)
    requires |b.contents| == |q0.sbuf.contents| + len && |b.free| + len == |q0.sbuf.free|
    ensures QueueValid(q.(sbuf := b))
  {
    QueueIsValid(q.(sbuf := b), Flight(q0));
  }

  /** The next `len` bytes get their segment. */
  method Enlist(q0: SendPart, len: nat, ctl: bool) returns (q: SendPart)
    requires QueueValid(q0)
    requires if ctl then q0.End() == 0 && 0 < len <= CTL_LEN else CTL_LEN <= q0.End()
    ensures q == q0.(slist := q.slist, unsent_slist := q.unsent_slist)
    ensures q.slist == Flight(q0) + q.unsent_slist && Pending(q.unsent_slist, q.snd_nxt, q.End() + len)
    ensures |q.slist| == |q0.slist| + if q0.slist != [] && Coalesces(q0.slist[|q0.slist| - 1], ctl) then 0 else 1
  {
    if q0.slist != [] && q0.slist[|q0.slist| - 1].ctl == ctl && q0.slist[|q0.slist| - 1].xmit == 0 {
      q := GrowLast(q0, len);
    } else {
      q := AppendSegment(q0, SSegment(q0.End(), len, 0, ctl));
    }
  }

  /** New bytes join a segment of the same kind that has not been transmitted. */
  predicate Coalesces(tail: SSegment, ctl: bool) {
    tail.xmit == 0 && (tail.ctl <==> ctl)
  }

  method GrowLast(q0: SendPart, n: nat) returns (q: SendPart)
    requires QueueValid(q0) && q0.slist != [] && q0.slist[|q0.slist| - 1].xmit == 0
    requires q0.slist[|q0.slist| - 1].ctl ==> q0.End() == 0
    ensures q == q0.(slist := q.slist, unsent_slist := q.unsent_slist) && |q.slist| == |q0.slist|
    ensures q.slist == Flight(q0) + q.unsent_slist && Pending(q.unsent_slist, q.snd_nxt, q.End() + n)
  {
    TailIsUnsent(q0);
    var tail := q0.slist[|q0.slist| - 1];
    GrowTail(q0.unsent_slist, q0.snd_nxt, q0.End(), n);
    q := q0.(slist := q0.slist[|q0.slist| - 1 := tail.(len := tail.len + n)],
             unsent_slist := q0.unsent_slist[|q0.unsent_slist| - 1 := tail.(len := tail.len + n)]);
  }

  method AppendSegment(q0: SendPart, s: SSegment) returns (q: SendPart)
    requires QueueValid(q0) && s.sqn == q0.End() && s.xmit == 0 && Placed(s)
    requires !(q0.slist != [] && q0.slist[|q0.slist| - 1].ctl == s.ctl && q0.slist[|q0.slist| - 1].xmit == 0)
    requires s.ctl ==> q0.End() == 0
    ensures q == q0.(slist := q0.slist + [s], unsent_slist := q0.unsent_slist + [s])
    ensures q.slist == Flight(q0) + q.unsent_slist && Pending(q.unsent_slist, q.snd_nxt, q.End() + s.len)
  {
    LastPending(q0, s.ctl);
    PendingConcat(q0.unsent_slist, [s], q0.snd_nxt, q0.End(), q0.End() + s.len);
    q := q0.(slist := q0.slist + [s], unsent_slist := q0.unsent_slist + [s]);
  }

  lemma TailIsUnsent(q: SendPart)
    requires QueueValid(q) && q.slist != [] && q.slist[|q.slist| - 1].xmit == 0
    ensures q.unsent_slist != [] && (q.slist[|q.slist| - 1].ctl ==> q.End() > 0)
  {
    if q.unsent_slist == [] {
      FlyingAt(Flight(q), q.snd_una, q.snd_nxt, |q.slist| - 1);
    } else if q.slist[|q.slist| - 1].ctl && q.End() == 0 {
      QueueSpan(q);
      NothingQueued(Flight(q), q.unsent_slist);
    }
  }

  /** An empty last segment is never followed by another. */
  lemma LastPending(q: SendPart, ctl: bool)
    requires QueueValid(q)
    requires !(q.slist != [] && q.slist[|q.slist| - 1].ctl == ctl && q.slist[|q.slist| - 1].xmit == 0)
    requires ctl ==> q.End() == 0
    ensures q.unsent_slist != [] ==> q.unsent_slist[|q.unsent_slist| - 1].len > 0
  {
    if q.unsent_slist != [] {
      PendingAt(q.unsent_slist, q.snd_nxt, q.End(), |q.unsent_slist| - 1);
      if ctl {
        QueueSpan(q);
        NothingQueued(Flight(q), q.unsent_slist);
      }
    }
  }

  /* ---------- one segment ---------- */

  /** Hands one segment to the WritePacket callback, which may succeed or not.  A pure
      acknowledgement is taken as sent whatever the callback says. */
  method Packet(q: SendPart, c0: Control, r: RecvPart, sqn: int, ctl: bool, offset: nat, len: nat, now: u32)
    returns (c: Control, wres: WriteResult, pk: seq<Segment>, ghost answer: WriteResult)
    requires HEADER_SIZE + len <= MAX_PACKET
    requires offset + len <= |q.sbuf.contents|
    ensures wres == WrSuccess ==>
              && pk == [Segment(sqn, r.rcv_nxt, r.rcv_wnd % 0x1_0000, ctl,
                                q.sbuf.contents[offset..offset + len], now, c0.ts_recent)]
              && c == c0.(ts_lastack := r.rcv_nxt, t_ack := 0, lastsend := if len > 0 then now else c0.lastsend)
    ensures wres != WrSuccess ==> len > 0 && pk == [] && c == c0.(ts_lastack := r.rcv_nxt)
    ensures wres == if len == 0 then WrSuccess else answer
  {
    c := c0.(ts_lastack := r.rcv_nxt);
    var data := [];
    if len > 0 {
      data := q.sbuf.ReadOffset(len, offset);
      assert |data| == len;
    }
    assert data == q.sbuf.contents[offset..offset + len];
    wres := *;
    answer := wres;
    if wres != WrSuccess && len != 0 {
      pk := [];
      return;
    }
    c := c.(t_ack := 0);
    if len > 0 {
      c := c.(lastsend := now);
    }
    pk := [Segment(sqn, r.rcv_nxt, r.rcv_wnd % 0x1_0000, ctl, data, now, c0.ts_recent)];
    wres := WrSuccess;
  }

  /** A segment without data. */
  method Acknowledge(q: SendPart, c0: Control, r: RecvPart, sqn: int, now: u32)
    returns (c: Control, pk: seq<Segment>)
    ensures c == c0.(ts_lastack := r.rcv_nxt, t_ack := 0)
    ensures AllEmitted(q, r, pk) && pk == [Segment(sqn, r.rcv_nxt, r.rcv_wnd % 0x1_0000, false, [], now, c0.ts_recent)]
  {
    var wres;
    ghost var answer;
    c, wres, pk, answer := Packet(q, c0, r, sqn, false, 0, 0, now);
    EmittedOne(q, r, pk[0]);
  }

  /** The packet-size level that `transmit` steps down to when `n` bytes are too large, if any. */
  function Lowered(level: nat, n: nat): (r: nat)
    requires level <= 9
    ensures r == 0 || (level < r <= 9 && Mss(r) < n)
    decreases 10 - level
  {
    if PACKET_MAXIMUMS[level + 1] == 0 then 0
    else if Mss(level + 1) < n then level + 1
    else Lowered(level + 1, n)
  }

  function Mss(level: nat): (r: nat)
    requires level <= 9
    ensures r > 0
  {
    PACKET_MAXIMUMS[level] - PACKET_OVERHEAD
  }

  /** Steps down the list of packet sizes until the MSS is below `n`, or to its end. */
  method StepDown(level0: nat, n: nat) returns (level: nat, ok: bool)
    requires level0 <= 9
    ensures level0 <= level <= 9 && (ok <==> Lowered(level0, n) > 0)
    ensures level == if ok then Lowered(level0, n) else 9
  {
    level := level0;
    while PACKET_MAXIMUMS[level + 1] > 0
      invariant level0 <= level <= 9 && Lowered(level, n) == Lowered(level0, n)
      decreases 10 - level
    {
      level := level + 1;
      if Mss(level) < n {
        return level, true;
      }
    }
    return level, false;
  }

  /** The first packet size that an MTU admits, or the last one. */
  predicate IsLevel(level: nat, mtu: nat) {
    && level <= 9 && (level == 9 || PACKET_MAXIMUMS[level] <= mtu)
    && forall i :: 0 <= i < level ==> PACKET_MAXIMUMS[i] > mtu
  }

  /** The packet-size level for an MTU. */
  method LevelFor(mtu: nat) returns (level: nat)
    ensures IsLevel(level, mtu)
  {
    level := 0;
    while PACKET_MAXIMUMS[level + 1] > 0 && PACKET_MAXIMUMS[level] > mtu
      invariant level <= 9 && forall i :: 0 <= i < level ==> PACKET_MAXIMUMS[i] > mtu
      decreases 10 - level
    {
      level := level + 1;
    }
  }

  /** The MSS of the first smaller packet size that is below `n`, and a congestion window of twice that. */
  method LowerMss(c0: Control, n: nat) returns (c: Control, ok: bool)
    requires MssValid(c0)
    ensures MssValid(c) && c == c0.(mss := c.mss, msslevel := c.msslevel, cwnd := c.cwnd) && Resized(c0, c)
    ensures ok <==> Lowered(c0.msslevel, n) > 0
    ensures ok ==> c.msslevel == Lowered(c0.msslevel, n) && c.mss == Mss(c.msslevel) < n && c.cwnd == 2 * c.mss
  {
    c := c0;
    var level;
    level, ok := StepDown(c.msslevel, n);
    if level > c.msslevel {
      c := c.(msslevel := level, mss := Mss(level), cwnd := 2 * Mss(level));
    }
  }

  /** Segment size and congestion window stay, or both belong to a later, smaller packet size. */
  predicate Resized(c0: Control, c: Control) {
    || (c.mss == c0.mss && c.msslevel == c0.msslevel && c.cwnd == c0.cwnd)
    || (c0.msslevel < c.msslevel <= 9 && c.mss == Mss(c.msslevel) && c.cwnd == 2 * c.mss)
  }

  /** The control part after a segment with data has gone out. */
  predicate Handed(c0: Control, c: Control, r: RecvPart, now: u32) {
    && c == c0.(ts_lastack := r.rcv_nxt, t_ack := 0, lastsend := now, mss := c.mss, msslevel := c.msslevel, cwnd := c.cwnd)
    && Resized(c0, c)
  }

  /** The same with the retransmission timer running. */
  predicate Booked(c0: Control, c: Control, r: RecvPart, now: u32) {
    && c == c0.(ts_lastack := r.rcv_nxt, t_ack := 0, lastsend := now, mss := c.mss, msslevel := c.msslevel, cwnd := c.cwnd,
                rto_base := if c0.rto_base == 0 then now else c0.rto_base)
    && Resized(c0, c)
  }

  /** The control part after a transmission has failed. */
  predicate Refused(c0: Control, c: Control) {
    && c == c0.(ts_lastack := c.ts_lastack, mss := c.mss, msslevel := c.msslevel, cwnd := c.cwnd)
    && Resized(c0, c)
  }

  /** How many of `len` bytes one transmission takes. */
  function Portion(len: nat, c0: Control, c: Control): nat {
    if c.msslevel == c0.msslevel then Min(len, c0.mss) else c.mss
  }

  /** What transmitting one segment may change. */
  predicate SameButTransmit(c: Control, c': Control) {
    c' == c.(ts_lastack := c'.ts_lastack, t_ack := c'.t_ack, lastsend := c'.lastsend, rto_base := c'.rto_base,
             mss := c'.mss, msslevel := c'.msslevel, cwnd := c'.cwnd)
  }

  /** What comes of a transmission whose last answer this is: too large means that there is no smaller size. */
  function Verdict(answer: WriteResult): Errno {
    match answer
    case WrSuccess => Ok
    case WrFail => ConnAborted
    case WrTooLarge => MsgSize
  }

  /** Sends the first bytes of `segment`, lowering the MSS as long as they are too many. */
  method SendFirst(q: SendPart, c0: Control, r: RecvPart, segment: SSegment, now: u32)
    returns (c: Control, status: Errno, n: nat, pk: seq<Segment>, ghost answers: seq<WriteResult>)
    requires MssValid(c0)
    requires segment.len > 0 && q.snd_una <= segment.sqn && segment.sqn + segment.len <= q.End()
    ensures MssValid(c) && if status == Ok then Handed(c0, c, r, now) else Refused(c0, c)
    ensures status == TimedOut <==> segment.xmit >= (if c0.state == Established then 15 else 30)
    ensures status == Ok ==>
              && 0 < n <= segment.len && n == Portion(segment.len, c0, c)
              && pk == [Segment(segment.sqn, r.rcv_nxt, r.rcv_wnd % 0x1_0000, segment.ctl,
                                q.sbuf.contents[segment.sqn - q.snd_una..segment.sqn - q.snd_una + n], now, c0.ts_recent)]
    ensures status != Ok ==> pk == []
    ensures if answers == [] then status == TimedOut else status == Verdict(answers[|answers| - 1])
    ensures forall i :: 0 <= i < |answers| - 1 ==> answers[i] == WrTooLarge
  {
    answers := [];
    c, pk := c0, [];
    n := Min(segment.len, c.mss);
    if segment.xmit >= (if c.state == Established then 15 else 30) {
      return c, TimedOut, n, [], [];
    }
    while true
      invariant MssValid(c) && Refused(c0, c) && n == Portion(segment.len, c0, c)
      invariant 0 < n <= segment.len && n <= c0.mss
      invariant forall i :: 0 <= i < |answers| ==> answers[i] == WrTooLarge
      decreases 10 - c.msslevel
    {
      var wres;
      ghost var answer;
      c, wres, pk, answer := Packet(q, c, r, segment.sqn, segment.ctl, segment.sqn - q.snd_una, n, now);
      answers := answers + [answer];
      if wres == WrSuccess {
        return c, Ok, n, pk, answers;
      }
      if wres == WrFail {
        return c, ConnAborted, n, [], answers;
      }
      var ok;
      c, ok := LowerMss(c, n);
      if !ok {
        return c, MsgSize, n, [], answers;
      }
      n := c.mss;
    }
  }

  /** The same, with the retransmission timer started if it is not running. */
  method SendOne(q: SendPart, c0: Control, r: RecvPart, segment: SSegment, now: u32)
    returns (c: Control, status: Errno, n: nat, pk: seq<Segment>)
    requires MssValid(c0)
    requires segment.len > 0 && q.snd_una <= segment.sqn && segment.sqn + segment.len <= q.End()
    ensures MssValid(c) && if status == Ok then Booked(c0, c, r, now) else Refused(c0, c)
    ensures status == TimedOut <==> segment.xmit >= (if c0.state == Established then 15 else 30)
    ensures if status == Ok
            then && 0 < n <= segment.len && n == Portion(segment.len, c0, c)
                 && pk == [Segment(segment.sqn, r.rcv_nxt, r.rcv_wnd % 0x1_0000, segment.ctl,
                                   q.sbuf.contents[segment.sqn - q.snd_una..segment.sqn - q.snd_una + n], now, c0.ts_recent)]
            else pk == []
  {
    ghost var answers;
    c, status, n, pk, answers := SendFirst(q, c0, r, segment, now);
    if status == Ok && c.rto_base == 0 {
      c := c.(rto_base := now);
    }
  }

  /** `transmit` on the head of the queue, which has been transmitted before: the head keeps its
      first bytes, counted as sent once more, and any rest becomes a segment of its own. */
  method Retransmit(q0: SendPart, c0: Control, r: RecvPart, now: u32)
    returns (q: SendPart, c: Control, status: Errno, pk: seq<Segment>)
    requires QueueValid(q0) && MssValid(c0) && q0.snd_una < q0.snd_nxt
    ensures QueueValid(q) && q == q0.(slist := q.slist) && q0.slist != []
    ensures MssValid(c) && AllEmitted(q, r, pk)
    ensures status == TimedOut <==> q0.slist[0].xmit >= (if c0.state == Established then 15 else 30)
    ensures if status == Ok then ResentHead(q0, c0, q, c, r, now, pk)
            else pk == [] && q == q0 && Refused(c0, c)
  {
    q := q0;
    QueueSpan(q);
    var segment := q.slist[0];
    var n;
    c, status, n, pk := SendOne(q, c0, r, segment, now);
    if status != Ok {
      return;
    }
    q := Resent(q, n);
    EmittedOne(q, r, pk[0]);
  }

  /** The first bytes in flight have gone out again, as one segment, and are booked as sent once more. */
  predicate ResentHead(q0: SendPart, c0: Control, q: SendPart, c: Control, r: RecvPart, now: u32, pk: seq<Segment>) {
    && Booked(c0, c, r, now)
    && |pk| == 1 && pk[0].sqn == q0.snd_una && q0.slist != []
    && |pk[0].data| == Portion(q0.slist[0].len, c0, c) && 0 < |pk[0].data| <= q0.slist[0].len
    && q.slist == [Front(q0.slist[0], |pk[0].data|)] + Rest(q0.slist[0], |pk[0].data|) + q0.slist[1..]
  }

  /** Books a retransmission of the first `n` bytes of the head of the queue. */
  method Resent(q0: SendPart, n: nat) returns (q: SendPart)
    requires QueueValid(q0) && Flight(q0) != [] && 0 < n <= q0.slist[0].len
    ensures QueueValid(q) && q == q0.(slist := q.slist)
    ensures q.slist == [Front(q0.slist[0], n)] + Rest(q0.slist[0], n) + q0.slist[1..]
  {
    var segment := q0.slist[0];
    ghost var f := Flight(q0);
    CutFlying(f, q0.snd_una, q0.snd_nxt, n);
    q := q0.(slist := [Front(segment, n)] + Rest(segment, n) + q0.slist[1..]);
    QueueIsValid(q, [Front(segment, n)] + Rest(segment, n) + f[1..]);
  }

  /** `transmit` on the first unsent segment. */
  method TransmitNew(q0: SendPart, c0: Control, r: RecvPart, now: u32)
    returns (q: SendPart, c: Control, status: Errno, pk: seq<Segment>)
    requires QueueValid(q0) && MssValid(c0) && q0.unsent_slist != [] && q0.unsent_slist[0].len > 0
    ensures QueueValid(q) && q.snd_una == q0.snd_una && q.sbuf == q0.sbuf
    ensures MssValid(c) && AllEmitted(q, r, pk)
    ensures if status == Ok
            then && Booked(c0, c, r, now)
                 && |pk| == 1 && pk[0].sqn == q0.snd_nxt && q.snd_nxt == q0.snd_nxt + |pk[0].data|
                 && |pk[0].data| == Portion(q0.unsent_slist[0].len, c0, c) && 0 < |pk[0].data| <= q0.unsent_slist[0].len
            else pk == [] && q == q0 && Refused(c0, c)
  {
    q := q0;
    QueueSpan(q);
    var segment := q.unsent_slist[0];
    var n;
    c, status, n, pk := SendOne(q, c0, r, segment, now);
    if status != Ok {
      return;
    }
    q := SentNew(q, n);
    PortionEmitted(q, r, segment, n, pk[0]);
  }

  /** What one transmission hands out is of the send buffer. */
  lemma PortionEmitted(q: SendPart, r: RecvPart, segment: SSegment, n: nat, g: Segment)
    requires q.snd_una <= segment.sqn && segment.sqn + n <= q.snd_nxt <= q.End() && 0 < n <= segment.len
    requires Placed(segment) && g.sqn == segment.sqn && g.ctl == segment.ctl && g.ack == r.rcv_nxt && g.wnd == r.rcv_wnd % 0x1_0000
    requires g.data == q.sbuf.contents[segment.sqn - q.snd_una..segment.sqn - q.snd_una + n]
    ensures AllEmitted(q, r, [g]) && |g.data| == n
  {
    EmittedOne(q, r, g);
  }

  /** Books the first transmission of the first `n` bytes of the first unsent segment. */
  method SentNew(q0: SendPart, n: nat) returns (q: SendPart)
    requires QueueValid(q0) && q0.unsent_slist != [] && 0 < n <= q0.unsent_slist[0].len
    ensures QueueValid(q) && q.snd_una == q0.snd_una && q.sbuf == q0.sbuf
    ensures q.snd_nxt == q0.snd_nxt + n && q.snd_nxt <= q.End()
  {
    ghost var f := Flight(q0);
    Launch(f, q0.snd_una, q0.snd_nxt, q0.unsent_slist[0], n);
    Leave(q0.unsent_slist, q0.snd_nxt, q0.End(), n);
    q := MoveToFlight(q0, n, f);
    QueueIsValid(q, f + [Front(q0.unsent_slist[0], n)]);
    QueueSpan(q);
  }

  /** The list surgery of a first transmission: the bytes sent move to the part in flight, counted
      as sent once, and any rest of their segment stays unsent, in both lists. */
  method MoveToFlight(q0: SendPart, n: nat, ghost f: seq<SSegment>) returns (q: SendPart)
    requires q0.slist == f + q0.unsent_slist && q0.unsent_slist != [] && n <= q0.unsent_slist[0].len
    ensures q == q0.(slist := q.slist, unsent_slist := q.unsent_slist, snd_nxt := q0.snd_nxt + n)
    ensures q.unsent_slist == Rest(q0.unsent_slist[0], n) + q0.unsent_slist[1..]
    ensures q.slist == f + [Front(q0.unsent_slist[0], n)] + q.unsent_slist
  {
    var i := |q0.slist| - |q0.unsent_slist|;
    var segment := q0.slist[i];
    Splice(f, q0.unsent_slist, Front(segment, n), Rest(segment, n));
    q := q0.(slist := q0.slist[..i] + [Front(segment, n)] + Rest(segment, n) + q0.slist[i + 1..],
             unsent_slist := Rest(segment, n) + q0.unsent_slist[1..],
             snd_nxt := q0.snd_nxt + n);
  }

  /** Breaks the first unsent segment in two. */
  method SplitUnsent(q0: SendPart, n: nat) returns (q: SendPart)
    requires QueueValid(q0) && q0.unsent_slist != [] && 0 < n < q0.unsent_slist[0].len
    ensures QueueValid(q) && q == q0.(slist := q.slist, unsent_slist := q.unsent_slist)
    ensures var h := q0.unsent_slist[0];
            q.unsent_slist == [h.(len := n), h.(sqn := h.sqn + n, len := h.len - n)] + q0.unsent_slist[1..]
  {
    var i := |q0.slist| - |q0.unsent_slist|;
    var sseg := q0.unsent_slist[0].(len := n);
    var subseg := q0.unsent_slist[0].(sqn := sseg.sqn + n, len := q0.unsent_slist[0].len - n);
    ghost var f := Flight(q0);
    SplitHead(q0.unsent_slist, q0.snd_nxt, q0.End(), n);
    Splice(f, q0.unsent_slist, sseg, [subseg]);
    assert (f + [sseg]) + ([subseg] + q0.unsent_slist[1..]) == f + ([sseg, subseg] + q0.unsent_slist[1..]);
    q := q0.(slist := q0.slist[..i] + [sseg] + [subseg] + q0.slist[i + 1..],
             unsent_slist := [sseg, subseg] + q0.unsent_slist[1..]);
    QueueIsValid(q, f);
  }

  /* ---------- attempt_send ---------- */

  /** The window that limits new transmissions: the peer's, and the congestion window with one segment
      more for each of the first two duplicates (section 2 of RFC 3042). */
  function Window(c: Control): nat {
    Min(c.snd_wnd, Wrap(c.cwnd + if c.dup_acks == 1 then c.mss else if c.dup_acks == 2 then 2 * c.mss else 0))
  }

  lemma WindowIs(c: Control)
    ensures c.dup_acks <= 2 ==> Window(c) == Min(c.snd_wnd, Wrap(c.cwnd + c.dup_acks * c.mss))
    ensures c.dup_acks > 2 ==> Window(c) == Min(c.snd_wnd, c.cwnd)
  {
  }

  /** How many new bytes may go out now. */
  function Available(q: SendPart, c: Control): (n: nat)
    requires q.snd_una <= q.snd_nxt <= q.End() && |q.sbuf.contents| <= SND_BUF
    ensures n > 0 ==> q.snd_nxt - q.snd_una + n <= Window(c)
    ensures n <= c.mss && q.snd_nxt + n <= q.End()
  {
    Admitted(|q.sbuf.contents|, q.snd_nxt - q.snd_una, Window(c), c.mss)
  }

  /** How much of `buffered` bytes may go out when `inFlight` of them are on their way: as much as makes
      a segment, or what the window leaves if that is at least a quarter of it (RFC 813). */
  function Admitted(buffered: nat, inFlight: nat, window: nat, mss: nat): (n: nat)
    ensures n > 0 ==> inFlight + n <= window
    ensures n <= mss && (n > 0 ==> inFlight + n <= buffered)
  {
    var nUseable := if inFlight < window then window - inFlight else 0;
    var nAvailable := if buffered < inFlight then 0 else Min(buffered - inFlight, mss);
    if nAvailable > nUseable then
      (if nUseable * 4 < window then 0 else nUseable)
    else nAvailable
  }

  /** A whole segment, or all that is left, if that fits what the window leaves; otherwise what the window
      leaves if that is at least a quarter of it; otherwise nothing. */
  lemma AvailableIs(q: SendPart, c: Control)
    requires q.snd_una <= q.snd_nxt <= q.End() && |q.sbuf.contents| <= SND_BUF
    ensures var want, room := Min(q.End() - q.snd_nxt, c.mss), Window(c) - (q.snd_nxt - q.snd_una);
            Available(q, c) == if want <= room then want else if 0 < room && Window(c) <= 4 * room then room else 0
  {
  }

  /** The code subtracts 32-bit numbers. */
  method ComputeAvailable(q: SendPart, c: Control) returns (n: nat)
    requires q.snd_una <= q.snd_nxt <= q.End() && |q.sbuf.contents| <= SND_BUF
    ensures n == Available(q, c)
  {
    n := Admitted(|q.sbuf.contents|, Minus(q.snd_nxt, q.snd_una), Window(c), c.mss);
  }

  /** Nagle's algorithm holds `n` bytes back: something is in flight and they do not fill a segment.
      The code compares the raw 32-bit numbers. */
  predicate Nagle(q: SendPart, c: Control, n: nat) {
    c.use_nagling && Wrap(q.snd_nxt) > Wrap(q.snd_una) && n < c.mss
  }

  /** With data in flight the code's test misses it exactly when the flight crosses a multiple of 2^32. */
  lemma NagleSeesFlight(q: SendPart, c: Control, n: nat)
    requires q.snd_una <= q.snd_nxt <= q.snd_una + SND_BUF
    ensures Nagle(q, c, n) <==>
              c.use_nagling && n < c.mss && q.snd_una < q.snd_nxt && q.snd_una / MODULUS == q.snd_nxt / MODULUS
  {
  }

  /** Ten bytes in flight across 2^32 do not hold a small segment back. */
  lemma NagleMissesWrap(q: SendPart, c: Control, n: nat)
    requires q.snd_una == MODULUS - 5 && q.snd_nxt == MODULUS + 5
    ensures !Nagle(q, c, n)
  {
  }

  /** There is something that the windows and Nagle's algorithm let go out now. */
  predicate MaySend(q: SendPart, c: Control)
    requires q.snd_una <= q.snd_nxt <= q.End() && |q.sbuf.contents| <= SND_BUF
  {
    var n := Available(q, c);
    n > 0 && !Nagle(q, c, n)
  }

  /** Nothing more may go out: all has been sent, or what the window leaves is too little for the rest, or
      Nagle's algorithm holds it back. */
  predicate Rests(q: SendPart, c: Control) {
    var unsent, room := q.End() - q.snd_nxt, Window(c) - (q.snd_nxt - q.snd_una);
    || unsent == 0
    || (room < Min(unsent, c.mss) && (room <= 0 || 4 * room < Window(c)))
    || Waits(q, c)
  }

  /** Nagle's algorithm holds back what is not a whole segment, because something is in flight. */
  predicate Waits(q: SendPart, c: Control) {
    var unsent, room := q.End() - q.snd_nxt, Window(c) - (q.snd_nxt - q.snd_una);
    && c.use_nagling && q.snd_una < q.snd_nxt && q.snd_una / MODULUS == q.snd_nxt / MODULUS
    && 0 < unsent && 0 < room && (unsent < c.mss || room < c.mss)
  }

  lemma RestsExactly(q: SendPart, c: Control)
    requires q.snd_una <= q.snd_nxt <= q.End() && |q.sbuf.contents| <= SND_BUF && MssValid(c)
    ensures Rests(q, c) <==> !MaySend(q, c)
    ensures Available(q, c) > 0 && Nagle(q, c, Available(q, c)) ==> Waits(q, c)
  {
    NagleSeesFlight(q, c, Available(q, c));
    AvailableIs(q, c);
  }

  /** An acknowledgement goes out if one is asked for and nothing can be sent, or it is delayed. */
  predicate Decided(q: SendPart, c0: Control, r: RecvPart, sflags: SendFlags, nAvailable: nat, now: u32,
                    c: Control, pk: seq<Segment>) {
    if || sflags == SfDuplicateAck
       || (nAvailable == 0 && (sflags == SfImmediateAck || (sflags == SfDelayedAck && c0.t_ack != 0)))
    then
      && c == c0.(ts_lastack := r.rcv_nxt, t_ack := 0)
      && pk == [Segment(q.snd_nxt, r.rcv_nxt, r.rcv_wnd % 0x1_0000, false, [], now, c0.ts_recent)]
    else pk == [] && c == if nAvailable == 0 && sflags == SfDelayedAck then c0.(t_ack := now) else c0
  }

  /** Acknowledges if asked to, and decides whether to send new data. */
  method Decide(q: SendPart, c0: Control, r: RecvPart, sflags: SendFlags, nAvailable: nat, now: u32)
    returns (c: Control, send: bool, pk: seq<Segment>)
    ensures AllEmitted(q, r, pk)
    ensures send <==> nAvailable > 0 && sflags != SfDuplicateAck && !Nagle(q, c0, nAvailable)
    ensures Decided(q, c0, r, sflags, nAvailable, now, c, pk)
  {
    c, pk, send := c0, [], false;
    if sflags == SfDuplicateAck {
      c, pk := Acknowledge(q, c, r, q.snd_nxt, now);
    } else if nAvailable == 0 {
      if sflags == SfNone {
      } else if sflags == SfImmediateAck || c.t_ack != 0 {
        c, pk := Acknowledge(q, c, r, q.snd_nxt, now);
      } else {
        c := c.(t_ack := now);
      }
    } else {
      send := !Nagle(q, c, nAvailable);
    }
  }

  /** The data segments of `pk`, in order, carry exactly the numbers from `a` to `b`. */
  predicate Carries(pk: seq<Segment>, a: int, b: int) {
    if pk == [] then a == b
    else
      var g := pk[|pk| - 1];
      if g.data == [] then Carries(pk[..|pk| - 1], a, b)
      else g.sqn + |g.data| == b && Carries(pk[..|pk| - 1], a, g.sqn)
  }

  lemma {:induction false} CarriesOn(pk: seq<Segment>, pk': seq<Segment>, a: int, b: int, d: int)
    requires Carries(pk, a, b) && Carries(pk', b, d)
    ensures Carries(pk + pk', a, d)
  {
    if pk' == [] {
      assert pk + pk' == pk;
    } else {
      var front, g := pk'[..|pk'| - 1], pk'[|pk'| - 1];
      assert (pk + pk')[..|pk + pk'| - 1] == pk + front;
      CarriesOn(pk, front, a, b, if g.data == [] then d else g.sqn);
    }
  }

  lemma CarriesOne(g: Segment)
    ensures Carries([g], g.sqn, g.sqn + |g.data|) && (g.data == [] ==> forall a :: Carries([g], a, a))
  {
    assert [g][..0] == [];
  }

  /** How the timers and timestamps go with what was sent since snd_nxt was `nxt`. */
  predicate Accounts(nxt: nat, c0: Control, r: RecvPart, now: u32, q: SendPart, c: Control, pk: seq<Segment>) {
    && SameButTransmit(c0, c.(state := c0.state)) && Resized(c0, c) && Carries(pk, nxt, q.snd_nxt)
    && c.rto_base == (if nxt < q.snd_nxt && c0.rto_base == 0 then now else c0.rto_base)
    && c.lastsend == (if nxt < q.snd_nxt then now else c0.lastsend)
    && (pk != [] && c.state != Closed ==> c.ts_lastack == r.rcv_nxt && c.t_ack == 0)
    && (pk == [] && c.state != Closed ==> nxt == q.snd_nxt && c == c0.(t_ack := c.t_ack))
  }

  /** What was asked for has been done: an acknowledgement at once, one with the next data or after the
      delay, or none.  It may be held back with the data it would go with. */
  predicate Answered(sflags: SendFlags, nxt: nat, c0: Control, now: u32, q: SendPart, c: Control, pk: seq<Segment>) {
    match sflags
    case SfNone => (pk == [] <==> q.snd_nxt == nxt) && (c.state != Closed && pk == [] ==> c.t_ack == c0.t_ack)
    case SfDuplicateAck => pk != [] && pk[0].data == [] && pk[0].sqn == nxt
    case SfImmediateAck => pk != [] || c.state == Closed || (Waits(q, c) && c.t_ack == c0.t_ack)
    case SfDelayedAck =>
      || c.state == Closed
      || (pk == [] && Waits(q, c) && c.t_ack == c0.t_ack)
      || (if c0.t_ack == 0 && q.snd_nxt == nxt then pk == [] && c.t_ack == now else pk != [])
  }

  /** One round of the loop of `attempt_send`.  New bytes stay inside the window as it is when the
      round begins; a failed transmission closes the socket. */
  method SendRound(q0: SendPart, c0: Control, r: RecvPart, sflags: SendFlags, now: u32)
    returns (q: SendPart, c: Control, more: bool, pk: seq<Segment>)
    requires QueueValid(q0) && MssValid(c0)
    ensures QueueValid(q) && q.snd_una == q0.snd_una && q.sbuf == q0.sbuf
    ensures MssValid(c) && (c.state == c0.state || (c.state == Closed && !more))
    ensures AllEmitted(q, r, pk)
    ensures q0.snd_nxt <= q.snd_nxt <= q0.End()
    ensures q.snd_nxt == q0.snd_nxt || q.snd_nxt - q.snd_una <= Window(c0) <= c0.snd_wnd
    ensures Accounts(q0.snd_nxt, c0, r, now, q, c, pk) && Answered(sflags, q0.snd_nxt, c0, now, q, c, pk)
    ensures more ==> pk != [] && (q0.snd_nxt < q.snd_nxt || sflags == SfDuplicateAck)
    ensures !more && c.state != Closed ==> Rests(q, c)
  {
    q := q0;
    QueueSpan(q);
    var nAvailable := ComputeAvailable(q, c0);
    var send;
    c, send, pk := Decide(q, c0, r, sflags, nAvailable, now);
    more := sflags == SfDuplicateAck;
    if send {
      q, c, more, pk := SendData(q, c, r, sflags, nAvailable, now);
    } else {
      HeldBack(q, c0, r, sflags, now, c, pk);
    }
  }

  /** The round, once data is to be sent. */
  method SendData(q0: SendPart, c0: Control, r: RecvPart, ghost sflags: SendFlags, n: nat, now: u32)
    returns (q: SendPart, c: Control, more: bool, pk: seq<Segment>)
    requires QueueValid(q0) && MssValid(c0) && 0 < n <= c0.mss && q0.snd_nxt + n <= q0.End() && sflags != SfDuplicateAck
    ensures QueueValid(q) && q.snd_una == q0.snd_una && q.sbuf == q0.sbuf
    ensures MssValid(c) && c.state == if more then c0.state else Closed
    ensures AllEmitted(q, r, pk)
    ensures q0.snd_nxt <= q.snd_nxt <= q0.snd_nxt + n && (more ==> pk != [] && q0.snd_nxt < q.snd_nxt)
    ensures Accounts(q0.snd_nxt, c0, r, now, q, c, pk) && Answered(sflags, q0.snd_nxt, c0, now, q, c, pk)
  {
    q, c, more, pk := SendNew(q0, c0, r, n, now);
    WentOut(q0.snd_nxt, c0, r, sflags, now, q, c, pk);
  }

  /** A round that sends data, or fails to. */
  lemma WentOut(nxt: nat, c0: Control, r: RecvPart, sflags: SendFlags, now: u32, q: SendPart, c: Control, pk: seq<Segment>)
    requires Carries(pk, nxt, q.snd_nxt) && sflags != SfDuplicateAck
    requires if pk != [] then Booked(c0, c, r, now) && nxt < q.snd_nxt else nxt == q.snd_nxt && Refused(c0.(state := Closed), c)
    ensures Accounts(nxt, c0, r, now, q, c, pk) && Answered(sflags, nxt, c0, now, q, c, pk)
  {
  }

  /** A round that sends no data. */
  lemma HeldBack(q: SendPart, c0: Control, r: RecvPart, sflags: SendFlags, now: u32, c: Control, pk: seq<Segment>)
    requires q.snd_una <= q.snd_nxt <= q.End() && |q.sbuf.contents| <= SND_BUF && MssValid(c0)
    requires sflags == SfDuplicateAck || !MaySend(q, c0)
    requires Decided(q, c0, r, sflags, Available(q, c0), now, c, pk)
    ensures MssValid(c) && c.state == c0.state
    ensures Accounts(q.snd_nxt, c0, r, now, q, c, pk) && Answered(sflags, q.snd_nxt, c0, now, q, c, pk)
    ensures sflags != SfDuplicateAck ==> Rests(q, c)
  {
    if sflags != SfDuplicateAck {
      StillRests(q, c0, c);
    }
    if pk != [] {
      CarriesOne(pk[0]);
    }
  }

  lemma StillRests(q: SendPart, c0: Control, c: Control)
    requires q.snd_una <= q.snd_nxt <= q.End() && |q.sbuf.contents| <= SND_BUF && MssValid(c0) && !MaySend(q, c0)
    requires c == c0.(ts_lastack := c.ts_lastack, t_ack := c.t_ack)
    ensures Rests(q, c) && (Available(q, c0) > 0 ==> Waits(q, c))
  {
    RestsExactly(q, c0);
    assert Window(c) == Window(c0);
  }

  /** Sends the first unsent segment, or its first `n` bytes.  A failure closes the socket. */
  method SendNew(q0: SendPart, c0: Control, r: RecvPart, n: nat, now: u32)
    returns (q: SendPart, c: Control, ok: bool, pk: seq<Segment>)
    requires QueueValid(q0) && MssValid(c0) && 0 < n <= c0.mss && q0.snd_nxt + n <= q0.End()
    ensures QueueValid(q) && q.snd_una == q0.snd_una && q.sbuf == q0.sbuf && q0.unsent_slist != []
    ensures MssValid(c) && AllEmitted(q, r, pk)
    ensures q.snd_nxt <= q0.snd_nxt + n && Carries(pk, q0.snd_nxt, q.snd_nxt)
    ensures if ok
            then && Booked(c0, c, r, now) && |pk| == 1
                 && q.snd_nxt - q0.snd_nxt == Portion(Min(n, q0.unsent_slist[0].len), c0, c) > 0
            else pk == [] && q.snd_nxt == q0.snd_nxt && Refused(c0.(state := Closed), c)
  {
    q := q0;
    QueueSpan(q);
    if q.unsent_slist[0].len > n {
      q := SplitUnsent(q, n);
    }
    var status;
    q, c, status, pk := TransmitNew(q, c0, r, now);
    ok := status == Ok;
    if ok {
      CarriesOne(pk[0]);
    } else {
      c := c.(state := Closed);
    }
  }

  /** After an idle time the congestion window restarts at one segment. */
  method IdleReset(c0: Control, now: u32) returns (c: Control)
    ensures c == Restarted(c0, now)
  {
    c := c0;
    if TimeDiff(now, c.lastsend) > c.rx_rto {
      c := c.(cwnd := Wrap(c.mss));
    }
  }

  function Restarted(c: Control, now: u32): Control {
    if TimeDiff(now, c.lastsend) <= c.rx_rto then c else c.(cwnd := Wrap(c.mss))
  }

  /** Where the loop of `attempt_send` is, having started from `q0` and `c0` and sent `pk`. */
  predicate SentSoFar(q0: SendPart, c0: Control, r: RecvPart, q: SendPart, c: Control, pk: seq<Segment>) {
    && QueueValid(q) && q.snd_una == q0.snd_una && q.sbuf == q0.sbuf
    && MssValid(c) && TimersValid(c, q.snd_una, q.snd_nxt)
    && (c.state == c0.state || c.state == Closed) && c.snd_wnd == c0.snd_wnd
    && AllEmitted(q, r, pk)
    && q0.snd_nxt <= q.snd_nxt <= Max(q0.snd_nxt, q.snd_una + c.snd_wnd)
    && q.snd_una <= q.snd_nxt <= q.End() && |q.sbuf.contents| <= SND_BUF
  }

  /** What `attempt_send` has done since snd_nxt was `nxt`: every new byte it counts as sent has gone out
      once, in order; what was asked for is answered; and it has stopped because nothing more may go
      out, or because a transmission failed. */
  predicate Flushed(nxt: nat, c0: Control, r: RecvPart, sflags: SendFlags, now: u32, q: SendPart, c: Control, pk: seq<Segment>) {
    && Accounts(nxt, Restarted(c0, now), r, now, q, c, pk) && Answered(sflags, nxt, c0, now, q, c, pk)
    && (c.state == Closed || Rests(q, c))
  }

  /** Sends all that the windows allow.  Terminates whatever the queue and the callback. */
  method AttemptSend(q0: SendPart, c0: Control, r: RecvPart, sflags: SendFlags, now: u32)
    returns (q: SendPart, c: Control, pk: seq<Segment>)
    requires QueueValid(q0) && MssValid(c0) && TimersValid(c0, q0.snd_una, q0.snd_nxt)
    ensures SentSoFar(q0, c0, r, q, c, pk)
    ensures Flushed(q0.snd_nxt, c0, r, sflags, now, q, c, pk)
  {
    c := IdleReset(c0, now);
    q, c, pk := SendLoop(q0, c, r, sflags, now);
  }

  /** The loop of `attempt_send`. */
  method SendLoop(q0: SendPart, c0: Control, r: RecvPart, sflags: SendFlags, now: u32)
    returns (q: SendPart, c: Control, pk: seq<Segment>)
    requires QueueValid(q0) && MssValid(c0) && TimersValid(c0, q0.snd_una, q0.snd_nxt)
    ensures SentSoFar(q0, c0, r, q, c, pk)
    ensures Accounts(q0.snd_nxt, c0, r, now, q, c, pk) && Answered(sflags, q0.snd_nxt, c0, now, q, c, pk)
    ensures c.state == Closed || Rests(q, c)
  {
    q, c, pk := q0, c0, [];
    var more, flags := true, sflags;
    QueueSpan(q);
    LoopStarts(q0, c0, r, now);
    while more
      invariant SentSoFar(q0, c0, r, q, c, pk) && Accounts(q0.snd_nxt, c0, r, now, q, c, pk)
      invariant if pk == [] && more then flags == sflags && q.snd_nxt == q0.snd_nxt && c == c0
                else flags == SfNone && Answered(sflags, q0.snd_nxt, c0, now, q, c, pk)
      invariant more || c.state == Closed || Rests(q, c)
      decreases more, flags == SfDuplicateAck, q.End() - q.snd_nxt
    {
      ghost var q1, c1, pk1, flags1 := q, c, pk, flags;
      q, c, more, pk := NextRound(q, c, r, flags, pk, now);
      SentOn(q0, c0, r, q1, c1, pk1, q, c, pk);
      RoundOn(sflags, flags1, q0.snd_nxt, c0, r, now, q1, c1, pk1, q, c, pk);
      flags := SfNone;
    }
  }

  lemma LoopStarts(q: SendPart, c: Control, r: RecvPart, now: u32)
    requires QueueValid(q) && MssValid(c) && TimersValid(c, q.snd_una, q.snd_nxt)
    ensures SentSoFar(q, c, r, q, c, []) && Accounts(q.snd_nxt, c, r, now, q, c, [])
  {
    QueueSpan(q);
  }

  lemma RoundOn(sflags: SendFlags, flags: SendFlags, nxt: nat, c0: Control, r: RecvPart, now: u32,
                q1: SendPart, c1: Control, pk1: seq<Segment>, q: SendPart, c: Control, pk: seq<Segment>)
    requires Accounts(nxt, c0, r, now, q1, c1, pk1) && nxt <= q1.snd_nxt <= q.snd_nxt
    requires if pk1 == [] then flags == sflags && q1.snd_nxt == nxt && c1 == c0
             else flags == SfNone && Answered(sflags, nxt, c0, now, q1, c1, pk1)
    requires pk1 <= pk && Accounts(q1.snd_nxt, c1, r, now, q, c, pk[|pk1|..]) && c.state in {c1.state, Closed}
    requires Answered(flags, q1.snd_nxt, c1, now, q, c, pk[|pk1|..])
    ensures Accounts(nxt, c0, r, now, q, c, pk) && Answered(sflags, nxt, c0, now, q, c, pk)
  {
    AccountsOn(nxt, c0, r, now, q1, c1, pk1, q, c, pk);
    if pk1 != [] {
      AnsweredOn(sflags, nxt, c0, now, q1, c1, pk1, q, c, pk);
    } else {
      assert pk[0..] == pk;
    }
  }

  lemma SentOn(q0: SendPart, c0: Control, r: RecvPart, q1: SendPart, c1: Control, pk1: seq<Segment>,
               q: SendPart, c: Control, pk: seq<Segment>)
    requires SentSoFar(q0, c0, r, q1, c1, pk1) && SentSoFar(q1, c1, r, q, c, pk)
    ensures SentSoFar(q0, c0, r, q, c, pk)
  {
  }

  lemma AccountsOn(nxt: nat, c0: Control, r: RecvPart, now: u32, q1: SendPart, c1: Control, pk1: seq<Segment>,
                   q: SendPart, c: Control, pk: seq<Segment>)
    requires Accounts(nxt, c0, r, now, q1, c1, pk1) && nxt <= q1.snd_nxt <= q.snd_nxt && c.state in {c1.state, Closed}
    requires pk1 <= pk && Accounts(q1.snd_nxt, c1, r, now, q, c, pk[|pk1|..])
    requires pk1 == [] || Answered(SfNone, q1.snd_nxt, c1, now, q, c, pk[|pk1|..])
    ensures Accounts(nxt, c0, r, now, q, c, pk)
  {
    CarriesOn(pk1, pk[|pk1|..], nxt, q1.snd_nxt, q.snd_nxt);
    assert pk1 + pk[|pk1|..] == pk;
  }

  /** Later rounds, which are asked for nothing, leave what has been answered. */
  lemma AnsweredOn(sflags: SendFlags, nxt: nat, c0: Control, now: u32, q1: SendPart, c1: Control, pk1: seq<Segment>,
                   q: SendPart, c: Control, pk: seq<Segment>)
    requires Answered(sflags, nxt, c0, now, q1, c1, pk1) && pk1 != [] && pk1 <= pk && c.state in {c1.state, Closed}
    requires nxt <= q1.snd_nxt <= q.snd_nxt && Answered(SfNone, q1.snd_nxt, c1, now, q, c, pk[|pk1|..])
    ensures Answered(sflags, nxt, c0, now, q, c, pk)
  {
  }

  /** A round, with what it sends put behind what was sent before. */
  method NextRound(q0: SendPart, c0: Control, r: RecvPart, sflags: SendFlags, pk0: seq<Segment>, now: u32)
    returns (q: SendPart, c: Control, more: bool, pk: seq<Segment>)
    requires QueueValid(q0) && MssValid(c0) && TimersValid(c0, q0.snd_una, q0.snd_nxt) && AllEmitted(q0, r, pk0)
    ensures QueueValid(q) && q.snd_una == q0.snd_una && q.sbuf == q0.sbuf
    ensures MssValid(c) && TimersValid(c, q.snd_una, q.snd_nxt)
    ensures c.state == c0.state || (c.state == Closed && !more)
    ensures AllEmitted(q, r, pk)
    ensures q0.snd_nxt <= q.snd_nxt <= Max(q0.snd_nxt, q.snd_una + c.snd_wnd)
    ensures q.snd_una <= q.snd_nxt <= q.End() && |q.sbuf.contents| <= SND_BUF
    ensures pk0 <= pk && Accounts(q0.snd_nxt, c0, r, now, q, c, pk[|pk0|..])
    ensures Answered(sflags, q0.snd_nxt, c0, now, q, c, pk[|pk0|..])
    ensures more ==> pk != [] && (q0.snd_nxt < q.snd_nxt || sflags == SfDuplicateAck)
    ensures more || c.state == Closed || Rests(q, c)
  {
    QueueSpan(q0);
    var pk1;
    q, c, more, pk1 := SendRound(q0, c0, r, sflags, now);
    QueueSpan(q);
    AllEmittedStays(q0, q, r, pk0);
    AllEmittedConcat(q, r, pk0, pk1);
    pk := pk0 + pk1;
    assert pk[|pk0|..] == pk1;
  }
}
