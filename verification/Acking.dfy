/** Acknowledgements arriving at the pseudo-TCP socket: freeing the send queue, round-trip
    estimation, congestion control, fast retransmit and recovery. */
module Acking {
  import opened ByteFifo
  import opened SeqNum
  import opened Endpoint
  import opened SendQueue
  import opened Tcb
  import opened Sending

  /** A queue without its first `n` bytes: whole segments go, and one that is acknowledged in part keeps its rest. */
  function Freed(s: seq<SSegment>, n: nat): seq<SSegment> {
    if s == [] || n == 0 then s
    else if s[0].len <= n then Freed(s[1..], n - s[0].len)
    else [s[0].(sqn := s[0].sqn + n, len := s[0].len - n)] + s[1..]
  }

  /** Frees the first `nAcked` bytes of the queue; `flight` is its transmitted part. */
  method FreeSegments(slist0: seq<SSegment>, nAcked: nat,
                      ghost flight: seq<SSegment>, ghost unsent: seq<SSegment>, ghost una: nat, ghost nxt: nat)
    returns (slist: seq<SSegment>, ghost left: seq<SSegment>)
    requires slist0 == flight + unsent && Flying(flight, una, nxt) && una + nAcked <= nxt
    ensures slist == Freed(slist0, nAcked) && slist == left + unsent && Flying(left, una + nAcked, nxt)
  {
    slist, left := slist0, flight;
    var nFree := nAcked;
    while nFree > 0
      invariant 0 <= nFree <= nAcked && Freed(slist, nFree) == Freed(slist0, nAcked)
      invariant slist == left + unsent && Flying(left, una + nAcked - nFree, nxt)
    {
      FlyingSpan(left, una + nAcked - nFree, nxt);
      var data := slist[0];
      assert data == left[0];
      if nFree < data.len {
        slist := slist[0 := data.(len := data.len - nFree, sqn := data.sqn + nFree)];
        left := left[0 := slist[0]];
        nFree := 0;
      } else {
        nFree := nFree - data.len;
        slist := slist[1..];
        left := left[1..];
      }
    }
  }

  /** Takes note that the peer has everything before `ack`. */
  method Acked(q0: SendPart, ack: nat) returns (q: SendPart)
    requires QueueValid(q0) && q0.snd_una < ack <= q0.snd_nxt
    ensures QueueValid(q) && q.snd_una == ack && q.snd_nxt == q0.snd_nxt && q.unsent_slist == q0.unsent_slist
    ensures q.slist == Freed(q0.slist, ack - q0.snd_una)
    ensures Suffix(q.sbuf.contents, q0.sbuf.contents, ack - q0.snd_una)
  {
    QueueSpan(q0);
    var nAcked := Minus(ack, q0.snd_una);
    var slist;
    ghost var left;
    slist, left := FreeSegments(q0.slist, nAcked, Flight(q0), q0.unsent_slist, q0.snd_una, q0.snd_nxt);
    q := q0.(snd_una := ack, slist := slist, sbuf := q0.sbuf.ConsumeReadData(nAcked));
    QueueIsValid(q, left);
  }

  /** The timestamp echoed by the peer lies in the future. */
  predicate FutureEcho(now: u32, tsecr: u32) {
    tsecr != 0 && TimeDiff(now, tsecr) < 0
  }

  /** What one measurement makes of the estimates: sections 2.2 to 2.4 of RFC 6298, with the bounds of the
      code. */
  function Measured(c: Control, rtt: nat, tsecr: u32): (m: Control)
    ensures MIN_RTO <= m.rx_rto <= MAX_RTO
  {
    var first := c.rx_srtt == 0;
    var srtt := if first then rtt else (7 * c.rx_srtt + rtt) / 8;
    var rttvar := if first then rtt / 2 else (3 * c.rx_rttvar + Max(rtt - c.rx_srtt, c.rx_srtt - rtt)) / 4;
    var rto := srtt + if rttvar == 0 then 1 else 4 * rttvar;
    c.(rx_srtt := srtt, rx_rttvar := rttvar, last_acked_ts := tsecr,
       rx_rto := if rto < MIN_RTO then MIN_RTO else if rto > MAX_RTO then MAX_RTO else rto)
  }

  /** The control part once the echoed timestamp has been looked at. */
  function Timed(c: Control, now: u32, tsecr: u32): Control
    requires !FutureEcho(now, tsecr)
  {
    if tsecr == 0 then c else Measured(c, TimeDiff(now, tsecr), tsecr)
  }

  /** Round-trip estimation from an echoed timestamp. */
  method UpdateRtt(c0: Control, now: u32, tsecr: u32) returns (c: Control, ok: bool)
    requires MIN_RTO <= c0.rx_rto <= MAX_RTO
    ensures MIN_RTO <= c.rx_rto <= MAX_RTO
    ensures ok <==> !FutureEcho(now, tsecr)
    ensures c == if ok then Timed(c0, now, tsecr) else c0
  {
    c := c0;
    if tsecr == 0 {
      return c, true;
    }
    var rtt := TimeDiff(now, tsecr);
    if rtt < 0 {
      return c, false;
    }
    c := Measure(c, rtt);
    c := c.(last_acked_ts := tsecr);
    return c, true;
  }

  method Measure(c0: Control, rtt: nat) returns (c: Control)
    ensures c.(last_acked_ts := 0) == Measured(c0, rtt, 0) && c.last_acked_ts == c0.last_acked_ts
  {
    var rx_srtt, rx_rttvar := rtt, rtt / 2;
    if c0.rx_srtt != 0 {
      var change := if rtt < c0.rx_srtt then c0.rx_srtt - rtt else rtt - c0.rx_srtt;
      rx_rttvar := (3 * c0.rx_rttvar + change) / 4;
      rx_srtt := (7 * c0.rx_srtt + rtt) / 8;
    }
    c := c0.(rx_srtt := rx_srtt, rx_rttvar := rx_rttvar,
             rx_rto := Min(Max(MIN_RTO, rx_srtt + Max(1, 4 * rx_rttvar)), MAX_RTO));
  }

  /** Everything has been acknowledged, yet recovery is to go on with a retransmission. */
  predicate ResendsNothing(c: Control, una: nat, nxt: nat) {
    c.dup_acks >= 3 && una == nxt && !LargerOrEqual(una, c.recover)
  }

  /** The congestion window after a new acknowledgement: recovery ends (section 3 of RFC 3782), or slow start
      or congestion avoidance goes on (section 3.1 of RFC 5681). */
  function Opened(c: Control, una: nat, nxt: nat): Control
    requires una <= nxt && c.ssthresh > 0
  {
    if c.dup_acks >= 3 then
      c.(dup_acks := 0, fast_recovery := false, cwnd := Wrap(Min(c.ssthresh, c.mss + Max(c.mss, nxt - una))))
    else if c.cwnd >= c.ssthresh then c.(dup_acks := 0, cwnd := Wrap(c.cwnd + Max(c.mss * c.mss / c.cwnd, 1)))
    else c.(dup_acks := 0, cwnd := Wrap(c.mss + c.cwnd))
  }

  /** Congestion control after a new acknowledgement; says whether recovery goes on, with a
      retransmission of the head of the queue.  No division by zero. */
  method Progress(c0: Control, una: nat, nxt: nat) returns (c: Control, resend: bool)
    requires una <= nxt <= una + SND_BUF && c0.ssthresh > 0
    ensures resend <==> c0.dup_acks >= 3 && !LargerOrEqual(una, c0.recover)
    ensures resend && una == nxt <==> ResendsNothing(c0, una, nxt)
    ensures c == if resend then c0 else Opened(c0, una, nxt)
  {
    c, resend := c0, false;
    if c.dup_acks >= 3 {
      if LargerOrEqual(una, c.recover) {
        var nInFlight := Minus(nxt, una);
        c := c.(cwnd := Wrap(Min(c.ssthresh, Max(nInFlight, c.mss) + c.mss)), fast_recovery := false, dup_acks := 0);
      } else {
        resend := true;
      }
    } else {
      c := c.(dup_acks := 0);
      if c.cwnd < c.ssthresh {
        c := c.(cwnd := Wrap(c.cwnd + c.mss));
      } else {
        c := c.(cwnd := Wrap(c.cwnd + Max(1, c.mss * c.mss / c.cwnd)));
      }
    }
  }

  /** The test whether everything up to `recover` has been acknowledged is right exactly as long as
      snd_una is not more than 2^31 - 2 past it; after that it says no. */
  lemma StaleRecover(una: nat, recover: nat)
    requires recover <= una < recover + MODULUS
    ensures LargerOrEqual(una, recover) <==> una <= recover + HALF - 2
  {
    LargerOrEqualAgreesExactly(una, recover);
  }

  /** So with `recover` less than 2^32 behind, the code retransmits with nothing in flight exactly when
      three duplicates were counted and `recover` is more than 2^31 - 2 behind. */
  lemma ResendsNothingExactly(c: Control, una: nat, nxt: nat)
    requires c.recover <= una < c.recover + MODULUS
    ensures ResendsNothing(c, una, nxt) <==> c.dup_acks >= 3 && una == nxt && c.recover + HALF - 2 < una
  {
    StaleRecover(una, c.recover);
  }

  /** The congestion window before it was set anew, after a transmission from `c0` that led to `c`. */
  function Unset(c0: Control, c: Control): nat {
    if c.msslevel == c0.msslevel then c0.cwnd else 2 * c.mss
  }

  /** A partial acknowledgement of `n` bytes in recovery: the head is sent again and the congestion window
      deflated (section 3 of RFC 3782). */
  predicate Deflated(c0: Control, c: Control, r: RecvPart, n: nat, now: u32) {
    && MssValid(c) && Booked(c0, c.(cwnd := Unset(c0, c)), r, now)
    && c.cwnd == Wrap(Unset(c0, c) + (if n > c.mss then c.mss else 0) - Min(n, Unset(c0, c)))
  }

  /** Everything that an acknowledgement of new data does. */
  predicate NewAcked(q0: SendPart, c0: Control, r: RecvPart, seg: Segment, now: u32,
                     q: SendPart, c: Control, ok: bool, pk: seq<Segment>)
    requires q0.snd_una < seg.ack <= q0.snd_nxt && c0.ssthresh > 0
  {
    var c1 := c0.(snd_wnd := seg.wnd, rto_base := if seg.ack == q0.snd_nxt then 0 else now);
    if c0.dup_acks < 3 || LargerOrEqual(seg.ack, c0.recover) then
      ok && pk == [] && c == Opened(c1, seg.ack, q0.snd_nxt)
    else if ok then |pk| == 1 && pk[0].sqn == seg.ack && pk[0].data != [] && Deflated(c1, c, r, seg.ack - q0.snd_una, now)
    else pk == [] && c.state == Closed
  }

  /** An acknowledgement of new data. */
  method NewAck(q0: SendPart, c0: Control, r: RecvPart, seg: Segment, now: u32)
    returns (q: SendPart, c: Control, ok: bool, pk: seq<Segment>)
    requires QueueValid(q0) && MssValid(c0) && TimersValid(c0, q0.snd_una, q0.snd_nxt)
    requires q0.snd_una < seg.ack <= q0.snd_nxt && !ResendsNothing(c0, seg.ack, q0.snd_nxt)
    ensures QueueValid(q) && MssValid(c) && TimersValid(c, q.snd_una, q.snd_nxt)
    ensures q.snd_una == seg.ack && q.snd_nxt == q0.snd_nxt
    ensures Suffix(q.sbuf.contents, q0.sbuf.contents, seg.ack - q0.snd_una)
    ensures c.snd_wnd == seg.wnd && c.mtu_advise == c0.mtu_advise && c.recover == c0.recover
    ensures c.state == if ok then c0.state else Closed
    ensures NewAcked(q0, c0, r, seg, now, q, c, ok, pk)
    ensures AllEmitted(q, r, pk)
  {
    QueueSpan(q0);
    c, ok, pk := c0.(snd_wnd := seg.wnd), true, [];
    var nAcked := Minus(seg.ack, q0.snd_una);
    q := Acked(q0, seg.ack);
    c := c.(rto_base := if q.snd_una == q.snd_nxt then 0 else now);
    q, c, ok, pk := GoOn(q, c, r, nAcked, now);
  }

  /** Congestion control, with the retransmission that it may call for. */
  method GoOn(q0: SendPart, c0: Control, r: RecvPart, nAcked: nat, now: u32)
    returns (q: SendPart, c: Control, ok: bool, pk: seq<Segment>)
    requires QueueValid(q0) && MssValid(c0) && TimersValid(c0, q0.snd_una, q0.snd_nxt)
    requires !ResendsNothing(c0, q0.snd_una, q0.snd_nxt) && q0.snd_una <= q0.snd_nxt <= q0.snd_una + SND_BUF
    ensures QueueValid(q) && MssValid(c) && TimersValid(c, q.snd_una, q.snd_nxt) && q == q0.(slist := q.slist)
    ensures AllEmitted(q, r, pk) && c.state == (if ok then c0.state else Closed)
    ensures c.snd_wnd == c0.snd_wnd && c.mtu_advise == c0.mtu_advise && c.recover == c0.recover
    ensures if c0.dup_acks < 3 || LargerOrEqual(q0.snd_una, c0.recover)
            then ok && pk == [] && c == Opened(c0, q0.snd_una, q0.snd_nxt)
            else if ok then |pk| == 1 && pk[0].sqn == q0.snd_una && pk[0].data != [] && Deflated(c0, c, r, nAcked, now)
            else pk == []
  {
    q, ok, pk := q0, true, [];
    var resend;
    c, resend := Progress(c0, q.snd_una, q.snd_nxt);
    if resend {
      q, c, ok, pk := ResendPartial(q, c, r, nAcked, now);
    }
  }

  /** The retransmission that a partial acknowledgement brings about. */
  method ResendPartial(q0: SendPart, c0: Control, r: RecvPart, nAcked: nat, now: u32)
    returns (q: SendPart, c: Control, ok: bool, pk: seq<Segment>)
    requires QueueValid(q0) && MssValid(c0) && TimersValid(c0, q0.snd_una, q0.snd_nxt) && q0.snd_una < q0.snd_nxt
    ensures QueueValid(q) && MssValid(c) && TimersValid(c, q.snd_una, q.snd_nxt) && q == q0.(slist := q.slist)
    ensures AllEmitted(q, r, pk) && c.state == if ok then c0.state else Closed
    ensures if ok then |pk| == 1 && pk[0].sqn == q.snd_una && pk[0].data != [] && Deflated(c0, c, r, nAcked, now)
            else pk == [] && Refused(c0.(state := Closed), c)
  {
    var status;
    q, c, status, pk := Retransmit(q0, c0, r, now);
    ok := status == Ok;
    if ok {
      c := c.(cwnd := Wrap(c.cwnd + (if nAcked > c.mss then c.mss else 0) - Min(nAcked, c.cwnd)));
    } else {
      c := c.(state := Closed);
    }
  }

  /** A third duplicate in a row that starts fast retransmit: sections 3 and 4.2 of RFC 3782. */
  predicate StartsRecovery(c: Control, una: nat, nxt: nat, seg: Segment) {
    && seg.data == [] && una != nxt && (c.dup_acks + 1) % 256 == 3
    && (LargerOrEqual(una, c.recover) || seg.tsecr == c.last_acked_ts)
  }

  /** The control part after a repeated acknowledgement, unless it starts fast retransmit: duplicates without
      data are counted while something is in flight, and those past the third inflate the congestion
      window in recovery. */
  function Counted(c: Control, una: nat, nxt: nat, seg: Segment): Control {
    if seg.data != [] then c
    else if una == nxt then c.(dup_acks := 0)
    else
      var d := (c.dup_acks + 1) % 256;
      c.(dup_acks := d, cwnd := if c.fast_recovery && 3 < d then Wrap(c.mss + c.cwnd) else c.cwnd)
  }

  /** Counts a duplicate acknowledgement; says whether it starts fast retransmit. */
  method CountDuplicate(c0: Control, una: nat, nxt: nat, seg: Segment) returns (c: Control, resend: bool)
    ensures resend <==> StartsRecovery(c0, una, nxt, seg)
    ensures c == Counted(c0, una, nxt, seg)
  {
    c, resend := c0, false;
    if seg.data != [] {
    } else if una != nxt {
      c := c.(dup_acks := (c.dup_acks + 1) % 256);
      if c.dup_acks == 3 {
        resend := LargerOrEqual(una, c.recover) || seg.tsecr == c.last_acked_ts;
      } else if c.dup_acks > 3 && c.fast_recovery {
        c := c.(cwnd := Wrap(c.cwnd + c.mss));
      }
    } else {
      c := c.(dup_acks := 0);
    }
  }

  /** Everything that a repeated acknowledgement does. */
  predicate Repeats(q0: SendPart, c0: Control, r: RecvPart, seg: Segment, now: u32,
                    q: SendPart, c: Control, ok: bool, pk: seq<Segment>) {
    var c1 := Counted(c0.(snd_wnd := seg.wnd), q0.snd_una, q0.snd_nxt, seg);
    if !StartsRecovery(c0, q0.snd_una, q0.snd_nxt, seg) then ok && q == q0 && c == c1 && pk == []
    else if ok then |pk| == 1 && pk[0].sqn == q.snd_una && pk[0].data != [] && Recovers(c1, c, r, q.snd_nxt - q.snd_una, q.snd_nxt, now)
    else pk == [] && q == q0 && c.state == Closed
  }

  /** Fast retransmit has started with `n` bytes in flight: section 3 of RFC 3782. */
  predicate Recovers(c0: Control, c: Control, r: RecvPart, n: int, nxt: nat, now: u32) {
    && MssValid(c) && n >= 0 && c.ssthresh == Max(n / 2, 2 * c.mss) && c.cwnd == Wrap(c.ssthresh + 3 * c.mss)
    && c.recover == nxt && c.fast_recovery
    && Booked(c0, c.(recover := c0.recover, ssthresh := c0.ssthresh, fast_recovery := c0.fast_recovery, cwnd := Unset(c0, c)), r, now)
  }

  /** A repeated acknowledgement. */
  method DuplicateAck(q0: SendPart, c0: Control, r: RecvPart, seg: Segment, now: u32)
    returns (q: SendPart, c: Control, ok: bool, pk: seq<Segment>)
    requires QueueValid(q0) && MssValid(c0) && TimersValid(c0, q0.snd_una, q0.snd_nxt)
    ensures QueueValid(q) && MssValid(c) && TimersValid(c, q.snd_una, q.snd_nxt)
    ensures q == q0.(slist := q.slist)
    ensures Repeats(q0, c0, r, seg, now, q, c, ok, pk)
    ensures c.snd_wnd == seg.wnd && c.mtu_advise == c0.mtu_advise
    ensures c.state == if ok then c0.state else Closed
    ensures c.recover == c0.recover || c.recover == q.snd_nxt
    ensures AllEmitted(q, r, pk)
  {
    QueueSpan(q0);
    q, ok, pk := q0, true, [];
    var resend;
    c, resend := CountDuplicate(c0.(snd_wnd := seg.wnd), q.snd_una, q.snd_nxt, seg);
    if resend {
      q, c, ok, pk := EnterRecovery(q, c, r, now);
    }
  }

  /** Three empty duplicates in a row.  They leave the socket where the acknowledgement of all that is in
      flight makes it retransmit nothing exactly when they do not start fast retransmit: the third does
      not echo `last_acked_ts`, and `recover` is stale. */
  method ThreeDuplicates(q0: SendPart, c0: Control, r: RecvPart, seg: Segment, now: u32)
    returns (q: SendPart, c: Control, ok: bool, pk: seq<Segment>)
    requires QueueValid(q0) && MssValid(c0) && TimersValid(c0, q0.snd_una, q0.snd_nxt)
    requires q0.snd_una < q0.snd_nxt && c0.dup_acks == 0 && seg.data == []
    ensures QueueValid(q) && MssValid(c) && TimersValid(c, q.snd_una, q.snd_nxt) && q == q0.(slist := q.slist)
    ensures ok && ResendsNothing(c, q.snd_nxt, q.snd_nxt) <==>
              seg.tsecr != c0.last_acked_ts && Stale(c0, q0.snd_una, q0.snd_nxt)
  {
    q, c, ok, pk := DuplicateAck(q0, c0, r, seg, now);
    q, c, ok, pk := DuplicateAck(q, c, r, seg, now);
    q, c, ok, pk := DuplicateAck(q, c, r, seg, now);
  }

  /** Both ends of the flight compare as below `recover`. */
  predicate Stale(c: Control, una: nat, nxt: nat) {
    !LargerOrEqual(una, c.recover) && !LargerOrEqual(nxt, c.recover)
  }

  lemma StaleExactly(c: Control, una: nat, nxt: nat)
    requires c.recover <= una <= nxt < c.recover + MODULUS
    ensures Stale(c, una, nxt) <==> c.recover + HALF - 2 < una
  {
    StaleRecover(una, c.recover);
    StaleRecover(nxt, c.recover);
  }

  /** It does happen: no recovery since the start, 2^31 - 1 bytes acknowledged and one more in flight. */
  method ResendsNothingHappens(q0: SendPart, c0: Control, r: RecvPart, seg: Segment, now: u32)
    returns (q: SendPart, c: Control)
    requires QueueValid(q0) && MssValid(c0) && TimersValid(c0, HALF - 1, HALF)
    requires q0.snd_una == HALF - 1 && q0.snd_nxt == HALF && c0.dup_acks == 0 && c0.recover == 0
    requires seg.data == [] && seg.tsecr != c0.last_acked_ts
    ensures q.snd_una == HALF - 1 && q.snd_nxt == HALF && ResendsNothing(c, HALF, HALF)
  {
    StaleExactly(c0, HALF - 1, HALF);
    var ok, pk;
    q, c, ok, pk := ThreeDuplicates(q0, c0, r, seg, now);
  }

  /** Fast retransmit: the first unacknowledged bytes go out again, and recovery lasts until all that
      is in flight now has been acknowledged. */
  method EnterRecovery(q0: SendPart, c0: Control, r: RecvPart, now: u32)
    returns (q: SendPart, c: Control, ok: bool, pk: seq<Segment>)
    requires QueueValid(q0) && MssValid(c0) && TimersValid(c0, q0.snd_una, q0.snd_nxt) && q0.snd_una < q0.snd_nxt
    ensures QueueValid(q) && MssValid(c) && TimersValid(c, q.snd_una, q.snd_nxt)
    ensures q == q0.(slist := q.slist) && AllEmitted(q, r, pk)
    ensures c.snd_wnd == c0.snd_wnd && c.mtu_advise == c0.mtu_advise && c.state == if ok then c0.state else Closed
    ensures if ok
            then |pk| == 1 && pk[0].sqn == q.snd_una && pk[0].data != []
                 && Recovers(c0, c, r, q.snd_nxt - q.snd_una, q.snd_nxt, now)
            else pk == [] && q == q0 && Refused(c0.(state := Closed), c)
  {
    var status;
    q, c, status, pk := Retransmit(q0, c0, r, now);
    ok := status == Ok;
    if ok {
      var nInFlight := Minus(q.snd_nxt, q.snd_una);
      var ssthresh := Max(nInFlight / 2, 2 * c.mss);
      c := c.(recover := q.snd_nxt, ssthresh := ssthresh, cwnd := Wrap(ssthresh + 3 * c.mss), fast_recovery := true);
    } else {
      c := c.(state := Closed);
    }
  }

  /** The numbers of the acknowledgement are close enough to this end's for 32-bit comparison, and
      it does not make the code retransmit what is not there. */
  predicate AckInRange(q: SendPart, c: Control, ack: nat) {
    && -HALF < ack - q.snd_una < HALF - 1 && -HALF < ack - q.snd_nxt < HALF - 1
    && (q.snd_una < ack ==> !ResendsNothing(c, ack, q.snd_nxt))
  }

  /** The acknowledgement in a segment counts: a repetition, or of new data with a sound echo. */
  predicate Counts(q: SendPart, seg: Segment, now: u32) {
    seg.ack == q.snd_una || (q.snd_una < seg.ack <= q.snd_nxt && !FutureEcho(now, seg.tsecr))
  }

  datatype AckKind = NewData | Repeated | Useless

  /** The code's 32-bit classification of an acknowledgement, and what it means. */
  function Classify(una: nat, nxt: nat, ack: nat): (k: AckKind)
    requires una <= nxt <= una + SND_BUF
    requires -HALF < ack - una < HALF - 1 && -HALF < ack - nxt < HALF - 1
    ensures k == NewData <==> una < ack <= nxt
    ensures k == Repeated <==> ack == una
  {
    if Larger(ack, una) && SmallerOrEqual(ack, nxt) then NewData
    else if Wrap(ack) == Wrap(una) then WrapIsInjective(ack, una); Repeated
    else Useless
  }

  /** Everything that the acknowledgement in a segment does. */
  predicate AckDone(q0: SendPart, c0: Control, r: RecvPart, seg: Segment, now: u32,
                    q: SendPart, c: Control, ok: bool, pk: seq<Segment>)
    requires c0.ssthresh > 0
  {
    if q0.snd_una < seg.ack <= q0.snd_nxt then
      if FutureEcho(now, seg.tsecr) then !ok && q == q0 && c == c0 && pk == []
      else q.snd_una == seg.ack && NewAcked(q0, Timed(c0, now, seg.tsecr), r, seg, now, q, c, ok, pk)
    else if seg.ack == q0.snd_una then Repeats(q0, c0, r, seg, now, q, c, ok, pk)
    else ok && q == q0 && c == c0 && pk == []
  }

  /** A segment's acknowledgement moves snd_una and sets snd_wnd exactly when it counts. */
  method ProcessAck(q0: SendPart, c0: Control, r: RecvPart, seg: Segment, now: u32)
    returns (q: SendPart, c: Control, ok: bool, pk: seq<Segment>)
    requires QueueValid(q0) && MssValid(c0) && TimersValid(c0, q0.snd_una, q0.snd_nxt)
    requires AckInRange(q0, c0, seg.ack)
    ensures QueueValid(q) && MssValid(c) && TimersValid(c, q.snd_una, q.snd_nxt)
    ensures q.snd_nxt == q0.snd_nxt
    ensures if Counts(q0, seg, now) then q.snd_una == seg.ack && c.snd_wnd == seg.wnd
            else q.snd_una == q0.snd_una && c.snd_wnd == c0.snd_wnd
    ensures Suffix(q.sbuf.contents, q0.sbuf.contents, q.snd_una - q0.snd_una)
    ensures if ok || (q0.snd_una < seg.ack <= q0.snd_nxt && FutureEcho(now, seg.tsecr)) then c.state == c0.state
            else c.state == Closed
    ensures c.mtu_advise == c0.mtu_advise && (c.recover == c0.recover || c.recover == q.snd_nxt)
    ensures AckDone(q0, c0, r, seg, now, q, c, ok, pk)
    ensures AllEmitted(q, r, pk)
  {
    QueueSpan(q0);
    q, c, ok, pk := q0, c0, true, [];
    match Classify(q.snd_una, q.snd_nxt, seg.ack) {
      case NewData =>
        c, ok := UpdateRtt(c, now, seg.tsecr);
        if ok {
          q, c, ok, pk := NewAck(q, c, r, seg, now);
        }
      case Repeated =>
        q, c, ok, pk := DuplicateAck(q, c, r, seg, now);
      case Useless =>
    }
  }
}
