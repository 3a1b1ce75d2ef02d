/** The pseudo-TCP socket as an object: its record, the two byte streams it stands for, and the
    proof that each call is a `Step`. */
module Socket {
  import opened ByteFifo
  import opened SeqNum
  import opened Endpoint
  import opened SendQueue
  import opened Tcb
  import opened Sending
  import opened Acking
  import opened Receiving
  import opened Processing

  /** The history of a socket: bytes queued, accepted in order and handed to the application, and
      segments given to the network. */
  datatype History = History(out: seq<byte>, inp: seq<byte>, taken: seq<byte>, sent: seq<Segment>)

  ghost function ViewOf(s: SendPart, r: RecvPart, c: Control, h: History): View {
    View.View(h.out, s.snd_una, s.snd_nxt, c.snd_wnd, h.inp, Held(r), r.rcv_wnd, |r.rbuf.free|, h.taken, h.sent)
  }

  predicate OutMatches(s: SendPart, out: seq<byte>) {
    Suffix(s.sbuf.contents, out, s.snd_una)
  }

  /** The CONNECT message is not handed to the application; what follows it is. */
  predicate InMatches(r: RecvPart, inp: seq<byte>, taken: seq<byte>) {
    && |inp| == r.rcv_nxt
    && if r.rcv_nxt < CTL_LEN then taken == [] else Suffix(taken + r.rbuf.contents, inp, CTL_LEN)
  }

  /* ---------- sending ---------- */

  lemma EmitsOnWire(s: SendPart, r: RecvPart, out: seq<byte>, ack: nat, edge: nat, g: Segment)
    requires Emits(s, r, g) && OutMatches(s, out)
    requires r.rcv_nxt <= ack && r.rcv_nxt + r.rcv_wnd <= edge
    ensures OnWire(out, s.snd_nxt, ack, edge, g)
  {
    if g.data != [] {
      var at := g.sqn - s.snd_una;
      forall i | 0 <= i < |g.data| ensures g.data[i] == out[g.sqn + i] {
        assert g.data[i] == s.sbuf.contents[at + i] == ByteAt(s.sbuf.contents, s.snd_una, g.sqn + i);
      }
    }
  }

  lemma AllEmittedOnWire(s: SendPart, r: RecvPart, out: seq<byte>, ack: nat, edge: nat, pk: seq<Segment>)
    requires AllEmitted(s, r, pk) && OutMatches(s, out)
    requires r.rcv_nxt <= ack && r.rcv_nxt + r.rcv_wnd <= edge
    ensures forall i :: 0 <= i < |pk| ==> OnWire(out, s.snd_nxt, ack, edge, pk[i])
  {
    forall i | 0 <= i < |pk| ensures OnWire(out, s.snd_nxt, ack, edge, pk[i]) {
      AllEmittedAt(s, r, pk, i);
      EmitsOnWire(s, r, out, ack, edge, pk[i]);
    }
  }

  /** Segments sent before and after the receiving part changed. */
  lemma SendsBoth(v: View, v': View, s: SendPart, r0: RecvPart, r: RecvPart, pk: seq<Segment>, pk': seq<Segment>)
    requires AllEmitted(s, r0, pk) && AllEmitted(s, r, pk') && OutMatches(s, v'.out)
    requires v'.nxt == s.snd_nxt && v'.sent == v.sent + pk + pk'
    requires |v.inp| == r0.rcv_nxt && v.rwnd == r0.rcv_wnd && |v'.inp| == r.rcv_nxt && v'.rwnd == r.rcv_wnd
    requires |v.inp| <= |v'.inp|
    requires v.nxt <= v'.nxt <= Max(v.nxt, v'.una + v'.wnd)
    ensures Sends(v, v')
  {
    var edge := Max(v.Edge(), v'.Edge());
    AllEmittedOnWire(s, r0, v'.out, |v'.inp|, edge, pk);
    AllEmittedOnWire(s, r, v'.out, |v'.inp|, edge, pk');
    forall i | |v.sent| <= i < |v'.sent| ensures Honest(v', edge, v'.sent[i]) {
      var j := i - |v.sent|;
      assert v'.sent[i] == if j < |pk| then pk[j] else pk'[j - |pk|];
    }
  }

  lemma OutGrows(s0: SendPart, s: SendPart, out: seq<byte>, added: seq<byte>)
    requires OutMatches(s0, out) && Keeping(s0, s, added)
    ensures OutMatches(s, out + added)
  {
    var k := s.snd_una - s0.snd_una;
    forall p | s.snd_una <= p < |out + added| ensures ByteAt(s.sbuf.contents, s.snd_una, p) == (out + added)[p] {
      assert ByteAt(s.sbuf.contents, k, p - s0.snd_una) == (s0.sbuf.contents + added)[p - s0.snd_una];
      if p < |out| {
        assert ByteAt(s0.sbuf.contents, s0.snd_una, p) == out[p];
      }
    }
  }

  /* ---------- receiving ---------- */

  /** The bytes that a segment adds to the in-order stream. */
  ghost function Arrived(r: RecvPart, seg: Segment): seq<byte> {
    if seg.ctl then
      (if seg.sqn <= r.rcv_nxt < seg.sqn + |seg.data| then From(seg.data, r.rcv_nxt - seg.sqn) else [])
    else Drain(AcceptedBy(r, seg.sqn, seg.data), r.rcv_nxt)
  }

  lemma InGrows(r0: RecvPart, r: RecvPart, seg: Segment, inp: seq<byte>, taken: seq<byte>)
    requires RecvValid(r0) && Took(r0, r, seg) && InMatches(r0, inp, taken)
    requires seg.ctl ==> seg.sqn + |seg.data| <= CTL_LEN
    requires !seg.ctl && seg.data != [] ==> CTL_LEN <= r0.rcv_nxt
    ensures InMatches(r, inp + Arrived(r0, seg), taken)
  {
    if !seg.ctl {
      var run := Arrived(r0, seg);
      if r0.rcv_nxt < CTL_LEN {
        assert !Covers(r0.rlist, r0.rcv_nxt);
        DrainIsFirstGap(AcceptedBy(r0, seg.sqn, seg.data), r0.rcv_nxt, []);
      } else {
        var now := taken + r.rbuf.contents;
        assert now == (taken + r0.rbuf.contents) + run;
        forall p | CTL_LEN <= p < |inp + run| ensures ByteAt(now, CTL_LEN, p) == (inp + run)[p] {
          if p < |inp| {
            assert ByteAt(taken + r0.rbuf.contents, CTL_LEN, p) == inp[p];
          }
        }
      }
    }
  }

  lemma AbsorbedAbsorbs(v: View, v': View, r0: RecvPart, r: RecvPart, seg: Segment)
    requires RecvValid(r0) && RecvValid(r) && !seg.ctl && Absorbed(r0, r, AcceptedBy(r0, seg.sqn, seg.data))
    requires |v.inp| == r0.rcv_nxt && v.held == Held(r0) && v.rwnd == r0.rcv_wnd && v.space == |r0.rbuf.free|
    requires v'.inp == v.inp + Arrived(r0, seg) && v'.held == Held(r) && v'.rwnd == r.rcv_wnd && v'.space == |r.rbuf.free|
    requires v'.taken == v.taken
    ensures Absorbs(v, v', seg)
  {
    assert Accepted(v, seg) == AcceptedBy(r0, seg.sqn, seg.data);
  }

  lemma MatchesInOrder(r: RecvPart, inp: seq<byte>, taken: seq<byte>)
    requires InMatches(r, inp, taken)
    ensures taken == [] || (CTL_LEN + |taken| <= |inp| && taken == inp[CTL_LEN..CTL_LEN + |taken|])
  {
    forall i | 0 <= i < |taken| ensures taken[i] == inp[CTL_LEN + i] {
      assert taken[i] == ByteAt(taken + r.rbuf.contents, CTL_LEN, CTL_LEN + i);
    }
  }

  /* ---------- the object ---------- */

  ghost predicate Good(s: SendPart, r: RecvPart, c: Control, h: History) {
    SendValid(s, c) && RecvValid(r) && Matches(s, r, h)
  }

  /** The buffers hold the ends of the streams. */
  predicate Matches(s: SendPart, r: RecvPart, h: History) {
    && OutMatches(s, h.out) && InMatches(r, h.inp, h.taken)
    && (h.out == [] || CONNECT <= h.out)
  }

  lemma ProcessIsStep(s0: SendPart, r0: RecvPart, c0: Control, h0: History,
                      s: SendPart, r: RecvPart, c: Control, h: History,
                      seg: Segment, ok: bool, added: seq<byte>, pk: seq<Segment>, pk': seq<Segment>)
    requires Matches(s0, r0, h0) && RecvValid(r0) && RecvValid(r) && s.snd_nxt <= s.End()
    requires seg.ctl ==> seg.sqn + |seg.data| <= CTL_LEN
    requires !seg.ctl && seg.data != [] ==> CTL_LEN <= r0.rcv_nxt
    requires s0.snd_nxt <= s.snd_nxt <= Max(s0.snd_nxt, s.snd_una + c.snd_wnd) && WindowMoves(s0, c0, s, c, seg)
    requires Keeping(s0, s, added) && (added == [] || (added == CONNECT && s0.End() == 0))
    requires AllEmitted(s, r0, pk) && AllEmitted(s, r, pk')
    requires if ok then Took(r0, r, seg) else r == r0
    requires h == History(h0.out + added, h0.inp + (if ok then Arrived(r0, seg) else []), h0.taken, h0.sent + pk + pk')
    ensures Matches(s, r, h)
    ensures Step(ViewOf(s0, r0, c0, h0), ViewOf(s, r, c, h), [seg])
  {
    var v, v' := ViewOf(s0, r0, c0, h0), ViewOf(s, r, c, h);
    OutGrows(s0, s, h0.out, added);
    ProcessReceives(v, v', r0, r, h0, h, seg, ok);
    SendsBoth(v, v', s, r0, r, pk, pk');
    MatchesInOrder(r, h.inp, h.taken);
  }

  lemma ProcessReceives(v: View, v': View, r0: RecvPart, r: RecvPart, h0: History, h: History, seg: Segment, ok: bool)
    requires RecvValid(r0) && RecvValid(r) && InMatches(r0, h0.inp, h0.taken)
    requires seg.ctl ==> seg.sqn + |seg.data| <= CTL_LEN
    requires !seg.ctl && seg.data != [] ==> CTL_LEN <= r0.rcv_nxt
    requires if ok then Took(r0, r, seg) else r == r0
    requires h.inp == h0.inp + (if ok then Arrived(r0, seg) else []) && h.taken == h0.taken
    requires v.inp == h0.inp && v.held == Held(r0) && v.rwnd == r0.rcv_wnd && v.space == |r0.rbuf.free| && v.taken == h0.taken
    requires v'.inp == h.inp && v'.held == Held(r) && v'.rwnd == r.rcv_wnd && v'.space == |r.rbuf.free| && v'.taken == h.taken
    ensures Receives(v, v', [seg]) && InMatches(r, h.inp, h.taken) && |h0.inp| <= |h.inp|
  {
    if ok {
      InGrows(r0, r, seg, h0.inp, h0.taken);
      if seg.ctl {
      } else {
        AbsorbedAbsorbs(v, v', r0, r, seg);
      }
    } else {
      assert h.inp == h0.inp;
    }
  }

  /** A call by the application or the clock: `n` bytes are read, `added` are queued. */
  lemma CallIsStep(s0: SendPart, r0: RecvPart, c0: Control, h0: History,
                   s: SendPart, r: RecvPart, c: Control, h: History,
                   n: nat, added: seq<byte>, pk: seq<Segment>)
    requires Matches(s0, r0, h0) && RecvValid(r0) && RecvValid(r) && s.snd_nxt <= s.End()
    requires s0.snd_nxt <= s.snd_nxt <= Max(s0.snd_nxt, s.snd_una + c.snd_wnd)
    requires s.snd_una == s0.snd_una && s.sbuf.contents == s0.sbuf.contents + added
    requires c.snd_wnd == c0.snd_wnd || (s.snd_una == 0 && c.snd_wnd == CTL_LEN)
    requires s0.End() == 0 ==> added == [] || added == CONNECT
    requires AllEmitted(s, r, pk)
    requires n <= |r0.rbuf.contents| && r.rbuf == r0.rbuf.ConsumeReadData(n)
    requires r == r0.(rbuf := r.rbuf, rcv_wnd := r.rcv_wnd) && (r.rcv_wnd == r0.rcv_wnd || r.rcv_wnd == |r.rbuf.free|)
    requires h == History(h0.out + added, h0.inp, h0.taken + r0.rbuf.contents[..n], h0.sent + pk)
    ensures Matches(s, r, h)
    ensures Step(ViewOf(s0, r0, c0, h0), ViewOf(s, r, c, h), [])
  {
    var v, v' := ViewOf(s0, r0, c0, h0), ViewOf(s, r, c, h);
    OutGrows(s0, s, h0.out, added);
    assert (h0.taken + r0.rbuf.contents[..n]) + r0.rbuf.contents[n..] == h0.taken + r0.rbuf.contents;
    ReadKeepsHeld(r0, r, n);
    assert h0.sent + pk == h0.sent + [] + pk;
    SendsBoth(v, v', s, r0, r, [], pk);
    MatchesInOrder(r, h.inp, h.taken);
  }

  /** Reading leaves staged bytes in place. */
  lemma ReadKeepsHeld(r0: RecvPart, r: RecvPart, n: nat)
    requires RecvValid(r0) && n <= |r0.rbuf.contents| && r.rbuf == r0.rbuf.ConsumeReadData(n)
    requires r.rlist == r0.rlist && r.rcv_nxt == r0.rcv_nxt
    ensures Held(r) == Held(r0)
  {
  }

  /** An arriving segment, with the history it makes. */
  method Handle(s0: SendPart, r0: RecvPart, c0: Control, ghost h0: History, seg: Segment, now: u32)
    returns (s: SendPart, r: RecvPart, c: Control, ok: bool, pk: seq<Segment>, pk': seq<Segment>, ghost h: History)
    requires Good(s0, r0, c0, h0) && InScope(s0, r0, c0, seg)
    ensures Good(s, r, c, h) && Step(ViewOf(s0, r0, c0, h0), ViewOf(s, r, c, h), [seg])
    ensures h.taken == h0.taken && h.sent == h0.sent + pk + pk'
    ensures h.inp == h0.inp + if ok then Arrived(r0, seg) else []
    ensures SegmentDone(s0, r0, c0, seg, now, s, r, c, ok, pk, pk') && c.state in {Closed, StateAfter(c0.state, seg, ok)}
  {
    ghost var added := if c0.state == Closed then [] else Handshake(c0, seg);
    s, r, c, ok, pk, pk' := ProcessSegment(s0, r0, c0, seg, now);
    h := History(h0.out + added, h0.inp + (if ok then Arrived(r0, seg) else []), h0.taken, h0.sent + pk + pk');
    QueueSpan(s);
    ProcessIsStep(s0, r0, c0, h0, s, r, c, h, seg, ok, added, pk, pk');
  }

  /** The record as `pseudo_tcp_socket_init` leaves it. */
  method Initial() returns (s: SendPart, r: RecvPart, c: Control)
    ensures Good(s, r, c, History([], [], [], [])) && c.state == Listen
    ensures c.mss == MIN_PACKET - PACKET_OVERHEAD && c.msslevel == 0 && c.mtu_advise == DEF_MTU
    ensures c.cwnd == 2 * c.mss && c.ssthresh == RCV_BUF && c.dup_acks == 0 && c.recover == 0 && !c.fast_recovery
    ensures c.rx_rto == DEF_RTO && c.rx_srtt == 0 && c.rx_rttvar == 0 && c.rto_base == 0 && c.t_ack == 0
    ensures c.ts_recent == 0 && c.ts_lastack == 0 && c.last_acked_ts == 0 && c.lastsend == 0 && c.lastrecv == 0
    ensures c.use_nagling && c.ack_delay == DEFAULT_ACK_DELAY
    ensures ViewOf(s, r, c, History([], [], [], [])) == View.View([], 0, 0, 1, [], map[], RCV_BUF, RCV_BUF, [], [])
  {
    s := SendPart([], [], 0, 0, ByteQueue([], seq(SND_BUF, _ => 0)));
    r := RecvPart([], 0, RCV_BUF, ByteQueue([], seq(RCV_BUF, _ => 0)));
    c := Control(Listen, 1, MIN_PACKET - PACKET_OVERHEAD, 0, DEF_MTU,
                 0, 0, 0, 0, 0, DEF_RTO,
                 RCV_BUF, 2 * (MIN_PACKET - PACKET_OVERHEAD), 0, 0, false,
                 0, 0, 0, 0, true, DEFAULT_ACK_DELAY);
    QueueIsValid(s, []);
    assert Held(r) == map[];
  }

  lemma NothingMoves(r: ByteQueue, s: ByteQueue)
    ensures r.contents[0..] == r.contents && r.free + r.contents[..0] == r.free && s.contents + [] == s.contents
  {
  }

  class Socket {
    var snd: SendPart
    var rcv: RecvPart
    var ctl: Control
    /** Everything given to the network so far. */
    var sent: seq<Segment>
    ghost var hist: History

    ghost predicate Valid()
      reads this
    {
      Good(snd, rcv, ctl, hist) && sent == hist.sent
    }

    ghost function Obs(): View
      reads this
    {
      ViewOf(snd, rcv, ctl, hist)
    }

    constructor ()
      ensures Valid() && ctl.state == Listen
      ensures Obs() == View.View([], 0, 0, 1, [], map[], RCV_BUF, RCV_BUF, [], [])
    {
      var s, r, c := Initial();
      snd, rcv, ctl, sent, hist := s, r, c, [], History([], [], [], []);
    }

    /** `pseudo_tcp_socket_notify_packet`. */
    method NotifyPacket(seg: Segment, now: u32) returns (ok: bool, ghost pk: seq<Segment>, ghost pk': seq<Segment>)
      requires Valid() && InScope(snd, rcv, ctl, seg)
      modifies this
      ensures Valid() && Step(old(Obs()), Obs(), [seg])
      ensures hist.taken == old(hist.taken)
      ensures hist.inp == old(hist.inp) + if ok then old(Arrived(rcv, seg)) else []
      ensures sent == old(sent) + pk + pk'
      ensures SegmentDone(old(snd), old(rcv), old(ctl), seg, now, snd, rcv, ctl, ok, pk, pk')
      ensures ctl.state in {Closed, StateAfter(old(ctl.state), seg, ok)}
    {
      var s, r, c, before, after;
      ghost var h;
      s, r, c, ok, before, after, h := Handle(snd, rcv, ctl, hist, seg, now);
      snd, rcv, ctl, sent, hist := s, r, c, sent + before + after, h;
      pk, pk' := before, after;
    }

    /** `pseudo_tcp_socket_connect`. */
    method Connect(now: u32) returns (ok: bool, ghost pk: seq<Segment>)
      requires Valid()
      modifies this
      ensures Valid() && Step(old(Obs()), Obs(), [])
      ensures ok <==> old(ctl.state) == Listen
      ensures hist.out == old(hist.out) + (if ok then CONNECT else []) && hist.taken == old(hist.taken)
      ensures sent == old(sent) + pk && rcv == old(rcv)
      ensures if ok then Flushed(old(snd.snd_nxt), old(ctl).(state := SynSent, snd_wnd := CTL_LEN), rcv, SfNone, now, snd, ctl, pk)
              else snd == old(snd) && ctl == old(ctl) && pk == []
    {
      var s, c, out;
      s, c, ok, out := ConnectSocket(snd, rcv, ctl, now);
      Called(s, rcv, c, 0, if ok then CONNECT else [], out);
      pk := out;
    }

    /** `pseudo_tcp_socket_send`: the bytes accepted are appended to the stream. */
    method Send(data: seq<byte>, now: u32) returns (written: int, ghost pk: seq<Segment>)
      requires Valid()
      modifies this
      ensures Valid() && Step(old(Obs()), Obs(), [])
      ensures written == if old(ctl.state) != Established || old(snd.sbuf.free) == [] then -1 else Min(|data|, |old(snd.sbuf.free)|)
      ensures hist.out == old(hist.out) + (if written < 0 then [] else data[..written]) && hist.taken == old(hist.taken)
      ensures sent == old(sent) + pk && rcv == old(rcv)
      ensures if written < 0 then snd == old(snd) && ctl == old(ctl) && pk == []
              else Flushed(old(snd.snd_nxt), old(ctl), rcv, SfNone, now, snd, ctl, pk)
    {
      var s, c, out;
      s, c, written, out := SendBytes(snd, rcv, ctl, data, now);
      Called(s, rcv, c, 0, if written < 0 then [] else data[..written], out);
      pk := out;
    }

    /** `pseudo_tcp_socket_recv`: the bytes returned are appended to what the application has. */
    method Recv(len: nat, now: u32) returns (bytes: seq<byte>, ghost pk: seq<Segment>)
      requires Valid()
      modifies this
      ensures Valid() && Step(old(Obs()), Obs(), [])
      ensures hist.taken == old(hist.taken) + bytes && hist.out == old(hist.out)
      ensures bytes == old(rcv.rbuf.contents)[..Min(len, |old(rcv.rbuf.contents)|)]
      ensures sent == old(sent) + pk && ReadDone(old(snd), old(rcv), old(ctl), len, now, snd, rcv, ctl, bytes, pk)
    {
      var s, r, c, out;
      s, r, c, bytes, out := RecvBytes(snd, rcv, ctl, len, now);
      Called(s, r, c, |bytes|, [], out);
      pk := out;
    }

    /** `pseudo_tcp_socket_notify_clock`. */
    method Clock(now: u32) returns (ghost pk: seq<Segment>)
      requires Valid()
      modifies this
      ensures Valid() && Step(old(Obs()), Obs(), [])
      ensures hist.out == old(hist.out) && hist.taken == old(hist.taken)
      ensures sent == old(sent) + pk && rcv == old(rcv) && ClockDone(old(snd), rcv, old(ctl), now, snd, ctl, pk)
    {
      var s, c, out := NotifyClock(snd, rcv, ctl, now);
      Quiet(s, c, out);
      pk := out;
    }

    /** `pseudo_tcp_socket_notify_mtu`. */
    method Mtu(mtu: nat)
      requires Valid() && PACKET_OVERHEAD < mtu <= 65535
      modifies this
      ensures Valid() && Step(old(Obs()), Obs(), [])
      ensures hist.out == old(hist.out) && hist.taken == old(hist.taken)
      ensures snd == old(snd) && rcv == old(rcv) && sent == old(sent)
      ensures var c := old(ctl).(mtu_advise := mtu); if old(ctl.state) == Established then Fitted(c, ctl) else ctl == c
    {
      var c := NotifyMtu(snd, ctl, mtu);
      Quiet(snd, c, []);
    }

    /** A call that neither queues nor reads anything. */
    method Quiet(s: SendPart, c: Control, pk: seq<Segment>)
      requires Valid() && SendValid(s, c)
      requires snd.snd_nxt <= s.snd_nxt <= Max(snd.snd_nxt, s.snd_una + c.snd_wnd)
      requires s.snd_una == snd.snd_una && s.sbuf == snd.sbuf && c.snd_wnd == ctl.snd_wnd
      requires AllEmitted(s, rcv, pk)
      modifies this
      ensures Valid() && Step(old(Obs()), Obs(), [])
      ensures hist.out == old(hist.out) && hist.taken == old(hist.taken)
      ensures snd == s && rcv == old(rcv) && ctl == c && sent == old(sent) + pk
    {
      NothingMoves(rcv.rbuf, s.sbuf);
      Called(s, rcv, c, 0, [], pk);
    }

    method Called(s: SendPart, r: RecvPart, c: Control, ghost n: nat, ghost added: seq<byte>, pk: seq<Segment>)
      requires Valid() && SendValid(s, c) && RecvValid(r)
      requires snd.snd_nxt <= s.snd_nxt <= Max(snd.snd_nxt, s.snd_una + c.snd_wnd)
      requires s.snd_una == snd.snd_una && s.sbuf.contents == snd.sbuf.contents + added
      requires c.snd_wnd == ctl.snd_wnd || (s.snd_una == 0 && c.snd_wnd == CTL_LEN)
      requires snd.End() == 0 ==> added == [] || added == CONNECT
      requires AllEmitted(s, r, pk)
      requires n <= |rcv.rbuf.contents| && r.rbuf.contents == rcv.rbuf.contents[n..]
      requires r.rbuf.free == rcv.rbuf.free + rcv.rbuf.contents[..n]
      requires r == rcv.(rbuf := r.rbuf, rcv_wnd := r.rcv_wnd) && (r.rcv_wnd == rcv.rcv_wnd || r.rcv_wnd == |r.rbuf.free|)
      modifies this
      ensures Valid() && Step(old(Obs()), Obs(), [])
      ensures hist.out == old(hist.out) + added && hist.taken == old(hist.taken) + old(rcv.rbuf.contents)[..n]
      ensures hist.inp == old(hist.inp) && hist.sent == old(hist.sent) + pk
      ensures snd == s && rcv == r && ctl == c && sent == old(sent) + pk
    {
      ghost var h := History(hist.out + added, hist.inp, hist.taken + rcv.rbuf.contents[..n], hist.sent + pk);
      QueueSpan(s);
      CallIsStep(snd, rcv, ctl, hist, s, r, c, h, n, added, pk);
      snd, rcv, ctl, sent, hist := s, r, c, sent + pk, h;
    }
  }
}
