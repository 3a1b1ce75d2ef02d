/** Two sockets over a network that drops, duplicates and reorders: every run of the code. */
module Connection {
  import opened ByteFifo
  import opened SeqNum
  import opened Endpoint
  import opened Tcb
  import opened Receiving
  import opened Processing
  import opened Acking
  import Network
  import S = Socket

  /** What may happen next.  `Deliver(i)` gives the socket segment `i` of all that its peer has ever
      sent: any of them, any number of times, in any order, or never. */
  datatype Event = Connect | Send(data: seq<byte>) | Recv(len: nat) | Clock | Mtu(mtu: nat) | Deliver(i: nat)

  /** An event at one of the two ends at a given time. */
  datatype Action = Action(first: bool, event: Event, now: u32)

  ghost predicate Ends(a: S.Socket, b: S.Socket)
    reads a, b
  {
    a != b && a.Valid() && b.Valid() && Network.Joined(a.Obs(), b.Obs())
  }

  /** One event at `x`.  Segments outside the scope of the stream are lost. */
  method Act(x: S.Socket, y: S.Socket, event: Event, now: u32)
    requires Ends(x, y)
    modifies x
    ensures Ends(x, y) && Network.Forward(old(x.Obs()), x.Obs())
    ensures !event.Deliver? ==> x.hist.out == old(x.hist.out) + Accepted(event, old(x.ctl.state), |old(x.snd.sbuf.free)|)
    ensures x.hist.taken == old(x.hist.taken) + Read(event, old(x.rcv.rbuf.contents))
    ensures event.Deliver? && event.i < |y.sent| && InScope(old(x.snd), old(x.rcv), old(x.ctl), y.sent[event.i]) ==>
              Delivered(old(x.sent), old(x.snd), old(x.rcv), old(x.ctl), y.sent[event.i], now, x)
  {
    if event.Deliver? {
      if event.i < |y.sent| && InScope(x.snd, x.rcv, x.ctl, y.sent[event.i]) {
        Receive(x, y, event.i, now);
      }
    } else {
      ghost var v := x.Obs();
      Call(x, event, now);
      Network.StepKeepsJoined(v, x.Obs(), y.Obs(), []);
    }
  }

  /** Everything that a segment does has been done. */
  ghost predicate Delivered(sent: seq<Segment>, s: SendPart, r: RecvPart, c: Control, g: Segment, now: u32, x: S.Socket)
    reads x
  {
    exists ok, pk, pk' :: x.sent == sent + pk + pk' && SegmentDone(s, r, c, g, now, x.snd, x.rcv, x.ctl, ok, pk, pk')
  }

  method Receive(x: S.Socket, y: S.Socket, i: nat, now: u32)
    requires Ends(x, y) && i < |y.sent| && InScope(x.snd, x.rcv, x.ctl, y.sent[i])
    modifies x
    ensures Ends(x, y) && Network.Forward(old(x.Obs()), x.Obs()) && x.hist.taken == old(x.hist.taken)
    ensures Delivered(old(x.sent), old(x.snd), old(x.rcv), old(x.ctl), y.sent[i], now, x)
  {
    ghost var v := x.Obs();
    var _, _, _ := x.NotifyPacket(y.sent[i], now);
    Network.StepKeepsJoined(v, x.Obs(), y.Obs(), [y.sent[i]]);
  }

  /** A call by the application or a timer. */
  method Call(x: S.Socket, event: Event, now: u32)
    requires x.Valid() && !event.Deliver?
    modifies x
    ensures x.Valid() && Step(old(x.Obs()), x.Obs(), [])
    ensures x.hist.out == old(x.hist.out) + Accepted(event, old(x.ctl.state), |old(x.snd.sbuf.free)|)
    ensures x.hist.taken == old(x.hist.taken) + Read(event, old(x.rcv.rbuf.contents))
  {
    match event {
      case Connect => var _, _ := x.Connect(now);
      case Send(data) => Send(x, data, now);
      case Recv(len) => Recv(x, len, now);
      case Clock => Tick(x, event, now);
      case Mtu(mtu) => Tick(x, event, now);
    }
  }

  method Send(x: S.Socket, data: seq<byte>, now: u32)
    requires x.Valid()
    modifies x
    ensures x.Valid() && Step(old(x.Obs()), x.Obs(), []) && x.hist.taken == old(x.hist.taken)
    ensures x.hist.out == old(x.hist.out) + Accepted(Event.Send(data), old(x.ctl.state), |old(x.snd.sbuf.free)|)
  {
    var _, _ := x.Send(data, now);
  }

  method Recv(x: S.Socket, len: nat, now: u32)
    requires x.Valid()
    modifies x
    ensures x.Valid() && Step(old(x.Obs()), x.Obs(), []) && x.hist.out == old(x.hist.out)
    ensures x.hist.taken == old(x.hist.taken) + Read(Event.Recv(len), old(x.rcv.rbuf.contents))
  {
    var _, _ := x.Recv(len, now);
  }

  method Tick(x: S.Socket, event: Event, now: u32)
    requires x.Valid() && (event.Clock? || event.Mtu?)
    modifies x
    ensures x.Valid() && Step(old(x.Obs()), x.Obs(), []) && x.hist.out == old(x.hist.out) && x.hist.taken == old(x.hist.taken)
    ensures event.Clock? ==> exists pk :: x.sent == old(x.sent) + pk && ClockDone(old(x.snd), x.rcv, old(x.ctl), now, x.snd, x.ctl, pk)
    ensures event.Mtu? && PACKET_OVERHEAD < event.mtu <= 65535 ==> x.ctl.mtu_advise == event.mtu
  {
    match event {
      case Clock => var _ := x.Clock(now);
      case Mtu(mtu) => x.Mtu(if PACKET_OVERHEAD < mtu <= 65535 then mtu else DEF_MTU);
    }
  }

  /** The bytes that an event adds to the outgoing stream. */
  function Accepted(event: Event, state: State, free: nat): seq<byte> {
    match event
    case Connect => if state == Listen then CONNECT else []
    case Send(data) => if state != Established then [] else if free < |data| then data[..free] else data
    case _ => []
  }

  /** The bytes that an event hands to the application. */
  function Read(event: Event, queued: seq<byte>): seq<byte> {
    if !event.Recv? then [] else if event.len < |queued| then queued[..event.len] else queued
  }

  /** One end at one moment: its state, the room in its send buffer, the bytes it can be read, and the bytes it has
      accepted from and given to its application. */
  datatype Glimpse = Glimpse(state: State, room: nat, readable: seq<byte>, out: seq<byte>, taken: seq<byte>)

  datatype Moment = Moment(a: Glimpse, b: Glimpse)

  ghost function Look(x: S.Socket): Glimpse
    reads x
  {
    Glimpse(x.ctl.state, |x.snd.sbuf.free|, x.rcv.rbuf.contents, x.hist.out, x.hist.taken)
  }

  /** An action does what it should at its end, and nothing at the other. */
  predicate Moves(m: Moment, action: Action, m': Moment) {
    var x, x' := if action.first then m.a else m.b, if action.first then m'.a else m'.b;
    && (if action.first then m'.b == m.b else m'.a == m.a)
    && (!action.event.Deliver? ==> x'.out == x.out + Accepted(action.event, x.state, x.room))
    && x'.taken == x.taken + Read(action.event, x.readable)
  }

  /** A course of actions. */
  predicate Course(trace: seq<Moment>, script: seq<Action>) {
    |trace| == |script| + 1 && forall i :: 0 <= i < |script| ==> Moves(trace[i], script[i], trace[i + 1])
  }

  lemma CourseOn(trace: seq<Moment>, script: seq<Action>, action: Action, m: Moment)
    requires Course(trace, script) && Moves(trace[|script|], action, m)
    ensures Course(trace + [m], script + [action])
  {
    var t, s := trace + [m], script + [action];
    forall i | 0 <= i < |s| ensures Moves(t[i], s[i], t[i + 1]) {
      if i < |script| {
        assert t[i] == trace[i] && s[i] == script[i] && t[i + 1] == trace[i + 1];
      }
    }
  }

  /** Every run: from two fresh sockets, for every script of calls, timeouts, write results and
      deliveries. */
  method Run(script: seq<Action>) returns (a: S.Socket, b: S.Socket, ghost trace: seq<Moment>)
    ensures fresh(a) && fresh(b) && Ends(a, b)
    ensures Network.Prefix(a.Obs(), b.Obs()) && Network.Prefix(b.Obs(), a.Obs())
    ensures Course(trace, script) && trace[|script|] == Moment(Look(a), Look(b))
  {
    a, b := Pair();
    trace := PerformAll(a, b, script);
    Network.JoinedPrefix(a.Obs(), b.Obs());
    Network.JoinedPrefix(b.Obs(), a.Obs());
  }

  method PerformAll(a: S.Socket, b: S.Socket, script: seq<Action>) returns (ghost trace: seq<Moment>)
    requires Ends(a, b)
    modifies a, b
    ensures Ends(a, b) && Course(trace, script) && trace[|script|] == Moment(Look(a), Look(b))
  {
    if script == [] {
      trace := [Moment(Look(a), Look(b))];
    } else {
      var front, action := script[..|script| - 1], script[|script| - 1];
      trace := PerformAll(a, b, front);
      Perform(a, b, action);
      CourseOn(trace, front, action, Moment(Look(a), Look(b)));
      assert front + [action] == script;
      trace := trace + [Moment(Look(a), Look(b))];
    }
  }

  method Perform(a: S.Socket, b: S.Socket, action: Action)
    requires Ends(a, b)
    modifies a, b
    ensures Ends(a, b) && Moves(old(Moment(Look(a), Look(b))), action, Moment(Look(a), Look(b)))
  {
    if action.first {
      Act(a, b, action.event, action.now);
    } else {
      SwapEnds(a, b);
      Act(b, a, action.event, action.now);
      SwapEnds(b, a);
    }
  }

  lemma SwapEnds(a: S.Socket, b: S.Socket)
    requires Ends(a, b)
    ensures Ends(b, a)
  {
  }

  method Pair() returns (a: S.Socket, b: S.Socket)
    ensures fresh(a) && fresh(b) && Ends(a, b)
  {
    a := new S.Socket();
    b := new S.Socket();
    Network.FreshIsJoined();
  }

  /** Streams of any length: once the peer's CONNECT message has been consumed, a segment that the peer
      has ever sent is in scope exactly when it is less than 2^31 old, in what it carries and in what it
      acknowledges, and meets neither of the code's two faults. */
  lemma RecentSegmentInScope(sa: SendPart, ra: RecvPart, ca: Control, ha: S.History, peer: View, i: nat)
    requires S.Good(sa, ra, ca, ha) && Network.Joined(S.ViewOf(sa, ra, ca, ha), peer) && i < |peer.sent|
    requires CTL_LEN <= ra.rcv_nxt
    ensures var g := peer.sent[i];
            InScope(sa, ra, ca, g) <==>
              && (g.data != [] ==> ra.rcv_nxt - g.sqn < HALF) && sa.snd_nxt - g.ack < HALF
              && !PhantomFin(ra, g) && (sa.snd_una < g.ack ==> !ResendsNothing(ca, g.ack, sa.snd_nxt))
  {
    assert Network.AllHonest(peer);
    assert Honest(peer, peer.Edge(), peer.sent[i]);
    QueueSpan(sa);
  }

  /** For the first 2^31 - 2 bytes of each stream that is every segment the peer has ever sent. */
  lemma EverySegmentInScope(sa: SendPart, ra: RecvPart, ca: Control, ha: S.History, peer: View, i: nat)
    requires S.Good(sa, ra, ca, ha) && Network.Joined(S.ViewOf(sa, ra, ca, ha), peer) && i < |peer.sent|
    requires CTL_LEN <= ra.rcv_nxt && |ha.out| <= HALF - 2 && |peer.out| <= HALF - 2
    ensures InScope(sa, ra, ca, peer.sent[i])
  {
    assert Network.AllHonest(peer);
    assert Honest(peer, peer.Edge(), peer.sent[i]);
    QueueSpan(sa);
  }

  /** Nothing accepted is lost: each byte that `a` has accepted and `b`'s application has not been
      given is still in `a`'s send buffer or in `b`'s receive buffer. */
  lemma NothingIsLost(sa: SendPart, ra: RecvPart, ca: Control, ha: S.History,
                      sb: SendPart, rb: RecvPart, cb: Control, hb: S.History, p: nat)
    requires S.Good(sa, ra, ca, ha) && S.Good(sb, rb, cb, hb)
    requires Network.Joined(S.ViewOf(sa, ra, ca, ha), S.ViewOf(sb, rb, cb, hb))
    requires CTL_LEN + |hb.taken| <= p < |ha.out|
    ensures || (sa.snd_una <= p < sa.End() && sa.sbuf.contents[p - sa.snd_una] == ha.out[p])
            || (p < rb.rcv_nxt && p - CTL_LEN - |hb.taken| < |rb.rbuf.contents|
                && rb.rbuf.contents[p - CTL_LEN - |hb.taken|] == ha.out[p])
  {
    if p < sa.snd_una {
      assert ByteAt(hb.taken + rb.rbuf.contents, CTL_LEN, p) == hb.inp[p] == ha.out[p];
    } else {
      assert ByteAt(sa.sbuf.contents, sa.snd_una, p) == ha.out[p];
    }
  }
}
