/** Opening and closing a pseudo-TCP connection: the state machine in all its eleven states, with
    the flushing of the send queue that a FIN or an RST forces. */
module Closing {
  import opened ByteFifo
  import opened Tcb
  import opened Sending

  datatype TcpState = LISTEN | SYN_SENT | SYN_RECEIVED | ESTABLISHED | CLOSED | FIN_WAIT_1 | FIN_WAIT_2
                    | CLOSING | TIME_WAIT | CLOSE_WAIT | LAST_ACK

  predicate HasSentFin(s: TcpState) {
    s !in {LISTEN, SYN_SENT, SYN_RECEIVED, ESTABLISHED, CLOSE_WAIT}
  }

  predicate HasReceivedFin(s: TcpState) {
    s in {CLOSED, CLOSING, TIME_WAIT, CLOSE_WAIT, LAST_ACK}
  }

  predicate HasReceivedFinAck(s: TcpState) {
    s in {CLOSED, TIME_WAIT}
  }

  /** The transitions that `set_state` asserts: page 23 of RFC 793 and section 4.2.2.8 of RFC 1122. */
  predicate Allowed(old_state: TcpState, new_state: TcpState) {
    match old_state
    case CLOSED => new_state == SYN_SENT || new_state == LISTEN
    case LISTEN => new_state == CLOSED || new_state == SYN_SENT || new_state == SYN_RECEIVED
    case SYN_SENT => new_state == CLOSED || new_state == SYN_RECEIVED || new_state == ESTABLISHED
    case SYN_RECEIVED => new_state == ESTABLISHED || new_state == FIN_WAIT_1 || new_state == LISTEN
    case ESTABLISHED => new_state == FIN_WAIT_1 || new_state == CLOSE_WAIT
    case FIN_WAIT_1 => new_state == FIN_WAIT_2 || new_state == CLOSING || new_state == TIME_WAIT
    case CLOSE_WAIT => new_state == LAST_ACK
    case FIN_WAIT_2 => new_state == TIME_WAIT
    case CLOSING => new_state == TIME_WAIT
    case LAST_ACK => new_state == CLOSED
    case TIME_WAIT => new_state == CLOSED
  }

  /** The table, transition by transition. */
  lemma AllowedExactly(a: TcpState, b: TcpState)
    ensures Allowed(a, b) <==>
              (a, b) in {(CLOSED, SYN_SENT), (CLOSED, LISTEN), (LISTEN, CLOSED), (LISTEN, SYN_SENT), (LISTEN, SYN_RECEIVED),
                         (SYN_SENT, CLOSED), (SYN_SENT, SYN_RECEIVED), (SYN_SENT, ESTABLISHED),
                         (SYN_RECEIVED, ESTABLISHED), (SYN_RECEIVED, FIN_WAIT_1), (SYN_RECEIVED, LISTEN),
                         (ESTABLISHED, FIN_WAIT_1), (ESTABLISHED, CLOSE_WAIT),
                         (FIN_WAIT_1, FIN_WAIT_2), (FIN_WAIT_1, CLOSING), (FIN_WAIT_1, TIME_WAIT), (FIN_WAIT_2, TIME_WAIT),
                         (CLOSING, TIME_WAIT), (CLOSE_WAIT, LAST_ACK), (LAST_ACK, CLOSED), (TIME_WAIT, CLOSED)}
  {
  }

  type positive = x: int | 0 < x witness 1
  type level = x: int | 0 <= x <= 9
  type mtu = x: int | PACKET_OVERHEAD < x witness DEF_MTU

  datatype Flag = NoFlag | CtlFlag | FinFlag | RstFlag
  datatype Unsent = Unsent(len: nat, flag: Flag)

  function Bytes(u: seq<Unsent>): nat {
    if u == [] then 0 else u[0].len + Bytes(u[1..])
  }

  /* ---------- flushing ---------- */

  datatype Outcome = Outcome(ok: bool, n: nat, mss: positive, level: level, writes: seq<WriteResult>)

  /** One call of `transmit` for `n` bytes, given what WritePacket will answer (success once
      `writes` is used up).  The answer for an empty segment is ignored. */
  function Transmitted(n: nat, mss: positive, level: level, writes: seq<WriteResult>): (o: Outcome)
    ensures o.n <= n && (n > 0 ==> o.n > 0)
    decreases |writes|
  {
    if writes == [] then Outcome(true, n, mss, level, [])
    else if writes[0] == WrSuccess || n == 0 then Outcome(true, n, mss, level, writes[1..])
    else if writes[0] == WrFail then Outcome(false, n, mss, level, writes[1..])
    else
      var lower := Lowered(level, n);
      if lower == 0 then Outcome(false, n, mss, 9, writes[1..])
      else Transmitted(Mss(lower), Mss(lower), lower, writes[1..])
  }

  /** What is left of the unsent queue once `n` bytes of its head have gone out. */
  function Left(u: seq<Unsent>, n: nat): (r: seq<Unsent>)
    requires u != [] && n <= u[0].len
    ensures Bytes(r) == Bytes(u) - n
    ensures n == 0 < u[0].len || Bytes(r) < Bytes(u) || |r| < |u|
  {
    if n < u[0].len then
      var r := [u[0].(len := u[0].len - n)] + u[1..];
      assert r[1..] == u[1..];
      r
    else u[1..]
  }

  /** Whether the whole unsent queue goes out when it is flushed. */
  predicate Flushes(u: seq<Unsent>, mss: positive, level: level, writes: seq<WriteResult>)
    decreases Bytes(u), |u|
  {
    u == [] ||
    var o := Transmitted(Min(u[0].len, mss), mss, level, writes);
    o.ok && Flushes(Left(u, o.n), o.mss, o.level, o.writes)
  }

  /** The answers left after one write. */
  function Later(writes: seq<WriteResult>): seq<WriteResult> {
    if |writes| <= 1 then [] else writes[1..]
  }

  predicate AllSucceed(writes: seq<WriteResult>) {
    forall i :: 0 <= i < |writes| ==> writes[i] == WrSuccess
  }

  /** One refused write is enough to keep a FIN from going out. */
  lemma RefusedFin()
    ensures !Flushes([Unsent(1, NoFlag), Unsent(0, FinFlag)], Mss(9), 9, [WrFail])
  {
  }

  /** If no write fails, everything goes out. */
  lemma {:induction false} SuccessFlushes(u: seq<Unsent>, mss: positive, level: level, writes: seq<WriteResult>)
    requires AllSucceed(writes)
    ensures Flushes(u, mss, level, writes)
    decreases Bytes(u), |u|
  {
    if u != [] {
      var o := Transmitted(Min(u[0].len, mss), mss, level, writes);
      SuccessFlushes(Left(u, o.n), o.mss, o.level, o.writes);
    }
  }

  lemma {:induction false} BytesOfTail(u: seq<Unsent>, len: nat, flag: Flag)
    ensures Bytes(u + [Unsent(len, flag)]) == Bytes(u) + len
    ensures u != [] ==> Bytes(u[|u| - 1 := Unsent(u[|u| - 1].len + len, flag)]) == Bytes(u) + len
  {
    if u != [] {
      BytesOfTail(u[1..], len, flag);
      assert (u + [Unsent(len, flag)])[1..] == u[1..] + [Unsent(len, flag)];
      var v := u[|u| - 1 := Unsent(u[|u| - 1].len + len, flag)];
      if |u| > 1 {
        assert v[1..] == u[1..][|u| - 2 := Unsent(u[|u| - 1].len + len, flag)];
      } else {
        assert v[1..] == [];
      }
    }
  }

  /** `queue`: the bytes join a tail of the same kind. */
  function Queued(u: seq<Unsent>, len: nat, flag: Flag): (r: seq<Unsent>)
    ensures r != [] && r[|r| - 1].flag == flag && Bytes(r) == Bytes(u) + len
    ensures |r| == |u| + if |u| > 0 && flag == u[|u| - 1].flag then 0 else 1
  {
    BytesOfTail(u, len, flag);
    if u != [] && u[|u| - 1].flag == flag then u[|u| - 1 := Unsent(u[|u| - 1].len + len, flag)]
    else u + [Unsent(len, flag)]
  }

  predicate HasFlag(u: seq<Unsent>, f: Flag) {
    exists i :: 0 <= i < |u| && u[i].flag == f
  }

  datatype Flags = SfNormal(ack: SendFlags) | SfFin | SfRst
  datatype ShutdownHow = RD | WR | RDWR
  datatype ShutdownKind = SD_NONE | SD_GRACEFUL | SD_FORCEFUL

  /** What decides the course of `process`.
      - `connect`, `option`: a CONNECT message; FIN-ACK support once its options are parsed
      - `badEcho`, `resend`: the echoed time is in the future; a fast retransmission is due
      - `finAcked`, `finInOrder`: acknowledges all and our FIN; completes the stream up to a FIN
      - `delivered`: bytes that become readable */
  datatype Incoming = Incoming(rst: bool, ctl: bool, fin: bool, len: nat, connect: bool, option: bool,
                               badEcho: bool, resend: bool, finAcked: bool, finInOrder: bool,
                               delivered: nat, ack: SendFlags)

  datatype Event =
    | Connect | Send(len: nat) | Recv(len: nat, opens: bool) | Shutdown(how: ShutdownHow) | Close(force: bool)
    | Clock(rtoDue: bool, probeDue: bool, dead: bool, ackDue: bool) | NextClock(idle: bool)
    | Packet(incoming: Incoming) | Mtu(mtu: mtu)

  /** States that closing leads to mean what they say about FINs sent, received and acknowledged. */
  predicate Meaning(s: TcpState, finSent: bool, finReceived: bool, finAcked: bool) {
    && (HasSentFin(s) && s != CLOSED ==> finSent)
    && (HasReceivedFin(s) && s != CLOSED ==> finReceived)
    && (s in {FIN_WAIT_2, TIME_WAIT} ==> finAcked)
  }

  /** `log` is a path of allowed transitions from `a` to `b`. */
  predicate Path(log: seq<(TcpState, TcpState)>, a: TcpState, b: TcpState) {
    if log == [] then a == b
    else
      var (from, to) := log[|log| - 1];
      to == b && Allowed(from, to) && Path(log[..|log| - 1], a, from)
  }

  /** Some transition of `log` leaves CLOSED. */
  predicate Leaves(log: seq<(TcpState, TcpState)>) {
    log != [] && (log[|log| - 1].0 == CLOSED || Leaves(log[..|log| - 1]))
  }

  /** The changes of state so far, where they have led, and whether CLOSED was ever left. */
  datatype Track = Track(log: seq<(TcpState, TcpState)>, state: TcpState, reopened: bool)

  type Trail = t: Track | Path(t.log, LISTEN, t.state) && (t.reopened <==> Leaves(t.log)) witness Track([], LISTEN, false)

  lemma TrailOn(t: Trail, s: TcpState)
    requires Allowed(t.state, s)
    ensures var log := t.log + [(t.state, s)]; Path(log, LISTEN, s) && (Leaves(log) <==> t.reopened || t.state == CLOSED)
  {
    var log := t.log + [(t.state, s)];
    assert log[..|log| - 1] == t.log;
  }

  /** What a FIN in order and the acknowledgement of ours lead to: figure 6 of RFC 793. */
  function FinNext(s: TcpState, is_fin_ack: bool, received_fin: bool): TcpState {
    match s
    case ESTABLISHED => if received_fin then CLOSE_WAIT else s
    case CLOSING => if is_fin_ack then TIME_WAIT else s
    case LAST_ACK => if is_fin_ack then CLOSED else s
    case FIN_WAIT_1 =>
      if is_fin_ack && received_fin then TIME_WAIT
      else if is_fin_ack then FIN_WAIT_2
      else if received_fin then CLOSING
      else s
    case FIN_WAIT_2 => if received_fin then TIME_WAIT else s
    case _ => s
  }

  /* ---------- where each event leads ---------- */

  datatype Facts = Facts(state: TcpState, support: bool, available: nat, shutdown: ShutdownKind, readsDone: bool,
                         received: bool, acked: bool)

  /** `closedown` from the local end. */
  function ClosedDown(f: Facts): Facts {
    f.(state := CLOSED, shutdown := if f.support then f.shutdown else SD_FORCEFUL)
  }

  /** Shutting down the sending side: figure 6 of RFC 793, and section 4.2.2.13 of RFC 1122 for unread data. */
  function ShutState(f: Facts): TcpState {
    match f.state
    case LISTEN => CLOSED
    case SYN_SENT => CLOSED
    case SYN_RECEIVED => if f.available > 0 then CLOSED else FIN_WAIT_1
    case ESTABLISHED => if f.available > 0 then CLOSED else FIN_WAIT_1
    case CLOSE_WAIT => LAST_ACK
    case s => s
  }

  function ShutDown(f: Facts, how: ShutdownHow): Facts {
    if !f.support then f.(shutdown := if f.shutdown == SD_NONE then SD_GRACEFUL else f.shutdown)
    else f.(readsDone := f.readsDone || how != WR, state := if how == RD then f.state else ShutState(f))
  }

  /** A CONNECT message. */
  function Greets(f: Facts, option: bool): Facts {
    f.(support := option,
       state := GreetState(f.state))
  }

  function GreetState(s: TcpState): TcpState {
    if s == LISTEN then SYN_RECEIVED else if s == SYN_SENT then ESTABLISHED else s
  }

  /** A segment from the acknowledgement on.  A FIN with data is ignored. */
  function Follows(f: Facts, g: Incoming): Facts {
    var s := if f.state == SYN_RECEIVED && !g.ctl then ESTABLISHED else f.state;
    if f.support && g.fin && g.len != 0 then f.(state := s)
    else if !f.support then f.(state := s, available := f.available + g.delivered)
    else Finishes(f.(available := f.available + g.delivered), s, g.finAcked && HasSentFin(f.state), g.finInOrder)
  }

  lemma Delivered(f: Facts, g: Incoming)
    ensures Follows(f, g).available == f.available + if f.support && g.fin && g.len != 0 then 0 else g.delivered
  {
  }

  function Finishes(f: Facts, s: TcpState, acked: bool, received: bool): Facts {
    f.(state := FinNext(s, acked, received), received := f.received || received, acked := f.acked || acked)
  }

  function Received(f: Facts, g: Incoming): Facts {
    if f.state == CLOSED || (f.state == TIME_WAIT && g.len > 0) then (if g.rst then f else ClosedDown(f))
    else if g.rst then f.(state := CLOSED)
    else if g.ctl && (g.len == 0 || !g.connect) then f
    else Processed(f, g)
  }

  function Processed(f: Facts, g: Incoming): Facts {
    var h := if g.ctl then Greets(f, g.option) else f;
    if g.badEcho then h else Follows(h, g)
  }

  /** What reading leaves in the receive buffer. */
  function Remaining(f: Facts, len: nat): nat {
    if Blocked(f) then f.available
    else if len < f.available then f.available - len
    else 0
  }

  function Ticks(f: Facts, lost: bool): Facts {
    if f.state == CLOSED then f
    else if lost then ClosedDown(f)
    else if f.support && f.state == TIME_WAIT then f.(state := CLOSED)
    else f
  }

  function Expires(f: Facts, idle: bool): Facts {
    if f.shutdown == SD_FORCEFUL || (f.shutdown == SD_GRACEFUL && (f.state != ESTABLISHED || idle)) then f.(state := CLOSED) else f
  }

  /** Where an event leads if every transmission succeeds. */
  function NextFacts(f: Facts, e: Event): Facts {
    match e
    case Connect => if f.state == LISTEN then f.(state := SYN_SENT) else f
    case Send(len) => f
    case Recv(len, opens) => f.(available := Remaining(f, len))
    case Shutdown(how) => ShutDown(f, how)
    case Close(force) => if force && f.state != CLOSED then ClosedDown(f) else ShutDown(f, RDWR)
    case Clock(rtoDue, probeDue, dead, ackDue) => Ticks(f, probeDue && dead)
    case NextClock(idle) => Expires(f, idle)
    case Packet(g) => Received(f, g)
    case Mtu(mtu) => f
  }

  /** `attempt_send`, a pure acknowledgement from a timer, or the retransmission of the head of the queue. */
  datatype Act = Attempts(flags: Flags) | Acks | Resends

  /** The RST of `closedown`. */
  function Resets(support: bool): seq<Act> {
    if support then [Attempts(SfRst)] else []
  }

  function ShutActs(f: Facts, how: ShutdownHow): seq<Act> {
    if !f.support || how == RD then []
    else if f.state == CLOSE_WAIT then [Attempts(SfFin)]
    else if f.state != SYN_RECEIVED && f.state != ESTABLISHED then []
    else if f.available == 0 then [Attempts(SfFin)]
    else [Attempts(SfRst)]
  }

  /** Nothing may be read. */
  predicate Blocked(f: Facts) {
    if f.support then f.readsDone else f.state != ESTABLISHED
  }

  /** An unacknowledged last FIN is sent again by the clock. */
  function LastFin(f: Facts): seq<Act> {
    if f.support && f.state == LAST_ACK then [Attempts(SfFin)] else []
  }

  function AckActs(probe: bool, delayed: bool): seq<Act> {
    (if probe then [Acks] else []) + if delayed then [Acks] else []
  }

  function ClockActs(f: Facts, probeDue: bool, dead: bool, ackDue: bool): seq<Act> {
    if f.state == CLOSED then []
    else LastFin(f) + if probeDue && dead then Resets(f.support) else AckActs(probeDue, ackDue)
  }

  /** What the other timers try after `before`. */
  predicate Tried(before: seq<Act>, acts: seq<Act>, support: bool, rtoDue: bool, probeDue: bool, dead: bool, ackDue: bool) {
    var tried := if rtoDue then before + [Resends] else before;
    || (acts == tried + Resets(support) && (rtoDue || (probeDue && dead)))
    || (acts == tried + AckActs(probeDue, ackDue) && !(probeDue && dead))
  }

  lemma TriedOn(before: seq<Act>, last: seq<Act>, acts: seq<Act>, support: bool, rtoDue: bool, probeDue: bool, dead: bool, ackDue: bool)
    requires Tried(before + last, acts, support, rtoDue, probeDue, dead, ackDue)
    ensures before <= acts && (rtoDue ==> Resends in acts[|before|..])
    ensures !rtoDue ==> acts == before + (last + if probeDue && dead then Resets(support) else AckActs(probeDue, ackDue))
  {
    if rtoDue {
      assert acts[|before|..][|last|] == acts[|before| + |last|] == Resends;
    } else {
      var x := if probeDue && dead then Resets(support) else AckActs(probeDue, ackDue);
      assert (before + last) + x == before + (last + x);
    }
  }

  function FollowActs(f: Facts, g: Incoming): seq<Act> {
    if f.support && g.fin && g.len != 0 then [] else [Attempts(SfNormal(g.ack))]
  }

  /** A segment is processed up to its acknowledgement. */
  predicate Reaches(f: Facts, g: Incoming) {
    && f.state != CLOSED && !(f.state == TIME_WAIT && g.len > 0)
    && !g.rst && !(g.ctl && (g.len == 0 || !g.connect)) && !g.badEcho
  }

  function PacketActs(f: Facts, g: Incoming): seq<Act> {
    if f.state == CLOSED || (f.state == TIME_WAIT && g.len > 0) then (if g.rst then [] else Resets(f.support))
    else if !Reaches(f, g) then []
    else FollowActs(if g.ctl then Greets(f, g.option) else f, g)
  }

  /** What an event tries to send, if nothing is retransmitted. */
  function Acts(f: Facts, e: Event): seq<Act> {
    match e
    case Connect => if f.state == LISTEN then [Attempts(SfNormal(SfNone))] else []
    case Send(len) => if f.state == ESTABLISHED then [Attempts(SfNormal(SfNone))] else []
    case Recv(len, opens) => if opens && !Blocked(f) then [Attempts(SfNormal(SfImmediateAck))] else []
    case Shutdown(how) => ShutActs(f, how)
    case Close(force) => if force && f.state != CLOSED then Resets(f.support) else ShutActs(f, RDWR)
    case Clock(rtoDue, probeDue, dead, ackDue) => ClockActs(f, probeDue, dead, ackDue)
    case Packet(g) => PacketActs(f, g)
    case _ => []
  }

  /** How many bytes an event queues. */
  function Queues(f: Facts, e: Event): nat {
    match e
    case Connect => if f.state != LISTEN then 0 else if f.support then 7 else 4
    case Send(len) => if f.state == ESTABLISHED then len else 0
    case Packet(g) =>
      if f.state == LISTEN && !g.rst && g.ctl && g.len > 0 && g.connect then (if g.option then 7 else 4) else 0
    case _ => 0
  }

  /** Nothing is retransmitted: that may fail for having been tried too often. */
  predicate Undisturbed(e: Event) {
    !(e.Clock? && e.rtoDue) && !(e.Packet? && e.incoming.resend)
  }

  /** The next state on the way that `closedown` takes to CLOSED, by falling through its cases. */
  function Onward(s: TcpState): (next: TcpState)
    requires s != CLOSED
    ensures Allowed(s, next) && Distance(next) < Distance(s)
  {
    match s
    case SYN_RECEIVED => FIN_WAIT_1
    case ESTABLISHED => FIN_WAIT_1
    case FIN_WAIT_1 => FIN_WAIT_2
    case FIN_WAIT_2 => TIME_WAIT
    case CLOSING => TIME_WAIT
    case CLOSE_WAIT => LAST_ACK
    case _ => CLOSED
  }

  function Distance(s: TcpState): nat {
    match s
    case CLOSED => 0
    case FIN_WAIT_2 => 2
    case CLOSING => 2
    case CLOSE_WAIT => 2
    case FIN_WAIT_1 => 3
    case SYN_RECEIVED => 4
    case ESTABLISHED => 4
    case _ => 1
  }

  class Machine {
    var state: TcpState
    var support_fin_ack: bool
    var shutdown: ShutdownKind
    var shutdown_reads: bool
    /** Bytes in the receive buffer. */
    var available: nat
    var unsent: seq<Unsent>
    var mss: positive
    var msslevel: level
    var mtu_advise: mtu
    /** What WritePacket will answer. */
    var writes: seq<WriteResult>
    /** An assertion of `set_state` has stopped the program. */
    var aborted: bool
    /** Every change of state so far. */
    ghost var trail: Trail
    /** The kinds of segments that have gone out. */
    ghost var gone: set<Flag>
    /** What has been tried. */
    ghost var acts: seq<Act>
    /** Bytes queued so far. */
    ghost var queued: nat
    /** Whether every write succeeds. */
    ghost const succeed: bool
    ghost var finReceived: bool
    ghost var finAcked: bool

    /** What decides the course of the connection. */
    ghost function Now(): Facts
      reads this
    {
      Facts(state, support_fin_ack, available, shutdown, shutdown_reads, finReceived, finAcked)
    }

    ghost predicate Sane()
      reads this
    {
      trail.state == state && !trail.reopened && (succeed ==> AllSucceed(writes))
    }

    ghost predicate Valid()
      reads this
    {
      Sane() && !aborted && Meaning(state, FinFlag in gone, finReceived, finAcked)
    }

    constructor (writes: seq<WriteResult>)
      ensures Valid() && this.writes == writes && succeed == AllSucceed(writes)
      ensures Now() == Facts(LISTEN, true, 0, SD_NONE, false, false, false) && queued == 0 && acts == []
      ensures mss == MIN_PACKET - PACKET_OVERHEAD && msslevel == 0 && mtu_advise == DEF_MTU
    {
      state, support_fin_ack, shutdown, shutdown_reads, available, unsent := LISTEN, true, SD_NONE, false, 0, [];
      mss, msslevel, mtu_advise := MIN_PACKET - PACKET_OVERHEAD, 0, DEF_MTU;
      this.writes, queued, succeed := writes, 0, AllSucceed(writes);
      aborted, trail, gone, acts, finReceived, finAcked := false, Track([], LISTEN, false), {}, [], false, false;
    }

    method SetState(s: TcpState)
      requires Sane() && !aborted
      modifies this`state, this`aborted, this`trail
      ensures trail.state == state && (trail.reopened <==> !aborted && old(state) == CLOSED && s != CLOSED)
      ensures aborted <==> s != old(state) && !Allowed(old(state), s)
      ensures state == if aborted then old(state) else s
      ensures trail.log == if aborted || s == old(state) then old(trail.log) else old(trail.log) + [(old(state), s)]
    {
      if s == state {
        return;
      }
      if !Allowed(state, s) {
        aborted := true;
        return;
      }
      TrailOn(trail, s);
      trail, state := Track(trail.log + [(state, s)], s, trail.reopened || state == CLOSED), s;
    }

    /** The event has led where it should, or to CLOSED because a transmission failed. */
    ghost predicate Goes(f: Facts, e: Event)
      reads this
    {
      Now() == NextFacts(f, e) || (state == CLOSED && !(succeed && Undisturbed(e)))
    }

    /** `set_state` where the table allows it: the assertion holds. */
    method Go(s: TcpState)
      requires Sane() && !aborted && state != CLOSED && Allowed(state, s)
      modifies this`state, this`aborted, this`trail
      ensures Sane() && !aborted && state == s
    {
      SetState(s);
    }

    /** `set_state` to a state that CLOSED does not lead to. */
    method GoOrAbort(s: TcpState)
      requires Sane() && !aborted && !Allowed(CLOSED, s) && s != CLOSED && (state == CLOSED || Allowed(state, s))
      modifies this`state, this`aborted, this`trail
      ensures Sane() && (aborted <==> old(state) == CLOSED) && state == if aborted then CLOSED else s
    {
      SetState(s);
    }

    /** `closedown` from the remote end: to CLOSED along allowed transitions, from any state. */
    method Navigate()
      requires Sane() && !aborted
      modifies this`state, this`aborted, this`trail
      ensures Sane() && !aborted && state == CLOSED
    {
      while state != CLOSED
        invariant Sane() && !aborted
        decreases Distance(state)
      {
        Go(Onward(state));
      }
    }

    /** The loop of `transmit`: hands out `n` bytes, fewer if that is too many. */
    method Push(n0: nat) returns (ok: bool, n: nat)
      requires succeed ==> AllSucceed(writes)
      modifies this`mss, this`msslevel, this`writes
      ensures succeed ==> ok && AllSucceed(writes)
      ensures var o := Transmitted(n0, old(mss), old(msslevel), old(writes));
              ok == o.ok && writes == o.writes && (ok ==> n == o.n && mss == o.mss && msslevel == o.level)
    {
      n := n0;
      ghost var spec := Transmitted(n, mss, msslevel, writes);
      while true
        invariant Transmitted(n, mss, msslevel, writes) == spec
        invariant succeed ==> AllSucceed(writes)
        decreases |writes|
      {
        if writes == [] {
          return true, n;
        }
        var wres := writes[0];
        writes := writes[1..];
        if n == 0 || wres == WrSuccess {
          return true, n;
        }
        if wres == WrFail {
          return false, n;
        }
        var lowered := Lower(n);
        if !lowered {
          return false, n;
        }
        n := mss;
      }
    }

    /** Steps down the list of packet sizes until the MSS is below `n`. */
    method Lower(n: nat) returns (ok: bool)
      modifies this`mss, this`msslevel
      ensures ok <==> Lowered(old(msslevel), n) > 0
      ensures ok ==> msslevel == Lowered(old(msslevel), n) && mss == Mss(msslevel)
    {
      var level;
      level, ok := StepDown(msslevel, n);
      if level > msslevel {
        msslevel, mss := level, Mss(level);
      }
    }

    /** `transmit` of the first unsent segment. */
    method Transmit() returns (ok: bool)
      requires Sane() && unsent != []
      modifies this`unsent, this`mss, this`msslevel, this`writes, this`gone
      ensures Sane()
      ensures var o := Transmitted(Min(old(unsent)[0].len, old(mss)), old(mss), old(msslevel), old(writes));
              && ok == o.ok && writes == o.writes
              && (ok ==> mss == o.mss && msslevel == o.level && unsent == Left(old(unsent), o.n))
      ensures ok ==> forall f :: HasFlag(old(unsent), f) || f in old(gone) ==> HasFlag(unsent, f) || f in gone
      ensures old(gone) <= gone && (succeed ==> ok)
    {
      var n;
      ok, n := Push(Min(unsent[0].len, mss));
      if ok {
        gone := gone + {unsent[0].flag};
        unsent := Left(unsent, n);
        assert forall i :: 0 < i < |old(unsent)| ==> old(unsent)[i] == unsent[|unsent| - |old(unsent)| + i];
      }
    }

    /** A segment without data: the answer is ignored. */
    method Acknowledge()
      modifies this`writes
      ensures writes == Later(old(writes))
    {
      if writes != [] {
        writes := writes[1..];
      }
    }

    /** What `attempt_send` sends next if the windows, of which nothing is known here, admit it. */
    method Admit(ack: SendFlags) returns (admitted: bool)
      requires Sane()
      modifies this`unsent, this`writes
      ensures Sane() && Bytes(unsent) == Bytes(old(unsent))
      ensures admitted ==> unsent != [] && (unsent == old(unsent) || unsent[0].len > 0)
    {
      var nAvailable: nat, t_ack: bool, nagle: bool := *, *, *;
      admitted := nAvailable > 0 && !nagle && unsent != [];
      if nAvailable == 0 && (ack == SfImmediateAck || (ack == SfDelayedAck && t_ack)) {
        Acknowledge();
      } else if admitted && unsent[0].len > nAvailable {
        Split(nAvailable);
      }
    }

    /** `attempt_send`.  It ends for every queue, window and answer.  With a FIN or an RST the
        windows are ignored: either the queue is emptied or the socket closed, and what WritePacket
        answers decides which.  How much the windows admit is the business of module Sending; here
        it is arbitrary. */
    method AttemptSend(flags0: Flags)
      requires Sane() && !aborted
      modifies this`unsent, this`mss, this`msslevel, this`writes, this`gone, this`acts, this`state, this`aborted, this`trail
      ensures Sane() && !aborted && old(gone) <= gone
      ensures flags0.SfNormal? ==> state == old(state) || (state == CLOSED && !succeed)
      ensures !flags0.SfNormal? ==>
                if old(Flushes(unsent, mss, msslevel, writes))
                then state == old(state) && trail == old(trail) && unsent == [] && forall f :: HasFlag(old(unsent), f) ==> f in gone
                else state == CLOSED
      ensures acts == old(acts) + [Attempts(flags0)]
    {
      var flags := flags0;
      acts := acts + [Attempts(flags0)];
      ghost var all := Flushes(unsent, mss, msslevel, writes);
      while true
        invariant Sane() && !aborted && state == old(state) && trail == old(trail) && old(gone) <= gone
        invariant flags.SfNormal? == flags0.SfNormal? && acts == old(acts) + [Attempts(flags0)]
        invariant !flags.SfNormal? ==> all == Flushes(unsent, mss, msslevel, writes)
        invariant !flags.SfNormal? ==> forall f :: HasFlag(old(unsent), f) ==> HasFlag(unsent, f) || f in gone
        decreases flags == SfNormal(SfDuplicateAck), Bytes(unsent), |unsent|
      {
        if flags == SfNormal(SfDuplicateAck) {
          Acknowledge();
          flags := SfNormal(SfNone);
          continue;
        }
        if flags.SfNormal? {
          var admitted := Admit(flags.ack);
          if !admitted {
            return;
          }
          flags := SfNormal(SfNone);
        } else if unsent == [] {
          return;
        }
        var ok := Transmit();
        if !ok {
          Navigate();
          return;
        }
      }
    }

    /** Breaks the first unsent segment in two. */
    method Split(n: nat)
      requires Sane() && unsent != [] && 0 < n < unsent[0].len
      modifies this`unsent
      ensures Sane() && unsent != [] && unsent[0].len == n && Bytes(unsent) == Bytes(old(unsent))
    {
      ghost var u := unsent;
      unsent := [unsent[0].(len := n), unsent[0].(len := unsent[0].len - n)] + unsent[1..];
      assert unsent[1..][1..] == u[1..];
    }

    /** `closedown` from the local end: an RST after all that is queued, then to CLOSED. */
    method Closedown()
      requires Valid()
      modifies this`unsent, this`mss, this`msslevel, this`writes, this`gone, this`acts, this`state, this`aborted, this`trail,
               this`shutdown
      ensures Valid() && Now() == ClosedDown(old(Now()))
      ensures succeed && support_fin_ack ==> RstFlag in gone
      ensures acts == old(acts) + Resets(support_fin_ack)
    {
      if support_fin_ack {
        FlushRst();
      } else {
        shutdown := SD_FORCEFUL;
      }
      Navigate();
    }

    /** Queues an RST and flushes the queue. */
    method FlushRst()
      requires Sane() && !aborted
      modifies this`unsent, this`mss, this`msslevel, this`writes, this`gone, this`acts, this`state, this`aborted, this`trail
      ensures Sane() && !aborted && (succeed ==> RstFlag in gone)
      ensures state == if old(Flushes(Queued(unsent, 0, RstFlag), mss, msslevel, writes)) then old(state) else CLOSED
      ensures acts == old(acts) + [Attempts(SfRst)]
    {
      unsent := Queued(unsent, 0, RstFlag);
      assert HasFlag(unsent, RstFlag) by {
        assert unsent[|unsent| - 1].flag == RstFlag;
      }
      if succeed {
        SuccessFlushes(unsent, mss, msslevel, writes);
      }
      AttemptSend(SfRst);
    }

    method Enqueue(len: nat, flag: Flag)
      requires Sane()
      modifies this`unsent, this`queued
      ensures Sane() && unsent == Queued(old(unsent), len, flag) && queued == old(queued) + len
    {
      unsent, queued := Queued(unsent, len, flag), queued + len;
    }

    /** Queues a CONNECT message, with an option if FIN-ACK is supported. */
    method QueueConnect()
      requires Sane()
      modifies this`unsent, this`queued
      ensures Sane() && queued == old(queued) + if support_fin_ack then 7 else 4
    {
      Enqueue(if support_fin_ack then 7 else 4, CtlFlag);
    }

    method DoConnect()
      requires Valid()
      modifies this`unsent, this`mss, this`msslevel, this`writes, this`gone, this`acts, this`state, this`aborted, this`trail,
               this`queued
      ensures Valid() && queued == old(queued) + Queues(old(Now()), Connect)
      ensures state == (if old(state) == LISTEN then SYN_SENT else old(state)) || (state == CLOSED && !succeed)
      ensures acts == old(acts) + if old(state) == LISTEN then [Attempts(SfNormal(SfNone))] else []
    {
      if state == LISTEN {
        BeginHandshake(SYN_SENT);
        TrySend(SfNone);
      }
    }

    method DoSend(len: nat)
      requires Valid()
      modifies this`unsent, this`mss, this`msslevel, this`writes, this`gone, this`acts, this`state, this`aborted, this`trail,
               this`queued
      ensures Valid() && queued == old(queued) + if old(state) == ESTABLISHED then len else 0
      ensures state == old(state) || (state == CLOSED && !succeed)
      ensures acts == old(acts) + if old(state) == ESTABLISHED then [Attempts(SfNormal(SfNone))] else []
    {
      if state == ESTABLISHED {
        Enqueue(len, NoFlag);
        TrySend(SfNone);
      }
    }

    method DoRecv(len: nat, opens: bool)
      requires Valid()
      modifies this`unsent, this`mss, this`msslevel, this`writes, this`gone, this`acts, this`state, this`aborted, this`trail,
               this`available
      ensures Valid() && available == Remaining(old(Now()), len)
      ensures state == old(state) || (state == CLOSED && !succeed)
      ensures acts == old(acts) + if opens && !Blocked(old(Now())) then [Attempts(SfNormal(SfImmediateAck))] else []
    {
      if (support_fin_ack && shutdown_reads) || (!support_fin_ack && state != ESTABLISHED) {
        return;
      }
      available := available - Min(len, available);
      if opens {
        TrySend(SfImmediateAck);
      }
    }

    /** Whether `pseudo_tcp_socket_shutdown` sends a FIN. */
    predicate SendsFin(how: ShutdownHow)
      reads this
    {
      && support_fin_ack && how != RD
      && ((state in {SYN_RECEIVED, ESTABLISHED} && available == 0) || state == CLOSE_WAIT)
    }

    /** A FIN queued now gets out. */
    ghost predicate FinGoes()
      reads this
    {
      Flushes(Queued(unsent, 0, FinFlag), mss, msslevel, writes)
    }

    /** The FIN of a shutdown does not get out: a write before it fails. */
    ghost predicate FinFails(how: ShutdownHow)
      reads this
    {
      SendsFin(how) && !FinGoes()
    }

    /** `pseudo_tcp_socket_shutdown`.  The assertion in `set_state` fails exactly when a FIN is due
        and a write before it fails: then the socket is already closed. */
    method DoShutdown(how: ShutdownHow, ghost goes: bool)
      requires Valid() && goes == FinGoes()
      modifies this`unsent, this`mss, this`msslevel, this`writes, this`gone, this`acts, this`state, this`aborted, this`trail,
               this`shutdown, this`shutdown_reads
      ensures aborted <==> old(SendsFin(how)) && !goes
      ensures if aborted then Sane() && state == CLOSED
              else Valid() && state == if support_fin_ack && how != RD then ShutState(old(Now())) else old(state)
      ensures shutdown == if !support_fin_ack && old(shutdown) == SD_NONE then SD_GRACEFUL else old(shutdown)
      ensures shutdown_reads == (old(shutdown_reads) || (support_fin_ack && how != WR))
      ensures acts == old(acts) + ShutActs(old(Now()), how)
    {
      if support_fin_ack {
        ShutBoth(how, goes);
      } else if shutdown == SD_NONE {
        shutdown := SD_GRACEFUL;
      }
    }

    method ShutBoth(how: ShutdownHow, ghost goes: bool)
      requires Valid() && goes == FinGoes() && support_fin_ack
      modifies this`unsent, this`mss, this`msslevel, this`writes, this`gone, this`acts, this`state, this`aborted, this`trail,
               this`shutdown, this`shutdown_reads
      ensures aborted <==> old(SendsFin(how)) && !goes
      ensures if aborted then Sane() && state == CLOSED
              else Valid() && state == if how != RD then ShutState(old(Now())) else old(state)
      ensures shutdown == old(shutdown) && shutdown_reads == (old(shutdown_reads) || how != WR)
      ensures acts == old(acts) + ShutActs(old(Now()), how)
    {
      if how != WR {
        ShutReads();
      }
      if how != RD {
        ShutWrites(goes);
      }
    }

    method ShutReads()
      requires Valid()
      modifies this`shutdown_reads
      ensures Valid() && shutdown_reads && FinGoes() == old(FinGoes()) && Now() == old(Now()).(readsDone := true)
    {
      shutdown_reads := true;
    }

    /** Shuts down the sending side. */
    method ShutWrites(ghost goes: bool)
      requires Valid() && support_fin_ack && goes == FinGoes()
      modifies this`unsent, this`mss, this`msslevel, this`writes, this`gone, this`acts, this`state, this`aborted, this`trail,
               this`shutdown
      ensures aborted <==> old(SendsFin(WR)) && !goes
      ensures if aborted then Sane() && state == CLOSED else Valid() && state == ShutState(old(Now()))
      ensures shutdown == old(shutdown)
      ensures acts == old(acts) + ShutActs(old(Now()), WR)
    {
      if state in {LISTEN, SYN_SENT} {
        Go(CLOSED);
      } else if state in {SYN_RECEIVED, ESTABLISHED} {
        if available > 0 {
          Closedown();
        } else {
          SendFin(FIN_WAIT_1, goes);
        }
      } else if state == CLOSE_WAIT {
        SendFin(LAST_ACK, goes);
      }
    }

    /** Queues a FIN, flushes the queue and moves on. */
    method SendFin(next: TcpState, ghost goes: bool)
      requires Valid() && support_fin_ack && goes == FinGoes()
      requires if next == FIN_WAIT_1 then state in {SYN_RECEIVED, ESTABLISHED} else state == CLOSE_WAIT && next == LAST_ACK
      modifies this`unsent, this`mss, this`msslevel, this`writes, this`gone, this`acts, this`state, this`aborted, this`trail
      ensures aborted <==> !goes
      ensures if aborted then Sane() && state == CLOSED else Valid() && state == next && FinFlag in gone
      ensures acts == old(acts) + [Attempts(SfFin)]
    {
      FlushFin(goes);
      GoOrAbort(next);
    }

    /** Queues a FIN and flushes the queue. */
    method FlushFin(ghost goes: bool)
      requires Sane() && !aborted && support_fin_ack && goes == FinGoes()
      modifies this`unsent, this`mss, this`msslevel, this`writes, this`gone, this`acts, this`state, this`aborted, this`trail
      ensures Sane() && !aborted && old(gone) <= gone
      ensures if goes then state == old(state) && FinFlag in gone else state == CLOSED
      ensures acts == old(acts) + [Attempts(SfFin)]
    {
      unsent := Queued(unsent, 0, FinFlag);
      assert HasFlag(unsent, FinFlag) by {
        assert unsent[|unsent| - 1].flag == FinFlag;
      }
      AttemptSend(SfFin);
    }

    method DoClose(force: bool)
      requires Valid()
      modifies this`unsent, this`mss, this`msslevel, this`writes, this`gone, this`acts, this`state, this`aborted, this`trail,
               this`shutdown, this`shutdown_reads
      ensures aborted <==> !force && old(FinFails(RDWR))
      ensures if aborted then Sane() && state == CLOSED
              else Valid() && Now() == if force && old(state) != CLOSED then ClosedDown(old(Now())) else ShutDown(old(Now()), RDWR)
      ensures force && old(state) != CLOSED && support_fin_ack && succeed ==> RstFlag in gone
      ensures acts == old(acts) + if force && old(state) != CLOSED then Resets(support_fin_ack) else ShutActs(old(Now()), RDWR)
    {
      if force && state != CLOSED {
        Closedown();
      } else {
        DoShutdown(RDWR, FinGoes());
      }
    }

    /** `transmit` of the head of slist, which is in flight. */
    method Resend() returns (ok: bool)
      requires Sane()
      modifies this`mss, this`msslevel, this`writes, this`acts
      ensures Sane() && acts == old(acts) + [Resends]
    {
      acts := acts + [Resends];
      var n: nat, tooMany: bool := *, *;
      if tooMany {
        return false;
      }
      ok, n := Push(Min(n, mss));
    }

    method DoClock(rtoDue: bool, probeDue: bool, dead: bool, ackDue: bool)
      requires Valid()
      modifies this`unsent, this`mss, this`msslevel, this`writes, this`gone, this`acts, this`state, this`aborted, this`trail,
               this`shutdown
      ensures Valid()
      ensures var f := Ticks(old(Now()), probeDue && dead);
              (state == f.state && shutdown == f.shutdown) || (state == CLOSED && !(succeed && !rtoDue))
      ensures old(acts) <= acts && (!rtoDue ==> acts == old(acts) + ClockActs(old(Now()), probeDue, dead, ackDue))
      ensures rtoDue && old(state) != CLOSED ==> Resends in acts[|old(acts)|..]
    {
      if state != CLOSED {
        ghost var before, last := acts, LastFin(Now());
        ClosingTimers();
        OtherTimers(rtoDue, probeDue, dead, ackDue);
        TriedOn(before, last, acts, support_fin_ack, rtoDue, probeDue, dead, ackDue);
      }
    }

    /** Retransmission, probe and delayed acknowledgement. */
    method OtherTimers(rtoDue: bool, probeDue: bool, dead: bool, ackDue: bool)
      requires Valid()
      modifies this`unsent, this`mss, this`msslevel, this`writes, this`gone, this`acts, this`state, this`aborted, this`trail,
               this`shutdown
      ensures Valid()
      ensures var f := if probeDue && dead then ClosedDown(old(Now())) else old(Now());
              (state == f.state && shutdown == f.shutdown) || (state == CLOSED && rtoDue)
      ensures Tried(old(acts), acts, support_fin_ack, rtoDue, probeDue, dead, ackDue)
    {
      var ok := true;
      if rtoDue {
        ok := Resend();
      }
      if !ok || (probeDue && dead) {
        Closedown();
      } else {
        Acknowledgements(probeDue, ackDue);
      }
    }

    /** The probe of a closed window and the delayed acknowledgement. */
    method Acknowledgements(probeDue: bool, ackDue: bool)
      requires Valid()
      modifies this`writes, this`acts
      ensures Valid() && acts == old(acts) + AckActs(probeDue, ackDue)
      ensures writes == if probeDue && ackDue then Later(Later(old(writes))) else if probeDue || ackDue then Later(old(writes)) else old(writes)
    {
      if probeDue {
        Acknowledge();
        acts := acts + [Acks];
      }
      if ackDue {
        Acknowledge();
        acts := acts + [Acks];
      }
    }

    /** TIME-WAIT ends, and an unacknowledged last FIN is sent again. */
    method ClosingTimers()
      requires Valid()
      modifies this`unsent, this`mss, this`msslevel, this`writes, this`gone, this`acts, this`state, this`aborted, this`trail
      ensures Valid()
      ensures var next := if support_fin_ack && old(state) == TIME_WAIT then CLOSED else old(state);
              state == next || (state == CLOSED && !succeed)
      ensures acts == old(acts) + if support_fin_ack && old(state) == LAST_ACK then [Attempts(SfFin)] else []
    {
      if support_fin_ack && state == TIME_WAIT {
        Go(CLOSED);
      }
      if support_fin_ack && state == LAST_ACK {
        if succeed {
          SuccessFlushes(Queued(unsent, 0, FinFlag), mss, msslevel, writes);
        }
        FlushFin(FinGoes());
      }
    }

    /** `pseudo_tcp_socket_get_next_clock`, which closes a socket that was shut down without FIN. */
    method DoNextClock(idle: bool)
      requires Valid()
      modifies this`state, this`aborted, this`trail
      ensures Valid() && Now() == Expires(old(Now()), idle)
    {
      if shutdown == SD_FORCEFUL || (shutdown == SD_GRACEFUL && (state != ESTABLISHED || idle)) {
        Navigate();
      }
    }

    method DoMtu(mtu: mtu)
      requires Valid()
      modifies this`mtu_advise, this`mss, this`msslevel
      ensures Valid() && mtu_advise == mtu && (state == ESTABLISHED ==> mss == mtu - PACKET_OVERHEAD && IsLevel(msslevel, mtu))
    {
      mtu_advise := mtu;
      if state == ESTABLISHED {
        AdjustMtu();
      }
    }

    method AdjustMtu()
      requires Sane()
      modifies this`mss, this`msslevel
      ensures Sane() && mss == mtu_advise - PACKET_OVERHEAD && IsLevel(msslevel, mtu_advise)
    {
      msslevel := LevelFor(mtu_advise);
      mss := mtu_advise - PACKET_OVERHEAD;
    }

    /** `process`. */
    method DoPacket(g: Incoming)
      requires Valid()
      modifies this`unsent, this`mss, this`msslevel, this`writes, this`gone, this`acts, this`state, this`aborted, this`trail,
               this`shutdown, this`available, this`finReceived, this`finAcked, this`queued, this`support_fin_ack
      ensures Valid() && queued == old(queued) + Queues(old(Now()), Packet(g))
      ensures Now() == Received(old(Now()), g) || (state == CLOSED && !(succeed && !g.resend))
      ensures old(acts) <= acts && (!g.resend ==> acts == old(acts) + PacketActs(old(Now()), g))
      ensures g.resend && Reaches(old(Now()), g) ==> old(acts) + [Resends] <= acts
    {
      if state == CLOSED || (HasReceivedFinAck(state) && g.len > 0) {
        if !g.rst {
          Closedown();
        }
        return;
      }
      if g.rst {
        Navigate();
        return;
      }
      if !g.ctl || (g.len > 0 && g.connect) {
        Process(g);
      }
    }

    /** `process` of a segment that is neither an RST nor a control segment to be refused. */
    method Process(g: Incoming)
      requires Valid() && state != CLOSED
      modifies this`unsent, this`mss, this`msslevel, this`writes, this`gone, this`acts, this`state, this`aborted, this`trail,
               this`shutdown, this`available, this`finReceived, this`finAcked, this`queued, this`support_fin_ack
      ensures Valid() && queued == old(queued) + if g.ctl && old(state) == LISTEN then (if g.option then 7 else 4) else 0
      ensures Now() == Processed(old(Now()), g) || (state == CLOSED && !(succeed && !g.resend))
      ensures if g.badEcho then acts == old(acts)
              else if g.resend then old(acts) + [Resends] <= acts
              else acts == old(acts) + FollowActs(if g.ctl then Greets(old(Now()), g.option) else old(Now()), g)
    {
      if g.ctl {
        Greet(g.option);
      }
      if !g.badEcho {
        Follow(g);
      }
    }

    /** A CONNECT message. */
    method Greet(option: bool)
      requires Valid() && state != CLOSED
      modifies this`state, this`aborted, this`trail, this`unsent, this`queued, this`mss, this`msslevel, this`support_fin_ack
      ensures Valid() && support_fin_ack == option && state == GreetState(old(state))
      ensures queued == old(queued) + if old(state) != LISTEN then 0 else if option then 7 else 4
      ensures old(state) == SYN_SENT ==> mss == mtu_advise - PACKET_OVERHEAD
    {
      support_fin_ack := option;
      if state == LISTEN {
        BeginHandshake(SYN_RECEIVED);
      } else if state == SYN_SENT {
        SetEstablished();
      }
    }

    /** Queues a CONNECT message. */
    method BeginHandshake(s: TcpState)
      requires Valid() && state == LISTEN && s in {SYN_SENT, SYN_RECEIVED}
      modifies this`state, this`aborted, this`trail, this`unsent, this`queued
      ensures Valid() && state == s && queued == old(queued) + if support_fin_ack then 7 else 4
    {
      Go(s);
      QueueConnect();
    }

    method SetEstablished()
      requires Valid() && state in {SYN_SENT, SYN_RECEIVED}
      modifies this`state, this`aborted, this`trail, this`mss, this`msslevel
      ensures Valid() && state == ESTABLISHED && mss == mtu_advise - PACKET_OVERHEAD
    {
      Go(ESTABLISHED);
      AdjustMtu();
    }

    /** `process` once the handshake is dealt with. */
    method Follow(g: Incoming)
      requires Valid() && state != CLOSED
      modifies this`unsent, this`mss, this`msslevel, this`writes, this`gone, this`acts, this`state, this`aborted, this`trail,
               this`shutdown, this`available, this`finReceived, this`finAcked
      ensures Valid()
      ensures Now() == Follows(old(Now()), g) || (state == CLOSED && !(succeed && !g.resend))
      ensures if g.resend then old(acts) + [Resends] <= acts else acts == old(acts) + FollowActs(old(Now()), g)
    {
      var ok := true;
      if g.resend {
        ok := Resend();
      }
      if ok {
        FollowOn(g);
      } else {
        Closedown();
      }
    }

    /** `process` from the acknowledgement of a FIN on. */
    method FollowOn(g: Incoming)
      requires Valid() && state != CLOSED
      modifies this`unsent, this`mss, this`msslevel, this`writes, this`gone, this`acts, this`state, this`aborted, this`trail,
               this`available, this`finReceived, this`finAcked
      ensures Valid()
      ensures Now().(state := Follows(old(Now()), g).state) == Follows(old(Now()), g)
      ensures state == Follows(old(Now()), g).state || (state == CLOSED && !succeed)
      ensures acts == old(acts) + FollowActs(old(Now()), g)
    {
      Delivered(Now(), g);
      var ignored := FollowState(g);
      if !ignored {
        Deliver(g.delivered, g.ack);
      }
    }

    /** The changes of state that a segment brings about. */
    method FollowState(g: Incoming) returns (ignored: bool)
      requires Valid()
      modifies this`state, this`aborted, this`trail, this`mss, this`msslevel, this`finReceived, this`finAcked
      ensures Valid() && (ignored <==> support_fin_ack && g.fin && g.len != 0)
      ensures Now() == Follows(old(Now()), g).(available := old(available))
    {
      var is_fin_ack := g.finAcked && HasSentFin(state);
      Establish(g.ctl);
      ignored := FollowFlags(g, is_fin_ack);
    }

    method Deliver(n: nat, ack: SendFlags)
      requires Valid()
      modifies this`unsent, this`mss, this`msslevel, this`writes, this`gone, this`acts, this`state, this`aborted, this`trail,
               this`available
      ensures Valid() && available == old(available) + n
      ensures state == old(state) || (state == CLOSED && !succeed)
      ensures acts == old(acts) + [Attempts(SfNormal(ack))]
    {
      available := available + n;
      TrySend(ack);
    }

    /** The passive side is established by the first segment that is no CONNECT message. */
    method Establish(ctl: bool)
      requires Valid()
      modifies this`state, this`aborted, this`trail, this`mss, this`msslevel
      ensures Valid() && state == if old(state) == SYN_RECEIVED && !ctl then ESTABLISHED else old(state)
      ensures old(state) == SYN_RECEIVED && !ctl ==> mss == mtu_advise - PACKET_OVERHEAD
    {
      if state == SYN_RECEIVED && !ctl {
        SetEstablished();
      }
    }

    /** FIN and acknowledgement of a FIN; a FIN with data is ignored altogether. */
    method FollowFlags(g: Incoming, is_fin_ack: bool) returns (ignored: bool)
      requires Valid() && (is_fin_ack ==> HasSentFin(state))
      modifies this`state, this`aborted, this`trail, this`finReceived, this`finAcked
      ensures Valid() && (ignored <==> support_fin_ack && g.fin && g.len != 0)
      ensures state == if support_fin_ack && !ignored then FinNext(old(state), is_fin_ack, g.finInOrder) else old(state)
      ensures finReceived == (old(finReceived) || (support_fin_ack && !ignored && g.finInOrder))
      ensures finAcked == (old(finAcked) || (support_fin_ack && !ignored && is_fin_ack))
    {
      ignored := support_fin_ack && g.fin && g.len != 0;
      if support_fin_ack && !ignored {
        FollowFin(is_fin_ack, g.finInOrder);
      }
    }

    method TrySend(ack: SendFlags)
      requires Valid()
      modifies this`unsent, this`mss, this`msslevel, this`writes, this`gone, this`acts, this`state, this`aborted, this`trail
      ensures Valid()
      ensures state == old(state) || (state == CLOSED && !succeed)
      ensures acts == old(acts) + [Attempts(SfNormal(ack))]
    {
      AttemptSend(SfNormal(ack));
    }

    /** The transitions on a FIN and on the acknowledgement of ours. */
    method FollowFin(is_fin_ack: bool, received_fin: bool)
      requires Valid() && (is_fin_ack ==> HasSentFin(state))
      modifies this`state, this`aborted, this`trail, this`finReceived, this`finAcked
      ensures Valid() && state == FinNext(old(state), is_fin_ack, received_fin)
      ensures finReceived == (old(finReceived) || received_fin) && finAcked == (old(finAcked) || is_fin_ack)
    {
      finReceived, finAcked := finReceived || received_fin, finAcked || is_fin_ack;
      match state
      case ESTABLISHED =>
        if received_fin {
          Go(CLOSE_WAIT);
        }
      case CLOSING =>
        if is_fin_ack {
          Go(TIME_WAIT);
        }
      case LAST_ACK =>
        if is_fin_ack {
          Go(CLOSED);
        }
      case FIN_WAIT_1 =>
        if is_fin_ack && received_fin {
          Go(TIME_WAIT);
        } else if is_fin_ack {
          Go(FIN_WAIT_2);
        } else if received_fin {
          Go(CLOSING);
        }
      case FIN_WAIT_2 =>
        if received_fin {
          Go(TIME_WAIT);
        }
      case _ =>
    }

    method Handle(e: Event)
      requires Valid()
      modifies this
      ensures aborted <==> (e.Shutdown? && old(FinFails(e.how))) || (e == Close(false) && old(FinFails(RDWR)))
      ensures if aborted then Sane() && state == CLOSED else Valid() && Goes(old(Now()), e)
      ensures queued == old(queued) + Queues(old(Now()), e)
      ensures old(acts) <= acts && (Undisturbed(e) ==> acts == old(acts) + Acts(old(Now()), e))
    {
      if e.Shutdown? || e.Close? {
        HandleClosing(e);
      } else if e.Connect? || e.Send? || e.Recv? {
        HandleCall(e);
      } else if e.Clock? || e.NextClock? {
        HandleTimer(e);
      } else {
        HandleOther(e);
      }
    }

    method HandleClosing(e: Event)
      requires Valid() && (e.Shutdown? || e.Close?)
      modifies this`unsent, this`mss, this`msslevel, this`writes, this`gone, this`acts, this`state, this`aborted, this`trail,
               this`shutdown, this`shutdown_reads
      ensures aborted <==> (e.Shutdown? && old(FinFails(e.how))) || (e == Close(false) && old(FinFails(RDWR)))
      ensures if aborted then Sane() && state == CLOSED else Valid() && Now() == NextFacts(old(Now()), e)
      ensures old(acts) <= acts && (Undisturbed(e) ==> acts == old(acts) + Acts(old(Now()), e))
    {
      match e {
        case Shutdown(how) => DoShutdown(how, FinGoes());
        case Close(force) => DoClose(force);
      }
    }

    method HandleCall(e: Event)
      requires Valid() && (e.Connect? || e.Send? || e.Recv?)
      modifies this`unsent, this`mss, this`msslevel, this`writes, this`gone, this`acts, this`state, this`aborted, this`trail,
               this`queued, this`available
      ensures Valid() && Goes(old(Now()), e) && queued == old(queued) + Queues(old(Now()), e)
      ensures old(acts) <= acts && (Undisturbed(e) ==> acts == old(acts) + Acts(old(Now()), e))
    {
      match e {
        case Connect => DoConnect();
        case Send(len) => DoSend(len);
        case Recv(len, opens) => DoRecv(len, opens);
      }
    }

    method HandleTimer(e: Event)
      requires Valid() && (e.Clock? || e.NextClock?)
      modifies this`unsent, this`mss, this`msslevel, this`writes, this`gone, this`acts, this`state, this`aborted, this`trail,
               this`shutdown
      ensures Valid() && Goes(old(Now()), e) && queued == old(queued) + Queues(old(Now()), e)
      ensures old(acts) <= acts && (Undisturbed(e) ==> acts == old(acts) + Acts(old(Now()), e))
    {
      match e {
        case Clock(rtoDue, probeDue, dead, ackDue) => DoClock(rtoDue, probeDue, dead, ackDue);
        case NextClock(idle) => DoNextClock(idle);
      }
    }

    method HandleOther(e: Event)
      requires Valid() && (e.Packet? || e.Mtu?)
      modifies this
      ensures Valid() && Goes(old(Now()), e) && queued == old(queued) + Queues(old(Now()), e)
      ensures old(acts) <= acts && (Undisturbed(e) ==> acts == old(acts) + Acts(old(Now()), e))
    {
      match e {
        case Packet(g) => DoPacket(g);
        case Mtu(mtu) => DoMtu(mtu);
      }
    }
  }

  /** A course of events: each leads where it should, or to CLOSED, which is not left; with `succeed`, only what
      is retransmitted can lead elsewhere. */
  predicate Course(visited: seq<Facts>, events: seq<Event>, succeed: bool) {
    && |visited| == |events| + 1
    && (forall i :: 0 <= i < |events| ==>
          visited[i + 1] == NextFacts(visited[i], events[i]) || (visited[i + 1].state == CLOSED && !(succeed && Undisturbed(events[i]))))
    && (forall i, j :: 0 <= i <= j < |visited| && visited[i].state == CLOSED ==> visited[j].state == CLOSED)
  }

  lemma CourseOn(v: seq<Facts>, events: seq<Event>, succeed: bool, f: Facts, e: Event)
    requires Course(v, events, succeed)
    requires f == NextFacts(v[|events|], e) || (f.state == CLOSED && !(succeed && Undisturbed(e)))
    requires v[|events|].state == CLOSED ==> f.state == CLOSED
    ensures Course(v + [f], events + [e], succeed)
  {
    var w, es := v + [f], events + [e];
    forall i | 0 <= i < |es|
      ensures w[i + 1] == NextFacts(w[i], es[i]) || (w[i + 1].state == CLOSED && !(succeed && Undisturbed(es[i])))
    {
      if i < |events| {
        assert w[i + 1] == v[i + 1] && w[i] == v[i] && es[i] == events[i];
      }
    }
  }

  lemma ClosedStays(f: Facts, e: Event)
    requires f.state == CLOSED
    ensures NextFacts(f, e).state == CLOSED
  {
  }

  /** Whole runs of one socket, from its creation, for any calls and any answers of WritePacket:
      every change of state is allowed, CLOSED is entered only from the four states that may and
      never left, each event leads where it should unless a transmission fails, and only a shutdown
      can cut the run short; none does if all writes succeed. */
  method Run(events: seq<Event>, writes: seq<WriteResult>) returns (m: Machine, done: nat, ghost visited: seq<Facts>)
    ensures done <= |events| && |visited| == done + 1
    ensures visited[0] == Facts(LISTEN, true, 0, SD_NONE, false, false, false) && visited[done] == m.Now()
    ensures done < |events| ==> m.aborted
    ensures m.aborted ==> done > 0 && (events[done - 1].Shutdown? || events[done - 1] == Close(false))
    ensures AllSucceed(writes) ==> !m.aborted && done == |events|
    ensures !m.aborted ==> Course(visited, events, AllSucceed(writes))
    ensures m.aborted ==> Course(visited[..done], events[..done - 1], AllSucceed(writes)) && m.state == CLOSED
    ensures m.queued == AllQueued(visited, events[..done])
    ensures forall i :: 0 <= i < |m.trail.log| ==> Allowed(m.trail.log[i].0, m.trail.log[i].1) && m.trail.log[i].0 != CLOSED
    ensures Path(m.trail.log, LISTEN, m.state)
    ensures forall i :: 0 <= i < |m.trail.log| && m.trail.log[i].1 == CLOSED ==>
              m.trail.log[i].0 in {LISTEN, SYN_SENT, TIME_WAIT, LAST_ACK}
    ensures !m.aborted ==> Meaning(m.state, FinFlag in m.gone, m.finReceived, m.finAcked)
  {
    m := new Machine(writes);
    done, visited := Play(m, events);
    assert events[..|events|] == events;
    PathIsAllowed(m.trail.log, m.state);
  }

  /** The events one after the other. */
  method Play(m: Machine, events: seq<Event>) returns (done: nat, ghost visited: seq<Facts>)
    requires m.Valid() && m.queued == 0
    modifies m
    ensures done <= |events| && |visited| == done + 1 && visited[0] == old(m.Now()) && visited[done] == m.Now()
    ensures done < |events| ==> m.aborted
    ensures m.queued == AllQueued(visited, events[..done])
    ensures !m.aborted ==> m.Valid() && Course(visited, events[..done], m.succeed)
    ensures m.aborted ==> CutShort(m, events, done, visited)
  {
    done, visited := 0, [m.Now()];
    while done < |events| && !m.aborted
      invariant done <= |events| && |visited| == done + 1 && visited[0] == old(m.Now()) && visited[done] == m.Now()
      invariant m.queued == AllQueued(visited, events[..done])
      invariant !m.aborted ==> m.Valid() && Course(visited, events[..done], m.succeed)
      invariant m.aborted ==> CutShort(m, events, done, visited)
      decreases |events| - done
    {
      ghost var before := visited;
      visited := Step(m, events[done], visited, events[..done]);
      assert events[..done] + [events[done]] == events[..done + 1] && visited[..done + 1] == before;
      done := done + 1;
    }
  }

  /** The last event was a shutdown that has stopped the program. */
  ghost predicate CutShort(m: Machine, events: seq<Event>, done: nat, visited: seq<Facts>)
    reads m
  {
    && m.Sane() && m.state == CLOSED && !m.succeed && 0 < done <= |events| && |visited| == done + 1
    && (events[done - 1].Shutdown? || events[done - 1] == Close(false))
    && Course(visited[..done], events[..done - 1], m.succeed)
  }

  /** One event more. */
  method Step(m: Machine, e: Event, ghost v: seq<Facts>, ghost events: seq<Event>) returns (ghost visited: seq<Facts>)
    requires m.Valid()
    requires Course(v, events, m.succeed) && v[|events|] == m.Now() && m.queued == AllQueued(v, events)
    modifies m
    ensures visited == v + [m.Now()] && m.queued == AllQueued(visited, events + [e])
    ensures m.aborted ==> m.Sane() && m.state == CLOSED && !m.succeed && (e.Shutdown? || e == Close(false))
    ensures !m.aborted ==> m.Valid() && Course(visited, events + [e], m.succeed)
  {
    if m.succeed {
      SuccessFlushes(Queued(m.unsent, 0, FinFlag), m.mss, m.msslevel, m.writes);
    }
    m.Handle(e);
    visited := v + [m.Now()];
    assert (events + [e])[..|events|] == events;
    QueuedOn(v, visited, events, events + [e]);
    if !m.aborted {
      if v[|events|].state == CLOSED {
        ClosedStays(v[|events|], e);
      }
      CourseOn(v, events, m.succeed, m.Now(), e);
    }
  }

  /** The bytes that the events have queued. */
  function AllQueued(visited: seq<Facts>, events: seq<Event>): nat
    requires |visited| > |events|
  {
    if events == [] then 0
    else AllQueued(visited, events[..|events| - 1]) + Queues(visited[|events| - 1], events[|events| - 1])
  }

  lemma {:induction false} SameQueued(v: seq<Facts>, w: seq<Facts>, events: seq<Event>)
    requires |events| < |v| && v <= w
    ensures AllQueued(v, events) == AllQueued(w, events)
  {
    if events != [] {
      SameQueued(v, w, events[..|events| - 1]);
    }
  }

  lemma QueuedOn(v: seq<Facts>, w: seq<Facts>, before: seq<Event>, events: seq<Event>)
    requires v <= w && |v| == |before| + 1 && |w| == |v| + 1 && |events| == |before| + 1 && events[..|before|] == before
    ensures AllQueued(w, events) == AllQueued(v, before) + Queues(v[|before|], events[|before|])
  {
    SameQueued(v, w, before);
  }

  lemma PathIsAllowed(log: seq<(TcpState, TcpState)>, s: TcpState)
    requires Path(log, LISTEN, s) && !Leaves(log)
    ensures forall i :: 0 <= i < |log| ==> Allowed(log[i].0, log[i].1) && log[i].0 != CLOSED
    ensures forall i :: 0 <= i < |log| && log[i].1 == CLOSED ==> log[i].0 in {LISTEN, SYN_SENT, TIME_WAIT, LAST_ACK}
  {
  }
}
