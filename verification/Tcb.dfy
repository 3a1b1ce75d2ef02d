/** The private record of a pseudo-TCP socket, in three parts, and their invariants. */
module Tcb {
  import opened ByteFifo
  import opened SeqNum
  import opened Endpoint
  import opened SendQueue

  datatype Errno = Ok | TimedOut | ConnAborted | MsgSize
  datatype State = Listen | SynSent | SynReceived | Established | Closed

  const PACKET_MAXIMUMS: seq<nat> := [65535, 32000, 17914, 8166, 4352, 2002, 1492, 1006, 508, 296, 0]
  const DEF_MTU: nat := 1400
  const MIN_PACKET: nat := 296
  const HEADER_SIZE: nat := 24
  const PACKET_OVERHEAD: nat := HEADER_SIZE + 8 + 20 + 64
  const MAX_PACKET: nat := 65532
  const MIN_RTO: nat := 1000
  const DEF_RTO: nat := 1000
  const MAX_RTO: nat := 60000
  const DEFAULT_ACK_DELAY: nat := 100

  /** Outgoing data.  The numbers are unbounded; the C fields hold their low 32 bits. */
  datatype SendPart = SendPart(slist: seq<SSegment>, unsent_slist: seq<SSegment>,
                               snd_una: nat, snd_nxt: nat, sbuf: ByteQueue)
  {
    /** The sequence number that the next byte to be queued will have. */
    function End(): nat {
      snd_una + |sbuf.contents|
    }
  }

  /** Incoming data. */
  datatype RecvPart = RecvPart(rlist: seq<RSegment>, rcv_nxt: nat, rcv_wnd: u32, rbuf: ByteQueue)

  /** Everything else: segment size, windows, timers and congestion control. */
  datatype Control = Control(
    state: State, snd_wnd: nat, mss: nat, msslevel: nat, mtu_advise: nat,
    rto_base: u32, ts_recent: u32, ts_lastack: nat, rx_rttvar: nat, rx_srtt: nat, rx_rto: nat,
    ssthresh: nat, cwnd: u32, dup_acks: nat, recover: nat, fast_recovery: bool,
    t_ack: u32, last_acked_ts: u32, lastsend: u32, lastrecv: u32, use_nagling: bool, ack_delay: u32)

  /** The queue given by its two parts: `flight` tiles [snd_una, snd_nxt) and `unsent_slist`, the
      never-transmitted rest of slist, tiles [snd_nxt, End). */
  predicate QueueIs(q: SendPart, flight: seq<SSegment>) {
    && |q.sbuf.contents| + |q.sbuf.free| == SND_BUF
    && q.slist == flight + q.unsent_slist
    && Flying(flight, q.snd_una, q.snd_nxt)
    && Pending(q.unsent_slist, q.snd_nxt, q.End())
  }

  function Flight(q: SendPart): seq<SSegment> {
    if |q.unsent_slist| <= |q.slist| then q.slist[..|q.slist| - |q.unsent_slist|] else []
  }

  predicate QueueValid(q: SendPart) {
    QueueIs(q, Flight(q))
  }

  predicate MssValid(c: Control) {
    0 < c.mss <= 65535 - PACKET_OVERHEAD && c.msslevel <= 9
  }

  /** A running retransmission timer means that there is something in flight. */
  predicate TimersValid(c: Control, una: nat, nxt: nat) {
    && (c.rto_base != 0 ==> una < nxt)
    && c.recover <= nxt && c.ssthresh > 0 && MIN_RTO <= c.rx_rto <= MAX_RTO
  }

  /** A segment that the socket may give to the network: the current acknowledgement and window,
      and bytes of the send buffer that are in flight. */
  predicate Emits(q: SendPart, r: RecvPart, g: Segment) {
    && g.ack == r.rcv_nxt && g.wnd == r.rcv_wnd % 0x1_0000 && (g.data == [] ==> !g.ctl)
    && (g.data != [] ==>
          && q.snd_una <= g.sqn && g.sqn + |g.data| <= q.snd_nxt <= q.End()
          && g.data == q.sbuf.contents[g.sqn - q.snd_una..g.sqn - q.snd_una + |g.data|]
          && (if g.ctl then g.sqn + |g.data| <= CTL_LEN else CTL_LEN <= g.sqn))
  }

  predicate AllEmitted(q: SendPart, r: RecvPart, pk: seq<Segment>) {
    pk == [] || (AllEmitted(q, r, pk[..|pk| - 1]) && Emits(q, r, pk[|pk| - 1]))
  }

  lemma EmittedOne(q: SendPart, r: RecvPart, g: Segment)
    requires Emits(q, r, g)
    ensures AllEmitted(q, r, [g])
  {
  }

  lemma {:induction false} AllEmittedStays(q: SendPart, q': SendPart, r: RecvPart, pk: seq<Segment>)
    requires AllEmitted(q, r, pk)
    requires q'.sbuf == q.sbuf && q'.snd_una == q.snd_una && q.snd_nxt <= q'.snd_nxt <= q.End()
    ensures AllEmitted(q', r, pk)
  {
    if pk != [] {
      AllEmittedStays(q, q', r, pk[..|pk| - 1]);
    }
  }

  lemma {:induction false} AllEmittedConcat(q: SendPart, r: RecvPart, a: seq<Segment>, b: seq<Segment>)
    requires AllEmitted(q, r, a) && AllEmitted(q, r, b)
    ensures AllEmitted(q, r, a + b)
  {
    if b == [] {
      assert a + b == a;
    } else {
      AllEmittedConcat(q, r, a, b[..|b| - 1]);
      assert (a + b)[..|a + b| - 1] == a + b[..|b| - 1];
    }
  }

  lemma {:induction false} AllEmittedAt(q: SendPart, r: RecvPart, pk: seq<Segment>, i: nat)
    requires AllEmitted(q, r, pk) && i < |pk|
    ensures Emits(q, r, pk[i])
  {
    if i < |pk| - 1 {
      AllEmittedAt(q, r, pk[..|pk| - 1], i);
    }
  }

  lemma QueueIsValid(q: SendPart, flight: seq<SSegment>)
    requires QueueIs(q, flight)
    ensures QueueValid(q) && Flight(q) == flight
  {
  }

  lemma QueueSpan(q: SendPart)
    requires QueueValid(q)
    ensures q.snd_una <= q.snd_nxt <= q.End() && |q.sbuf.contents| <= SND_BUF
    ensures q.snd_una < q.snd_nxt <==> Flight(q) != []
    ensures Flight(q) != [] ==> q.slist != [] && q.slist[0] == Flight(q)[0] && q.snd_una + Flight(q)[0].len <= q.snd_nxt
    ensures q.snd_nxt < q.End() ==> q.unsent_slist != [] && q.unsent_slist[0].len > 0
    ensures q.unsent_slist != [] ==> q.snd_nxt + q.unsent_slist[0].len <= q.End()
  {
    FlyingSpan(Flight(q), q.snd_una, q.snd_nxt);
    PendingSpan(q.unsent_slist, q.snd_nxt, q.End());
  }
}
