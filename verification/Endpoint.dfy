/** Values of the pseudo-TCP protocol: segments, the reference definition of reassembly, and the
    abstract state of one endpoint with the relation that every call on a socket keeps. */
module Endpoint {
  import opened ByteFifo
  import opened SeqNum

  /** What `packet` puts on the wire.  `ctl` is FLAG_CTL; `sqn` and `ack` are the unbounded
      numbers whose low 32 bits are sent. */
  datatype Segment = Segment(sqn: int, ack: nat, wnd: nat, ctl: bool, data: seq<byte>, tsval: u32, tsecr: u32)

  datatype SSegment = SSegment(sqn: nat, len: nat, xmit: nat, ctl: bool)

  datatype RSegment = RSegment(sqn: nat, len: nat)

  const RCV_BUF: nat := 60 * 1024
  const SND_BUF: nat := 90 * 1024

  /** CTL_CONNECT, then the window-scale and FIN-ACK options. */
  const CONNECT: seq<byte> := [0, 3, 1, 0, 254, 1, 0]

  /** The length of the CONNECT message. */
  const CTL_LEN: nat := 7

  /* ---------- reassembly ---------- */

  /** The byte that a segment starting at `at` carries for sequence number `p`. */
  function ByteAt(data: seq<byte>, at: int, p: int): byte
    requires at <= p < at + |data|
  {
    data[p - at]
  }

  /** The bytes of a segment that fall in the window `[lo, hi)`, by sequence number. */
  function Fresh(at: int, data: seq<byte>, lo: int, hi: int): map<int, byte> {
    map p: int | lo <= p < hi && at <= p < at + |data| :: ByteAt(data, at, p)
  }

  /** The longest run of consecutive bytes present from `n` on. */
  function Drain(m: map<int, byte>, n: int): seq<byte>
    decreases |m|
  {
    if n in m then
      assert m.Keys == (m - {n}).Keys + {n};
      [m[n]] + Drain(m - {n}, n + 1)
    else []
  }

  /** `r` is present in `m` from `n` on, up to a gap. */
  ghost predicate RunsToGap(m: map<int, byte>, n: int, r: seq<byte>) {
    && (forall p :: n <= p < n + |r| ==> p in m && ByteAt(r, n, p) == m[p])
    && n + |r| !in m
  }

  /** `Drain` stops exactly at the first gap, and is the only run that does. */
  lemma DrainIsFirstGap(m: map<int, byte>, n: int, r: seq<byte>)
    ensures r == Drain(m, n) <==> RunsToGap(m, n, r)
  {
    DrainRunsToGap(m, n);
    if RunsToGap(m, n, r) {
      var d := Drain(m, n);
      assert |r| == |d|;
      forall i | 0 <= i < |r| ensures r[i] == d[i] {
        assert ByteAt(r, n, n + i) == m[n + i] == ByteAt(d, n, n + i);
      }
    }
  }

  lemma {:induction false} DrainRunsToGap(m: map<int, byte>, n: int)
    ensures RunsToGap(m, n, Drain(m, n))
    decreases |m|
  {
    if n in m {
      assert m.Keys == (m - {n}).Keys + {n};
      DrainRunsToGap(m - {n}, n + 1);
      var rest := Drain(m - {n}, n + 1);
      forall p | n <= p < n + 1 + |rest|
        ensures p in m && ByteAt([m[n]] + rest, n, p) == m[p]
      {
        if n < p {
          assert ByteAt(rest, n + 1, p) == m[p];
        }
      }
    }
  }

  /** `s` from index `n` on. */
  function From(s: seq<byte>, n: nat): seq<byte>
    requires n <= |s|
  {
    seq(|s| - n, i requires 0 <= i < |s| - n => s[n + i])
  }

  /** `a` is `b` without its first `n` bytes. */
  predicate Suffix(a: seq<byte>, b: seq<byte>, n: int) {
    0 <= n && |b| == n + |a| && forall p {:trigger ByteAt(a, n, p)} :: n <= p < |b| ==> ByteAt(a, n, p) == b[p]
  }

  /* ---------- one endpoint ---------- */

  /** What the other end, the network and the application can tell about a socket.
      - `out`: every byte ever queued for sending; the byte at index i has sequence number i
      - `inp`: every byte accepted in order; its length is rcv_nxt
      - `held`: the bytes staged out of order, by sequence number
      - `space`: free space of the receive buffer
      - `taken`: every byte handed to the application
      - `sent`: every segment given to the network */
  datatype View = View(out: seq<byte>, una: nat, nxt: nat, wnd: nat,
                       inp: seq<byte>, held: map<int, byte>, rwnd: nat, space: nat,
                       taken: seq<byte>, sent: seq<Segment>)
  {
    /** The right edge of the advertised window. */
    function Edge(): nat {
      |inp| + rwnd
    }
  }

  function Max(a: int, b: int): int {
    if a < b then b else a
  }

  /** All that is accepted once `g` is: what was staged, overwritten by what of `g` fits. */
  function Accepted(v: View, g: Segment): map<int, byte> {
    v.held + Fresh(g.sqn, g.data, |v.inp|, |v.inp| + v.space)
  }

  /** A data segment moves `inp` to the first gap of what is accepted and stages the rest. */
  predicate Absorbs(v: View, v': View, g: Segment) {
    var all := Accepted(v, g);
    && v'.inp == v.inp + Drain(all, |v.inp|)
    && v'.held == (map p | p in all && |v'.inp| <= p :: all[p])
    && v'.space == v.space - (|v'.inp| - |v.inp|)
    && v'.rwnd == Wrap(v.rwnd - (|v'.inp| - |v.inp|))
    && v'.taken == v.taken
  }

  /** A control segment uses sequence space but no buffer space. */
  predicate Skips(v: View, v': View, g: Segment) {
    && v'.inp == v.inp + (if g.sqn <= |v.inp| < g.sqn + |g.data| then From(g.data, |v.inp| - g.sqn) else [])
    && v'.held == v.held && v'.space == v.space && v'.rwnd == v.rwnd && v'.taken == v.taken
  }

  /** Reading moves bytes to the application and may open the window to the whole free space. */
  predicate Reads(v: View, v': View) {
    && v'.inp == v.inp && v'.held == v.held
    && v.taken <= v'.taken
    && v'.space == v.space + |v'.taken| - |v.taken|
    && (v'.rwnd == v.rwnd || v'.rwnd == v'.space)
  }

  /** A segment that may be on the wire once `out[..nxt]` has been transmitted, `ack` received and
      the advertised window's right edge is `edge`. */
  predicate OnWire(out: seq<byte>, nxt: nat, ack: nat, edge: nat, g: Segment) {
    && g.ack <= ack && g.ack + g.wnd <= edge && (g.data == [] ==> !g.ctl)
    && (g.data != [] ==>
          && 0 <= g.sqn && g.sqn + |g.data| <= nxt <= |out|
          && g.data == out[g.sqn..g.sqn + |g.data|]
          && (if g.ctl then g.sqn + |g.data| <= CTL_LEN else CTL_LEN <= g.sqn))
  }

  /** A segment that `v` may put on the wire, when its window's right edge is at most `edge`. */
  predicate Honest(v: View, edge: nat, g: Segment) {
    OnWire(v.out, v.nxt, |v.inp|, edge, g)
  }

  /** Transmission: new bytes stay inside the peer's window, and every new segment is honest. */
  predicate Sends(v: View, v': View) {
    && v.nxt <= v'.nxt <= Max(v.nxt, v'.una + v'.wnd)
    && v.sent <= v'.sent
    && forall i :: |v.sent| <= i < |v'.sent| ==> Honest(v', Max(v.Edge(), v'.Edge()), v'.sent[i])
  }

  /** Acknowledgement processing: the send window's left edge moves to a new acknowledgement or
      stays, and its right edge is the old one, the one `g` advertises, or the handshake's. */
  predicate Acks(v: View, v': View, input: seq<Segment>) {
    || (v'.una == v.una && v'.wnd == v.wnd)
    || (v'.una == v.una == 0 && v'.wnd == CTL_LEN)
    || (input != [] && v'.una == input[0].ack && v'.wnd == input[0].wnd
        && (v'.una == v.una || v.una < v'.una <= v.nxt))
  }

  predicate Receives(v: View, v': View, input: seq<Segment>) {
    || Reads(v, v')
    || (input != [] && (if input[0].ctl then Skips(v, v', input[0]) else Absorbs(v, v', input[0])))
  }

  /** What the application has been given is the stream after the CONNECT message, in order. */
  predicate InOrder(v: View) {
    v.taken == [] || (CTL_LEN + |v.taken| <= |v.inp| && v.taken == v.inp[CTL_LEN..CTL_LEN + |v.taken|])
  }

  /** What one call on a socket does.  `input` holds the segment it was given, if any. */
  predicate Step(v: View, v': View, input: seq<Segment>) {
    && v.out <= v'.out
    && v'.nxt <= |v'.out|
    && v'.space <= RCV_BUF && InOrder(v')
    && Acks(v, v', input)
    && Receives(v, v', input)
    && Sends(v, v')
  }
}
