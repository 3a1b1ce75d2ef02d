/** Two endpoints joined by a network that drops, duplicates and reorders segments: the invariant
    that every step keeps, and what it says about the two byte streams. */
module Network {
  import opened ByteFifo
  import opened SeqNum
  import opened Endpoint

  /** The direction from `s`, as sender, to `r`, as receiver. */
  ghost predicate Flow(s: View, r: View) {
    && r.inp <= s.out
    && s.una <= |r.inp| <= s.nxt <= |s.out|
    && s.una + s.wnd <= r.Edge() && s.nxt <= r.Edge() && CTL_LEN <= r.Edge()
    && r.rwnd <= r.space <= RCV_BUF
    && (|r.inp| < CTL_LEN ==> r.held == map[])
    && (forall p :: p in r.held ==> |r.inp| < p < s.nxt && r.held[p] == s.out[p])
  }

  ghost predicate AllHonest(v: View) {
    forall i :: 0 <= i < |v.sent| ==> Honest(v, v.Edge(), v.sent[i])
  }

  ghost predicate Joined(a: View, b: View) {
    Flow(a, b) && Flow(b, a) && AllHonest(a) && AllHonest(b) && InOrder(a) && InOrder(b)
  }

  /** Both streams and both window edges only move forward. */
  ghost predicate Forward(v: View, v': View) {
    && v.out <= v'.out && v.una <= v'.una && v.nxt <= v'.nxt
    && v.inp <= v'.inp && v.Edge() <= v'.Edge()
  }

  /** Data is in scope once the peer's CONNECT has been consumed. */
  predicate Ready(v: View, input: seq<Segment>) {
    input != [] && !input[0].ctl && input[0].data != [] ==> CTL_LEN <= |v.inp|
  }

  /** A run of bytes that agrees with `out` from the end of its prefix `inp` extends the prefix. */
  lemma RunExtendsPrefix(inp: seq<byte>, out: seq<byte>, m: map<int, byte>, limit: nat)
    requires inp <= out && |inp| <= limit <= |out|
    requires forall p :: p in m ==> |inp| <= p < limit && m[p] == out[p]
    ensures inp + Drain(m, |inp|) <= out && |inp + Drain(m, |inp|)| <= limit
    ensures |inp + Drain(m, |inp|)| !in m
  {
    var n, run := |inp|, Drain(m, |inp|);
    DrainIsFirstGap(m, n, run);
    if run != [] {
      assert n + |run| - 1 in m;
    }
    forall i | 0 <= i < |inp + run| ensures (inp + run)[i] == out[i] {
      if n <= i {
        assert i in m && ByteAt(run, n, i) == m[i];
      }
    }
  }

  /** Absorbing an honest data segment extends `inp` along the sender's stream and never takes
      more than the advertised window. */
  lemma AbsorbKeeps(v: View, v': View, peer: View, g: Segment)
    requires Flow(peer, v) && Honest(peer, peer.Edge(), g)
    requires Absorbs(v, v', g)
    ensures v.inp <= v'.inp <= peer.out && |v'.inp| <= peer.nxt
    ensures v'.rwnd == v.rwnd - (|v'.inp| - |v.inp|)
    ensures forall p :: p in v'.held ==> |v'.inp| < p < peer.nxt && v'.held[p] == peer.out[p]
  {
    TakenFromStream(v, v', peer, Accepted(v, g));
  }

  lemma TakenFromStream(v: View, v': View, peer: View, all: map<int, byte>)
    requires v.inp <= peer.out && |v.inp| <= peer.nxt <= |peer.out| && peer.nxt <= v.Edge() && v.rwnd <= RCV_BUF
    requires forall p :: p in all ==> |v.inp| <= p < peer.nxt && all[p] == peer.out[p]
    requires v'.inp == v.inp + Drain(all, |v.inp|) && v'.held == (map p | p in all && |v'.inp| <= p :: all[p])
    requires v'.rwnd == Wrap(v.rwnd - (|v'.inp| - |v.inp|))
    ensures v.inp <= v'.inp <= peer.out && |v'.inp| <= peer.nxt
    ensures v'.rwnd == v.rwnd - (|v'.inp| - |v.inp|)
    ensures forall p :: p in v'.held ==> |v'.inp| < p < peer.nxt && v'.held[p] == peer.out[p]
  {
    RunExtendsPrefix(v.inp, peer.out, all, peer.nxt);
  }

  lemma ReceiveKeeps(v: View, v': View, peer: View, input: seq<Segment>)
    requires Flow(peer, v) && Receives(v, v', input) && v'.space <= RCV_BUF && Ready(v, input)
    requires input != [] ==> Honest(peer, peer.Edge(), input[0])
    ensures v.inp <= v'.inp <= peer.out && |v'.inp| <= peer.nxt
    ensures v.Edge() <= v'.Edge() && v'.rwnd <= v'.space
    ensures |v'.inp| < CTL_LEN ==> v'.held == map[]
    ensures forall p :: p in v'.held ==> |v'.inp| < p < peer.nxt && v'.held[p] == peer.out[p]
  {
    if Reads(v, v') {
    } else if input[0].ctl {
      SkipKeeps(v, v', peer, input[0]);
    } else {
      AbsorbKeeps(v, v', peer, input[0]);
    }
  }

  lemma SkipKeeps(v: View, v': View, peer: View, g: Segment)
    requires Flow(peer, v) && Honest(peer, peer.Edge(), g) && g.ctl
    requires Skips(v, v', g)
    ensures v.inp <= v'.inp <= peer.out && |v'.inp| <= peer.nxt
    ensures v'.inp != v.inp ==> v'.held == map[]
  {
    if g.sqn <= |v.inp| < g.sqn + |g.data| {
      assert v'.inp == v.inp + From(g.data, |v.inp| - g.sqn);
      assert g.data == peer.out[g.sqn..g.sqn + |g.data|];
      assert v'.inp == peer.out[..g.sqn + |g.data|];
    }
  }

  /** Any call on one endpoint, given any segment the other has ever sent, keeps the two joined. */
  lemma StepKeepsJoined(v: View, v': View, peer: View, input: seq<Segment>)
    requires Joined(v, peer) && Step(v, v', input) && Ready(v, input)
    requires input != [] ==> input[0] in peer.sent
    ensures Joined(v', peer) && Forward(v, v')
  {
    ReceiveKeeps(v, v', peer, input);
    assert AllHonest(v') by {
      forall i | 0 <= i < |v'.sent| ensures Honest(v', v'.Edge(), v'.sent[i]) {
        if i < |v.sent| {
          assert v.sent[i] == v'.sent[i];
        }
      }
    }
  }

  /* ---------- what being joined means ---------- */

  /** The bytes that `r` has handed to its application are a prefix of those that `s` has accepted
      after its CONNECT message. */
  ghost predicate Prefix(s: View, r: View) {
    r.taken == [] || (CTL_LEN + |r.taken| <= |s.out| && r.taken == s.out[CTL_LEN..CTL_LEN + |r.taken|])
  }

  lemma JoinedPrefix(s: View, r: View)
    requires Joined(s, r)
    ensures Prefix(s, r)
  {
  }

  /** One step of the whole system: one of the two ends is called, with a segment that the other
      has sent at any time before, or without one. */
  ghost predicate Next(a: View, b: View, a': View, b': View, input: seq<Segment>) {
    || (b' == b && Step(a, a', input) && Ready(a, input) && (input != [] ==> input[0] in b.sent))
    || (a' == a && Step(b, b', input) && Ready(b, input) && (input != [] ==> input[0] in a.sent))
  }

  const FRESH: View := View.View([], 0, 0, 1, [], map[], RCV_BUF, RCV_BUF, [], [])

  lemma FreshIsJoined()
    ensures Joined(FRESH, FRESH)
  {
  }

  /** Whole runs: from two fresh sockets, whatever the network does, in every state reached each
      stream received is a prefix of the stream sent, snd_una <= the peer's rcv_nxt <= snd_nxt, the
      sender is inside the advertised window, and that window never exceeds the free space and
      its right edge never moves back. */
  lemma {:induction false} EveryRunIsSafe(run: seq<(View, View)>, inputs: seq<seq<Segment>>, i: nat)
    requires |run| > 0 && run[0] == (FRESH, FRESH) && |inputs| == |run|
    requires forall k :: 0 <= k < |run| - 1 ==> Next(run[k].0, run[k].1, run[k + 1].0, run[k + 1].1, inputs[k])
    requires i < |run|
    ensures Joined(run[i].0, run[i].1) && Prefix(run[i].0, run[i].1) && Prefix(run[i].1, run[i].0)
    ensures i > 0 ==> Forward(run[i - 1].0, run[i].0) && Forward(run[i - 1].1, run[i].1)
  {
    if i == 0 {
      FreshIsJoined();
      JoinedPrefix(FRESH, FRESH);
    } else {
      EveryRunIsSafe(run, inputs, i - 1);
      var (a, b) := run[i - 1];
      var (a', b') := run[i];
      assert Next(a, b, a', b', inputs[i - 1]);
      if b' == b && Step(a, a', inputs[i - 1]) && Ready(a, inputs[i - 1]) &&
         (inputs[i - 1] != [] ==> inputs[i - 1][0] in b.sent) {
        StepKeepsJoined(a, a', b, inputs[i - 1]);
      } else {
        StepKeepsJoined(b, b', a, inputs[i - 1]);
      }
      JoinedPrefix(a', b');
      JoinedPrefix(b', a');
    }
  }
}
