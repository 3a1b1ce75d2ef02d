/** The send queue: `slist`, made of the part in flight and of its never-transmitted suffix
    `unsent_slist`. */
module SendQueue {
  import opened Endpoint

  /** Control bytes and data bytes are never in one segment. */
  predicate Placed(s: SSegment) {
    if s.ctl then s.len > 0 && s.sqn + s.len <= CTL_LEN else CTL_LEN <= s.sqn
  }

  /** Transmitted segments that tile `[lo, hi)`. */
  predicate Flying(s: seq<SSegment>, lo: nat, hi: nat) {
    if s == [] then lo == hi
    else s[0].sqn == lo && s[0].xmit > 0 && s[0].len > 0 && Placed(s[0]) && Flying(s[1..], lo + s[0].len, hi)
  }

  /** Never-transmitted segments that tile `[lo, hi)`; only the last, still growing, may be empty. */
  predicate Pending(s: seq<SSegment>, lo: nat, hi: nat) {
    if s == [] then lo == hi
    else s[0].sqn == lo && s[0].xmit == 0 && (|s| > 1 ==> s[0].len > 0) && Placed(s[0])
         && Pending(s[1..], lo + s[0].len, hi)
  }

  /** The segments cover `[lo, hi)` in order, without gap or overlap: each sequence number in the
      range lies in exactly one of them, and none lies outside. */
  ghost predicate Tiling(s: seq<SSegment>, lo: nat, hi: nat) {
    && (forall p :: lo <= p < hi <==> Covered(s, p))
    && (forall i, j, p :: 0 <= i < j < |s| && Has(s[i], p) ==> !Has(s[j], p))
  }

  predicate Has(s: SSegment, p: int) {
    s.sqn <= p < s.sqn + s.len
  }

  predicate Covered(s: seq<SSegment>, p: int) {
    exists i :: 0 <= i < |s| && Has(s[i], p)
  }

  /** What `transmit` makes of the segment it was given: its first `n` bytes, sent once more ... */
  function Front(s: SSegment, n: nat): SSegment {
    s.(len := n, xmit := s.xmit + 1)
  }

  /** ... and the rest, if any, as a segment of its own. */
  function Rest(s: SSegment, n: nat): seq<SSegment>
    requires n <= s.len
  {
    if n < s.len then [s.(sqn := s.sqn + n, len := s.len - n)] else []
  }

  lemma {:induction false} FlyingConcat(a: seq<SSegment>, b: seq<SSegment>, lo: nat, mid: nat, hi: nat)
    requires Flying(a, lo, mid) && Flying(b, mid, hi)
    ensures Flying(a + b, lo, hi)
  {
    if a == [] {
      assert a + b == b;
    } else {
      assert (a + b)[1..] == a[1..] + b;
      FlyingConcat(a[1..], b, lo + a[0].len, mid, hi);
    }
  }

  lemma {:induction false} PendingConcat(a: seq<SSegment>, b: seq<SSegment>, lo: nat, mid: nat, hi: nat)
    requires Pending(a, lo, mid) && Pending(b, mid, hi)
    requires a != [] ==> a[|a| - 1].len > 0
    ensures Pending(a + b, lo, hi)
  {
    if a == [] {
      assert a + b == b;
    } else {
      assert (a + b)[1..] == a[1..] + b;
      PendingConcat(a[1..], b, lo + a[0].len, mid, hi);
    }
  }

  /** The tail can take more bytes while it has not been transmitted. */
  lemma {:induction false} GrowTail(u: seq<SSegment>, lo: nat, hi: nat, n: nat)
    requires Pending(u, lo, hi) && u != [] && !u[|u| - 1].ctl
    ensures Pending(u[|u| - 1 := u[|u| - 1].(len := u[|u| - 1].len + n)], lo, hi + n)
  {
    var u' := u[|u| - 1 := u[|u| - 1].(len := u[|u| - 1].len + n)];
    if |u| == 1 {
      assert u'[1..] == [] == u[1..];
    } else {
      GrowTail(u[1..], lo + u[0].len, hi, n);
      assert u'[1..] == u[1..][|u| - 2 := u'[|u| - 1]];
    }
  }

  /** Splitting the first unsent segment. */
  lemma SplitHead(u: seq<SSegment>, lo: nat, hi: nat, n: nat)
    requires Pending(u, lo, hi) && u != [] && 0 < n < u[0].len
    ensures Pending([u[0].(len := n), u[0].(sqn := u[0].sqn + n, len := u[0].len - n)] + u[1..], lo, hi)
  {
  }

  /** Retransmission of the head of the queue, whole or in part. */
  lemma CutFlying(f: seq<SSegment>, lo: nat, hi: nat, n: nat)
    requires Flying(f, lo, hi) && f != [] && 0 < n <= f[0].len
    ensures Flying([Front(f[0], n)] + Rest(f[0], n) + f[1..], lo, hi)
  {
  }

  /** First transmission: `n` bytes join the part in flight ... */
  lemma Launch(f: seq<SSegment>, lo: nat, mid: nat, x: SSegment, n: nat)
    requires Flying(f, lo, mid) && Placed(x) && x.sqn == mid && 0 < n <= x.len
    ensures Flying(f + [Front(x, n)], lo, mid + n)
  {
    FlyingConcat(f, [Front(x, n)], lo, mid, mid + n);
  }

  /** ... and leave the unsent part. */
  lemma Leave(u: seq<SSegment>, mid: nat, hi: nat, n: nat)
    requires Pending(u, mid, hi) && u != [] && 0 < n <= u[0].len
    ensures Pending(Rest(u[0], n) + u[1..], mid + n, hi)
  {
    var r := Rest(u[0], n);
    if r == [] {
      assert r + u[1..] == u[1..];
    } else {
      assert (r + u[1..])[1..] == u[1..];
    }
  }

  lemma {:induction false} FlyingSpan(f: seq<SSegment>, lo: nat, hi: nat)
    requires Flying(f, lo, hi)
    ensures lo <= hi && (f == [] <==> lo == hi) && (f != [] ==> lo + f[0].len <= hi)
  {
    if f != [] {
      FlyingSpan(f[1..], lo + f[0].len, hi);
    }
  }

  lemma {:induction false} PendingSpan(u: seq<SSegment>, lo: nat, hi: nat)
    requires Pending(u, lo, hi)
    ensures lo <= hi && (u != [] ==> lo + u[0].len <= hi)
    ensures lo < hi ==> u != [] && u[0].len > 0
  {
    if u != [] {
      PendingSpan(u[1..], lo + u[0].len, hi);
    }
  }

  lemma {:induction false} FlyingAt(f: seq<SSegment>, lo: nat, hi: nat, i: nat)
    requires Flying(f, lo, hi) && i < |f|
    ensures f[i].xmit > 0 && f[i].len > 0
  {
    if i > 0 {
      FlyingAt(f[1..], lo + f[0].len, hi, i - 1);
    }
  }

  lemma {:induction false} PendingAt(u: seq<SSegment>, lo: nat, hi: nat, i: nat)
    requires Pending(u, lo, hi) && i < |u|
    ensures u[i].xmit == 0 && (u[i].ctl ==> u[i].len > 0)
  {
    if i > 0 {
      PendingAt(u[1..], lo + u[0].len, hi, i - 1);
    }
  }

  lemma NothingQueued(f: seq<SSegment>, u: seq<SSegment>)
    requires Flying(f, 0, 0) && Pending(u, 0, 0)
    ensures f == [] && u == []
  {
    FlyingSpan(f, 0, 0);
    PendingSpan(u, 0, 0);
  }

  /** Replacing the first unsent segment in the whole queue, seen from its two parts. */
  lemma Splice(f: seq<SSegment>, u: seq<SSegment>, x: SSegment, rest: seq<SSegment>)
    requires u != []
    ensures (f + u)[|f|] == u[0]
    ensures (f + u)[..|f|] + [x] + rest + (f + u)[|f| + 1..] == (f + [x]) + (rest + u[1..])
  {
  }

  /* ---------- what the two predicates say of single bytes ---------- */

  lemma {:induction false} PendingTiles(u: seq<SSegment>, lo: nat, hi: nat)
    requires Pending(u, lo, hi)
    ensures Tiling(u, lo, hi)
  {
    if u != [] {
      PendingTiles(u[1..], lo + u[0].len, hi);
      PendingSpan(u, lo, hi);
      TilingCons(u, lo, hi);
    }
  }

  lemma {:induction false} QueueTiles(f: seq<SSegment>, u: seq<SSegment>, una: nat, nxt: nat, end: nat)
    requires Flying(f, una, nxt) && Pending(u, nxt, end)
    ensures Tiling(f + u, una, end)
  {
    if f == [] {
      assert f + u == u;
      PendingTiles(u, nxt, end);
    } else {
      QueueTiles(f[1..], u, una + f[0].len, nxt, end);
      assert (f + u)[1..] == f[1..] + u;
      FlyingSpan(f, una, nxt);
      PendingSpan(u, nxt, end);
      TilingCons(f + u, una, end);
    }
  }

  lemma TilingCons(s: seq<SSegment>, lo: nat, hi: nat)
    requires s != [] && s[0].sqn == lo && lo + s[0].len <= hi
    requires Tiling(s[1..], lo + s[0].len, hi)
    ensures Tiling(s, lo, hi)
  {
    var t := s[1..];
    assert forall i :: 1 <= i < |s| ==> s[i] == t[i - 1];
    forall p: int ensures lo <= p < hi <==> Covered(s, p) {
      assert Covered(t, p) <==> lo + s[0].len <= p < hi;
      if Has(s[0], p) {
      } else if Covered(t, p) {
        var i :| 0 <= i < |t| && Has(t[i], p);
        assert Has(s[i + 1], p);
      }
    }
    forall i, j, p | 0 <= i < j < |s| && Has(s[i], p) ensures !Has(s[j], p) {
      if i == 0 && Has(s[j], p) {
        assert Has(t[j - 1], p);
        assert Covered(t, p);
      } else if i > 0 {
        assert Has(t[i - 1], p);
      }
    }
  }
}
