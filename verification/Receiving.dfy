/** The receiving half of the pseudo-TCP socket: trimming, staging out of order, reassembly. */
module Receiving {
  import opened ByteFifo
  import opened SeqNum
  import opened Endpoint
  import opened Tcb

  predicate Covers(rl: seq<RSegment>, p: int) {
    exists i :: 0 <= i < |rl| && rl[i].sqn <= p < rl[i].sqn + rl[i].len
  }

  predicate Ordered(rl: seq<RSegment>) {
    forall i, j :: 0 <= i < j < |rl| ==> Before(rl, i, j)
  }

  predicate Before(rl: seq<RSegment>, i: nat, j: nat)
    requires i < |rl| && j < |rl|
  {
    rl[i].sqn <= rl[j].sqn
  }

  /** Ranges received out of order start past `nxt` and fit in the free space behind it. */
  predicate Staged(rl: seq<RSegment>, nxt: nat, space: nat) {
    forall i :: 0 <= i < |rl| ==> nxt < rl[i].sqn && rl[i].len > 0 && rl[i].sqn + rl[i].len <= nxt + space
  }

  predicate RecvValid(r: RecvPart) {
    && |r.rbuf.contents| + |r.rbuf.free| == RCV_BUF
    && Ordered(r.rlist) && Staged(r.rlist, r.rcv_nxt, |r.rbuf.free|)
    && (r.rcv_nxt < CTL_LEN ==> r.rlist == [] && r.rbuf.contents == [])
  }

  /** The bytes staged in the free area of the receive buffer, by sequence number. */
  ghost function Held(r: RecvPart): map<int, byte> {
    map p: int | r.rcv_nxt <= p < r.rcv_nxt + |r.rbuf.free| && Covers(r.rlist, p) :: ByteAt(r.rbuf.free, r.rcv_nxt, p)
  }

  /** All that is accepted once the bytes `data` from `sqn` on are. */
  ghost function AcceptedBy(r: RecvPart, sqn: int, data: seq<byte>): map<int, byte> {
    Held(r) + Fresh(sqn, data, r.rcv_nxt, r.rcv_nxt + |r.rbuf.free|)
  }

  /** Skipping `skip` of `n` bytes at `sqn` and keeping `len` keeps exactly those in `[lo, hi)`. */
  predicate Keeps(sqn: int, n: nat, lo: int, hi: int, skip: nat, len: nat) {
    && skip + len <= n
    && var a, b := Max(sqn, lo), Min(sqn + n, hi);
    if a < b then sqn + skip == a && sqn + skip + len == b else len == 0
  }

  /** The code's 32-bit trimming of `len0` bytes at `sqn0`: what to skip and how many to keep. */
  method TrimRange(nxt: nat, space: nat, sqn0: int, len0: nat) returns (skip: nat, len: nat)
    requires space <= RCV_BUF && (len0 > 0 ==> -HALF < sqn0 - nxt && sqn0 + len0 - nxt < HALF - 1)
    ensures Keeps(sqn0, len0, nxt, nxt + space, skip, len)
  {
    skip, len := 0, len0;
    if Smaller(sqn0, nxt) {
      var nAdjust := Minus(nxt, sqn0);
      if nAdjust < len {
        skip, len := nAdjust, len - nAdjust;
      } else {
        len := 0;
      }
    }
    if Minus(sqn0 + skip + len, nxt) > space {
      var nAdjust := Minus(sqn0 + skip + len, nxt) - space;
      if nAdjust < len {
        len := len - nAdjust;
      } else {
        len := 0;
      }
    }
  }

  /** Moving rcv_nxt over `n` staged bytes. */
  function Taking(r: RecvPart, n: nat): RecvPart
    requires n <= |r.rbuf.free|
  {
    r.(rbuf := r.rbuf.ConsumeWriteBuffer(n), rcv_nxt := r.rcv_nxt + n, rcv_wnd := Wrap(r.rcv_wnd - n))
  }

  lemma TakingTwice(r: RecvPart, n: nat, m: nat)
    requires n + m <= |r.rbuf.free|
    ensures Taking(Taking(r, n), m) == Taking(r, n + m)
  {
  }

  /** After in-order data up to `n` bytes past rcv_nxt has been written: takes it, and every staged
      range that it reaches, off the front of rlist.  What is left starts past a gap. */
  method Merge(r0: RecvPart, n0: nat) returns (r: RecvPart, n: nat)
    requires Ordered(r0.rlist) && Staged(r0.rlist, r0.rcv_nxt, |r0.rbuf.free|)
    requires 0 < n0 <= |r0.rbuf.free| <= RCV_BUF
    ensures n0 <= n <= |r0.rbuf.free| && r == Taking(r0, n).(rlist := r.rlist)
    ensures |r.rlist| <= |r0.rlist| && r.rlist == r0.rlist[|r0.rlist| - |r.rlist|..]
    ensures forall i :: 0 <= i < |r.rlist| ==> r0.rcv_nxt + n < r.rlist[i].sqn
    ensures forall i :: 0 <= i < |r0.rlist| - |r.rlist| ==> r0.rlist[i].sqn + r0.rlist[i].len <= r0.rcv_nxt + n
    ensures forall p :: r0.rcv_nxt + n0 <= p < r0.rcv_nxt + n ==> Covers(r0.rlist, p)
  {
    r, n := Taking(r0, n0), n0;
    ghost var j := 0;
    while r.rlist != []
      invariant n0 <= n <= |r0.rbuf.free| && r == Taking(r0, n).(rlist := r.rlist)
      invariant 0 <= j <= |r0.rlist| && r.rlist == r0.rlist[j..]
      invariant forall i :: 0 <= i < j ==> r0.rlist[i].sqn + r0.rlist[i].len <= r0.rcv_nxt + n
      invariant forall p :: r0.rcv_nxt + n0 <= p < r0.rcv_nxt + n ==> Covers(r0.rlist, p)
      decreases |r.rlist|
    {
      var data := r.rlist[0];
      assert data == r0.rlist[j];
      var reached, nAdjust := Overlap(data, r.rcv_nxt);
      if !reached {
        forall i | 0 < i < |r.rlist| ensures r.rcv_nxt < r.rlist[i].sqn {
          assert Before(r0.rlist, j, j + i);
        }
        break;
      }
      TakingTwice(r0, n, nAdjust);
      r, n := Taking(r, nAdjust).(rlist := r.rlist[1..]), n + nAdjust;
      j := j + 1;
    }
  }

  /** Whether a staged range is reached by rcv_nxt, and how far it goes past it: 32-bit. */
  method Overlap(data: RSegment, nxt: nat) returns (reached: bool, nAdjust: nat)
    requires 2 - HALF <= data.sqn - nxt && data.sqn + data.len - nxt < HALF - 1
    ensures reached <==> data.sqn <= nxt
    ensures nAdjust == if reached then Max(0, data.sqn + data.len - nxt) else 0
  {
    reached, nAdjust := SmallerOrEqual(data.sqn, nxt), 0;
    if reached && Larger(data.sqn + data.len, nxt) {
      nAdjust := Minus(data.sqn + data.len, nxt);
    }
  }

  /** A data segment moves rcv_nxt to the first gap of all that is accepted, hands the bytes before
      it to the buffer's queue and leaves the rest staged. */
  ghost predicate Absorbed(r0: RecvPart, r: RecvPart, all: map<int, byte>) {
    var run := Drain(all, r0.rcv_nxt);
    && r.rcv_nxt == r0.rcv_nxt + |run|
    && r.rbuf.contents == r0.rbuf.contents + run
    && r.rcv_wnd == Wrap(r0.rcv_wnd - |run|)
    && Held(r) == (map p | p in all && r.rcv_nxt <= p :: all[p])
  }

  /** `w` is `r` with a segment written at its place in the free area, next to what is staged. */
  ghost predicate Written(r: RecvPart, w: RecvPart, all: map<int, byte>) {
    && w == r.(rbuf := w.rbuf) && w.rbuf.contents == r.rbuf.contents && |w.rbuf.free| == |r.rbuf.free|
    && forall p :: p in all ==> r.rcv_nxt <= p < r.rcv_nxt + |w.rbuf.free| && ByteAt(w.rbuf.free, r.rcv_nxt, p) == all[p]
  }

  method Write(r: RecvPart, at: nat, kept: seq<byte>, ghost all: map<int, byte>) returns (w: RecvPart)
    requires kept != [] && r.rcv_nxt <= at && at + |kept| <= r.rcv_nxt + |r.rbuf.free| && Layered(all, r, at, kept)
    ensures Written(r, w, all)
  {
    w := r.(rbuf := r.rbuf.WriteOffset(kept, at - r.rcv_nxt));
    assert kept[..|kept|] == kept;
  }

  /** `all` has the staged ranges and the `n` numbers from `at` on. */
  ghost predicate Joins(all: map<int, byte>, rl: seq<RSegment>, at: int, n: nat) {
    forall p :: p in all <==> Covers(rl, p) || at <= p < at + n
  }

  /** `all` is `kept`, at `at`, over what is in the free area. */
  ghost predicate Layered(all: map<int, byte>, r: RecvPart, at: int, kept: seq<byte>) {
    forall p :: p in all ==>
      && r.rcv_nxt <= p < r.rcv_nxt + |r.rbuf.free|
      && all[p] == if at <= p < at + |kept| then ByteAt(kept, at, p) else ByteAt(r.rbuf.free, r.rcv_nxt, p)
  }

  /** In-order data, once written. */
  method TakeInOrder(r0: RecvPart, w: RecvPart, n0: nat, ghost all: map<int, byte>) returns (r: RecvPart, recovered: bool)
    requires RecvValid(r0) && 0 < n0 <= |r0.rbuf.free| && CTL_LEN <= r0.rcv_nxt && Written(r0, w, all)
    requires Joins(all, r0.rlist, r0.rcv_nxt, n0)
    ensures RecvValid(r) && Absorbed(r0, r, all)
    ensures r.rcv_nxt <= r0.rcv_nxt + |r0.rbuf.free| && (recovered <==> r0.rcv_nxt + n0 < r.rcv_nxt)
  {
    var n;
    r, n := Merge(w, n0);
    recovered := n0 < n;
    MergedValid(w, r, n);
    MergedAbsorbed(r0, w, r, n, n0, all);
  }

  lemma MergedValid(w: RecvPart, r: RecvPart, n: nat)
    requires RecvValid(w) && CTL_LEN <= w.rcv_nxt && n <= |w.rbuf.free| && r == Taking(w, n).(rlist := r.rlist)
    requires |r.rlist| <= |w.rlist| && r.rlist == w.rlist[|w.rlist| - |r.rlist|..]
    requires forall i :: 0 <= i < |r.rlist| ==> w.rcv_nxt + n < r.rlist[i].sqn
    ensures RecvValid(r)
  {
    var k := |w.rlist| - |r.rlist|;
    assert forall i :: 0 <= i < |r.rlist| ==> r.rlist[i] == w.rlist[i + k];
    forall i, j | 0 <= i < j < |r.rlist| ensures Before(r.rlist, i, j) {
      assert Before(w.rlist, i + k, j + k);
    }
  }

  lemma MergedAbsorbed(r0: RecvPart, w: RecvPart, r: RecvPart, n: nat, n0: nat, all: map<int, byte>)
    requires RecvValid(r0) && Written(r0, w, all)
    requires n0 <= n <= |w.rbuf.free| && r == Taking(w, n).(rlist := r.rlist)
    requires |r.rlist| <= |w.rlist| && r.rlist == w.rlist[|w.rlist| - |r.rlist|..]
    requires forall i :: 0 <= i < |r.rlist| ==> w.rcv_nxt + n < r.rlist[i].sqn
    requires forall i :: 0 <= i < |w.rlist| - |r.rlist| ==> w.rlist[i].sqn + w.rlist[i].len <= w.rcv_nxt + n
    requires forall p :: w.rcv_nxt + n0 <= p < w.rcv_nxt + n ==> Covers(w.rlist, p)
    requires Joins(all, w.rlist, w.rcv_nxt, n0)
    ensures Absorbed(r0, r, all) && r.rcv_nxt == r0.rcv_nxt + n
  {
    MergedRun(w, r, n, n0, all);
  }

  lemma MergedRun(w: RecvPart, r: RecvPart, n: nat, n0: nat, all: map<int, byte>)
    requires n0 <= n <= |w.rbuf.free| && r == Taking(w, n).(rlist := r.rlist)
    requires |r.rlist| <= |w.rlist| && r.rlist == w.rlist[|w.rlist| - |r.rlist|..]
    requires forall i :: 0 <= i < |r.rlist| ==> w.rcv_nxt + n < r.rlist[i].sqn
    requires forall i :: 0 <= i < |w.rlist| - |r.rlist| ==> w.rlist[i].sqn + w.rlist[i].len <= w.rcv_nxt + n
    requires forall p :: w.rcv_nxt + n0 <= p < w.rcv_nxt + n ==> Covers(w.rlist, p)
    requires Joins(all, w.rlist, w.rcv_nxt, n0)
    requires forall p :: p in all ==> w.rcv_nxt <= p < w.rcv_nxt + |w.rbuf.free| && ByteAt(w.rbuf.free, w.rcv_nxt, p) == all[p]
    ensures Drain(all, w.rcv_nxt) == w.rbuf.free[..n]
  {
    var run := w.rbuf.free[..n];
    assert !Covers(w.rlist, w.rcv_nxt + n) by {
      forall i | 0 <= i < |w.rlist|
        ensures !(w.rlist[i].sqn <= w.rcv_nxt + n < w.rlist[i].sqn + w.rlist[i].len)
      {
        if |w.rlist| - |r.rlist| <= i {
          assert w.rlist[i] == r.rlist[i - (|w.rlist| - |r.rlist|)];
        }
      }
    }
    forall p | w.rcv_nxt <= p < w.rcv_nxt + n ensures p in all && ByteAt(run, w.rcv_nxt, p) == all[p] {
      assert p in all;
      assert ByteAt(w.rbuf.free, w.rcv_nxt, p) == all[p];
    }
    DrainIsFirstGap(all, w.rcv_nxt, run);
  }

  /** Where a range goes in the list ordered by sequence number. */
  method InsertRange(rl: seq<RSegment>, s: RSegment, ghost nxt: nat, ghost space: nat) returns (rl': seq<RSegment>)
    requires Ordered(rl) && Staged(rl, nxt, space) && Staged([s], nxt, space) && space <= RCV_BUF
    ensures Ordered(rl') && Staged(rl', nxt, space)
    ensures forall p :: Covers(rl', p) <==> Covers(rl, p) || s.sqn <= p < s.sqn + s.len
    ensures multiset(rl') == multiset(rl) + multiset{s}
  {
    assert [s][0] == s;
    var k := 0;
    while k < |rl| && Smaller(rl[k].sqn, s.sqn)
      invariant 0 <= k <= |rl|
      invariant forall i :: 0 <= i < k ==> rl[i].sqn < s.sqn
    {
      k := k + 1;
    }
    rl' := rl[..k] + [s] + rl[k..];
    InsertedCovers(rl, k, s);
    InsertedOrdered(rl, k, s, nxt, space);
    assert rl == rl[..k] + rl[k..];
  }

  lemma InsertedOrdered(rl: seq<RSegment>, k: nat, s: RSegment, nxt: nat, space: nat)
    requires Ordered(rl) && Staged(rl, nxt, space) && Staged([s], nxt, space)
    requires k <= |rl| && (forall i :: 0 <= i < k ==> rl[i].sqn < s.sqn) && (k < |rl| ==> s.sqn <= rl[k].sqn)
    ensures Ordered(rl[..k] + [s] + rl[k..]) && Staged(rl[..k] + [s] + rl[k..], nxt, space)
  {
    assert [s][0] == s;
    var m := rl[..k] + [s] + rl[k..];
    forall i, j | 0 <= i < j < |m| ensures Before(m, i, j) {
      if i < k < j {
        assert Before(rl, i, j - 1);
      } else if i == k < j - 1 {
        assert Before(rl, k, j - 1);
      } else if j < k {
        assert Before(rl, i, j);
      } else if k < i {
        assert Before(rl, i - 1, j - 1);
      }
    }
  }

  lemma InsertedCovers(rl: seq<RSegment>, k: nat, s: RSegment)
    requires k <= |rl|
    ensures forall p :: Covers(rl[..k] + [s] + rl[k..], p) <==> Covers(rl, p) || s.sqn <= p < s.sqn + s.len
  {
    var rl' := rl[..k] + [s] + rl[k..];
    forall p ensures Covers(rl', p) <==> Covers(rl, p) || s.sqn <= p < s.sqn + s.len {
      if Covers(rl, p) {
        var i :| 0 <= i < |rl| && rl[i].sqn <= p < rl[i].sqn + rl[i].len;
        assert rl'[if i < k then i else i + 1] == rl[i];
      }
      if s.sqn <= p < s.sqn + s.len {
        assert rl'[k] == s;
      }
    }
  }

  /** Data past a gap, once written. */
  method SaveOutOfOrder(r0: RecvPart, w: RecvPart, sqn: nat, n: nat, ghost all: map<int, byte>) returns (r: RecvPart)
    requires RecvValid(r0) && n > 0 && CTL_LEN <= r0.rcv_nxt && Written(r0, w, all)
    requires r0.rcv_nxt < sqn && sqn + n <= r0.rcv_nxt + |r0.rbuf.free|
    requires Joins(all, r0.rlist, sqn, n)
    ensures RecvValid(r) && Absorbed(r0, r, all)
    ensures r.rcv_nxt == r0.rcv_nxt && r.rcv_wnd == r0.rcv_wnd
  {
    var rl := InsertRange(r0.rlist, RSegment(sqn, n), r0.rcv_nxt, |r0.rbuf.free|);
    r := w.(rlist := rl);
  }

  /** The sequence numbers of a segment with data are close enough to rcv_nxt for 32-bit comparison. */
  predicate SeqInRange(r: RecvPart, seg: Segment) {
    seg.data != [] ==> -HALF < seg.sqn - r.rcv_nxt && seg.sqn + |seg.data| - r.rcv_nxt < HALF - 1
  }

  /** What a control segment does: it uses sequence space, but no space in the receive buffer. */
  predicate Skipped(r0: RecvPart, r: RecvPart, seg: Segment) {
    r == r0.(rcv_nxt := if seg.sqn <= r0.rcv_nxt < seg.sqn + |seg.data| then seg.sqn + |seg.data| else r0.rcv_nxt)
  }

  /** A control segment, which lies in the sequence space of the CONNECT message. */
  method ProcessControl(r0: RecvPart, seg: Segment) returns (r: RecvPart)
    requires RecvValid(r0) && SeqInRange(r0, seg) && seg.sqn + |seg.data| <= CTL_LEN
    ensures RecvValid(r) && Skipped(r0, r, seg)
  {
    var skip, len := TrimRange(r0.rcv_nxt, |r0.rbuf.free|, seg.sqn, |seg.data|);
    r := r0;
    if len > 0 && Wrap(seg.sqn + skip) == Wrap(r.rcv_nxt) {
      WrapIsInjective(seg.sqn + skip, r.rcv_nxt);
      r := r.(rcv_nxt := r.rcv_nxt + len);
    }
  }

  /** A data segment, which arrives once the peer's CONNECT message has. */
  method ProcessData(r0: RecvPart, seg: Segment) returns (r: RecvPart, recovered: bool)
    requires RecvValid(r0) && SeqInRange(r0, seg)
    requires seg.data != [] ==> CTL_LEN <= r0.rcv_nxt
    ensures RecvValid(r) && Absorbed(r0, r, AcceptedBy(r0, seg.sqn, seg.data))
    ensures recovered <==> r0.rcv_nxt < r.rcv_nxt && seg.sqn + |seg.data| < r.rcv_nxt
  {
    recovered := false;
    var skip, len := TrimRange(r0.rcv_nxt, |r0.rbuf.free|, seg.sqn, |seg.data|);
    if len == 0 {
      r := r0;
    } else {
      r, recovered := Accept(r0, seg, skip, len);
    }
  }

  /** A segment of which something is left after trimming. */
  method Accept(r0: RecvPart, seg: Segment, skip: nat, len: nat) returns (r: RecvPart, recovered: bool)
    requires RecvValid(r0) && CTL_LEN <= r0.rcv_nxt && len > 0
    requires Keeps(seg.sqn, |seg.data|, r0.rcv_nxt, r0.rcv_nxt + |r0.rbuf.free|, skip, len)
    ensures RecvValid(r) && Absorbed(r0, r, AcceptedBy(r0, seg.sqn, seg.data))
    ensures recovered <==> r0.rcv_nxt < r.rcv_nxt && seg.sqn + |seg.data| < r.rcv_nxt
  {
    ghost var all := AcceptedBy(r0, seg.sqn, seg.data);
    var kept := Kept(r0, seg.sqn, seg.data, skip, len, all);
    r, recovered := Place(r0, seg.sqn + skip, kept, all);
  }

  method Kept(r: RecvPart, sqn: int, data: seq<byte>, skip: nat, len: nat, ghost all: map<int, byte>) returns (kept: seq<byte>)
    requires RecvValid(r) && Keeps(sqn, |data|, r.rcv_nxt, r.rcv_nxt + |r.rbuf.free|, skip, len) && len > 0
    requires all == AcceptedBy(r, sqn, data)
    ensures kept != [] && r.rcv_nxt <= sqn + skip && sqn + skip + |kept| <= r.rcv_nxt + |r.rbuf.free|
    ensures Layered(all, r, sqn + skip, kept) && Joins(all, r.rlist, sqn + skip, |kept|) && |kept| == len
  {
    kept := data[skip..skip + len];
  }

  /** The part of a segment that is kept goes into the buffer, and into the queue if it is next. */
  method Place(r0: RecvPart, sqn: int, kept: seq<byte>, ghost all: map<int, byte>) returns (r: RecvPart, recovered: bool)
    requires RecvValid(r0) && kept != [] && CTL_LEN <= r0.rcv_nxt
    requires r0.rcv_nxt <= sqn && sqn + |kept| <= r0.rcv_nxt + |r0.rbuf.free| && Layered(all, r0, sqn, kept)
    requires Joins(all, r0.rlist, sqn, |kept|)
    ensures RecvValid(r) && Absorbed(r0, r, all)
    ensures r.rcv_nxt <= r0.rcv_nxt + |r0.rbuf.free| && (recovered <==> sqn + |kept| < r.rcv_nxt)
  {
    var w := Write(r0, sqn, kept, all);
    recovered := false;
    if Wrap(sqn) == Wrap(r0.rcv_nxt) {
      WrapIsInjective(sqn, r0.rcv_nxt);
      r, recovered := TakeInOrder(r0, w, |kept|, all);
    } else {
      r := SaveOutOfOrder(r0, w, sqn, |kept|, all);
    }
  }

}
