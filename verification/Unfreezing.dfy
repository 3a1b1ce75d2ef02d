/** What `priv_conn_check_unfreeze_next` does against what its comment and section 5.7.4 of RFC 5245 ask
    for: of each foundation the pair with the lowest component, and of those the highest priority. */
module Unfreezing {
  import opened CheckList

  /** Of two pairs of a foundation, the one at `i` is to be preferred to the one at `j`. */
  predicate Preferred(l: seq<Pair>, i: nat, j: nat)
    requires i < |l| && j < |l|
  {
    || l[i].component < l[j].component
    || (l[i].component == l[j].component &&
        (l[i].priority > l[j].priority || (l[i].priority == l[j].priority && i <= j)))
  }

  /** A pair of the foundation of `l[i]` that may be unfrozen. */
  predicate Rival(l: seq<Pair>, i: nat, j: nat, n: nat)
    requires i < |l| && j < |l|
  {
    l[j].foundation == l[i].foundation && Eligible(l[j], n)
  }

  /** The pair that is asked for. */
  predicate Asked(l: seq<Pair>, i: nat, n: nat)
    requires i < |l|
  {
    Eligible(l[i], n) && forall j :: 0 <= j < |l| && Rival(l, i, j, n) ==> Preferred(l, i, j)
  }

  /** The pair that the code unfreezes. */
  predicate Taken(l: seq<Pair>, i: nat, n: nat)
    requires i < |l|
  {
    Leads(l, i) && Eligible(l[i], n)
  }

  /** The first pair of each foundation has the lowest component of those that may be unfrozen. */
  predicate LeadersAreLowest(l: seq<Pair>, n: nat) {
    forall i, j :: 0 <= i < |l| && 0 <= j < |l| && Leads(l, i) && Rival(l, i, j, n) ==> l[i].component <= l[j].component
  }

  /** The first pair of the foundation of `l[i]`. */
  lemma {:induction false} Leader(l: seq<Pair>, i: nat, k: nat) returns (first: nat)
    requires k <= i < |l| && forall j :: 0 <= j < k ==> l[j].foundation != l[i].foundation
    ensures first <= i && Leads(l, first) && l[first].foundation == l[i].foundation
    decreases i - k
  {
    if l[k].foundation == l[i].foundation {
      first := k;
    } else {
      first := Leader(l, i, k + 1);
    }
  }

  lemma TwoLeaders(l: seq<Pair>, i: nat, j: nat)
    requires i < |l| && j < |l| && Leads(l, i) && Leads(l, j) && l[i].foundation == l[j].foundation
    ensures i == j
  {
  }

  /** Each foundation with a pair that may be unfrozen has one that is asked for. */
  lemma {:induction false} SomeAsked(l: seq<Pair>, i: nat, k: nat, best: nat, n: nat) returns (m: nat)
    requires i < |l| && k <= |l| && best < |l| && Rival(l, i, best, n)
    requires forall j :: 0 <= j < k && Rival(l, i, j, n) ==> Preferred(l, best, j)
    ensures m < |l| && Rival(l, i, m, n) && Asked(l, m, n)
    decreases |l| - k
  {
    if k == |l| {
      m := best;
    } else if Rival(l, i, k, n) && !Preferred(l, best, k) {
      m := SomeAsked(l, i, k + 1, k, n);
    } else {
      m := SomeAsked(l, i, k + 1, best, n);
    }
  }

  lemma LowestIsTaken(l: seq<Pair>, i: nat, n: nat)
    requires Descending(l) && LeadersAreLowest(l, n) && i < |l|
    ensures Taken(l, i, n) <==> Asked(l, i, n)
  {
    if Taken(l, i, n) {
      forall j | 0 <= j < |l| && Rival(l, i, j, n) ensures Preferred(l, i, j) {
        assert l[i].component <= l[j].component;
      }
    }
    if Asked(l, i, n) {
      var first := Leader(l, i, 0);
      assert Rival(l, first, i, n);
      assert Eligible(l[first], n);
      assert Rival(l, i, first, n) && Preferred(l, i, first);
    }
  }

  /** For every list: the code unfreezes what is asked for if and only if the first pair of each
      foundation has the lowest component of those of its foundation that may be unfrozen. */
  lemma UnfreezesAsAskedExactly(l: seq<Pair>, n: nat)
    requires Descending(l)
    ensures (forall i :: 0 <= i < |l| ==> (Taken(l, i, n) <==> Asked(l, i, n))) <==> LeadersAreLowest(l, n)
  {
    if forall i :: 0 <= i < |l| ==> (Taken(l, i, n) <==> Asked(l, i, n)) {
      forall i, j | 0 <= i < |l| && 0 <= j < |l| && Leads(l, i) && Rival(l, i, j, n)
        ensures l[i].component <= l[j].component
      {
        var m := SomeAsked(l, i, 0, j, n);
        assert Taken(l, m, n);
        TwoLeaders(l, i, m);
        assert Rival(l, m, j, n) && Preferred(l, m, j);
      }
    }
    if LeadersAreLowest(l, n) {
      forall i | 0 <= i < |l| ensures Taken(l, i, n) <==> Asked(l, i, n) {
        LowestIsTaken(l, i, n);
      }
    }
  }

  /** The list that is asked for. */
  function AskedFor(l: seq<Pair>, i: nat, n: nat): Pair
    requires i < |l|
  {
    if Asked(l, i, n) then l[i].(state := WAITING) else l[i]
  }

  /** The same about the lists that result, for a frozen list. */
  lemma UnfreezeNextIsAskedExactly(l: seq<Pair>, n: nat)
    requires Descending(l) && IsFrozen(l)
    ensures (forall i :: 0 <= i < |l| ==> Woken(l, i, n) == AskedFor(l, i, n)) <==> LeadersAreLowest(l, n)
  {
    forall i | 0 <= i < |l| ensures Woken(l, i, n) == AskedFor(l, i, n) <==> (Taken(l, i, n) <==> Asked(l, i, n)) {
      assert l[i].state == FROZEN;
    }
    UnfreezesAsAskedExactly(l, n);
  }

  /** A pair of component 2 ahead of one of component 1, with one foundation: the wrong one is taken. */
  lemma WrongPairTaken(p: Pair, q: Pair)
    requires p.component == 2 && q.component == 1 && p.foundation == q.foundation && p.priority > q.priority
    ensures Descending([p, q]) && Taken([p, q], 0, 2) && !Asked([p, q], 0, 2)
    ensures Asked([p, q], 1, 2) && !Taken([p, q], 1, 2)
  {
    var l := [p, q];
    assert l[0] == p && l[1] == q;
    assert Rival(l, 0, 1, 2) && !Preferred(l, 0, 1);
    assert !Leads(l, 1) by {
      assert l[0].foundation == l[1].foundation;
    }
  }
}
