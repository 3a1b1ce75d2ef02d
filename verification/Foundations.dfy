/** Foundations of local candidates: discovery.c, section 4.1.1.3 of RFC 5245. */
module Foundations {
  import opened SeqNum
  import opened Candidates
  import Sdp

  /** The address of the TURN server that a candidate was got from, if any. */
  datatype Turn = NoTurn | Turn(server: Address)
  datatype Local = Local(kind: Kind, transport: Transport, addr: Address, base_addr: Address, turn: Turn, foundation: string)

  /** What RFC 5245 says candidates with the same foundation have in common.  Two of them with one
      STUN server per stream cannot differ in it. */
  predicate SameClass(a: Local, b: Local) {
    && a.kind == b.kind && a.transport == b.transport && a.base_addr.ip == b.base_addr.ip
    && (a.kind == RELAYED ==> SameServer(a.turn, b.turn))
  }

  /** `priv_compare_turn_servers`. */
  predicate SameServer(a: Turn, b: Turn) {
    a == b || (a.Turn? && b.Turn? && a.server.ip == b.server.ip)
  }

  predicate Live(lists: seq<seq<Local>>, c: Local) {
    exists x :: 0 <= x < |lists| && c in lists[x]
  }

  /** Shares a foundation exactly with its class. */
  ghost predicate Classified(lists: seq<seq<Local>>) {
    forall a, b :: Live(lists, a) && Live(lists, b) ==> (SameClass(a, b) <==> a.foundation == b.foundation)
  }

  /** The text of one of the first `made` numbers given out, starting with 1. */
  ghost predicate Issued(f: string, made: nat) {
    exists i :: 1 <= i <= made && f == Text(i)
  }

  function Text(i: nat): string {
    Sdp.Decimal(Wrap(i))
  }

  ghost predicate AllIssued(lists: seq<seq<Local>>, made: nat) {
    forall a :: Live(lists, a) ==> Issued(a.foundation, made)
  }

  lemma StillIssued(lists: seq<seq<Local>>, made: nat)
    ensures AllIssued(lists, made) ==> AllIssued(lists, made + 1)
  {
  }

  /** Up to 2^32 numbers in a row have different texts. */
  lemma TextIsNew(i: nat, made: nat)
    requires 1 <= i <= made < MODULUS
    ensures Text(i) != Text(made + 1)
  {
    Sdp.ValueOfDecimal(Wrap(i));
    Sdp.ValueOfDecimal(Wrap(made + 1));
    if Wrap(i) == Wrap(made + 1) {
      WrapIsInjective(i, made + 1);
    }
  }

  /** The search of `priv_assign_foundation` through all local candidates. */
  method FindSame(lists: seq<seq<Local>>, c: Local) returns (found: bool, f: string)
    ensures found ==> exists n :: Live(lists, n) && SameClass(c, n) && n.foundation == f
    ensures !found ==> forall n :: Live(lists, n) ==> !SameClass(c, n)
  {
    for x := 0 to |lists|
      invariant forall n, y :: 0 <= y < x && n in lists[y] ==> !SameClass(c, n)
    {
      for k := 0 to |lists[x]|
        invariant forall j :: 0 <= j < k ==> !SameClass(c, lists[x][j])
      {
        var n := lists[x][k];
        var turns := c.turn == n.turn || (c.turn.Turn? && n.turn.Turn? && c.turn.server.ip == n.turn.server.ip);
        if c.kind == n.kind && c.transport == n.transport && c.base_addr.ip == n.base_addr.ip && (c.kind != RELAYED || turns) {
          assert Live(lists, n);
          return true, n.foundation;
        }
      }
    }
    return false, "";
  }

  /** Some live candidate is of the class of `c`. */
  ghost predicate HasMate(lists: seq<seq<Local>>, c: Local) {
    exists n :: Live(lists, n) && SameClass(c, n)
  }

  /** No live candidate has the foundation `f`. */
  ghost predicate Free(lists: seq<seq<Local>>, f: string) {
    forall n :: Live(lists, n) ==> n.foundation != f
  }

  /** The foundation of `c` is that of its class, if there is one. */
  ghost predicate Assigned(lists: seq<seq<Local>>, c: Local) {
    HasMate(lists, c) ==> exists n :: Live(lists, n) && SameClass(c, n) && n.foundation == c.foundation
  }

  lemma AddedLive(lists: seq<seq<Local>>, x: nat, c: Local, a: Local)
    requires x < |lists|
    ensures Live(lists[x := lists[x] + [c]], a) <==> a == c || Live(lists, a)
  {
    var now := lists[x := lists[x] + [c]];
    if y :| 0 <= y < |lists| && a in lists[y] {
      assert a in now[y];
    }
    assert c in now[x];
  }

  /** One candidate more: two live candidates still share a foundation exactly when they are of the same
      class, if and only if there was one of its class or nobody had the foundation it got. */
  lemma AddedExactly(lists: seq<seq<Local>>, x: nat, c: Local)
    requires x < |lists| && Classified(lists) && Assigned(lists, c)
    ensures Classified(lists[x := lists[x] + [c]]) <==> HasMate(lists, c) || Free(lists, c.foundation)
  {
    var now := lists[x := lists[x] + [c]];
    forall a ensures Live(now, a) <==> a == c || Live(lists, a) {
      AddedLive(lists, x, c, a);
    }
    if HasMate(lists, c) || Free(lists, c.foundation) {
      forall b | Live(lists, b) ensures SameClass(c, b) <==> c.foundation == b.foundation {
      }
    } else {
      var n :| Live(lists, n) && n.foundation == c.foundation;
      assert Live(now, n) && Live(now, c) && !SameClass(c, n);
    }
  }

  /** It does go wrong when the numbers come round: the foundation made after 2^32 others is the first
      again, and if that one is still in use two classes share it. */
  lemma NumbersComeRound(a: Local, c: Local)
    requires a.foundation == Text(1) && c.foundation == Text(MODULUS + 1) && !SameClass(c, a)
    ensures Text(MODULUS + 1) == Text(1)
    ensures Classified([[a]]) && !Classified([[a, c]])
  {
    assert forall b :: Live([[a]], b) ==> b == a;
    assert Live([[a, c]], a) by {
      assert a in [[a, c]][0];
    }
    assert Live([[a, c]], c) by {
      assert c in [[a, c]][0];
    }
  }

  lemma RemovedIsLive(lists: seq<seq<Local>>, x: nat, k: nat, a: Local)
    requires x < |lists| && k < |lists[x]| && Live(lists[x := lists[x][..k] + lists[x][k + 1..]], a)
    ensures Live(lists, a)
  {
  }

  /** The next number is free as long as fewer than 2^32 have been given out. */
  lemma NextIsFree(lists: seq<seq<Local>>, made: nat)
    requires AllIssued(lists, made) && made < MODULUS
    ensures Free(lists, Text(made + 1))
  {
    forall n | Live(lists, n) ensures n.foundation != Text(made + 1) {
      var i :| 1 <= i <= made && n.foundation == Text(i);
      TextIsNew(i, made);
    }
  }

  lemma AddedIssued(lists: seq<seq<Local>>, x: nat, c: Local, made: nat)
    requires x < |lists| && AllIssued(lists, made) && Issued(c.foundation, made)
    ensures AllIssued(lists[x := lists[x] + [c]], made)
  {
    forall a | Live(lists[x := lists[x] + [c]], a) ensures Issued(a.foundation, made) {
      AddedLive(lists, x, c, a);
    }
  }

  /** The condition under which a new candidate leaves foundations with their meaning. */
  ghost predicate Unambiguous(lists: seq<seq<Local>>, c: Local, next: u32) {
    HasMate(lists, c) || Free(lists, Sdp.Decimal(next))
  }

  /** The test of `priv_add_local_candidate_pruned`. */
  predicate Redundant(c: Local, d: Local) {
    c.base_addr == d.base_addr && c.addr == d.addr && c.transport == d.transport
  }

  /** `priv_assign_foundation`: the foundation of the class, or the next number. */
  method AssignFoundation(lists: seq<seq<Local>>, next: u32, ghost made: nat, c0: Local)
    returns (c: Local, next': u32, ghost made': nat)
    requires next == Wrap(made + 1) && AllIssued(lists, made)
    ensures next' == Wrap(made' + 1) && AllIssued(lists, made') && Issued(c.foundation, made')
    ensures c == c0.(foundation := c.foundation) && Assigned(lists, c)
    ensures HasMate(lists, c) <==> HasMate(lists, c0)
    ensures if HasMate(lists, c0) then made' == made else made' == made + 1 && c.foundation == Sdp.Decimal(next)
  {
    next', made' := next, made;
    var found, f := FindSame(lists, c0);
    if found {
      c := c0.(foundation := f);
    } else {
      c := c0.(foundation := Sdp.Decimal(next));
      NotFoundIsNew(lists, made, c0, c);
      next', made' := Wrap(next + 1), made + 1;
    }
  }

  lemma NotFoundIsNew(lists: seq<seq<Local>>, made: nat, c0: Local, c: Local)
    requires AllIssued(lists, made) && c == c0.(foundation := Text(made + 1))
    requires forall n :: Live(lists, n) ==> !SameClass(c0, n)
    ensures !HasMate(lists, c0) && !HasMate(lists, c)
    ensures AllIssued(lists, made + 1) && Issued(c.foundation, made + 1)
  {
    StillIssued(lists, made);
    forall n | Live(lists, n) ensures !SameClass(c, n) {
      assert !SameClass(c0, n);
    }
  }

  class Agent {
    /** The local candidates, by component. */
    var local_candidates: seq<seq<Local>>
    var next_candidate_id: u32
    /** How many foundations have been made. */
    ghost var made: nat

    ghost predicate Valid()
      reads this
    {
      next_candidate_id == Wrap(made + 1) && AllIssued(local_candidates, made)
    }

    constructor (n: nat)
      ensures Valid() && made == 0 && |local_candidates| == n && Classified(local_candidates)
    {
      local_candidates, next_candidate_id, made := seq(n, _ => []), 1, 0;
    }

    /** A new local candidate: it gets its foundation, and is dropped if it is redundant.  What the
        foundations mean survives exactly when its class was there or the next number was free. */
    method Add(x: nat, c0: Local) returns (added: bool, c: Local, ghost fits: bool)
      requires Valid() && x < |local_candidates|
      modifies this
      ensures Valid() && |local_candidates| == old(|local_candidates|) && old(made) <= made <= old(made) + 1
      ensures c == c0.(foundation := c.foundation)
      ensures added <==> !AnyRedundant(old(local_candidates)[x], c0)
      ensures local_candidates == if added then old(local_candidates)[x := old(local_candidates)[x] + [c]]
                                  else old(local_candidates)
      ensures fits == old(Unambiguous(local_candidates, c0, next_candidate_id))
      ensures added && old(Classified(local_candidates)) ==> (Classified(local_candidates) <==> fits)
      ensures made <= MODULUS ==> fits
    {
      fits := Unambiguous(local_candidates, c0, next_candidate_id);
      var next;
      ghost var count;
      c, next, count := AssignFoundation(local_candidates, next_candidate_id, made, c0);
      NumberFits(local_candidates, c0, made, count);
      var redundant := FindRedundant(local_candidates[x], c);
      added := !redundant;
      ghost var before, number := local_candidates, next_candidate_id;
      next_candidate_id, made := next, count;
      if added {
        AddedIssued(before, x, c, made);
        local_candidates := local_candidates[x := local_candidates[x] + [c]];
        AddedMeans(before, x, c0, c, number);
      }
    }

    method Remove(x: nat, k: nat)
      requires Valid() && x < |local_candidates| && k < |local_candidates[x]|
      modifies this`local_candidates
      ensures Valid()
      ensures var l := old(local_candidates)[x]; local_candidates == old(local_candidates)[x := l[..k] + l[k + 1..]]
      ensures old(Classified(local_candidates)) ==> Classified(local_candidates)
    {
      ghost var before := local_candidates;
      local_candidates := local_candidates[x := local_candidates[x][..k] + local_candidates[x][k + 1..]];
      forall a | Live(local_candidates, a) ensures Live(before, a) {
        RemovedIsLive(before, x, k, a);
      }
    }

    method Do(step: Step) returns (ghost fits: bool)
      requires Valid()
      modifies this
      ensures Valid() && |local_candidates| == old(|local_candidates|) && old(made) <= made <= old(made) + 1
      ensures old(Classified(local_candidates)) && fits ==> Classified(local_candidates)
      ensures made <= MODULUS ==> fits
      ensures Moved(old(local_candidates), step, local_candidates)
    {
      fits := true;
      if step.x < |local_candidates| {
        match step
        case Add(x, c) =>
          var added, d;
          added, d, fits := Add(x, c);
          fits := fits || !added;
        case Remove(x, k) =>
          if k < |local_candidates[x]| {
            Remove(x, k);
          }
      }
    }
  }

  method FindRedundant(list: seq<Local>, c: Local) returns (found: bool)
    ensures found <==> AnyRedundant(list, c)
  {
    for k := 0 to |list|
      invariant forall i :: 0 <= i < k ==> !Redundant(list[i], c)
    {
      if list[k].addr == c.addr && list[k].base_addr == c.base_addr && list[k].transport == c.transport {
        return true;
      }
    }
    found := false;
  }

  predicate AnyRedundant(list: seq<Local>, c: Local) {
    exists i :: 0 <= i < |list| && Redundant(list[i], c)
  }

  lemma AddedMeans(lists: seq<seq<Local>>, x: nat, c0: Local, c: Local, next: u32)
    requires x < |lists| && Assigned(lists, c) && (HasMate(lists, c) <==> HasMate(lists, c0))
    requires !HasMate(lists, c0) ==> c.foundation == Sdp.Decimal(next)
    ensures Classified(lists) ==> (Classified(lists[x := lists[x] + [c]]) <==> Unambiguous(lists, c0, next))
  {
    if Classified(lists) {
      AddedExactly(lists, x, c);
    }
  }

  lemma NumberFits(lists: seq<seq<Local>>, c: Local, made: nat, made': nat)
    requires AllIssued(lists, made) && (HasMate(lists, c) || made' == made + 1)
    ensures made' <= MODULUS ==> Unambiguous(lists, c, Wrap(made + 1))
  {
    if made' <= MODULUS && !HasMate(lists, c) {
      NextIsFree(lists, made);
    }
  }

  datatype Step = Add(x: nat, c: Local) | Remove(x: nat, k: nat)

  /** What a step does to its list. */
  predicate Done(step: Step, l: seq<Local>, m: seq<Local>) {
    match step
    case Add(x, c) =>
      if AnyRedundant(l, c) then m == l
      else |m| == |l| + 1 && m[..|l|] == l && m[|l|] == c.(foundation := m[|l|].foundation)
    case Remove(x, k) => m == if k < |l| then l[..k] + l[k + 1..] else l
  }

  predicate Moved(before: seq<seq<Local>>, step: Step, now: seq<seq<Local>>) {
    && |now| == |before|
    && (step.x < |now| ==> Done(step, before[step.x], now[step.x]))
    && (forall x :: 0 <= x < |now| && x != step.x ==> now[x] == before[x])
  }

  /** Any sequence of additions and removals: two live candidates share a foundation exactly when they
      are of the same class, as long as every candidate added was of a class that was there or got a
      number that was free; and with fewer than 2^32 foundations made that is always so. */
  method Run(n: nat, steps: seq<Step>) returns (a: Agent, ghost unambiguous: bool, ghost trace: seq<seq<seq<Local>>>)
    ensures a.made <= |steps| && (a.made <= MODULUS ==> unambiguous)
    ensures |trace| == |steps| + 1 && trace[|steps|] == a.local_candidates
    ensures forall i :: 0 <= i < |steps| ==> Moved(trace[i], steps[i], trace[i + 1])
    ensures unambiguous ==>
              forall c, d :: Live(a.local_candidates, c) && Live(a.local_candidates, d) ==>
                (SameClass(c, d) <==> c.foundation == d.foundation)
  {
    a := new Agent(n);
    unambiguous, trace := true, [a.local_candidates];
    for i := 0 to |steps|
      invariant a.Valid() && fresh(a) && a.made <= i
      invariant |trace| == i + 1 && trace[i] == a.local_candidates
      invariant forall j :: 0 <= j < i ==> Moved(trace[j], steps[j], trace[j + 1])
      invariant unambiguous ==> Classified(a.local_candidates)
      invariant a.made <= MODULUS ==> unambiguous
    {
      ghost var fits := a.Do(steps[i]);
      unambiguous, trace := unambiguous && fits, trace + [a.local_candidates];
    }
  }
}
