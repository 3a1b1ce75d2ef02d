/** When the assertions of `priv_conn_check_tick_stream_nominate` fail, and runs that come to it. */
module Nomination {
  import opened SeqNum
  import opened PairPriority
  import opened Candidates
  import opened CheckList
  import opened Agent

  /* ---------- the elections of a tick do not disturb each other ---------- */

  /** The same pairs, with those of component `c` in the same condition. */
  predicate Alike(l: seq<Pair>, m: seq<Pair>, c: nat) {
    && |m| == |l|
    && (forall i :: 0 <= i < |l| ==> m[i].id == l[i].id && m[i].component == l[i].component)
    && (forall i :: 0 <= i < |l| && l[i].component == c ==> m[i] == l[i])
  }

  lemma AlikeElect(l: seq<Pair>, m: seq<Pair>, c: nat)
    requires Alike(l, m, c) && AllTogether(l)
    ensures Elect(m, c) == Elect(l, c)
  {
    AlikeSettled(l, m, c);
    AlikeFirst(l, m, 0, c);
    var e := FirstElectable(l, 0, c);
    if e >= 0 {
      AlikeRepeat(l, m, c, e);
    }
  }

  lemma {:induction false} AlikeFirst(l: seq<Pair>, m: seq<Pair>, k: nat, c: nat)
    requires Alike(l, m, c)
    ensures FirstElectable(m, k, c) == FirstElectable(l, k, c)
    decreases |l| - k
  {
    if k < |l| {
      AlikeFirst(l, m, k + 1, c);
    }
  }

  lemma AlikeRepeat(l: seq<Pair>, m: seq<Pair>, c: nat, e: nat)
    requires Alike(l, m, c) && AllTogether(l) && e < |l| && l[e].component == c
    ensures Repeat(m, e) == Repeat(l, e)
  {
    if l[e].succeeded_pair.PairId? {
      var id := l[e].succeeded_pair.id;
      SameIndex(l, m, 0, id);
      IndexIsPlace(l, id);
      if IndexOf(l, id) >= 0 {
        assert Together(l[e], l[IndexOf(l, id)]);
      }
    }
  }

  lemma AlikeSettled(l: seq<Pair>, m: seq<Pair>, c: nat)
    requires Alike(l, m, c)
    ensures MayElect(m, c) == MayElect(l, c)
  {
    forall i | 0 <= i < |l|
      ensures Chosen(m[i], c) == Chosen(l[i], c) && HostHost(m[i], c) == HostHost(l[i], c) && Valid(m[i], c) == Valid(l[i], c)
      ensures Pending(m[i], c) == Pending(l[i], c) && Running(m[i], c) == Running(l[i], c)
    {
    }
  }

  lemma {:induction false} SameIndex(l: seq<Pair>, m: seq<Pair>, k: nat, id: nat)
    requires |m| == |l| && forall i :: 0 <= i < |l| ==> m[i].id == l[i].id
    ensures IndexFrom(m, k, id) == IndexFrom(l, k, id)
    decreases |l| - k
  {
    if k < |l| {
      SameIndex(l, m, k + 1, id);
    }
  }

  /** An election changes its own component at most. */
  lemma ElectionAlike(r: Round, c: nat, d: nat, next: nat)
    requires Inv(r.list, next) && c != d
    ensures Inv(AfterElection(r, c).list, next) && Alike(r.list, AfterElection(r, c).list, d)
    ensures AfterElection(r, c).aborted <==> r.aborted || Elect(r.list, c) == Asserts
  {
    if !r.aborted && Elect(r.list, c).Elects? {
      ChoseAlike(r.list, c, d, next);
    }
  }

  lemma ChoseAlike(l: seq<Pair>, c: nat, d: nat, next: nat)
    requires Inv(l, next) && c != d && Elect(l, c).Elects?
    ensures var m := Chose(l, Elect(l, c).target); Inv(m, next) && Alike(l, m, d)
  {
    var t := Elect(l, c).target;
    RepeatIsElected(l, c, FirstElectable(l, 0, c), next);
    ChoosingKeeps(l, Chose(l, t), c, t, next);
  }

  /** The elections of the first `n` components leave every later one as it was. */
  lemma {:induction false} RoundAlike(l: seq<Pair>, q: seq<nat>, n: nat, d: nat, next: nat)
    requires Inv(l, next) && n < d
    ensures Inv(Elections(l, q, n).list, next) && Alike(l, Elections(l, q, n).list, d)
  {
    if n > 0 {
      var r := Elections(l, q, n - 1);
      RoundAlike(l, q, n - 1, d, next);
      ElectionAlike(r, n, d, next);
      AlikeOn(l, r.list, AfterElection(r, n).list, d);
    }
  }

  lemma AlikeOn(l: seq<Pair>, m: seq<Pair>, r: seq<Pair>, c: nat)
    requires Alike(l, m, c) && Alike(m, r, c)
    ensures Alike(l, r, c)
  {
  }

  lemma LastAborts(l: seq<Pair>, q: seq<nat>, n: nat, next: nat)
    requires Inv(l, next) && n > 0
    ensures Elections(l, q, n).aborted <==> Elections(l, q, n - 1).aborted || Elect(l, n) == Asserts
  {
    var r := Elections(l, q, n - 1);
    RoundAlike(l, q, n - 1, n, next);
    AlikeElect(l, r.list, n);
    ElectionAlike(r, n, n + 1, next);
  }

  /** The election of one of the first `n` components comes to an assertion. */
  predicate SomeAsserts(l: seq<Pair>, n: nat) {
    exists c :: 1 <= c <= n && Elect(l, c) == Asserts
  }

  lemma {:induction false} RoundAborts(l: seq<Pair>, q: seq<nat>, n: nat, next: nat)
    requires Inv(l, next)
    ensures Elections(l, q, n).aborted <==> SomeAsserts(l, n)
  {
    if n > 0 {
      RoundAborts(l, q, n - 1, next);
      LastAborts(l, q, n, next);
      SomeSplits(l, n);
    }
  }

  lemma SomeSplits(l: seq<Pair>, n: nat)
    requires n > 0
    ensures SomeAsserts(l, n) <==> SomeAsserts(l, n - 1) || Elect(l, n) == Asserts
  {
  }

  /** An assertion stops a nomination tick exactly when the election of some component, held on the list
      as the tick finds it, comes to one. */
  lemma TickAbortsExactly(v: View, o: Settings, s: nat)
    requires s < |v.streams| && Inv(v.streams[s], v.next) && !v.aborted
    ensures Next(v, o, Step.Nominate(s)).aborted <==>
              && o.regular && v.controlling && NominationDue(v.streams[s], o.n_components)
              && SomeAsserts(v.streams[s], o.n_components)
  {
    RoundAborts(v.streams[s], v.queue, o.n_components, v.next);
  }

  /* ---------- a run that comes to it ---------- */

  /** Two host candidates, paired for both components of the only stream by incoming checks.  The pair
      of component 1 is checked twice.  One response, without mapped address, leaves the other transaction
      alive; the response to that one is a role conflict, which makes the agent controlling and starts a
      third check of the pair, valid as it is.  Then comes the tick that nominates. */
  function Script(a: Candidate, b: Candidate, sock: nat): seq<Step> {
    [TriggerNew(0, 1, a, b, sock), TriggerNew(0, 2, a, b, sock), SendTriggered, SendTriggered,
     Trigger(0, 1, false), SendTriggered,
     Respond(0, 1, NoMappedAddress), Respond(0, 0, Known), Respond(0, 1, RoleConflict(true)),
     Nominate(0)]
  }

  /** The pair that an incoming check for component `c` makes, while it is being checked. */
  function Begun(id: nat, c: nat, a: Candidate, b: Candidate, sock: nat): Pair {
    NewPair(id, c, a, b, sock, IN_PROGRESS, false)
  }

  /** A new pair of the priority of the first one goes before it. */
  lemma Begins(v: View, o: Settings, l: seq<Pair>, c: nat, a: Candidate, b: Candidate, sock: nat)
    requires v.streams == [l] && !v.controlling && |l| < o.max_conn_checks
    requires l == [] || l[0].priority == OfPair(false, a.priority, b.priority)
    ensures Next(v, o, TriggerNew(0, c, a, b, sock)) ==
              v.(streams := [[Begun(v.next, c, a, b, sock)] + l], queue := With(v.queue, v.next), next := v.next + 1)
  {
    var p := NewPair(v.next, c, a, b, sock, WAITING, false);
    assert Place(l, p.priority) == 0;
    assert Inserted(l, p) == [p] + l;
    assert IndexOf([p] + l, v.next) == 0;
    assert ([p] + l)[0 := p.(state := IN_PROGRESS)] == [Begun(v.next, c, a, b, sock)] + l;
  }

  /** Two pairs of the same candidates, `q` ahead of `p`. */
  predicate Twins(q: Pair, p: Pair) {
    && q.id == 1 && p.id == 0 && q.component == 2 && p.component == 1 && q.local == p.local && q.remote == p.remote
    && q.foundation == p.foundation && q.priority == p.priority && !q.nominated && !p.nominated
    && q.succeeded_pair == NoPair && p.succeeded_pair == NoPair
  }

  lemma SentOne(v: View, o: Settings, q: Pair, p: Pair)
    requires Twins(q, p) && v.streams == [[q, p]] && v.queue != [] && v.queue[0] <= 1
    ensures Next(v, o, SendTriggered) ==
              v.(streams := [if v.queue[0] == 0 then [q, p.(retransmit := true)] else [q.(retransmit := true), p]],
                 queue := v.queue[1..])
  {
    var l := [q, p];
    IndexIsPlace(l, v.queue[0]);
    assert l[1].id == 0 && l[0].id == 1;
    assert l[1 := p.(retransmit := true)] == [q, p.(retransmit := true)];
    assert l[0 := q.(retransmit := true)] == [q.(retransmit := true), p];
  }

  lemma CheckedAgain(v: View, o: Settings, q: Pair, p: Pair)
    requires Twins(q, p) && v.streams == [[q, p]] && p.state == IN_PROGRESS && p.retransmit
    ensures Next(v, o, Step.Trigger(0, 1, false)) == v.(queue := With(v.queue, 0))
  {
    assert v.streams[0][1 := p.(state := IN_PROGRESS)] == v.streams[0];
  }

  lemma Answered(v: View, o: Settings, q: Pair, p: Pair, k: nat, reply: Reply)
    requires Twins(q, p) && v.streams == [[q, p]] && k <= 1 && (reply == Known || reply == NoMappedAddress)
    requires !v.controlling && !q.mark_nominated_on_response_arrival && !p.mark_nominated_on_response_arrival
    requires q.state != FROZEN && p.state != FROZEN && v.queue == []
    ensures Next(v, o, Step.Respond(0, k, reply)) ==
              v.(streams := [if k == 0 then [q.(state := SUCCEEDED, valid := true), p]
                             else [q, p.(state := SUCCEEDED, valid := true)]])
  {
    var l := if k == 0 then [q.(state := SUCCEEDED, valid := true), p] else [q, p.(state := SUCCEEDED, valid := true)];
    assert Succeeded([q, p], k, reply, v.next, false) == l;
    assert ThawedAll(l, {p.foundation}) == l;
    assert Related([l], 0, p.foundation, o.n_components) == [l];
    assert !HasNominated(l, l[k].component);
  }

  lemma Conflicts(v: View, o: Settings, q: Pair, p: Pair)
    requires Twins(q, p) && v.streams == [[q, p]] && !v.controlling
    ensures Next(v, o, Step.Respond(0, 1, RoleConflict(true))) ==
              v.(streams := [[Repriced(q, true), Repriced(p, true).(state := IN_PROGRESS)]], controlling := true,
                 queue := With(v.queue, 0))
  {
    SwitchedTwo(q, p);
    LastChecked(Repriced(q, true), Repriced(p, true));
  }

  lemma SwitchedTwo(q: Pair, p: Pair)
    requires Twins(q, p)
    ensures Switched([[q, p]], true) == [[Repriced(q, true), Repriced(p, true)]]
  {
    assert RepricedAll([q, p], true) == [Repriced(q, true), Repriced(p, true)];
    SortedTwo(Repriced(q, true), Repriced(p, true));
  }

  lemma LastChecked(q: Pair, p: Pair)
    requires q.id == 1 && p.id == 0
    ensures Checking([q, p], 0) == [q, p.(state := IN_PROGRESS)]
  {
    IndexIsPlace([q, p], 0);
    assert [q, p][1].id == 0;
  }

  lemma SortedTwo(q: Pair, p: Pair)
    requires q.priority >= p.priority
    ensures Sorted([q, p]) == [q, p]
  {
    assert [q, p][1..] == [p] && [p][1..] == [];
    assert Sorted([p]) == Inserted([], p) == [p];
    assert Inserted([p], q) == [q, p];
  }

  /** A pair that is valid and being checked again makes the election fail. */
  lemma ValidButRunning(l: seq<Pair>, c: nat, e: nat)
    requires e < |l| && HostHost(l[e], c) && l[e].state == IN_PROGRESS && !l[e].nominated && l[e].succeeded_pair == NoPair
    requires forall i :: 0 <= i < |l| ==> !Chosen(l[i], c)
    requires forall i :: 0 <= i < e ==> l[i].component != c
    ensures Elect(l, c) == Asserts
  {
    assert Electable(l[e], c);
    assert FirstElectable(l, 0, c) == e;
  }

  /** A run that goes through the states `ws`. */
  lemma {:induction false} RunThrough(ws: seq<View>, o: Settings, steps: seq<Step>)
    requires |ws| == |steps| + 1 && forall i :: 0 <= i < |steps| ==> Linked(ws[i], o, steps[i], ws[i + 1])
    ensures Steps(ws[0], o, steps) == ws[|steps|]
  {
    var n := |steps|;
    if n > 0 {
      RunThrough(ws[..n], o, steps[..n - 1]);
      assert Linked(ws[n - 1], o, steps[n - 1], ws[n]);
    }
  }

  predicate Linked(v: View, o: Settings, step: Step, w: View) {
    !v.aborted && Next(v, o, step) == w
  }

  /** The state before step `i` of the script. */
  function Before(i: nat, q: Pair, p: Pair): View
    requires i <= 9
  {
    if i == 0 then View([[]], [], false, false, 0)
    else if i == 1 then View([[p]], [0], false, false, 1)
    else if i == 2 then View([[q, p]], [0, 1], false, false, 2)
    else if i == 3 then View([[q, Again(p)]], [1], false, false, 2)
    else if i == 4 then View([[Again(q), Again(p)]], [], false, false, 2)
    else if i == 5 then View([[Again(q), Again(p)]], [0], false, false, 2)
    else if i == 6 then View([[Again(q), Again(p)]], [], false, false, 2)
    else if i == 7 then View([[Again(q), Proven(p)]], [], false, false, 2)
    else if i == 8 then View([[Proven(q), Proven(p)]], [], false, false, 2)
    else View([[Repriced(Proven(q), true), Repriced(Proven(p), true).(state := IN_PROGRESS)]], [0], true, false, 2)
  }

  function Again(p: Pair): Pair {
    p.(retransmit := true)
  }

  function Proven(p: Pair): Pair {
    p.(retransmit := true, state := SUCCEEDED, valid := true)
  }

  lemma FirstLinks(o: Settings, a: Candidate, b: Candidate, sock: nat, q: Pair, p: Pair)
    requires o.max_conn_checks >= 2 && q == Begun(1, 2, a, b, sock) && p == Begun(0, 1, a, b, sock)
    ensures Linked(Before(0, q, p), o, TriggerNew(0, 1, a, b, sock), Before(1, q, p))
    ensures Linked(Before(1, q, p), o, TriggerNew(0, 2, a, b, sock), Before(2, q, p))
  {
    Begins(Before(0, q, p), o, [], 1, a, b, sock);
    Begins(Before(1, q, p), o, [p], 2, a, b, sock);
    assert [p] + [] == [p] && [q] + [p] == [q, p];
  }

  lemma SendLinks(o: Settings, q: Pair, p: Pair)
    requires Twins(q, p)
    ensures Linked(Before(2, q, p), o, SendTriggered, Before(3, q, p))
    ensures Linked(Before(3, q, p), o, SendTriggered, Before(4, q, p))
    ensures Linked(Before(5, q, p), o, SendTriggered, Before(6, q, p))
  {
    SentOne(Before(2, q, p), o, q, p);
    SentOne(Before(3, q, p), o, q, Again(p));
    SentOne(Before(5, q, p), o, Again(q), Again(p));
  }

  lemma AgainLink(o: Settings, q: Pair, p: Pair)
    requires Twins(q, p) && p.state == IN_PROGRESS
    ensures Linked(Before(4, q, p), o, Step.Trigger(0, 1, false), Before(5, q, p))
  {
    CheckedAgain(Before(4, q, p), o, Again(q), Again(p));
  }

  lemma AnswerLinks(o: Settings, q: Pair, p: Pair)
    requires Twins(q, p) && q.state == IN_PROGRESS && p.state == IN_PROGRESS
    requires !q.mark_nominated_on_response_arrival && !p.mark_nominated_on_response_arrival
    ensures Linked(Before(6, q, p), o, Step.Respond(0, 1, NoMappedAddress), Before(7, q, p))
    ensures Linked(Before(7, q, p), o, Step.Respond(0, 0, Known), Before(8, q, p))
  {
    Answered(Before(6, q, p), o, Again(q), Again(p), 1, NoMappedAddress);
    Answered(Before(7, q, p), o, Again(q), Proven(p), 0, Known);
  }

  lemma LastLink(o: Settings, q: Pair, p: Pair)
    requires Twins(q, p)
    ensures Linked(Before(8, q, p), o, Step.Respond(0, 1, RoleConflict(true)), Before(9, q, p))
  {
    Conflicts(Before(8, q, p), o, Proven(q), Proven(p));
  }

  lemma AllLinked(o: Settings, a: Candidate, b: Candidate, sock: nat, i: nat)
    requires o.max_conn_checks >= 2 && i < 9
    ensures var q, p := Begun(1, 2, a, b, sock), Begun(0, 1, a, b, sock);
            Linked(Before(i, q, p), o, Script(a, b, sock)[i], Before(i + 1, q, p))
  {
    var q, p := Begun(1, 2, a, b, sock), Begun(0, 1, a, b, sock);
    if i < 2 {
      FirstLinks(o, a, b, sock, q, p);
    } else if i < 4 || i == 5 {
      SendLinks(o, q, p);
    } else if i == 4 {
      AgainLink(o, q, p);
    } else if i < 8 {
      AnswerLinks(o, q, p);
    } else {
      LastLink(o, q, p);
    }
  }

  lemma ScriptReaches(o: Settings, a: Candidate, b: Candidate, sock: nat)
    requires o.max_conn_checks >= 2
    ensures Steps(Start(1, false), o, Script(a, b, sock)[..9]) == Before(9, Begun(1, 2, a, b, sock), Begun(0, 1, a, b, sock))
  {
    var ss := Script(a, b, sock)[..9];
    var ws := seq(10, i requires 0 <= i < 10 => Before(i, Begun(1, 2, a, b, sock), Begun(0, 1, a, b, sock)));
    forall i | 0 <= i < 9 ensures Linked(ws[i], o, ss[i], ws[i + 1]) {
      AllLinked(o, a, b, sock, i);
    }
    RunThrough(ws, o, ss);
    assert Start(1, false) == ws[0];
  }

  /** An agent does come to the assertion. */
  lemma NominationAborts(o: Settings, a: Candidate, b: Candidate, sock: nat)
    requires o.regular && o.n_components == 2 && o.max_conn_checks >= 2 && a.kind == HOST && b.kind == HOST
    ensures Steps(Start(1, false), o, Script(a, b, sock)).aborted
  {
    ScriptReaches(o, a, b, sock);
    var v := Before(9, Begun(1, 2, a, b, sock), Begun(0, 1, a, b, sock));
    TickFails(v, o, v.streams[0]);
  }

  lemma TickFails(v: View, o: Settings, l: seq<Pair>)
    requires v.streams == [l] && |l| == 2 && Twins(l[0], l[1]) && Inv(l, v.next)
    requires l[0].state == SUCCEEDED && l[1].state == IN_PROGRESS && HostHost(l[1], 1)
    requires !l[0].use_candidate_on_next_check && !l[1].use_candidate_on_next_check
    requires o.regular && v.controlling && o.n_components == 2
    ensures Next(v, o, Step.Nominate(0)).aborted
  {
    ValidButRunning(l, 1, 1);
    assert CountSettled(l, 0) == 0 && CountSettled(l, 1) == 0;
    assert IsSettled(l[0]);
    assert SomeAsserts(l, 2);
    RoundAborts(l, v.queue, 2, v.next);
  }

  /* ---------- a new pair that is cut ---------- */

  /** With room for one pair, an incoming check for one of lower priority makes a pair that is gone at
      once: the code has queued it all the same, the list and the queue here do not have it. */
  lemma NewPairCut(o: Settings, a: Candidate, b: Candidate, a': Candidate, b': Candidate, sock: nat)
    requires o.max_conn_checks == 1 && OfPair(false, a.priority, b.priority) > OfPair(false, a'.priority, b'.priority)
    ensures var p := Begun(0, 1, a, b, sock);
            Steps(Start(1, false), o, [TriggerNew(0, 1, a, b, sock), TriggerNew(0, 1, a', b', sock)])
            == View([[p]], [0], false, false, 2)
  {
    var p := Begun(0, 1, a, b, sock);
    var ws := [Start(1, false), View([[p]], [0], false, false, 1), View([[p]], [0], false, false, 2)];
    Begins(ws[0], o, [], 1, a, b, sock);
    assert [p] + [] == [p];
    IsCut(ws[1], o, p, a', b', sock);
    RunThrough(ws, o, [TriggerNew(0, 1, a, b, sock), TriggerNew(0, 1, a', b', sock)]);
  }

  lemma IsCut(v: View, o: Settings, p: Pair, a: Candidate, b: Candidate, sock: nat)
    requires o.max_conn_checks == 1 && v.streams == [[p]] && !v.controlling
    requires p.priority > OfPair(false, a.priority, b.priority)
    ensures Next(v, o, TriggerNew(0, 1, a, b, sock)) == v.(next := v.next + 1)
  {
    var new_pair := NewPair(v.next, 1, a, b, sock, WAITING, false);
    assert [p][1..] == [];
    assert Place([p], new_pair.priority) == 1;
    assert Inserted([p], new_pair) == [p, new_pair];
    assert [p, new_pair][..1] == [p] && v.streams[0 := [p]] == v.streams;
  }

  /** The new pair is gone at once exactly when as many pairs as there is room for stand above it. */
  lemma CutExactly(v: View, o: Settings, s: nat, c: nat, a: Candidate, b: Candidate, sock: nat)
    requires s < |v.streams| && Inv(v.streams[s], v.next)
    ensures var l, room := v.streams[s], o.max_conn_checks;
            IndexOf(Next(v, o, TriggerNew(s, c, a, b, sock)).streams[s], v.next) == -1 <==>
              room == 0 || (room <= |l| && l[room - 1].priority > OfPair(v.controlling, a.priority, b.priority))
  {
    var l, room := v.streams[s], o.max_conn_checks;
    var p := MakePair(v.next, c, a, b, sock, WAITING, v.controlling);
    var m := Added(l, p, room);
    AddedIndex(l, p, room);
    IndexIsPlace(m, v.next);
    SameIndex(m, Checking(m, v.next), 0, v.next);
    NewList(v, o, s, c, a, b, sock);
  }

  lemma NewList(v: View, o: Settings, s: nat, c: nat, a: Candidate, b: Candidate, sock: nat)
    requires s < |v.streams|
    ensures var p := MakePair(v.next, c, a, b, sock, WAITING, v.controlling);
            var m := Added(v.streams[s], p, o.max_conn_checks);
            Next(v, o, TriggerNew(s, c, a, b, sock)).streams[s]
            == if Cut(v.streams[s], p, o.max_conn_checks) then m else Checking(m, v.next)
  {
  }

  lemma AddedIndex(l: seq<Pair>, p: Pair, room: nat)
    requires Descending(l) && Members(l, p.id)
    ensures IndexOf(Added(l, p, room), p.id) == -1 <==> Cut(l, p, room)
    ensures Cut(l, p, room) <==> room == 0 || (room <= |l| && l[room - 1].priority > p.priority)
  {
    var m, k := Added(l, p, room), Place(l, p.priority);
    IndexIsPlace(m, p.id);
    assert Inserted(l, p)[k] == p;
    assert forall i :: 0 <= i < |l| ==> Member(l[i], p.id);
    if k < |m| {
      assert m[k].id == p.id;
    }
  }

  /* ---------- when a response nominates ---------- */

  predicate WasNominated(l: seq<Pair>, id: nat) {
    exists i :: 0 <= i < |l| && l[i].id == id && l[i].nominated
  }

  /** The pair of number `id` is there and does not wait for its check. */
  predicate Firm(l: seq<Pair>, id: nat) {
    exists i :: 0 <= i < |l| && l[i].id == id && l[i].state != FROZEN && l[i].state != WAITING
  }

  /** The pairs of `m` are nominated that were in `l`, and the one of number `id` if one is `due`. */
  predicate NominatedAs(l: seq<Pair>, m: seq<Pair>, id: nat, due: bool) {
    forall i :: 0 <= i < |m| ==> (m[i].nominated <==> WasNominated(l, m[i].id) || (due && m[i].id == id))
  }

  /** Each pair of `m` is one of `l` as far as number and nomination go. */
  predicate Copies(l: seq<Pair>, m: seq<Pair>) {
    forall i :: 0 <= i < |m| ==> Copied(l, m[i])
  }

  predicate Copied(l: seq<Pair>, p: Pair) {
    exists j :: 0 <= j < |l| && p.id == l[j].id && p.nominated == l[j].nominated
  }

  lemma CopiesNominated(l: seq<Pair>, m: seq<Pair>, r: seq<Pair>, id: nat, due: bool)
    requires NominatedAs(l, m, id, due) && Copies(m, r)
    ensures NominatedAs(l, r, id, due)
  {
    forall i | 0 <= i < |r| ensures r[i].nominated <==> WasNominated(l, r[i].id) || (due && r[i].id == id) {
      assert Copied(m, r[i]);
      var j :| 0 <= j < |m| && r[i].id == m[j].id && r[i].nominated == m[j].nominated;
    }
  }

  lemma SuccessNominates(l: seq<Pair>, k: nat, reply: Reply, next: nat, controlling: bool)
    requires k < |l| && Inv(l, next)
    ensures NominatedAs(l, Succeeded(l, k, reply, next, controlling), 0, false)
  {
    if reply.Discovers? {
      var base := l[k := l[k].(state := SUCCEEDED, discovered_pair := PairId(next))];
      SameNominations(l, base, next);
      InsertNominates(l, base, Discovered(l[k], reply.local, next, controlling), next);
    } else {
      SameNominations(l, Succeeded(l, k, reply, next, controlling), next);
    }
  }

  lemma SameNominations(l: seq<Pair>, m: seq<Pair>, next: nat)
    requires Inv(l, next) && |m| == |l| && forall i :: 0 <= i < |l| ==> m[i].id == l[i].id && m[i].nominated == l[i].nominated
    ensures NominatedAs(l, m, 0, false)
  {
    forall i | 0 <= i < |m| ensures m[i].nominated <==> WasNominated(l, m[i].id) {
      OnlyOne(l, i, next);
    }
  }

  lemma InsertNominates(l: seq<Pair>, m: seq<Pair>, d: Pair, next: nat)
    requires NominatedAs(l, m, 0, false) && Inv(l, next) && d.id == next && !d.nominated
    ensures NominatedAs(l, Inserted(m, d), 0, false)
  {
    var at, r := Place(m, d.priority), Inserted(m, d);
    assert !WasNominated(l, next) by {
      assert forall j :: 0 <= j < |l| ==> Member(l[j], next);
    }
    forall i | 0 <= i < |r| ensures r[i].nominated <==> WasNominated(l, r[i].id) {
      assert r[i] == if i == at then d else m[if i < at then i else i - 1];
    }
  }

  lemma OnlyOne(l: seq<Pair>, i: nat, next: nat)
    requires i < |l| && Inv(l, next)
    ensures WasNominated(l, l[i].id) <==> l[i].nominated
  {
  }

  lemma WithNominates(l: seq<Pair>, m: seq<Pair>, id: nat)
    requires NominatedAs(l, m, 0, false) && Distinct(m)
    ensures NominatedAs(l, WithNominated(m, id), id, true)
  {
    IndexIsPlace(m, id);
  }

  lemma SettleCopies(l: seq<Pair>, c: nat)
    ensures Copies(l, Settle(l, c))
  {
    if HasNominated(l, c) {
      PrunedCopies(l, c, Highest(l, |l|, c));
    } else {
      assert forall i :: 0 <= i < |l| ==> Copied(l, l[i]);
    }
  }

  lemma PrunedCopies(l: seq<Pair>, c: nat, highest: nat)
    ensures Copies(l, Pruned(l, |l|, c, highest))
  {
    var at := PrunedPlaces(l, c, highest);
    var m := Pruned(l, |l|, c, highest);
    forall i | 0 <= i < |m| ensures Copied(l, m[i]) {
      assert m[i] == Retired(l[at[i]], c, highest);
    }
  }

  lemma SettleKeepsFirm(l: seq<Pair>, c: nat, id: nat)
    requires Firm(l, id)
    ensures Firm(Settle(l, c), id)
  {
    if HasNominated(l, c) {
      var i :| 0 <= i < |l| && l[i].id == id && l[i].state != FROZEN && l[i].state != WAITING;
      var highest, m := Highest(l, |l|, c), Settle(l, c);
      PrunedHas(l, |l|, c, highest, i);
      var j :| 0 <= j < |m| && m[j] == Retired(l[i], c, highest);
      assert m[j].id == id;
    }
  }

  lemma SuccessIsFirm(l: seq<Pair>, k: nat, reply: Reply, next: nat, controlling: bool, id: nat)
    requires k < |l| && (id == l[k].id || Firm(l, id) || (reply.Discovers? && id == next))
    ensures Firm(Succeeded(l, k, reply, next, controlling), id)
  {
    var m := Succeeded(l, k, reply, next, controlling);
    if reply.Discovers? {
      var base := l[k := l[k].(state := SUCCEEDED, discovered_pair := PairId(next))];
      var d := Discovered(l[k], reply.local, next, controlling);
      if id != next {
        StillFirm(l, base, k, id);
      }
      InsertedFirm(base, d, id);
    } else {
      StillFirm(l, m, k, id);
    }
  }

  lemma StillFirm(l: seq<Pair>, m: seq<Pair>, k: nat, id: nat)
    requires k < |l| && |m| == |l| && m[k].id == l[k].id && m[k].state == SUCCEEDED && (id == l[k].id || Firm(l, id))
    requires forall i :: 0 <= i < |l| && i != k ==> m[i] == l[i]
    ensures Firm(m, id)
  {
    if id != l[k].id {
      var i :| 0 <= i < |l| && l[i].id == id && l[i].state != FROZEN && l[i].state != WAITING;
      assert m[i].id == id;
    } else {
      assert m[k].id == id;
    }
  }

  lemma InsertedFirm(l: seq<Pair>, d: Pair, id: nat)
    requires Firm(l, id) || (d.id == id && d.state == DISCOVERED)
    ensures Firm(Inserted(l, d), id)
  {
    var at, m := Place(l, d.priority), Inserted(l, d);
    if Firm(l, id) {
      var i :| 0 <= i < |l| && l[i].id == id && l[i].state != FROZEN && l[i].state != WAITING;
      assert m[if i < at then i else i + 1] == l[i];
    } else {
      assert m[at] == d;
    }
  }

  lemma ThawKeepsFirm(l: seq<Pair>, found: set<string>, id: nat)
    requires Firm(l, id)
    ensures Firm(ThawedAll(l, found), id)
  {
    var i :| 0 <= i < |l| && l[i].id == id && l[i].state != FROZEN && l[i].state != WAITING;
    assert ThawedAll(l, found)[i] == l[i];
  }

  lemma NominationKeepsFirm(l: seq<Pair>, n: nat, id: nat)
    requires Firm(l, id)
    ensures Firm(WithNominated(l, n), id)
  {
    IndexIsPlace(l, n);
    var i :| 0 <= i < |l| && l[i].id == id && l[i].state != FROZEN && l[i].state != WAITING;
    var m := WithNominated(l, n);
    assert m[i].id == id && m[i].state == l[i].state;
  }

  /** The list of a successful response, up to its nomination. */
  lemma SpreadNominates(v: View, o: Settings, s: nat, k: nat, reply: Reply)
    requires s < |v.streams| && k < |v.streams[s]| && Inv(v.streams[s], v.next)
    ensures var m := Succeeded(v.streams[s], k, reply, v.next, v.controlling);
            var r := Spreads(v.streams, s, k, reply, v.next, v.controlling, o.n_components);
            r[s] == ThawedAll(m, {v.streams[s][k].foundation}) && NominatedAs(v.streams[s], r[s], 0, false)
  {
    var l := v.streams[s];
    var m := Succeeded(l, k, reply, v.next, v.controlling);
    var t := ThawedAll(m, {l[k].foundation});
    SuccessNominates(l, k, reply, v.next, v.controlling);
    forall i | 0 <= i < |t| ensures Copied(m, t[i]) {
      assert t[i].id == m[i].id && t[i].nominated == m[i].nominated;
    }
    CopiesNominated(l, m, t, 0, false);
    assert Spreads(v.streams, s, k, reply, v.next, v.controlling, o.n_components)[s] == t;
  }

  /** The nomination of `p`'s check is due: with USE-CANDIDATE in regular nomination, at once in aggressive
      nomination, and in the controlled role when the peer has asked for it. */
  predicate IsDue(p: Pair, controlling: bool, regular: bool) {
    || (controlling && regular && p.use_candidate_on_next_check)
    || (controlling && !regular && !p.nominated)
    || (!controlling && p.mark_nominated_on_response_arrival)
  }

  /** A successful response nominates the pair that is valid for the check, `ok`, if that is due, and no
      other: section 7.1.3.2.4 of RFC 5245. */
  lemma ResponseNominates(v: View, o: Settings, s: nat, k: nat, reply: Reply, ok: nat)
    requires s < |v.streams| && k < |v.streams[s]| && Inv(v.streams[s], v.next) && IsSuccess(reply)
    requires ok == (if reply.Discovers? then v.next
                    else if reply.Other? && reply.j < |v.streams[s]| then v.streams[s][reply.j].id
                    else v.streams[s][k].id)
    ensures var l := Next(v, o, Step.Respond(s, k, reply)).streams[s];
            && NominatedAs(v.streams[s], l, ok, IsDue(v.streams[s][k], v.controlling, o.regular))
            && (ok == v.streams[s][k].id || reply.Discovers? || Firm(v.streams[s], ok) ==> Firm(l, ok))
  {
    var l, p := v.streams[s], v.streams[s][k];
    var m := Succeeded(l, k, reply, v.next, v.controlling);
    var t := ThawedAll(m, {p.foundation});
    var due := IsDue(p, v.controlling, o.regular);
    ResponseList(v, o, s, k, reply, ok, t);
    SpreadNominates(v, o, s, k, reply);
    DistinctAfter(l, k, reply, v.next, v.controlling);
    FinishNominates(l, t, p.component, ok, due);
    if ok == p.id || reply.Discovers? || Firm(l, ok) {
      SuccessIsFirm(l, k, reply, v.next, v.controlling, ok);
      ThawKeepsFirm(m, {p.foundation}, ok);
      NominationKeepsFirm(t, ok, ok);
      SettleKeepsFirm(if due then WithNominated(t, ok) else t, p.component, ok);
    }
  }

  lemma FinishNominates(l: seq<Pair>, t: seq<Pair>, c: nat, ok: nat, due: bool)
    requires NominatedAs(l, t, 0, false) && Distinct(t)
    ensures NominatedAs(l, Settle(if due then WithNominated(t, ok) else t, c), ok, due)
  {
    var n := if due then WithNominated(t, ok) else t;
    WithNominates(l, t, ok);
    SettleCopies(n, c);
    CopiesNominated(l, n, Settle(n, c), ok, due);
  }

  /** The list after a successful response. */
  lemma ResponseList(v: View, o: Settings, s: nat, k: nat, reply: Reply, ok: nat, t: seq<Pair>)
    requires s < |v.streams| && k < |v.streams[s]| && Inv(v.streams[s], v.next) && IsSuccess(reply)
    requires ok == OkPair(v.streams[s], k, reply, v.next)
    requires t == ThawedAll(Succeeded(v.streams[s], k, reply, v.next, v.controlling), {v.streams[s][k].foundation})
    ensures var p := v.streams[s][k];
            Next(v, o, Step.Respond(s, k, reply)).streams[s]
            == Settle(if IsDue(p, v.controlling, o.regular) then WithNominated(t, ok) else t, p.component)
  {
    SpreadNominates(v, o, s, k, reply);
    assert Next(v, o, Step.Respond(s, k, reply)) == Replied(v, o, s, k, reply);
  }

  lemma DistinctAfter(l: seq<Pair>, k: nat, reply: Reply, next: nat, controlling: bool)
    requires k < |l| && Inv(l, next)
    ensures Distinct(ThawedAll(Succeeded(l, k, reply, next, controlling), {l[k].foundation}))
  {
    var m := Succeeded(l, k, reply, next, controlling);
    if reply.Discovers? {
      var base := l[k := l[k].(state := SUCCEEDED, discovered_pair := PairId(next))];
      var d := Discovered(l[k], reply.local, next, controlling);
      assert forall j :: 0 <= j < |l| ==> Member(l[j], next);
      InsertedDistinct(base, d);
    }
    assert forall i :: 0 <= i < |m| ==> ThawedAll(m, {l[k].foundation})[i].id == m[i].id;
  }

  lemma InsertedDistinct(l: seq<Pair>, p: Pair)
    requires Distinct(l) && forall i :: 0 <= i < |l| ==> l[i].id != p.id
    ensures Distinct(Inserted(l, p))
  {
  }

  /** In the other lists a successful response nominates nobody. */
  lemma OthersNotNominated(v: View, o: Settings, s: nat, k: nat, reply: Reply, x: nat)
    requires s < |v.streams| && k < |v.streams[s]| && IsSuccess(reply) && x < |v.streams| && x != s
    ensures var l, m := v.streams[x], Next(v, o, Step.Respond(s, k, reply)).streams[x];
            |m| == |l| && forall i :: 0 <= i < |l| ==> m[i].id == l[i].id && m[i].nominated == l[i].nominated
  {
    var l := v.streams[x];
    var r := Spreads(v.streams, s, k, reply, v.next, v.controlling, o.n_components);
    assert Next(v, o, Step.Respond(s, k, reply)) == Replied(v, o, s, k, reply);
    assert Next(v, o, Step.Respond(s, k, reply)).streams[x] == r[x];
    var lists := v.streams[s := Succeeded(v.streams[s], k, reply, v.next, v.controlling)];
    RelatedSame(lists, s, v.streams[s][k].foundation, o.n_components, x);
  }

  lemma RelatedSame(lists: seq<seq<Pair>>, s: nat, foundation: string, n: nat, x: nat)
    requires s < |lists| && x < |lists| && x != s
    ensures var l, m := lists[x], Related(lists, s, foundation, n)[x];
            |m| == |l| && forall i :: 0 <= i < |l| ==> m[i].id == l[i].id && m[i].nominated == l[i].nominated
  {
    OtherSame(lists[x], ValidFoundations(ThawedAll(lists[s], {foundation})), n);
  }

  lemma OtherSame(l: seq<Pair>, found: set<string>, n: nat)
    ensures var m := OtherList(l, found, n);
            |m| == |l| && forall i :: 0 <= i < |l| ==> m[i].id == l[i].id && m[i].nominated == l[i].nominated
  {
  }
}
