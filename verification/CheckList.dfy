/** One check list of the ICE agent: candidate pairs in descending order of priority, and the
    steps of conncheck.c that change it.  A pointer from one pair to another is its number. */
module CheckList {
  import opened SeqNum
  import opened PairPriority
  import opened Candidates

  datatype CheckState = FROZEN | WAITING | IN_PROGRESS | SUCCEEDED | FAILED | DISCOVERED
  datatype Candidate = Candidate(id: nat, kind: Kind, priority: u32, sock: nat, foundation: string)
  datatype Link = NoPair | PairId(id: nat)

  datatype Pair = Pair(id: nat, component: nat, local: Candidate, remote: Candidate, sock: nat, foundation: string,
                       state: CheckState, nominated: bool, valid: bool, use_candidate_on_next_check: bool,
                       mark_nominated_on_response_arrival: bool, retransmit: bool,
                       discovered_pair: Link, succeeded_pair: Link, priority: nat)

  /* ---------- what holds of every check list ---------- */

  /** A valid pair is not waiting for its check. */
  predicate Sound(p: Pair) {
    p.valid ==> p.state != FROZEN && p.state != WAITING
  }

  /** A sound pair made before number `next`. */
  predicate Member(p: Pair, next: nat) {
    Sound(p) && p.id < next && (p.succeeded_pair.PairId? ==> p.succeeded_pair.id < next)
  }

  /** Every pair has the priority that belongs to the agent's role. */
  predicate Priced(l: seq<Pair>, controlling: bool) {
    forall i :: 0 <= i < |l| ==> l[i].priority == OfPair(controlling, l[i].local.priority, l[i].remote.priority)
  }

  /** Any two pairs of a list: at most one of a component carries USE-CANDIDATE, and a discovered
      pair is of the component of the pair whose check discovered it. */
  predicate Together(p: Pair, q: Pair) {
    && (p.use_candidate_on_next_check && q.use_candidate_on_next_check && p.component == q.component ==> p.id == q.id)
    && (p.succeeded_pair == PairId(q.id) ==> p.component == q.component)
  }

  predicate Descending(l: seq<Pair>) {
    forall i, j :: 0 <= i < j < |l| ==> l[i].priority >= l[j].priority
  }

  predicate Distinct(l: seq<Pair>) {
    forall i, j :: 0 <= i < j < |l| ==> l[i].id != l[j].id
  }

  predicate Members(l: seq<Pair>, next: nat) {
    forall i :: 0 <= i < |l| ==> Member(l[i], next)
  }

  predicate AllTogether(l: seq<Pair>) {
    forall i, j :: 0 <= i < |l| && 0 <= j < |l| ==> Together(l[i], l[j])
  }

  predicate Inv(l: seq<Pair>, next: nat) {
    Descending(l) && Distinct(l) && Members(l, next) && AllTogether(l)
  }

  /* ---------- ways to change a list ---------- */

  /** A change that leaves alone what order, numbering and nomination depend on. */
  predicate Evolves(p: Pair, q: Pair) {
    && q.id == p.id && q.component == p.component && q.local == p.local && q.remote == p.remote
    && q.priority == p.priority && q.succeeded_pair == p.succeeded_pair && q.foundation == p.foundation
    && q.use_candidate_on_next_check == p.use_candidate_on_next_check
    && (Sound(p) ==> Sound(q))
  }

  predicate Evolved(l: seq<Pair>, m: seq<Pair>) {
    |m| == |l| && forall i :: 0 <= i < |l| ==> Evolves(l[i], m[i])
  }

  /** Every pair of `m` was one of `l`. */
  predicate Drawn(m: seq<Pair>, l: seq<Pair>) {
    forall i :: 0 <= i < |m| ==> ComesFrom(m[i], l)
  }

  predicate ComesFrom(p: Pair, l: seq<Pair>) {
    exists j :: 0 <= j < |l| && Evolves(l[j], p)
  }

  lemma PicksDrawn(l: seq<Pair>, sub: seq<Pair>, at: seq<nat>)
    requires Picks(l, sub, at)
    ensures Drawn(sub, l)
  {
  }

  /** `sub` picks pairs of `l` in order: `at` gives their places. */
  predicate Picks(l: seq<Pair>, sub: seq<Pair>, at: seq<nat>) {
    && |at| == |sub|
    && (forall i :: 0 <= i < |at| ==> at[i] < |l| && sub[i] == l[at[i]])
    && (forall i, j :: 0 <= i < j < |at| ==> at[i] < at[j])
  }

  lemma PicksKeeps(l: seq<Pair>, sub: seq<Pair>, at: seq<nat>, next: nat)
    requires Inv(l, next) && Picks(l, sub, at)
    ensures Inv(sub, next)
  {
  }

  /* ---------- insertion ---------- */

  /** Where `g_slist_insert_sorted` puts a pair of this priority: before the first that is not above. */
  function Place(l: seq<Pair>, priority: nat): (k: nat)
    ensures k <= |l| && (forall i :: 0 <= i < k ==> l[i].priority > priority)
    ensures k < |l| ==> l[k].priority <= priority
  {
    if l == [] || l[0].priority <= priority then 0 else 1 + Place(l[1..], priority)
  }

  function Inserted(l: seq<Pair>, p: Pair): seq<Pair> {
    var k := Place(l, p.priority);
    l[..k] + [p] + l[k..]
  }

  /** `p` is new to `l` and agrees with all its pairs. */
  predicate Fits(l: seq<Pair>, p: Pair) {
    && Together(p, p)
    && forall i :: 0 <= i < |l| ==> l[i].id != p.id && Together(l[i], p) && Together(p, l[i])
  }

  lemma InsertedKeeps(l: seq<Pair>, p: Pair, next: nat)
    requires Inv(l, next) && Member(p, next) && Fits(l, p)
    ensures Inv(Inserted(l, p), next)
  {
    InsertedTogether(l, p);
    assert Members(Inserted(l, p), next);
  }

  lemma InsertedContents(l: seq<Pair>, p: Pair)
    ensures multiset(Inserted(l, p)) == multiset(l) + multiset{p}
  {
    var k := Place(l, p.priority);
    assert l == l[..k] + l[k..];
  }

  lemma InsertedTogether(l: seq<Pair>, p: Pair)
    requires Distinct(l) && AllTogether(l) && Fits(l, p)
    ensures Distinct(Inserted(l, p)) && AllTogether(Inserted(l, p))
  {
    var k, m := Place(l, p.priority), Inserted(l, p);
    forall i, j | 0 <= i < |m| && 0 <= j < |m| ensures Together(m[i], m[j]) && (i < j ==> m[i].id != m[j].id) {
      var x, y := if i < k then i else i - 1, if j < k then j else j - 1;
      if i != k && j != k {
        assert Together(l[x], l[y]);
      } else if i != k {
        assert Together(l[x], p);
      } else if j != k {
        assert Together(p, l[y]);
      }
    }
  }

  /** A fresh pair, as `priv_add_new_check_pair` fills it in. */
  function NewPair(id: nat, component: nat, local: Candidate, remote: Candidate, sock: nat,
                   state: CheckState, controlling: bool): Pair {
    Pair(id, component, local, remote, sock, local.foundation + ":" + remote.foundation, state,
         false, false, false, false, false, NoPair, NoPair, OfPair(controlling, local.priority, remote.priority))
  }

  lemma NewPairFits(l: seq<Pair>, p: Pair)
    requires Members(l, p.id) && !p.use_candidate_on_next_check
    requires p.succeeded_pair.PairId? ==>
               && p.succeeded_pair.id < p.id
               && forall i :: 0 <= i < |l| && l[i].id == p.succeeded_pair.id ==> l[i].component == p.component
    ensures Fits(l, p)
  {
  }

  /** `priv_limit_conn_check_list_size`: the pairs of highest priority stay. */
  method Limit(l: seq<Pair>, upper_limit: nat) returns (m: seq<Pair>)
    requires Descending(l)
    ensures m <= l && |m| == (if |l| <= upper_limit then |l| else upper_limit)
    ensures forall i, j :: 0 <= i < |m| <= j < |l| ==> m[i].priority >= l[j].priority
  {
    m := [];
    var valid, item := 0, 0;
    while item < |l|
      invariant 0 <= item <= |l| && valid == item
      invariant m == l[..if item <= upper_limit then item else upper_limit]
    {
      valid := valid + 1;
      if valid <= upper_limit {
        m := m + [l[item]];
      }
      item := item + 1;
    }
  }

  /** The list with a new pair, cut to size. */
  function Added(l: seq<Pair>, p: Pair, max_conn_checks: nat): (m: seq<Pair>)
    ensures m <= Inserted(l, p) && |m| == if |l| < max_conn_checks then |l| + 1 else max_conn_checks
  {
    if |l| < max_conn_checks then Inserted(l, p) else Inserted(l, p)[..max_conn_checks]
  }

  /** `priv_add_new_check_pair`: a new pair at its place, and the list cut to size. */
  method Add(l: seq<Pair>, p: Pair, max_conn_checks: nat) returns (m: seq<Pair>)
    requires Inv(l, p.id) && Member(p, p.id + 1) && Fits(l, p)
    ensures Inv(m, p.id + 1) && m == Added(l, p, max_conn_checks)
    ensures forall i, q :: 0 <= i < |m| && q in Inserted(l, p)[|m|..] ==> m[i].priority >= q.priority
    ensures IndexOf(m, p.id) == if Cut(l, p, max_conn_checks) then -1 else Place(l, p.priority)
  {
    InsertedKeeps(l, p, p.id + 1);
    m := Limit(Inserted(l, p), max_conn_checks);
    IndexIsPlace(m, p.id);
    assert forall i :: 0 <= i < |m| ==> m[i] == Inserted(l, p)[i];
    assert Inserted(l, p)[Place(l, p.priority)] == p;
  }

  /** The size limit takes the new pair itself away: as many pairs as are allowed stand above it. */
  predicate Cut(l: seq<Pair>, p: Pair, max_conn_checks: nat) {
    max_conn_checks <= Place(l, p.priority)
  }

  /** The place of the pair with this number from place `k` on, or -1. */
  function IndexFrom(l: seq<Pair>, k: nat, id: nat): int
    decreases |l| - k
  {
    if k >= |l| then -1 else if l[k].id == id then k else IndexFrom(l, k + 1, id)
  }

  function IndexOf(l: seq<Pair>, id: nat): int {
    IndexFrom(l, 0, id)
  }

  lemma {:induction false} IndexFromMeans(l: seq<Pair>, k: nat, id: nat)
    requires k <= |l|
    ensures var i := IndexFrom(l, k, id);
            if i == -1 then forall j :: k <= j < |l| ==> l[j].id != id
            else k <= i < |l| && l[i].id == id && forall j :: k <= j < i ==> l[j].id != id
    decreases |l| - k
  {
    if k < |l| {
      IndexFromMeans(l, k + 1, id);
    }
  }

  lemma IndexIsPlace(l: seq<Pair>, id: nat)
    ensures -1 <= IndexOf(l, id) < |l| && (IndexOf(l, id) >= 0 ==> l[IndexOf(l, id)].id == id)
    ensures Distinct(l) ==> forall i :: 0 <= i < |l| && l[i].id == id ==> IndexOf(l, id) == i
    ensures IndexOf(l, id) == -1 <==> forall i :: 0 <= i < |l| ==> l[i].id != id
  {
    IndexFromMeans(l, 0, id);
  }

  /* ---------- searching ---------- */

  /** The first pair in the state from place `k` on, or -1. */
  function FirstIn(l: seq<Pair>, k: nat, state: CheckState): (r: int)
    ensures -1 <= r < |l|
    decreases |l| - k
  {
    if k >= |l| then -1 else if l[k].state == state then k else FirstIn(l, k + 1, state)
  }

  /** `priv_conn_check_find_next_waiting` and `priv_conn_check_find_next_frozen`: the pair found has
      the highest priority of those in the state; -1 if there is none. */
  method FindFirst(l: seq<Pair>, state: CheckState) returns (k: int)
    requires Descending(l)
    ensures -1 <= k < |l| && k == FirstIn(l, 0, state)
    ensures k == -1 ==> forall i :: 0 <= i < |l| ==> l[i].state != state
    ensures k >= 0 ==> l[k].state == state && forall i :: 0 <= i < |l| && l[i].state == state ==> l[i].priority <= l[k].priority
  {
    k := 0;
    while k < |l|
      invariant 0 <= k <= |l| && FirstIn(l, k, state) == FirstIn(l, 0, state)
      invariant forall i :: 0 <= i < k ==> l[i].state != state
    {
      if l[k].state == state {
        return k;
      }
      k := k + 1;
    }
    return -1;
  }

  /** `priv_is_checklist_frozen`. */
  predicate IsFrozen(l: seq<Pair>) {
    l != [] && forall i :: 0 <= i < |l| ==> l[i].state == FROZEN
  }

  /** `priv_is_checklist_active`. */
  predicate IsActive(l: seq<Pair>) {
    exists i :: 0 <= i < |l| && (l[i].state == WAITING || l[i].state == IN_PROGRESS)
  }

  method CheckFrozen(l: seq<Pair>) returns (frozen: bool)
    ensures frozen <==> IsFrozen(l)
  {
    for k := 0 to |l|
      invariant forall i :: 0 <= i < k ==> l[i].state == FROZEN
    {
      if l[k].state != FROZEN {
        return false;
      }
    }
    frozen := |l| > 0;
  }

  method CheckActive(l: seq<Pair>) returns (active: bool)
    ensures active <==> IsActive(l)
  {
    for k := 0 to |l|
      invariant forall i :: 0 <= i < k ==> l[i].state != WAITING && l[i].state != IN_PROGRESS
    {
      if l[k].state == IN_PROGRESS || l[k].state == WAITING {
        return true;
      }
    }
    active := false;
  }

  /* ---------- unfreezing ---------- */

  /** `priv_conn_check_unfreeze_next`.  The inner loop of the code looks at the pair of the outer one
      only, so of each foundation it is the first pair, of highest priority, that is set waiting,
      whatever its component. */
  method UnfreezeNext(l: seq<Pair>, n_components: nat) returns (m: seq<Pair>)
    requires IsFrozen(l)
    ensures Evolved(l, m) && m == WokenAll(l, n_components)
  {
    m := [];
    var found: set<string> := {};
    for i := 0 to |l|
      invariant |m| == i && forall j :: 0 <= j < i ==> m[j] == Woken(l, j, n_components)
      invariant found == set j | 0 <= j < i :: l[j].foundation
    {
      var p := l[i];
      if p.foundation !in found
         && (p.component < n_components + 1 || (p.component < n_components + 2 && p.priority != 0)) {
        p := p.(state := WAITING);
      }
      m := m + [p];
      found := found + {l[i].foundation};
    }
  }

  function Woken(l: seq<Pair>, i: nat, n_components: nat): Pair
    requires i < |l|
  {
    if Leads(l, i) && Eligible(l[i], n_components) then l[i].(state := WAITING) else l[i]
  }

  function WokenAll(l: seq<Pair>, n_components: nat): seq<Pair> {
    seq(|l|, i requires 0 <= i < |l| => Woken(l, i, n_components))
  }

  /** The first pair of its foundation. */
  predicate Leads(l: seq<Pair>, i: nat)
    requires i < |l|
  {
    forall j :: 0 <= j < i ==> l[j].foundation != l[i].foundation
  }

  predicate Eligible(p: Pair, n_components: nat) {
    p.component <= n_components || (p.component == n_components + 1 && p.priority > 0)
  }

  /** Frozen pairs with a foundation in `found` are set waiting. */
  function Thawed(p: Pair, found: set<string>): Pair {
    if p.state == FROZEN && p.foundation in found then p.(state := WAITING) else p
  }

  function ThawedAll(l: seq<Pair>, found: set<string>): seq<Pair> {
    seq(|l|, i requires 0 <= i < |l| => Thawed(l[i], found))
  }

  method Thaw(l: seq<Pair>, found: set<string>) returns (m: seq<Pair>)
    ensures Evolved(l, m) && m == ThawedAll(l, found)
  {
    m := [];
    for i := 0 to |l|
      invariant |m| == i && forall j :: 0 <= j < i ==> m[j] == Thawed(l[j], found)
    {
      var p := l[i];
      if p.state == FROZEN && p.foundation in found {
        p := p.(state := WAITING);
      }
      m := m + [p];
    }
  }

  /* ---------- concluding a component ---------- */

  predicate Nominated(p: Pair, c: nat) {
    p.component == c && p.valid && p.nominated
  }

  predicate Pending(p: Pair, c: nat) {
    p.component == c && (p.state == FROZEN || p.state == WAITING)
  }

  predicate Running(p: Pair, c: nat) {
    p.component == c && p.state == IN_PROGRESS
  }

  /** A check in progress below priority `highest` is not retransmitted any more. */
  function Retired(p: Pair, c: nat, highest: nat): Pair {
    if Running(p, c) && p.priority < highest then p.(retransmit := false) else p
  }

  /** The highest priority of a valid nominated pair among the first `k`, or 0. */
  function Highest(l: seq<Pair>, k: nat, c: nat): nat
    requires k <= |l|
  {
    if k == 0 then 0
    else if Nominated(l[k - 1], c) && l[k - 1].priority > Highest(l, k - 1, c) then l[k - 1].priority
    else Highest(l, k - 1, c)
  }

  method HighestNominated(l: seq<Pair>, c: nat) returns (highest: nat)
    ensures highest == Highest(l, |l|, c)
    ensures forall i :: 0 <= i < |l| && Nominated(l[i], c) ==> l[i].priority <= highest
    ensures highest > 0 ==> exists i :: 0 <= i < |l| && Nominated(l[i], c) && l[i].priority == highest
  {
    highest := 0;
    for k := 0 to |l|
      invariant highest == Highest(l, k, c)
      invariant forall i :: 0 <= i < k && Nominated(l[i], c) ==> l[i].priority <= highest
      invariant highest > 0 ==> exists i :: 0 <= i < k && Nominated(l[i], c) && l[i].priority == highest
    {
      var p := l[k];
      if p.component == c && p.valid && p.nominated && p.priority > highest {
        highest := p.priority;
      }
    }
  }

  /** `m` holds pairs of `l` that are not pending for `c`, in order, from the places `at`. */
  predicate PrunedTo(l: seq<Pair>, c: nat, highest: nat, m: seq<Pair>, at: seq<nat>) {
    && |at| == |m|
    && (forall i :: 0 <= i < |at| ==> at[i] < |l| && m[i] == Retired(l[at[i]], c, highest) && !Pending(l[at[i]], c))
    && (forall i, j :: 0 <= i < j < |at| ==> at[i] < at[j])
  }

  /** Of the first `k` pairs of `l`, those that are not pending for `c`. */
  function Pruned(l: seq<Pair>, k: nat, c: nat, highest: nat): seq<Pair>
    requires k <= |l|
  {
    if k == 0 then []
    else Pruned(l, k - 1, c, highest) + if Pending(l[k - 1], c) then [] else [Retired(l[k - 1], c, highest)]
  }

  lemma PrunedPlaces(l: seq<Pair>, c: nat, highest: nat) returns (at: seq<nat>)
    ensures PrunedTo(l, c, highest, Pruned(l, |l|, c, highest), at)
  {
    at := [];
    var m := [];
    for k := 0 to |l|
      invariant m == Pruned(l, k, c, highest) && |at| == |m|
      invariant forall i :: 0 <= i < |at| ==> at[i] < k && m[i] == Retired(l[at[i]], c, highest) && !Pending(l[at[i]], c)
      invariant forall i, j :: 0 <= i < j < |at| ==> at[i] < at[j]
    {
      if !Pending(l[k], c) {
        m, at := m + [Retired(l[k], c, highest)], at + [k];
      }
    }
  }

  lemma {:induction false} PrunedHas(l: seq<Pair>, k: nat, c: nat, highest: nat, i: nat)
    requires i < k <= |l| && !Pending(l[i], c)
    ensures Retired(l[i], c, highest) in Pruned(l, k, c, highest)
  {
    if i < k - 1 {
      PrunedHas(l, k - 1, c, highest, i);
    }
  }

  /** `priv_prune_pending_checks`. */
  method PrunePending(l: seq<Pair>, c: nat) returns (m: seq<Pair>, in_progress: nat, highest: nat)
    ensures m == Pruned(l, |l|, c, highest) && highest == Highest(l, |l|, c)
    ensures forall i :: 0 <= i < |l| && Nominated(l[i], c) ==> l[i].priority <= highest
    ensures highest > 0 ==> exists i :: 0 <= i < |l| && Nominated(l[i], c) && l[i].priority == highest
    ensures in_progress == 0 <==> forall i :: 0 <= i < |l| && Running(l[i], c) ==> l[i].priority < highest
  {
    highest := HighestNominated(l, c);
    m, in_progress := [], 0;
    for k := 0 to |l|
      invariant m == Pruned(l, k, c, highest)
      invariant in_progress == 0 <==> forall i :: 0 <= i < k && Running(l[i], c) ==> l[i].priority < highest
    {
      var p := l[k];
      if p.component != c {
        m := m + [p];
      } else if p.state != FROZEN && p.state != WAITING {
        if p.state == IN_PROGRESS {
          if p.priority < highest {
            p := p.(retransmit := false);
          } else {
            in_progress := in_progress + 1;
          }
        }
        m := m + [p];
      }
    }
  }

  lemma PrunedKeeps(l: seq<Pair>, c: nat, highest: nat, m: seq<Pair>, at: seq<nat>, next: nat)
    requires Inv(l, next) && PrunedTo(l, c, highest, m, at)
    ensures Inv(m, next) && Drawn(m, l)
  {
    forall i | 0 <= i < |m| ensures ComesFrom(m[i], l) {
      assert Evolves(l[at[i]], m[i]);
    }
    var r := seq(|l|, i requires 0 <= i < |l| => Retired(l[i], c, highest));
    PicksKeeps(r, m, at, next);
  }

  /** What READY means for component `c`: a valid nominated pair, no check left to start, and of
      those in progress only ones of strictly lower priority that are not retransmitted. */
  predicate Concluded(m: seq<Pair>, c: nat) {
    && (exists i :: 0 <= i < |m| && Nominated(m[i], c))
    && (forall i :: 0 <= i < |m| ==> !Pending(m[i], c))
    && (forall i :: 0 <= i < |m| && Running(m[i], c) ==> !m[i].retransmit && Beaten(m, c, m[i].priority))
  }

  /** Some valid nominated pair of `c` is above `priority`. */
  predicate Beaten(l: seq<Pair>, c: nat, priority: nat) {
    exists j :: 0 <= j < |l| && Nominated(l[j], c) && l[j].priority > priority
  }

  predicate HasNominated(l: seq<Pair>, c: nat) {
    exists i :: 0 <= i < |l| && Nominated(l[i], c)
  }

  predicate AllBeaten(l: seq<Pair>, c: nat) {
    forall i :: 0 <= i < |l| && Running(l[i], c) ==> Beaten(l, c, l[i].priority)
  }

  /** All valid pairs of `l` are still in `m`. */
  predicate ValidSurvive(l: seq<Pair>, m: seq<Pair>) {
    forall i :: 0 <= i < |l| && l[i].valid ==> Survives(l[i], m)
  }

  /** The list after pruning, which a valid nominated pair brings about. */
  function Settle(l: seq<Pair>, c: nat): seq<Pair> {
    if HasNominated(l, c) then Pruned(l, |l|, c, Highest(l, |l|, c)) else l
  }

  /** `priv_update_check_list_state_for_ready`: whether READY is signalled, and what pruning leaves. */
  method UpdateReady(l: seq<Pair>, c: nat, ghost next: nat) returns (m: seq<Pair>, ready: bool)
    requires Inv(l, next)
    ensures m == Settle(l, c)
    ensures Inv(m, next) && Drawn(m, l) && ValidSurvive(l, m)
    ensures ready <==> HasNominated(l, c) && AllBeaten(l, c)
    ensures ready ==> Concluded(m, c)
  {
    var nominated := CountNominated(l, c);
    if nominated == 0 {
      return l, false;
    }
    var in_progress, highest;
    m, in_progress, highest := PrunePending(l, c);
    ready := in_progress == 0;
    PruningIsSafe(l, c, highest, m, next);
  }

  method CountNominated(l: seq<Pair>, c: nat) returns (nominated: nat)
    ensures nominated > 0 <==> HasNominated(l, c)
  {
    nominated := 0;
    for k := 0 to |l|
      invariant nominated > 0 <==> exists i :: 0 <= i < k && Nominated(l[i], c)
    {
      if l[k].component == c && l[k].valid && l[k].nominated {
        nominated := nominated + 1;
      }
    }
  }

  /** The pair is still in the list, changed in `retransmit` at most. */
  predicate Survives(p: Pair, m: seq<Pair>) {
    exists j :: 0 <= j < |m| && m[j] == p.(retransmit := m[j].retransmit)
  }

  /** Pruning never discards a valid pair. */
  lemma PrunedSurvive(l: seq<Pair>, c: nat, highest: nat, m: seq<Pair>)
    requires m == Pruned(l, |l|, c, highest) && forall i :: 0 <= i < |l| ==> Sound(l[i])
    ensures forall i :: 0 <= i < |l| && l[i].valid ==> Retired(l[i], c, highest) in m && Survives(l[i], m)
  {
    forall i | 0 <= i < |l| && l[i].valid ensures Retired(l[i], c, highest) in m && Survives(l[i], m) {
      PrunedHas(l, |l|, c, highest, i);
      var j :| 0 <= j < |m| && m[j] == Retired(l[i], c, highest);
      assert m[j] == l[i].(retransmit := m[j].retransmit);
    }
  }

  lemma PruningIsSafe(l: seq<Pair>, c: nat, highest: nat, m: seq<Pair>, next: nat)
    requires Inv(l, next) && m == Pruned(l, |l|, c, highest) && HasNominated(l, c)
    requires forall i :: 0 <= i < |l| && Nominated(l[i], c) ==> l[i].priority <= highest
    requires highest > 0 ==> exists i :: 0 <= i < |l| && Nominated(l[i], c) && l[i].priority == highest
    ensures Inv(m, next) && Drawn(m, l) && ValidSurvive(l, m)
    ensures AllBeaten(l, c) <==> forall i :: 0 <= i < |l| && Running(l[i], c) ==> l[i].priority < highest
    ensures (forall i :: 0 <= i < |l| && Running(l[i], c) ==> l[i].priority < highest) ==> Concluded(m, c)
  {
    var at := PrunedPlaces(l, c, highest);
    PrunedKeeps(l, c, highest, m, at, next);
    forall i | 0 <= i < |l| ensures Sound(l[i]) {
      assert Member(l[i], next);
    }
    PrunedSurvive(l, c, highest, m);
    if forall i :: 0 <= i < |l| && Running(l[i], c) ==> l[i].priority < highest {
      PrunedConcludes(l, c, highest, m, at);
    }
  }

  lemma PrunedConcludes(l: seq<Pair>, c: nat, highest: nat, m: seq<Pair>, at: seq<nat>)
    requires PrunedTo(l, c, highest, m, at)
    requires exists i :: 0 <= i < |m| && Nominated(m[i], c)
    requires highest > 0 ==> exists i :: 0 <= i < |m| && Nominated(m[i], c) && m[i].priority == highest
    requires forall i :: 0 <= i < |l| && Running(l[i], c) ==> l[i].priority < highest
    ensures Concluded(m, c)
  {
  }

  predicate UsesSocket(p: Pair, sock: nat) {
    p.local.sock == sock || p.remote.sock == sock || p.sock == sock
  }

  /** Of the first `k` pairs of `l`, those that do not use the socket. */
  function Dropped(l: seq<Pair>, k: nat, sock: nat): seq<Pair>
    requires k <= |l|
  {
    if k == 0 then [] else Dropped(l, k - 1, sock) + if UsesSocket(l[k - 1], sock) then [] else [l[k - 1]]
  }

  lemma DroppedPlaces(l: seq<Pair>, sock: nat) returns (at: seq<nat>)
    ensures Picks(l, Dropped(l, |l|, sock), at)
  {
    at := [];
    var m := [];
    for k := 0 to |l|
      invariant m == Dropped(l, k, sock) && |at| == |m|
      invariant forall i :: 0 <= i < |at| ==> at[i] < k && m[i] == l[at[i]] && !UsesSocket(l[at[i]], sock)
      invariant forall i, j :: 0 <= i < j < |at| ==> at[i] < at[j]
    {
      if !UsesSocket(l[k], sock) {
        m, at := m + [l[k]], at + [k];
      }
    }
  }

  lemma {:induction false} DroppedHas(l: seq<Pair>, k: nat, sock: nat, p: Pair)
    requires k <= |l|
    ensures p in Dropped(l, k, sock) <==> !UsesSocket(p, sock) && exists i :: 0 <= i < k && l[i] == p
  {
    if k > 0 {
      DroppedHas(l, k - 1, sock, p);
    }
  }

  /** `conn_check_prune_socket`: exactly the pairs that use the socket go. */
  method DropSocket(l: seq<Pair>, sock: nat) returns (m: seq<Pair>)
    ensures m == Dropped(l, |l|, sock)
  {
    m := [];
    for k := 0 to |l|
      invariant m == Dropped(l, k, sock)
    {
      if l[k].local.sock != sock && l[k].remote.sock != sock && l[k].sock != sock {
        m := m + [l[k]];
      }
    }
  }

  /* ---------- role switch ---------- */

  function Repriced(p: Pair, controlling: bool): Pair {
    p.(priority := OfPair(controlling, p.local.priority, p.remote.priority))
  }

  function RepricedAll(l: seq<Pair>, controlling: bool): seq<Pair> {
    seq(|l|, i requires 0 <= i < |l| => Repriced(l[i], controlling))
  }

  /** A stable sort into descending order. */
  function Sorted(l: seq<Pair>): seq<Pair> {
    if l == [] then [] else Inserted(Sorted(l[1..]), l[0])
  }

  lemma {:induction false} SortedKeeps(l: seq<Pair>, next: nat)
    requires Distinct(l) && Members(l, next) && AllTogether(l)
    ensures Inv(Sorted(l), next) && multiset(Sorted(l)) == multiset(l)
  {
    if l != [] {
      var p, rest := l[0], l[1..];
      assert l == [p] + rest;
      SortedKeeps(rest, next);
      forall i | 0 <= i < |Sorted(rest)|
        ensures Sorted(rest)[i].id != p.id && Together(Sorted(rest)[i], p) && Together(p, Sorted(rest)[i])
      {
        assert Sorted(rest)[i] in multiset(rest);
        var j :| 0 <= j < |rest| && rest[j] == Sorted(rest)[i];
        assert rest[j] == l[j + 1];
      }
      assert Together(l[0], l[0]) && Member(l[0], next);
      InsertedKeeps(Sorted(rest), p, next);
      InsertedContents(Sorted(rest), p);
    }
  }

  /** `priv_recalculate_pair_priorities` for one list: the same pairs, priced for the new role, in
      descending order again. */
  method Recalculate(l: seq<Pair>, controlling: bool, ghost next: nat) returns (m: seq<Pair>)
    requires Inv(l, next)
    ensures Inv(m, next) && Priced(m, controlling)
    ensures m == Sorted(RepricedAll(l, controlling)) && multiset(m) == multiset(RepricedAll(l, controlling))
  {
    var priced := [];
    for k := 0 to |l|
      invariant |priced| == k && forall i :: 0 <= i < k ==> priced[i] == Repriced(l[i], controlling)
    {
      var local, remote := l[k].local.priority, l[k].remote.priority;
      priced := priced + [l[k].(priority := if controlling then Priority(local, remote) else Priority(remote, local))];
    }
    assert priced == RepricedAll(l, controlling);
    RepricedKeeps(l, priced, controlling, next);
    m := Sorted(priced);
  }

  lemma RepricedKeeps(l: seq<Pair>, priced: seq<Pair>, controlling: bool, next: nat)
    requires Inv(l, next) && |priced| == |l| && forall i :: 0 <= i < |l| ==> priced[i] == Repriced(l[i], controlling)
    ensures Inv(Sorted(priced), next) && Priced(Sorted(priced), controlling)
    ensures multiset(Sorted(priced)) == multiset(priced)
  {
    forall i, j | 0 <= i < |l| && 0 <= j < |l| ensures Together(priced[i], priced[j]) {
      assert Together(l[i], l[j]);
    }
    forall i | 0 <= i < |l| ensures Member(priced[i], next) {
      assert Member(l[i], next);
    }
    SortedKeeps(priced, next);
    PermutedPriced(priced, Sorted(priced), controlling);
  }

  lemma PermutedPriced(l: seq<Pair>, m: seq<Pair>, controlling: bool)
    requires multiset(l) == multiset(m) && Priced(l, controlling)
    ensures Priced(m, controlling)
  {
    forall i | 0 <= i < |m| ensures m[i].priority == OfPair(controlling, m[i].local.priority, m[i].remote.priority) {
      assert m[i] in multiset(l);
      var j :| 0 <= j < |l| && l[j] == m[i];
    }
  }

  /** `b` is the other agent's view of `a`. */
  predicate Mirrors(a: Pair, b: Pair) {
    a.local.priority == b.remote.priority && a.remote.priority == b.local.priority
  }

  /** Two agents in opposite roles order mirrored pairs alike, when the candidates' priorities are
      below 2^31 and not the same in both pairs. */
  lemma AgentsAgree(l: seq<Pair>, m: seq<Pair>, controlling: bool, i: nat, j: nat, x: nat, y: nat)
    requires Descending(l) && Priced(l, controlling) && Descending(m) && Priced(m, !controlling)
    requires i < |l| && j < |l| && x < |m| && y < |m| && Mirrors(l[i], m[x]) && Mirrors(l[j], m[y])
    requires l[i].local.priority < HALF && l[i].remote.priority < HALF
    requires l[j].local.priority < HALF && l[j].remote.priority < HALF
    requires l[i].local.priority != l[j].local.priority || l[i].remote.priority != l[j].remote.priority
    ensures i < j <==> x < y
  {
    var p, q := l[i].priority, l[j].priority;
    assert p != q by {
      if p == q {
        if controlling {
          PriorityIsInjective(l[i].local.priority, l[i].remote.priority, l[j].local.priority, l[j].remote.priority);
        } else {
          PriorityIsInjective(l[i].remote.priority, l[i].local.priority, l[j].remote.priority, l[j].local.priority);
        }
      }
    }
    MirroredPairsAgree(controlling, l[i].local.priority, l[i].remote.priority);
    MirroredPairsAgree(controlling, l[j].local.priority, l[j].remote.priority);
    assert m[x].priority == p && m[y].priority == q;
    if i == j || x == y {
      assert false;
    }
  }

  /* ---------- regular nomination ---------- */

  predicate Chosen(p: Pair, c: nat) {
    p.component == c && p.use_candidate_on_next_check
  }

  predicate Electable(p: Pair, c: nat) {
    p.component == c && !p.nominated && !p.use_candidate_on_next_check && p.valid
  }

  /** The place of the pair with this number, or -1. */
  method FindId(l: seq<Pair>, id: nat) returns (k: int)
    ensures k == IndexOf(l, id)
    ensures -1 <= k < |l| && (k >= 0 ==> l[k].id == id)
    ensures k == -1 ==> forall i :: 0 <= i < |l| ==> l[i].id != id
  {
    k := 0;
    while k < |l|
      invariant 0 <= k <= |l| && (forall i :: 0 <= i < k ==> l[i].id != id) && IndexFrom(l, k, id) == IndexOf(l, id)
    {
      if l[k].id == id {
        return k;
      }
      k := k + 1;
    }
    return -1;
  }

  /** The stopping criterion of `priv_conn_check_tick_stream_nominate`: a valid pair of two host
      candidates, two valid pairs, or nothing left to check; and no pair chosen before. */
  method MayNominate(l: seq<Pair>, c: nat) returns (yes: bool)
    ensures yes <==> MayElect(l, c)
  {
    var already_done, hosts, valid, busy := false, 0, 0, 0;
    for k := 0 to |l|
      invariant already_done <==> exists i :: 0 <= i < k && Chosen(l[i], c)
      invariant hosts > 0 <==> exists i :: 0 <= i < k && HostHost(l[i], c)
      invariant valid >= 1 <==> exists i :: 0 <= i < k && Valid(l[i], c)
      invariant valid >= 2 <==> exists i, j :: 0 <= i < j < k && Valid(l[i], c) && Valid(l[j], c)
      invariant busy == 0 <==> forall i :: 0 <= i < k ==> !Pending(l[i], c) && !Running(l[i], c)
    {
      var p := l[k];
      if p.component == c {
        if p.use_candidate_on_next_check {
          already_done := true;
        }
        if p.state == FROZEN || p.state == WAITING || p.state == IN_PROGRESS {
          busy := busy + 1;
        }
        if p.valid {
          valid := valid + 1;
          if p.local.kind == HOST && p.remote.kind == HOST {
            hosts := hosts + 1;
          }
        }
      }
    }
    yes := !already_done && (hosts > 0 || valid >= 2 || busy == 0);
  }

  predicate Settled(l: seq<Pair>, c: nat) {
    || (exists i :: 0 <= i < |l| && HostHost(l[i], c))
    || (exists i, j :: 0 <= i < j < |l| && Valid(l[i], c) && Valid(l[j], c))
    || (forall i :: 0 <= i < |l| ==> !Pending(l[i], c) && !Running(l[i], c))
  }

  predicate Valid(p: Pair, c: nat) {
    p.component == c && p.valid
  }

  predicate HostHost(p: Pair, c: nat) {
    p.component == c && p.valid && p.local.kind == HOST && p.remote.kind == HOST
  }

  predicate MayElect(l: seq<Pair>, c: nat) {
    (forall i :: 0 <= i < |l| ==> !Chosen(l[i], c)) && Settled(l, c)
  }

  /** The first pair from place `k` on that may be elected, or -1. */
  function FirstElectable(l: seq<Pair>, k: nat, c: nat): (e: int)
    ensures e == -1 || k <= e < |l|
    ensures if e == -1 then forall i :: k <= i < |l| ==> !Electable(l[i], c)
            else Electable(l[e], c) && forall i :: k <= i < e ==> !Electable(l[i], c)
    decreases |l| - k
  {
    if k >= |l| then -1 else if Electable(l[k], c) then k else FirstElectable(l, k + 1, c)
  }

  /** What an election comes to: nothing, a check to repeat, or an assertion that fails because that
      check has not succeeded.  `Dangles`: the pair it points to is gone. */
  datatype Election = Nobody | Elects(target: nat) | Asserts | Dangles

  function Elect(l: seq<Pair>, c: nat): (r: Election)
    ensures r.Elects? ==> r.target < |l|
  {
    var e := FirstElectable(l, 0, c);
    if !MayElect(l, c) || e == -1 then Nobody else Repeat(l, e)
  }

  /** The check that pair `e` stands for: its own, or that of the pair it was discovered through. */
  function Repeat(l: seq<Pair>, e: nat): (r: Election)
    requires e < |l|
    ensures r.Elects? ==> r.target < |l| && l[r.target].state == SUCCEEDED
  {
    if l[e].succeeded_pair == NoPair then (if l[e].state == SUCCEEDED then Elects(e) else Asserts)
    else if l[e].state != DISCOVERED then Asserts
    else
      var t := IndexOf(l, l[e].succeeded_pair.id);
      if t < 0 || t >= |l| then Dangles
      else if l[t].state == SUCCEEDED then Elects(t) else Asserts
  }

  /** The assertions of the code fail exactly when an election is due and the pair elected has lost its
      state: it is no longer DISCOVERED though it was, or the check to repeat is not SUCCEEDED. */
  lemma AssertsExactly(l: seq<Pair>, c: nat)
    requires Distinct(l)
    ensures Elect(l, c) == Asserts <==>
              && MayElect(l, c) && FirstElectable(l, 0, c) >= 0
              && var p := l[FirstElectable(l, 0, c)];
                 if p.succeeded_pair == NoPair then p.state != SUCCEEDED
                 else
                   || p.state != DISCOVERED
                   || exists t :: 0 <= t < |l| && l[t].id == p.succeeded_pair.id && l[t].state != SUCCEEDED
  {
    var e := FirstElectable(l, 0, c);
    if e >= 0 && l[e].succeeded_pair.PairId? {
      IndexIsPlace(l, l[e].succeeded_pair.id);
    }
  }

  function Chose(l: seq<Pair>, t: nat): seq<Pair>
    requires t < |l|
  {
    l[t := l[t].(use_candidate_on_next_check := true, state := IN_PROGRESS)]
  }

  /** One component of `priv_conn_check_tick_stream_nominate`.  The pair elected is the valid one of
      highest priority. */
  method NominateComponent(l: seq<Pair>, c: nat, ghost next: nat) returns (m: seq<Pair>, election: Election)
    requires Inv(l, next)
    ensures election == Elect(l, c) && m == if election.Elects? then Chose(l, election.target) else l
    ensures Inv(m, next)
    ensures election.Elects? ==>
              && (forall i :: 0 <= i < |l| ==> !Chosen(l[i], c)) && l[election.target].component == c
              && exists e :: 0 <= e < |l| && Elected(l, c, e, election.target)
  {
    m, election := l, Nobody;
    var yes := MayNominate(l, c);
    if !yes {
      return;
    }
    var k := 0;
    while k < |l| && (l[k].component != c || l[k].nominated || l[k].use_candidate_on_next_check || !l[k].valid)
      invariant 0 <= k <= |l| && FirstElectable(l, k, c) == FirstElectable(l, 0, c)
    {
      k := k + 1;
    }
    if k == |l| {
      return;
    }
    election := FindCheck(l, k);
    if election.Elects? {
      var t := election.target;
      m := l[t := l[t].(use_candidate_on_next_check := true, state := IN_PROGRESS)];
      RepeatIsElected(l, c, k, next);
      ChoosingKeeps(l, m, c, t, next);
    }
  }

  /** The check to repeat for a valid pair, which the code asserts to have succeeded. */
  method FindCheck(l: seq<Pair>, e: nat) returns (election: Election)
    requires e < |l|
    ensures election == Repeat(l, e)
  {
    var t := e;
    if l[e].succeeded_pair.PairId? {
      if l[e].state != DISCOVERED {
        return Asserts;
      }
      t := FindId(l, l[e].succeeded_pair.id);
      if t == -1 {
        return Dangles;
      }
    }
    election := if l[t].state == SUCCEEDED then Elects(t) else Asserts;
  }

  lemma RepeatIsElected(l: seq<Pair>, c: nat, e: nat, next: nat)
    requires Inv(l, next) && FirstElectable(l, 0, c) == e && Repeat(l, e).Elects?
    ensures Elected(l, c, e, Repeat(l, e).target) && l[Repeat(l, e).target].component == c
  {
    var t := Repeat(l, e).target;
    if l[e].succeeded_pair.PairId? {
      IndexIsPlace(l, l[e].succeeded_pair.id);
      assert Together(l[e], l[t]);
    }
  }

  /** `e` is the valid pair of highest priority that is not nominated, and `t` its check. */
  predicate Elected(l: seq<Pair>, c: nat, e: nat, t: nat)
    requires e < |l| && t < |l|
  {
    && Electable(l[e], c)
    && (forall i :: 0 <= i < |l| && Electable(l[i], c) ==> l[i].priority <= l[e].priority)
    && (if l[e].succeeded_pair == NoPair then t == e else l[e].succeeded_pair == PairId(l[t].id))
  }

  lemma ChoosingKeeps(l: seq<Pair>, m: seq<Pair>, c: nat, t: nat, next: nat)
    requires Inv(l, next) && t < |l| && l[t].component == c
    requires forall i :: 0 <= i < |l| ==> !Chosen(l[i], c)
    requires m == Chose(l, t)
    ensures Inv(m, next)
  {
  }
}
