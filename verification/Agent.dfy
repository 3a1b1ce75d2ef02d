/** The check lists of all streams of an agent, and every step that changes them. */
module Agent {
  import opened SeqNum
  import opened PairPriority
  import opened CheckList

  ghost predicate Good(streams: seq<seq<Pair>>, controlling: bool, next: nat) {
    forall s :: 0 <= s < |streams| ==> Inv(streams[s], next) && Priced(streams[s], controlling)
  }

  ghost predicate AllEvolved(old_streams: seq<seq<Pair>>, streams: seq<seq<Pair>>) {
    |streams| == |old_streams| && forall s :: 0 <= s < |streams| ==> Evolved(old_streams[s], streams[s])
  }

  /** How a response to a check is taken.  `Known`: the mapped address is that of the checked pair's
      local candidate; `Other`: of the local candidate of another pair in the list; `Discovers`: of
      a local candidate that makes a new pair; `Unlearnt`: of none, and none may be added. */
  datatype Reply =
    | Mismatch | NoMappedAddress | Known | Other(j: nat) | Discovers(local: Candidate) | Unlearnt
    | Refused | RoleConflict(control: bool)

  datatype Step =
    | AddPair(s: nat, component: nat, local: Candidate, remote: Candidate, sock: nat, initial: CheckState)
    | TriggerNew(s: nat, component: nat, local: Candidate, remote: Candidate, sock: nat)
    | Trigger(s: nat, k: nat, reliable: bool)
    | OrdinaryCheck(s: nat)
    | SendTriggered
    | Timeout(s: nat, k: nat)
    | StartFrozen(s: nat)
    | Nominate(s: nat)
    | Respond(s: nat, k: nat, reply: Reply)
    | SwitchRole(control: bool)
    | MarkNominated(s: nat, local: Candidate, remote: Candidate)
    | PruneSocket(s: nat, sock: nat)

  /* ---------- what the steps make of the lists ---------- */

  /** A new pair, as a step makes it: one for an incoming check on a passive TCP candidate, which starts
      as SUCCEEDED, is valid from the start. */
  function MakePair(id: nat, component: nat, local: Candidate, remote: Candidate, sock: nat, initial: CheckState,
                    controlling: bool): Pair {
    NewPair(id, component, local, remote, sock, initial, controlling).(valid := initial == SUCCEEDED)
  }

  /** The valid pair that the check of `p` discovers. */
  function Discovered(p: Pair, local: Candidate, id: nat, controlling: bool): Pair {
    NewPair(id, p.component, local, p.remote, local.sock, DISCOVERED, controlling)
      .(valid := true, succeeded_pair := PairId(p.id))
  }

  /** Where a link leads, or where it starts if there is none; -1 if it leads nowhere. */
  function Follow(l: seq<Pair>, k: nat, link: Link): (t: int)
    requires k < |l|
    ensures -1 <= t < |l|
  {
    if link == NoPair then k else IndexIsPlace(l, link.id); IndexOf(l, link.id)
  }

  /** An incoming check makes the agent check the pair again. */
  predicate Retriggers(p: Pair, reliable: bool) {
    || p.state == WAITING || p.state == FROZEN
    || (p.state == IN_PROGRESS && !reliable && p.retransmit) || (p.state == FAILED && p.retransmit)
  }

  /** The list with the pair of number `id` being checked. */
  function Checking(l: seq<Pair>, id: nat): seq<Pair> {
    IndexIsPlace(l, id);
    var t := IndexOf(l, id);
    if t == -1 then l else l[t := l[t].(state := IN_PROGRESS)]
  }

  /** The lists once the check with this number has been sent from the triggered queue. */
  function Sent(lists: seq<seq<Pair>>, x: nat, id: nat): (r: seq<seq<Pair>>)
    ensures |r| == |lists|
    decreases |lists| - x
  {
    if x >= |lists| then lists
    else
      IndexIsPlace(lists[x], id);
      var t := IndexOf(lists[x], id);
      if t == -1 then Sent(lists, x + 1, id) else lists[x := lists[x][t := lists[x][t].(retransmit := true)]]
  }

  /** The pair that the ordinary check of a tick is for: the first that waits, or, unless all are frozen,
      the first that is frozen. */
  function Turn(l: seq<Pair>): (k: int)
    ensures -1 <= k < |l|
  {
    var k := FirstIn(l, 0, WAITING);
    if k == -1 && !IsFrozen(l) then FirstIn(l, 0, FROZEN) else k
  }

  /** `priv_schedule_triggered_check`, when the pair found is at `k`. */
  function Triggered(l: seq<Pair>, k: nat, reliable: bool): seq<Pair>
    requires k < |l|
  {
    var t := Follow(l, k, l[k].succeeded_pair);
    if t == -1 then l
    else if Retriggers(l[t], reliable) then l[t := l[t].(state := IN_PROGRESS)]
    else if l[t].state == SUCCEEDED then Settle(l, l[t].component)
    else l
  }

  /** The triggered queue after that. */
  function TriggeredQueue(l: seq<Pair>, k: nat, reliable: bool, q: seq<nat>): seq<nat>
    requires k < |l|
  {
    var t := Follow(l, k, l[k].succeeded_pair);
    if t != -1 && Retriggers(l[t], reliable) then With(q, l[t].id) else q
  }

  /** An assertion fails: the pair at `k` has a parent and is not DISCOVERED. */
  predicate Orphaned(p: Pair) {
    p.succeeded_pair.PairId? && p.state != DISCOVERED
  }

  /** The pair that the peer's nomination is about: one discovered through `l[k]` goes before it. */
  function Designated(l: seq<Pair>, k: nat): (t: int)
    requires k < |l|
    ensures -1 <= t < |l|
  {
    if l[k].state == SUCCEEDED then Follow(l, k, l[k].discovered_pair) else k
  }

  function Marked(p: Pair): Pair {
    p.(mark_nominated_on_response_arrival := p.mark_nominated_on_response_arrival || p.state == IN_PROGRESS,
       nominated := p.nominated || p.valid)
  }

  /** What marking the pair at `k` makes of the list. */
  function Designating(l: seq<Pair>, k: nat): seq<Pair>
    requires k < |l|
  {
    var t := Designated(l, k);
    if t == -1 then l
    else
      var m := l[t := Marked(l[t])];
      if m[t].nominated then Settle(m, m[t].component) else m
  }

  /** An assertion fails: the pair discovered through `l[k]` is not DISCOVERED any more. */
  predicate Misled(l: seq<Pair>, k: nat)
    requires k < |l|
  {
    && l[k].state == SUCCEEDED && l[k].discovered_pair.PairId?
    && Designated(l, k) >= 0 && l[Designated(l, k)].state != DISCOVERED
  }

  datatype Marking = Marking(list: seq<Pair>, aborted: bool)

  /** `priv_mark_pair_nominated`, in the controlled role: the pairs with these numbers one after the
      other, those that do not have the two candidates or have been pruned meanwhile left out, until
      an assertion fails. */
  function MarkEach(l: seq<Pair>, ids: seq<nat>, local: Candidate, remote: Candidate): Marking {
    if ids == [] then Marking(l, false)
    else AfterMark(MarkEach(l, ids[..|ids| - 1], local, remote), ids[|ids| - 1], local, remote)
  }

  function AfterMark(m: Marking, id: nat, local: Candidate, remote: Candidate): Marking {
    IndexIsPlace(m.list, id);
    var k := IndexOf(m.list, id);
    if m.aborted || k == -1 || m.list[k].local != local || m.list[k].remote != remote then m
    else if Misled(m.list, k) then m.(aborted := true)
    else m.(list := Designating(m.list, k))
  }

  function Ids(l: seq<Pair>): seq<nat> {
    seq(|l|, i requires 0 <= i < |l| => l[i].id)
  }

  predicate AllValid(l: seq<Pair>, n_components: nat) {
    forall c: nat :: 1 <= c <= n_components ==> HasValid(l, c)
  }

  predicate HasValid(l: seq<Pair>, c: nat) {
    exists i :: 0 <= i < |l| && l[i].component == c && l[i].valid
  }

  function ValidFoundations(l: seq<Pair>): set<string> {
    set i | 0 <= i < |l| && l[i].valid :: l[i].foundation
  }

  predicate AnyOf(l: seq<Pair>, found: set<string>) {
    exists i :: 0 <= i < |l| && l[i].foundation in found
  }

  /** What a success makes of the list of another stream: an active one has its frozen pairs with a
      foundation of `found` unfrozen, a frozen one too, or is started if it has none. */
  function OtherList(l: seq<Pair>, found: set<string>, n_components: nat): seq<Pair> {
    if IsActive(l) || (IsFrozen(l) && AnyOf(l, found)) then ThawedAll(l, found)
    else if IsFrozen(l) then WokenAll(l, n_components)
    else l
  }

  /** All lists after a success in list `s`. */
  function Related(lists: seq<seq<Pair>>, s: nat, foundation: string, n_components: nat): seq<seq<Pair>>
    requires s < |lists|
  {
    var l := ThawedAll(lists[s], {foundation});
    seq(|lists|, x requires 0 <= x < |lists| =>
      if x == s then l
      else if AllValid(l, n_components) then OtherList(lists[x], ValidFoundations(l), n_components)
      else lists[x])
  }

  /** The list after its pair `k` has been checked with success. */
  function Succeeded(l: seq<Pair>, k: nat, reply: Reply, next: nat, controlling: bool): seq<Pair>
    requires k < |l|
  {
    match reply
    case Discovers(local) =>
      Inserted(l[k := l[k].(state := SUCCEEDED, discovered_pair := PairId(next))], Discovered(l[k], local, next, controlling))
    case Other(j) => l[k := l[k].(state := SUCCEEDED)]
    case Unlearnt => l[k := l[k].(state := SUCCEEDED)]
    case _ => l[k := l[k].(state := SUCCEEDED, valid := true)]
  }

  /** The number of the pair that is valid for the check of pair `k`. */
  function OkPair(l: seq<Pair>, k: nat, reply: Reply, next: nat): nat
    requires k < |l|
  {
    if reply.Discovers? then next else if reply.Other? && reply.j < |l| then l[reply.j].id else l[k].id
  }

  predicate Nominates(p: Pair, controlling: bool, regular: bool) {
    if controlling then (if regular then p.use_candidate_on_next_check else !p.nominated)
    else p.mark_nominated_on_response_arrival
  }

  /** The list with the pair of number `id` nominated. */
  function WithNominated(l: seq<Pair>, id: nat): seq<Pair> {
    IndexIsPlace(l, id);
    var t := IndexOf(l, id);
    if t == -1 then l else l[t := l[t].(nominated := true)]
  }

  /** All lists after the success of pair `k` of list `s`, with what it discovers and unfreezes. */
  function Spreads(lists: seq<seq<Pair>>, s: nat, k: nat, reply: Reply, next: nat, controlling: bool,
                   n_components: nat): (r: seq<seq<Pair>>)
    requires s < |lists| && k < |lists[s]|
    ensures |r| == |lists|
  {
    Related(lists[s := Succeeded(lists[s], k, reply, next, controlling)], s, lists[s][k].foundation, n_components)
  }

  /** The nomination that the success of `p` brings about, and the pruning. */
  function Finished(lists: seq<seq<Pair>>, s: nat, p: Pair, ok: nat, controlling: bool, regular: bool): seq<seq<Pair>>
    requires s < |lists|
  {
    var l := if Nominates(p, controlling, regular) then WithNominated(lists[s], ok) else lists[s];
    lists[s := Settle(l, p.component)]
  }

  /** All lists after a successful response to the check of pair `k` of list `s`. */
  function Responded(lists: seq<seq<Pair>>, s: nat, k: nat, reply: Reply, next: nat, controlling: bool, regular: bool,
                     n_components: nat): seq<seq<Pair>>
    requires s < |lists| && k < |lists[s]|
  {
    Finished(Spreads(lists, s, k, reply, next, controlling, n_components), s, lists[s][k],
             OkPair(lists[s], k, reply, next), controlling, regular)
  }

  /** The triggered queue after that: with a mapped address in the response, the pair is taken out. */
  function RespondedQueue(p: Pair, reply: Reply, q: seq<nat>): seq<nat> {
    if reply == NoMappedAddress then q else Without(q, p.id)
  }

  /** All lists after a role conflict in the response to the check of pair `k` of list `s`: the role may
      have to change, and the pair is checked again in any case. */
  function Conflicted(lists: seq<seq<Pair>>, s: nat, k: nat, control: bool, controlling: bool): seq<seq<Pair>>
    requires s < |lists| && k < |lists[s]|
  {
    var now := InRole(lists, control, controlling);
    now[s := Checking(now[s], lists[s][k].id)]
  }

  function InRole(lists: seq<seq<Pair>>, control: bool, controlling: bool): (r: seq<seq<Pair>>)
    ensures |r| == |lists|
  {
    if control == controlling then lists else Switched(lists, control)
  }

  /** How many pairs are settled and nominated among the first `k`. */
  function CountSettled(l: seq<Pair>, k: nat): nat
    requires k <= |l|
  {
    if k == 0 then 0 else CountSettled(l, k - 1) + if IsSettled(l[k - 1]) && l[k - 1].nominated then 1 else 0
  }

  predicate IsSettled(p: Pair) {
    p.state == SUCCEEDED || p.state == DISCOVERED
  }

  /** A nomination is due: some settled pair waits for one, and too few have one. */
  predicate NominationDue(l: seq<Pair>, n_components: nat) {
    CountSettled(l, |l|) < n_components && exists i :: 0 <= i < |l| && IsSettled(l[i]) && !l[i].nominated
  }

  datatype Round = Round(list: seq<Pair>, queue: seq<nat>, aborted: bool)

  /** The elections of components 1 to `c`, one after the other, until an assertion fails. */
  function Elections(l: seq<Pair>, q: seq<nat>, c: nat): Round {
    if c == 0 then Round(l, q, false) else AfterElection(Elections(l, q, c - 1), c)
  }

  function AfterElection(r: Round, c: nat): Round {
    if r.aborted then r
    else
      match Elect(r.list, c)
      case Elects(t) => Round(Chose(r.list, t), With(r.queue, r.list[t].id), false)
      case Asserts => r.(aborted := true)
      case _ => r
  }

  /* ---------- an agent as a value ---------- */

  datatype Settings = Settings(regular: bool, n_components: nat, max_conn_checks: nat)

  datatype View = View(streams: seq<seq<Pair>>, queue: seq<nat>, controlling: bool, aborted: bool, next: nat)
  {
    function Put(s: nat, l: seq<Pair>): View
      requires s < |streams|
    {
      this.(streams := streams[s := l])
    }
  }

  /** A new pair, if the size limit leaves it in. */
  function Grown(v: View, o: Settings, s: nat, component: nat, local: Candidate, remote: Candidate, sock: nat,
                 initial: CheckState): View
    requires s < |v.streams|
  {
    var p := MakePair(v.next, component, local, remote, sock, initial, v.controlling);
    v.Put(s, Added(v.streams[s], p, o.max_conn_checks)).(next := v.next + 1)
  }

  /** A new pair that is checked at once, if the size limit leaves it in. */
  function GrownAndQueued(v: View, o: Settings, s: nat, component: nat, local: Candidate, remote: Candidate, sock: nat): View
    requires s < |v.streams|
  {
    var p := MakePair(v.next, component, local, remote, sock, WAITING, v.controlling);
    var w := Grown(v, o, s, component, local, remote, sock, WAITING);
    if Cut(v.streams[s], p, o.max_conn_checks) then w
    else w.Put(s, Checking(w.streams[s], v.next)).(queue := With(v.queue, v.next))
  }

  function NextNumber(reply: Reply, next: nat): nat {
    if reply.Discovers? then next + 1 else next
  }

  function Replied(v: View, o: Settings, s: nat, k: nat, reply: Reply): View
    requires s < |v.streams| && k < |v.streams[s]|
  {
    var l := v.streams[s];
    match reply
    case Mismatch => v.Put(s, l[k := l[k].(state := FAILED)])
    case Refused => v.Put(s, l[k := l[k].(state := FAILED)])
    case RoleConflict(control) =>
      v.(streams := Conflicted(v.streams, s, k, control, v.controlling), controlling := control, queue := With(v.queue, l[k].id))
    case _ =>
      v.(streams := Responded(v.streams, s, k, reply, v.next, v.controlling, o.regular, o.n_components),
         queue := RespondedQueue(l[k], reply, v.queue), next := NextNumber(reply, v.next))
  }

  /** The effect of one step; one that names no pair of the lists does nothing. */
  function Next(v: View, o: Settings, step: Step): View {
    if step.SendTriggered? then
      if v.queue == [] then v else v.(streams := Sent(v.streams, 0, v.queue[0]), queue := v.queue[1..])
    else if step.SwitchRole? then
      v.(streams := InRole(v.streams, step.control, v.controlling), controlling := step.control)
    else if step.s >= |v.streams| then v
    else if step.AddPair? || step.TriggerNew? then NextNew(v, o, step)
    else if step.Trigger? || step.Timeout? || step.Respond? then NextPair(v, o, step)
    else NextList(v, o, step)
  }

  function NextNew(v: View, o: Settings, step: Step): View
    requires (step.AddPair? || step.TriggerNew?) && step.s < |v.streams|
  {
    match step
    case AddPair(s, c, local, remote, sock, initial) =>
      if initial == FROZEN || initial == DISCOVERED || initial == SUCCEEDED then Grown(v, o, s, c, local, remote, sock, initial)
      else v
    case TriggerNew(s, c, local, remote, sock) => GrownAndQueued(v, o, s, c, local, remote, sock)
  }

  function NextPair(v: View, o: Settings, step: Step): View
    requires (step.Trigger? || step.Timeout? || step.Respond?) && step.s < |v.streams|
  {
    var l := v.streams[step.s];
    if step.k >= |l| then v
    else
      match step
      case Trigger(s, k, reliable) =>
        if Orphaned(l[k]) then v.(aborted := true)
        else v.Put(s, Triggered(l, k, reliable)).(queue := TriggeredQueue(l, k, reliable, v.queue))
      case Timeout(s, k) => v.Put(s, Settle(l[k := l[k].(state := FAILED)], l[k].component))
      case Respond(s, k, reply) => Replied(v, o, s, k, reply)
  }

  function NextList(v: View, o: Settings, step: Step): View
    requires step.OrdinaryCheck? || step.StartFrozen? || step.Nominate? || step.MarkNominated? || step.PruneSocket?
    requires step.s < |v.streams|
  {
    var l := v.streams[step.s];
    match step
    case OrdinaryCheck(s) =>
      var k := Turn(l);
      if k == -1 then v else v.Put(s, l[k := l[k].(state := IN_PROGRESS, retransmit := true)])
    case StartFrozen(s) => if IsFrozen(l) then v.Put(s, WokenAll(l, o.n_components)) else v
    case Nominate(s) =>
      if o.regular && v.controlling && NominationDue(l, o.n_components) then
        var r := Elections(l, v.queue, o.n_components);
        v.Put(s, r.list).(queue := r.queue, aborted := r.aborted)
      else v
    case MarkNominated(s, local, remote) =>
      if v.controlling then v
      else
        var m := MarkEach(l, Ids(l), local, remote);
        v.Put(s, m.list).(aborted := m.aborted)
    case PruneSocket(s, sock) => v.Put(s, Dropped(l, |l|, sock))
  }

  /** A run, until an assertion fails. */
  function Steps(v: View, o: Settings, steps: seq<Step>): View {
    if steps == [] then v
    else
      var w := Steps(v, o, steps[..|steps| - 1]);
      if w.aborted then w else Next(w, o, steps[|steps| - 1])
  }

  function Start(n_streams: nat, controlling: bool): View {
    View(seq(n_streams, _ => []), [], controlling, false, 0)
  }

  class Agent {
    var streams: seq<seq<Pair>>
    /** The numbers of the pairs to check next. */
    var triggered_check_queue: seq<nat>
    var controlling_mode: bool
    /** An assertion has stopped the program. */
    var aborted: bool
    const regular: bool
    const n_components: nat
    const max_conn_checks: nat
    var next: nat

    function Abs(): View
      reads this
    {
      View(streams, triggered_check_queue, controlling_mode, aborted, next)
    }

    function Options(): Settings {
      Settings(regular, n_components, max_conn_checks)
    }

    ghost predicate Valid()
      reads this
    {
      Good(streams, controlling_mode, next)
    }

    constructor (n_streams: nat, n_components: nat, max_conn_checks: nat, regular: bool, controlling: bool)
      ensures Valid() && Abs() == Start(n_streams, controlling)
      ensures Options() == Settings(regular, n_components, max_conn_checks)
    {
      streams := seq(n_streams, _ => []);
      triggered_check_queue, controlling_mode, next, aborted := [], controlling, 0, false;
      this.regular, this.n_components, this.max_conn_checks := regular, n_components, max_conn_checks;
    }

    /** A new pair goes in at its place, and the list is cut to size: the new pair itself is cut exactly
        when as many pairs as are allowed stand above it. */
    method AddPair(s: nat, component: nat, local: Candidate, remote: Candidate, sock: nat, initial: CheckState)
      returns (k: int)
      requires Valid() && s < |streams|
      modifies this`streams, this`next
      ensures Valid() && next == old(next) + 1
      ensures var p := MakePair(old(next), component, local, remote, sock, initial, controlling_mode);
              && streams == old(streams)[s := Added(old(streams)[s], p, max_conn_checks)]
              && k == IndexOf(streams[s], p.id)
                   == if Cut(old(streams[s]), p, max_conn_checks) then -1 else Place(old(streams[s]), p.priority)
    {
      var priority := PairValue(local, remote, controlling_mode);
      var p := Pair(next, component, local, remote, sock, local.foundation + ":" + remote.foundation, initial,
                    false, initial == SUCCEEDED, false, false, false, NoPair, NoPair, priority);
      assert Inv(streams[s], next) && Priced(streams[s], controlling_mode);
      NewPairFits(streams[s], p);
      var l := Add(streams[s], p, max_conn_checks);
      InsertedPriced(streams[s], p, l, controlling_mode);
      k := FindId(l, next);
      streams, next := streams[s := l], next + 1;
    }

    /** `priv_schedule_triggered_check` when the pair is new.  The code queues it even if the size limit
        has just freed it; the model then has nothing to queue. */
    method TriggerNew(s: nat, component: nat, local: Candidate, remote: Candidate, sock: nat) returns (queued: bool)
      requires Valid() && s < |streams|
      modifies this`streams, this`triggered_check_queue, this`next
      ensures Valid() && Abs() == GrownAndQueued(old(Abs()), Options(), s, component, local, remote, sock)
      ensures var p := MakePair(old(next), component, local, remote, sock, WAITING, controlling_mode);
              queued <==> !Cut(old(streams[s]), p, max_conn_checks)
    {
      ghost var id := next;
      var k := AddPair(s, component, local, remote, sock, WAITING);
      queued := k >= 0;
      if queued {
        IndexIsPlace(streams[s], id);
        Enqueue(s, k);
      }
    }

    /** `priv_add_pair_to_triggered_check_queue`. */
    method Enqueue(s: nat, k: nat)
      requires Valid() && s < |streams| && k < |streams[s]|
      modifies this`streams, this`triggered_check_queue
      ensures Valid()
      ensures streams == old(streams)[s := old(streams)[s][k := old(streams)[s][k].(state := IN_PROGRESS)]]
      ensures triggered_check_queue == With(old(triggered_check_queue), old(streams)[s][k].id)
    {
      var p := streams[s][k].(state := IN_PROGRESS);
      Replace(s, k, p);
      QueueOnce(p.id);
    }

    method QueueOnce(id: nat)
      modifies this`triggered_check_queue
      ensures triggered_check_queue == With(old(triggered_check_queue), id)
    {
      if id !in triggered_check_queue {
        triggered_check_queue := triggered_check_queue + [id];
      }
    }

    /** One pair of one list changes. */
    method Replace(s: nat, k: nat, p: Pair)
      requires Valid() && s < |streams| && k < |streams[s]| && Evolves(streams[s][k], p)
      modifies this`streams
      ensures Valid() && streams == old(streams)[s := old(streams)[s][k := p]]
    {
      ghost var before := streams;
      streams := streams[s := streams[s][k := p]];
    }

    /** `priv_update_check_list_state_for_ready`: READY is signalled only when the component is
        concluded, and no valid pair is lost. */
    method Conclude(s: nat, c: nat) returns (ready: bool)
      requires Valid() && s < |streams|
      modifies this`streams
      ensures Valid() && streams == old(streams)[s := Settle(old(streams)[s], c)]
      ensures ready ==> Concluded(streams[s], c)
      ensures ValidSurvive(old(streams[s]), streams[s])
    {
      assert Inv(streams[s], next) && Priced(streams[s], controlling_mode);
      var l;
      l, ready := UpdateReady(streams[s], c, next);
      streams := streams[s := l];
    }

    /** `priv_schedule_triggered_check` when the pair is in the list.  The code asserts that a pair with a
        parent is DISCOVERED. */
    method Trigger(s: nat, k0: nat, reliable: bool)
      requires Valid() && s < |streams| && k0 < |streams[s]| && !aborted
      modifies this`streams, this`triggered_check_queue, this`aborted
      ensures Valid()
      ensures aborted <==> Orphaned(old(streams[s][k0]))
      ensures streams == if aborted then old(streams) else old(streams)[s := Triggered(old(streams)[s], k0, reliable)]
      ensures triggered_check_queue == if aborted then old(triggered_check_queue)
                                       else TriggeredQueue(old(streams)[s], k0, reliable, old(triggered_check_queue))
    {
      var k: int := k0;
      if streams[s][k].succeeded_pair.PairId? {
        if streams[s][k].state != DISCOVERED {
          aborted := true;
          return;
        }
        k := FindId(streams[s], streams[s][k].succeeded_pair.id);
      }
      if k >= 0 {
        TriggerAt(s, k, reliable);
      }
    }

    method TriggerAt(s: nat, k: nat, reliable: bool)
      requires Valid() && s < |streams| && k < |streams[s]|
      modifies this`streams, this`triggered_check_queue
      ensures Valid()
      ensures var l, p := old(streams)[s], old(streams)[s][k];
              streams == old(streams)[s :=
                if Retriggers(p, reliable) then l[k := p.(state := IN_PROGRESS)]
                else if p.state == SUCCEEDED then Settle(l, p.component) else l]
      ensures var p, q := old(streams)[s][k], old(triggered_check_queue);
              triggered_check_queue == if Retriggers(p, reliable) then With(q, p.id) else q
    {
      var p := streams[s][k];
      match p.state {
        case WAITING => Enqueue(s, k);
        case FROZEN => Enqueue(s, k);
        case IN_PROGRESS =>
          if p.retransmit && !reliable {
            Enqueue(s, k);
          }
        case FAILED =>
          if p.retransmit {
            Enqueue(s, k);
          }
        case SUCCEEDED => var ready := Conclude(s, p.component);
        case DISCOVERED =>
      }
    }

    /** The ordinary check of a tick: the waiting pair of highest priority, or, unless all are frozen,
        the frozen one of highest priority. */
    method OrdinaryCheck(s: nat) returns (k: int)
      requires Valid() && s < |streams|
      modifies this`streams
      ensures Valid() && k == Turn(old(streams[s]))
      ensures var l := old(streams[s]);
              streams == if k == -1 then old(streams)
                         else old(streams)[s := l[k := l[k].(state := IN_PROGRESS, retransmit := true)]]
      ensures k >= 0 ==>
                var l := old(streams[s]);
                && (l[k].state == WAITING || (l[k].state == FROZEN && forall i :: 0 <= i < |l| ==> l[i].state != WAITING))
                && (forall i :: 0 <= i < |l| && l[i].state == l[k].state ==> l[i].priority <= l[k].priority)
      ensures k == -1 ==> forall i :: 0 <= i < |streams[s]| ==> streams[s][i].state != WAITING
    {
      assert Inv(streams[s], next);
      k := FindFirst(streams[s], WAITING);
      var frozen := CheckFrozen(streams[s]);
      if k == -1 && !frozen {
        k := FindFirst(streams[s], FROZEN);
      }
      if k >= 0 {
        Replace(s, k, streams[s][k].(state := IN_PROGRESS, retransmit := true));
      }
    }

    /** A check from the triggered queue is sent. */
    method SendTriggered()
      requires Valid()
      modifies this`streams, this`triggered_check_queue
      ensures Valid()
      ensures var q := old(triggered_check_queue);
              if q == [] then triggered_check_queue == q && streams == old(streams)
              else triggered_check_queue == q[1..] && streams == Sent(old(streams), 0, q[0])
    {
      if triggered_check_queue == [] {
        return;
      }
      var id := triggered_check_queue[0];
      triggered_check_queue := triggered_check_queue[1..];
      var s := 0;
      while s < |streams|
        invariant 0 <= s <= |streams| && Valid() && streams == old(streams) && Sent(streams, s, id) == Sent(streams, 0, id)
        invariant triggered_check_queue == old(triggered_check_queue)[1..]
      {
        var k := FindId(streams[s], id);
        if k >= 0 {
          Replace(s, k, streams[s][k].(retransmit := true));
          return;
        }
        s := s + 1;
      }
    }

    /** `candidate_check_pair_fail` after the last retransmission. */
    method Timeout(s: nat, k: nat) returns (ready: bool)
      requires Valid() && s < |streams| && k < |streams[s]|
      modifies this`streams
      ensures Valid()
      ensures var l, p := old(streams)[s], old(streams)[s][k];
              streams == old(streams)[s := Settle(l[k := p.(state := FAILED)], p.component)]
      ensures ready ==> Concluded(streams[s], old(streams[s][k].component))
    {
      var c := streams[s][k].component;
      Replace(s, k, streams[s][k].(state := FAILED));
      ready := Conclude(s, c);
    }

    /** A check list that is still frozen is started. */
    method StartFrozen(s: nat)
      requires Valid() && s < |streams|
      modifies this`streams
      ensures Valid()
      ensures streams == if IsFrozen(old(streams)[s]) then old(streams)[s := WokenAll(old(streams)[s], n_components)]
                         else old(streams)
    {
      var frozen := CheckFrozen(streams[s]);
      if frozen {
        var l := UnfreezeNext(streams[s], n_components);
        Become(streams[s := l]);
      }
    }

    method Become(now: seq<seq<Pair>>)
      requires Valid() && AllEvolved(streams, now)
      modifies this`streams
      ensures Valid() && streams == now
    {
      streams := now;
    }

    /** `priv_conn_check_unfreeze_related`. */
    method UnfreezeRelated(s: nat, foundation: string)
      requires Valid() && s < |streams|
      modifies this`streams
      ensures Valid() && streams == Related(old(streams), s, foundation, n_components)
    {
      var now := Unfrozen(streams, s, foundation, n_components);
      Become(now);
    }

    /** `priv_check_for_role_conflict`: every list holds the same pairs, priced for the new role and
        sorted again. */
    method SwitchRole(control: bool)
      requires Valid()
      modifies this`streams, this`controlling_mode
      ensures Valid() && controlling_mode == control
      ensures streams == if control == old(controlling_mode) then old(streams) else Switched(old(streams), control)
    {
      if control == controlling_mode {
        return;
      }
      var now := RecalculateAll(streams, control, controlling_mode, next);
      streams, controlling_mode := now, control;
    }

    /** `priv_conn_check_tick_stream_nominate` in regular nomination. */
    method Nominate(s: nat)
      requires Valid() && s < |streams| && !aborted
      modifies this`streams, this`triggered_check_queue, this`aborted
      ensures Valid()
      ensures if regular && controlling_mode && NominationDue(old(streams)[s], n_components)
              then var r := Elections(old(streams)[s], old(triggered_check_queue), n_components);
                   streams == old(streams)[s := r.list] && triggered_check_queue == r.queue && aborted == r.aborted
              else streams == old(streams) && triggered_check_queue == old(triggered_check_queue) && !aborted
    {
      var due := IsDue(streams[s], n_components);
      if due && regular && controlling_mode {
        assert Inv(streams[s], next) && Priced(streams[s], controlling_mode);
        var l, q, failed := HoldElections(streams[s], triggered_check_queue, n_components, controlling_mode, next);
        streams, triggered_check_queue, aborted := streams[s := l], q, failed;
      }
    }

    /** `priv_mark_pair_nominated`: nothing in the controlling role, otherwise every pair with the two
        candidates is marked, with the pruning that a nomination brings about inside the loop.  The code
        asserts that a pair found through its parent is DISCOVERED. */
    method MarkNominated(s: nat, local: Candidate, remote: Candidate)
      requires Valid() && s < |streams| && !aborted
      modifies this`streams, this`aborted
      ensures Valid()
      ensures if controlling_mode then streams == old(streams) && !aborted
              else var m := MarkEach(old(streams)[s], Ids(old(streams)[s]), local, remote);
                   streams == old(streams)[s := m.list] && aborted == m.aborted
    {
      if controlling_mode {
        return;
      }
      var l, i := streams[s], 0;
      var ids := ListIds(l);
      while i < |ids| && !aborted
        invariant 0 <= i <= |ids| && Valid() && s < |streams| && streams == old(streams)[s := streams[s]]
        invariant Marking(streams[s], aborted) == MarkEach(l, ids[..i], local, remote)
      {
        assert ids[..i + 1][..i] == ids[..i];
        MarkOne(s, ids[i], local, remote);
        i := i + 1;
      }
      StaysMarked(l, ids, i, local, remote);
    }

    method MarkOne(s: nat, id: nat, local: Candidate, remote: Candidate)
      requires Valid() && s < |streams| && !aborted
      modifies this`streams, this`aborted
      ensures Valid() && |streams| == |old(streams)| && streams == old(streams)[s := streams[s]]
      ensures Marking(streams[s], aborted) == AfterMark(Marking(old(streams)[s], false), id, local, remote)
    {
      var k := FindId(streams[s], id);
      if k == -1 || streams[s][k].local != local || streams[s][k].remote != remote {
        return;
      }
      var t := k;
      if streams[s][k].state == SUCCEEDED && streams[s][k].discovered_pair.PairId? {
        t := FindId(streams[s], streams[s][k].discovered_pair.id);
        if t == -1 {
          return;
        }
        if streams[s][t].state != DISCOVERED {
          aborted := true;
          return;
        }
      }
      var p := streams[s][t];
      if p.state == IN_PROGRESS {
        p := p.(mark_nominated_on_response_arrival := true);
      }
      if p.valid {
        p := p.(nominated := true);
      }
      Replace(s, t, p);
      if p.nominated {
        var ready := Conclude(s, p.component);
      }
    }

    method PruneSocket(s: nat, sock: nat)
      requires Valid() && s < |streams|
      modifies this`streams
      ensures Valid() && streams == old(streams)[s := Dropped(old(streams[s]), |old(streams[s])|, sock)]
    {
      assert Inv(streams[s], next) && Priced(streams[s], controlling_mode);
      var l := DropSocket(streams[s], sock);
      ghost var at := DroppedPlaces(streams[s], sock);
      PicksKeeps(streams[s], l, at, next);
      PicksDrawn(streams[s], l, at);
      streams := streams[s := l];
    }

    /** A response to the check of a pair: `priv_map_reply_to_conn_check_request`. */
    method Respond(s: nat, k: nat, reply: Reply) returns (ready: bool)
      requires Valid() && s < |streams| && k < |streams[s]|
      modifies this`streams, this`triggered_check_queue, this`next, this`controlling_mode
      ensures Valid() && Abs() == Replied(old(Abs()), Options(), s, k, reply)
      ensures ready ==> Concluded(streams[s], old(streams[s][k].component))
    {
      ready := false;
      if reply == Mismatch || reply == Refused {
        Replace(s, k, streams[s][k].(state := FAILED));
      } else if reply.RoleConflict? {
        RespondConflict(s, k, reply.control);
      } else {
        ready := RespondSuccess(s, k, reply);
      }
    }

    /** The role may have to change, and the pair is checked again in any case. */
    method RespondConflict(s: nat, k: nat, control: bool)
      requires Valid() && s < |streams| && k < |streams[s]|
      modifies this`streams, this`triggered_check_queue, this`controlling_mode
      ensures Valid() && controlling_mode == control
      ensures streams == Conflicted(old(streams), s, k, control, old(controlling_mode))
      ensures triggered_check_queue == With(old(triggered_check_queue), old(streams)[s][k].id)
    {
      var id := streams[s][k].id;
      SwitchRole(control);
      var t := FindId(streams[s], id);
      if t >= 0 {
        Replace(s, t, streams[s][t].(state := IN_PROGRESS));
      }
      QueueOnce(id);
    }

    method RespondSuccess(s: nat, k: nat, reply: Reply) returns (ready: bool)
      requires Valid() && s < |streams| && k < |streams[s]| && IsSuccess(reply)
      modifies this`streams, this`triggered_check_queue, this`next
      ensures Valid() && streams == Responded(old(streams), s, k, reply, old(next), controlling_mode, regular, n_components)
      ensures triggered_check_queue == RespondedQueue(old(streams)[s][k], reply, old(triggered_check_queue))
      ensures next == NextNumber(reply, old(next))
      ensures ready ==> Concluded(streams[s], old(streams[s][k].component))
    {
      var p := streams[s][k];
      var ok := Spread(s, k, reply);
      ready := Finish(s, p, ok);
    }

    /** Success, and what it unfreezes. */
    method Spread(s: nat, k: nat, reply: Reply) returns (ok: nat)
      requires Valid() && s < |streams| && k < |streams[s]| && IsSuccess(reply)
      modifies this`streams, this`triggered_check_queue, this`next
      ensures Valid() && ok == OkPair(old(streams)[s], k, reply, old(next))
      ensures streams == Spreads(old(streams), s, k, reply, old(next), controlling_mode, n_components)
      ensures triggered_check_queue == RespondedQueue(old(streams)[s][k], reply, old(triggered_check_queue))
      ensures next == NextNumber(reply, old(next))
    {
      var p := streams[s][k];
      ok := Succeed(s, k, reply);
      UnfreezeRelated(s, p.foundation);
    }

    /** Nomination and pruning after the success of `p`. */
    method Finish(s: nat, p: Pair, ok: nat) returns (ready: bool)
      requires Valid() && s < |streams|
      modifies this`streams
      ensures Valid() && streams == Finished(old(streams), s, p, ok, controlling_mode, regular)
      ensures ready ==> Concluded(streams[s], p.component)
    {
      var nominates := p.mark_nominated_on_response_arrival;
      if controlling_mode {
        nominates := if regular then p.use_candidate_on_next_check else !p.nominated;
      }
      if nominates {
        SetNominated(s, ok);
      }
      ready := Conclude(s, p.component);
    }

    method SetNominated(s: nat, id: nat)
      requires Valid() && s < |streams|
      modifies this`streams
      ensures Valid() && streams == old(streams)[s := WithNominated(old(streams)[s], id)]
    {
      var t := FindId(streams[s], id);
      if t >= 0 {
        Replace(s, t, streams[s][t].(nominated := true));
      }
    }

    /** The check of pair `k` has succeeded.  `ok` is the number of the pair that is valid for it. */
    method Succeed(s: nat, k: nat, reply: Reply) returns (ok: nat)
      requires Valid() && s < |streams| && k < |streams[s]| && IsSuccess(reply)
      modifies this`streams, this`triggered_check_queue, this`next
      ensures Valid() && ok == OkPair(old(streams)[s], k, reply, old(next))
      ensures streams == old(streams)[s := Succeeded(old(streams)[s], k, reply, old(next), controlling_mode)]
      ensures triggered_check_queue == RespondedQueue(old(streams)[s][k], reply, old(triggered_check_queue))
      ensures next == NextNumber(reply, old(next))
    {
      var p := streams[s][k];
      ok := p.id;
      if reply.Discovers? {
        ok := next;
        Discover(s, k, reply.local);
      } else if reply.Other? || reply.Unlearnt? {
        if reply.Other? && reply.j < |streams[s]| {
          ok := streams[s][reply.j].id;
        }
        Replace(s, k, p.(state := SUCCEEDED));
      } else {
        Replace(s, k, p.(state := SUCCEEDED, valid := true));
      }
      if reply != NoMappedAddress {
        triggered_check_queue := Removed(triggered_check_queue, p.id);
      }
    }

    /** `priv_add_peer_reflexive_pair`: a valid pair that the check of pair `k` has discovered. */
    method Discover(s: nat, k: nat, local: Candidate)
      requires Valid() && s < |streams| && k < |streams[s]|
      modifies this`streams, this`next
      ensures Valid() && next == old(next) + 1
      ensures var l, p := old(streams)[s], old(streams)[s][k];
              streams == old(streams)[s := Inserted(l[k := p.(state := SUCCEEDED, discovered_pair := PairId(old(next)))],
                                                    Discovered(p, local, old(next), controlling_mode))]
    {
      var p := streams[s][k];
      var priority := PairValue(local, p.remote, controlling_mode);
      var d := Pair(next, p.component, local, p.remote, local.sock, local.foundation + ":" + p.remote.foundation, DISCOVERED,
                    false, true, false, false, false, NoPair, PairId(p.id), priority);
      Replace(s, k, p.(state := SUCCEEDED, discovered_pair := PairId(next)));
      assert Inv(streams[s], next) && Priced(streams[s], controlling_mode);
      assert Member(streams[s][k], next);
      NewPairFits(streams[s], d);
      InsertedKeeps(streams[s], d, next + 1);
      InsertedPriced(streams[s], d, Inserted(streams[s], d), controlling_mode);
      streams, next := streams[s := Inserted(streams[s], d)], next + 1;
    }

    /** Any step. */
    method Do(step: Step)
      requires Valid() && !aborted
      modifies this`streams, this`triggered_check_queue, this`next, this`controlling_mode, this`aborted
      ensures Valid() && Abs() == Next(old(Abs()), Options(), step) && |streams| == |old(streams)|
    {
      if step.SendTriggered? {
        SendTriggered();
      } else if step.SwitchRole? {
        SwitchRole(step.control);
      } else if step.s < |streams| {
        if step.AddPair? || step.TriggerNew? {
          DoNew(step);
        } else if step.Trigger? || step.Timeout? || step.Respond? {
          DoPair(step);
        } else {
          DoList(step);
        }
      }
    }

    method DoNew(step: Step)
      requires Valid() && !aborted && (step.AddPair? || step.TriggerNew?) && step.s < |streams|
      modifies this`streams, this`triggered_check_queue, this`next
      ensures Valid() && Abs() == NextNew(old(Abs()), Options(), step) && |streams| == |old(streams)|
    {
      match step {
        case AddPair(s, c, local, remote, sock, initial) =>
          if initial == FROZEN || initial == DISCOVERED || initial == SUCCEEDED {
            var k := AddPair(s, c, local, remote, sock, initial);
          }
        case TriggerNew(s, c, local, remote, sock) =>
          var queued := TriggerNew(s, c, local, remote, sock);
      }
    }

    method DoPair(step: Step)
      requires Valid() && !aborted && (step.Trigger? || step.Timeout? || step.Respond?) && step.s < |streams|
      modifies this`streams, this`triggered_check_queue, this`next, this`controlling_mode, this`aborted
      ensures Valid() && Abs() == NextPair(old(Abs()), Options(), step) && |streams| == |old(streams)|
    {
      if step.k < |streams[step.s]| {
        match step {
          case Trigger(s, k, reliable) => Trigger(s, k, reliable);
          case Timeout(s, k) => var ready := Timeout(s, k);
          case Respond(s, k, reply) => var ready := Respond(s, k, reply);
        }
      }
    }

    method DoList(step: Step)
      requires step.OrdinaryCheck? || step.StartFrozen? || step.Nominate? || step.MarkNominated? || step.PruneSocket?
      requires Valid() && !aborted && step.s < |streams|
      modifies this`streams, this`triggered_check_queue, this`aborted
      ensures Valid() && Abs() == NextList(old(Abs()), Options(), step) && |streams| == |old(streams)|
    {
      match step {
        case OrdinaryCheck(s) => var k := OrdinaryCheck(s);
        case StartFrozen(s) => StartFrozen(s);
        case Nominate(s) => Nominate(s);
        case MarkNominated(s, local, remote) => MarkNominated(s, local, remote);
        case PruneSocket(s, sock) => PruneSocket(s, sock);
      }
    }
  }

  lemma {:induction false} StaysMarked(l: seq<Pair>, ids: seq<nat>, i: nat, local: Candidate, remote: Candidate)
    requires i <= |ids| && (i < |ids| ==> MarkEach(l, ids[..i], local, remote).aborted)
    ensures MarkEach(l, ids, local, remote) == MarkEach(l, ids[..i], local, remote)
    decreases |ids|
  {
    if i < |ids| {
      var front := ids[..|ids| - 1];
      assert front[..i] == ids[..i];
      StaysMarked(l, front, i, local, remote);
    } else {
      assert ids[..i] == ids;
    }
  }

  predicate IsSuccess(reply: Reply) {
    !reply.Mismatch? && !reply.Refused? && !reply.RoleConflict?
  }

  /** `priv_all_components_have_valid_pair`. */
  method AllComponentsValid(l: seq<Pair>, n_components: nat) returns (yes: bool)
    ensures yes <==> AllValid(l, n_components)
  {
    for c := 1 to n_components + 1
      invariant forall d: nat :: 1 <= d < c ==> HasValid(l, d)
    {
      var has := ComponentValid(l, c);
      if !has {
        return false;
      }
    }
    yes := true;
  }

  method ComponentValid(l: seq<Pair>, c: nat) returns (yes: bool)
    ensures yes <==> HasValid(l, c)
  {
    for k := 0 to |l|
      invariant forall i :: 0 <= i < k ==> !(l[i].component == c && l[i].valid)
    {
      if l[k].valid && l[k].component == c {
        return true;
      }
    }
    yes := false;
  }

  /** The foundations of the valid pairs. */
  method GatherFoundations(l: seq<Pair>) returns (found: set<string>)
    ensures found == ValidFoundations(l)
  {
    found := {};
    for k := 0 to |l|
      invariant found == set i | 0 <= i < k && l[i].valid :: l[i].foundation
    {
      if l[k].valid {
        found := found + {l[k].foundation};
      }
    }
  }

  /** `priv_match_pairs`: some pair has one of the foundations. */
  method SomeOf(l: seq<Pair>, found: set<string>) returns (yes: bool)
    ensures yes <==> AnyOf(l, found)
  {
    for k := 0 to |l|
      invariant forall i :: 0 <= i < k ==> l[i].foundation !in found
    {
      if l[k].foundation in found {
        return true;
      }
    }
    yes := false;
  }

  method ListIds(l: seq<Pair>) returns (ids: seq<nat>)
    ensures ids == Ids(l)
  {
    ids := [];
    for k := 0 to |l|
      invariant |ids| == k && forall i :: 0 <= i < k ==> ids[i] == l[i].id
    {
      ids := ids + [l[k].id];
    }
  }

  /** `agent_candidate_pair_priority`. */
  method PairValue(local: Candidate, remote: Candidate, controlling: bool) returns (priority: nat)
    ensures priority == OfPair(controlling, local.priority, remote.priority)
  {
    if controlling {
      priority := Priority(local.priority, remote.priority);
    } else {
      priority := Priority(remote.priority, local.priority);
    }
  }

  /** The queue without a number. */
  method Removed(q: seq<nat>, id: nat) returns (r: seq<nat>)
    ensures r == Without(q, id)
  {
    r := [];
    var k := |q|;
    while k > 0
      invariant 0 <= k <= |q| && r == Without(q[k..], id)
    {
      k := k - 1;
      assert q[k..][1..] == q[k + 1..];
      if q[k] != id {
        r := [q[k]] + r;
      }
    }
  }

  method Unfrozen(before: seq<seq<Pair>>, s: nat, foundation: string, n_components: nat) returns (now: seq<seq<Pair>>)
    requires s < |before|
    ensures AllEvolved(before, now) && now == Related(before, s, foundation, n_components)
  {
    var l := Thaw(before[s], {foundation});
    now := [];
    var found := GatherFoundations(l);
    var spread := AllComponentsValid(l, n_components);
    for x := 0 to |before|
      invariant |now| == x && forall y :: 0 <= y < x ==> Evolved(before[y], now[y])
      invariant forall y :: 0 <= y < x ==>
                  now[y] == if y == s then l else if spread then OtherList(before[y], found, n_components) else before[y]
    {
      var m := l;
      if x != s {
        m := UnfreezeOther(before[x], found, spread, n_components);
      }
      now := now + [m];
    }
    assert now == Related(before, s, foundation, n_components);
  }

  /** `priv_conn_check_unfreeze_related` for the list of another stream. */
  method UnfreezeOther(l: seq<Pair>, found: set<string>, spread: bool, n_components: nat) returns (m: seq<Pair>)
    ensures Evolved(l, m) && m == if spread then OtherList(l, found, n_components) else l
  {
    m := l;
    if !spread {
      return;
    }
    var active := CheckActive(l);
    var frozen := CheckFrozen(l);
    var some := SomeOf(l, found);
    if active {
      m := Thaw(l, found);
    } else if frozen {
      if some {
        m := Thaw(l, found);
      } else {
        m := UnfreezeNext(l, n_components);
      }
    }
  }

  function Switched(lists: seq<seq<Pair>>, control: bool): seq<seq<Pair>> {
    seq(|lists|, x requires 0 <= x < |lists| => Sorted(RepricedAll(lists[x], control)))
  }

  /** `priv_recalculate_pair_priorities`. */
  method RecalculateAll(before: seq<seq<Pair>>, control: bool, ghost controlling: bool, ghost next: nat)
    returns (now: seq<seq<Pair>>)
    requires Good(before, controlling, next)
    ensures Good(now, control, next) && now == Switched(before, control)
  {
    now := [];
    for x := 0 to |before|
      invariant |now| == x && forall y :: 0 <= y < x ==> now[y] == Sorted(RepricedAll(before[y], control))
    {
      var m := Recalculate(before[x], control, next);
      now := now + [m];
    }
    SwitchedGood(before, control, controlling, next);
    assert now == Switched(before, control);
  }

  lemma SwitchedGood(lists: seq<seq<Pair>>, control: bool, controlling: bool, next: nat)
    requires Good(lists, controlling, next)
    ensures Good(Switched(lists, control), control, next)
  {
    forall x | 0 <= x < |lists|
      ensures Inv(Switched(lists, control)[x], next) && Priced(Switched(lists, control)[x], control)
    {
      RepricedKeeps(lists[x], RepricedAll(lists[x], control), control, next);
    }
  }

  /** The queue with a number, once. */
  function With(q: seq<nat>, id: nat): (r: seq<nat>)
    ensures id in r && q <= r
  {
    if id in q then q else q + [id]
  }

  /** The queue without a number. */
  function Without(q: seq<nat>, id: nat): (r: seq<nat>)
    ensures id !in r && forall x :: x in r <==> x in q && x != id
  {
    if q == [] then [] else (if q[0] == id then [] else [q[0]]) + Without(q[1..], id)
  }

  /** The counting that opens `priv_conn_check_tick_stream_nominate`. */
  method IsDue(l: seq<Pair>, n_components: nat) returns (due: bool)
    ensures due <==> NominationDue(l, n_components)
  {
    var s_nominated, s_waiting := 0, 0;
    for k := 0 to |l|
      invariant s_nominated == CountSettled(l, k)
      invariant s_waiting > 0 <==> exists i :: 0 <= i < k && IsSettled(l[i]) && !l[i].nominated
    {
      if l[k].state == SUCCEEDED || l[k].state == DISCOVERED {
        if l[k].nominated {
          s_nominated := s_nominated + 1;
        } else {
          s_waiting := s_waiting + 1;
        }
      }
    }
    due := s_nominated < n_components && s_waiting > 0;
  }

  /** The loop over the components. */
  method HoldElections(l0: seq<Pair>, q0: seq<nat>, n: nat, ghost controlling: bool, ghost next: nat)
    returns (l: seq<Pair>, q: seq<nat>, failed: bool)
    requires Inv(l0, next) && Priced(l0, controlling)
    ensures Inv(l, next) && Priced(l, controlling) && Round(l, q, failed) == Elections(l0, q0, n)
  {
    l, q, failed := l0, q0, false;
    var c := 0;
    while c < n && !failed
      invariant 0 <= c <= n && Inv(l, next) && Priced(l, controlling)
      invariant Round(l, q, failed) == Elections(l0, q0, c)
    {
      c := c + 1;
      l, q, failed := HoldElection(l, q, c, controlling, next);
    }
    if failed {
      StaysFailed(l0, q0, c, n);
    }
  }

  method HoldElection(l0: seq<Pair>, q0: seq<nat>, c: nat, ghost controlling: bool, ghost next: nat)
    returns (l: seq<Pair>, q: seq<nat>, failed: bool)
    requires Inv(l0, next) && Priced(l0, controlling)
    ensures Inv(l, next) && Priced(l, controlling) && Round(l, q, failed) == AfterElection(Round(l0, q0, false), c)
  {
    q := q0;
    var election;
    l, election := NominateComponent(l0, c, next);
    failed := election == Asserts;
    if election.Elects? {
      ChosePriced(l0, election.target, controlling);
      if l[election.target].id !in q {
        q := q + [l[election.target].id];
      }
    }
  }

  lemma ChosePriced(l: seq<Pair>, t: nat, controlling: bool)
    requires Priced(l, controlling) && t < |l|
    ensures Priced(Chose(l, t), controlling)
  {
  }

  lemma {:induction false} StaysFailed(l: seq<Pair>, q: seq<nat>, c: nat, n: nat)
    requires c <= n && Elections(l, q, c).aborted
    ensures Elections(l, q, n) == Elections(l, q, c)
    decreases n
  {
    if c < n {
      StaysFailed(l, q, c, n - 1);
    }
  }

  /** The steps one after the other, until an assertion fails. */
  method DoAll(a: Agent, steps: seq<Step>)
    requires a.Valid()
    modifies a
    ensures a.Valid() && a.Abs() == Steps(old(a.Abs()), a.Options(), steps) && |a.streams| == |old(a.streams)|
  {
    for k := 0 to |steps|
      invariant a.Valid() && a.Abs() == Steps(old(a.Abs()), a.Options(), steps[..k]) && |a.streams| == |old(a.streams)|
    {
      assert steps[..k + 1][..k] == steps[..k];
      if !a.aborted {
        a.Do(steps[k]);
      }
    }
    assert steps[..|steps|] == steps;
  }

  /** Every reachable set of check lists: whatever steps are taken, each list is in descending order,
      its valid pairs are not waiting, and at most one pair of a component carries USE-CANDIDATE. */
  method Run(n_streams: nat, n_components: nat, max_conn_checks: nat, regular: bool, controlling: bool,
             steps: seq<Step>) returns (a: Agent)
    ensures a.Abs() == Steps(Start(n_streams, controlling), Settings(regular, n_components, max_conn_checks), steps)
    ensures |a.streams| == n_streams
    ensures forall s :: 0 <= s < n_streams ==>
              var l := a.streams[s];
              && Descending(l)
              && Priced(l, a.controlling_mode)
              && (forall i :: 0 <= i < |l| ==> Sound(l[i]))
              && (forall i, j :: 0 <= i < j < |l| && l[i].component == l[j].component ==>
                    !(l[i].use_candidate_on_next_check && l[j].use_candidate_on_next_check))
  {
    a := new Agent(n_streams, n_components, max_conn_checks, regular, controlling);
    DoAll(a, steps);
    forall s | 0 <= s < n_streams
      ensures var l := a.streams[s];
              && Descending(l)
              && (forall i :: 0 <= i < |l| ==> Sound(l[i]))
              && (forall i, j :: 0 <= i < j < |l| && l[i].component == l[j].component ==>
                    !(l[i].use_candidate_on_next_check && l[j].use_candidate_on_next_check))
    {
      InvMeans(a.streams[s], a.next);
    }
  }

  lemma InvMeans(l: seq<Pair>, next: nat)
    requires Inv(l, next)
    ensures forall i :: 0 <= i < |l| ==> Sound(l[i])
    ensures forall i, j :: 0 <= i < j < |l| && l[i].component == l[j].component ==>
              !(l[i].use_candidate_on_next_check && l[j].use_candidate_on_next_check)
  {
  }

  lemma InsertedPriced(l: seq<Pair>, p: Pair, m: seq<Pair>, controlling: bool)
    requires Priced(l, controlling) && m <= Inserted(l, p)
    requires p.priority == OfPair(controlling, p.local.priority, p.remote.priority)
    ensures Priced(m, controlling)
  {
  }
}
