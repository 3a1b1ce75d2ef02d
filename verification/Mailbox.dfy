/** Mail delivery of the CHUMP server: the receive thread and `recv`, interleaved under one lock, over
    an IMAP mailbox in which messages arrive at any time. */
module Mailbox {

  datatype Timestamp = NoTimestamp | At(time: int)
  datatype Message = Message(key: string, timestamp: Timestamp, body: string)

  /** What a mail turns out to be once decoded: an offer or an answer, a message, or garbage. */
  datatype Email = Control | Malformed | Plain(message: Message)

  /** Where the receive thread is: without the lock, or after its first `_doom`, or after `_sync`. */
  datatype Phase = Sleeping | Cleaned | Synced

  /* ---------- sorting ---------- */

  function Time(m: Message): int {
    match m.timestamp
    case NoTimestamp => 0
    case At(t) => t
  }

  predicate Ordered(ms: seq<Message>) {
    forall i, j :: 0 <= i < j < |ms| ==> NotLater(ms[i].timestamp, ms[j].timestamp)
  }

  /** A message without a timestamp counts as sent at time 0. */
  predicate NotLater(a: Timestamp, b: Timestamp) {
    if a.At? && b.At? then a.time <= b.time else (a.At? ==> a.time <= 0) && (b.At? ==> 0 <= b.time)
  }

  /** The messages sent at time `t`, in order. */
  function SentAt(ms: seq<Message>, t: int): seq<Message> {
    if ms == [] then []
    else SentAt(ms[..|ms| - 1], t) + if Time(ms[|ms| - 1]) == t then [ms[|ms| - 1]] else []
  }

  /** `m` put behind all that are not later. */
  function Insert(ms: seq<Message>, m: Message): seq<Message> {
    if ms == [] || Time(ms[|ms| - 1]) <= Time(m) then ms + [m]
    else Insert(ms[..|ms| - 1], m) + [ms[|ms| - 1]]
  }

  lemma {:induction false} InsertContents(ms: seq<Message>, m: Message)
    ensures multiset(Insert(ms, m)) == multiset(ms) + multiset{m}
  {
    if ms != [] && Time(ms[|ms| - 1]) > Time(m) {
      assert ms == ms[..|ms| - 1] + [ms[|ms| - 1]];
      InsertContents(ms[..|ms| - 1], m);
    }
  }

  /** No later than `t`, all of them. */
  predicate Until(ms: seq<Message>, t: int) {
    forall i :: 0 <= i < |ms| ==> Time(ms[i]) <= t
  }

  lemma {:induction false} InsertSorts(ms: seq<Message>, m: Message, t: int)
    requires Ordered(ms) && Until(ms, t) && Time(m) <= t
    ensures Ordered(Insert(ms, m)) && Until(Insert(ms, m), t)
  {
    if ms != [] && Time(ms[|ms| - 1]) > Time(m) {
      InsertSorts(ms[..|ms| - 1], m, Time(ms[|ms| - 1]));
    }
  }

  lemma SentAtSnoc(ms: seq<Message>, m: Message, t: int)
    ensures SentAt(ms + [m], t) == SentAt(ms, t) + if Time(m) == t then [m] else []
  {
    assert (ms + [m])[..|ms|] == ms;
  }

  /** Behind all that were sent at the same time. */
  lemma {:induction false} InsertIsStable(ms: seq<Message>, m: Message, t: int)
    ensures SentAt(Insert(ms, m), t) == SentAt(ms, t) + if Time(m) == t then [m] else []
  {
    if ms == [] || Time(ms[|ms| - 1]) <= Time(m) {
      SentAtSnoc(ms, m, t);
    } else {
      var front, last := ms[..|ms| - 1], ms[|ms| - 1];
      InsertIsStable(front, m, t);
      SentAtSnoc(Insert(front, m), last, t);
      assert Time(last) != Time(m);
      assert SentAt(front, t) + [] == SentAt(front, t);
    }
  }

  lemma InsertKeeps(ms: seq<Message>, m: Message)
    requires Ordered(ms)
    ensures Ordered(Insert(ms, m)) && multiset(Insert(ms, m)) == multiset(ms) + multiset{m}
  {
    InsertContents(ms, m);
    var last := if ms == [] then Time(m) else Time(ms[|ms| - 1]);
    InsertSorts(ms, m, if last < Time(m) then Time(m) else last);
  }

  /** A stable sort by timestamp. */
  method Sort(ms: seq<Message>) returns (sorted: seq<Message>)
    ensures Ordered(sorted) && multiset(sorted) == multiset(ms) && forall t :: SentAt(sorted, t) == SentAt(ms, t)
  {
    sorted := [];
    for i := 0 to |ms|
      invariant Ordered(sorted) && multiset(sorted) == multiset(ms[..i])
      invariant forall t :: SentAt(sorted, t) == SentAt(ms[..i], t)
    {
      InsertKeeps(sorted, ms[i]);
      ghost var before := sorted;
      sorted := Insert(sorted, ms[i]);
      assert ms[..i + 1] == ms[..i] + [ms[i]];
      forall t ensures SentAt(sorted, t) == SentAt(ms[..i + 1], t) {
        InsertIsStable(before, ms[i], t);
        assert ms[..i + 1][..i] == ms[..i];
      }
    }
    assert ms[..|ms|] == ms;
  }

  /* ---------- dictionaries with defaults ---------- */

  function Listed(d: map<string, seq<Message>>, key: string): seq<Message> {
    if key in d then d[key] else []
  }

  function Queue(q: map<string, map<nat, Message>>, key: string): map<nat, Message> {
    if key in q then q[key] else map[]
  }

  predicate Queued(q: map<string, map<nat, Message>>, key: string, u: nat) {
    u in Queue(q, key)
  }

  /** The messages with this key, in order. */
  function Select(ms: seq<Message>, key: string): seq<Message> {
    if ms == [] then []
    else Select(ms[..|ms| - 1], key) + if ms[|ms| - 1].key == key then [ms[|ms| - 1]] else []
  }

  /* ---------- the invariant ---------- */

  predicate Unique(us: seq<nat>) {
    forall i, j :: 0 <= i < j < |us| ==> us[i] != us[j]
  }

  /** A queued mail is in the mailbox, whole, and neither condemned nor given out. */
  ghost predicate QueueOk(mailbox: map<nat, Email>, q: map<string, map<nat, Message>>, doomed: seq<nat>, given: seq<nat>) {
    forall key, u :: Queued(q, key, u) ==>
      && u in mailbox && mailbox[u] == Plain(Queue(q, key)[u]) && Queue(q, key)[u].key == key
      && u !in doomed && u !in given
  }

  /** A mail that was given out is condemned or gone. */
  ghost predicate GivenOk(mailbox: map<nat, Email>, doomed: seq<nat>, given: seq<nat>) {
    Unique(given) && forall u :: u in given ==> u in doomed || u !in mailbox
  }

  /** Only control mails, malformed mails and mails given out are condemned. */
  ghost predicate DoomedOk(mailbox: map<nat, Email>, doomed: seq<nat>, given: seq<nat>) {
    forall u :: u in doomed && u in mailbox && mailbox[u].Plain? ==> u in given
  }

  /** No message was deleted before it was given out, and numbers are not used again. */
  ghost predicate DeletedOk(mailbox: map<nat, Email>, deleted: map<nat, Email>, doomed: seq<nat>, given: seq<nat>, next: nat) {
    && (forall u :: u in deleted ==> u !in mailbox && u < next && (deleted[u].Plain? ==> u in given))
    && (forall u :: u in mailbox ==> u < next)
    && (forall u :: u in given || u in doomed ==> u < next)
  }

  /* ---------- the receive thread ---------- */

  /** `_doom`: exactly the condemned mails leave the mailbox. */
  method Doom(mailbox0: map<nat, Email>, doomed: seq<nat>) returns (mailbox: map<nat, Email>)
    ensures forall u :: u in mailbox <==> u in mailbox0 && u !in doomed
    ensures forall u :: u in mailbox ==> mailbox[u] == mailbox0[u]
  {
    mailbox := mailbox0;
    for i := 0 to |doomed|
      invariant forall u :: u in mailbox <==> u in mailbox0 && u !in doomed[..i]
      invariant forall u :: u in mailbox ==> mailbox[u] == mailbox0[u]
    {
      mailbox := mailbox - {doomed[i]};
      assert doomed[..i + 1] == doomed[..i] + [doomed[i]];
    }
    assert doomed[..|doomed|] == doomed;
  }

  function Enqueue(q: map<string, map<nat, Message>>, u: nat, m: Message): (r: map<string, map<nat, Message>>)
    ensures forall key, v :: Queued(r, key, v) <==> Queued(q, key, v) || (key == m.key && v == u)
    ensures forall key, v :: Queued(r, key, v) ==>
              if key == m.key && v == u then Queue(r, key)[v] == m
              else Queued(q, key, v) && Queue(r, key)[v] == Queue(q, key)[v]
  {
    q[m.key := Queue(q, m.key)[u := m]]
  }

  /** `_sync`: every message in the mailbox is queued under its key, everything else condemned. */
  method Sync(mailbox: map<nat, Email>, q0: map<string, map<nat, Message>>, doomed0: seq<nat>)
    returns (q: map<string, map<nat, Message>>, doomed: seq<nat>)
    ensures doomed0 <= doomed
    ensures forall u :: u in doomed <==> u in doomed0 || (u in mailbox && !mailbox[u].Plain?)
    ensures forall key, u :: Queued(q, key, u) <==>
              Queued(q0, key, u) || (u in mailbox && mailbox[u].Plain? && mailbox[u].message.key == key)
    ensures forall key, u :: Queued(q, key, u) ==>
              if u in mailbox && mailbox[u].Plain? && mailbox[u].message.key == key then Queue(q, key)[u] == mailbox[u].message
              else Queued(q0, key, u) && Queue(q, key)[u] == Queue(q0, key)[u]
  {
    q, doomed := q0, doomed0;
    var rest := mailbox.Keys;
    while rest != {}
      invariant rest <= mailbox.Keys && doomed0 <= doomed
      invariant forall u :: u in doomed <==> u in doomed0 || (u in mailbox && u !in rest && !mailbox[u].Plain?)
      invariant forall key, u :: Queued(q, key, u) <==>
                  Queued(q0, key, u) || (u in mailbox && u !in rest && mailbox[u].Plain? && mailbox[u].message.key == key)
      invariant forall key, u :: Queued(q, key, u) ==>
                  if u in mailbox && u !in rest && mailbox[u].Plain? && mailbox[u].message.key == key
                  then Queue(q, key)[u] == mailbox[u].message
                  else Queued(q0, key, u) && Queue(q, key)[u] == Queue(q0, key)[u]
      decreases |rest|
    {
      var u :| u in rest;
      rest := rest - {u};
      if mailbox[u].Plain? {
        var m := mailbox[u].message;
        q := Enqueue(q, u, m);
      } else {
        doomed := doomed + [u];
      }
    }
  }

  /* ---------- recv ---------- */

  function SelectAll(connections: seq<seq<Message>>, key: string): seq<Message> {
    if connections == [] then []
    else SelectAll(connections[..|connections| - 1], key) + Select(connections[|connections| - 1], key)
  }

  lemma Assoc(a: seq<Message>, b: seq<Message>, c: seq<Message>)
    ensures (a + b) + c == a + (b + c)
  {
  }

  lemma SelectNext(ms: seq<Message>, i: nat, key: string)
    requires i < |ms|
    ensures Select(ms[..i + 1], key) == Select(ms[..i], key) + if ms[i].key == key then [ms[i]] else []
  {
    assert ms[..i + 1][..i] == ms[..i];
  }

  /** The messages of one connection go to the lists of their keys. */
  method File(d0: map<string, seq<Message>>, ms: seq<Message>) returns (d: map<string, seq<Message>>)
    ensures forall key :: Listed(d, key) == Listed(d0, key) + Select(ms, key)
  {
    d := d0;
    for i := 0 to |ms|
      invariant forall key :: Listed(d, key) == Listed(d0, key) + Select(ms[..i], key)
    {
      ghost var before := d;
      d := Filed(d, ms[i]);
      forall key ensures Listed(d, key) == Listed(d0, key) + Select(ms[..i + 1], key) {
        FiledNext(d0, before, ms, i, key);
      }
    }
    assert ms[..|ms|] == ms;
  }

  function Filed(d: map<string, seq<Message>>, m: Message): map<string, seq<Message>> {
    d[m.key := Listed(d, m.key) + [m]]
  }

  lemma FiledNext(d0: map<string, seq<Message>>, d: map<string, seq<Message>>, ms: seq<Message>, i: nat, key: string)
    requires i < |ms| && Listed(d, key) == Listed(d0, key) + Select(ms[..i], key)
    ensures Listed(Filed(d, ms[i]), key) == Listed(d0, key) + Select(ms[..i + 1], key)
  {
    SelectNext(ms, i, key);
    if ms[i].key == key {
      Assoc(Listed(d0, key), Select(ms[..i], key), [ms[i]]);
    }
  }

  method FileAll(d0: map<string, seq<Message>>, connections: seq<seq<Message>>) returns (d: map<string, seq<Message>>)
    ensures forall key :: Listed(d, key) == Listed(d0, key) + SelectAll(connections, key)
  {
    d := d0;
    for i := 0 to |connections|
      invariant forall key :: Listed(d, key) == Listed(d0, key) + SelectAll(connections[..i], key)
    {
      ghost var before := d;
      d := File(d, connections[i]);
      forall key ensures Listed(d, key) == Listed(d0, key) + SelectAll(connections[..i + 1], key) {
        assert connections[..i + 1][..i] == connections[..i];
        assert Listed(before, key) == Listed(d0, key) + SelectAll(connections[..i], key);
        Assoc(Listed(d0, key), SelectAll(connections[..i], key), Select(connections[i], key));
      }
    }
    assert connections[..|connections|] == connections;
  }

  function Contents(q: map<nat, Message>, us: seq<nat>): seq<Message>
    requires forall u :: u in us ==> u in q
  {
    if us == [] then [] else Contents(q, us[..|us| - 1]) + [q[us[|us| - 1]]]
  }

  /** All mails of a queue, each once. */
  method Empty(q: map<nat, Message>) returns (ms: seq<Message>, taken: seq<nat>)
    ensures Unique(taken) && (forall u :: u in taken <==> u in q)
    ensures ms == Contents(q, taken)
  {
    ms, taken := [], [];
    var rest := q.Keys;
    while rest != {}
      invariant rest <= q.Keys && Unique(taken)
      invariant forall u :: u in taken <==> u in q && u !in rest
      invariant ms == Contents(q, taken)
      decreases |rest|
    {
      var u :| u in rest;
      assert (taken + [u])[..|taken|] == taken;
      rest, ms, taken := rest - {u}, ms + [q[u]], taken + [u];
    }
  }

  /** The three parts of `recv`: TCP messages are filed, those of the key and the queued mails are
      taken, and all is sorted. */
  method Gather(d0: map<string, seq<Message>>, connections: seq<seq<Message>>, q: map<string, map<nat, Message>>,
                key: string) returns (mq: seq<Message>, taken: seq<nat>, d: map<string, seq<Message>>)
    ensures Ordered(mq) && Unique(taken) && forall u :: u in taken <==> u in Queue(q, key)
    ensures multiset(mq) == multiset(Listed(d0, key) + SelectAll(connections, key) + Contents(Queue(q, key), taken))
    ensures forall t :: SentAt(mq, t) == SentAt(Listed(d0, key) + SelectAll(connections, key) + Contents(Queue(q, key), taken), t)
    ensures Listed(d, key) == []
    ensures forall k :: k != key ==> Listed(d, k) == Listed(d0, k) + SelectAll(connections, k)
  {
    var pending;
    pending, taken, d := Collect(d0, connections, q, key);
    mq := Sort(pending);
  }

  /** What is to be returned, not sorted yet. */
  method Collect(d0: map<string, seq<Message>>, connections: seq<seq<Message>>, q: map<string, map<nat, Message>>,
                 key: string) returns (pending: seq<Message>, taken: seq<nat>, d: map<string, seq<Message>>)
    ensures Unique(taken) && forall u :: u in taken <==> u in Queue(q, key)
    ensures pending == Listed(d0, key) + SelectAll(connections, key) + Contents(Queue(q, key), taken)
    ensures Listed(d, key) == []
    ensures forall k :: k != key ==> Listed(d, k) == Listed(d0, k) + SelectAll(connections, k)
  {
    d := FileAll(d0, connections);
    var emails;
    emails, taken := Empty(Queue(q, key));
    pending := Listed(d, key) + emails;
    d := d[key := []];
  }

  datatype Step = Arrive(email: Email) | TcpArrive(connection: nat, message: Message) | Wake | Fetch | Sleep | Recv(key: string)

  /** A server at one moment. */
  datatype Snapshot = Snapshot(mailbox: map<nat, Email>, queues: map<string, map<nat, Message>>, filed: map<string, seq<Message>>,
                               connections: seq<seq<Message>>, phase: Phase, next: nat)

  /** What a step does: mails and messages arrive, the receive thread goes through its phases, and `recv`
      returns what is pending under its key. */
  ghost predicate Done(a: Snapshot, step: Step, mq: seq<Message>, taken: seq<nat>, b: Snapshot) {
    match step
    case Arrive(email) => b == a.(mailbox := a.mailbox[a.next := email], next := a.next + 1) && mq == [] && taken == []
    case TcpArrive(c, m) =>
      && mq == [] && taken == []
      && b == if c < |a.connections| then a.(connections := a.connections[c := a.connections[c] + [m]]) else a
    case Wake => mq == [] && taken == [] && b == a.(mailbox := b.mailbox, phase := if a.phase == Sleeping then Cleaned else a.phase)
    case Fetch =>
      && mq == [] && taken == [] && b == a.(queues := b.queues, phase := if a.phase == Cleaned then Synced else a.phase)
      && (a.phase == Cleaned ==> forall key, u :: Queued(b.queues, key, u) <==>
            Queued(a.queues, key, u) || (u in a.mailbox && a.mailbox[u].Plain? && a.mailbox[u].message.key == key))
    case Sleep => mq == [] && taken == [] && b == a.(mailbox := b.mailbox, phase := if a.phase == Synced then Sleeping else a.phase)
    case Recv(key) =>
      if a.phase != Sleeping then mq == [] && taken == [] && b == a
      else
        && Ordered(mq) && (forall u :: u in taken <==> u in Queue(a.queues, key))
        && multiset(mq) == multiset(Listed(a.filed, key) + SelectAll(a.connections, key) + Contents(Queue(a.queues, key), taken))
        && b == a.(queues := a.queues[key := map[]], filed := b.filed, connections := b.connections)
  }

  class Server {
    var mailbox: map<nat, Email>
    var queues: map<string, map<nat, Message>>
    var doomed: seq<nat>
    var tcpdict_messages: map<string, seq<Message>>
    /** Complete messages that each connection has and nobody has read. */
    var connections: seq<seq<Message>>
    var phase: Phase
    var next: nat
    /** The mails returned by `recv`, and those deleted. */
    ghost var given: seq<nat>
    ghost var deleted: map<nat, Email>

    ghost predicate Valid()
      reads this
    {
      && QueueOk(mailbox, queues, doomed, given) && GivenOk(mailbox, doomed, given)
      && DoomedOk(mailbox, doomed, given) && DeletedOk(mailbox, deleted, doomed, given, next)
      && (phase == Cleaned ==> doomed == [])
      && forall u :: 0 <= u < next ==> u in mailbox || u in deleted
    }

    function Shot(): Snapshot
      reads this
    {
      Snapshot(mailbox, queues, tcpdict_messages, connections, phase, next)
    }

    constructor (n: nat)
      ensures Valid() && next == 0 && given == [] && Shot() == Snapshot(map[], map[], map[], seq(n, _ => []), Sleeping, 0)
    {
      mailbox, queues, doomed, tcpdict_messages := map[], map[], [], map[];
      connections, phase, next := seq(n, _ => []), Sleeping, 0;
      given, deleted := [], map[];
    }

    /** A mail arrives, at any time; the mail server gives it a new number. */
    method Arrive(email: Email)
      requires Valid()
      modifies this`mailbox, this`next
      ensures Valid() && next == old(next) + 1 && mailbox == old(mailbox)[old(next) := email]
    {
      assert next !in mailbox && next !in given;
      mailbox, next := mailbox[next := email], next + 1;
    }

    method TcpArrive(connection: nat, message: Message)
      requires Valid() && connection < |connections|
      modifies this`connections
      ensures Valid() && connections == old(connections)[connection := old(connections)[connection] + [message]]
    {
      connections := connections[connection := connections[connection] + [message]];
    }

    /** The receive thread deletes what is condemned. */
    method Clean()
      requires Valid()
      modifies this`mailbox, this`doomed, this`deleted
      ensures Valid() && doomed == []
      ensures forall u :: u in mailbox <==> u in old(mailbox) && u !in old(doomed)
      ensures forall u :: u in mailbox ==> mailbox[u] == old(mailbox)[u]
    {
      var kept := Doom(mailbox, doomed);
      deleted := map u | u in deleted.Keys + mailbox.Keys && u !in kept :: if u in deleted then deleted[u] else mailbox[u];
      mailbox, doomed := kept, [];
    }

    /** The receive thread takes the lock and cleans up. */
    method Wake()
      requires Valid() && phase == Sleeping
      modifies this`mailbox, this`doomed, this`deleted, this`phase
      ensures Valid() && phase == Cleaned && doomed == []
      ensures forall u :: u in mailbox <==> u in old(mailbox) && u !in old(doomed)
    {
      Clean();
      phase := Cleaned;
    }

    /** Every message now in the mailbox is queued. */
    method Fetch()
      requires Valid() && phase == Cleaned
      modifies this`queues, this`doomed, this`phase
      ensures Valid() && phase == Synced
      ensures forall key, u :: Queued(queues, key, u) <==>
                old(Queued(queues, key, u)) || (u in mailbox && mailbox[u].Plain? && mailbox[u].message.key == key)
      ensures forall u :: u in doomed <==> u in old(doomed) || (u in mailbox && !mailbox[u].Plain?)
    {
      var q, d := Sync(mailbox, queues, doomed);
      queues, doomed, phase := q, d, Synced;
    }

    /** The receive thread cleans up once more and lets the lock go. */
    method Sleep()
      requires Valid() && phase == Synced
      modifies this`mailbox, this`doomed, this`deleted, this`phase
      ensures Valid() && phase == Sleeping && doomed == []
      ensures forall u :: u in mailbox <==> u in old(mailbox) && u !in old(doomed)
    {
      Clean();
      phase := Sleeping;
    }

    /** `recv`: all pending messages with this key, by mail and by TCP, each once and sorted by
        timestamp; what is pending under other keys stays. */
    method Recv(key: string) returns (mq: seq<Message>, taken: seq<nat>)
      requires Valid() && phase == Sleeping
      modifies this`queues, this`doomed, this`tcpdict_messages, this`connections, this`given
      ensures Valid()
      ensures Ordered(mq) && Unique(taken) && (forall u :: u in taken <==> u in old(Queue(queues, key)))
      ensures multiset(mq) == multiset(old(Listed(tcpdict_messages, key)) + old(SelectAll(connections, key))
                                       + Contents(old(Queue(queues, key)), taken))
      ensures given == old(given) + taken && queues == old(queues)[key := map[]] && Listed(tcpdict_messages, key) == []
      ensures forall k :: k != key ==>
                Listed(tcpdict_messages, k) == old(Listed(tcpdict_messages, k)) + old(SelectAll(connections, k))
      ensures |connections| == old(|connections|) && forall i :: 0 <= i < |connections| ==> connections[i] == []
    {
      var d;
      mq, taken, d := Gather(tcpdict_messages, connections, queues, key);
      connections, tcpdict_messages := seq(|connections|, _ => []), d;
      Release(key, taken);
    }

    /** The queue of a key is emptied and its mails are condemned. */
    method Release(key: string, taken: seq<nat>)
      requires Valid() && phase == Sleeping && Unique(taken) && forall u :: u in taken <==> Queued(queues, key, u)
      modifies this`queues, this`doomed, this`given
      ensures Valid() && queues == old(queues)[key := map[]] && given == old(given) + taken
    {
      RecvKeeps(mailbox, queues, doomed, given, key, taken);
      assert forall u :: u in taken ==> Queued(queues, key, u);
      queues, doomed, given := queues[key := map[]], doomed + taken, given + taken;
    }

    method Do(step: Step) returns (mq: seq<Message>, taken: seq<nat>)
      requires Valid()
      modifies this
      ensures Valid() && given == old(given) + taken && Done(old(Shot()), step, mq, taken, Shot())
    {
      mq, taken := [], [];
      match step
      case Arrive(email) => Arrive(email);
      case TcpArrive(c, m) =>
        if c < |connections| {
          TcpArrive(c, m);
        }
      case Wake =>
        if phase == Sleeping {
          Wake();
        }
      case Fetch =>
        if phase == Cleaned {
          Fetch();
        }
      case Sleep =>
        if phase == Synced {
          Sleep();
        }
      case Recv(key) =>
        if phase == Sleeping {
          mq, taken := Recv(key);
        }
    }
  }

  lemma RecvKeeps(mailbox: map<nat, Email>, q: map<string, map<nat, Message>>, doomed: seq<nat>, given: seq<nat>,
                  key: string, taken: seq<nat>)
    requires QueueOk(mailbox, q, doomed, given) && GivenOk(mailbox, doomed, given) && DoomedOk(mailbox, doomed, given)
    requires Unique(taken) && forall u :: u in taken <==> Queued(q, key, u)
    ensures QueueOk(mailbox, q[key := map[]], doomed + taken, given + taken)
    ensures GivenOk(mailbox, doomed + taken, given + taken) && DoomedOk(mailbox, doomed + taken, given + taken)
  {
    var now := q[key := map[]];
    assert forall u :: u in taken ==> Queued(q, key, u) && u !in given && u in mailbox;
    forall k, u | Queued(now, k, u)
      ensures u in mailbox && mailbox[u] == Plain(Queue(now, k)[u]) && Queue(now, k)[u].key == k
      ensures u !in doomed + taken && u !in given + taken
    {
      assert k != key && Queue(now, k) == Queue(q, k);
      assert Queued(q, k, u);
    }
    UniqueConcat(given, taken);
  }

  lemma UniqueConcat(a: seq<nat>, b: seq<nat>)
    requires Unique(a) && Unique(b) && forall u :: u in b ==> u !in a
    ensures Unique(a + b)
  {
    forall i, j | 0 <= i < j < |a + b| ensures (a + b)[i] != (a + b)[j] {
      if i < |a| <= j {
        assert b[j - |a|] in b;
      }
    }
  }

  /** Every interleaving: no mail is returned twice, every message that was deleted had been returned,
      and every message that ever arrived is still in the mailbox or was returned. */
  method Run(n: nat, steps: seq<Step>)
    returns (s: Server, returned: seq<nat>, answers: seq<(seq<Message>, seq<nat>)>, ghost shots: seq<Snapshot>)
    ensures |answers| == |steps| && |shots| == |steps| + 1 && shots[|steps|] == s.Shot()
    ensures forall i :: 0 <= i < |steps| ==> Done(shots[i], steps[i], answers[i].0, answers[i].1, shots[i + 1])
    ensures returned == s.given && Unique(returned) && forall i :: 0 <= i < |steps| ==> forall u :: u in answers[i].1 ==> u in returned
    ensures forall u :: u in s.deleted && s.deleted[u].Plain? ==> u in returned
    ensures forall u :: 0 <= u < s.next ==> u in s.mailbox || u in s.deleted
    ensures forall u :: u in returned ==> u !in s.mailbox || u in s.doomed
  {
    s := new Server(n);
    returned, answers, shots := [], [], [s.Shot()];
    for i := 0 to |steps|
      invariant s.Valid() && fresh(s) && returned == s.given
      invariant |answers| == i && |shots| == i + 1 && shots[i] == s.Shot()
      invariant forall j :: 0 <= j < i ==> Done(shots[j], steps[j], answers[j].0, answers[j].1, shots[j + 1])
      invariant forall j :: 0 <= j < i ==> forall u :: u in answers[j].1 ==> u in returned
    {
      var mq, taken := s.Do(steps[i]);
      returned, answers, shots := returned + taken, answers + [(mq, taken)], shots + [s.Shot()];
    }
  }
}
