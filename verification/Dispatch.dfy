/**
 The dispatch table (lib/dispatch.cc): chains of prioritised entries, keyed by
 the address they listen on, reference counted, and optionally served by a
 thread that pops connections from a queue.

 Chains are named by number so that a chain dropped from the table can still be
 spoken of.  `slot` is the key a chain was inserted under, until it is removed.
 */
module Dispatch {
  import opened Options

  datatype Proto = Auto | Tcp | Udp

  datatype Key =
    | OnAddr(proto: Proto, ip: nat, port: nat)
    | OnIface(proto: Proto, name: string, ip4: nat, port: nat)
    | OnGroup(proto: Proto, group: nat, port: nat)

  datatype Entry = Entry(id: nat, prio: int, key: Key)
  /** What travels through the accept queue: connections, and the exit magic. */
  datatype Item = Conn(conn: nat) | Exit

  datatype Chain = Chain(
    refs: int, elements: seq<Entry>, threaded: bool, acceptOne: bool, transparent: bool,
    queue: seq<Item>, accepted: seq<nat>, handled: seq<nat>, slot: Option<Key>)

  datatype State = State(table: map<Key, nat>, chains: map<nat, Chain>, nextChain: nat, nextEntry: nat)

  datatype Params = Params(threaded: bool, acceptOne: bool, transparent: bool)
  /** What a listener reports: the end of its socket, or a connection, perhaps made to the listener's own address. */
  datatype Arrival = NoStream | Arrival(conn: nat, direct: bool)
  /** Whether the thread starts, and the address a socket listener gets, if it can be opened. */
  datatype Answers = Answers(threadStarts: bool, local: Option<Key>)

  datatype Op =
    | Register(key: Key, prio: int, params: Params, answers: Answers)
    | Unregister(entry: Entry)
    | Accept(chain: nat, arrival: Arrival)
    | ThreadStep(chain: nat)

  const Empty := State(map[], map[], 0, 0)

  predicate Wildcard(key: Key) { key.port == 0 }

  function One(b: bool): nat { if b then 1 else 0 }

  // ---------------------------------------------------------------- elements

  /** g_list_insert_sorted: before the first element that does not have a smaller priority. */
  function InsertSorted(es: seq<Entry>, e: Entry): seq<Entry> {
    if es == [] || e.prio <= es[0].prio then [e] + es else [es[0]] + InsertSorted(es[1..], e)
  }

  function Without(es: seq<Entry>, e: Entry): seq<Entry> {
    if es == [] then [] else if es[0] == e then es[1..] else [es[0]] + Without(es[1..], e)
  }

  /** Smaller priorities first, and among equals the latest registration first. */
  predicate Before(a: Entry, b: Entry) {
    a.prio < b.prio || (a.prio == b.prio && a.id > b.id)
  }

  predicate Sorted(es: seq<Entry>) {
    |es| < 2 || (Before(es[0], es[1]) && Sorted(es[1..]))
  }

  function Conns(queue: seq<Item>): seq<nat> {
    if queue == [] then []
    else if queue[0].Conn? then [queue[0].conn] + Conns(queue[1..]) else Conns(queue[1..])
  }

  // ---------------------------------------------------------------- steps

  /** z_dispatch_bind_listener: an interface key is bound as it stands. */
  function BoundKey(key: Key, answers: Answers): Option<Key> {
    match key
    case OnAddr(_, _, _) => answers.local
    case _ => if key.proto == Auto then None else Some(key)
  }

  predicate Creates(s: State, key: Key) { Wildcard(key) || key !in s.table }

  function NewChain(p: Params, answers: Answers): Chain {
    var t := p.threaded && answers.threadStarts;
    Chain(1 + One(t), [], t, p.acceptOne, p.transparent, [], [], [], None)
  }

  function RegisterStep(s: State, key: Key, prio: int, p: Params, answers: Answers): (State, Option<Entry>) {
    if Creates(s, key) then
      var c, made := s.nextChain, NewChain(p, answers);
      match BoundKey(key, answers)
      case None => (s.(chains := s.chains[c := made.(refs := made.refs - 1)], nextChain := c + 1), None)
      case Some(k) =>
        var e := Entry(s.nextEntry, prio, k);
        (State(s.table[k := c], s.chains[c := made.(elements := [e], slot := Some(k))], c + 1, s.nextEntry + 1), Some(e))
    else
      var c := s.table[key];
      if c !in s.chains || (key.proto == Tcp && s.chains[c].acceptOne) then (s, None)
      else
        var e, ch := Entry(s.nextEntry, prio, key), s.chains[c];
        (s.(chains := s.chains[c := ch.(refs := ch.refs + 1, elements := InsertSorted(ch.elements, e))],
            nextEntry := s.nextEntry + 1), Some(e))
  }

  predicate Unbinds(ch: Chain) { ch.refs == 1 + One(ch.threaded) }

  /** The chain after an entry is taken off it: unbound with its last reference but the thread's. */
  function Released(ch: Chain, e: Entry): Chain {
    var left := ch.(elements := Without(ch.elements, e), refs := ch.refs - 1);
    if !Unbinds(ch) then left
    else left.(slot := None, queue := if ch.threaded then ch.queue + [Exit] else ch.queue)
  }

  function UnregisterStep(s: State, e: Entry): State {
    if e.key !in s.table || s.table[e.key] !in s.chains then s
    else
      var c := s.table[e.key];
      s.(table := if Unbinds(s.chains[c]) then s.table - {e.key} else s.table,
         chains := s.chains[c := Released(s.chains[c], e)])
  }

  /** Listeners of chains outside the table have been cancelled, so only bound chains accept; a transparent
      chain drops connections made to it directly. */
  predicate Accepts(s: State, c: nat, a: Arrival) {
    c in s.chains && s.chains[c].slot.Some? && a.Arrival? && !(s.chains[c].transparent && a.direct)
  }

  /** A threaded chain queues a connection, another one handles it at once. */
  function Accepted(ch: Chain, conn: nat): Chain {
    if ch.threaded then ch.(accepted := ch.accepted + [conn], queue := ch.queue + [Conn(conn)])
    else ch.(accepted := ch.accepted + [conn], handled := ch.handled + [conn])
  }

  function AcceptStep(s: State, c: nat, a: Arrival): State {
    if !Accepts(s, c, a) then s else s.(chains := s.chains[c := Accepted(s.chains[c], a.conn)])
  }

  /** The thread takes one item: a connection is dispatched, the exit magic drops the thread's reference. */
  function Popped(ch: Chain): Chain
    requires ch.queue != []
  {
    match ch.queue[0]
    case Conn(conn) => ch.(queue := ch.queue[1..], handled := ch.handled + [conn])
    case Exit => ch.(queue := ch.queue[1..], refs := ch.refs - 1)
  }

  function ThreadStepOf(s: State, c: nat): State {
    if c !in s.chains || s.chains[c].queue == [] then s
    else s.(chains := s.chains[c := Popped(s.chains[c])])
  }

  function Step(s: State, op: Op): State {
    match op
    case Register(key, prio, p, answers) => RegisterStep(s, key, prio, p, answers).0
    case Unregister(e) => UnregisterStep(s, e)
    case Accept(c, a) => AcceptStep(s, c, a)
    case ThreadStep(c) => ThreadStepOf(s, c)
  }

  // ---------------------------------------------------------------- the invariant

  ghost predicate Fifo(ch: Chain) { ch.accepted == ch.handled + Conns(ch.queue) }

  ghost predicate Belong(es: seq<Entry>, k: Key, nextEntry: nat) {
    forall e :: e in es ==> e.key == k && e.id < nextEntry
  }

  /** A chain in the table. */
  ghost predicate Attached(ch: Chain, k: Key, nextEntry: nat) {
    && ch.elements != [] && ch.refs == |ch.elements| + One(ch.threaded)
    && Sorted(ch.elements) && Belong(ch.elements, k, nextEntry)
    && Exit !in ch.queue && (!ch.threaded ==> ch.queue == [])
  }

  /** A chain out of the table, whose thread has still to reach the exit magic. */
  ghost predicate Draining(ch: Chain) {
    && ch.elements == [] && ch.threaded && ch.refs == 1
    && ch.queue != [] && ch.queue[|ch.queue| - 1] == Exit && Exit !in ch.queue[..|ch.queue| - 1]
  }

  /** A chain that has been freed, having handled all it accepted. */
  ghost predicate Freed(ch: Chain) { ch.elements == [] && ch.refs == 0 && ch.queue == [] }

  /** A chain whose listener could not be bound, but whose thread was already started:
      nobody will ever send that thread the exit magic. */
  ghost predicate Stranded(ch: Chain) {
    ch.elements == [] && ch.threaded && ch.refs == 1 && ch.queue == [] && ch.accepted == []
  }

  /** What holds of each chain by itself. */
  ghost predicate ChainOk(ch: Chain, nextEntry: nat) {
    && Fifo(ch)
    && match ch.slot
       case Some(k) => Attached(ch, k, nextEntry)
       case None => Draining(ch) || Freed(ch) || Stranded(ch)
  }

  /** The table finds exactly the chains that have a slot, each under its own key. */
  ghost predicate TableOk(s: State) {
    && (forall k :: k in s.table ==> s.table[k] in s.chains && s.chains[s.table[k]].slot == Some(k))
    && (forall c :: c in s.chains ==>
          c < s.nextChain && (s.chains[c].slot.Some? ==> s.chains[c].slot.value in s.table && s.table[s.chains[c].slot.value] == c))
  }

  ghost predicate Good(s: State) {
    TableOk(s) && forall c :: c in s.chains ==> ChainOk(s.chains[c], s.nextEntry)
  }

  // ---------------------------------------------------------------- element lemmas

  lemma {:induction false} InsertSortedKeeps(es: seq<Entry>, e: Entry, k: Key)
    requires Sorted(es) && Belong(es, k, e.id) && e.key == k
    ensures Sorted(InsertSorted(es, e)) && Belong(InsertSorted(es, e), k, e.id + 1)
    ensures |InsertSorted(es, e)| == |es| + 1
    ensures forall x :: x in InsertSorted(es, e) <==> x in es || x == e
  {
    if es != [] && e.prio > es[0].prio {
      assert forall x :: x in es <==> x == es[0] || x in es[1..];
      InsertSortedKeeps(es[1..], e, k);
    }
  }

  lemma {:induction false} SortedMeans(es: seq<Entry>)
    requires Sorted(es)
    ensures forall i, j :: 0 <= i < j < |es| ==> Before(es[i], es[j])
  {
    if |es| > 1 {
      SortedMeans(es[1..]);
      forall i, j | 0 <= i < j < |es| ensures Before(es[i], es[j]) {
        assert Before(es[0], es[1]) && es[j] == es[1..][j - 1] && (i > 0 ==> es[i] == es[1..][i - 1]);
      }
    }
  }

  lemma {:induction false} WithoutKeeps(es: seq<Entry>, e: Entry)
    requires Sorted(es)
    ensures Sorted(Without(es, e))
    ensures e in es ==> |Without(es, e)| == |es| - 1
    ensures e !in es ==> Without(es, e) == es
    ensures forall x :: x in Without(es, e) ==> x in es
  {
    if es != [] && es[0] != e {
      WithoutKeeps(es[1..], e);
    }
  }

  lemma {:induction false} WithoutExact(es: seq<Entry>, e: Entry, x: Entry)
    requires Sorted(es)
    ensures x in Without(es, e) <==> x in es && x != e
  {
    if es != [] {
      if es[0] == e {
        SortedMeans(es);
        assert forall j :: 0 <= j < |es[1..]| ==> es[1..][j] == es[j + 1];
      } else {
        WithoutExact(es[1..], e, x);
      }
    }
  }

  /** As many entries as the list is long: none is on it twice. */
  lemma {:induction false} SortedCount(es: seq<Entry>)
    requires Sorted(es)
    ensures |set e | e in es| == |es|
  {
    if es == [] {
      assert (set e | e in es) == {};
    } else {
      SortedCount(es[1..]);
      SortedMeans(es);
      assert es[0] !in es[1..];
      assert (set e | e in es) == {es[0]} + (set e | e in es[1..]);
    }
  }

  lemma {:induction false} ConnsAppend(queue: seq<Item>, item: Item)
    ensures Conns(queue + [item]) == Conns(queue) + if item.Conn? then [item.conn] else []
  {
    if queue != [] {
      assert (queue + [item])[1..] == queue[1..] + [item];
      ConnsAppend(queue[1..], item);
    }
  }

  // ---------------------------------------------------------------- each operation

  /** When one chain is changed in place, or taken out of the table, only that chain is in question. */
  lemma OneChain(s: State, t: State, c: nat)
    requires Good(s) && c in s.chains && c in t.chains
    requires t.chains == s.chains[c := t.chains[c]] && t.nextChain == s.nextChain && t.nextEntry >= s.nextEntry
    requires || (t.table == s.table && t.chains[c].slot == s.chains[c].slot)
             || (s.chains[c].slot.Some? && t.table == s.table - {s.chains[c].slot.value} && t.chains[c].slot.None?)
    ensures Good(t) <==> ChainOk(t.chains[c], t.nextEntry)
  {
    SameTable(s, t, c);
    OtherChains(s, t, c);
  }

  lemma SameTable(s: State, t: State, c: nat)
    requires TableOk(s) && c in s.chains && c in t.chains
    requires t.chains == s.chains[c := t.chains[c]] && t.nextChain == s.nextChain
    requires || (t.table == s.table && t.chains[c].slot == s.chains[c].slot)
             || (s.chains[c].slot.Some? && t.table == s.table - {s.chains[c].slot.value} && t.chains[c].slot.None?)
    ensures TableOk(t)
  {
  }

  lemma OtherChains(s: State, t: State, c: nat)
    requires forall d :: d in s.chains ==> ChainOk(s.chains[d], s.nextEntry)
    requires t.nextEntry >= s.nextEntry && c in t.chains
    requires forall d :: d in t.chains && d != c ==> d in s.chains && t.chains[d] == s.chains[d]
    ensures (forall d :: d in t.chains ==> ChainOk(t.chains[d], t.nextEntry)) <==> ChainOk(t.chains[c], t.nextEntry)
  {
    forall d | d in t.chains && d != c ensures ChainOk(t.chains[d], t.nextEntry) {
      LaterEntries(s.chains[d], s.nextEntry, t.nextEntry);
    }
  }

  lemma LaterEntries(ch: Chain, n: nat, m: nat)
    requires ChainOk(ch, n) && n <= m
    ensures ChainOk(ch, m)
  {
  }

  /** Registering keeps the table good exactly when it does not bind to a key that is
      already in the table.  Only a wildcard port can do that: the chain that was there
      is displaced with all its entries. */
  lemma RegisterExact(s: State, key: Key, prio: int, p: Params, answers: Answers)
    requires Good(s)
    ensures Good(RegisterStep(s, key, prio, p, answers).0) <==>
              !(Creates(s, key) && BoundKey(key, answers).Some? && BoundKey(key, answers).value in s.table)
  {
    if !Creates(s, key) {
      RegisterShared(s, key, prio, p, answers);
    } else if BoundKey(key, answers).None? {
      FailedBindStrands(s, key, prio, p, answers);
    } else if BoundKey(key, answers).value in s.table {
      RegisterDisplaces(s, key, prio, p, answers);
    } else {
      RegisterFresh(s, BoundKey(key, answers).value, prio, NewChain(p, answers));
      assert RegisterStep(s, key, prio, p, answers).0 ==
             State(s.table[BoundKey(key, answers).value := s.nextChain],
                   s.chains[s.nextChain := NewChain(p, answers).(elements := [Entry(s.nextEntry, prio, BoundKey(key, answers).value)],
                                                                 slot := BoundKey(key, answers))],
                   s.nextChain + 1, s.nextEntry + 1);
    }
  }

  /** A registration succeeds when its new listener is bound, or when it may share the chain its key finds: not with
      a TCP chain for one connection only.  The entry is new, has the priority asked for and is on the chain that its
      key finds; a refused one changes no chain that is there. */
  lemma RegisterOutcome(s: State, key: Key, prio: int, p: Params, answers: Answers)
    requires TableOk(s)
    ensures var (t, r) := RegisterStep(s, key, prio, p, answers);
            && (r.Some? <==> if key.port != 0 && key in s.table then key.proto != Tcp || !s.chains[s.table[key]].acceptOne
                             else if key.OnAddr? then answers.local.Some? else key.proto != Auto)
            && (r.Some? ==> && r.value.prio == prio && OnChain(t, r.value) && (Good(s) ==> !OnChain(s, r.value))
                            && r.value.key == if Creates(s, key) && key.OnAddr? then answers.local.value else key)
            && (r.None? ==> t.table == s.table && forall c :: c in s.chains ==> c in t.chains && t.chains[c] == s.chains[c])
  {
    if !Creates(s, key) {
      Inserted(s.chains[s.table[key]].elements, Entry(s.nextEntry, prio, key));
    }
  }

  lemma {:induction false} Inserted(es: seq<Entry>, e: Entry)
    ensures e in InsertSorted(es, e)
  {
    if es != [] && e.prio > es[0].prio {
      Inserted(es[1..], e);
    }
  }

  lemma RegisterShared(s: State, key: Key, prio: int, p: Params, answers: Answers)
    requires Good(s) && !Creates(s, key)
    ensures Good(RegisterStep(s, key, prio, p, answers).0)
  {
    var c, e := s.table[key], Entry(s.nextEntry, prio, key);
    var t := RegisterStep(s, key, prio, p, answers).0;
    SharedOk(s.chains[c], e);
    OneChain(s, t, c);
  }

  lemma SharedOk(ch: Chain, e: Entry)
    requires ChainOk(ch, e.id) && ch.slot == Some(e.key)
    ensures ChainOk(ch.(refs := ch.refs + 1, elements := InsertSorted(ch.elements, e)), e.id + 1)
  {
    InsertSortedKeeps(ch.elements, e, e.key);
  }

  /** The displaced chain keeps its entries, but their key no longer finds it. */
  lemma RegisterDisplaces(s: State, key: Key, prio: int, p: Params, answers: Answers)
    requires Good(s) && Creates(s, key) && BoundKey(key, answers).Some? && BoundKey(key, answers).value in s.table
    ensures var k := BoundKey(key, answers).value;
            var t := RegisterStep(s, key, prio, p, answers).0;
            t.chains[s.table[k]] == s.chains[s.table[k]] && t.table[k] != s.table[k] && !Good(t)
  {
    var t := RegisterStep(s, key, prio, p, answers).0;
    var victim := s.table[BoundKey(key, answers).value];
    assert t.chains[victim].slot.Some?;
    assert !TableOk(t);
  }

  lemma RegisterFresh(s: State, k: Key, prio: int, made: Chain)
    requires Good(s) && k !in s.table
    requires made.refs == 1 + One(made.threaded) && made.queue == [] && made.accepted == made.handled == []
    ensures var e := Entry(s.nextEntry, prio, k);
            Good(State(s.table[k := s.nextChain], s.chains[s.nextChain := made.(elements := [e], slot := Some(k))],
                       s.nextChain + 1, s.nextEntry + 1))
  {
    var c, e := s.nextChain, Entry(s.nextEntry, prio, k);
    var t := State(s.table[k := c], s.chains[c := made.(elements := [e], slot := Some(k))], c + 1, s.nextEntry + 1);
    assert TableOk(t);
    OtherChains(s, t, c);
  }

  /** A failed bind leaves a thread behind exactly when one had been started. */
  lemma FailedBindStrands(s: State, key: Key, prio: int, p: Params, answers: Answers)
    requires Good(s) && Creates(s, key) && BoundKey(key, answers).None?
    ensures var t := RegisterStep(s, key, prio, p, answers).0;
            && Good(t) && t.table == s.table && s.nextChain in t.chains
            && (Stranded(t.chains[s.nextChain]) <==> p.threaded && answers.threadStarts)
            && (Freed(t.chains[s.nextChain]) <==> !(p.threaded && answers.threadStarts))
  {
    var t := RegisterStep(s, key, prio, p, answers).0;
    assert TableOk(t);
    OtherChains(s, t, s.nextChain);
  }

  /** Unregistering keeps the table good exactly when the entry is on the chain its key
      finds, or there is no such chain; the chain leaves the table exactly with its last
      entry, and the assertion on its reference count never fails. */
  lemma UnregisterExact(s: State, e: Entry)
    requires Good(s)
    ensures e.key in s.table ==> s.chains[s.table[e.key]].refs >= 1 + One(s.chains[s.table[e.key]].threaded)
    ensures Good(UnregisterStep(s, e)) <==> e.key !in s.table || e in s.chains[s.table[e.key]].elements
    ensures e.key in s.table ==>
              (e.key !in UnregisterStep(s, e).table <==> |s.chains[s.table[e.key]].elements| == 1)
  {
    if e.key in s.table {
      var c := s.table[e.key];
      ReleasedExact(s.chains[c], e, s.nextEntry);
      OneChain(s, UnregisterStep(s, e), c);
    }
  }

  lemma ReleasedExact(ch: Chain, e: Entry, n: nat)
    requires ChainOk(ch, n) && ch.slot.Some?
    ensures ch.refs >= 1 + One(ch.threaded)
    ensures Unbinds(ch) <==> |ch.elements| == 1
    ensures ChainOk(Released(ch, e), n) <==> e in ch.elements
  {
    var out := Released(ch, e);
    WithoutKeeps(ch.elements, e);
    if e !in ch.elements {
      assert out.elements == ch.elements && out.refs == |out.elements| + One(out.threaded) - 1;
    } else if !Unbinds(ch) {
      assert Attached(out, ch.slot.value, n);
    } else if ch.threaded {
      ConnsAppend(ch.queue, Exit);
      assert out.queue[..|out.queue| - 1] == ch.queue;
      assert Draining(out);
    } else {
      assert Freed(out);
    }
  }

  /** A connection is taken by the listening chain only; without a thread nothing is ever left waiting. */
  lemma AcceptKeeps(s: State, c: nat, a: Arrival)
    requires Good(s)
    ensures Good(AcceptStep(s, c, a))
    ensures var taken := c in s.table.Values && a.Arrival? && !(a.direct && s.chains[c].transparent);
            var t := AcceptStep(s, c, a);
            if !taken then t == s
            else
              && t == s.(chains := s.chains[c := t.chains[c]])
              && t.chains[c].accepted == s.chains[c].accepted + [a.conn]
              && (!t.chains[c].threaded ==> t.chains[c].handled == t.chains[c].accepted)
              && (t.chains[c].threaded ==> t.chains[c].handled == s.chains[c].handled && a.conn in Conns(t.chains[c].queue))
  {
    if Accepts(s, c, a) {
      AcceptedOk(s.chains[c], a.conn, s.nextEntry);
      ConnsAppend(s.chains[c].queue, Conn(a.conn));
      OneChain(s, AcceptStep(s, c, a), c);
    }
  }

  lemma AcceptedOk(ch: Chain, conn: nat, n: nat)
    requires ChainOk(ch, n) && ch.slot.Some?
    ensures ChainOk(Accepted(ch, conn), n)
  {
    ConnsAppend(ch.queue, Conn(conn));
    assert ch.handled + Conns(ch.queue) + [conn] == ch.handled + (Conns(ch.queue) + [conn]);
  }

  /** The thread handles the oldest connection not yet handled, and it exits, freeing the chain, only
      when none is left. */
  lemma ThreadStepKeeps(s: State, c: nat)
    requires Good(s)
    ensures Good(ThreadStepOf(s, c))
    ensures c in s.chains && s.chains[c].queue != [] ==>
              var ch, out := s.chains[c], ThreadStepOf(s, c).chains[c];
              && out.accepted == ch.accepted
              && (ch.queue[0] != Exit ==> |ch.handled| < |ch.accepted| && out.handled == ch.accepted[..|ch.handled| + 1])
              && (ch.queue[0] == Exit ==> Freed(out) && out.handled == ch.handled == ch.accepted)
  {
    if c in s.chains && s.chains[c].queue != [] {
      PoppedOk(s.chains[c], s.nextEntry);
      OneChain(s, ThreadStepOf(s, c), c);
    }
  }

  lemma PoppedOk(ch: Chain, n: nat)
    requires ChainOk(ch, n) && ch.queue != []
    ensures ChainOk(Popped(ch), n)
    ensures ch.queue[0] != Exit ==> |ch.handled| < |ch.accepted| && Popped(ch).handled == ch.accepted[..|ch.handled| + 1]
    ensures ch.queue[0] == Exit ==> Freed(Popped(ch)) && ch.handled == ch.accepted
  {
    var q := ch.queue;
    assert q == [q[0]] + q[1..];
    if |q| > 1 {
      assert q[1..][..|q| - 2] == q[..|q| - 1][1..];
    }
    if q[0].Conn? {
      assert ch.handled + ([q[0].conn] + Conns(q[1..])) == ch.handled + [q[0].conn] + Conns(q[1..]);
    }
  }

  function ThreadSteps(s: State, c: nat, n: nat): State
    decreases n
  {
    if n == 0 then s else ThreadSteps(ThreadStepOf(s, c), c, n - 1)
  }

  /** A chain out of the table is freed by as many steps of its thread as its queue is long, with every
      connection handled in the order of arrival. */
  lemma {:induction false} DrainedIsFreed(s: State, c: nat)
    requires Good(s) && c in s.chains && Draining(s.chains[c]) && s.chains[c].slot.None?
    ensures var t := ThreadSteps(s, c, |s.chains[c].queue|);
            Good(t) && t.table == s.table && c in t.chains && Freed(t.chains[c]) && t.chains[c].handled == s.chains[c].accepted
    decreases |s.chains[c].queue|
  {
    var ch, next := s.chains[c], ThreadStepOf(s, c);
    ThreadStepKeeps(s, c);
    if ch.queue[0] == Exit {
      assert next.chains[c].queue == ch.queue[1..] == [];
      assert ThreadSteps(s, c, 1) == ThreadSteps(next, c, 0) == next;
    } else {
      assert next.chains[c].queue != [];
      assert Draining(next.chains[c]) by {
        assert next.chains[c].queue == ch.queue[1..];
        assert ch.queue[1..][..|ch.queue| - 2] == ch.queue[..|ch.queue| - 1][1..];
      }
      DrainedIsFreed(next, c);
    }
  }

  // ---------------------------------------------------------------- whole runs

  function Run(ops: seq<Op>): State {
    if ops == [] then Empty else Step(Run(ops[..|ops| - 1]), ops[|ops| - 1])
  }

  /** The entries that registrations have handed out and nobody has unregistered: what the callers know. */
  function Held(ops: seq<Op>): set<Entry> {
    if ops == [] then {} else HeldAfter(Run(ops[..|ops| - 1]), Held(ops[..|ops| - 1]), ops[|ops| - 1])
  }

  function HeldAfter(s: State, held: set<Entry>, op: Op): set<Entry> {
    match op
    case Register(key, prio, p, answers) =>
      (match RegisterStep(s, key, prio, p, answers).1
       case Some(e) => held + {e}
       case None => held)
    case Unregister(e) => held - {e}
    case _ => held
  }

  predicate Taken(held: set<Entry>, k: Key) { exists e :: e in held && e.key == k }

  /** The discipline of the callers, in terms of the entries they hold: an entry is unregistered while it
      is held (or while nobody holds its key), and a listener opened for a wildcard port or a key that
      nobody holds does not get a key that somebody holds. */
  predicate Proper(held: set<Entry>, op: Op) {
    match op
    case Register(key, _, _, answers) =>
      (Wildcard(key) || !Taken(held, key)) && BoundKey(key, answers).Some? ==> !Taken(held, BoundKey(key, answers).value)
    case Unregister(e) => e in held || !Taken(held, e.key)
    case _ => true
  }

  predicate ProperRun(ops: seq<Op>) {
    ops == [] || (ProperRun(ops[..|ops| - 1]) && Proper(Held(ops[..|ops| - 1]), ops[|ops| - 1]))
  }

  ghost predicate AlwaysGood(ops: seq<Op>) {
    Good(Run(ops)) && (ops != [] ==> AlwaysGood(ops[..|ops| - 1]))
  }

  /** The entry is on the chain that its key finds. */
  ghost predicate OnChain(s: State, e: Entry) {
    e.key in s.table && s.table[e.key] in s.chains && e in s.chains[s.table[e.key]].elements
  }

  ghost predicate HeldIsOnChain(s: State, held: set<Entry>) {
    forall e :: e in held <==> OnChain(s, e)
  }

  lemma TakenIsBound(s: State, held: set<Entry>, k: Key)
    requires Good(s) && HeldIsOnChain(s, held)
    ensures Taken(held, k) <==> k in s.table
  {
    if k in s.table {
      var es := s.chains[s.table[k]].elements;
      assert es[0] in es && OnChain(s, es[0]);
    }
  }

  lemma RegisterOnChain(s: State, key: Key, prio: int, p: Params, answers: Answers, x: Entry)
    requires Good(s)
    requires Creates(s, key) && BoundKey(key, answers).Some? ==> BoundKey(key, answers).value !in s.table
    ensures var (t, r) := RegisterStep(s, key, prio, p, answers); OnChain(t, x) <==> OnChain(s, x) || r == Some(x)
  {
    if !Creates(s, key) {
      InsertSortedKeeps(s.chains[s.table[key]].elements, Entry(s.nextEntry, prio, key), key);
    }
  }

  lemma UnregisterOnChain(s: State, e: Entry, x: Entry)
    requires Good(s) && (e.key in s.table ==> e in s.chains[s.table[e.key]].elements)
    ensures OnChain(UnregisterStep(s, e), x) <==> OnChain(s, x) && x != e
  {
    if e.key in s.table {
      var es := s.chains[s.table[e.key]].elements;
      WithoutExact(es, e, x);
      assert |es| == 1 ==> es == [e];
    }
  }

  lemma RegisterHeld(s: State, held: set<Entry>, op: Op)
    requires Good(s) && HeldIsOnChain(s, held) && op.Register?
    ensures Good(Step(s, op)) <==> Proper(held, op)
    ensures Proper(held, op) ==> HeldIsOnChain(Step(s, op), HeldAfter(s, held, op))
  {
    var bound := BoundKey(op.key, op.answers);
    RegisterExact(s, op.key, op.prio, op.params, op.answers);
    TakenIsBound(s, held, op.key);
    if bound.Some? {
      TakenIsBound(s, held, bound.value);
    }
    if Proper(held, op) {
      forall x ensures x in HeldAfter(s, held, op) <==> OnChain(Step(s, op), x) {
        RegisterOnChain(s, op.key, op.prio, op.params, op.answers, x);
      }
    }
  }

  lemma UnregisterHeld(s: State, held: set<Entry>, e: Entry)
    requires Good(s) && HeldIsOnChain(s, held)
    ensures Good(UnregisterStep(s, e)) <==> Proper(held, Unregister(e))
    ensures Proper(held, Unregister(e)) ==> HeldIsOnChain(UnregisterStep(s, e), held - {e})
  {
    UnregisterExact(s, e);
    TakenIsBound(s, held, e.key);
    if Proper(held, Unregister(e)) {
      forall x ensures x in held - {e} <==> OnChain(UnregisterStep(s, e), x) {
        UnregisterOnChain(s, e, x);
      }
    }
  }

  /** One step: the tables stay good exactly when the step is proper, and then the entries held are
      again the entries on chains. */
  lemma StepExact(s: State, held: set<Entry>, op: Op)
    requires Good(s) && HeldIsOnChain(s, held)
    ensures Good(Step(s, op)) <==> Proper(held, op)
    ensures Proper(held, op) ==> HeldIsOnChain(Step(s, op), HeldAfter(s, held, op))
  {
    match op
    case Register(_, _, _, _) => RegisterHeld(s, held, op);
    case Unregister(e) => UnregisterHeld(s, held, e);
    case Accept(c, a) => AcceptKeeps(s, c, a);
    case ThreadStep(c) => ThreadStepKeeps(s, c);
  }

  /** Over every run the tables have been good all along exactly when the callers kept their discipline,
      and then an entry is held exactly if its key finds a chain that has it. */
  lemma {:induction false} RunExact(ops: seq<Op>)
    ensures AlwaysGood(ops) <==> ProperRun(ops)
    ensures ProperRun(ops) ==> HeldIsOnChain(Run(ops), Held(ops))
  {
    if ops != [] {
      var before, op := ops[..|ops| - 1], ops[|ops| - 1];
      RunExact(before);
      if ProperRun(before) {
        StepExact(Run(before), Held(before), op);
      }
    }
  }

  /** What a caller gets for its discipline: an entry it holds is on the chain its key finds, and that chain
      is referenced once by each entry held under the key and once by its thread. */
  lemma HeldMeans(ops: seq<Op>, e: Entry)
    requires ProperRun(ops) && e in Held(ops)
    ensures var s := Run(ops);
            && OnChain(s, e)
            && var ch := s.chains[s.table[e.key]];
               && ch.refs == |set x | x in Held(ops) && x.key == e.key| + One(ch.threaded)
               && Sorted(ch.elements)
  {
    RunExact(ops);
    var s, held := Run(ops), Held(ops);
    var ch := s.chains[s.table[e.key]];
    assert ch.slot == Some(e.key) && ChainOk(ch, s.nextEntry);
    SortedCount(ch.elements);
    assert (set x | x in held && x.key == e.key) == set x | x in ch.elements;
  }

  /** After every proper run a freed chain has handled, in order, every connection it accepted, and an
      entry on any chain is held and finds that chain by its own key. */
  lemma RunMeans(ops: seq<Op>, c: nat)
    requires ProperRun(ops) && c in Run(ops).chains
    ensures var s := Run(ops); var ch := s.chains[c];
            && (ch.refs == 0 ==> ch.handled == ch.accepted)
            && (forall e :: e in ch.elements ==> e in Held(ops) && e.key in s.table && s.table[e.key] == c)
            && (c in s.table.Values <==> ch.elements != [])
  {
    RunExact(ops);
  }

  lemma RunSnoc(ops: seq<Op>, op: Op)
    ensures Run(ops + [op]) == Step(Run(ops), op)
  {
    assert (ops + [op])[..|ops|] == ops;
  }

  /** Two registrations of an interface with port 0: the first entry's key finds the chain of the second. */
  lemma SecondListenerDisplaces(name: string)
    ensures var key := OnIface(Tcp, name, 0, 0);
            var r := Register(key, 0, Params(false, false, false), Answers(true, None));
            var s := Run([r] + [r]);
            && Good(Run([r])) && !Good(s)
            && 0 in s.chains && s.chains[0].elements == [Entry(0, 0, key)] && key in s.table && s.table[key] == 1
  {
    var key := OnIface(Tcp, name, 0, 0);
    var p, answers := Params(false, false, false), Answers(true, None);
    var r := Register(key, 0, p, answers);
    RunSnoc([], r);
    RunSnoc([r], r);
    assert [] + [r] == [r];
    RegisterExact(Empty, key, 0, p, answers);
    RegisterDisplaces(Run([r]), key, 0, p, answers);
  }

  /** A threaded chain whose address cannot be bound: its thread waits for ever. */
  lemma BindFailureStrands(key: Key, prio: int)
    requires key.OnAddr?
    ensures var s := Run([Register(key, prio, Params(true, false, false), Answers(true, None))]);
            Good(s) && s.table == map[] && 0 in s.chains && Stranded(s.chains[0])
  {
    var p, answers := Params(true, false, false), Answers(true, None);
    RunSnoc([], Register(key, prio, p, answers));
    assert [] + [Register(key, prio, p, answers)] == [Register(key, prio, p, answers)];
    FailedBindStrands(Empty, key, prio, p, answers);
  }

  // ---------------------------------------------------------------- dispatching a connection

  /** z_dispatch_connection: the first entry that takes the connection gets it. */
  method DispatchConnection(elements: seq<Entry>, takers: set<nat>) returns (r: Option<Entry>)
    requires Sorted(elements)
    ensures r.None? <==> forall e :: e in elements ==> e.id !in takers
    ensures r.Some? ==> r.value in elements && r.value.id in takers
    ensures r.Some? ==> forall e :: e in elements && e.id in takers ==> e == r.value || Before(r.value, e)
  {
    SortedMeans(elements);
    var p := 0;
    while p < |elements|
      invariant p <= |elements|
      invariant forall e :: e in elements[..p] ==> e.id !in takers
    {
      if elements[p].id in takers {
        assert elements == elements[..p] + elements[p..];
        return Some(elements[p]);
      }
      p := p + 1;
    }
    assert elements[..p] == elements;
    return None;
  }

  // ---------------------------------------------------------------- imperative form

  class Dispatcher {
    var table: map<Key, nat>
    var chains: map<nat, Chain>
    var nextChain: nat
    var nextEntry: nat

    ghost function Abs(): State
      reads this
    {
      State(table, chains, nextChain, nextEntry)
    }

    constructor ()
      ensures Abs() == Empty
    {
      table, chains, nextChain, nextEntry := map[], map[], 0, 0;
    }

    /** z_dispatch_chain_new: a threaded chain takes a reference for its thread, and
        gives it back when the thread cannot be started. */
    method NewChainRecord(p: Params, answers: Answers) returns (c: nat)
      requires forall d :: d in chains ==> d < nextChain
      modifies `chains, `nextChain
      ensures c == old(nextChain) && nextChain == c + 1 && chains == old(chains)[c := NewChain(p, answers)]
    {
      c := nextChain;
      nextChain := nextChain + 1;
      var ch := Chain(1, [], p.threaded, p.acceptOne, p.transparent, [], [], [], None);
      if ch.threaded {
        ch := ch.(refs := ch.refs + 1);
        if !answers.threadStarts {
          ch := ch.(refs := ch.refs - 1, threaded := false);
        }
      }
      chains := chains[c := ch];
    }

    method RegisterEntry(key: Key, prio: int, p: Params, answers: Answers) returns (r: Option<Entry>)
      requires TableOk(Abs())
      modifies this
      ensures (Abs(), r) == RegisterStep(old(Abs()), key, prio, p, answers)
      ensures r.Some? <==> if Wildcard(key) || key !in old(table) then BoundKey(key, answers).Some?
                           else !(key.proto == Tcp && old(chains)[old(table)[key]].acceptOne)
      ensures r.Some? ==> r.value.prio == prio
    {
      if Wildcard(key) || key !in table {
        var c := NewChainRecord(p, answers);
        var bound := BoundKey(key, answers);
        if bound.None? {
          chains := chains[c := chains[c].(refs := chains[c].refs - 1)];
          assert chains == old(chains)[c := chains[c]];
          return None;
        }
        table := table[bound.value := c];
        chains := chains[c := chains[c].(slot := bound)];
        var e := AddElement(c, bound.value, prio);
        assert InsertSorted([], e) == [e];
        assert chains == old(chains)[c := chains[c]];
        return Some(e);
      }
      var c := table[key];
      if key.proto == Tcp && chains[c].acceptOne {
        return None;
      }
      chains := chains[c := chains[c].(refs := chains[c].refs + 1)];
      var e := AddElement(c, key, prio);
      assert chains == old(chains)[c := chains[c]];
      return Some(e);
    }

    method AddElement(c: nat, key: Key, prio: int) returns (e: Entry)
      requires c in chains
      modifies `chains, `nextEntry
      ensures e == Entry(old(nextEntry), prio, key) && nextEntry == old(nextEntry) + 1
      ensures chains == old(chains)[c := old(chains[c]).(elements := InsertSorted(old(chains[c]).elements, e))]
    {
      e := Entry(nextEntry, prio, key);
      nextEntry := nextEntry + 1;
      chains := chains[c := chains[c].(elements := InsertSorted(chains[c].elements, e))];
    }

    method UnregisterEntry(e: Entry)
      requires e.key in table ==>
                 table[e.key] in chains && chains[table[e.key]].refs >= 1 + One(chains[table[e.key]].threaded)
      modifies this
      ensures Abs() == UnregisterStep(old(Abs()), e)
    {
      if e.key !in table {
        return;
      }
      var c := table[e.key];
      var ch := chains[c];
      var queue, slot := ch.queue, ch.slot;
      assert ch.refs >= 1 + One(ch.threaded);
      if ch.refs == 1 + One(ch.threaded) {
        if ch.threaded {
          queue := queue + [Exit];
        }
        slot := None;
        table := table - {e.key};
      }
      chains := chains[c := ch.(elements := Without(ch.elements, e), queue := queue, slot := slot, refs := ch.refs - 1)];
    }
  }
}
