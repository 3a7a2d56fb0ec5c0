/**
 Dynamic listeners of an interface-bound dispatch chain (lib/dispatch.cc).

 The callbacks of the interface monitor create, reference, release and cancel
 listener entries.  `Apply` is one callback on the list of entries, `Listeners`
 the imperative form.  The reference is a counter per address that ADD
 increments and REMOVE decrements but never below zero.
 */
module Listeners {
  import opened Options
  import opened IfMonitor
  import opened IfMessages

  datatype SockAddr = SockAddr(ip: Addr, port: nat)
  datatype Entry = Entry(bind: SockAddr, refs: nat)
  /** The registered key: an interface, optionally with one preferred address, or an interface group. */
  datatype Key = OnIface(ip4: Addr, port: nat) | OnGroup(port: nat)

  /** One callback: `started` is what z_listener_start answers, if it is asked. */
  datatype Call = Call(change: Change, addr: Addr, started: bool)

  predicate AddrMatches(key: Key, addr: Addr) {
    key.OnGroup? || key.ip4 == 0 || key.ip4 == addr
  }

  function Bind(key: Key, addr: Addr): SockAddr { SockAddr(addr, key.port) }

  // ---------------------------------------------------------------- one callback

  /** References held for an address: those of its entry, or 0. */
  function Refs(es: seq<Entry>, sa: SockAddr): nat {
    if es == [] then 0 else if es[0].bind == sa then es[0].refs else Refs(es[1..], sa)
  }

  /** Every entry bound to `sa` gets one more reference. */
  function RefAll(es: seq<Entry>, sa: SockAddr): seq<Entry> {
    if es == [] then []
    else [if es[0].bind == sa then es[0].(refs := es[0].refs + 1) else es[0]] + RefAll(es[1..], sa)
  }

  /** Every entry bound to `sa` loses one reference; those left without are unlinked. */
  function UnrefAll(es: seq<Entry>, sa: SockAddr): seq<Entry> {
    if es == [] then []
    else if es[0].bind != sa then [es[0]] + UnrefAll(es[1..], sa)
    else if es[0].refs <= 1 then UnrefAll(es[1..], sa)
    else [es[0].(refs := es[0].refs - 1)] + UnrefAll(es[1..], sa)
  }

  /** The listeners cancelled by that. */
  function Cancels(es: seq<Entry>, sa: SockAddr): seq<SockAddr> {
    if es == [] then []
    else (if es[0].bind == sa && es[0].refs <= 1 then [sa] else []) + Cancels(es[1..], sa)
  }

  function Apply(key: Key, es: seq<Entry>, c: Call): seq<Entry> {
    var sa := Bind(key, c.addr);
    match c.change
    case Add =>
      if !AddrMatches(key, c.addr) then es
      else if Refs(es, sa) > 0 then RefAll(es, sa)
      else if c.started then [Entry(sa, 1)] + es
      else es
    case Remove => UnrefAll(es, sa)
  }

  function ApplyAll(key: Key, calls: seq<Call>): seq<Entry> {
    if calls == [] then [] else Apply(key, ApplyAll(key, calls[..|calls| - 1]), calls[|calls| - 1])
  }

  // ---------------------------------------------------------------- reference counter

  /** ADDs minus REMOVEs for an address, a REMOVE at zero being ignored. */
  function Count(calls: seq<Call>, addr: Addr): nat {
    if calls == [] then 0
    else
      var c, n := calls[|calls| - 1], Count(calls[..|calls| - 1], addr);
      if c.addr != addr then n else if c.change == Add then n + 1 else if n == 0 then 0 else n - 1
  }

  /** Each entry is in use, is for a matching address and is the only one for it. */
  ghost predicate Valid(key: Key, es: seq<Entry>) {
    es == [] ||
    ( && es[0].refs > 0 && es[0].bind == Bind(key, es[0].bind.ip) && AddrMatches(key, es[0].bind.ip)
      && Refs(es[1..], es[0].bind) == 0
      && Valid(key, es[1..]))
  }

  lemma {:induction false} ValidMeans(key: Key, es: seq<Entry>)
    requires Valid(key, es)
    ensures forall e :: e in es ==> Refs(es, e.bind) == e.refs > 0 && AddrMatches(key, e.bind.ip) && e.bind == Bind(key, e.bind.ip)
    ensures forall sa :: Refs(es, sa) > 0 ==> exists e :: e in es && e.bind == sa
    ensures forall i, j :: 0 <= i < j < |es| ==> es[i].bind != es[j].bind
  {
    if es != [] {
      ValidMeans(key, es[1..]);
      forall i, j | 0 <= i < j < |es| ensures es[i].bind != es[j].bind {
        if i == 0 {
          assert es[j] in es[1..];
        } else {
          assert es[i] == es[1..][i - 1] && es[j] == es[1..][j - 1];
        }
      }
      forall sa | Refs(es, sa) > 0 ensures exists e :: e in es && e.bind == sa {
        if es[0].bind == sa {
          assert es[0] in es;
        } else {
          assert Refs(es[1..], sa) > 0;
          var e :| e in es[1..] && e.bind == sa;
          assert e in es;
        }
      }
    }
  }

  lemma {:induction false} RefAllCounts(key: Key, es: seq<Entry>, own: SockAddr, sa: SockAddr)
    requires Valid(key, es)
    ensures Valid(key, RefAll(es, own))
    ensures Refs(RefAll(es, own), sa) == Refs(es, sa) + if sa == own && Refs(es, own) > 0 then 1 else 0
  {
    if es != [] {
      RefAllCounts(key, es[1..], own, sa);
      RefAllCounts(key, es[1..], own, es[0].bind);
    }
  }

  lemma {:induction false} UnrefAllCounts(key: Key, es: seq<Entry>, own: SockAddr, sa: SockAddr)
    requires Valid(key, es)
    ensures Valid(key, UnrefAll(es, own))
    ensures Refs(UnrefAll(es, own), sa) == if sa == own && Refs(es, own) > 0 then Refs(es, sa) - 1 else Refs(es, sa)
    ensures Cancels(es, own) == if Refs(es, own) == 1 then [own] else []
  {
    if es != [] {
      var rest, out := UnrefAll(es[1..], own), UnrefAll(es, own);
      UnrefAllCounts(key, es[1..], own, sa);
      UnrefAllCounts(key, es[1..], own, es[0].bind);
      if es[0].bind != own || es[0].refs > 1 {
        assert out[1..] == rest && out[0].bind == es[0].bind;
      } else {
        assert out == rest;
      }
    }
  }

  /** One callback keeps the entries valid and moves the count of its own address only. */
  lemma ApplyCounts(key: Key, es: seq<Entry>, c: Call, sa: SockAddr)
    requires Valid(key, es)
    ensures Valid(key, Apply(key, es, c))
    ensures Refs(Apply(key, es, c), sa) ==
              if sa != Bind(key, c.addr) then Refs(es, sa)
              else if c.change == Remove then (if Refs(es, sa) == 0 then 0 else Refs(es, sa) - 1)
              else if AddrMatches(key, c.addr) && (Refs(es, sa) > 0 || c.started) then Refs(es, sa) + 1
              else Refs(es, sa)
  {
    RefAllCounts(key, es, Bind(key, c.addr), sa);
    UnrefAllCounts(key, es, Bind(key, c.addr), sa);
  }

  // ---------------------------------------------------------------- whole histories

  /** Every history of callbacks: no two entries share a bind address, and an entry never
      holds more references than its counter; when every start succeeds it holds exactly as many. */
  lemma {:induction false} RefsFollowCount(key: Key, calls: seq<Call>, addr: Addr)
    ensures Valid(key, ApplyAll(key, calls))
    ensures Refs(ApplyAll(key, calls), Bind(key, addr)) <= Count(calls, addr)
    ensures !AddrMatches(key, addr) ==> Refs(ApplyAll(key, calls), Bind(key, addr)) == 0
    ensures AddrMatches(key, addr) && (forall c :: c in calls ==> c.started) ==>
              Refs(ApplyAll(key, calls), Bind(key, addr)) == Count(calls, addr)
  {
    if calls != [] {
      var init, last := calls[..|calls| - 1], calls[|calls| - 1];
      RefsFollowCount(key, init, addr);
      ApplyCounts(key, ApplyAll(key, init), last, Bind(key, addr));
      assert last in calls;
    }
  }

  /** A listener is cancelled, and its entry unlinked, exactly at the REMOVE that brings the
      counter of its address to zero. */
  lemma CancelledAtZero(key: Key, calls: seq<Call>, addr: Addr)
    requires (forall c :: c in calls ==> c.started) && AddrMatches(key, addr)
    ensures Cancels(ApplyAll(key, calls), Bind(key, addr))
         == if Count(calls, addr) == 1 then [Bind(key, addr)] else []
    ensures (exists e :: e in ApplyAll(key, calls) && e.bind == Bind(key, addr)) <==> Count(calls, addr) > 0
  {
    var es := ApplyAll(key, calls);
    RefsFollowCount(key, calls, addr);
    UnrefAllCounts(key, es, Bind(key, addr), Bind(key, addr));
    ValidMeans(key, es);
  }

  ghost function Net(calls: seq<Call>, addr: Addr): int {
    if calls == [] then 0
    else
      var c := calls[|calls| - 1];
      Net(calls[..|calls| - 1], addr) + if c.addr == addr then Sign(c.change) else 0
  }

  /** When REMOVEs never outnumber ADDs the counter is the plain balance. */
  lemma {:induction false} CountIsNet(calls: seq<Call>, addr: Addr)
    requires forall n :: 0 <= n <= |calls| ==> Net(calls[..n], addr) >= 0
    ensures Count(calls, addr) == Net(calls, addr)
  {
    if calls != [] {
      var init := calls[..|calls| - 1];
      assert forall n :: 0 <= n <= |init| ==> init[..n] == calls[..n];
      CountIsNet(init, addr);
      assert calls[..|calls|] == calls;
    }
  }

  // ---------------------------------------------------------------- composed with the monitor

  /** The callbacks one watch got, as calls on the chain that registered it; every start succeeds. */
  function CallsFor(log: seq<Event>, id: nat): seq<Call> {
    if log == [] then []
    else
      var e := log[|log| - 1];
      CallsFor(log[..|log| - 1], id) + if e.watch == id then [Call(e.change, e.addr, true)] else []
  }

  lemma {:induction false} CallsForCount(log: seq<Event>, id: nat, a: Addr)
    requires Track(log, id, a) != Bad
    ensures Count(CallsFor(log, id), a) == if Track(log, id, a) == On then 1 else 0
    ensures forall c :: c in CallsFor(log, id) ==> c.started
  {
    if log != [] {
      var init, e := log[..|log| - 1], log[|log| - 1];
      CallsForCount(init, id, a);
      if e.watch == id {
        var calls := CallsFor(init, id) + [Call(e.change, e.addr, true)];
        assert calls[..|calls| - 1] == CallsFor(init, id);
      } else {
        assert CallsFor(log, id) == CallsFor(init, id);
      }
    }
  }

  /** Over every orderly run of the monitor, the chain behind a registered watch holds exactly one
      entry, with one reference, per matching address that the messages say is up, and no other entry. */
  lemma ListenersMatch(ops: seq<Op>, w: Watch, key: Key, addr: Addr)
    requires OrderlyRun(ops) && Registered(ops, w) && w.family == AF_INET
    ensures var es := ApplyAll(key, CallsFor(Run(ops).log, w.id));
            && (forall i, j :: 0 <= i < j < |es| ==> es[i].bind != es[j].bind)
            && ((exists e :: e in es && e.bind == SockAddr(addr, key.port)) <==>
                 Announces(ops, w.name, addr) && (key.OnIface? && key.ip4 != 0 ==> addr == key.ip4))
            && (forall e :: e in es ==> e.refs == 1 && e.bind.port == key.port)
  {
    WatchesFollow(ops, w);
    LiveIsAnnounced(ops, w.name, addr);
    RunAgrees(ops);
    var log := Run(ops).log;
    var es := ApplyAll(key, CallsFor(log, w.id));
    CallsForCount(log, w.id, addr);
    RefsFollowCount(key, CallsFor(log, w.id), addr);
    ValidMeans(key, es);
    forall e | e in es ensures e.refs == 1 && e.bind.port == key.port {
      CallsForCount(log, w.id, e.bind.ip);
      RefsFollowCount(key, CallsFor(log, w.id), e.bind.ip);
    }
  }

  // ---------------------------------------------------------------- imperative form

  class Listeners {
    const key: Key
    var entries: seq<Entry>
    var cancelled: seq<SockAddr>

    constructor (key: Key)
      ensures this.key == key && entries == [] && cancelled == []
    {
      this.key := key;
      entries, cancelled := [], [];
    }

    method IfaceChange(change: Change, addr: Addr, started: bool)
      requires Valid(key, entries)
      modifies this
      ensures entries == Apply(key, old(entries), Call(change, addr, started)) && Valid(key, entries)
      ensures cancelled == old(cancelled) +
                if change == Remove && Refs(old(entries), Bind(key, addr)) == 1 then [Bind(key, addr)] else []
    {
      var sa := Bind(key, addr);
      ApplyCounts(key, entries, Call(change, addr, started), sa);
      UnrefAllCounts(key, entries, sa, sa);
      match change
      case Add =>
        if AddrMatches(key, addr) {
          var found := Reference(sa);
          if !found && started {
            entries := [Entry(sa, 1)] + entries;
          }
        }
      case Remove =>
        Release(sa);
    }

    method Reference(sa: SockAddr) returns (found: bool)
      requires Valid(key, entries)
      modifies `entries
      ensures found <==> Refs(old(entries), sa) > 0
      ensures entries == if found then RefAll(old(entries), sa) else old(entries)
    {
      found := false;
      var done, rest := [], entries;
      while rest != []
        invariant Valid(key, rest)
        invariant done + RefAll(rest, sa) == RefAll(old(entries), sa)
        invariant !found ==> done + rest == old(entries)
        invariant found || Refs(rest, sa) > 0 <==> Refs(old(entries), sa) > 0
        decreases |rest|
      {
        var e := rest[0];
        if e.bind == sa {
          found := true;
          e := e.(refs := e.refs + 1);
        }
        Assoc(done, [e], RefAll(rest[1..], sa));
        done := done + [e];
        rest := rest[1..];
      }
      entries := done;
    }

    method Release(sa: SockAddr)
      modifies this
      ensures entries == UnrefAll(old(entries), sa)
      ensures cancelled == old(cancelled) + Cancels(old(entries), sa)
    {
      var rest, kept := entries, [];
      while rest != []
        invariant kept + UnrefAll(rest, sa) == UnrefAll(old(entries), sa)
        invariant cancelled + Cancels(rest, sa) == old(cancelled) + Cancels(old(entries), sa)
        decreases |rest|
      {
        var e := rest[0];
        var stays := if e.bind != sa then [e] else if e.refs <= 1 then [] else [e.(refs := e.refs - 1)];
        var stops := if e.bind == sa && e.refs <= 1 then [sa] else [];
        Assoc(kept, stays, UnrefAll(rest[1..], sa));
        Assoc(cancelled, stops, Cancels(rest[1..], sa));
        assert UnrefAll(rest, sa) == stays + UnrefAll(rest[1..], sa);
        kept := kept + stays;
        cancelled := cancelled + stops;
        rest := rest[1..];
      }
      entries := kept;
    }
  }
}
