/**
 What the messages say, whatever the monitor makes of them (lib/ifmonitor.cc): the list of
 netlink messages and watch operations alone tells which interfaces are known, with which
 names, flags and addresses, and which watches are registered.
 */
module IfMessages {
  import opened Options
  import opened IfMonitor

  /** There is a link message for the interface, and no deletion since. */
  ghost predicate Known(ops: seq<Op>, i: nat) {
    exists k :: 0 <= k < |ops| && ops[k].Link? && ops[k].index == i && Since(ops, k, Unlink(i))
  }

  /** The message does not occur after number `k`. */
  ghost predicate Since(ops: seq<Op>, k: nat, not: Op) {
    forall m :: k < m < |ops| ==> ops[m] != not
  }

  /** The name in the last link message that has one, since the interface was last deleted. */
  function NameOf(ops: seq<Op>, i: nat): string {
    if ops == [] then ""
    else
      var op := ops[|ops| - 1];
      if op == Unlink(i) then ""
      else if op.Link? && op.index == i && op.name.Some? then Clip(op.name.value)
      else NameOf(ops[..|ops| - 1], i)
  }

  /** The flags in the last link message. */
  function FlagsOf(ops: seq<Op>, i: nat): nat {
    if ops == [] then 0
    else
      var op := ops[|ops| - 1];
      if op.Link? && op.index == i then op.flags else FlagsOf(ops[..|ops| - 1], i)
  }

  /** Message number `k` adds the address to a known interface, and neither of them has been deleted since. */
  ghost predicate AddedAt(ops: seq<Op>, i: nat, a: Addr, k: nat)
    requires k < |ops|
  {
    && ops[k] == Address(i, AF_INET, a, true) && Known(ops[..k], i)
    && Since(ops, k, Unlink(i)) && Since(ops, k, Address(i, AF_INET, a, false))
  }

  /** The address was added while the interface was known and had room for it, and neither of them has been
      deleted since. */
  ghost predicate Has(ops: seq<Op>, i: nat, a: Addr)
    decreases |ops|, 0
  {
    exists k :: 0 <= k < |ops| && AddedAt(ops, i, a, k) && Room(ops[..k], i)
  }

  /** The interface does not have the largest number of different addresses. */
  ghost predicate Room(ops: seq<Op>, i: nat)
    decreases |ops|, 1
  {
    !exists xs: seq<Addr> :: |xs| == IFADDR_MAX && Distinct(xs) && forall n :: 0 <= n < |xs| ==> Has(ops, i, xs[n])
  }

  /** How many watches have been registered. */
  function Registrations(ops: seq<Op>): nat {
    if ops == [] then 0 else Registrations(ops[..|ops| - 1]) + if ops[|ops| - 1].Register? then 1 else 0
  }

  /** The watch was registered, and has not been unregistered. */
  ghost predicate Registered(ops: seq<Op>, w: Watch) {
    exists k :: && 0 <= k < |ops| && ops[k].Register? && Since(ops, k, Unregister(w.id))
                && w == Watch(Registrations(ops[..k]), Clip(ops[k].iface), ops[k].family)
  }

  /** The address is up under the name, by the messages. */
  ghost predicate Announces(ops: seq<Op>, name: string, a: Addr) {
    exists i :: Known(ops, i) && NameOf(ops, i) == name && Up(FlagsOf(ops, i)) && Has(ops, i, a)
  }

  lemma SinceSnoc(ops: seq<Op>, op: Op, k: nat, not: Op)
    requires k < |ops|
    ensures Since(ops + [op], k, not) <==> Since(ops, k, not) && op != not
  {
    var longer := ops + [op];
    assert longer[|ops|] == op;
    assert forall m :: 0 <= m < |ops| ==> longer[m] == ops[m];
  }

  lemma KnownSnoc(ops: seq<Op>, op: Op, i: nat)
    ensures Known(ops + [op], i) <==> (op.Link? && op.index == i) || (Known(ops, i) && op != Unlink(i))
  {
    var longer := ops + [op];
    if k :| 0 <= k < |longer| && longer[k].Link? && longer[k].index == i && Since(longer, k, Unlink(i)) {
      if k < |ops| {
        SinceSnoc(ops, op, k, Unlink(i));
      }
    }
    if op.Link? && op.index == i {
      assert longer[|ops|] == op && Since(longer, |ops|, Unlink(i));
    }
    if k :| 0 <= k < |ops| && ops[k].Link? && ops[k].index == i && Since(ops, k, Unlink(i)) {
      SinceSnoc(ops, op, k, Unlink(i));
      assert longer[k] == ops[k];
    }
  }

  lemma AddedSnoc(ops: seq<Op>, op: Op, i: nat, a: Addr, k: nat)
    requires k < |ops|
    ensures AddedAt(ops + [op], i, a, k) <==> AddedAt(ops, i, a, k) && op != Unlink(i) && op != Address(i, AF_INET, a, false)
  {
    assert (ops + [op])[k] == ops[k] && (ops + [op])[..k] == ops[..k];
    SinceSnoc(ops, op, k, Unlink(i));
    SinceSnoc(ops, op, k, Address(i, AF_INET, a, false));
  }

  lemma HasSnoc(ops: seq<Op>, op: Op, i: nat, a: Addr)
    ensures Has(ops + [op], i, a) <==>
              || (Has(ops, i, a) && op != Unlink(i) && op != Address(i, AF_INET, a, false))
              || (op == Address(i, AF_INET, a, true) && Known(ops, i) && Room(ops, i))
  {
    var longer := ops + [op];
    assert longer[|ops|] == op && longer[..|ops|] == ops;
    forall k | 0 <= k < |ops|
      ensures AddedAt(longer, i, a, k) <==> AddedAt(ops, i, a, k) && op != Unlink(i) && op != Address(i, AF_INET, a, false)
      ensures longer[..k] == ops[..k]
    {
      AddedSnoc(ops, op, i, a, k);
    }
    if op == Address(i, AF_INET, a, true) && Known(ops, i) && Room(ops, i) {
      assert AddedAt(longer, i, a, |ops|);
    }
  }

  lemma {:induction false} Fewer(xs: seq<Addr>, addrs: seq<Addr>)
    requires Distinct(xs) && forall n :: 0 <= n < |xs| ==> xs[n] in addrs
    ensures |xs| <= |addrs|
    decreases |xs|
  {
    if xs != [] {
      var x, rest := xs[|xs| - 1], xs[..|xs| - 1];
      var k := AddrIndex(addrs, x);
      forall n | 0 <= n < |rest| ensures rest[n] in Cut(addrs, k) {
        CutKeeps(addrs, k, rest[n]);
      }
      Fewer(rest, Cut(addrs, k));
    }
  }

  /** The row of a table is what the messages say about it. */
  ghost predicate RowFollows(ifaces: map<nat, Iface>, ops: seq<Op>, i: nat) {
    && (i in ifaces <==> Known(ops, i))
    && (i in ifaces ==> ifaces[i].name == NameOf(ops, i) && ifaces[i].flags == FlagsOf(ops, i))
    && (forall a :: Has(ops, i, a) <==> i in ifaces && a in ifaces[i].addrs)
    && (i !in ifaces ==> NameOf(ops, i) == "")
  }

  lemma RoomIsRoom(ifaces: map<nat, Iface>, ops: seq<Op>, i: nat)
    requires TableOk(ifaces) && RowFollows(ifaces, ops, i) && i in ifaces
    ensures Room(ops, i) <==> |ifaces[i].addrs| < IFADDR_MAX
  {
    var addrs := ifaces[i].addrs;
    if Room(ops, i) && |addrs| == IFADDR_MAX {
      assert forall n :: 0 <= n < |addrs| ==> Has(ops, i, addrs[n]);
    }
    if xs: seq<Addr> :| |xs| == IFADDR_MAX && Distinct(xs) && forall n :: 0 <= n < |xs| ==> Has(ops, i, xs[n]) {
      Fewer(xs, addrs);
    }
  }

  lemma LinkRow(s: State, ops: seq<Op>, op: Op, i: nat)
    requires RowFollows(s.ifaces, ops, i) && op.Link?
    ensures RowFollows(Step(s, op).ifaces, ops + [op], i)
  {
    var longer := ops + [op];
    assert longer[..|ops|] == ops && longer[|ops|] == op;
    KnownSnoc(ops, op, i);
    forall a ensures Has(longer, i, a) <==> Has(ops, i, a) {
      HasSnoc(ops, op, i, a);
    }
    if i !in s.ifaces && op.index == i {
      assert forall a :: !Has(ops, i, a);
    }
  }

  lemma UnlinkRow(s: State, ops: seq<Op>, op: Op, i: nat)
    requires RowFollows(s.ifaces, ops, i) && op.Unlink?
    ensures RowFollows(Step(s, op).ifaces, ops + [op], i)
  {
    var longer := ops + [op];
    assert longer[..|ops|] == ops && longer[|ops|] == op;
    KnownSnoc(ops, op, i);
    forall a ensures Has(longer, i, a) <==> Has(ops, i, a) && op != Unlink(i) {
      HasSnoc(ops, op, i, a);
    }
  }

  /** An address message moves that address of that interface, and nothing else. */
  lemma AddressExact(s: State, op: Op, i: nat, a: Addr)
    requires TableOk(s.ifaces) && op.Address?
    ensures var t := Step(s, op).ifaces;
            && (i in t <==> i in s.ifaces)
            && (i in t ==>
                  && t[i].name == s.ifaces[i].name && t[i].flags == s.ifaces[i].flags
                  && (a in t[i].addrs <==>
                        if op == Address(i, AF_INET, a, op.added)
                        then op.added && (a in s.ifaces[i].addrs || |s.ifaces[i].addrs| < IFADDR_MAX)
                        else a in s.ifaces[i].addrs))
  {
    if op.index == i && i in s.ifaces {
      AddrTable(s.ifaces[i].addrs, op.addr, a);
    }
  }

  lemma AddressRow(s: State, ops: seq<Op>, op: Op, i: nat)
    requires TableOk(s.ifaces) && RowFollows(s.ifaces, ops, i) && op.Address?
    ensures RowFollows(Step(s, op).ifaces, ops + [op], i)
  {
    var longer, t := ops + [op], Step(s, op).ifaces;
    assert longer[..|ops|] == ops && longer[|ops|] == op;
    KnownSnoc(ops, op, i);
    AddressExact(s, op, i, op.addr);
    forall a ensures Has(longer, i, a) <==> i in t && a in t[i].addrs {
      AddressHas(s, ops, op, i, a);
    }
  }

  lemma AddressHas(s: State, ops: seq<Op>, op: Op, i: nat, a: Addr)
    requires TableOk(s.ifaces) && RowFollows(s.ifaces, ops, i) && op.Address?
    ensures Has(ops + [op], i, a) <==> i in Step(s, op).ifaces && a in Step(s, op).ifaces[i].addrs
  {
    HasSnoc(ops, op, i, a);
    AddressExact(s, op, i, a);
    if i in s.ifaces {
      RoomIsRoom(s.ifaces, ops, i);
    }
  }

  lemma OtherRow(s: State, ops: seq<Op>, op: Op, i: nat)
    requires RowFollows(s.ifaces, ops, i) && (op.Register? || op.Unregister?)
    ensures RowFollows(Step(s, op).ifaces, ops + [op], i)
  {
    var longer := ops + [op];
    assert longer[..|ops|] == ops && longer[|ops|] == op;
    KnownSnoc(ops, op, i);
    forall a ensures Has(longer, i, a) <==> Has(ops, i, a) {
      HasSnoc(ops, op, i, a);
    }
  }

  lemma RowSnoc(s: State, ops: seq<Op>, op: Op, i: nat)
    requires WellFormed(s) && RowFollows(s.ifaces, ops, i)
    ensures RowFollows(Step(s, op).ifaces, ops + [op], i)
  {
    match op
    case Link(_, _, _) => LinkRow(s, ops, op, i);
    case Unlink(_) => UnlinkRow(s, ops, op, i);
    case Address(_, _, _, _) => AddressRow(s, ops, op, i);
    case Register(_, _) => OtherRow(s, ops, op, i);
    case Unregister(_) => OtherRow(s, ops, op, i);
  }

  /** After every run the table is what the list of messages says: which interfaces are known, and their names,
      flags and addresses. */
  lemma {:induction false} TablesFollow(ops: seq<Op>, i: nat)
    ensures RowFollows(Run(ops).ifaces, ops, i)
  {
    if ops != [] {
      var init, op := ops[..|ops| - 1], ops[|ops| - 1];
      TablesFollow(init, i);
      RunWellFormed(init);
      RowSnoc(Run(init), init, op, i);
      assert init + [op] == ops;
    }
  }

  lemma LiveIsAnnounced(ops: seq<Op>, name: string, a: Addr)
    ensures Live(Run(ops).ifaces, name, a) <==> Announces(ops, name, a)
  {
    var t := Run(ops).ifaces;
    if i :| Named(t, name, i) && Up(t[i].flags) && a in t[i].addrs {
      TablesFollow(ops, i);
    }
    if i :| Known(ops, i) && NameOf(ops, i) == name && Up(FlagsOf(ops, i)) && Has(ops, i, a) {
      TablesFollow(ops, i);
      assert Named(t, name, i);
    }
  }

  lemma RegisteredSnoc(ops: seq<Op>, op: Op, w: Watch)
    ensures Registered(ops + [op], w) <==>
              || (Registered(ops, w) && op != Unregister(w.id))
              || (op.Register? && w == Watch(Registrations(ops), Clip(op.iface), op.family))
  {
    var longer := ops + [op];
    assert longer[|ops|] == op && longer[..|ops|] == ops;
    if k :| && 0 <= k < |longer| && longer[k].Register? && Since(longer, k, Unregister(w.id))
            && w == Watch(Registrations(longer[..k]), Clip(longer[k].iface), longer[k].family) {
      if k < |ops| {
        assert longer[..k] == ops[..k];
        SinceSnoc(ops, op, k, Unregister(w.id));
      }
    }
    if op.Register? && w == Watch(Registrations(ops), Clip(op.iface), op.family) {
      assert Since(longer, |ops|, Unregister(w.id));
    }
    if k :| && 0 <= k < |ops| && ops[k].Register? && Since(ops, k, Unregister(w.id))
            && w == Watch(Registrations(ops[..k]), Clip(ops[k].iface), ops[k].family) {
      assert longer[k] == ops[k] && longer[..k] == ops[..k];
      SinceSnoc(ops, op, k, Unregister(w.id));
    }
  }

  /** After every run the watches are those registered and not unregistered. */
  lemma {:induction false} WatchesFollow(ops: seq<Op>, w: Watch)
    ensures w in Run(ops).watches <==> Registered(ops, w)
    ensures Run(ops).nextId == Registrations(ops)
  {
    if ops != [] {
      var init, op := ops[..|ops| - 1], ops[|ops| - 1];
      var s := Run(init);
      WatchesFollow(init, w);
      RunWellFormed(init);
      RegisteredSnoc(init, op, w);
      assert init + [op] == ops;
      WatchStep(s, op, w);
    }
  }

  lemma WatchStep(s: State, op: Op, w: Watch)
    requires WatchesOk(s.watches, s.nextId)
    ensures w in Step(s, op).watches <==>
              || (w in s.watches && op != Unregister(w.id))
              || (op.Register? && w == Watch(s.nextId, Clip(op.iface), op.family))
    ensures Step(s, op).nextId == s.nextId + if op.Register? then 1 else 0
  {
    if op.Unregister? && WatchIndex(s.watches, op.id) < |s.watches| {
      CutWatch(s.watches, op.id);
      UnregisterWatches(s.watches, s.nextId, op.id);
    }
  }

  /** The promise to a watch, told by the messages alone: over every orderly run, the ADDs minus the REMOVEs that a
      registered watch got for an address is 1 if the messages say that the address is up under its name, else 0. */
  lemma WatchBalance(ops: seq<Op>, w: Watch, a: Addr)
    requires OrderlyRun(ops) && Registered(ops, w) && w.family == AF_INET
    ensures Balance(Run(ops).log, w.id, a) == if Announces(ops, w.name, a) then 1 else 0
  {
    WatchesFollow(ops, w);
    LiveIsAnnounced(ops, w.name, a);
    RunAgrees(ops);
    var log := Run(ops).log;
    TrackIsBalance(log, w.id, a, |log|);
    assert log[..|log|] == log;
  }
}
