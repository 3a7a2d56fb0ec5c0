/**
 Interface address monitoring (lib/ifmonitor.cc).

 Parsed netlink messages update a table of interfaces; watches are told about
 the addresses of the interface they name.  `Step` is the effect of one message
 or watch operation on the tables and on the log of callbacks, `Monitor` is the
 imperative form of the same operations, and `Live` is what a watch ought to
 know, recomputed from the tables.
 */
module IfMonitor {
  import opened Options

  const IFNAME_MAX := 16    // IF_NAMESIZE, counting the terminator
  const IFADDR_MAX := 256
  const AF_INET := 2

  type Addr = bv32

  datatype Change = Remove | Add
  datatype Iface = Iface(name: string, flags: nat, addrs: seq<Addr>)
  datatype Watch = Watch(id: nat, name: string, family: nat)
  /** One callback: watch `watch` was told about `addr`. */
  datatype Event = Event(watch: nat, change: Change, addr: Addr)

  datatype State = State(ifaces: map<nat, Iface>, watches: seq<Watch>, log: seq<Event>, nextId: nat)

  datatype Op =
    | Link(index: nat, name: Option<string>, flags: nat)
    | Unlink(index: nat)
    | Address(index: nat, family: nat, addr: Addr, added: bool)
    | Register(iface: string, family: nat)
    | Unregister(id: nat)

  const Empty := State(map[], [], [], 0)

  /** IFF_UP is the lowest flag bit. */
  predicate Up(flags: nat) { flags % 2 == 1 }

  /** g_strlcpy into a buffer of IFNAME_MAX bytes. */
  function Clip(name: string): (r: string)
    ensures r <= name && |r| == if |name| < IFNAME_MAX then |name| else IFNAME_MAX - 1
  {
    if |name| < IFNAME_MAX then name else name[..IFNAME_MAX - 1]
  }

  predicate Matches(w: Watch, name: string, family: nat) {
    w.name == name && (family == 0 || w.family == family)
  }

  // ---------------------------------------------------------------- callbacks

  /** Callbacks made for one address, in the order of the watch list. */
  function Notices(ws: seq<Watch>, name: string, change: Change, family: nat, addr: Addr): seq<Event> {
    if ws == [] then []
    else (if Matches(ws[0], name, family) then [Event(ws[0].id, change, addr)] else [])
         + Notices(ws[1..], name, change, family, addr)
  }

  /** Callbacks made when all addresses of an interface are walked. */
  function AllNotices(ws: seq<Watch>, name: string, change: Change, addrs: seq<Addr>): seq<Event> {
    if addrs == [] then []
    else AllNotices(ws, name, change, addrs[..|addrs| - 1])
         + Notices(ws, name, change, AF_INET, addrs[|addrs| - 1])
  }

  /** Callbacks made to a single watch when it is registered or unregistered. */
  function OwnNotices(id: nat, change: Change, addrs: seq<Addr>): seq<Event> {
    seq(|addrs|, k requires 0 <= k < |addrs| => Event(id, change, addrs[k]))
  }

  // ---------------------------------------------------------------- one step

  ghost predicate Named(ifaces: map<nat, Iface>, name: string, i: nat) {
    i in ifaces && ifaces[i].name == name
  }

  /** A possible result of g_hash_table_find. */
  ghost predicate Found(ifaces: map<nat, Iface>, name: string, r: Option<nat>) {
    if r.Some? then Named(ifaces, name, r.value) else forall i :: !Named(ifaces, name, i)
  }

  /** g_hash_table_find: some interface of that name, in no particular order. */
  ghost function FindByName(ifaces: map<nat, Iface>, name: string): (r: Option<nat>)
    ensures Found(ifaces, name, r)
  {
    if exists i :: Named(ifaces, name, i) then
      var i :| Named(ifaces, name, i);
      Some(i)
    else None
  }

  function AddrsAt(ifaces: map<nat, Iface>, found: Option<nat>): seq<Addr> {
    match found
    case Some(i) => if i in ifaces && Up(ifaces[i].flags) then ifaces[i].addrs else []
    case None => []
  }

  ghost function KnownAddrs(ifaces: map<nat, Iface>, name: string): seq<Addr> { AddrsAt(ifaces, FindByName(ifaces, name)) }

  function WatchIndex(ws: seq<Watch>, id: nat): (k: nat)
    ensures k <= |ws|
    ensures k < |ws| ==> ws[k].id == id
    ensures forall j :: 0 <= j < k ==> ws[j].id != id
  {
    if ws == [] || ws[0].id == id then 0 else 1 + WatchIndex(ws[1..], id)
  }

  /** A list without its element number `k`. */
  function Cut<T>(xs: seq<T>, k: nat): (r: seq<T>)
    requires k < |xs|
    ensures |r| == |xs| - 1 && forall i :: 0 <= i < |r| ==> r[i] == if i < k then xs[i] else xs[i + 1]
  {
    xs[..k] + xs[k + 1..]
  }

  lemma CutKeeps<T>(xs: seq<T>, k: nat, x: T)
    requires k < |xs| && x in xs && x != xs[k]
    ensures x in Cut(xs, k)
  {
    var i :| 0 <= i < |xs| && xs[i] == x;
    assert x == if i < k then Cut(xs, k)[i] else Cut(xs, k)[i - 1];
  }

  function AddrIndex(addrs: seq<Addr>, addr: Addr): (k: nat)
    ensures k <= |addrs|
    ensures k < |addrs| ==> addrs[k] == addr
    ensures forall j :: 0 <= j < k ==> addrs[j] != addr
  {
    if addrs == [] || addrs[0] == addr then 0 else 1 + AddrIndex(addrs[1..], addr)
  }

  function LinkStep(s: State, index: nat, name: Option<string>, flags: nat): State {
    var isNew := index !in s.ifaces;
    var old_ := if isNew then Iface("", 0, []) else s.ifaces[index];
    var renamed := !isNew && name.Some? && old_.name != name.value;
    var changed := isNew || Up(old_.flags) != Up(flags) || renamed;
    var gone := if renamed && Up(old_.flags) then AllNotices(s.watches, old_.name, Remove, old_.addrs) else [];
    var info := Iface(if name.Some? then Clip(name.value) else old_.name, flags, old_.addrs);
    s.(ifaces := s.ifaces[index := info], log := s.log + gone + Announced(s.watches, info, isNew || renamed, changed))
  }

  /** What is told of an interface under its current name: all of it if the name is new, else the change of its UP flag. */
  function Announced(ws: seq<Watch>, info: Iface, newName: bool, changed: bool): seq<Event> {
    if !changed then []
    else if newName then
      if Up(info.flags) then AllNotices(ws, info.name, Add, info.addrs) else []
    else AllNotices(ws, info.name, if Up(info.flags) then Add else Remove, info.addrs)
  }

  function UnlinkStep(s: State, index: nat): State {
    if index !in s.ifaces then s else
    var info := s.ifaces[index];
    s.(ifaces := s.ifaces - {index},
       log := s.log + if Up(info.flags) then AllNotices(s.watches, info.name, Remove, info.addrs) else [])
  }

  function AddressStep(s: State, index: nat, family: nat, addr: Addr, added: bool): State {
    if family != AF_INET || index !in s.ifaces then s else
    var info := s.ifaces[index];
    var k := AddrIndex(info.addrs, addr);
    if k == |info.addrs| then
      if !added || k >= IFADDR_MAX then s
      else s.(ifaces := s.ifaces[index := info.(addrs := info.addrs + [addr])],
              log := s.log + if Up(info.flags) then Notices(s.watches, info.name, Add, AF_INET, addr) else [])
    else
      if added then s
      else s.(ifaces := s.ifaces[index := info.(addrs := Cut(info.addrs, k))],
              log := s.log + if Up(info.flags) then Notices(s.watches, info.name, Remove, AF_INET, addr) else [])
  }

  /** Registration, with the addresses of the interface that was found. */
  function RegisterWith(s: State, name: string, family: nat, addrs: seq<Addr>): State {
    s.(watches := [Watch(s.nextId, Clip(name), family)] + s.watches,
       log := s.log + OwnNotices(s.nextId, Add, addrs),
       nextId := s.nextId + 1)
  }

  function UnregisterWith(s: State, id: nat, addrs: seq<Addr>): State {
    var k := WatchIndex(s.watches, id);
    if k == |s.watches| then s
    else s.(watches := Cut(s.watches, k), log := s.log + OwnNotices(id, Remove, addrs))
  }

  ghost function RegisterStep(s: State, name: string, family: nat): State {
    RegisterWith(s, name, family, KnownAddrs(s.ifaces, name))
  }

  ghost function UnregisterStep(s: State, id: nat): State {
    var k := WatchIndex(s.watches, id);
    if k == |s.watches| then s else UnregisterWith(s, id, KnownAddrs(s.ifaces, s.watches[k].name))
  }

  ghost function Step(s: State, op: Op): State {
    match op
    case Link(index, name, flags) => LinkStep(s, index, name, flags)
    case Unlink(index) => UnlinkStep(s, index)
    case Address(index, family, addr, added) => AddressStep(s, index, family, addr, added)
    case Register(name, family) => RegisterStep(s, name, family)
    case Unregister(id) => UnregisterStep(s, id)
  }

  ghost function Run(ops: seq<Op>): State {
    if ops == [] then Empty else Step(Run(ops[..|ops| - 1]), ops[|ops| - 1])
  }

  // ---------------------------------------------------------------- what a watch should know

  ghost predicate Live(ifaces: map<nat, Iface>, name: string, addr: Addr) {
    exists i :: Named(ifaces, name, i) && Up(ifaces[i].flags) && addr in ifaces[i].addrs
  }

  /** What a watch has been told about one address: an ADD while it is known or
      a REMOVE while it is not is a protocol error, from which it never recovers. */
  datatype Phase = Off | On | Bad

  function Advance(p: Phase, change: Change): Phase {
    if p == Off && change == Add then On
    else if p == On && change == Remove then Off
    else Bad
  }

  function TrackFrom(p: Phase, log: seq<Event>, id: nat, addr: Addr): Phase {
    if log == [] then p
    else
      var last := log[|log| - 1];
      var before := TrackFrom(p, log[..|log| - 1], id, addr);
      if last.watch == id && last.addr == addr then Advance(before, last.change) else before
  }

  function Track(log: seq<Event>, id: nat, addr: Addr): Phase { TrackFrom(Off, log, id, addr) }

  function Expected(live: bool): Phase { if live then On else Off }

  // ---------------------------------------------------------------- invariants

  ghost predicate UniqueNames(ifaces: map<nat, Iface>) {
    forall i, j :: i in ifaces && j in ifaces && ifaces[i].name == ifaces[j].name ==> i == j
  }

  ghost predicate Distinct<T>(xs: seq<T>) {
    forall i, j :: 0 <= i < j < |xs| ==> xs[i] != xs[j]
  }

  ghost predicate TableOk(ifaces: map<nat, Iface>) {
    forall i :: i in ifaces ==>
      Distinct(ifaces[i].addrs) && |ifaces[i].addrs| <= IFADDR_MAX && |ifaces[i].name| < IFNAME_MAX
  }

  ghost predicate DistinctIds(ws: seq<Watch>) {
    forall i, j :: 0 <= i < j < |ws| ==> ws[i].id != ws[j].id
  }

  ghost predicate WatchesOk(ws: seq<Watch>, nextId: nat) {
    DistinctIds(ws) && forall w :: w in ws ==> w.id < nextId
  }

  ghost predicate WellFormed(s: State) {
    && TableOk(s.ifaces)
    && WatchesOk(s.watches, s.nextId)
    && (forall e :: e in s.log ==> e.watch < s.nextId)
  }

  /** Every live IPv4 watch knows exactly the live addresses. */
  ghost predicate Agrees(s: State) {
    forall w, a :: w in s.watches && w.family == AF_INET ==> Track(s.log, w.id, a) == Expected(Live(s.ifaces, w.name, a))
  }

  // ---------------------------------------------------------------- tracking lemmas

  lemma {:induction false} TrackConcat(p: Phase, xs: seq<Event>, ys: seq<Event>, id: nat, a: Addr)
    ensures TrackFrom(p, xs + ys, id, a) == TrackFrom(TrackFrom(p, xs, id, a), ys, id, a)
  {
    if ys == [] {
      assert xs + ys == xs;
    } else {
      assert (xs + ys)[..|xs + ys| - 1] == xs + ys[..|ys| - 1];
      TrackConcat(p, xs, ys[..|ys| - 1], id, a);
    }
  }

  lemma {:induction false} TrackSilent(p: Phase, xs: seq<Event>, id: nat, a: Addr)
    requires forall e :: e in xs ==> e.watch != id || e.addr != a
    ensures TrackFrom(p, xs, id, a) == p
  {
    if xs != [] {
      assert xs[|xs| - 1] in xs;
      TrackSilent(p, xs[..|xs| - 1], id, a);
    }
  }

  lemma {:induction false} NoticesShape(ws: seq<Watch>, name: string, change: Change, family: nat, addr: Addr)
    ensures forall e :: e in Notices(ws, name, change, family, addr) ==>
              e.change == change && e.addr == addr && exists w :: w in ws && w.id == e.watch && Matches(w, name, family)
  {
    if ws != [] {
      NoticesShape(ws[1..], name, change, family, addr);
      forall e | e in Notices(ws, name, change, family, addr)
        ensures e.change == change && e.addr == addr && exists w :: w in ws && w.id == e.watch && Matches(w, name, family)
      {
        if e in Notices(ws[1..], name, change, family, addr) {
          var w :| w in ws[1..] && w.id == e.watch && Matches(w, name, family);
          assert w in ws;
        } else {
          assert ws[0] in ws;
        }
      }
    }
  }

  /** A watch hears of a walked address once, if the walk is for its interface, and of no other. */
  lemma {:induction false} NoticesTrack(ws: seq<Watch>, name: string, change: Change, family: nat, addr: Addr, w: Watch, a: Addr, p: Phase)
    requires DistinctIds(ws) && w in ws
    ensures TrackFrom(p, Notices(ws, name, change, family, addr), w.id, a)
         == if Matches(w, name, family) && a == addr then Advance(p, change) else p
  {
    var head := if Matches(ws[0], name, family) then [Event(ws[0].id, change, addr)] else [];
    var tail := Notices(ws[1..], name, change, family, addr);
    TrackConcat(p, head, tail, w.id, a);
    NoticesShape(ws[1..], name, change, family, addr);
    if ws[0] == w {
      TrackSilent(TrackFrom(p, head, w.id, a), tail, w.id, a);
      assert head != [] ==> head[..0] == [];
    } else {
      assert ws[0].id != w.id;
      TrackSilent(p, head, w.id, a);
      NoticesTrack(ws[1..], name, change, family, addr, w, a, p);
    }
  }

  lemma {:induction false} AllNoticesTrack(ws: seq<Watch>, name: string, change: Change, addrs: seq<Addr>, w: Watch, a: Addr, p: Phase)
    requires DistinctIds(ws) && w in ws && Distinct(addrs)
    ensures TrackFrom(p, AllNotices(ws, name, change, addrs), w.id, a)
         == if Matches(w, name, AF_INET) && a in addrs then Advance(p, change) else p
  {
    if addrs != [] {
      var init, last := addrs[..|addrs| - 1], addrs[|addrs| - 1];
      assert addrs == init + [last];
      TrackConcat(p, AllNotices(ws, name, change, init), Notices(ws, name, change, AF_INET, last), w.id, a);
      AllNoticesTrack(ws, name, change, init, w, a, p);
      NoticesTrack(ws, name, change, AF_INET, last, w, a, TrackFrom(p, AllNotices(ws, name, change, init), w.id, a));
    }
  }

  lemma {:induction false} AllNoticesIds(ws: seq<Watch>, name: string, change: Change, addrs: seq<Addr>)
    ensures forall e :: e in AllNotices(ws, name, change, addrs) ==> exists w :: w in ws && w.id == e.watch && w.family == AF_INET
  {
    if addrs != [] {
      AllNoticesIds(ws, name, change, addrs[..|addrs| - 1]);
      NoticesShape(ws, name, change, AF_INET, addrs[|addrs| - 1]);
    }
  }

  lemma {:induction false} OwnNoticesTrack(id: nat, change: Change, addrs: seq<Addr>, a: Addr, p: Phase)
    requires Distinct(addrs)
    ensures TrackFrom(p, OwnNotices(id, change, addrs), id, a) == if a in addrs then Advance(p, change) else p
  {
    if addrs != [] {
      var init := addrs[..|addrs| - 1];
      assert addrs == init + [addrs[|addrs| - 1]];
      assert OwnNotices(id, change, addrs)[..|addrs| - 1] == OwnNotices(id, change, init);
      OwnNoticesTrack(id, change, init, a, p);
    }
  }

  // ---------------------------------------------------------------- table lemmas

  lemma LiveAt(ifaces: map<nat, Iface>, i: nat, a: Addr)
    requires UniqueNames(ifaces) && i in ifaces
    ensures Live(ifaces, ifaces[i].name, a) <==> Up(ifaces[i].flags) && a in ifaces[i].addrs
  {
    assert Named(ifaces, ifaces[i].name, i);
  }

  lemma LiveElsewhere(before: map<nat, Iface>, after: map<nat, Iface>, i: nat, name: string, a: Addr)
    requires forall j :: j != i ==> (j in before <==> j in after) && (j in before ==> before[j] == after[j])
    requires i in before ==> before[i].name != name
    requires i in after ==> after[i].name != name
    ensures Live(before, name, a) <==> Live(after, name, a)
  {
    forall j ensures Named(before, name, j) <==> Named(after, name, j) { }
  }

  lemma KnownAddrsAreLive(ifaces: map<nat, Iface>, name: string, a: Addr)
    requires UniqueNames(ifaces)
    ensures a in KnownAddrs(ifaces, name) <==> Live(ifaces, name, a)
  {
    match FindByName(ifaces, name)
    case Some(i) => LiveAt(ifaces, i, a);
    case None =>
  }

  // ---------------------------------------------------------------- every step keeps agreement

  /** What one watch hears of one address from a link message. */
  lemma LinkTrack(s: State, index: nat, name: Option<string>, flags: nat, w: Watch, a: Addr)
    requires WellFormed(s) && index in s.ifaces && w in s.watches && w.family == AF_INET
    ensures var prior, info := s.ifaces[index], LinkStep(s, index, name, flags).ifaces[index];
            var renamed := name.Some? && prior.name != name.value;
            var p := Track(s.log, w.id, a);
            Track(LinkStep(s, index, name, flags).log, w.id, a) ==
              if a !in prior.addrs then p
              else if renamed then
                var q := if Up(prior.flags) && w.name == prior.name then Advance(p, Remove) else p;
                if Up(flags) && w.name == info.name then Advance(q, Add) else q
              else if Up(prior.flags) != Up(flags) && w.name == info.name then Advance(p, if Up(flags) then Add else Remove)
              else p
  {
    var prior, info := s.ifaces[index], LinkStep(s, index, name, flags).ifaces[index];
    var gone := AllNotices(s.watches, prior.name, Remove, prior.addrs);
    var none: seq<Event> := [];
    AllNoticesTrack(s.watches, prior.name, Remove, prior.addrs, w, a, Track(s.log, w.id, a));
    TrackAppends(s.log, w.id, a, gone, none);
    AfterPrefix(s, s.log + none, info, w, a);
    AfterPrefix(s, s.log + gone, info, w, a);
  }

  lemma AfterPrefix(s: State, log: seq<Event>, info: Iface, w: Watch, a: Addr)
    requires DistinctIds(s.watches) && w in s.watches && w.family == AF_INET && Distinct(info.addrs)
    ensures forall change :: Track(log + AllNotices(s.watches, info.name, change, info.addrs), w.id, a)
              == if w.name == info.name && a in info.addrs then Advance(Track(log, w.id, a), change) else Track(log, w.id, a)
    ensures Track(log + [], w.id, a) == Track(log, w.id, a)
  {
    assert log + [] == log;
    forall change
      ensures Track(log + AllNotices(s.watches, info.name, change, info.addrs), w.id, a)
              == if w.name == info.name && a in info.addrs then Advance(Track(log, w.id, a), change) else Track(log, w.id, a)
    {
      TrackConcat(Off, log, AllNotices(s.watches, info.name, change, info.addrs), w.id, a);
      AllNoticesTrack(s.watches, info.name, change, info.addrs, w, a, Track(log, w.id, a));
    }
  }

  lemma TrackAppends(log: seq<Event>, id: nat, a: Addr, xs: seq<Event>, ys: seq<Event>)
    ensures Track(log + xs, id, a) == TrackFrom(Track(log, id, a), xs, id, a)
    ensures Track(log + ys, id, a) == TrackFrom(Track(log, id, a), ys, id, a)
  {
    TrackConcat(Off, log, xs, id, a);
    TrackConcat(Off, log, ys, id, a);
  }

  /** How the liveness of an address under a name follows a changed table row. */
  lemma LiveAfterRow(before: map<nat, Iface>, i: nat, info: Iface, name: string, a: Addr)
    requires UniqueNames(before) && UniqueNames(before[i := info])
    ensures Live(before[i := info], name, a) <==>
              if info.name == name then Up(info.flags) && a in info.addrs
              else if i in before && before[i].name == name then false
              else Live(before, name, a)
  {
    var after := before[i := info];
    LiveAt(after, i, a);
    if info.name != name {
      if i in before && before[i].name == name {
        NameFreed(before, after, i, a);
      } else {
        LiveElsewhere(before, after, i, name, a);
      }
    }
  }

  lemma LinkAgrees(s: State, index: nat, name: Option<string>, flags: nat)
    requires WellFormed(s) && Agrees(s) && UniqueNames(s.ifaces)
    requires UniqueNames(LinkStep(s, index, name, flags).ifaces)
    ensures Agrees(LinkStep(s, index, name, flags))
  {
    var t := LinkStep(s, index, name, flags);
    var info := t.ifaces[index];
    assert t.ifaces == s.ifaces[index := info];
    forall w, a | w in t.watches && w.family == AF_INET
      ensures Track(t.log, w.id, a) == Expected(Live(t.ifaces, w.name, a))
    {
      LiveAfterRow(s.ifaces, index, info, w.name, a);
      if index in s.ifaces {
        LiveAt(s.ifaces, index, a);
        LinkTrack(s, index, name, flags, w, a);
        if w.name == info.name && s.ifaces[index].name != info.name {
          NameFreed(t.ifaces, s.ifaces, index, a);
        }
      } else {
        assert t.log == s.log;
        if w.name == info.name {
          NameFreed(t.ifaces, s.ifaces, index, a);
        }
      }
    }
  }

  /** The interface that held a name uniquely has given it up, so nothing is live under it. */
  lemma NameFreed(before: map<nat, Iface>, after: map<nat, Iface>, i: nat, a: Addr)
    requires UniqueNames(before) && i in before
    requires forall j :: j != i ==> (j in before <==> j in after) && (j in before ==> before[j] == after[j])
    requires i in after ==> after[i].name != before[i].name
    ensures !Live(after, before[i].name, a)
  {
  }

  lemma UnlinkAgrees(s: State, index: nat)
    requires WellFormed(s) && Agrees(s) && UniqueNames(s.ifaces)
    ensures Agrees(UnlinkStep(s, index))
  {
    var t := UnlinkStep(s, index);
    if index in s.ifaces {
      var info := s.ifaces[index];
      var tail := t.log[|s.log|..];
      assert t.log == s.log + tail;
      forall w, a | w in t.watches && w.family == AF_INET
        ensures Track(t.log, w.id, a) == Expected(Live(t.ifaces, w.name, a))
      {
        TrackConcat(Off, s.log, tail, w.id, a);
        AllNoticesTrack(s.watches, info.name, Remove, info.addrs, w, a, Track(s.log, w.id, a));
        LiveAt(s.ifaces, index, a);
        if w.name == info.name {
          NameFreed(s.ifaces, t.ifaces, index, a);
        } else {
          LiveElsewhere(s.ifaces, t.ifaces, index, w.name, a);
        }
      }
    }
  }

  lemma AddressAgrees(s: State, index: nat, family: nat, addr: Addr, added: bool)
    requires WellFormed(s) && Agrees(s) && UniqueNames(s.ifaces)
    ensures Agrees(AddressStep(s, index, family, addr, added))
  {
    var t := AddressStep(s, index, family, addr, added);
    if t != s {
      forall w, a | w in t.watches && w.family == AF_INET
        ensures Track(t.log, w.id, a) == Expected(Live(t.ifaces, w.name, a))
      {
        AddressAgreesFor(s, index, addr, added, w, a);
      }
    }
  }

  /** The same for one watch and one address, when the table does change. */
  lemma AddressAgreesFor(s: State, index: nat, addr: Addr, added: bool, w: Watch, a: Addr)
    requires WellFormed(s) && UniqueNames(s.ifaces) && AddressStep(s, index, AF_INET, addr, added) != s
    requires w in s.watches && w.family == AF_INET && Track(s.log, w.id, a) == Expected(Live(s.ifaces, w.name, a))
    ensures var t := AddressStep(s, index, AF_INET, addr, added); Track(t.log, w.id, a) == Expected(Live(t.ifaces, w.name, a))
  {
    var t, info := AddressStep(s, index, AF_INET, addr, added), s.ifaces[index];
    var change := if added then Add else Remove;
    var tail := if Up(info.flags) then Notices(s.watches, info.name, change, AF_INET, addr) else [];
    assert t.log == s.log + tail;
    TrackConcat(Off, s.log, tail, w.id, a);
    NoticesTrack(s.watches, info.name, change, AF_INET, addr, w, a, Track(s.log, w.id, a));
    AddrTable(info.addrs, addr, a);
    if w.name == info.name {
      LiveAt(s.ifaces, index, a);
      assert UniqueNames(t.ifaces);
      LiveAt(t.ifaces, index, a);
    } else {
      LiveElsewhere(s.ifaces, t.ifaces, index, w.name, a);
    }
  }

  /** Adding or deleting one address changes the membership of that address only. */
  lemma AddrTable(addrs: seq<Addr>, addr: Addr, a: Addr)
    requires Distinct(addrs)
    ensures a in addrs + [addr] <==> a in addrs || a == addr
    ensures var k := AddrIndex(addrs, addr); k < |addrs| ==> (a in Cut(addrs, k) <==> a in addrs && a != addr)
  {
    var k := AddrIndex(addrs, addr);
    if k < |addrs| && a in addrs && a != addr {
      CutKeeps(addrs, k, a);
    }
  }

  /** A new IPv4 watch starts in agreement exactly when its name was not cut
      short or nothing is live under the shortened name. */
  lemma RegisterExact(s: State, name: string)
    requires WellFormed(s) && UniqueNames(s.ifaces)
    ensures (forall a :: Track(RegisterStep(s, name, AF_INET).log, s.nextId, a) == Expected(Live(s.ifaces, Clip(name), a)))
        <==> |name| < IFNAME_MAX || forall a :: !Live(s.ifaces, Clip(name), a)
  {
    forall a
      ensures Track(RegisterStep(s, name, AF_INET).log, s.nextId, a) == Expected(Live(s.ifaces, name, a))
    {
      ToldAtRegistration(s, name, AF_INET, a);
    }
    if |name| >= IFNAME_MAX {
      forall a ensures !Live(s.ifaces, name, a) { }
    }
  }

  /** Registration reports the IPv4 addresses that are live under the full name, whatever family is asked for. */
  lemma ToldAtRegistration(s: State, name: string, family: nat, a: Addr)
    requires WellFormed(s) && UniqueNames(s.ifaces)
    ensures Track(RegisterStep(s, name, family).log, s.nextId, a) == Expected(Live(s.ifaces, name, a))
  {
    var known := KnownAddrs(s.ifaces, name);
    TrackConcat(Off, s.log, OwnNotices(s.nextId, Add, known), s.nextId, a);
    TrackSilent(Off, s.log, s.nextId, a);
    OwnNoticesTrack(s.nextId, Add, known, a, Off);
    KnownAddrsAreLive(s.ifaces, name, a);
  }

  lemma RegisterAgrees(s: State, name: string, family: nat)
    requires WellFormed(s) && Agrees(s) && UniqueNames(s.ifaces)
    requires |name| < IFNAME_MAX || forall a :: !Live(s.ifaces, Clip(name), a)
    ensures Agrees(RegisterStep(s, name, family))
  {
    var t := RegisterStep(s, name, family);
    var own := OwnNotices(s.nextId, Add, KnownAddrs(s.ifaces, name));
    RegisterExact(s, name);
    forall w, a | w in t.watches && w.family == AF_INET
      ensures Track(t.log, w.id, a) == Expected(Live(t.ifaces, w.name, a))
    {
      if w != t.watches[0] {
        TrackConcat(Off, s.log, own, w.id, a);
        TrackSilent(Track(s.log, w.id, a), own, w.id, a);
      }
    }
  }

  lemma UnregisterAgrees(s: State, id: nat)
    requires WellFormed(s) && Agrees(s)
    ensures Agrees(UnregisterStep(s, id))
  {
    var t := UnregisterStep(s, id);
    var k := WatchIndex(s.watches, id);
    if k < |s.watches| {
      var own := OwnNotices(id, Remove, KnownAddrs(s.ifaces, s.watches[k].name));
      forall w, a | w in t.watches && w.family == AF_INET
        ensures Track(t.log, w.id, a) == Expected(Live(t.ifaces, w.name, a))
      {
        CutWatch(s.watches, id);
        TrackConcat(Off, s.log, own, w.id, a);
        TrackSilent(Track(s.log, w.id, a), own, w.id, a);
      }
    }
  }

  lemma CutWatch(ws: seq<Watch>, id: nat)
    requires DistinctIds(ws) && WatchIndex(ws, id) < |ws|
    ensures forall w :: w in Cut(ws, WatchIndex(ws, id)) ==> w in ws && w.id != id
  {
  }

  /** An unregistered watch has been told to forget everything it knew. */
  lemma UnregisterForgets(s: State, id: nat, a: Addr)
    requires WellFormed(s) && Agrees(s) && UniqueNames(s.ifaces)
    requires exists w :: w in s.watches && w.id == id && w.family == AF_INET
    ensures Track(UnregisterStep(s, id).log, id, a) == Off
    ensures forall w :: w in UnregisterStep(s, id).watches ==> w.id != id
  {
    var k := WatchIndex(s.watches, id);
    assert k < |s.watches|;
    CutWatch(s.watches, id);
    TellsToForget(s, s.watches[k], a);
  }

  lemma TellsToForget(s: State, w: Watch, a: Addr)
    requires WellFormed(s) && Agrees(s) && UniqueNames(s.ifaces) && w in s.watches && w.family == AF_INET
    ensures Track(s.log + OwnNotices(w.id, Remove, KnownAddrs(s.ifaces, w.name)), w.id, a) == Off
  {
    var known := KnownAddrs(s.ifaces, w.name);
    TrackConcat(Off, s.log, OwnNotices(w.id, Remove, known), w.id, a);
    OwnNoticesTrack(w.id, Remove, known, a, Track(s.log, w.id, a));
    KnownAddrsAreLive(s.ifaces, w.name, a);
  }

  /** The log only grows, and every new callback is for an IPv4 watch, or for the
      watch being registered or unregistered. */
  lemma NewEvents(s: State, op: Op)
    ensures |s.log| <= |Step(s, op).log| && Step(s, op).log[..|s.log|] == s.log
    ensures forall e :: e in Step(s, op).log[|s.log|..] ==>
              || (op.Register? && e.watch == s.nextId)
              || (exists w :: w in s.watches && w.id == e.watch && (w.family == AF_INET || op == Unregister(w.id)))
  {
    match op
    case Link(index, name, flags) =>
      if index in s.ifaces {
        AllNoticesIds(s.watches, s.ifaces[index].name, Remove, s.ifaces[index].addrs);
      }
      var info := Step(s, op).ifaces[index];
      AllNoticesIds(s.watches, info.name, Add, info.addrs);
      AllNoticesIds(s.watches, info.name, Remove, info.addrs);
    case Unlink(index) =>
      if index in s.ifaces {
        AllNoticesIds(s.watches, s.ifaces[index].name, Remove, s.ifaces[index].addrs);
      }
    case Address(index, family, addr, added) =>
      if index in s.ifaces {
        NoticesShape(s.watches, s.ifaces[index].name, Add, AF_INET, addr);
        NoticesShape(s.watches, s.ifaces[index].name, Remove, AF_INET, addr);
      }
    case Register(name, family) =>
    case Unregister(id) =>
      var k := WatchIndex(s.watches, id);
      assert k < |s.watches| ==> s.watches[k] in s.watches;
  }

  lemma StepTables(s: State, op: Op)
    requires WellFormed(s)
    ensures TableOk(Step(s, op).ifaces) && WatchesOk(Step(s, op).watches, Step(s, op).nextId)
    ensures forall w :: w in s.watches && op != Unregister(w.id) ==> w in Step(s, op).watches
  {
    match op
    case Link(index, name, flags) =>
    case Unlink(index) =>
    case Address(index, family, addr, added) => AddressTable(s, index, family, addr, added);
    case Register(name, family) =>
    case Unregister(id) =>
      if WatchIndex(s.watches, id) < |s.watches| {
        UnregisterWatches(s.watches, s.nextId, id);
      }
  }

  lemma AddressTable(s: State, index: nat, family: nat, addr: Addr, added: bool)
    requires TableOk(s.ifaces)
    ensures TableOk(AddressStep(s, index, family, addr, added).ifaces)
  {
  }

  lemma UnregisterWatches(ws: seq<Watch>, nextId: nat, id: nat)
    requires WatchesOk(ws, nextId) && WatchIndex(ws, id) < |ws|
    ensures var left := Cut(ws, WatchIndex(ws, id)); WatchesOk(left, nextId) && forall w :: w in ws && w.id != id ==> w in left
  {
    var k := WatchIndex(ws, id);
    forall w | w in ws && w.id != id
      ensures w in Cut(ws, k)
    {
      CutKeeps(ws, k, w);
    }
  }

  lemma StepWellFormed(s: State, op: Op)
    requires WellFormed(s)
    ensures WellFormed(Step(s, op))
  {
    NewEvents(s, op);
    StepTables(s, op);
    LogIds(s.log, Step(s, op).log, s.nextId, Step(s, op).nextId);
  }

  lemma LogIds(before: seq<Event>, after: seq<Event>, n: nat, m: nat)
    requires |before| <= |after| && after[..|before|] == before && n <= m
    requires forall e :: e in before ==> e.watch < n
    requires forall e :: e in after[|before|..] ==> e.watch < m
    ensures forall e :: e in after ==> e.watch < m
  {
    assert after == before + after[|before|..];
  }

  /** What the kernel and the callers guarantee: interface names stay unique, and
      a watch is not registered under a name too long for the table while the
      shortened name is live. */
  ghost predicate Orderly(s: State, op: Op) {
    && UniqueNames(Step(s, op).ifaces)
    && (op.Register? ==> |op.iface| < IFNAME_MAX || forall a :: !Live(s.ifaces, Clip(op.iface), a))
  }

  ghost predicate OrderlyRun(ops: seq<Op>) {
    ops == [] || (OrderlyRun(ops[..|ops| - 1]) && Orderly(Run(ops[..|ops| - 1]), ops[|ops| - 1]))
  }

  /** Incremental notification agrees with recomputing from the tables, after every run. */
  lemma {:induction false} RunAgrees(ops: seq<Op>)
    requires OrderlyRun(ops)
    ensures WellFormed(Run(ops)) && UniqueNames(Run(ops).ifaces) && Agrees(Run(ops))
  {
    if ops != [] {
      var s, op := Run(ops[..|ops| - 1]), ops[|ops| - 1];
      RunAgrees(ops[..|ops| - 1]);
      StepWellFormed(s, op);
      match op
      case Link(index, name, flags) => LinkAgrees(s, index, name, flags);
      case Unlink(index) => UnlinkAgrees(s, index);
      case Address(index, family, addr, added) => AddressAgrees(s, index, family, addr, added);
      case Register(name, family) => RegisterAgrees(s, name, family);
      case Unregister(id) => UnregisterAgrees(s, id);
    }
  }

  // ---------------------------------------------------------------- consequences

  function Sign(c: Change): int { if c == Add then 1 else -1 }

  /** ADDs minus REMOVEs for one watch and address. */
  function Balance(log: seq<Event>, id: nat, a: Addr): int {
    if log == [] then 0
    else
      var last := log[|log| - 1];
      Balance(log[..|log| - 1], id, a) + if last.watch == id && last.addr == a then Sign(last.change) else 0
  }

  /** A watch that was never told anything out of order has, after every prefix
      of its history, balance 1 if it knows the address and 0 otherwise. */
  lemma {:induction false} TrackIsBalance(log: seq<Event>, id: nat, a: Addr, n: nat)
    requires Track(log, id, a) != Bad && n <= |log|
    ensures Track(log[..n], id, a) != Bad
    ensures Balance(log[..n], id, a) == if Track(log[..n], id, a) == On then 1 else 0
    decreases |log|, n
  {
    if n < |log| {
      assert log[..|log| - 1][..n] == log[..n];
      TrackIsBalance(log[..|log| - 1], id, a, n);
    } else if n > 0 {
      assert log[..n] == log;
      TrackIsBalance(log[..n - 1], id, a, n - 1);
      assert log[..n - 1][..n - 1] == log[..n - 1];
    }
  }

  /** Once unregistered, a watch is never called again. */
  lemma RetiredIsSilent(s: State, op: Op, id: nat)
    requires WellFormed(s) && id < s.nextId && forall w :: w in s.watches ==> w.id != id
    ensures forall w :: w in Step(s, op).watches ==> w.id != id
    ensures |s.log| <= |Step(s, op).log| && Step(s, op).log[..|s.log|] == s.log
    ensures forall e :: e in Step(s, op).log[|s.log|..] ==> e.watch != id
  {
    NewEvents(s, op);
  }

  /** Later changes are filtered by family: no operation but its own unregistration
      tells a watch of another family anything. */
  lemma OtherFamilyIsFrozen(s: State, op: Op, w: Watch, a: Addr)
    requires WellFormed(s) && w in s.watches && w.family != AF_INET && op != Unregister(w.id)
    ensures w in Step(s, op).watches
    ensures Track(Step(s, op).log, w.id, a) == Track(s.log, w.id, a)
  {
    NewEvents(s, op);
    StepTables(s, op);
    forall e | e in Step(s, op).log[|s.log|..]
      ensures e.watch != w.id
    {
      NotToldOf(s, op, w, e);
    }
    SilentTail(s.log, Step(s, op).log, w.id, a);
  }

  lemma {:induction false} RunWellFormed(ops: seq<Op>)
    ensures WellFormed(Run(ops))
  {
    if ops != [] {
      RunWellFormed(ops[..|ops| - 1]);
      StepWellFormed(Run(ops[..|ops| - 1]), ops[|ops| - 1]);
    }
  }

  /** What a watch of another family knows is frozen at its registration: after any operations but its own
      unregistration it knows what was live under its name when it was registered, so it is right about an
      address exactly if that address is live now as it was then. */
  lemma {:induction false} OtherFamilyExact(before: seq<Op>, name: string, family: nat, later: seq<Op>, a: Addr)
    requires UniqueNames(Run(before).ifaces) && family != AF_INET && Unregister(Run(before).nextId) !in later
    ensures var born, now := Run(before), Run(before + [Register(name, family)] + later);
            && Watch(born.nextId, Clip(name), family) in now.watches
            && Track(now.log, born.nextId, a) == Expected(Live(born.ifaces, name, a))
            && (Track(now.log, born.nextId, a) == Expected(Live(now.ifaces, Clip(name), a)) <==>
                (Live(now.ifaces, Clip(name), a) <==> Live(born.ifaces, name, a)))
  {
    var born, start := Run(before), before + [Register(name, family)];
    var w := Watch(born.nextId, Clip(name), family);
    if later == [] {
      assert start + later == start;
      RunSnoc(before, Register(name, family));
      RunWellFormed(before);
      ToldAtRegistration(born, name, family, a);
    } else {
      var init, op := later[..|later| - 1], later[|later| - 1];
      assert op in later && start + later == start + init + [op];
      OtherFamilyExact(before, name, family, init, a);
      RunSnoc(start + init, op);
      RunWellFormed(start + init);
      OtherFamilyIsFrozen(Run(start + init), op, w, a);
    }
  }

  /** An address that appears later is live, and a watch of another family is not told of it. */
  lemma OtherFamilyMisses(name: string, family: nat, addr: Addr)
    requires |name| < IFNAME_MAX && family != AF_INET
    ensures var s := Run([Link(1, Some(name), 1), Register(name, family), Address(1, AF_INET, addr, true)]);
            && s.watches == [Watch(0, name, family)]
            && Live(s.ifaces, name, addr) && Track(s.log, 0, addr) == Off
  {
    var link, register, address := Link(1, Some(name), 1), Register(name, family), Address(1, AF_INET, addr, true);
    RunOfThree(link, register, address);
    OneInterface(name, addr);
    var s := RegisterStep(State(Single(name, []), [], [], 0), name, family);
    SingleRegistered(name, family);
    AppearsLater(s, name, family, addr);
  }

  lemma SingleRegistered(name: string, family: nat)
    requires |name| < IFNAME_MAX
    ensures RegisterStep(State(Single(name, []), [], [], 0), name, family) == State(Single(name, []), [Watch(0, name, family)], [], 1)
  {
    assert KnownAddrs(Single(name, []), name) == [];
    assert OwnNotices(0, Add, []) == [];
  }

  lemma AppearsLater(s: State, name: string, family: nat, addr: Addr)
    requires s == State(Single(name, []), [Watch(0, name, family)], [], 1) && family != AF_INET
    ensures var t := AddressStep(s, 1, AF_INET, addr, true);
            t.watches == s.watches && Live(t.ifaces, name, addr) && Track(t.log, 0, addr) == Off
  {
    var t := AddressStep(s, 1, AF_INET, addr, true);
    assert Notices(s.watches[1..], name, Add, AF_INET, addr) == [];
    assert Notices(s.watches, name, Add, AF_INET, addr) == [];
    assert Named(t.ifaces, name, 1) && t.log == [];
  }

  lemma NotToldOf(s: State, op: Op, w: Watch, e: Event)
    requires WatchesOk(s.watches, s.nextId) && w in s.watches && w.family != AF_INET && op != Unregister(w.id)
    requires || (op.Register? && e.watch == s.nextId)
             || (exists v :: v in s.watches && v.id == e.watch && (v.family == AF_INET || op == Unregister(v.id)))
    ensures e.watch != w.id
  {
    if v :| v in s.watches && v.id == e.watch && (v.family == AF_INET || op == Unregister(v.id)) {
      assert v.id == w.id ==> v == w;
    }
  }

  lemma SilentTail(before: seq<Event>, after: seq<Event>, id: nat, a: Addr)
    requires |before| <= |after| && after[..|before|] == before
    requires forall e :: e in after[|before|..] ==> e.watch != id
    ensures Track(after, id, a) == Track(before, id, a)
  {
    assert after == before + after[|before|..];
    TrackConcat(Off, before, after[|before|..], id, a);
    TrackSilent(Track(before, id, a), after[|before|..], id, a);
  }

  /** A watch for a name that has to be clipped is not told of the addresses that are live under the clipped name. */
  lemma ClippedNameMisses(name: string, addr: Addr)
    requires |name| >= IFNAME_MAX
    ensures var s := Run([Link(1, Some(Clip(name)), 1), Address(1, AF_INET, addr, true), Register(name, AF_INET)]);
            && s.watches == [Watch(0, Clip(name), AF_INET)]
            && Live(s.ifaces, Clip(name), addr) && Track(s.log, 0, addr) == Off
  {
    ClippedRun(name, addr);
    NotFoundByFullName(name, addr);
  }

  lemma ClippedRun(name: string, addr: Addr)
    requires |name| >= IFNAME_MAX
    ensures Run([Link(1, Some(Clip(name)), 1), Address(1, AF_INET, addr, true), Register(name, AF_INET)]) ==
            State(Single(Clip(name), [addr]), [Watch(0, Clip(name), AF_INET)], [], 1)
  {
    OneInterface(Clip(name), addr);
    NotFoundByFullName(name, addr);
    RunOfThree(Link(1, Some(Clip(name)), 1), Address(1, AF_INET, addr, true), Register(name, AF_INET));
  }

  lemma RunOfThree(a: Op, b: Op, c: Op)
    ensures Run([a, b, c]) == Step(Step(Step(Empty, a), b), c)
  {
    var one, two := [a], [a, b];
    assert [] + [a] == one && one + [b] == two && two + [c] == [a, b, c];
    RunSnoc([], a);
    RunSnoc(one, b);
    RunSnoc(two, c);
  }

  function Single(name: string, addrs: seq<Addr>): map<nat, Iface> { map[1 := Iface(name, 1, addrs)] }

  lemma OneInterface(name: string, addr: Addr)
    requires |name| < IFNAME_MAX
    ensures LinkStep(Empty, 1, Some(name), 1) == State(Single(name, []), [], [], 0)
    ensures AddressStep(State(Single(name, []), [], [], 0), 1, AF_INET, addr, true) == State(Single(name, [addr]), [], [], 0)
  {
    assert AllNotices([], name, Add, []) == [];
    assert [] + [addr] == [addr];
  }

  lemma NotFoundByFullName(name: string, addr: Addr)
    requires |name| >= IFNAME_MAX
    ensures var t := Single(Clip(name), [addr]);
            && Live(t, Clip(name), addr)
            && RegisterStep(State(t, [], [], 0), name, AF_INET) == State(t, [Watch(0, Clip(name), AF_INET)], [], 1)
  {
    var t := Single(Clip(name), [addr]);
    assert Named(t, Clip(name), 1);
    assert |Clip(name)| < |name|;
    assert forall i :: !Named(t, name, i);
    assert OwnNotices(0, Add, []) == [];
  }

  lemma RunSnoc(ops: seq<Op>, op: Op)
    ensures Run(ops + [op]) == Step(Run(ops), op)
  {
    assert (ops + [op])[..|ops|] == ops;
  }

  // ---------------------------------------------------------------- imperative form

  /** The memmove at line 713 moves cells i+1 .. count, one more than the tail; when
      the table is full the last of them lies outside it and reads as `beyond`.
      The used part of the table does not depend on it. */
  method DeleteCell(cells: array<Addr>, count: nat, i: nat, beyond: Addr)
    requires cells.Length == IFADDR_MAX && i < count <= cells.Length
    modifies cells
    ensures cells[..count - 1] == Cut(old(cells[..count]), i)
    ensures cells[count - 1] == if count == IFADDR_MAX then beyond else old(cells[count])
    ensures cells[count..] == old(cells[count..])
  {
    ghost var was := cells[..] + [beyond];
    var k := i;
    while k < count
      invariant i <= k <= count
      invariant forall j :: 0 <= j < i ==> cells[j] == was[j]
      invariant forall j :: i <= j < k ==> cells[j] == was[j + 1]
      invariant forall j :: k <= j < cells.Length ==> cells[j] == was[j]
    {
      cells[k] := if k + 1 == cells.Length then beyond else cells[k + 1];
      k := k + 1;
    }
    ghost var used, left := was[..count], Cut(was[..count], i);
    assert cells[..count - 1] == left by {
      assert forall j :: 0 <= j < count - 1 ==> left[j] == if j < i then was[j] else was[j + 1];
    }
    assert used == old(cells[..count]);
  }

  lemma OnlyOneFound(ifaces: map<nat, Iface>, name: string, r: Option<nat>)
    requires Found(ifaces, name, r)
    ensures UniqueNames(ifaces) ==> r == FindByName(ifaces, name)
  {
    var f := FindByName(ifaces, name);
    assert f.Some? ==> Named(ifaces, name, f.value);
  }

  lemma AllNoticesNext(ws: seq<Watch>, name: string, change: Change, addrs: seq<Addr>, i: nat)
    requires i < |addrs|
    ensures AllNotices(ws, name, change, addrs[..i + 1]) == AllNotices(ws, name, change, addrs[..i]) + Notices(ws, name, change, AF_INET, addrs[i])
  {
    assert addrs[..i + 1][..i] == addrs[..i];
  }

  class Monitor {
    var ifaces: map<nat, Iface>
    var watches: seq<Watch>
    var log: seq<Event>
    var nextId: nat

    ghost function Abs(): State
      reads this
    {
      State(ifaces, watches, log, nextId)
    }

    constructor ()
      ensures Abs() == Empty
    {
      ifaces, watches, log, nextId := map[], [], [], 0;
    }

    method CallWatchers(name: string, change: Change, family: nat, addr: Addr)
      modifies `log
      ensures log == old(log) + Notices(watches, name, change, family, addr)
    {
      var p := 0;
      while p < |watches|
        invariant p <= |watches|
        invariant log + Notices(watches[p..], name, change, family, addr) == old(log) + Notices(watches, name, change, family, addr)
      {
        assert watches[p..][1..] == watches[p + 1..];
        if Matches(watches[p], name, family) {
          log := log + [Event(watches[p].id, change, addr)];
        }
        p := p + 1;
      }
    }

    method IterateAddrs(info: Iface, change: Change)
      modifies `log
      ensures log == old(log) + AllNotices(watches, info.name, change, info.addrs)
    {
      var i := 0;
      ghost var told := [];
      while i < |info.addrs|
        invariant i <= |info.addrs|
        invariant told == AllNotices(watches, info.name, change, info.addrs[..i]) && log == old(log) + told
      {
        AllNoticesNext(watches, info.name, change, info.addrs, i);
        ghost var next := Notices(watches, info.name, change, AF_INET, info.addrs[i]);
        CallWatchers(info.name, change, AF_INET, info.addrs[i]);
        Assoc(old(log), told, next);
        told := told + next;
        i := i + 1;
      }
      assert info.addrs[..i] == info.addrs;
    }

    method Find(name: string) returns (r: Option<nat>)
      ensures Found(ifaces, name, r)
    {
      var rest := ifaces.Keys;
      while rest != {}
        invariant rest <= ifaces.Keys
        invariant forall i :: i in ifaces && i !in rest ==> ifaces[i].name != name
        decreases |rest|
      {
        var i :| i in rest;
        if ifaces[i].name == name {
          return Some(i);
        }
        rest := rest - {i};
      }
      return None;
    }

    /** Calls one watch for every address of the interface found under the name, if that is up. */
    method TellOwn(id: nat, name: string, change: Change) returns (found: Option<nat>)
      modifies `log
      ensures Found(ifaces, name, found) && log == old(log) + OwnNotices(id, change, AddrsAt(ifaces, found))
    {
      found := Find(name);
      if found.Some? && Up(ifaces[found.value].flags) {
        var addrs := ifaces[found.value].addrs;
        var i := 0;
        while i < |addrs|
          invariant i <= |addrs|
          invariant log == old(log) + OwnNotices(id, change, addrs)[..i]
        {
          log := log + [Event(id, change, addrs[i])];
          i := i + 1;
        }
      }
    }

    /** With names shared between interfaces the one that is found counts; else it is the registration step. */
    method RegisterWatch(name: string, family: nat) returns (id: nat, found: Option<nat>)
      modifies this
      ensures id == old(nextId) && Found(old(ifaces), name, found)
      ensures Abs() == RegisterWith(old(Abs()), name, family, AddrsAt(old(ifaces), found))
      ensures UniqueNames(old(ifaces)) ==> Abs() == Step(old(Abs()), Register(name, family))
    {
      id := nextId;
      found := TellOwn(id, name, Add);
      OnlyOneFound(ifaces, name, found);
      watches := [Watch(id, Clip(name), family)] + watches;
      nextId := nextId + 1;
    }

    method UnregisterWatch(id: nat) returns (found: Option<nat>)
      requires exists w :: w in watches && w.id == id
      modifies this
      ensures Found(old(ifaces), old(watches[WatchIndex(watches, id)].name), found)
      ensures Abs() == UnregisterWith(old(Abs()), id, AddrsAt(old(ifaces), found))
      ensures UniqueNames(old(ifaces)) ==> Abs() == Step(old(Abs()), Unregister(id))
    {
      var k := WatchIndex(watches, id);
      found := TellOwn(id, watches[k].name, Remove);
      OnlyOneFound(ifaces, watches[k].name, found);
      watches := Cut(watches, k);
    }

    method AddIface(index: nat, name: Option<string>, flags: nat)
      modifies this
      ensures Abs() == Step(old(Abs()), Link(index, name, flags))
    {
      var isNew := index !in ifaces;
      if isNew {
        ifaces := ifaces[index := Iface("", 0, [])];
      }
      var info := ifaces[index];
      var oldChanged := !isNew && name.Some? && info.name != name.value;
      var newChanged := isNew || Up(info.flags) != Up(flags) || oldChanged;
      if oldChanged {
        if Up(info.flags) {
          IterateAddrs(info, Remove);
        }
      }
      var current := if name.Some? then Clip(name.value) else info.name;
      info := Iface(current, flags, info.addrs);
      ifaces := ifaces[index := info];
      Announce(info, isNew, oldChanged, newChanged);
    }

    method Announce(info: Iface, isNew: bool, oldChanged: bool, newChanged: bool)
      modifies `log
      ensures log == old(log) + Announced(watches, info, isNew || oldChanged, newChanged)
    {
      if newChanged {
        if isNew {
          if Up(info.flags) {
            IterateAddrs(info, Add);
          }
        } else if oldChanged {
          if Up(info.flags) {
            IterateAddrs(info, Add);
          }
        } else if !Up(info.flags) {
          IterateAddrs(info, Remove);
        } else {
          IterateAddrs(info, Add);
        }
      }
    }

    method DelIface(index: nat)
      modifies this
      ensures Abs() == Step(old(Abs()), Unlink(index))
    {
      if index !in ifaces {
        return;
      }
      var info := ifaces[index];
      if Up(info.flags) {
        IterateAddrs(info, Remove);
      }
      ifaces := ifaces - {index};
    }

    method ChangeIfaceAddr(index: nat, family: nat, addr: Addr, added: bool)
      modifies this
      ensures Abs() == Step(old(Abs()), Address(index, family, addr, added))
    {
      if family != AF_INET || index !in ifaces {
        return;
      }
      var info := ifaces[index];
      var i := 0;
      while i < |info.addrs| && info.addrs[i] != addr
        invariant i <= |info.addrs|
        invariant forall j :: 0 <= j < i ==> info.addrs[j] != addr
      {
        i := i + 1;
      }
      assert i == AddrIndex(info.addrs, addr);
      if i == |info.addrs| {
        if added {
          if i >= IFADDR_MAX {
            return;
          }
          ifaces := ifaces[index := info.(addrs := info.addrs + [addr])];
          if Up(info.flags) {
            CallWatchers(info.name, Add, AF_INET, addr);
          }
        }
      } else if !added {
        ifaces := ifaces[index := info.(addrs := Cut(info.addrs, i))];
        if Up(info.flags) {
          CallWatchers(info.name, Remove, AF_INET, addr);
        }
      }
    }
  }
}
