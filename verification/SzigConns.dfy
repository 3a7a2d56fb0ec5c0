/**
 The connection part of the SZIG tree (lib/szig.cc): the start of a connection lays
 out service / instance / secondary / related / property nodes under a target node,
 its end removes the secondary node and, with the last of them, the instance.
 */
module SzigConns {
  import opened Options
  import opened SzigNames
  import opened SzigTree

  /** Identifiers are taken as already printed. */
  datatype Conn = Conn(service: string, instance: string, secondary: string)

  datatype Event =
    | Started(conn: Conn, related: string, props: seq<(string, string)>)
    | Stopped(conn: Conn)

  function At(c: Conn): seq<string> { [c.service, c.instance, c.secondary] }

  function InstanceAt(c: Conn): seq<string> { [c.service, c.instance] }

  function Store(t: Node, base: seq<string>, props: seq<(string, string)>): Node {
    if props == [] then t
    else
      var (k, v) := props[|props| - 1];
      Grow(Store(t, base, props[..|props| - 1]), base + [k], Some(v))
  }

  predicate Childless(t: Node, p: seq<string>) { Find(t, p).Some? && Find(t, p).value.children == [] }

  function Step(t: Node, e: Event): Node {
    match e
    case Started(c, related, props) => Store(Grow(t, At(c) + [related], None), At(c) + [related], props)
    case Stopped(c) =>
      if ValueAt(t, At(c)).None? then t
      else
        var u := Prune(t, At(c));
        if Childless(u, InstanceAt(c)) then Prune(u, InstanceAt(c)) else u
  }

  function Run(run: seq<Event>): Node {
    if run == [] then Node("", None, []) else Step(Run(run[..|run| - 1]), run[|run| - 1])
  }

  // ---------------------------------------------------------------- what a run means

  /** The last event of this connection was a start. */
  predicate Live(run: seq<Event>, c: Conn) {
    run != [] &&
    var e := run[|run| - 1];
    if e.conn == c then e.Started? else Live(run[..|run| - 1], c)
  }

  function LastOf(props: seq<(string, string)>, k: string): Option<string> {
    if props == [] then None
    else if props[|props| - 1].0 == k then Some(props[|props| - 1].1)
    else LastOf(props[..|props| - 1], k)
  }

  /** The value last reported for a property since the connection's last stop. */
  function Reported(run: seq<Event>, c: Conn, related: string, k: string): Option<string> {
    if run == [] then None
    else
      var e, before := run[|run| - 1], Reported(run[..|run| - 1], c, related, k);
      match e
      case Stopped(d) => if d == c then None else before
      case Started(d, r, props) => if d == c && r == related && LastOf(props, k).Some? then LastOf(props, k) else before
  }

  predicate EverStarted(run: seq<Event>, service: string) {
    run != [] &&
    var e := run[|run| - 1];
    (e.Started? && e.conn.service == service) || EverStarted(run[..|run| - 1], service)
  }

  // ---------------------------------------------------------------- one event

  lemma PrefixExists(t: Node, p: seq<string>, q: seq<string>)
    requires ValueAt(t, q).Some? && p <= q
    ensures ValueAt(t, p).Some?
  {
    if ValueAt(t, p).None? {
      AbsentBelow(t, p, q);
    }
  }

  lemma {:induction false} StoreExact(t: Node, base: seq<string>, props: seq<(string, string)>, q: seq<string>)
    requires WellFormed(t) && ValueAt(t, base).Some?
    ensures WellFormed(Store(t, base, props))
    ensures ValueAt(Store(t, base, props), q) ==
            if |q| == |base| + 1 && base <= q && LastOf(props, q[|base|]).Some? then Some(LastOf(props, q[|base|])) else ValueAt(t, q)
  {
    if props != [] {
      var before, k := props[..|props| - 1], props[|props| - 1].0;
      var u := Store(t, base, before);
      StoreExact(t, base, before, q);
      GrowKeeps(u, base + [k], Some(props[|props| - 1].1));
      GrowExact(u, base + [k], Some(props[|props| - 1].1), q);
      OneBelow(base, k, q);
      if q <= base {
        PrefixExists(t, q, base);
      }
    }
  }

  lemma OneBelow(base: seq<string>, k: string, q: seq<string>)
    ensures q <= base + [k] <==> q <= base || q == base + [k]
    ensures q == base + [k] <==> |q| == |base| + 1 && base <= q && q[|base|] == k
  {
    if |q| == |base| + 1 && base <= q {
      assert q == base + [q[|base|]];
    }
  }

  lemma StartExact(t: Node, e: Event, q: seq<string>)
    requires WellFormed(t) && e.Started?
    ensures WellFormed(Step(t, e))
    ensures ValueAt(Step(t, e), q) ==
            if |q| == 5 && q[..4] == At(e.conn) + [e.related] && LastOf(e.props, q[4]).Some? then Some(LastOf(e.props, q[4]))
            else if ValueAt(t, q).Some? then ValueAt(t, q)
            else if q <= At(e.conn) + [e.related] then Some(None) else None
  {
    var base := At(e.conn) + [e.related];
    GrowKeeps(t, base, None);
    GrowExact(t, base, None, base);
    GrowExact(t, base, None, q);
    StoreExact(Grow(t, base, None), base, e.props, q);
  }

  lemma ChildlessMeans(t: Node, p: seq<string>)
    requires WellFormed(t) && ValueAt(t, p).Some?
    ensures Childless(t, p) <==> forall x :: ValueAt(t, p + [x]).None?
  {
    var c := Find(t, p).value.children;
    forall x
      ensures ValueAt(t, p + [x]).Some? <==> Child(c, x).Some?
    {
      FindSnoc(t, p, x);
    }
    if c != [] {
      FindWellFormed(t, p);
      ChildAt(c, 0);
      assert ValueAt(t, p + [c[0].name]).Some?;
    }
  }

  lemma PrunedSibling(t: Node, c: Conn, x: string)
    requires WellFormed(t)
    ensures ValueAt(Prune(t, At(c)), InstanceAt(c) + [x]) == if x == c.secondary then None else ValueAt(t, InstanceAt(c) + [x])
  {
    var q := InstanceAt(c) + [x];
    PruneExact(t, At(c), q);
    assert q == At(c) <==> x == c.secondary by {
      assert q[2] == x;
    }
    assert At(c) <= q <==> q == At(c);
  }

  lemma InstanceSurvives(t: Node, c: Conn)
    requires WellFormed(t) && ValueAt(t, At(c)).Some?
    ensures ValueAt(t, InstanceAt(c)).Some? && ValueAt(Prune(t, At(c)), InstanceAt(c)) == ValueAt(t, InstanceAt(c))
  {
    PruneExact(t, At(c), InstanceAt(c));
    PrefixExists(t, InstanceAt(c), At(c));
  }

  /** The pruned instance is childless iff the connection was its only secondary. */
  lemma ChildlessAfterPrune(t: Node, c: Conn)
    requires WellFormed(t) && ValueAt(t, At(c)).Some?
    ensures Childless(Prune(t, At(c)), InstanceAt(c)) <==> OnlyOne(t, c)
  {
    PruneKeeps(t, At(c));
    InstanceSurvives(t, c);
    ChildlessMeans(Prune(t, At(c)), InstanceAt(c));
    forall x {
      PrunedSibling(t, c, x);
    }
  }

  ghost predicate OnlyOne(t: Node, c: Conn) { forall x :: x != c.secondary ==> ValueAt(t, InstanceAt(c) + [x]).None? }

  lemma BelowChildless(t: Node, p: seq<string>, q: seq<string>)
    requires WellFormed(t) && Childless(t, p) && p <= q && q != p
    ensures ValueAt(t, q).None?
  {
    ChildlessMeans(t, p);
    var x := q[|p|];
    assert p + [x] <= q;
    AbsentBelow(t, p + [x], q);
  }

  /** What a stop leaves: the connection's subtree is gone, with its instance node iff no other secondary is left under it. */
  lemma StopExact(t: Node, c: Conn, q: seq<string>)
    requires WellFormed(t) && ValueAt(t, At(c)).Some?
    ensures WellFormed(Step(t, Stopped(c)))
    ensures ValueAt(Step(t, Stopped(c)), q) ==
            if At(c) <= q || (q == InstanceAt(c) && OnlyOne(t, c)) then None else ValueAt(t, q)
  {
    var u := Prune(t, At(c));
    PruneKeeps(t, At(c));
    PruneExact(t, At(c), q);
    ChildlessAfterPrune(t, c);
    if Childless(u, InstanceAt(c)) {
      PruneKeeps(u, InstanceAt(c));
      PruneExact(u, InstanceAt(c), q);
      if InstanceAt(c) <= q && q != InstanceAt(c) {
        BelowChildless(u, InstanceAt(c), q);
      }
    }
  }

  lemma StepWellFormed(t: Node, e: Event)
    requires WellFormed(t)
    ensures WellFormed(Step(t, e))
  {
    if e.Started? {
      StartExact(t, e, []);
    } else if ValueAt(t, At(e.conn)).Some? {
      StopExact(t, e.conn, []);
    }
  }

  // ---------------------------------------------------------------- whole runs

  lemma {:induction false} RunWellFormed(run: seq<Event>)
    ensures WellFormed(Run(run))
  {
    if run != [] {
      RunWellFormed(run[..|run| - 1]);
      StepWellFormed(Run(run[..|run| - 1]), run[|run| - 1]);
    }
  }

  /** A connection has its node exactly while it is live, however starts and stops are repeated or interleaved. */
  lemma {:induction false} LiveExact(run: seq<Event>, c: Conn)
    ensures ValueAt(Run(run), At(c)).Some? <==> Live(run, c)
  {
    if run != [] {
      var before, e := run[..|run| - 1], run[|run| - 1];
      LiveExact(before, c);
      LiveExact(before, e.conn);
      RunWellFormed(before);
      SamePath(c, e.conn);
      if e.Started? {
        StartExact(Run(before), e, At(c));
      } else if ValueAt(Run(before), At(e.conn)).Some? {
        StopExact(Run(before), e.conn, At(c));
      }
    }
  }

  lemma SamePath(c: Conn, d: Conn)
    ensures At(c) == At(d) <==> c == d
    ensures forall r :: At(c) <= At(d) + [r] <==> c == d
    ensures At(c) <= At(d) <==> c == d
  {
    assert At(c)[0] == c.service && At(c)[1] == c.instance && At(c)[2] == c.secondary;
    forall r
      ensures At(c) <= At(d) + [r] <==> c == d
    {
      assert (At(d) + [r])[..3] == At(d);
      assert At(c) <= At(d) + [r] <==> At(c) == (At(d) + [r])[..3];
    }
  }

  /** Each property node holds the value last reported since the connection's last stop, and exists only if there was one. */
  lemma {:induction false} ReportedExact(run: seq<Event>, c: Conn, related: string, k: string)
    ensures ValueAt(Run(run), At(c) + [related, k]) ==
            if Reported(run, c, related, k).Some? then Some(Reported(run, c, related, k)) else None
  {
    if run != [] {
      var before, e, q := run[..|run| - 1], run[|run| - 1], At(c) + [related, k];
      ReportedExact(before, c, related, k);
      RunWellFormed(before);
      SamePath(c, e.conn);
      if e.Started? {
        assert q[..4] == At(c) + [related] && q[4] == k && |q| == 5;
        assert (At(c) + [related])[..3] == At(c) && (At(e.conn) + [e.related])[..3] == At(e.conn);
        StartExact(Run(before), e, q);
      } else {
        assert At(e.conn) <= q <==> At(e.conn) == q[..3];
        assert q[..3] == At(c);
        if ValueAt(Run(before), At(e.conn)).Some? {
          StopExact(Run(before), e.conn, q);
        } else if e.conn == c {
          AbsentBelow(Run(before), At(c), q);
        }
      }
    }
  }

  ghost predicate Occupied(t: Node, service: string, instance: string) {
    exists x :: ValueAt(t, At(Conn(service, instance, x))).Some?
  }

  lemma InstanceKept(t: Node, e: Event, service: string, instance: string)
    requires WellFormed(t)
    requires ValueAt(t, [service, instance]).Some? ==> Occupied(t, service, instance)
    requires ValueAt(Step(t, e), [service, instance]).Some?
    ensures Occupied(Step(t, e), service, instance)
  {
    var c, q := e.conn, [service, instance];
    if e.Started? {
      StartExact(t, e, q);
      if InstanceAt(c) == q {
        StartExact(t, e, At(c));
        assert q[0] == InstanceAt(c)[0] && q[1] == InstanceAt(c)[1];
      } else {
        assert !(q <= At(c) + [e.related]) by {
          assert (At(c) + [e.related])[..2] == InstanceAt(c);
        }
        var x :| ValueAt(t, At(Conn(service, instance, x))).Some?;
        StartExact(t, e, At(Conn(service, instance, x)));
      }
    } else if ValueAt(t, At(c)).Some? {
      StopExact(t, c, q);
      var x := AnotherSecondary(t, c, service, instance);
      StopExact(t, c, At(Conn(service, instance, x)));
      SamePath(c, Conn(service, instance, x));
    }
  }

  /** An instance that outlives a stop has a secondary besides the stopped one. */
  lemma AnotherSecondary(t: Node, c: Conn, service: string, instance: string) returns (x: string)
    requires Occupied(t, service, instance) && (InstanceAt(c) == [service, instance] ==> !OnlyOne(t, c))
    ensures ValueAt(t, At(Conn(service, instance, x))).Some? && c != Conn(service, instance, x)
  {
    if InstanceAt(c) == [service, instance] {
      x :| x != c.secondary && ValueAt(t, InstanceAt(c) + [x]).Some?;
      assert InstanceAt(c) + [x] == At(Conn(service, instance, x));
    } else {
      x :| ValueAt(t, At(Conn(service, instance, x))).Some?;
    }
  }

  /** No run leaves an instance node without children: it is there exactly while one of its connections is live. */
  lemma {:induction false} InstanceExact(run: seq<Event>, service: string, instance: string)
    ensures ValueAt(Run(run), [service, instance]).Some? <==> exists x :: Live(run, Conn(service, instance, x))
    ensures !Childless(Run(run), [service, instance])
  {
    var t := Run(run);
    RunWellFormed(run);
    forall x
      ensures ValueAt(t, At(Conn(service, instance, x))).Some? <==> Live(run, Conn(service, instance, x))
      ensures Live(run, Conn(service, instance, x)) ==> ValueAt(t, [service, instance]).Some?
    {
      LiveExact(run, Conn(service, instance, x));
      if Live(run, Conn(service, instance, x)) {
        PrefixExists(t, [service, instance], At(Conn(service, instance, x)));
      }
    }
    if ValueAt(t, [service, instance]).Some? {
      RunOccupied(run, service, instance);
      ChildlessMeans(t, [service, instance]);
      var x :| ValueAt(t, At(Conn(service, instance, x))).Some?;
      assert [service, instance] + [x] == At(Conn(service, instance, x));
    }
  }

  lemma {:induction false} RunOccupied(run: seq<Event>, service: string, instance: string)
    ensures ValueAt(Run(run), [service, instance]).Some? ==> Occupied(Run(run), service, instance)
  {
    if run != [] {
      RunOccupied(run[..|run| - 1], service, instance);
      RunWellFormed(run[..|run| - 1]);
      if ValueAt(Run(run), [service, instance]).Some? {
        InstanceKept(Run(run[..|run| - 1]), run[|run| - 1], service, instance);
      }
    }
  }

  /** A service node, once created, stays for good. */
  lemma {:induction false} ServiceExact(run: seq<Event>, service: string)
    ensures ValueAt(Run(run), [service]).Some? <==> EverStarted(run, service)
  {
    if run != [] {
      var before, e := run[..|run| - 1], run[|run| - 1];
      ServiceExact(before, service);
      RunWellFormed(before);
      if e.Started? {
        StartExact(Run(before), e, [service]);
      } else if ValueAt(Run(before), At(e.conn)).Some? {
        StopExact(Run(before), e.conn, [service]);
      }
    }
  }

  // ---------------------------------------------------------------- imperative form

  function ChildIn(n: Option<Node>, name: string): Option<Node> {
    match n
    case None => None
    case Some(x) => Child(x.children, name)
  }

  lemma LookupChain(t: Node, c: Conn)
    requires WellFormed(t)
    ensures var s := ChildIn(Some(t), c.service); var i := ChildIn(s, c.instance);
            && Find(t, InstanceAt(c)) == i && Find(t, At(c)) == ChildIn(i, c.secondary)
            && (s.Some? ==> WellFormed(s.value)) && (i.Some? ==> WellFormed(i.value))
  {
    FindSnoc(t, [], c.service);
    FindSnoc(t, [c.service], c.instance);
    FindSnoc(t, InstanceAt(c), c.secondary);
    assert [] + [c.service] == [c.service] && [c.service] + [c.instance] == InstanceAt(c) && InstanceAt(c) + [c.secondary] == At(c);
    FindWellFormed(t, [c.service]);
    FindWellFormed(t, InstanceAt(c));
  }

  ghost predicate Chain(t: Node, c: Conn, s: Node, i: Node) {
    Child(t.children, c.service) == Some(s) && Child(s.children, c.instance) == Some(i) && Child(i.children, c.secondary).Some?
  }

  /** The tree with the instance node exchanged. */
  function WithInstance(t: Node, c: Conn, s: Node, r: Option<Node>): Node {
    t.(children := SetChild(t.children, c.service, Some(s.(children := SetChild(s.children, c.instance, r)))))
  }

  lemma PrunedChain(t: Node, c: Conn, s: Node, i: Node, left: Node)
    requires Chain(t, c, s, i) && left == i.(children := SetChild(i.children, c.secondary, None))
    ensures Prune(t, At(c)) == WithInstance(t, c, s, Some(left))
  {
    assert At(c)[1..] == [c.instance, c.secondary] && [c.instance, c.secondary][1..] == [c.secondary];
    assert Prune(i, [c.secondary]) == left;
    assert Prune(s, [c.instance, c.secondary]) == s.(children := SetChild(s.children, c.instance, Some(left)));
  }

  lemma PrunedInstance(t: Node, c: Conn, s: Node)
    requires Child(t.children, c.service) == Some(s) && Child(s.children, c.instance).Some?
    ensures Prune(t, InstanceAt(c)) == WithInstance(t, c, s, None)
  {
    assert InstanceAt(c)[1..] == [c.instance];
    assert Prune(s, [c.instance]) == s.(children := SetChild(s.children, c.instance, None));
  }

  lemma InstanceIn(t: Node, c: Conn, s: Node, i: Node, left: Node)
    requires WellFormed(t) && WellFormed(s) && Chain(t, c, s, i) && left.name == i.name
    ensures Find(WithInstance(t, c, s, Some(left)), InstanceAt(c)) == Some(left)
    ensures var u := WithInstance(t, c, s, Some(left)); var s' := s.(children := SetChild(s.children, c.instance, Some(left)));
            Child(u.children, c.service) == Some(s') && Child(s'.children, c.instance) == Some(left)
            && WithInstance(u, c, s', None) == WithInstance(t, c, s, None)
  {
    var s' := s.(children := SetChild(s.children, c.instance, Some(left)));
    SetChildSame(s.children, c.instance, Some(left));
    SetChildSame(t.children, c.service, Some(s'));
    FindSnoc(WithInstance(t, c, s, Some(left)), [c.service], c.instance);
    assert [c.service] + [c.instance] == InstanceAt(c);
    SetChildTwice(s.children, c.instance, left, None);
    SetChildTwice(t.children, c.service, s', Some(s.(children := SetChild(s.children, c.instance, None))));
  }

  lemma StopOne(t: Node, c: Conn, s: Node, i: Node, left: Node)
    requires WellFormed(t) && WellFormed(s) && Chain(t, c, s, i) && ValueAt(t, At(c)).Some?
    requires left == i.(children := SetChild(i.children, c.secondary, None)) && left.children != []
    ensures Step(t, Stopped(c)) == WithInstance(t, c, s, Some(left))
  {
    PrunedChain(t, c, s, i, left);
    InstanceIn(t, c, s, i, left);
  }

  lemma StopLast(t: Node, c: Conn, s: Node, i: Node, left: Node)
    requires WellFormed(t) && WellFormed(s) && Chain(t, c, s, i) && ValueAt(t, At(c)).Some?
    requires left == i.(children := SetChild(i.children, c.secondary, None)) && left.children == []
    ensures Step(t, Stopped(c)) == WithInstance(t, c, s, None)
  {
    PrunedChain(t, c, s, i, left);
    InstanceIn(t, c, s, i, left);
    PrunedInstance(WithInstance(t, c, s, Some(left)), c, s.(children := SetChild(s.children, c.instance, Some(left))));
  }

  class ConnectionTree {
    var target: Node

    ghost predicate Valid()
      reads this
    {
      WellFormed(target)
    }

    constructor ()
      ensures Valid() && target == Run([])
    {
      target := Node("", None, []);
    }

    /** z_szig_agr_flat_connection_props. */
    method FlatConnectionProps(c: Conn, related: string, props: seq<(string, string)>)
      requires Valid()
      modifies this
      ensures Valid() && target == Step(old(target), Started(c, related, props))
    {
      var base := At(c) + [related];
      StepWellFormed(target, Started(c, related, props));
      target := Grow(target, base, None);
      ghost var laid := target;
      for i := 0 to |props|
        invariant target == Store(laid, base, props[..i])
      {
        assert props[..i + 1][..i] == props[..i] && props[..i + 1][i] == props[i];
        target := Grow(target, base + [props[i].0], Some(props[i].1));
      }
      assert props[..|props|] == props;
    }

    /** z_szig_agr_del_connection_props; false when it reports a connection it does not know. */
    method DelConnectionProps(c: Conn) returns (known: bool)
      requires Valid()
      modifies this
      ensures Valid() && target == Step(old(target), Stopped(c))
      ensures known <==> old(ValueAt(target, At(c)).Some?)
    {
      StepWellFormed(target, Stopped(c));
      LookupChain(target, c);
      var service, _ := LookupChild(Some(target), c.service);
      var instance, instanceNdx := LookupChild(service, c.instance);
      var secondary, secondaryNdx := LookupChild(instance, c.secondary);
      if secondary.None? {
        return false;
      }
      var left := instance.value.(children := RemoveAt(instance.value.children, secondaryNdx));
      if left.children == [] {
        StopLast(target, c, service.value, instance.value, left);
        var s := service.value.(children := RemoveAt(service.value.children, instanceNdx));
        target := target.(children := SetChild(target.children, c.service, Some(s)));
      } else {
        StopOne(target, c, service.value, instance.value, left);
        var s := service.value.(children := service.value.children[instanceNdx := left]);
        target := target.(children := SetChild(target.children, c.service, Some(s)));
      }
      return true;
    }
  }
}
