/**
 The SZIG result tree (lib/szig.cc): every node keeps its children in an array
 sorted by name and finds them by binary search.  Read through its paths the tree
 is a finite map, and creating, storing and removing are updates of that map.
 */
module SzigTree {
  import opened Options
  import opened SzigNames

  /** A value is None until an aggregator stores one; Some(v) holds its printed form. */
  datatype Node = Node(name: string, value: Option<string>, children: seq<Node>)

  // ---------------------------------------------------------------- strcmp

  predicate Less(a: string, b: string) {
    b != "" && (a == "" || a[0] < b[0] || (a[0] == b[0] && Less(a[1..], b[1..])))
  }

  lemma {:induction false} LessTotal(a: string, b: string)
    ensures a == b ==> !Less(a, b)
    ensures a != b ==> Less(a, b) != Less(b, a)
  {
    if a != "" && b != "" && a[0] == b[0] {
      LessTotal(a[1..], b[1..]);
      assert a == [a[0]] + a[1..] && b == [b[0]] + b[1..];
    }
  }

  lemma {:induction false} LessTransitive(a: string, b: string, c: string)
    requires Less(a, b) && Less(b, c)
    ensures Less(a, c)
  {
    if a != "" && a[0] == b[0] == c[0] {
      LessTransitive(a[1..], b[1..], c[1..]);
    }
  }

  // ---------------------------------------------------------------- one level

  predicate Sorted(c: seq<Node>) { forall i, j :: 0 <= i < j < |c| ==> Less(c[i].name, c[j].name) }

  /** Where a child of that name is, or would be inserted. */
  function LowerBound(c: seq<Node>, name: string): (k: nat)
    ensures k <= |c|
    ensures forall i :: 0 <= i < k ==> Less(c[i].name, name)
    ensures k < |c| ==> !Less(c[k].name, name)
  {
    if c == [] || !Less(c[0].name, name) then 0 else 1 + LowerBound(c[1..], name)
  }

  function Child(c: seq<Node>, name: string): (r: Option<Node>)
    ensures r.Some? ==> r.value.name == name
  {
    var k := LowerBound(c, name);
    if k < |c| && c[k].name == name then Some(c[k]) else None
  }

  /** In a sorted array the insertion index is the only one that splits it, and a child is found iff it is there. */
  lemma LowerBoundSplits(c: seq<Node>, name: string)
    requires Sorted(c)
    ensures forall i :: LowerBound(c, name) < i < |c| ==> Less(name, c[i].name)
    ensures Child(c, name).Some? <==> exists i :: 0 <= i < |c| && c[i].name == name
    ensures Child(c, name).None? ==> forall i :: LowerBound(c, name) <= i < |c| ==> Less(name, c[i].name)
  {
    var k := LowerBound(c, name);
    if k < |c| {
      LessTotal(name, c[k].name);
    }
    forall i | k < i < |c|
      ensures Less(name, c[i].name)
    {
      if name != c[k].name {
        LessTransitive(name, c[k].name, c[i].name);
      }
    }
    forall i | 0 <= i < |c| && c[i].name == name
      ensures i == k
    {
      LessTotal(name, name);
    }
  }

  lemma Located(c: seq<Node>, name: string, k: nat)
    requires Sorted(c) && k <= |c|
    requires forall i :: 0 <= i < k ==> Less(c[i].name, name)
    requires k < |c| ==> !Less(c[k].name, name)
    ensures LowerBound(c, name) == k
  {
  }

  lemma ChildAt(c: seq<Node>, k: nat)
    requires Sorted(c) && k < |c|
    ensures LowerBound(c, c[k].name) == k && Child(c, c[k].name) == Some(c[k])
  {
    LessTotal(c[k].name, c[k].name);
    Located(c, c[k].name, k);
  }

  lemma ChildOf(c: seq<Node>, x: Node)
    requires Sorted(c) && x in c
    ensures Child(c, x.name) == Some(x)
  {
    var k :| 0 <= k < |c| && c[k] == x;
    ChildAt(c, k);
  }

  function InsertAt<T>(c: seq<T>, k: nat, x: T): seq<T>
    requires k <= |c|
  {
    c[..k] + [x] + c[k..]
  }

  function RemoveAt<T>(c: seq<T>, k: nat): seq<T>
    requires k < |c|
  {
    c[..k] + c[k + 1..]
  }

  /** Inserts, replaces or removes the child of that name. */
  function SetChild(c: seq<Node>, name: string, r: Option<Node>): seq<Node> {
    var k := LowerBound(c, name);
    if Child(c, name).Some? then
      if r.Some? then c[k := r.value] else RemoveAt(c, k)
    else
      if r.Some? then InsertAt(c, k, r.value) else c
  }

  lemma SetChildSorted(c: seq<Node>, name: string, r: Option<Node>)
    requires Sorted(c) && (r.Some? ==> r.value.name == name)
    ensures Sorted(SetChild(c, name, r))
  {
    LowerBoundSplits(c, name);
  }

  lemma SetChildSame(c: seq<Node>, name: string, r: Option<Node>)
    requires Sorted(c) && (r.Some? ==> r.value.name == name)
    ensures Child(SetChild(c, name, r), name) == r
  {
    var d, k := SetChild(c, name, r), LowerBound(c, name);
    SetChildSorted(c, name, r);
    LowerBoundSplits(c, name);
    if r.Some? {
      assert d[k] == r.value;
      ChildAt(d, k);
    } else if Child(c, name).Some? {
      assert forall i :: k <= i < |d| ==> d[i] == c[i + 1];
      assert forall i :: 0 <= i < k ==> d[i] == c[i];
      LessTotal(name, name);
      LowerBoundSplits(d, name);
    }
  }

  lemma SetChildMembers(c: seq<Node>, name: string, r: Option<Node>, x: Node)
    requires x.name != name && (r.Some? ==> r.value.name == name)
    ensures x in SetChild(c, name, r) <==> x in c
  {
    var d, k := SetChild(c, name, r), LowerBound(c, name);
    if x in c {
      var i :| 0 <= i < |c| && c[i] == x;
      assert x == if i < k then d[i] else if |d| == |c| then d[i] else if |d| < |c| then d[i - 1] else d[i + 1];
    }
  }

  lemma SetChildOther(c: seq<Node>, name: string, r: Option<Node>, other: string)
    requires Sorted(c) && (r.Some? ==> r.value.name == name) && other != name
    ensures Child(SetChild(c, name, r), other) == Child(c, other)
  {
    var d := SetChild(c, name, r);
    SetChildSorted(c, name, r);
    if Child(c, other).Some? {
      SetChildMembers(c, name, r, Child(c, other).value);
      ChildOf(d, Child(c, other).value);
    } else if Child(d, other).Some? {
      SetChildMembers(c, name, r, Child(d, other).value);
      ChildOf(c, Child(d, other).value);
    }
  }

  // ---------------------------------------------------------------- the whole tree

  predicate WellFormed(n: Node) {
    Sorted(n.children) && forall i :: 0 <= i < |n.children| ==> WellFormed(n.children[i])
  }

  function Find(n: Node, path: seq<string>): Option<Node>
    decreases |path|
  {
    if path == [] then Some(n)
    else match Child(n.children, path[0])
         case None => None
         case Some(x) => Find(x, path[1..])
  }

  /** The map the tree stands for: the paths that exist and their values. */
  function ValueAt(n: Node, path: seq<string>): Option<Option<string>>
  {
    match Find(n, path)
    case None => None
    case Some(x) => Some(x.value)
  }

  /** z_szig_node_add_named_child down a path, then storing v in the last node unless there is nothing to store. */
  function Grow(n: Node, path: seq<string>, v: Option<string>): (r: Node)
    ensures r.name == n.name
    decreases |path|
  {
    if path == [] then n.(value := if v.Some? then v else n.value)
    else n.(children := SetChild(n.children, path[0], Some(Grow(ChildOrNew(n.children, path[0]), path[1..], v))))
  }

  function ChildOrNew(c: seq<Node>, name: string): (x: Node)
    ensures x.name == name
  {
    match Child(c, name)
    case Some(x) => x
    case None => Node(name, None, [])
  }

  /** z_szig_node_remove_child of the node at a path. */
  function Prune(n: Node, path: seq<string>): (r: Node)
    requires path != []
    ensures r.name == n.name
    decreases |path|
  {
    match Child(n.children, path[0])
    case None => n
    case Some(x) => n.(children := SetChild(n.children, path[0], if |path| == 1 then None else Some(Prune(x, path[1..]))))
  }

  lemma SetChildWellFormed(n: Node, name: string, r: Option<Node>)
    requires WellFormed(n) && (r.Some? ==> r.value.name == name && WellFormed(r.value))
    ensures WellFormed(n.(children := SetChild(n.children, name, r)))
  {
    var d := SetChild(n.children, name, r);
    SetChildSorted(n.children, name, r);
    forall j | 0 <= j < |d|
      ensures WellFormed(d[j])
    {
      assert d[j] in n.children || r == Some(d[j]);
    }
  }

  lemma {:induction false} GrowKeeps(n: Node, path: seq<string>, v: Option<string>)
    requires WellFormed(n)
    ensures WellFormed(Grow(n, path, v))
    decreases |path|
  {
    if path != [] {
      GrowKeeps(ChildOrNew(n.children, path[0]), path[1..], v);
      SetChildWellFormed(n, path[0], Some(Grow(ChildOrNew(n.children, path[0]), path[1..], v)));
    }
  }

  lemma {:induction false} PruneKeeps(n: Node, path: seq<string>)
    requires WellFormed(n) && path != []
    ensures WellFormed(Prune(n, path))
    decreases |path|
  {
    var x := Child(n.children, path[0]);
    if x.Some? {
      if |path| > 1 {
        PruneKeeps(x.value, path[1..]);
      }
      SetChildWellFormed(n, path[0], if |path| == 1 then None else Some(Prune(x.value, path[1..])));
    }
  }

  lemma PrefixStep(p: seq<string>, q: seq<string>)
    requires p != [] && q != []
    ensures p <= q <==> p[0] == q[0] && p[1..] <= q[1..]
  {
    assert p == [p[0]] + p[1..] && q == [q[0]] + q[1..];
  }

  lemma EqualStep(p: seq<string>, q: seq<string>)
    requires p != [] && q != []
    ensures p == q <==> p[0] == q[0] && p[1..] == q[1..]
  {
    assert p == [p[0]] + p[1..] && q == [q[0]] + q[1..];
  }

  /** Growing is a map update: the path and its ancestors exist afterwards, v is stored, and nothing else changes. */
  lemma {:induction false} GrowExact(n: Node, p: seq<string>, v: Option<string>, q: seq<string>)
    requires WellFormed(n)
    ensures ValueAt(Grow(n, p, v), q) ==
            if q == p && v.Some? then Some(v)
            else if ValueAt(n, q).Some? then ValueAt(n, q)
            else if q <= p then Some(None) else None
    decreases |p|
  {
    if p != [] && q != [] {
      var x := ChildOrNew(n.children, p[0]);
      var y := Some(Grow(x, p[1..], v));
      PrefixStep(q, p);
      EqualStep(q, p);
      if q[0] == p[0] {
        SetChildSame(n.children, p[0], y);
        GrowExact(x, p[1..], v, q[1..]);
      } else {
        SetChildOther(n.children, p[0], y, q[0]);
      }
    }
  }

  /** Removing is a map update: everything at and under the path goes, and nothing else changes. */
  lemma {:induction false} PruneExact(n: Node, p: seq<string>, q: seq<string>)
    requires WellFormed(n) && p != []
    ensures ValueAt(Prune(n, p), q) == if p <= q then None else ValueAt(n, q)
    decreases |p|
  {
    var x := Child(n.children, p[0]);
    if q != [] {
      PrefixStep(p, q);
      if x.Some? {
        var y := if |p| == 1 then None else Some(Prune(x.value, p[1..]));
        if q[0] == p[0] {
          SetChildSame(n.children, p[0], y);
          if |p| > 1 {
            PruneExact(x.value, p[1..], q[1..]);
          }
        } else {
          SetChildOther(n.children, p[0], y, q[0]);
        }
      }
    }
  }

  /** A path below one that does not exist does not exist. */
  lemma {:induction false} AbsentBelow(n: Node, p: seq<string>, q: seq<string>)
    requires ValueAt(n, p).None? && p <= q
    ensures ValueAt(n, q).None?
    decreases |p|
  {
    PrefixStep(p, q);
    var x := Child(n.children, p[0]);
    if x.Some? {
      AbsentBelow(x.value, p[1..], q[1..]);
    }
  }

  lemma {:induction false} FindSnoc(n: Node, p: seq<string>, name: string)
    ensures Find(n, p + [name]) ==
            match Find(n, p)
            case None => None
            case Some(x) => Child(x.children, name)
    decreases |p|
  {
    if p == [] {
      assert [] + [name] == [name];
    } else {
      assert (p + [name])[0] == p[0] && (p + [name])[1..] == p[1..] + [name];
      if Child(n.children, p[0]).Some? {
        FindSnoc(Child(n.children, p[0]).value, p[1..], name);
      }
    }
  }

  lemma {:induction false} FindWellFormed(n: Node, p: seq<string>)
    requires WellFormed(n)
    ensures Find(n, p).Some? ==> WellFormed(Find(n, p).value)
    decreases |p|
  {
    if p != [] && Child(n.children, p[0]).Some? {
      FindWellFormed(Child(n.children, p[0]).value, p[1..]);
    }
  }

  lemma {:induction false} SameMembers(c: seq<Node>, d: seq<Node>)
    requires Sorted(c) && Sorted(d) && forall x :: x in c <==> x in d
    ensures c == d
  {
    assert (c != [] ==> c[0] in d) && (d != [] ==> d[0] in c);
    if c != [] && d != [] {
      var i :| 0 <= i < |c| && c[i] == d[0];
      var j :| 0 <= j < |d| && d[j] == c[0];
      LessTotal(c[0].name, d[0].name);
      assert i == 0;
      forall x
        ensures x in c[1..] <==> x in d[1..]
      {
        TailMember(c, x);
        TailMember(d, x);
      }
      SameMembers(c[1..], d[1..]);
      assert c == [c[0]] + c[1..] && d == [d[0]] + d[1..];
    }
  }

  lemma TailMember(c: seq<Node>, x: Node)
    requires Sorted(c) && c != []
    ensures x in c[1..] <==> x in c && x != c[0]
  {
    LessTotal(c[0].name, c[0].name);
    assert c == [c[0]] + c[1..];
  }

  /** The shape carries nothing beyond the map: well-formed trees with the same paths and values are equal. */
  lemma {:induction false} Canonical(a: Node, b: Node)
    requires WellFormed(a) && WellFormed(b) && a.name == b.name
    requires forall q :: ValueAt(a, q) == ValueAt(b, q)
    ensures a == b
    decreases a, 1
  {
    assert ValueAt(a, []) == ValueAt(b, []);
    forall x
      ensures x in a.children <==> x in b.children
    {
      if x in a.children {
        MatchingChild(a, b, x);
      } else if x in b.children {
        ChildOf(b.children, x);
        ChildExists(a, x.name);
        ChildExists(b, x.name);
        assert ValueAt(a, [x.name]) == ValueAt(b, [x.name]);
        var y := Child(a.children, x.name).value;
        MatchingChild(a, b, y);
        ChildOf(b.children, y);
      }
    }
    SameMembers(a.children, b.children);
  }

  lemma ChildExists(n: Node, name: string)
    ensures Child(n.children, name).Some? <==> ValueAt(n, [name]).Some?
  {
    FindSnoc(n, [], name);
    assert [] + [name] == [name];
  }

  lemma {:induction false} MatchingChild(a: Node, b: Node, x: Node)
    requires WellFormed(a) && WellFormed(b) && x in a.children
    requires forall q :: ValueAt(a, q) == ValueAt(b, q)
    ensures x in b.children
    decreases a, 0
  {
    ChildOf(a.children, x);
    ChildExists(a, x.name);
    ChildExists(b, x.name);
    assert ValueAt(a, [x.name]) == ValueAt(b, [x.name]);
    var y := Child(b.children, x.name).value;
    forall q
      ensures ValueAt(x, q) == ValueAt(y, q)
    {
      assert ([x.name] + q)[0] == x.name && ([x.name] + q)[1..] == q;
      assert ValueAt(a, [x.name] + q) == ValueAt(b, [x.name] + q);
    }
    Canonical(x, y);
  }

  // ---------------------------------------------------------------- runs

  datatype Op = Create(path: seq<string>, v: Option<string>) | Delete(path: seq<string>)

  function Change(n: Node, op: Op): Node {
    match op
    case Create(p, v) => Grow(n, p, v)
    case Delete(p) => if p == [] then n else Prune(n, p)
  }

  /** The tree after a run of changes, starting from a bare root. */
  function Reached(ops: seq<Op>): Node {
    if ops == [] then Node("", None, []) else Change(Reached(ops[..|ops| - 1]), ops[|ops| - 1])
  }

  function Prefixes(p: seq<string>): set<seq<string>> { set i | 0 <= i <= |p| :: p[..i] }

  function ChangeMap(m: map<seq<string>, Option<string>>, op: Op): map<seq<string>, Option<string>> {
    match op
    case Create(p, v) =>
      map q | q in m.Keys + Prefixes(p) :: if q == p && v.Some? then v else if q in m then m[q] else None
    case Delete(p) => if p == [] then m else map q | q in m && !(p <= q) :: m[q]
  }

  /** The same run on a plain finite map. */
  function ReachedMap(ops: seq<Op>): map<seq<string>, Option<string>> {
    if ops == [] then map[[] := None] else ChangeMap(ReachedMap(ops[..|ops| - 1]), ops[|ops| - 1])
  }

  ghost predicate Agree(n: Node, m: map<seq<string>, Option<string>>) {
    forall q :: ValueAt(n, q) == if q in m then Some(m[q]) else None
  }

  lemma ChangeAgrees(n: Node, m: map<seq<string>, Option<string>>, op: Op)
    requires WellFormed(n) && Agree(n, m)
    ensures WellFormed(Change(n, op)) && Agree(Change(n, op), ChangeMap(m, op))
  {
    match op
    case Create(p, v) =>
      GrowKeeps(n, p, v);
      forall q
        ensures ValueAt(Grow(n, p, v), q) == if q in ChangeMap(m, op) then Some(ChangeMap(m, op)[q]) else None
      {
        GrowExact(n, p, v, q);
        assert q <= p ==> q == p[..|q|];
        assert q in Prefixes(p) <==> q <= p;
      }
    case Delete(p) =>
      if p != [] {
        PruneKeeps(n, p);
        forall q
          ensures ValueAt(Prune(n, p), q) == if q in ChangeMap(m, op) then Some(ChangeMap(m, op)[q]) else None
        {
          PruneExact(n, p, q);
        }
      }
  }

  /** Every reachable tree is sorted at every level and holds exactly what the map holds. */
  lemma {:induction false} TreeRefinesMap(ops: seq<Op>)
    ensures WellFormed(Reached(ops)) && Agree(Reached(ops), ReachedMap(ops))
  {
    if ops == [] {
      forall q
        ensures ValueAt(Reached([]), q) == if q in ReachedMap([]) then Some(ReachedMap([])[q]) else None
      {
      }
    } else {
      TreeRefinesMap(ops[..|ops| - 1]);
      ChangeAgrees(Reached(ops[..|ops| - 1]), ReachedMap(ops[..|ops| - 1]), ops[|ops| - 1]);
    }
  }

  // ---------------------------------------------------------------- imperative form

  /** z_szig_node_lookup_child. */
  method LookupChild(root: Option<Node>, name: string) returns (n: Option<Node>, ndx: nat)
    requires root.Some? ==> Sorted(root.value.children)
    ensures root.None? ==> n.None?
    ensures root.Some? ==> n == Child(root.value.children, name) && ndx == LowerBound(root.value.children, name)
  {
    if root.None? {
      return None, 0;
    }
    var c := root.value.children;
    var l, h := 0, |c| - 1;
    while l <= h
      invariant 0 <= l <= h + 1 <= |c|
      invariant forall i :: 0 <= i < l ==> Less(c[i].name, name)
      invariant forall i :: h < i < |c| ==> Less(name, c[i].name)
    {
      var m := (l + h) / 2;
      LessTotal(c[m].name, name);
      if Less(name, c[m].name) {
        forall i | m < i < |c|
          ensures Less(name, c[i].name)
        {
          LessTransitive(name, c[m].name, c[i].name);
        }
        h := m - 1;
      } else if Less(c[m].name, name) {
        forall i | 0 <= i < m
          ensures Less(c[i].name, name)
        {
          LessTransitive(c[i].name, c[m].name, name);
        }
        l := m + 1;
      } else {
        ChildAt(c, m);
        return Some(c[m]), m;
      }
    }
    if l < |c| {
      LessTotal(c[l].name, name);
    }
    Located(c, name, l);
    return None, l;
  }

  /** z_szig_node_insert_child: open a gap with memmove, then store. */
  method InsertCell(pdata: array<Node>, len: nat, k: nat, child: Node)
    requires k <= len < pdata.Length
    modifies pdata
    ensures pdata[..len + 1] == InsertAt(old(pdata[..len]), k, child)
    ensures pdata[len + 1..] == old(pdata[len + 1..])
  {
    var i := len;
    while i > k
      invariant k <= i <= len
      invariant pdata[..i] == old(pdata[..i])
      invariant pdata[i + 1..len + 1] == old(pdata[i..len])
      invariant pdata[len + 1..] == old(pdata[len + 1..])
    {
      pdata[i] := pdata[i - 1];
      i := i - 1;
    }
    pdata[k] := child;
    assert pdata[..len + 1] == pdata[..k] + [child] + pdata[k + 1..len + 1];
    assert old(pdata[..len])[k..] == old(pdata[k..len]) && old(pdata[..len])[..k] == old(pdata[..k]);
  }

  /** z_szig_node_remove_child: close the gap with memmove. */
  method RemoveCell(pdata: array<Node>, len: nat, k: nat)
    requires k < len <= pdata.Length
    modifies pdata
    ensures pdata[..len - 1] == RemoveAt(old(pdata[..len]), k)
    ensures pdata[len..] == old(pdata[len..])
  {
    var i := k;
    while i < len - 1
      invariant k <= i <= len - 1
      invariant pdata[i + 1..] == old(pdata[i + 1..])
      invariant pdata[..k] == old(pdata[..k])
      invariant pdata[k..i] == old(pdata[k + 1..i + 1])
    {
      pdata[i] := pdata[i + 1];
      i := i + 1;
    }
    assert pdata[..len - 1] == pdata[..k] + pdata[k..len - 1];
    assert old(pdata[..len])[k + 1..] == old(pdata[k + 1..len]) && old(pdata[..len])[..k] == old(pdata[..k]);
  }

  /** z_szig_node_add_named_child, returning the changed parent and the child. */
  method AddNamedChild(root: Node, name: string) returns (r: Node, child: Node)
    requires Sorted(root.children)
    ensures r == Grow(root, [name], None)
    ensures child == ChildOrNew(root.children, name)
  {
    var n, ndx := LookupChild(Some(root), name);
    if n.Some? {
      child := n.value;
      assert root.children[ndx := child] == root.children;
      r := root;
    } else {
      child := Node(name, None, []);
      r := root.(children := InsertAt(root.children, ndx, child));
    }
  }

  lemma SetChildTwice(c: seq<Node>, name: string, x: Node, r: Option<Node>)
    requires Sorted(c) && x.name == name && (Child(c, name).Some? || r.Some?)
    ensures SetChild(SetChild(c, name, Some(x)), name, r) == SetChild(c, name, r)
  {
    var k := LowerBound(c, name);
    var d := SetChild(c, name, Some(x));
    SetChildSorted(c, name, Some(x));
    assert d[k] == x;
    ChildAt(d, k);
  }

  /** The creating lookup: every missing node on the way is added. */
  method CreatePath(n: Node, path: seq<string>) returns (r: Node)
    requires WellFormed(n)
    ensures r == Grow(n, path, None) && WellFormed(r)
    decreases |path|
  {
    GrowKeeps(n, path, None);
    if path == [] {
      return n;
    }
    var grown, child := AddNamedChild(n, path[0]);
    GrowKeeps(child, path[1..], None);
    var sub := CreatePath(child, path[1..]);
    SetChildTwice(n.children, path[0], child, Some(sub));
    assert Grow(child, [], None) == child && [path[0]][1..] == [];
    r := grown.(children := SetChild(grown.children, path[0], Some(sub)));
  }

  /** z_szig_tree_lookup with creation. */
  method TreeCreate(root: Node, name: string) returns (r: Node)
    requires WellFormed(root) && (name != "" ==> UnescapeAll(Split(name)).Some?)
    ensures WellFormed(r) && r == if name == "" then root else Grow(root, UnescapeAll(Split(name)).value, None)
  {
    if name == "" {
      return root;
    }
    r := CreatePath(root, UnescapeAll(Split(name)).value);
  }

  lemma {:induction false} UnescapeAllAt(pieces: seq<string>, i: nat)
    requires UnescapeAll(pieces).Some? && i < |pieces|
    ensures |UnescapeAll(pieces).value| == |pieces|
    ensures Unescape(pieces[i]).Some? && CString(Unescape(pieces[i]).value) == UnescapeAll(pieces).value[i]
  {
    var init := pieces[..|pieces| - 1];
    if i < |init| {
      UnescapeAllAt(init, i);
    } else if init != [] {
      UnescapeAllAt(init, 0);
    }
  }

  lemma FindNext(root: Node, path: seq<string>, i: nat)
    requires WellFormed(root) && i < |path| && Find(root, path[..i]).Some?
    ensures var n := Find(root, path[..i]).value; Sorted(n.children) && Find(root, path[..i + 1]) == Child(n.children, path[i])
  {
    FindSnoc(root, path[..i], path[i]);
    FindWellFormed(root, path[..i]);
    assert path[..i] + [path[i]] == path[..i + 1];
  }

  /** z_szig_tree_lookup without creation; the name must not make the unescaping overrun. */
  method TreeLookup(root: Node, name: string) returns (node: Option<Node>, parent: Option<Node>, ndx: int)
    requires WellFormed(root) && (name != "" ==> UnescapeAll(Split(name)).Some?)
    ensures name == "" ==> node == Some(root) && parent == None && ndx == -1
    ensures name != "" ==> node == Find(root, UnescapeAll(Split(name)).value)
    ensures node.None? ==> parent == None && ndx == -1
    ensures name != "" && node.Some? ==>
              var path := UnescapeAll(Split(name)).value;
              && path != [] && parent.Some? && parent == Find(root, path[..|path| - 1])
              && ndx == LowerBound(parent.value.children, path[|path| - 1])
  {
    if name == "" {
      return Some(root), None, -1;
    }
    var split := Split(name);
    ghost var path := UnescapeAll(split).value;
    UnescapeAllAt(split, 0);
    node, parent, ndx := Some(root), None, -1;
    var i := 0;
    while node.Some? && i < |split|
      invariant i <= |split| == |path|
      invariant node == Find(root, path[..i])
      invariant node.Some? && i > 0 ==>
                  parent.Some? && parent == Find(root, path[..i - 1]) && ndx == LowerBound(parent.value.children, path[i - 1])
      decreases |split| - i
    {
      UnescapeAllAt(split, i);
      FindNext(root, path, i);
      var unescaped := UnescapeName(split[i]);
      parent := node;
      node, ndx := LookupChild(parent, CString(unescaped.value));
      i := i + 1;
    }
    if node.None? {
      FindBeyond(root, path[..i], path);
      parent, ndx := None, -1;
    } else {
      assert path[..i] == path;
    }
  }

  lemma FindBeyond(n: Node, p: seq<string>, q: seq<string>)
    requires Find(n, p).None? && p <= q
    ensures Find(n, q).None?
  {
    AbsentBelow(n, p, q);
  }
}
