/**
 Reading the SZIG tree from outside: GETVALUE, GETCHILD and GETSBLNG on the server
 (lib/szig.cc), the reply handling of zorpctl/szig.py, and the walk of
 zorpctl/ProcessAlgorithms.py that asks for one child or sibling at a time.
 */
module SzigWalk {
  import opened Options
  import opened SzigNames
  import opened SzigTree

  // ---------------------------------------------------------------- the client's reading of a reply

  function StripNewline(s: string): string { if s != "" && s[|s| - 1] == '\n' then s[..|s| - 1] else s }

  /** The status prefixes "OK " and "FAIL ". */
  predicate HasOk(s: string) { |s| >= 3 && s[0] == 'O' && s[1] == 'K' && s[2] == ' ' }

  predicate HasFail(s: string) { |s| >= 5 && s[0] == 'F' && s[1] == 'A' && s[2] == 'I' && s[3] == 'L' && s[4] == ' ' }

  function CutPrefix(s: string): string {
    if HasOk(s) then s[3..] else if HasFail(s) then s[5..] else s
  }

  predicate SaysNone(s: string) { |s| == 4 && s[0] == 'N' && s[1] == 'o' && s[2] == 'n' && s[3] == 'e' }

  /** A line of response as the client reads it. */
  function Reading(line: string): Option<string> {
    var s := CutPrefix(line);
    if SaysNone(s) then None else Some(s)
  }

  /** What get_value, get_child and get_sibling return for a response. */
  function Reply(response: string): Option<string> { Reading(StripNewline(response)) }

  predicate Plain(v: string) { v != "None" && !HasOk(v) && !HasFail(v) }

  lemma SaysNoneIs(s: string)
    ensures SaysNone(s) <==> s == "None"
  {
  }

  lemma ReplyReads(line: string)
    ensures Reply(line + "\n") == Reading(line)
  {
    assert StripNewline(line + "\n") == line;
  }

  lemma ReadingExact(v: string)
    ensures Reading(v) == Some(v) <==> Plain(v)
  {
    SaysNoneIs(v);
    assert |CutPrefix(v)| < |v| <==> CutPrefix(v) != v;
  }

  lemma PrefixIs(s: string)
    ensures HasOk(s) <==> "OK " <= s
    ensures HasFail(s) <==> "FAIL " <= s
  {
    if HasOk(s) {
      assert s[..3] == "OK ";
    }
    if HasFail(s) {
      assert s[..5] == "FAIL ";
    }
  }

  /** A value comes through unchanged exactly when it does not read as `None` or begin like a status. */
  lemma ReplyExact(v: string)
    ensures Reply(v + "\n") == Some(v) <==> v != "None" && !("OK " <= v) && !("FAIL " <= v)
  {
    PrefixIs(v);
    ReplyReads(v);
    ReadingExact(v);
  }

  /** A status is taken off a response, once. */
  lemma StatusIsCut(v: string)
    ensures Reply("OK " + v + "\n") == Reply("FAIL " + v + "\n") == if v == "None" then None else Some(v)
  {
    var ok, fail := "OK " + v, "FAIL " + v;
    ReplyReads(ok);
    ReplyReads(fail);
    assert ok[3..] == v && fail[5..] == v;
    SaysNoneIs(v);
  }

  lemma NoneReply()
    ensures Reply("None\n").None?
  {
    assert "None" + "\n" == "None\n";
    ReplyReads("None");
  }

  // ---------------------------------------------------------------- what a walk should give

  datatype Walked = Nothing | Leaf(value: string) | Dict(items: seq<Entry>)

  datatype Entry = Entry(key: string, item: Walked)

  /** Every name in the tree is a C string. */
  predicate CNames(n: Node) { forall i :: 0 <= i < |n.children| ==> IsName(n.children[i].name) && CNames(n.children[i]) }

  /** The GETVALUE response: z_szig_value_repr and a newline. */
  function ValueResponse(v: Option<string>): string { if v.Some? then v.value + "\n" else "None\n" }

  /** A node's value as the client sees it. */
  function Seen(v: Option<string>): Option<string> { if v.Some? then Reading(v.value) else None }

  lemma ValueReply(v: Option<string>)
    ensures Reply(ValueResponse(v)) == Seen(v)
  {
    if v.Some? {
      ReplyReads(v.value);
    } else {
      NoneReply();
    }
  }

  function Rebuild(n: Node): Walked
    requires CNames(n)
    decreases n, |n.children| + 1
  {
    var seen := Seen(n.value);
    if seen.Some? then Leaf(seen.value)
    else if n.children == [] then Nothing
    else Dict(Pairs(n, |n.children|))
  }

  /** The entries for the first k children, in order. */
  function Pairs(n: Node, k: nat): (r: seq<Entry>)
    requires CNames(n) && k <= |n.children|
    ensures |r| == k
    decreases n, k
  {
    if k == 0 then [] else Pairs(n, k - 1) + [Entry(Escape(n.children[k - 1].name), Rebuild(n.children[k - 1]))]
  }

  // ---------------------------------------------------------------- the tree back from a walk

  function Restore(name: string, w: Walked): Node
    decreases w, if w.Dict? then |w.items| + 1 else 0
  {
    match w
    case Nothing => Node(name, None, [])
    case Leaf(v) => Node(name, Some(v), [])
    case Dict(items) => Node(name, None, RestoreItems(w, |items|))
  }

  function RestoreItems(w: Walked, k: nat): (r: seq<Node>)
    requires w.Dict? && k <= |w.items|
    ensures |r| == k
    decreases w, k
  {
    if k == 0 then [] else RestoreItems(w, k - 1) + [Restore(NameOf(w.items[k - 1].key), w.items[k - 1].item)]
  }

  function NameOf(key: string): string { if Unescape(key).Some? then Unescape(key).value else "" }

  /** Valued nodes are leaves and their values are plain. */
  predicate Restorable(n: Node) {
    && (n.value.Some? ==> n.children == [] && Plain(n.value.value))
    && forall i :: 0 <= i < |n.children| ==> Restorable(n.children[i])
  }

  /** The walk gives back the tree exactly when it is restorable. */
  lemma {:induction false} RestoreExact(n: Node)
    requires CNames(n)
    ensures Restore(n.name, Rebuild(n)) == n <==> Restorable(n)
    decreases n, |n.children| + 1
  {
    if n.value.Some? {
      ReadingExact(n.value.value);
    } else {
      if n.children != [] {
        RestoreChildren(n);
      }
    }
  }

  lemma {:induction false} RestoreChildren(n: Node)
    requires CNames(n)
    ensures RestoreItems(Dict(Pairs(n, |n.children|)), |n.children|) == n.children <==>
            forall i :: 0 <= i < |n.children| ==> Restorable(n.children[i])
    decreases n, 0
  {
    var w, c := Dict(Pairs(n, |n.children|)), n.children;
    var r := RestoreItems(w, |c|);
    forall i | 0 <= i < |c|
      ensures r[i] == c[i] <==> Restorable(c[i])
    {
      PairsAt(n, |c|, i);
      RestoreExact(c[i]);
      NameOfEscape(c[i].name);
      RestoreItemsAt(w, |c|, i);
    }
  }

  lemma {:induction false} PairsAt(n: Node, k: nat, i: nat)
    requires CNames(n) && i < k <= |n.children|
    ensures Pairs(n, k)[i] == Entry(Escape(n.children[i].name), Rebuild(n.children[i]))
    decreases k
  {
    if i < k - 1 {
      PairsAt(n, k - 1, i);
    }
  }

  lemma {:induction false} RestoreItemsAt(w: Walked, k: nat, i: nat)
    requires w.Dict? && i < k <= |w.items|
    ensures RestoreItems(w, k)[i] == Restore(NameOf(w.items[i].key), w.items[i].item)
    decreases k
  {
    if i < k - 1 {
      RestoreItemsAt(w, k - 1, i);
    }
  }

  lemma NameOfEscape(s: string)
    requires IsName(s)
    ensures NameOf(Escape(s)) == s
  {
    EscapeRoundTrip(s);
  }

  // ---------------------------------------------------------------- the server's commands

  /** A name whose unescaping does not overrun. */
  predicate Readable(name: string) { name != "" ==> UnescapeAll(Split(name)).Some? }

  function Lookup(root: Node, name: string): Option<Node>
    requires Readable(name)
  {
    if name == "" then Some(root) else Find(root, UnescapeAll(Split(name)).value)
  }

  lemma {:induction false} FindNames(n: Node, p: seq<string>)
    requires CNames(n)
    ensures Find(n, p).Some? ==> CNames(Find(n, p).value)
    decreases |p|
  {
    if p != [] && Child(n.children, p[0]).Some? {
      FindNames(Child(n.children, p[0]).value, p[1..]);
    }
  }

  /** z_szig_node_print_full_name. */
  method PrintFullName(prefix: string, node: Node) returns (buf: string)
    requires IsName(node.name)
    ensures buf == Joined(prefix, node.name) + "\n"
  {
    var escaped := EscapeName(node.name);
    if |prefix| > 0 {
      buf := prefix + "." + escaped + "\n";
    } else {
      buf := escaped + "\n";
    }
  }

  function Joined(prefix: string, name: string): string
    requires IsName(name)
  {
    if prefix == "" then Escape(name) else prefix + "." + Escape(name)
  }

  method GetValue(root: Node, name: string) returns (response: string)
    requires WellFormed(root) && Readable(name)
    ensures response == match Lookup(root, name) case None => "None\n" case Some(n) => ValueResponse(n.value)
  {
    var node, _, _ := TreeLookup(root, name);
    response := "None\n";
    if node.Some? {
      response := ValueResponse(node.value.value);
    }
  }

  method GetChild(root: Node, name: string) returns (response: string)
    requires WellFormed(root) && CNames(root) && Readable(name)
    ensures var n := Lookup(root, name);
            if n.Some? && n.value.children != [] then
              IsName(n.value.children[0].name) && response == Joined(name, n.value.children[0].name) + "\n"
            else response == "None\n"
  {
    var node, _, _ := TreeLookup(root, name);
    response := "None\n";
    if node.Some? && |node.value.children| > 0 {
      if name != "" {
        FindNames(root, UnescapeAll(Split(name)).value);
      }
      response := PrintFullName(name, node.value.children[0]);
    }
  }

  /** The loop that cuts the last piece off a name. */
  method Trim(name: string) returns (r: string)
    requires name != ""
    ensures r == Trimmed(name)
  {
    var e := |name| - 1;
    while e > 0 && name[e] != '.'
      invariant 0 <= e < |name|
      invariant forall j :: e < j < |name| ==> name[j] != '.'
    {
      e := e - 1;
    }
    var k := LastPieceAt(name);
    assert k <= e + 1;
    r := name[..e];
  }

  /** The node after this one in its parent's array, under the parent's name. */
  method GetSibling(root: Node, name: string) returns (response: string)
    requires WellFormed(root) && CNames(root) && Readable(name)
    ensures name == "" || Lookup(root, name).None? ==> response == "None\n"
    ensures name != "" && Lookup(root, name).Some? ==>
              var path := UnescapeAll(Split(name)).value;
              && path != []
              && var parent := Find(root, path[..|path| - 1]);
              && parent.Some?
              && var k := LowerBound(parent.value.children, path[|path| - 1]) + 1;
              if k < |parent.value.children| then
                IsName(parent.value.children[k].name) && response == Joined(Trimmed(name), parent.value.children[k].name) + "\n"
              else response == "None\n"
  {
    var node, parent, ndx := TreeLookup(root, name);
    response := "None\n";
    if node.Some? && parent.Some? && |parent.value.children| - 1 > ndx {
      FindNames(root, UnescapeAll(Split(name)).value[..|UnescapeAll(Split(name)).value| - 1]);
      var prefix := Trim(name);
      response := PrintFullName(prefix, parent.value.children[ndx + 1]);
    }
  }

  // ---------------------------------------------------------------- printed names as commands

  /** A printed full name looks up the node it was printed for. */
  lemma LookupPrinted(root: Node, path: seq<string>)
    requires IsPath(path)
    ensures Readable(FullName(path)) && Lookup(root, FullName(path)) == Find(root, path)
  {
    FullNameStep(path);
    if path != [] {
      FullNameReadsBack(path);
    }
  }

  lemma JoinedIsFullName(path: seq<string>, name: string)
    requires IsPath(path) && IsName(name) && (path == [] ==> name != "")
    ensures IsPath(path + [name]) && Joined(FullName(path), name) == FullName(path + [name])
  {
    var p := path + [name];
    assert p[..|p| - 1] == path && p[|p| - 1] == name;
    FullNameStep(path);
    FullNameStep(p);
  }

  lemma {:induction false} UnescapePlain(s: string)
    requires forall i :: 0 <= i < |s| ==> s[i] != '%'
    ensures Unescape(s) == Some(s)
  {
    if s != "" {
      UnescapePlain(s[1..]);
      assert [s[0]] + s[1..] == s;
    }
  }

  lemma EscapedNone(n: string)
    requires IsName(n)
    ensures Escape(n) == "None" ==> n == "None"
  {
    EscapeRoundTrip(n);
    UnescapePlain("None");
  }

  /** A reply naming a node is read back as that name exactly when it is not a top-level node called None. */
  lemma NameReply(path: seq<string>)
    requires IsPath(path) && path != []
    ensures FullName(path) != ""
    ensures Reply(FullName(path) + "\n") == Some(FullName(path)) <==> path != ["None"]
  {
    FullNameStep(path);
    FullNameHasNoBlank(path);
    NoBlankIsPlain(FullName(path));
    ReplyExact(FullName(path));
    if path == ["None"] {
      TopNone();
    } else {
      NotNone(path);
    }
  }

  lemma NoBlankIsPlain(s: string)
    requires ' ' !in s
    ensures Plain(s) <==> s != "None"
  {
    assert forall i :: 0 <= i < |s| ==> s[i] != ' ';
  }

  lemma TopNone()
    ensures FullName(["None"]) == "None"
  {
    EscapePlain("None");
    assert ["None"][..0] == [];
  }

  lemma NotNone(path: seq<string>)
    requires IsPath(path) && path != [] && path != ["None"]
    ensures FullName(path) != "None"
  {
    FullNameStep(path);
    var init, n := path[..|path| - 1], path[|path| - 1];
    if init == [] {
      assert path == [n];
      EscapedNone(n);
    } else {
      assert FullName(path)[|FullName(init)|] == '.';
      assert '.' in FullName(path);
      assert '.' !in "None";
    }
  }

  // ---------------------------------------------------------------- the walk

  /** The walk goes on only with a reply that is neither absent nor empty. */
  predicate Truthy(reply: Option<string>) { reply.Some? && reply.value != "" }

  /** Top-level names that the protocol cannot express. */
  predicate Blocked(name: string) { name == "" || name == "None" }

  function FirstBlocked(c: seq<Node>): (k: nat)
    ensures k <= |c| && (k < |c| ==> Blocked(c[k].name))
    ensures forall i :: 0 <= i < k ==> !Blocked(c[i].name)
  {
    if c == [] || Blocked(c[0].name) then 0 else 1 + FirstBlocked(c[1..])
  }

  /** How many children of a node the walk gets to see. */
  function Reach(node: Node, top: bool): (k: nat)
    ensures k <= |node.children|
  {
    if top then FirstBlocked(node.children) else |node.children|
  }

  function RebuildAt(n: Node, top: bool): Walked
    requires CNames(n)
  {
    var seen := Seen(n.value);
    if seen.Some? then Leaf(seen.value)
    else if Reach(n, top) == 0 then Nothing
    else Dict(Pairs(n, Reach(n, top)))
  }

  /** Where the walk is: the node a printed name stands for. */
  ghost predicate Stands(root: Node, name: string, path: seq<string>, node: Node) {
    WellFormed(root) && CNames(root) && IsPath(path) && name == FullName(path) && Find(root, path) == Some(node)
  }

  lemma StandsMeans(root: Node, name: string, path: seq<string>, node: Node)
    requires Stands(root, name, path, node)
    ensures Readable(name) && Lookup(root, name) == Some(node) && WellFormed(node) && CNames(node)
  {
    LookupPrinted(root, path);
    FindWellFormed(root, path);
    FindNames(root, path);
  }

  function ChildName(name: string, node: Node, k: nat): string
    requires CNames(node) && k < |node.children|
  {
    Joined(name, node.children[k].name)
  }

  lemma StandsAtChild(root: Node, name: string, path: seq<string>, node: Node, k: nat)
    requires Stands(root, name, path, node) && CNames(node) && k < Reach(node, path == [])
    ensures Stands(root, ChildName(name, node, k), path + [node.children[k].name], node.children[k])
    ensures Reading(ChildName(name, node, k)) == Some(ChildName(name, node, k)) && ChildName(name, node, k) != ""
    ensures LastPiece(ChildName(name, node, k)) == Escape(node.children[k].name)
  {
    var n := node.children[k].name;
    var q := path + [n];
    JoinedIsFullName(path, n);
    FindWellFormed(root, path);
    ChildAt(node.children, k);
    FindSnoc(root, path, n);
    assert q[..|q| - 1] == path && q[|q| - 1] == n;
    FullNamePieces(q);
    NameReply(q);
    ReplyReads(FullName(q));
  }

  lemma BlockedReading(name: string)
    requires IsName(name) && Blocked(name)
    ensures !Truthy(Reading(Joined("", name)))
  {
    if name != "" {
      EscapePlain("None");
    }
  }

  lemma {:induction false} EscapePlain(s: string)
    requires IsName(s) && forall i :: 0 <= i < |s| ==> !Special(s[i])
    ensures Escape(s) == s
  {
    if s != "" {
      EscapePlain(s[1..]);
    }
  }

  /** The line that names child k, or says that there is none. */
  function ChildLine(name: string, node: Node, k: nat): string
    requires CNames(node)
  {
    if k < |node.children| then ChildName(name, node, k) else "None"
  }

  /** That line as the walk reads it. */
  lemma ChildReading(root: Node, name: string, path: seq<string>, node: Node, k: nat)
    requires Stands(root, name, path, node) && CNames(node) && k <= Reach(node, path == [])
    ensures var r := Reading(ChildLine(name, node, k));
            if k < Reach(node, path == []) then r == Some(ChildName(name, node, k)) && Truthy(r) else !Truthy(r)
  {
    if k < Reach(node, path == []) {
      StandsAtChild(root, name, path, node, k);
    } else if k < |node.children| {
      BlockedReading(node.children[k].name);
    }
  }

  /** get_child on the node the walk stands at. */
  method AskChild(root: Node, name: string, ghost path: seq<string>, ghost node: Node) returns (child: Option<string>)
    requires Stands(root, name, path, node) && CNames(node)
    ensures if Reach(node, path == []) > 0 then child == Some(ChildName(name, node, 0)) && Truthy(child) else !Truthy(child)
  {
    StandsMeans(root, name, path, node);
    var response := GetChild(root, name);
    child := Read(response, ChildLine(name, node, 0));
    ChildReading(root, name, path, node, 0);
  }

  /** The client's reading of one line of response. */
  method Read(response: string, ghost line: string) returns (r: Option<string>)
    requires response == line + "\n"
    ensures r == Reading(line)
  {
    r := Reply(response);
    ReplyReads(line);
  }

  /** Where the server finds child k of the node at path by its printed name. */
  lemma SiblingAt(root: Node, name: string, path: seq<string>, node: Node, k: nat)
    requires Stands(root, name, path, node) && CNames(node) && k < Reach(node, path == [])
    ensures var s, q := ChildName(name, node, k), path + [node.children[k].name];
            && s != "" && Readable(s) && UnescapeAll(Split(s)).value == q && q[..|q| - 1] == path
            && Trimmed(s) == name && Lookup(root, s) == Some(node.children[k])
    ensures Sorted(node.children) && LowerBound(node.children, node.children[k].name) == k
  {
    var s, q := ChildName(name, node, k), path + [node.children[k].name];
    StandsMeans(root, name, path, node);
    StandsAtChild(root, name, path, node, k);
    StandsMeans(root, s, q, node.children[k]);
    FullNameReadsBack(q);
    assert q[..|q| - 1] == path;
    FullNamePieces(q);
    ChildAt(node.children, k);
  }

  /** What the server says to GETSBLNG on child k. */
  method ServeSibling(root: Node, sibling: string, ghost name: string, ghost path: seq<string>, ghost node: Node, ghost k: nat)
    returns (response: string)
    requires Stands(root, name, path, node) && CNames(node) && k < Reach(node, path == []) && sibling == ChildName(name, node, k)
    ensures response == ChildLine(name, node, k + 1) + "\n"
  {
    SiblingAt(root, name, path, node, k);
    response := GetSibling(root, sibling);
  }

  /** get_sibling on child k of the node at path. */
  method AskSibling(root: Node, sibling: string, ghost name: string, ghost path: seq<string>, ghost node: Node, ghost k: nat)
    returns (next: Option<string>)
    requires Stands(root, name, path, node) && CNames(node) && k < Reach(node, path == []) && sibling == ChildName(name, node, k)
    ensures if k + 1 < Reach(node, path == []) then next == Some(ChildName(name, node, k + 1)) && Truthy(next) else !Truthy(next)
  {
    var response := ServeSibling(root, sibling, name, path, node, k);
    next := Read(response, ChildLine(name, node, k + 1));
    ChildReading(root, name, path, node, k + 1);
  }

  /** Assignment to a dictionary key. */
  function Put(d: seq<Entry>, e: Entry): seq<Entry> {
    if d == [] then [e]
    else if d[0].key == e.key then [e] + d[1..]
    else [d[0]] + Put(d[1..], e)
  }

  lemma {:induction false} PutFresh(d: seq<Entry>, e: Entry)
    requires forall i :: 0 <= i < |d| ==> d[i].key != e.key
    ensures Put(d, e) == d + [e]
  {
    if d != [] {
      PutFresh(d[1..], e);
    }
  }

  /** Two children never share a dictionary key. */
  lemma KeyIsFresh(n: Node, k: nat)
    requires WellFormed(n) && CNames(n) && k < |n.children|
    ensures forall i :: 0 <= i < k ==> Pairs(n, k)[i].key != Escape(n.children[k].name)
  {
    forall i | 0 <= i < k
      ensures Pairs(n, k)[i].key != Escape(n.children[k].name)
    {
      PairsAt(n, k, i);
      EscapeRoundTrip(n.children[i].name);
      EscapeRoundTrip(n.children[k].name);
      LessTotal(n.children[i].name, n.children[k].name);
    }
  }

  /** SzigWalkAlgorithm.walk: what it returns for the node it was started at. */
  method Walk(root: Node, name: string, ghost path: seq<string>, ghost node: Node) returns (w: Walked)
    requires Stands(root, name, path, node) && CNames(node)
    ensures w == RebuildAt(node, path == [])
    decreases node, 2
  {
    StandsMeans(root, name, path, node);
    var response := GetValue(root, name);
    ValueReply(node.value);
    var value := Reply(response);
    if value.Some? {
      return Leaf(value.value);
    }
    w := GetChilds(root, name, path, node);
  }

  lemma PairsNext(n: Node, k: nat)
    requires WellFormed(n) && CNames(n) && k < |n.children|
    ensures Put(Pairs(n, k), Entry(Escape(n.children[k].name), Rebuild(n.children[k]))) == Pairs(n, k + 1)
  {
    KeyIsFresh(n, k);
    PutFresh(Pairs(n, k), Entry(Escape(n.children[k].name), Rebuild(n.children[k])));
  }

  /** One entry of the result: walk the sibling, store it under its last piece, ask for the next one. */
  method Visit(root: Node, sibling: string, items: seq<Entry>, ghost name: string, ghost path: seq<string>, ghost node: Node, ghost k: nat)
    returns (r: seq<Entry>, next: Option<string>)
    requires Stands(root, name, path, node) && CNames(node) && k < Reach(node, path == []) && sibling == ChildName(name, node, k)
    requires items == Pairs(node, k)
    ensures r == Pairs(node, k + 1)
    ensures if k + 1 < Reach(node, path == []) then next == Some(ChildName(name, node, k + 1)) && Truthy(next) else !Truthy(next)
    decreases node, 0
  {
    StandsAtChild(root, name, path, node, k);
    var item := Walk(root, sibling, path + [node.children[k].name], node.children[k]);
    FindWellFormed(root, path);
    PairsNext(node, k);
    r := Put(items, Entry(LastPiece(sibling), item));
    next := AskSibling(root, sibling, name, path, node, k);
  }

  /** SzigWalkAlgorithm.getChilds: every child it can see once, in order. */
  method GetChilds(root: Node, name: string, ghost path: seq<string>, ghost node: Node) returns (w: Walked)
    requires Stands(root, name, path, node) && CNames(node)
    ensures w == if Reach(node, path == []) == 0 then Nothing else Dict(Pairs(node, Reach(node, path == [])))
    decreases node, 1
  {
    var sibling := AskChild(root, name, path, node);
    if !Truthy(sibling) {
      return Nothing;
    }
    var items: seq<Entry>;
    ghost var k := 1;
    items, sibling := Visit(root, sibling.value, [], name, path, node, 0);
    while Truthy(sibling)
      invariant k <= Reach(node, path == []) && items == Pairs(node, k)
      invariant if k < Reach(node, path == []) then sibling == Some(ChildName(name, node, k)) && Truthy(sibling) else !Truthy(sibling)
      decreases |node.children| - k
    {
      items, sibling := Visit(root, sibling.value, items, name, path, node, k);
      k := k + 1;
    }
    w := Dict(items);
  }

  lemma RestoreTop(root: Node)
    requires CNames(root)
    ensures Restore(root.name, RebuildAt(root, true)) == root <==>
            Restorable(root) && forall i :: 0 <= i < |root.children| ==> !Blocked(root.children[i].name)
  {
    RestoreExact(root);
    var k := Reach(root, true);
    if Seen(root.value).None? && k < |root.children| {
      assert |Restore(root.name, RebuildAt(root, true)).children| == k;
    }
  }

  /** A tree of one valued node called None is walked to nothing at all. */
  lemma TopNoneIsLost(v: string)
    requires Plain(v)
    ensures var root := Node("", None, [Node("None", Some(v), [])]);
            && WellFormed(root) && CNames(root) && Restorable(root)
            && RebuildAt(root, true) == Nothing && Restore(root.name, RebuildAt(root, true)) != root
  {
    var leaf := Node("None", Some(v), []);
    assert WellFormed(leaf) && CNames(leaf) && Restorable(leaf);
    assert Blocked(leaf.name);
  }

  /**
   A walk from the root gives the tree back exactly when valued nodes are leaves with
   plain values and no top-level node is unnamed or called None.
   */
  method WalkAll(root: Node) returns (w: Walked)
    requires WellFormed(root) && CNames(root)
    ensures Restore(root.name, w) == root <==>
            Restorable(root) && forall i :: 0 <= i < |root.children| ==> !Blocked(root.children[i].name)
  {
    w := Walk(root, "", [], root);
    RestoreTop(root);
  }
}
