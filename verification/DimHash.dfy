/**
 The multi-dimensional hash (lib/dimhash.cc): entries are kept under a composite
 of the key parts, and a search generalises the parts, in place, until one hits.

 `Enumerate` lists the key vectors a search tries, in order; the search returns
 the first of them that is in the table.
 */
module DimHash {
  import opened Options

  const WILDCARD := 1
  const CONSUME := 2
  const MAX_KEYNUM := 5
  const MAX_KEYSIZE := 100
  const KEY_BUFFER := MAX_KEYNUM * (MAX_KEYSIZE + 2) + 1

  // ---------------------------------------------------------------- generalising one part

  /** z_dim_hash_nextstep. */
  function NextStep(key: string, flag: nat): Option<string> {
    if key == "" then None
    else if flag == WILDCARD then Some("")
    else if flag == CONSUME then Some(key[..|key| - 1])
    else None
  }

  /** The part itself and its generalisations, most specific first. */
  function Chain(key: string, flag: nat): seq<string>
    decreases |key|
  {
    [key] + match NextStep(key, flag)
            case None => []
            case Some(k) => Chain(k, flag)
  }

  // ---------------------------------------------------------------- the enumeration

  /** The key vectors that extend `prefix`: the product of the chains of the other parts,
      the last part varying fastest. */
  function Enumerate(prefix: seq<string>, parts: seq<string>, flags: seq<nat>): seq<seq<string>>
    requires |prefix| <= |parts| <= |flags|
    decreases |parts| - |prefix|, 0, 0
  {
    if |prefix| == |parts| then [prefix]
    else EnumerateChain(prefix, Chain(parts[|prefix|], flags[|prefix|]), parts, flags)
  }

  function EnumerateChain(prefix: seq<string>, chain: seq<string>, parts: seq<string>, flags: seq<nat>): seq<seq<string>>
    requires |prefix| < |parts| <= |flags|
    decreases |parts| - |prefix| - 1, 1, |chain|
  {
    if chain == [] then []
    else Enumerate(prefix + [chain[0]], parts, flags) + EnumerateChain(prefix, chain[1..], parts, flags)
  }

  function FirstHit<V>(hash: map<string, V>, vectors: seq<seq<string>>): Option<V> {
    if vectors == [] then None
    else match Find(hash, vectors[0])
         case Some(v) => Some(v)
         case None => FirstHit(hash, vectors[1..])
  }

  /** All vectors tried by a search: of all the parts, then of ever fewer. */
  function SearchOrder(parts: seq<string>, flags: seq<nat>): seq<seq<string>>
    requires |parts| <= |flags|
    decreases |parts|
  {
    if parts == [] then [] else Enumerate([], parts, flags) + SearchOrder(parts[..|parts| - 1], flags)
  }

  // ---------------------------------------------------------------- composite keys

  /** An unspecified part: empty, or a lone asterisk. */
  function Normal(part: string): string { if part == "*" then "" else part }

  function Normals(parts: seq<string>): (r: seq<string>)
    ensures |r| == |parts| && forall i :: 0 <= i < |parts| ==> r[i] == Normal(parts[i])
  {
    if parts == [] then [] else Normals(parts[..|parts| - 1]) + [Normal(parts[|parts| - 1])]
  }

  function Joined(parts: seq<string>): string {
    if parts == [] then ""
    else if |parts| == 1 then Normal(parts[0])
    else Joined(parts[..|parts| - 1]) + "::" + Normal(parts[|parts| - 1])
  }

  function TotalLength(parts: seq<string>): nat {
    if parts == [] then 0 else TotalLength(parts[..|parts| - 1]) + |parts[|parts| - 1]|
  }

  /** z_dim_hash_table_makekey: the composite key, unless the parts are longer than the buffer. */
  function MakeKey(parts: seq<string>): Option<string> {
    if TotalLength(parts) > KEY_BUFFER then None else Some(Joined(parts))
  }

  function Find<V>(hash: map<string, V>, parts: seq<string>): Option<V> {
    match MakeKey(parts)
    case Some(k) => if k in hash then Some(hash[k]) else None
    case None => None
  }

  /** The limits of the header: the key and its terminator fit the buffer. */
  lemma {:induction false} KeyFits(parts: seq<string>)
    requires |parts| <= MAX_KEYNUM && forall p :: p in parts ==> |p| <= MAX_KEYSIZE
    ensures MakeKey(parts).Some?
    ensures |Joined(parts)| + 1 <= KEY_BUFFER
  {
    Lengths(parts);
  }

  lemma {:induction false} Lengths(parts: seq<string>)
    requires forall p :: p in parts ==> |p| <= MAX_KEYSIZE
    ensures TotalLength(parts) <= |parts| * MAX_KEYSIZE
    ensures |Joined(parts)| <= |parts| * (MAX_KEYSIZE + 2)
  {
    if parts != [] {
      var init := parts[..|parts| - 1];
      assert parts[|parts| - 1] in parts && forall p :: p in init ==> p in parts;
      Lengths(init);
    }
  }

  predicate NoColon(parts: seq<string>) { forall p :: p in parts ==> ':' !in p }

  lemma LastColon(x: string, a: string)
    requires ':' !in a
    ensures var s := x + "::" + a; s[|x| + 1] == ':' && forall k :: |x| + 1 < k < |s| ==> s[k] != ':'
  {
    var s := x + "::" + a;
    forall k | |x| + 1 < k < |s| ensures s[k] != ':' {
      assert s[k] == a[k - |x| - 2];
    }
  }

  /** The last part is what follows the last colon. */
  lemma LastPart(x: string, a: string, y: string, b: string)
    requires ':' !in a && ':' !in b && x + "::" + a == y + "::" + b
    ensures x == y && a == b
  {
    var s := x + "::" + a;
    LastColon(x, a);
    LastColon(y, b);
    assert |x| == |y|;
    assert x == s[..|x|] && y == s[..|y|];
    assert a == s[|x| + 2..] && b == s[|y| + 2..];
  }

  lemma HasColon(p: seq<string>)
    requires p != [] && NoColon(p)
    ensures ':' in Joined(p) <==> |p| > 1
  {
    assert p[0] in p;
    if |p| > 1 {
      assert Joined(p)[|Joined(p[..|p| - 1])|] == ':';
    }
  }

  /** Composite keys are injective up to an asterisk standing for an empty part. */
  lemma {:induction false} KeyInjective(p: seq<string>, q: seq<string>)
    requires p != [] && q != [] && NoColon(p) && NoColon(q) && Joined(p) == Joined(q)
    ensures Normals(p) == Normals(q)
    decreases |p|
  {
    HasColon(p);
    HasColon(q);
    if |p| > 1 {
      var p', q' := p[..|p| - 1], q[..|q| - 1];
      assert p[|p| - 1] in p && q[|q| - 1] in q;
      LastPart(Joined(p'), Normal(p[|p| - 1]), Joined(q'), Normal(q[|q| - 1]));
      assert NoColon(p') && NoColon(q');
      KeyInjective(p', q');
    }
  }

  lemma {:induction false} JoinedOfNormals(p: seq<string>, q: seq<string>)
    requires Normals(p) == Normals(q)
    ensures Joined(p) == Joined(q)
    decreases |p|
  {
    assert |p| == |q|;
    if p != [] {
      var p', q' := p[..|p| - 1], q[..|q| - 1];
      assert Normals(p)[|p| - 1] == Normals(q)[|q| - 1];
      assert Normals(p') == Normals(p)[..|p| - 1] && Normals(q') == Normals(q)[..|q| - 1];
      JoinedOfNormals(p', q');
    }
  }

  /** A table filled through its composite keys is a table of normalised key vectors. */
  lemma InsertThenFind<V>(hash: map<string, V>, p: seq<string>, v: V, q: seq<string>)
    requires p != [] && q != [] && NoColon(p) && NoColon(q) && MakeKey(p).Some? && MakeKey(q).Some?
    ensures Find(hash[Joined(p) := v], q) == if Normals(p) == Normals(q) then Some(v) else Find(hash, q)
    ensures Find(hash - {Joined(p)}, q) == if Normals(p) == Normals(q) then None else Find(hash, q)
  {
    if Normals(p) == Normals(q) {
      JoinedOfNormals(p, q);
    } else if Joined(p) == Joined(q) {
      KeyInjective(p, q);
    }
  }

  /** The key can be cut at `j` into two parts that stand for themselves. */
  predicate CutAt(key: string, j: nat) {
    j + 2 <= |key| && key[j] == ':' && key[j + 1] == ':' && key[..j] != "*" && key[j + 2..] != "*"
  }

  lemma TwoParts(a: string, b: string)
    ensures Joined([a, b]) == Normal(a) + "::" + Normal(b)
  {
    assert [a, b][..1] == [a];
  }

  /** A vector that a table for `least` to `most` parts accepts. */
  predicate Accepted(least: nat, most: nat, q: seq<string>) {
    least <= |q| <= most && MakeKey(q).Some?
  }

  ghost predicate Collides(least: nat, most: nat, p: seq<string>) {
    exists q :: Accepted(least, most, q) && Joined(q) == Joined(p) && Normals(q) != Normals(p)
  }

  /** Every table of the program has two dimensions and accepts vectors of at least one part, or of two.
      Where it accepts one part, a vector of two always meets the one part that reads like its key, if that
      is let through; otherwise vectors meet exactly when the key has another place to be cut at. */
  lemma CollidesExact(least: nat, p: seq<string>)
    requires 1 <= least && Accepted(least, 2, p)
    ensures var key := Joined(p);
            Collides(least, 2, p) <==>
            || (|p| == 2 && least == 1 && |key| <= KEY_BUFFER)
            || exists j :: 0 <= j < |key| && (|p| == 2 ==> j != |Normal(p[0])|) && CutAt(key, j)
  {
    if |p| == 1 {
      OneCollides(p);
    } else {
      TwoCollide(least, p);
    }
  }

  lemma OneCollides(p: seq<string>)
    requires |p| == 1 && MakeKey(p).Some?
    ensures Collides(1, 2, p) <==> exists j :: 0 <= j < |Joined(p)| && CutAt(Joined(p), j)
  {
    var key := Joined(p);
    if q :| Accepted(1, 2, q) && Joined(q) == key && Normals(q) != Normals(p) {
      assert |q| == 1 ==> Normals(q) == [key] == Normals(p);
      assert q == [q[0], q[1]];
      TwoParts(q[0], q[1]);
      CutIsCut(Normal(q[0]), Normal(q[1]));
    }
    if j :| 0 <= j < |key| && CutAt(key, j) {
      SplitPart(p, j);
      assert Accepted(1, 2, [key[..j], key[j + 2..]]);
    }
  }

  /** A part with a place to be cut at shares its key with the two parts. */
  lemma SplitPart(p: seq<string>, j: nat)
    requires |p| == 1 && MakeKey(p).Some? && CutAt(Joined(p), j)
    ensures var key := Joined(p);
            var q := [key[..j], key[j + 2..]];
            MakeKey(q).Some? && Joined(q) == key && Normals(q) != Normals(p)
  {
    var key := Joined(p);
    var c, d := key[..j], key[j + 2..];
    assert key == c + "::" + d;
    TwoParts(c, d);
    Totals(c, d);
    assert p[..0] == [] && |key| <= |p[0]| == TotalLength(p);
  }

  lemma TwoCollide(least: nat, p: seq<string>)
    requires 1 <= least <= 2 == |p| && MakeKey(p).Some?
    ensures var key := Joined(p);
            Collides(least, 2, p) <==>
            (least == 1 && |key| <= KEY_BUFFER) || exists j :: 0 <= j < |key| && j != |Normal(p[0])| && CutAt(key, j)
  {
    var key := Joined(p);
    assert p == [p[0], p[1]];
    if q :| Accepted(least, 2, q) && Joined(q) == key && Normals(q) != Normals(p) {
      if |q| == 2 {
        assert q == [q[0], q[1]];
        SecondCut(p[0], p[1], q[0], q[1]);
      } else {
        assert |key| <= |q[0]| == TotalLength(q);
      }
    }
    if least == 1 && |key| <= KEY_BUFFER {
      OnePart(p);
    }
    if j :| 0 <= j < |key| && j != |Normal(p[0])| && CutAt(key, j) {
      var c, d := OtherVector(p[0], p[1], j);
    }
  }

  /** In a table that accepts fewer parts, the key of two parts is also the key of one. */
  lemma OnePart(p: seq<string>)
    requires |p| == 2 && |Joined(p)| <= KEY_BUFFER
    ensures MakeKey([Joined(p)]).Some? && Joined([Joined(p)]) == Joined(p) && Normals([Joined(p)]) != Normals(p)
  {
    assert p == [p[0], p[1]];
    TwoParts(p[0], p[1]);
    assert |Joined(p)| >= 2;
    assert TotalLength([Joined(p)]) == |Joined(p)|;
  }

  lemma Totals(c: string, d: string)
    ensures TotalLength([c, d]) == |c| + |d|
  {
    var one, two := [c], [c, d];
    assert one[..0] == [] && TotalLength(one) == |c|;
    assert two[..1] == one;
  }

  lemma CutIsCut(a: string, b: string)
    requires a != "*" && b != "*"
    ensures CutAt(a + "::" + b, |a|)
  {
    var key := a + "::" + b;
    assert key[..|a|] == a && key[|a| + 2..] == b;
  }

  lemma SecondCut(a: string, b: string, c: string, d: string)
    requires Joined([a, b]) == Joined([c, d]) && Normals([c, d]) != Normals([a, b])
    ensures |Normal(c)| != |Normal(a)| && CutAt(Joined([a, b]), |Normal(c)|)
  {
    TwoParts(a, b);
    TwoParts(c, d);
    assert Normals([a, b]) == [Normal(a), Normal(b)] && Normals([c, d]) == [Normal(c), Normal(d)];
    CutsDiffer(Normal(a), Normal(b), Normal(c), Normal(d));
  }

  lemma OtherVector(a: string, b: string, j: nat) returns (c: string, d: string)
    requires j != |Normal(a)| && CutAt(Joined([a, b]), j)
    ensures Joined([c, d]) == Joined([a, b]) && Normals([c, d]) != Normals([a, b])
    ensures TotalLength([c, d]) <= TotalLength([a, b])
  {
    TwoParts(a, b);
    Totals(a, b);
    var key := Joined([a, b]);
    c, d := key[..j], key[j + 2..];
    TwoParts(c, d);
    Totals(c, d);
    assert key == c + "::" + d;
    assert Normals([c, d])[0] == c && |c| == j && Normals([a, b])[0] == Normal(a);
  }

  lemma CutsDiffer(a: string, b: string, c: string, d: string)
    requires a + "::" + b == c + "::" + d && (a, b) != (c, d)
    ensures |c| != |a|
    ensures var key := a + "::" + b; key[..|c|] == c && key[|c| + 2..] == d && key[|c|] == ':' && key[|c| + 1] == ':'
  {
    var key := a + "::" + b;
    assert key[..|a|] == a && key[|a| + 2..] == b;
    assert (c + "::" + d)[..|c|] == c && (c + "::" + d)[|c| + 2..] == d;
  }

  /** With a colon in a part, two different vectors can meet in one key. */
  lemma ColonCollides()
    ensures Joined(["a:", "b"]) == Joined(["a", ":b"]) && Normal("a:") != Normal("a")
  {
    TwoParts("a:", "b");
    TwoParts("a", ":b");
    assert "a:" + "::" + "b" == "a:::b" == "a" + "::" + ":b";
  }

  function NormalLength(parts: seq<string>): nat {
    if parts == [] then 0 else NormalLength(parts[..|parts| - 1]) + |Normal(parts[|parts| - 1])|
  }

  /** Which keys fit the buffer with their terminator; the guard of makekey counts neither the
      separators nor the terminator. */
  lemma {:induction false} FitsExact(parts: seq<string>)
    requires parts != []
    ensures |Joined(parts)| == NormalLength(parts) + 2 * (|parts| - 1)
    ensures |Joined(parts)| + 1 <= KEY_BUFFER <==> NormalLength(parts) + 2 * |parts| <= KEY_BUFFER + 1
  {
    if |parts| > 1 {
      FitsExact(parts[..|parts| - 1]);
    } else {
      assert NormalLength(parts[..0]) == 0;
    }
  }

  /** A part as long as the buffer is let through and overruns it. */
  lemma GuardIsShort(part: string)
    requires |part| == KEY_BUFFER
    ensures MakeKey([part]).Some? && |Joined([part])| + 1 > KEY_BUFFER
  {
    assert [part][..|[part]| - 1] == [] && TotalLength([]) == 0;
  }

  // ---------------------------------------------------------------- facts about the enumeration

  lemma {:induction false} FirstHitConcat<V>(hash: map<string, V>, xs: seq<seq<string>>, ys: seq<seq<string>>)
    ensures FirstHit(hash, xs + ys) == if FirstHit(hash, xs).Some? then FirstHit(hash, xs) else FirstHit(hash, ys)
  {
    if xs == [] {
      assert xs + ys == ys;
    } else {
      assert (xs + ys)[1..] == xs[1..] + ys;
      FirstHitConcat(hash, xs[1..], ys);
    }
  }

  /** The vector asked for is tried before any generalisation of it. */
  lemma {:induction false} ExactComesFirst(prefix: seq<string>, parts: seq<string>, flags: seq<nat>)
    requires |prefix| <= |parts| <= |flags| && prefix == parts[..|prefix|]
    ensures Enumerate(prefix, parts, flags) != [] && Enumerate(prefix, parts, flags)[0] == parts
    decreases |parts| - |prefix|
  {
    if |prefix| < |parts| {
      ExactComesFirst(prefix + [parts[|prefix|]], parts, flags);
    }
  }

  /** An entry under the very vector asked for always wins. */
  lemma ExactWins<V>(hash: map<string, V>, parts: seq<string>, flags: seq<nat>)
    requires parts != [] && |parts| <= |flags| && Find(hash, parts).Some?
    ensures FirstHit(hash, SearchOrder(parts, flags)) == Find(hash, parts)
  {
    ExactComesFirst([], parts, flags);
  }

  /** A part on a chain: the part itself, the empty wildcard, or a prefix of it. */
  predicate Generalises(k: string, key: string, flag: nat) {
    k == key || (flag == WILDCARD && k == "") || (flag == CONSUME && k <= key)
  }

  lemma {:induction false} ChainExact(key: string, flag: nat, k: string)
    ensures k in Chain(key, flag) <==> Generalises(k, key, flag)
    decreases |key|
  {
    match NextStep(key, flag)
    case None =>
    case Some(next) =>
      ChainExact(next, flag, k);
      if flag == CONSUME {
        assert k <= key <==> k == key || k <= key[..|key| - 1];
      }
  }

  predicate AllGeneralise(v: seq<string>, parts: seq<string>, flags: seq<nat>)
    requires |parts| <= |flags|
  {
    |v| == |parts| && forall i :: 0 <= i < |v| ==> Generalises(v[i], parts[i], flags[i])
  }

  /** The vectors tried for all parts are exactly the generalisations of the parts. */
  lemma {:induction false} EnumerateExact(prefix: seq<string>, parts: seq<string>, flags: seq<nat>, v: seq<string>)
    requires |prefix| <= |parts| <= |flags|
    requires forall i :: 0 <= i < |prefix| ==> Generalises(prefix[i], parts[i], flags[i])
    ensures v in Enumerate(prefix, parts, flags) <==> AllGeneralise(v, parts, flags) && prefix <= v
    decreases |parts| - |prefix|, 0, 0
  {
    if |prefix| < |parts| {
      var chain := Chain(parts[|prefix|], flags[|prefix|]);
      forall k | k in chain ensures Generalises(k, parts[|prefix|], flags[|prefix|]) {
        ChainExact(parts[|prefix|], flags[|prefix|], k);
      }
      EnumerateChainExact(prefix, chain, parts, flags, v);
      if AllGeneralise(v, parts, flags) && prefix <= v {
        ChainExact(parts[|prefix|], flags[|prefix|], v[|prefix|]);
      }
    } else if prefix <= v && |v| == |parts| {
      assert v == prefix;
    }
  }

  lemma {:induction false} EnumerateChainExact(prefix: seq<string>, chain: seq<string>, parts: seq<string>, flags: seq<nat>, v: seq<string>)
    requires |prefix| < |parts| <= |flags|
    requires forall i :: 0 <= i < |prefix| ==> Generalises(prefix[i], parts[i], flags[i])
    requires forall k :: k in chain ==> Generalises(k, parts[|prefix|], flags[|prefix|])
    ensures v in EnumerateChain(prefix, chain, parts, flags) <==>
              AllGeneralise(v, parts, flags) && prefix <= v && v[|prefix|] in chain
    decreases |parts| - |prefix| - 1, 1, |chain|
  {
    if chain != [] {
      var longer := prefix + [chain[0]];
      assert chain[0] in chain && forall k :: k in chain[1..] ==> k in chain;
      EnumerateExact(longer, parts, flags, v);
      EnumerateChainExact(prefix, chain[1..], parts, flags, v);
      assert |v| == |parts| ==> (longer <= v <==> prefix <= v && v[|prefix|] == chain[0]);
    }
  }

  // ---------------------------------------------------------------- the most specific entry wins

  lemma {:induction false} ChainShrinks(key: string, flag: nat, k: string)
    requires k in Chain(key, flag)
    ensures k == key || |k| < |key|
    decreases |key|
  {
    match NextStep(key, flag)
    case None =>
    case Some(next) =>
      if k != key {
        ChainShrinks(next, flag, k);
      }
  }

  /** Links of a chain, most specific first. */
  predicate Shrinking(chain: seq<string>) {
    chain != [] ==> (forall k :: k in chain[1..] ==> |k| < |chain[0]|) && Shrinking(chain[1..])
  }

  lemma {:induction false} ChainIsShrinking(key: string, flag: nat)
    ensures Shrinking(Chain(key, flag))
    decreases |key|
  {
    var chain := Chain(key, flag);
    match NextStep(key, flag)
    case None =>
      assert chain[1..] == [];
    case Some(next) =>
      assert chain[1..] == Chain(next, flag);
      ChainIsShrinking(next, flag);
      forall k | k in chain[1..]
        ensures |k| < |key|
      {
        ChainShrinks(next, flag, k);
      }
  }

  /** At the first part where the two differ, `x` has the more specific one. */
  ghost predicate Leads(x: seq<string>, y: seq<string>) {
    exists i :: 0 <= i < |x| && LeadsAt(x, y, i)
  }

  predicate LeadsAt(x: seq<string>, y: seq<string>, i: nat)
    requires i < |x|
  {
    i < |y| && x[..i] == y[..i] && |y[i]| < |x[i]|
  }

  /** Every vector leads those after it. */
  ghost predicate Descending(xs: seq<seq<string>>) {
    xs != [] ==> (forall y :: y in xs[1..] ==> Leads(xs[0], y)) && Descending(xs[1..])
  }

  lemma {:induction false} DescendingConcat(xs: seq<seq<string>>, ys: seq<seq<string>>)
    requires Descending(xs) && Descending(ys) && forall x, y :: x in xs && y in ys ==> Leads(x, y)
    ensures Descending(xs + ys)
  {
    if xs == [] {
      assert xs + ys == ys;
    } else {
      assert (xs + ys)[1..] == xs[1..] + ys && xs[0] in xs && forall x :: x in xs[1..] ==> x in xs;
      DescendingConcat(xs[1..], ys);
    }
  }

  lemma {:induction false} Extends(prefix: seq<string>, parts: seq<string>, flags: seq<nat>, v: seq<string>)
    requires |prefix| <= |parts| <= |flags| && v in Enumerate(prefix, parts, flags)
    ensures |v| == |parts| && prefix <= v
    decreases |parts| - |prefix|, 0, 0
  {
    if |prefix| < |parts| {
      ExtendsChain(prefix, Chain(parts[|prefix|], flags[|prefix|]), parts, flags, v);
    }
  }

  lemma {:induction false} ExtendsChain(prefix: seq<string>, chain: seq<string>, parts: seq<string>, flags: seq<nat>, v: seq<string>)
    requires |prefix| < |parts| <= |flags| && v in EnumerateChain(prefix, chain, parts, flags)
    ensures |v| == |parts| && prefix <= v && v[|prefix|] in chain
    decreases |parts| - |prefix| - 1, 1, |chain|
  {
    var longer := prefix + [chain[0]];
    if v in Enumerate(longer, parts, flags) {
      Extends(longer, parts, flags, v);
      assert v[|prefix|] == longer[|prefix|];
    } else {
      ExtendsChain(prefix, chain[1..], parts, flags, v);
    }
  }

  lemma {:induction false} EnumerateDescends(prefix: seq<string>, parts: seq<string>, flags: seq<nat>)
    requires |prefix| <= |parts| <= |flags|
    ensures Descending(Enumerate(prefix, parts, flags))
    decreases |parts| - |prefix|, 0, 0
  {
    if |prefix| < |parts| {
      ChainIsShrinking(parts[|prefix|], flags[|prefix|]);
      EnumerateChainDescends(prefix, Chain(parts[|prefix|], flags[|prefix|]), parts, flags);
    } else {
      assert [prefix][1..] == [];
    }
  }

  lemma {:induction false} EnumerateChainDescends(prefix: seq<string>, chain: seq<string>, parts: seq<string>, flags: seq<nat>)
    requires |prefix| < |parts| <= |flags| && Shrinking(chain)
    ensures Descending(EnumerateChain(prefix, chain, parts, flags))
    decreases |parts| - |prefix| - 1, 1, |chain|
  {
    if chain != [] {
      var longer := prefix + [chain[0]];
      var xs, ys := Enumerate(longer, parts, flags), EnumerateChain(prefix, chain[1..], parts, flags);
      EnumerateDescends(longer, parts, flags);
      EnumerateChainDescends(prefix, chain[1..], parts, flags);
      forall x, y | x in xs && y in ys
        ensures Leads(x, y)
      {
        Extends(longer, parts, flags, x);
        ExtendsChain(prefix, chain[1..], parts, flags, y);
        assert x[|prefix|] == longer[|prefix|] && x[..|prefix|] == longer[..|prefix|] == prefix == y[..|prefix|];
        assert LeadsAt(x, y, |prefix|);
      }
      DescendingConcat(xs, ys);
    }
  }

  /** The vector that is hit first, if any is. */
  function FirstVector<V>(hash: map<string, V>, xs: seq<seq<string>>): Option<seq<string>> {
    if xs == [] then None else if Find(hash, xs[0]).Some? then Some(xs[0]) else FirstVector(hash, xs[1..])
  }

  lemma {:induction false} FirstVectorHits<V>(hash: map<string, V>, xs: seq<seq<string>>)
    ensures FirstHit(hash, xs).Some? <==> FirstVector(hash, xs).Some?
    ensures FirstVector(hash, xs).Some? ==> FirstVector(hash, xs).value in xs && FirstHit(hash, xs) == Find(hash, FirstVector(hash, xs).value)
  {
    if xs != [] {
      FirstVectorHits(hash, xs[1..]);
    }
  }

  lemma {:induction false} FirstLeads<V>(hash: map<string, V>, xs: seq<seq<string>>, u: seq<string>)
    requires Descending(xs) && u in xs && Find(hash, u).Some?
    ensures FirstVector(hash, xs).Some? && (u == FirstVector(hash, xs).value || Leads(FirstVector(hash, xs).value, u))
  {
    if Find(hash, xs[0]).None? {
      assert u in xs[1..];
      FirstLeads(hash, xs[1..], u);
    } else if u != xs[0] {
      assert u in xs[1..];
    }
  }

  // ---------------------------------------------------------------- what a search finds

  /** There is an entry for a generalisation of the first `n` parts. */
  ghost predicate HasEntry<V>(hash: map<string, V>, parts: seq<string>, flags: seq<nat>, n: nat, v: seq<string>)
    requires |parts| <= |flags|
  {
    1 <= n <= |parts| && AllGeneralise(v, parts[..n], flags) && Find(hash, v).Some?
  }

  /** It is one of the most parts, and among those it leads all others: the earlier parts are as specific as they can be. */
  ghost predicate Best<V>(hash: map<string, V>, parts: seq<string>, flags: seq<nat>, n: nat, v: seq<string>)
    requires |parts| <= |flags|
  {
    && HasEntry(hash, parts, flags, n, v)
    && (forall m: nat, u :: n < m ==> !HasEntry(hash, parts, flags, m, u))
    && (forall u :: HasEntry(hash, parts, flags, n, u) ==> u == v || Leads(v, u))
  }

  /** The search hits if and only if there is an entry for a generalisation of some first parts, and what it hits is
      the best of them. */
  lemma {:induction false} SearchExact<V>(hash: map<string, V>, parts: seq<string>, flags: seq<nat>)
    requires |parts| <= |flags|
    ensures var r := FirstHit(hash, SearchOrder(parts, flags));
            && (r.Some? <==> exists n: nat, v :: HasEntry(hash, parts, flags, n, v))
            && (r.Some? ==> exists n: nat, v :: Best(hash, parts, flags, n, v) && r == Find(hash, v))
    decreases |parts|
  {
    if parts != [] {
      var xs, fewer := Enumerate([], parts, flags), parts[..|parts| - 1];
      FirstHitConcat(hash, xs, SearchOrder(fewer, flags));
      FirstVectorHits(hash, xs);
      if FirstVector(hash, xs).Some? {
        AllParts(hash, parts, flags);
      } else {
        SearchExact(hash, fewer, flags);
        forall n: nat, v
          ensures HasEntry(hash, parts, flags, n, v) <==> HasEntry(hash, fewer, flags, n, v)
        {
          NotAllParts(hash, parts, flags, n, v);
        }
        forall n: nat, v | Best(hash, fewer, flags, n, v)
          ensures Best(hash, parts, flags, n, v)
        {
        }
      }
    }
  }

  /** A hit among the vectors of all the parts is the best entry. */
  lemma AllParts<V>(hash: map<string, V>, parts: seq<string>, flags: seq<nat>)
    requires 0 < |parts| <= |flags| && FirstVector(hash, Enumerate([], parts, flags)).Some?
    ensures var v := FirstVector(hash, Enumerate([], parts, flags)).value;
            HasEntry(hash, parts, flags, |parts|, v) && Best(hash, parts, flags, |parts|, v)
  {
    var xs := Enumerate([], parts, flags);
    var v := FirstVector(hash, xs).value;
    FirstVectorHits(hash, xs);
    EnumerateDescends([], parts, flags);
    EnumerateExact([], parts, flags, v);
    assert parts[..|parts|] == parts;
    forall u | HasEntry(hash, parts, flags, |parts|, u)
      ensures u == v || Leads(v, u)
    {
      EnumerateExact([], parts, flags, u);
      FirstLeads(hash, xs, u);
    }
  }

  /** Without such a hit the last part does not matter. */
  lemma NotAllParts<V>(hash: map<string, V>, parts: seq<string>, flags: seq<nat>, n: nat, v: seq<string>)
    requires 0 < |parts| <= |flags| && FirstVector(hash, Enumerate([], parts, flags)).None?
    ensures HasEntry(hash, parts, flags, n, v) <==> HasEntry(hash, parts[..|parts| - 1], flags, n, v)
  {
    var xs := Enumerate([], parts, flags);
    if n == |parts| {
      assert parts[..n] == parts;
      EnumerateExact([], parts, flags, v);
      if HasEntry(hash, parts, flags, n, v) {
        EnumerateDescends([], parts, flags);
        FirstLeads(hash, xs, v);
      }
    } else if n < |parts| {
      assert parts[..|parts| - 1][..n] == parts[..n];
    }
  }

  /** There is only one best entry. */
  lemma BestUnique<V>(hash: map<string, V>, parts: seq<string>, flags: seq<nat>, n: nat, v: seq<string>, m: nat, u: seq<string>)
    requires |parts| <= |flags| && Best(hash, parts, flags, n, v) && Best(hash, parts, flags, m, u)
    ensures n == m && v == u
  {
    if v != u {
      OneLeads(v, u);
    }
  }

  lemma OneLeads(x: seq<string>, y: seq<string>)
    requires Leads(x, y)
    ensures !Leads(y, x)
  {
    var i :| 0 <= i < |x| && LeadsAt(x, y, i);
    forall j | 0 <= j < |y|
      ensures !LeadsAt(y, x, j)
    {
      assert j < i ==> x[j] == x[..i][j] == y[..i][j] == y[j];
      assert i < j < |x| ==> x[..j][i] == x[i] && y[..j][i] == y[i];
    }
  }

  /** The best entry is a most specific one: none stands under a vector between it and the parts asked for. */
  lemma MostSpecificWins<V>(hash: map<string, V>, parts: seq<string>, flags: seq<nat>, n: nat, v: seq<string>, u: seq<string>)
    requires |parts| <= |flags| && Best(hash, parts, flags, n, v)
    requires AllGeneralise(u, parts[..n], flags) && AllGeneralise(v, u, flags) && u != v
    ensures Find(hash, u).None?
  {
    forall i | 0 <= i < |v|
      ensures !LeadsAt(v, u, i)
    {
      assert Generalises(v[i], u[i], flags[i]);
    }
    assert !HasEntry(hash, parts, flags, n, u);
  }

  // ---------------------------------------------------------------- imperative form

  class Table<V> {
    var hash: map<string, V>
    const flags: seq<nat>
    const minKeys: nat

    constructor (minKeys: nat, flags: seq<nat>)
      ensures hash == map[] && this.flags == flags && this.minKeys == minKeys
    {
      this.minKeys, this.flags := minKeys, flags;
      hash := map[];
    }

    predicate Accepts(num: nat) { minKeys <= num <= |flags| }

    static method ComposeKey(parts: seq<string>) returns (key: Option<string>)
      requires parts != []
      ensures key == MakeKey(parts)
    {
      var len, i := 0, 0;
      while i < |parts|
        invariant i <= |parts| && len == TotalLength(parts[..i])
      {
        assert parts[..i + 1][..i] == parts[..i];
        len := len + |parts[i]|;
        i := i + 1;
      }
      assert parts[..i] == parts;
      if len > KEY_BUFFER {
        return None;
      }
      var s := "";
      if parts[0] != "" && (|parts[0]| > 1 || parts[0][0] != '*') {
        s := parts[0];
      }
      i := 1;
      while i < |parts|
        invariant 1 <= i <= |parts| && s == Joined(parts[..i])
      {
        assert parts[..i + 1][..i] == parts[..i];
        s := s + "::";
        if parts[i] != "" && (|parts[i]| > 1 || parts[i][0] != '*') {
          s := s + parts[i];
        }
        i := i + 1;
      }
      assert parts[..i] == parts;
      return Some(s);
    }

    method Lookup(parts: seq<string>) returns (r: Option<V>)
      requires parts != []
      ensures r == if minKeys <= |parts| <= |flags| then Find(hash, parts) else None
    {
      if !Accepts(|parts|) {
        return None;
      }
      var key := ComposeKey(parts);
      return if key.Some? && key.value in hash then Some(hash[key.value]) else None;
    }

    method Insert(value: V, parts: seq<string>)
      requires parts != []
      modifies this
      ensures hash == if minKeys <= |parts| <= |flags| && MakeKey(parts).Some? then old(hash)[Joined(parts) := value] else old(hash)
    {
      if Accepts(|parts|) {
        var key := ComposeKey(parts);
        if key.Some? {
          hash := hash[key.value := value];
        }
      }
    }

    method Delete(parts: seq<string>)
      requires parts != []
      modifies this
      ensures hash == if minKeys <= |parts| <= |flags| && MakeKey(parts).Some? then old(hash) - {Joined(parts)} else old(hash)
    {
      if Accepts(|parts|) {
        var key := ComposeKey(parts);
        if key.Some? {
          hash := hash - {key.value};
        }
      }
    }

    method Probe(parts: seq<string>) returns (r: Option<V>)
      requires parts != []
      ensures r == Find(hash, parts)
    {
      var key := ComposeKey(parts);
      r := if key.Some? && key.value in hash then Some(hash[key.value]) else None;
    }

    /** z_dim_hash_table_rec_search: overwrites the key buffers from `i` on, and finds the first hit
        among the vectors that extend the buffers before `i`. */
    method RecSearch(parts: seq<string>, i: nat, keys: array<string>) returns (r: Option<V>)
      requires parts != [] && i <= |parts| <= |flags| && |parts| <= keys.Length
      modifies keys
      ensures keys[..i] == old(keys[..i])
      ensures r == FirstHit(hash, Enumerate(keys[..i], parts, flags))
      decreases |parts| - i, 1
    {
      ghost var prefix := keys[..i];
      if i == |parts| {
        LeafHit(hash, prefix, parts, flags);
        r := Probe(keys[..i]);
        return;
      }
      ghost var goal := ChainHits(hash, prefix, parts[i], parts, flags);
      assert goal == FirstHit(hash, Enumerate(prefix, parts, flags));
      keys[i] := parts[i];
      r := GoOn(parts, i, keys);
      while r.None? && NextStep(keys[i], flags[i]).Some?
        invariant keys[..i] == prefix
        invariant r == FirstHit(hash, Enumerate(prefix + [keys[i]], parts, flags))
        invariant goal == ChainHits(hash, prefix, keys[i], parts, flags)
        decreases |keys[i]|
      {
        ChainHit(hash, prefix, keys[i], parts, flags);
        keys[i] := NextStep(keys[i], flags[i]).value;
        r := GoOn(parts, i, keys);
      }
      ChainHit(hash, prefix, keys[i], parts, flags);
    }

    /** The search below the key in buffer `i`. */
    method GoOn(parts: seq<string>, i: nat, keys: array<string>) returns (r: Option<V>)
      requires parts != [] && i < |parts| <= |flags| && |parts| <= keys.Length
      modifies keys
      ensures keys[..i] == old(keys[..i]) && keys[i] == old(keys[i])
      ensures r == FirstHit(hash, Enumerate(keys[..i] + [keys[i]], parts, flags))
      decreases |parts| - i, 0
    {
      ghost var was := keys[..i + 1];
      r := RecSearch(parts, i + 1, keys);
      assert keys[..i + 1] == was && was[..i] == old(keys[..i]) && was[i] == old(keys[i]);
      assert keys[..i + 1] == keys[..i] + [keys[i]];
    }

    /** z_dim_hash_table_search, for parts within the size limit of the key buffers. */
    method Search(parts: seq<string>) returns (r: Option<V>)
      requires forall p :: p in parts ==> |p| < MAX_KEYSIZE
      ensures r.Some? <==> minKeys <= |parts| <= |flags| && exists n: nat, v :: HasEntry(hash, parts, flags, n, v)
      ensures r.Some? ==> exists n: nat, v :: Best(hash, parts, flags, n, v) && r == Find(hash, v)
    {
      if !Accepts(|parts|) {
        return None;
      }
      SearchExact(hash, parts, flags);
      var keys := new string[|parts|](i => "");
      var num := |parts|;
      r := None;
      assert parts[..num] == parts;
      while num > 0
        invariant 0 <= num <= |parts| && r.None?
        invariant FirstHit(hash, SearchOrder(parts, flags)) == FirstHit(hash, SearchOrder(parts[..num], flags))
      {
        r := RecSearch(parts[..num], 0, keys);
        assert keys[..0] == [] && parts[..num][..num - 1] == parts[..num - 1];
        FirstHitConcat(hash, Enumerate([], parts[..num], flags), SearchOrder(parts[..num - 1], flags));
        if r.Some? {
          return;
        }
        num := num - 1;
      }
    }
  }

  lemma LeafHit<V>(hash: map<string, V>, prefix: seq<string>, parts: seq<string>, flags: seq<nat>)
    requires |prefix| == |parts| <= |flags|
    ensures FirstHit(hash, Enumerate(prefix, parts, flags)) == Find(hash, prefix)
  {
    assert [prefix][1..] == [];
  }

  /** The first hit among the vectors that go on from `prefix` with a part or a generalisation of it. */
  ghost function ChainHits<V>(hash: map<string, V>, prefix: seq<string>, key: string, parts: seq<string>, flags: seq<nat>): Option<V>
    requires |prefix| < |parts| <= |flags|
  {
    FirstHit(hash, EnumerateChain(prefix, Chain(key, flags[|prefix|]), parts, flags))
  }

  /** A part is tried before its generalisations. */
  lemma ChainHit<V>(hash: map<string, V>, prefix: seq<string>, key: string, parts: seq<string>, flags: seq<nat>)
    requires |prefix| < |parts| <= |flags|
    ensures var one := FirstHit(hash, Enumerate(prefix + [key], parts, flags));
            ChainHits(hash, prefix, key, parts, flags) ==
              if one.Some? then one
              else match NextStep(key, flags[|prefix|])
                   case None => None
                   case Some(k) => ChainHits(hash, prefix, k, parts, flags)
  {
    var chain := Chain(key, flags[|prefix|]);
    FirstHitConcat(hash, Enumerate(prefix + [key], parts, flags), EnumerateChain(prefix, chain[1..], parts, flags));
  }
}
