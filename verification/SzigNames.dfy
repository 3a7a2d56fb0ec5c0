/**
 Names of SZIG nodes (lib/szig.cc): within the tree a name is any C string, on
 the wire it is escaped, and the names of a path are joined with dots.
 */
module SzigNames {
  import opened Options

  /** A C string: bytes, none of them the terminator. */
  predicate IsName(s: string) { forall i :: 0 <= i < |s| ==> 0 < s[i] as int < 256 }

  // ---------------------------------------------------------------- escaping

  function HexDigit(n: nat): char
    requires n < 16
  {
    if n < 10 then (48 + n) as char else (55 + n) as char
  }

  predicate IsXDigit(c: char) { '0' <= c <= '9' || 'A' <= c <= 'F' || 'a' <= c <= 'f' }

  function XValue(c: char): nat {
    if '0' <= c <= '9' then c as int - 48
    else if 'A' <= c <= 'F' then c as int - 55
    else if 'a' <= c <= 'f' then c as int - 87
    else 0
  }

  predicate Special(c: char) { c as int <= 32 || c == '.' || c == '%' || c as int > 0x7f }

  function EscapeChar(c: char): string
    requires c as int < 256
  {
    if Special(c) then ['%', HexDigit(c as int / 16), HexDigit(c as int % 16)] else [c]
  }

  /** z_szig_escape_name. */
  function Escape(s: string): string
    requires IsName(s)
  {
    if s == "" then "" else EscapeChar(s[0]) + Escape(s[1..])
  }

  /** z_szig_unescape_name; no result when it would run past the terminator, which it does
      for a percent sign with fewer than two characters after it. */
  function Unescape(s: string): Option<string>
    decreases |s|
  {
    if s == "" then Some("")
    else if s[0] == '%' then
      if |s| < 3 then None
      else match Unescape(s[3..])
           case None => None
           case Some(t) =>
             if IsXDigit(s[1]) && IsXDigit(s[2]) then Some([(XValue(s[1]) * 16 + XValue(s[2])) as char] + t) else Some(t)
    else match Unescape(s[1..])
         case None => None
         case Some(t) => Some([s[0]] + t)
  }

  lemma HexRoundTrip(n: nat)
    requires n < 16
    ensures IsXDigit(HexDigit(n)) && XValue(HexDigit(n)) == n
    ensures HexDigit(n) != '.' && HexDigit(n) != ' ' && HexDigit(n) != '%'
  {
  }

  function LowerDigit(n: nat): char
    requires n < 16
  {
    if n < 10 then (48 + n) as char else (87 + n) as char
  }

  /** The hexadecimal digits, in either case, and what they stand for. */
  lemma XDigitExact(c: char, n: nat)
    requires n < 16
    ensures IsXDigit(c) && XValue(c) == n <==> c == HexDigit(n) || c == LowerDigit(n)
    ensures IsXDigit(c) ==> XValue(c) < 16
  {
  }

  /** What is sent as it is: the printable characters and DEL, except the dot and the percent sign. */
  lemma EscapeCharExact(c: char)
    requires c as int < 256
    ensures EscapeChar(c) == [c] <==> 33 <= c as int <= 0x7f && c != '.' && c != '%'
    ensures EscapeChar(c) != [c] ==> |EscapeChar(c)| == 3 && EscapeChar(c)[0] == '%'
  {
  }

  /** An escape that is not two hexadecimal digits is dropped, with the two characters after the sign. */
  lemma BadEscape(a: char, b: char, s: string)
    ensures (forall n: nat :: n < 16 ==> a != HexDigit(n) && a != LowerDigit(n)) ==> Unescape(['%', a, b] + s) == Unescape(s)
    ensures (forall n: nat :: n < 16 ==> b != HexDigit(n) && b != LowerDigit(n)) ==> Unescape(['%', a, b] + s) == Unescape(s)
  {
    var t := ['%', a, b] + s;
    assert t[3..] == s && t[0] == '%' && t[1] == a && t[2] == b;
    if IsXDigit(a) {
      XDigitExact(a, XValue(a));
    }
    if IsXDigit(b) {
      XDigitExact(b, XValue(b));
    }
  }

  lemma {:induction false} EscapeRoundTrip(s: string)
    requires IsName(s)
    ensures Unescape(Escape(s)) == Some(s)
  {
    if s != "" {
      var c, e := s[0], Escape(s);
      EscapeRoundTrip(s[1..]);
      assert [c] + s[1..] == s;
      if Special(c) {
        HexRoundTrip(c as int / 16);
        HexRoundTrip(c as int % 16);
        assert e[0] == '%' && e[1] == HexDigit(c as int / 16) && e[2] == HexDigit(c as int % 16) && e[3..] == Escape(s[1..]);
        assert XValue(e[1]) * 16 + XValue(e[2]) == c as int;
      } else {
        assert e[0] == c && e[1..] == Escape(s[1..]);
      }
    }
  }

  /** An escaped name has no dot and no blank, so it survives being joined into a path and a command. */
  lemma {:induction false} EscapeIsPlain(s: string)
    requires IsName(s)
    ensures '.' !in Escape(s) && ' ' !in Escape(s) && |Escape(s)| >= |s|
  {
    if s != "" {
      var c := s[0];
      EscapeIsPlain(s[1..]);
      if Special(c) {
        HexRoundTrip(c as int / 16);
        HexRoundTrip(c as int % 16);
      }
    }
  }

  // ---------------------------------------------------------------- paths

  /** A path that can be printed: an empty name at the top would read as the root. */
  predicate IsPath(path: seq<string>) {
    (path != [] ==> path[0] != "") && forall i :: 0 <= i < |path| ==> IsName(path[i])
  }

  /** z_szig_node_print_full_name, applied along a path. */
  function FullName(path: seq<string>): string
    requires IsPath(path)
  {
    if path == [] then ""
    else
      var up, e := FullName(path[..|path| - 1]), Escape(path[|path| - 1]);
      if up == "" then e else up + "." + e
  }

  /** The position just after the last dot, 0 if there is none. */
  function LastPieceAt(s: string): (k: nat)
    ensures k <= |s| && (k > 0 ==> s[k - 1] == '.')
    ensures forall j :: k <= j < |s| ==> s[j] != '.'
  {
    if s == "" then 0 else if s[|s| - 1] == '.' then |s| else LastPieceAt(s[..|s| - 1])
  }

  function LastPiece(s: string): string { s[LastPieceAt(s)..] }

  /** Everything before the last dot, or nothing. */
  function Trimmed(s: string): string { if LastPieceAt(s) == 0 then "" else s[..LastPieceAt(s) - 1] }

  /** g_strsplit at the dots of a non-empty string. */
  function Split(s: string): seq<string>
    decreases |s|
  {
    if LastPieceAt(s) == 0 then [s] else Split(s[..LastPieceAt(s) - 1]) + [LastPiece(s)]
  }

  /** What of a buffer a reader of C strings sees: a "%00" ends the name. */
  function CString(s: string): string {
    if s == "" || s[0] as int == 0 then "" else [s[0]] + CString(s[1..])
  }

  lemma {:induction false} CStringOfName(s: string)
    requires IsName(s)
    ensures CString(s) == s
  {
    if s != "" {
      CStringOfName(s[1..]);
    }
  }

  function UnescapeAll(pieces: seq<string>): Option<seq<string>> {
    if pieces == [] then Some([])
    else
      var up, n := UnescapeAll(pieces[..|pieces| - 1]), Unescape(pieces[|pieces| - 1]);
      if up.Some? && n.Some? then Some(up.value + [CString(n.value)]) else None
  }

  lemma JoinedPieces(up: string, e: string)
    requires '.' !in e
    ensures up != "" ==> LastPieceAt(up + "." + e) == |up| + 1 && Trimmed(up + "." + e) == up && LastPiece(up + "." + e) == e
    ensures up != "" ==> Split(up + "." + e) == Split(up) + [e]
    ensures LastPieceAt(e) == 0 && Trimmed(e) == "" && LastPiece(e) == e && Split(e) == [e]
  {
    var s := up + "." + e;
    var k := LastPieceAt(s);
    assert s[|up|] == '.';
    assert forall j :: |up| < j < |s| ==> s[j] == e[j - |up| - 1];
    assert k == |up| + 1;
    assert s[..|up|] == up && s[|up| + 1..] == e;
  }

  lemma {:induction false} FullNameStep(path: seq<string>)
    requires IsPath(path)
    ensures (FullName(path) == "") <==> (path == [])
    ensures path != [] ==>
              var init, e := path[..|path| - 1], Escape(path[|path| - 1]);
              IsPath(init) && FullName(path) == if init == [] then e else FullName(init) + "." + e
  {
    if path != [] {
      FullNameStep(path[..|path| - 1]);
      EscapeIsPlain(path[|path| - 1]);
    }
  }

  lemma {:induction false} FullNameHasNoBlank(path: seq<string>)
    requires IsPath(path)
    ensures ' ' !in FullName(path)
  {
    if path != [] {
      FullNameStep(path);
      FullNameHasNoBlank(path[..|path| - 1]);
      EscapeIsPlain(path[|path| - 1]);
    }
  }

  /** A printed path names its last part last and its parent before it. */
  lemma FullNamePieces(path: seq<string>)
    requires IsPath(path) && path != []
    ensures IsPath(path[..|path| - 1])
    ensures LastPiece(FullName(path)) == Escape(path[|path| - 1])
    ensures Trimmed(FullName(path)) == FullName(path[..|path| - 1])
  {
    FullNameStep(path);
    FullNameStep(path[..|path| - 1]);
    EscapeIsPlain(path[|path| - 1]);
    JoinedPieces(FullName(path[..|path| - 1]), Escape(path[|path| - 1]));
  }

  function EscapeAll(path: seq<string>): seq<string>
    requires IsPath(path)
  {
    if path == [] then [] else EscapeAll(path[..|path| - 1]) + [Escape(path[|path| - 1])]
  }

  lemma {:induction false} SplitFullName(path: seq<string>)
    requires IsPath(path) && path != []
    ensures Split(FullName(path)) == EscapeAll(path)
  {
    var init, e := path[..|path| - 1], Escape(path[|path| - 1]);
    FullNameStep(path);
    FullNameStep(init);
    EscapeIsPlain(path[|path| - 1]);
    JoinedPieces(FullName(init), e);
    if init == [] {
      assert EscapeAll(init) + [e] == [e];
    } else {
      SplitFullName(init);
    }
  }

  lemma UnescapeSnoc(pieces: seq<string>, path: seq<string>, n: string)
    requires UnescapeAll(pieces) == Some(path) && IsName(n)
    ensures UnescapeAll(pieces + [Escape(n)]) == Some(path + [n])
  {
    EscapeRoundTrip(n);
    CStringOfName(n);
    var all := pieces + [Escape(n)];
    assert all[..|all| - 1] == pieces && all[|all| - 1] == Escape(n);
  }

  lemma {:induction false} UnescapeEscapeAll(path: seq<string>)
    requires IsPath(path)
    ensures UnescapeAll(EscapeAll(path)) == Some(path)
  {
    if path != [] {
      var init, n := path[..|path| - 1], path[|path| - 1];
      var pieces := EscapeAll(init);
      UnescapeEscapeAll(init);
      UnescapeSnoc(pieces, init, n);
      assert init + [n] == path && EscapeAll(path) == pieces + [Escape(n)];
    }
  }

  /** A printed path reads back as the same path. */
  lemma FullNameReadsBack(path: seq<string>)
    requires IsPath(path) && path != []
    ensures UnescapeAll(Split(FullName(path))) == Some(path)
  {
    SplitFullName(path);
    UnescapeEscapeAll(path);
  }

  // ---------------------------------------------------------------- imperative form

  /** The loop of z_szig_escape_name. */
  method EscapeName(name: string) returns (dst: string)
    requires IsName(name)
    ensures dst == Escape(name)
  {
    dst := "";
    var i := 0;
    while i < |name|
      invariant i <= |name| && dst + Escape(name[i..]) == Escape(name)
    {
      assert name[i..][1..] == name[i + 1..] && name[i..][0] == name[i];
      var c := name[i];
      assert dst + (EscapeChar(c) + Escape(name[i + 1..])) == (dst + EscapeChar(c)) + Escape(name[i + 1..]);
      if c as int <= 32 || c == '.' || c == '%' || c as int > 0x7f {
        dst := dst + ['%', HexDigit(c as int / 16), HexDigit(c as int % 16)];
      } else {
        dst := dst + [c];
      }
      i := i + 1;
    }
  }

  function After(x: string, r: Option<string>): Option<string> {
    match r
    case None => None
    case Some(t) => Some(x + t)
  }

  lemma AfterConcat(x: string, y: string, r: Option<string>)
    ensures After(x, After(y, r)) == After(x + y, r)
    ensures After("", r) == r
  {
    if r.Some? {
      assert x + (y + r.value) == x + y + r.value && "" + r.value == r.value;
    }
  }

  /** The loop of z_szig_unescape_name. */
  method UnescapeName(name: string) returns (dst: Option<string>)
    ensures dst == Unescape(name)
  {
    var out, i := "", 0;
    assert name[0..] == name;
    AfterConcat("", "", Unescape(name));
    while i < |name|
      invariant i <= |name|
      invariant Unescape(name) == After(out, Unescape(name[i..]))
    {
      if name[i] == '%' {
        assert |name[i..]| >= 3 ==> name[i..][3..] == name[i + 3..];
        if i + 2 >= |name| {
          return None;
        }
        var x := if IsXDigit(name[i + 1]) && IsXDigit(name[i + 2]) then [(XValue(name[i + 1]) * 16 + XValue(name[i + 2])) as char] else "";
        AfterConcat(out, x, Unescape(name[i + 3..]));
        out := out + x;
        i := i + 3;
      } else {
        assert name[i..][1..] == name[i + 1..];
        AfterConcat(out, [name[i]], Unescape(name[i + 1..]));
        out := out + [name[i]];
        i := i + 1;
      }
    }
    assert name[i..] == "" && out + "" == out;
    return Some(out);
  }
}
