/**
 The line reader (z_dot_transfer_src_read, libproxy/dottransfer.cc) and its
 agreement with the stuffed text of DotText.

 The line stream hands over a complete line, or a fragment of one whose end has
 not come yet.  `Reply` is the effect of one answer, `Decode` of a whole arrival.
 */
module DotReader {
  import opened Streams
  import opened DotText

  datatype Answer = Line(text: string) | Fragment(text: string) | LineEof | LineError
  /** NORMAL with bytes, end of the message, AGAIN, or an error. */
  datatype Reply = Bytes(text: string) | Ends | Waits | Fails

  function ReplyTo(split: bool, a: Answer): Reply {
    match a
    case Line(s) =>
      if !split && s == "." then Ends
      else if !split && s != "" && s[0] == '.' then Bytes(s[1..] + "\r\n")
      else Bytes(s + "\r\n")
    case Fragment(s) => if s == "" then Waits else Bytes(s)
    case LineEof => Fails
    case LineError => Fails
  }

  /** previous_line_split after an answer. */
  function SplitAfter(split: bool, a: Answer): bool {
    match a
    case Line(_) => false
    case Fragment(s) => split || s != ""
    case _ => split
  }

  /** What the reader has produced when the message ends, or when the answers do. */
  datatype Decoded = Decoded(text: string, ended: bool, unread: seq<Answer>)

  function Decode(split: bool, answers: seq<Answer>): Decoded
    decreases |answers|
  {
    if answers == [] then Decoded("", false, [])
    else match ReplyTo(split, answers[0])
         case Ends => Decoded("", true, answers[1..])
         case Bytes(s) =>
           var d := Decode(SplitAfter(split, answers[0]), answers[1..]);
           Decoded(s + d.text, d.ended, d.unread)
         case _ => Decode(SplitAfter(split, answers[0]), answers[1..])
  }

  // ---------------------------------------------------------------- arrivals

  /** A line on the wire, as the fragments that come before its end and the rest. */
  datatype Arrival = Arrival(fragments: seq<string>, last: string)

  function Whole(a: Arrival): string { Glue(a.fragments) + a.last }

  function Glue(fs: seq<string>): string {
    if fs == [] then "" else fs[0] + Glue(fs[1..])
  }

  function Fragments(fs: seq<string>): seq<Answer> {
    if fs == [] then [] else [Fragment(fs[0])] + Fragments(fs[1..])
  }

  function Answers(a: Arrival): seq<Answer> { Fragments(a.fragments) + [Line(a.last)] }

  function AllAnswers(arrivals: seq<Arrival>): seq<Answer> {
    if arrivals == [] then [] else Answers(arrivals[0]) + AllAnswers(arrivals[1..])
  }

  function Wire(arrivals: seq<Arrival>): seq<string> {
    if arrivals == [] then [] else [Whole(arrivals[0])] + Wire(arrivals[1..])
  }

  /** No part of the line came before its end did. */
  predicate InOnePiece(a: Arrival) { Glue(a.fragments) == "" }

  /** A line that begins with a dot on the wire arrives in one piece. */
  predicate DotsInOnePiece(arrivals: seq<Arrival>) {
    arrivals == [] ||
    ((Whole(arrivals[0]) != "" && Whole(arrivals[0])[0] == '.' ==> InOnePiece(arrivals[0])) && DotsInOnePiece(arrivals[1..]))
  }

  /** Fragments only pass through; a non-empty one turns the reader to copying the rest as it is. */
  lemma {:induction false} DecodeFragments(split: bool, fs: seq<string>, tail: seq<Answer>)
    ensures var d := Decode(split || Glue(fs) != "", tail);
            Decode(split, Fragments(fs) + tail) == Decoded(Glue(fs) + d.text, d.ended, d.unread)
    decreases |fs|
  {
    var d := Decode(split || Glue(fs) != "", tail);
    if fs == [] {
      assert Fragments(fs) + tail == tail && Glue(fs) + d.text == d.text;
    } else {
      var rest := Fragments(fs[1..]) + tail;
      assert Fragments(fs) + tail == [Fragment(fs[0])] + rest;
      DecodeFragment(split, fs[0], rest);
      DecodeFragments(split || fs[0] != "", fs[1..], tail);
      assert fs[0] + (Glue(fs[1..]) + d.text) == Glue(fs) + d.text;
    }
  }

  lemma DecodeFragment(split: bool, f: string, rest: seq<Answer>)
    ensures var d := Decode(split || f != "", rest);
            Decode(split, [Fragment(f)] + rest) == Decoded(f + d.text, d.ended, d.unread)
  {
    assert ([Fragment(f)] + rest)[1..] == rest;
    var d := Decode(split || f != "", rest);
    assert f == "" ==> f + d.text == d.text;
  }

  lemma DecodeLine(split: bool, s: string, tail: seq<Answer>)
    ensures var d := Decode(false, tail); var r := Decode(split, [Line(s)] + tail);
            if !split && s == "." then r == Decoded("", true, tail)
            else r == Decoded((if !split && s != "" && s[0] == '.' then s[1..] else s) + "\r\n" + d.text, d.ended, d.unread)
  {
    assert ([Line(s)] + tail)[1..] == tail;
  }

  /** What one arriving line comes to. */
  lemma DecodeArrival(a: Arrival, tail: seq<Answer>)
    ensures var d := Decode(false, tail); var w := Whole(a); var r := Decode(false, Answers(a) + tail);
            if InOnePiece(a) && w == "." then r == Decoded("", true, tail)
            else r == Decoded((if InOnePiece(a) && w != "" && w[0] == '.' then w[1..] else w) + "\r\n" + d.text, d.ended, d.unread)
  {
    assert Answers(a) + tail == Fragments(a.fragments) + ([Line(a.last)] + tail);
    DecodeFragments(false, a.fragments, [Line(a.last)] + tail);
    DecodeLine(!InOnePiece(a), a.last, tail);
    Regroup(Glue(a.fragments), a.last, Decode(false, tail).text);
    var r := Decode(!InOnePiece(a), [Line(a.last)] + tail);
    if InOnePiece(a) {
      assert Whole(a) == a.last && Glue(a.fragments) + r.text == r.text;
    }
  }

  lemma Regroup(x: string, y: string, z: string)
    ensures x + (y + "\r\n" + z) == x + y + "\r\n" + z
  {
  }

  /** The exact condition: a stuffed message, however it is broken into fragments, is read back as its
      lines and ended exactly at its terminator, if and only if every line that begins with a dot on
      the wire, the terminator included, arrives in one piece. */
  lemma {:induction false} DecodeExact(lines: seq<string>, arrivals: seq<Arrival>)
    requires Wire(arrivals) == StuffLines(lines) + ["."]
    ensures Decode(false, AllAnswers(arrivals)) == Decoded(Text(lines), true, []) <==> DotsInOnePiece(arrivals)
    ensures |Decode(false, AllAnswers(arrivals)).text| >= |Text(lines)|
    decreases |lines|
  {
    var a, rest := arrivals[0], arrivals[1..];
    DecodeArrival(a, AllAnswers(rest));
    var w, d := Whole(a), Decode(false, AllAnswers(rest));
    if lines == [] {
      assert Wire(arrivals)[0] == w == "." && rest == [] by {
        WireLength(arrivals);
      }
      assert AllAnswers(arrivals) == Answers(a);
    } else {
      var l := lines[0];
      assert Wire(arrivals)[0] == w == StuffLine(l);
      assert Wire(rest) == Wire(arrivals)[1..] == StuffLines(lines[1..]) + ["."];
      DecodeExact(lines[1..], rest);
      var out := Decode(false, AllAnswers(arrivals)).text;
      if l != "" && l[0] == '.' {
        assert w == "." + l && w[1..] == l;
        LongerThan(w, l, d.text, Text(lines[1..]));
      }
      SameHead(l + "\r\n", d.text, Text(lines[1..]));
    }
  }

  lemma {:induction false} WireLength(arrivals: seq<Arrival>)
    ensures |Wire(arrivals)| == |arrivals|
  {
    if arrivals != [] {
      WireLength(arrivals[1..]);
    }
  }

  lemma LongerThan(w: string, l: string, x: string, y: string)
    requires |w| > |l| && |x| >= |y|
    ensures w + "\r\n" + x != l + "\r\n" + y && |w + "\r\n" + x| >= |l + "\r\n" + y|
  {
    assert |w + "\r\n" + x| > |l + "\r\n" + y|;
  }

  lemma SameHead(h: string, x: string, y: string)
    ensures h + x == h + y <==> x == y
  {
    if h + x == h + y {
      assert x == (h + x)[|h|..] && y == (h + y)[|h|..];
    }
  }

  /** Reading undoes writing: the stuffed text, cut into lines and followed by the terminator, is read back. */
  lemma ReadUndoesStuff(lines: seq<string>, arrivals: seq<Arrival>)
    requires forall l :: l in lines ==> '\n' !in l
    requires Wire(arrivals) == StuffLines(lines) + ["."] && DotsInOnePiece(arrivals)
    ensures Stuff(true, Text(lines)) + ".\r\n" == Text(Wire(arrivals))
    ensures Decode(false, AllAnswers(arrivals)) == Decoded(Text(lines), true, [])
  {
    StuffText(lines);
    DecodeExact(lines, arrivals);
    TextAppend(StuffLines(lines), ".");
  }

  lemma {:induction false} TextAppend(ls: seq<string>, l: string)
    ensures Text(ls + [l]) == Text(ls) + (l + "\r\n")
  {
    if ls == [] {
      assert ls + [l] == [l] && [l][1..] == [];
      assert Text([l]) == l + "\r\n" + "";
    } else {
      assert (ls + [l])[1..] == ls[1..] + [l];
      TextAppend(ls[1..], l);
    }
  }

  /** A continuation fragment that is a lone dot neither ends the message nor loses its dot. */
  lemma ContinuationDot(f: string, tail: seq<Answer>)
    requires f != ""
    ensures var d := Decode(false, tail);
            Decode(false, [Fragment(f), Line(".")] + tail) == Decoded(f + ".\r\n" + d.text, d.ended, d.unread)
  {
    var a := Arrival([f], ".");
    assert [f][1..] == [] && Fragments([f]) == [Fragment(f)];
    assert Glue([f]) == f + Glue([]) == f;
    DecodeArrival(a, tail);
    assert f + "." + "\r\n" == f + ".\r\n";
  }

  /** A line with a leading dot that arrives in two pieces keeps the dot that was added to it. */
  lemma SplitDotIsKept()
    ensures StuffLines([".a"]) == ["..a"]
    ensures Decode(false, [Fragment("."), Line(".a"), Line(".")]) == Decoded("..a\r\n", true, [])
  {
    assert [".a"][1..] == [] && "." + ".a" == "..a";
    DecodeLine(false, ".", []);
    assert [Line(".")] + [] == [Line(".")];
    DecodeLine(true, ".a", [Line(".")]);
    assert [Line(".a")] + [Line(".")] == [Line(".a"), Line(".")];
    DecodeFragment(false, ".", [Line(".a"), Line(".")]);
    assert [Fragment(".")] + [Line(".a"), Line(".")] == [Fragment("."), Line(".a"), Line(".")];
    assert "." + (".a" + "\r\n" + "") == "..a\r\n";
  }

  // ---------------------------------------------------------------- when a message ends

  /** A non-empty fragment has come since the last line, or had come before with no line since. */
  ghost predicate Partial(split: bool, answers: seq<Answer>, k: nat)
    requires k <= |answers|
  {
    || (split && NoLine(answers, 0, k))
    || exists j :: 0 <= j < k && Begins(answers[j]) && NoLine(answers, j, k)
  }

  predicate Begins(a: Answer) { a.Fragment? && a.text != "" }

  ghost predicate NoLine(answers: seq<Answer>, i: nat, k: nat)
    requires i <= k <= |answers|
  {
    forall j :: i <= j < k ==> !answers[j].Line?
  }

  /** A line that is a lone dot, and of which nothing has come before. */
  ghost predicate LoneDot(split: bool, answers: seq<Answer>, k: nat) {
    k < |answers| && answers[k] == Line(".") && !Partial(split, answers, k)
  }

  lemma PartialTail(split: bool, answers: seq<Answer>, k: nat)
    requires 0 < k <= |answers|
    ensures Partial(split, answers, k) <==> Partial(SplitAfter(split, answers[0]), answers[1..], k - 1)
  {
    var a, rest := answers[0], answers[1..];
    forall i: nat | 1 <= i <= k
      ensures NoLine(answers, i, k) <==> NoLine(rest, i - 1, k - 1)
    {
      NoLineTail(answers, i, k);
    }
    assert NoLine(answers, 0, k) <==> !a.Line? && NoLine(answers, 1, k);
    if Partial(split, answers, k) && !(split && NoLine(answers, 0, k)) {
      var j :| 0 <= j < k && Begins(answers[j]) && NoLine(answers, j, k);
      if j > 0 {
        assert rest[j - 1] == answers[j] && NoLine(rest, j - 1, k - 1);
      }
    }
    if j :| 0 <= j < k - 1 && Begins(rest[j]) && NoLine(rest, j, k - 1) {
      assert answers[j + 1] == rest[j] && NoLine(answers, j + 1, k);
    }
  }

  lemma NoLineTail(answers: seq<Answer>, i: nat, k: nat)
    requires 1 <= i <= k <= |answers|
    ensures NoLine(answers, i, k) <==> NoLine(answers[1..], i - 1, k - 1)
  {
    var rest := answers[1..];
    if NoLine(rest, i - 1, k - 1) {
      forall j | i <= j < k ensures !answers[j].Line? {
        assert rest[j - 1] == answers[j];
      }
    }
  }

  /** Whatever arrives, the message ends if and only if a whole line is a lone dot: not at an end of file, nor at the
      dot that ends a split line. */
  lemma {:induction false} EndsExact(split: bool, answers: seq<Answer>)
    ensures Decode(split, answers).ended <==> exists k: nat :: LoneDot(split, answers, k)
    decreases |answers|
  {
    if answers != [] {
      var next, rest := SplitAfter(split, answers[0]), answers[1..];
      assert LoneDot(split, answers, 0) <==> answers[0] == Line(".") && !split;
      forall k: nat | 0 < k < |answers|
        ensures LoneDot(split, answers, k) <==> LoneDot(next, rest, k - 1)
      {
        PartialTail(split, answers, k);
      }
      EndsExact(next, rest);
      if k: nat :| LoneDot(next, rest, k) {
        assert LoneDot(split, answers, k + 1);
      }
    }
  }

  // ---------------------------------------------------------------- imperative form

  class DotReader {
    var previousLineSplit: bool

    constructor ()
      ensures !previousLineSplit
    {
      previousLineSplit := false;
    }

    /** z_dot_transfer_src_read: the line stream has put its answer into the buffer, of which
        two bytes are kept back for the line break. */
    method SrcRead(buf: array<char>, count: nat, a: Answer) returns (res: Status, bytesRead: nat)
      requires count <= buf.Length
      requires count >= 2 && (a.Line? || a.Fragment?) ==> |a.text| <= count - 2 && buf[..|a.text|] == a.text
      modifies this, buf
      ensures count < 2 ==> res == Again && bytesRead == 0 && previousLineSplit == old(previousLineSplit)
      ensures count >= 2 ==> previousLineSplit == SplitAfter(old(previousLineSplit), a)
      ensures count >= 2 ==> match ReplyTo(old(previousLineSplit), a)
                             case Bytes(s) => res == Normal && bytesRead == |s| <= count && buf[..bytesRead] == s
                             case Ends => res == Eof && bytesRead == 0
                             case Waits => res == Again && bytesRead == 0
                             case Fails => res == Error && bytesRead == 0
      ensures count >= 2 ==>
                && (res == Eof <==> a == Line(".") && !old(previousLineSplit))
                && (res == Error <==> a == LineEof || a == LineError)
                && (res == Again <==> a == Fragment(""))
    {
      bytesRead := 0;
      if count < 2 {
        return Again, 0;
      }
      match a
      case Line(s) =>
        var len := |s|;
        if !previousLineSplit && len > 0 && buf[0] == '.' {
          if len == 1 {
            return Eof, 0;
          }
          forall k | 0 <= k < len - 1 {
            buf[k] := buf[k + 1];
          }
          len := len - 1;
        }
        buf[len] := '\r';
        buf[len + 1] := '\n';
        bytesRead := len + 2;
        previousLineSplit := false;
        res := Normal;
      case Fragment(s) =>
        bytesRead := |s|;
        res := Again;
        if |s| > 0 {
          previousLineSplit := true;
          res := Normal;
        }
      case LineEof =>
        res := Error;
      case LineError =>
        res := Error;
    }
  }
}
