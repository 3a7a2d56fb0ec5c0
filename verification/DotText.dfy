/**
 Dot-stuffed text, the reference for libproxy/dottransfer.cc: a dot at the start
 of a line is doubled (section 4.5.2 of RFC 5321, section 3 of RFC 1939).
 */
module DotText {
  import opened Options

  /** Doubles every line-initial dot; `start` tells whether `s` begins a line. */
  function Stuff(start: bool, s: string): string
    decreases |s|
  {
    if s == "" then ""
    else (if start && s[0] == '.' then ".." else [s[0]]) + Stuff(s[0] == '\n', s[1..])
  }

  /** Whether a line begins after `s`. */
  function StartAfter(start: bool, s: string): bool {
    if s == "" then start else s[|s| - 1] == '\n'
  }

  /** The number of line-initial dots. */
  function Dots(start: bool, s: string): nat
    decreases |s|
  {
    if s == "" then 0
    else (if start && s[0] == '.' then 1 else 0) + Dots(s[0] == '\n', s[1..])
  }

  lemma {:induction false} StuffConcat(start: bool, x: string, y: string)
    ensures Stuff(start, x + y) == Stuff(start, x) + Stuff(StartAfter(start, x), y)
    decreases |x|
  {
    if x == "" {
      assert x + y == y;
    } else {
      assert (x + y)[1..] == x[1..] + y;
      StuffConcat(x[0] == '\n', x[1..], y);
      Assoc(if start && x[0] == '.' then ".." else [x[0]], Stuff(x[0] == '\n', x[1..]), Stuff(StartAfter(start, x), y));
    }
  }

  lemma StartAfterConcat(start: bool, x: string, y: string)
    ensures StartAfter(start, x + y) == StartAfter(StartAfter(start, x), y)
  {
    if y == "" {
      assert x + y == x;
    } else {
      assert (x + y)[|x + y| - 1] == y[|y| - 1];
    }
  }

  /** Every line-initial dot is followed by another: no line is a lone dot. */
  predicate Doubled(start: bool, s: string)
    decreases |s|
  {
    s == "" || ((start && s[0] == '.' ==> |s| > 1 && s[1] == '.') && Doubled(s[0] == '\n', s[1..]))
  }

  /** A dot here is not the first of a line, or is followed by another. */
  predicate DoubledAt(start: bool, s: string, i: nat)
    requires i < |s|
  {
    s[i] == '.' && (if i == 0 then start else s[i - 1] == '\n') ==> i + 1 < |s| && s[i + 1] == '.'
  }

  /** The same, place by place. */
  lemma {:induction false} DoubledExact(start: bool, s: string)
    ensures Doubled(start, s) <==> forall i :: 0 <= i < |s| ==> DoubledAt(start, s, i)
    decreases |s|
  {
    if s != "" {
      var rest, next := s[1..], s[0] == '\n';
      DoubledExact(next, rest);
      forall i | 0 <= i < |rest|
        ensures DoubledAt(start, s, i + 1) <==> DoubledAt(next, rest, i)
      {
        assert rest[i] == s[i + 1];
      }
      if forall i :: 0 <= i < |rest| ==> DoubledAt(next, rest, i) {
        forall i | 1 <= i < |s|
          ensures DoubledAt(start, s, i)
        {
          assert DoubledAt(next, rest, i - 1);
        }
      }
      assert Doubled(start, s) <==> DoubledAt(start, s, 0) && Doubled(next, rest);
    }
  }

  lemma {:induction false} StuffDoubled(start: bool, s: string, tail: string)
    requires tail == "" || tail == "\r\n"
    ensures Doubled(start, Stuff(start, s) + tail)
    decreases |s|
  {
    var out := Stuff(start, s) + tail;
    if s == "" {
      assert out == tail;
      assert tail != "" ==> tail[1..] == "\n" && tail[1..][1..] == "";
    } else {
      var rest := Stuff(s[0] == '\n', s[1..]) + tail;
      StuffDoubled(s[0] == '\n', s[1..], tail);
      if start && s[0] == '.' {
        assert out[1..] == "." + rest && out[1..][1..] == rest;
      } else {
        assert out[1..] == rest;
      }
    }
  }

  // ---------------------------------------------------------------- text as lines

  function StuffLine(l: string): string { if l != "" && l[0] == '.' then "." + l else l }

  function StuffLines(ls: seq<string>): seq<string> {
    if ls == [] then [] else [StuffLine(ls[0])] + StuffLines(ls[1..])
  }

  /** Lines, each ended by CRLF. */
  function Text(ls: seq<string>): string {
    if ls == [] then "" else ls[0] + "\r\n" + Text(ls[1..])
  }

  lemma {:induction false} StuffMidLine(l: string, rest: string)
    requires '\n' !in l
    ensures Stuff(false, l + "\r\n" + rest) == l + "\r\n" + Stuff(true, rest)
  {
    var t := l + "\r\n" + rest;
    if l == "" {
      assert t[0] == '\r' && t[1..][0] == '\n' && t[1..][1..] == rest;
      assert Stuff(false, t) == ['\r'] + (['\n'] + Stuff(true, rest));
    } else {
      assert t[1..] == l[1..] + "\r\n" + rest;
      StuffMidLine(l[1..], rest);
      assert Stuff(false, t) == [l[0]] + (l[1..] + "\r\n" + Stuff(true, rest));
    }
  }

  /** Stuffing the text is stuffing each of its lines. */
  lemma {:induction false} StuffText(ls: seq<string>)
    requires forall l :: l in ls ==> '\n' !in l
    ensures Stuff(true, Text(ls)) == Text(StuffLines(ls))
  {
    if ls != [] {
      var l, rest := ls[0], Text(ls[1..]);
      StuffText(ls[1..]);
      StuffMidLine(l, rest);
      StartMatters(l + "\r\n" + rest);
      assert Text(StuffLines(ls)) == StuffLine(l) + "\r\n" + Text(StuffLines(ls[1..]));
    }
  }

  /** Beginning a line matters only to a dot that comes first. */
  lemma StartMatters(s: string)
    ensures Stuff(true, s) == (if s != "" && s[0] == '.' then "." else "") + Stuff(false, s)
  {
  }
}
