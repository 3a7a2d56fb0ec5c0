/**
 The escaping writer (libproxy/dottransfer.cc) in a state that may be wrong for the text it
 is given: when that does not matter, and what of a text escaping always leaves alone.
 */
module DotFit {
  import opened Options
  import opened Streams
  import opened DotText
  import opened DotWriter

  /** Where the writer may take itself to be, when the text does or does not begin a line. */
  predicate Fit(lf: bool, start: bool, t: string) {
    || t == "" || lf == start
    || (start && t[0] != '.')
    || (lf && t[0] != '.' && !(t[0] == '\n' && |t| > 1 && t[1] == '.'))
  }

  /** From a wrong state a CRLF text is still sent right exactly when the state does not matter to it and
      its pieces are right. */
  lemma FitExact(prev: char, lf: bool, start: bool, t: string, sizes: seq<nat>)
    requires CrlfOnly(prev, t) && (start ==> prev != '\r') && Session(lf, t, sizes).left == ""
    ensures Session(lf, t, sizes).sent == Stuff(start, t) <==> Fit(lf, start, t) && ChunksOk(t, sizes)
  {
    if lf == start {
      CrlfInStep(prev, start, t);
      SessionInStep(start, start, t, sizes);
    } else if t == "" {
      EmptySession(lf, sizes);
    } else {
      StartMatters(t);
      SessionInStep(lf, true, t, sizes);
      AfterFirst(prev, lf, t);
      if lf && t[0] == '.' {
        ExtraDotShows(t, sizes);
      }
    }
  }

  // ---------------------------------------------------------------- what escaping leaves alone

  /** The first line feed, or the end. */
  function FirstFeed(s: string): (k: nat)
    ensures k <= |s|
  {
    if s == "" || s[0] == '\n' then 0 else 1 + FirstFeed(s[1..])
  }

  function FeedCount(s: string): nat {
    if s == "" then 0 else (if s[0] == '\n' then 1 else 0) + FeedCount(s[1..])
  }

  lemma {:induction false} FirstFeedConcat(x: string, y: string)
    ensures FirstFeed(x + y) == if FirstFeed(x) < |x| then FirstFeed(x) else |x| + FirstFeed(y)
  {
    if x == "" {
      assert x + y == y;
    } else {
      assert (x + y)[1..] == x[1..] + y;
      FirstFeedConcat(x[1..], y);
    }
  }

  lemma {:induction false} FeedCountConcat(x: string, y: string)
    ensures FeedCount(x + y) == FeedCount(x) + FeedCount(y)
  {
    if x == "" {
      assert x + y == y;
    } else {
      assert (x + y)[1..] == x[1..] + y;
      FeedCountConcat(x[1..], y);
    }
  }

  lemma {:induction false} StuffFeeds(start: bool, s: string)
    ensures FeedCount(Stuff(start, s)) == FeedCount(s)
    ensures FirstFeed(Stuff(false, s)) == FirstFeed(s)
    decreases |s|
  {
    if s != "" {
      StuffFeeds(s[0] == '\n', s[1..]);
      var head := if start && s[0] == '.' then ".." else [s[0]];
      FeedCountConcat(head, Stuff(s[0] == '\n', s[1..]));
      assert head[1..] == "" || head[1..] == ".";
      assert "."[1..] == "";
      assert Stuff(false, s)[1..] == Stuff(s[0] == '\n', s[1..]);
    }
  }

  lemma {:induction false} ScanFeeds(lf: bool, b: nat, s: string)
    ensures var r := Scan(lf, b, s); FeedCount(r.sent) == FeedCount(s[..r.taken])
    decreases |s|
  {
    if s != "" && !(lf && s[0] == '.' && b == 0) {
      var c := s[0];
      var b' := if lf && c == '.' then b - 1 else b;
      ScanFeeds(Next(lf, c), b', s[1..]);
      var r' := Scan(Next(lf, c), b', s[1..]);
      HeadFeeds(lf && c == '.', c, r'.sent, s[1..][..r'.taken]);
      assert s[..1 + r'.taken] == [c] + s[1..][..r'.taken];
    }
  }

  lemma HeadFeeds(escaped: bool, c: char, x: string, y: string)
    requires FeedCount(x) == FeedCount(y) && (escaped ==> c == '.')
    ensures FeedCount((if escaped then ".." else [c]) + x) == FeedCount([c] + y)
  {
    FeedCountConcat(if escaped then ".." else [c], x);
    FeedCountConcat([c], y);
    assert ".."[1..] == "." && "."[1..] == "" && [c][1..] == "";
  }

  lemma {:induction false} SessionFeeds(lf: bool, t: string, sizes: seq<nat>)
    requires Session(lf, t, sizes).left == ""
    ensures FeedCount(Session(lf, t, sizes).sent) == FeedCount(t)
    decreases |sizes|
  {
    if sizes != [] {
      var buf := t[..Min(sizes[0], |t|)];
      var r := Call(lf, buf);
      ScanFeeds(lf, Budget(lf, buf, 0), buf);
      SessionFeeds(r.lf, t[r.taken..], sizes[1..]);
      assert t == buf[..r.taken] + t[r.taken..];
      FeedCountConcat(buf[..r.taken], t[r.taken..]);
      FeedCountConcat(r.sent, Session(r.lf, t[r.taken..], sizes[1..]).sent);
    }
  }

  /** In mid-line a scan copies up to the first line feed. */
  lemma {:induction false} ScanFirstFeed(b: nat, s: string)
    ensures var r := Scan(false, b, s);
            if FirstFeed(s) < |s| then FirstFeed(r.sent) == FirstFeed(s) < |r.sent| else r == Run(s, |s|, false)
    decreases |s|
  {
    if s != "" && s[0] != '\n' {
      ScanFirstFeed(b, s[1..]);
      assert s == [s[0]] + s[1..];
      assert Scan(false, b, s).sent[1..] == Scan(false, b, s[1..]).sent;
    }
  }

  lemma {:induction false} SessionFirstFeed(t: string, sizes: seq<nat>)
    requires Session(false, t, sizes).left == ""
    ensures FirstFeed(Session(false, t, sizes).sent) == FirstFeed(t)
    decreases |sizes|
  {
    if sizes != [] {
      var buf := t[..Min(sizes[0], |t|)];
      var r := Call(false, buf);
      ScanFirstFeed(Budget(false, buf, 0), buf);
      assert t == buf + t[|buf|..];
      FirstFeedConcat(buf, t[|buf|..]);
      FirstFeedConcat(r.sent, Session(r.lf, t[r.taken..], sizes[1..]).sent);
      if FirstFeed(buf) == |buf| {
        SessionFirstFeed(t[|buf|..], sizes[1..]);
      }
    }
  }

  /** A session that begins by escaping a dot sends one dot more than one in mid-line. */
  lemma {:induction false} SessionExtraDot(t: string, sizes: seq<nat>)
    requires t != "" && t[0] == '.' && Session(true, t, sizes).left == ""
    ensures Session(false, t, sizes).left == "" && Session(true, t, sizes).sent == "." + Session(false, t, sizes).sent
    decreases |sizes|
  {
    var buf := t[..Min(sizes[0], |t|)];
    if buf == "" {
      assert t[0..] == t;
      SessionExtraDot(t, sizes[1..]);
    } else {
      var r := Call(false, buf);
      CallExtraDot(buf);
      Assoc(".", r.sent, Session(r.lf, t[r.taken..], sizes[1..]).sent);
    }
  }

  lemma CallExtraDot(buf: string)
    requires buf != "" && buf[0] == '.'
    ensures var r := Call(false, buf); Call(true, buf) == Run("." + r.sent, r.taken, r.lf)
  {
    var s := Scan(false, 1, buf[1..]).sent;
    assert ".." + s == "." + (['.'] + s);
  }

  /** A dot escaped in mid-line is never made up for. */
  lemma ExtraDotShows(t: string, sizes: seq<nat>)
    requires t != "" && t[0] == '.' && Session(true, t, sizes).left == ""
    ensures Session(true, t, sizes).sent != Stuff(false, t)
  {
    SessionExtraDot(t, sizes);
    SessionFirstFeed(t, sizes);
    StuffFeeds(false, t);
    FirstFeedConcat(".", Session(false, t, sizes).sent);
    assert "."[1..] == "";
    assert FirstFeed(".") == 1;
  }

  lemma {:induction false} EmptySession(lf: bool, sizes: seq<nat>)
    ensures Session(lf, "", sizes) == Transcript("", "") && ChunksOk("", sizes)
  {
    if sizes != [] {
      EmptySession(lf, sizes[1..]);
      assert ""[..0] == "" && ""[0..] == "";
    }
  }

  lemma AfterFirst(prev: char, lf: bool, t: string)
    requires t != "" && CrlfOnly(prev, t) && (!lf ==> prev != '\r')
    ensures InStep(lf, true, t) <==> if lf then !(t[0] == '\n' && |t| > 1 && t[1] == '.') else t[0] != '.'
  {
    var c, r := t[0], t[1..];
    if lf && c == '\n' {
      if r != "" {
        CrlfInStep(r[0], false, r[1..]);
      }
    } else {
      CrlfInStep(c, false, r);
    }
  }

  lemma {:induction false} CrlfDrop(prev: char, s: string, n: nat)
    requires CrlfOnly(prev, s) && n <= |s|
    ensures CrlfOnly(if n == 0 then prev else s[n - 1], s[n..])
    decreases n
  {
    if n > 0 {
      CrlfDrop(s[0], s[1..], n - 1);
      assert s[1..][n - 1..] == s[n..];
    } else {
      assert s[0..] == s;
    }
  }

  /** Up to the next dot to be escaped, a CRLF text needs no stuffing and the writer is in step. */
  lemma PlainUpTo(prev: char, lf: bool, buf: string, w: nat, n: nat)
    requires w <= |buf| && w <= n <= NextDot(lf, buf, w) && CrlfOnly(prev, buf[w..]) && (lf ==> prev != '\r')
    ensures Stuff(lf, buf[w..n]) == buf[w..n]
    ensures LfAt(lf, buf, w, n) == StartAfter(lf, buf[w..n])
    ensures n < |buf| ==> (n == NextDot(lf, buf, w) <==> StartAfter(lf, buf[w..n]) && buf[n] == '.')
  {
    PlainText(prev, lf, buf, w, n);
    DotIsNext(prev, lf, buf, w, n);
  }

  lemma {:induction false} PlainText(prev: char, lf: bool, buf: string, w: nat, n: nat)
    requires w <= |buf| && w <= n <= NextDot(lf, buf, w) && CrlfOnly(prev, buf[w..]) && (lf ==> prev != '\r')
    ensures Stuff(lf, buf[w..n]) == buf[w..n]
    decreases n - w
  {
    if w < n {
      var c := buf[w];
      assert buf[w..][0] == c && buf[w..][1..] == buf[w + 1..];
      PlainText(c, c == '\n', buf, w + 1, n);
      assert buf[w..n] == [c] + buf[w + 1..n];
    }
  }

  lemma {:induction false} DotIsNext(prev: char, lf: bool, buf: string, w: nat, n: nat)
    requires w <= |buf| && w <= n <= NextDot(lf, buf, w) && CrlfOnly(prev, buf[w..]) && (lf ==> prev != '\r')
    ensures LfAt(lf, buf, w, n) == StartAfter(lf, buf[w..n])
    ensures n < |buf| ==> (n == NextDot(lf, buf, w) <==> StartAfter(lf, buf[w..n]) && buf[n] == '.')
    decreases n - w
  {
    if w < n {
      var c := buf[w];
      assert buf[w..][0] == c && buf[w..][1..] == buf[w + 1..];
      DotIsNext(c, c == '\n', buf, w + 1, n);
      assert buf[w..n] == [c] + buf[w + 1..n];
      StartAfterConcat(lf, [c], buf[w + 1..n]);
    }
  }

  lemma {:induction false} CrlfTake(prev: char, s: string, more: string)
    requires CrlfOnly(prev, s + more)
    ensures CrlfOnly(prev, s)
    decreases |s|
  {
    if s != "" {
      assert (s + more)[1..] == s[1..] + more;
      CrlfTake(s[0], s[1..], more);
    }
  }

  lemma SameHead(h: string, x: string, y: string)
    ensures h + x == h + y <==> x == y
  {
    assert (h + x)[|h|..] == x && (h + y)[|h|..] == y;
  }

  lemma SplitAt(buf: string, more: string, n: nat)
    requires n <= |buf|
    ensures buf[..n] + (buf[n..] + more) == buf + more && (buf + more)[n..] == buf[n..] + more
  {
  }

  /** Before the first dot to be escaped the stuffing adds nothing. */
  lemma StuffFrom(prev: char, lf: bool, buf: string, more: string, n: nat)
    requires CrlfOnly(prev, buf + more) && (lf ==> prev != '\r') && n <= NextDot(lf, buf, 0)
    ensures Stuff(lf, buf + more) == buf[..n] + Stuff(StartAfter(lf, buf[..n]), buf[n..] + more)
    ensures LfAt(lf, buf, 0, n) == StartAfter(lf, buf[..n])
    ensures n < |buf| ==> (n == NextDot(lf, buf, 0) <==> StartAfter(lf, buf[..n]) && buf[n] == '.')
  {
    CrlfTake(prev, buf, more);
    assert buf[0..] == buf && buf[0..n] == buf[..n];
    PlainUpTo(prev, lf, buf, 0, n);
    SplitAt(buf, more, n);
    StuffConcat(lf, buf[..n], buf[n..] + more);
  }
}
