/**
 The escaping writer (libproxy/dottransfer.cc) on a stream that does not take what
 it is offered.  One call is cut short, by any answer at any of its writes; the caller
 goes on where the reported count and status make it go on (z_transfer2_write_dest,
 libproxy/transfer2.cc), and from then on the stream takes everything.  For CRLF text
 the lemmas say exactly when the whole output is still the stuffed text.
 */
module DotStall {
  import opened Options
  import opened Streams
  import opened DotText
  import opened DotWriter
  import opened DotFit

  /** What the caller offers next: it advances past what was written only on NORMAL. */
  function Left(o: Out, buf: string): string
    requires o.written <= |buf|
  {
    if o.res == Normal then buf[o.written..] else buf
  }

  /** All that has gone out when the stream takes everything from the next call on. */
  function Resumed(o: Out, buf: string, more: string, sizes: seq<nat>): string
    requires o.written <= |buf|
  {
    o.sent + (if o.state == AtDot then "." else "") + Session(o.state == AfterLF, Left(o, buf) + more, sizes).sent
  }

  /** The rest is handed over to the end. */
  predicate Completes(o: Out, buf: string, more: string, sizes: seq<nat>)
    requires o.written <= |buf|
  {
    Session(o.state == AfterLF, Left(o, buf) + more, sizes).left == ""
  }

  /** The rest is cut into pieces that a writer in step sends right. */
  predicate PiecesOk(o: Out, buf: string, more: string, sizes: seq<nat>)
    requires o.written <= |buf|
  {
    ChunksOk(Left(o, buf) + more, sizes)
  }

  /** A call that begins by owing a dot sends it and goes on as from the middle of a line. */
  lemma OwedDot(buf: string, sink: seq<WriteAnswer>)
    requires Generous(sink, |buf|, 2 * Budget(false, buf, 0) + 2)
    ensures var o, r := DotPhase(buf, 0, sink), Call(false, buf);
            o.state == StateOf(r.lf) && o.sent == "." + r.sent && o.written == r.taken && o.res == Normal
  {
    assert sink[0] in sink && forall a :: a in Rest(sink) ==> a in sink;
    FullPhase(false, buf, 0, Rest(sink));
    assert buf[0..] == buf;
  }

  /** Going on at `n`, before any dot to be escaped, in some state. */
  lemma ResumeAt(prev: char, lf: bool, buf: string, more: string, n: nat, state: bool, sizes: seq<nat>)
    requires CrlfOnly(prev, buf + more) && (lf ==> prev != '\r') && n <= NextDot(lf, buf, 0)
    requires Session(state, buf[n..] + more, sizes).left == ""
    ensures buf[..n] + Session(state, buf[n..] + more, sizes).sent == Stuff(lf, buf + more) <==>
            Fit(state, StartAfter(lf, buf[..n]), buf[n..] + more) && ChunksOk(buf[n..] + more, sizes)
  {
    var t, start := buf[n..] + more, StartAfter(lf, buf[..n]);
    var before := if n == 0 then prev else (buf + more)[n - 1];
    CrlfDrop(prev, buf + more, n);
    SplitAt(buf, more, n);
    StuffFrom(prev, lf, buf, more, n);
    FitExact(before, state, start, t, sizes);
    SameHead(buf[..n], Session(state, t, sizes).sent, Stuff(start, t));
  }

  predicate Waits(s: Status) { s == Normal || s == Again }

  /** The writer believes in a line start at `n`, where there is none, and that matters. */
  predicate Misled(text: string, n: nat)
    requires n < |text|
  {
    text[n] == '.' || (text[n] == '\n' && n + 1 < |text| && text[n + 1] == '.')
  }

  /** A buffer without a dot to be escaped, taken only up to `n`, or not at all: the state has run ahead
      to the end of the buffer, and the rest goes wrong exactly when the buffer ends a line, the cut
      does not, and the rest begins with a dot, or with the line feed before one. */
  lemma ShortWriteExact(prev: char, lf: bool, buf: string, more: string, sink: seq<WriteAnswer>, sizes: seq<nat>)
    requires CrlfOnly(prev, buf + more) && (lf ==> prev != '\r')
    requires NextDot(lf, buf, 0) == |buf| && Waits(WriteStatus(sink)) && WriteCount(sink, |buf|) < |buf|
    requires Completes(DataPhase(lf, buf, 0, sink), buf, more, sizes)
    ensures var n := WriteCount(sink, |buf|);
            Resumed(DataPhase(lf, buf, 0, sink), buf, more, sizes) == Stuff(lf, buf + more) <==>
            PiecesOk(DataPhase(lf, buf, 0, sink), buf, more, sizes) &&
            !(buf[|buf| - 1] == '\n' && !StartAfter(lf, buf[..n]) && Misled(buf + more, n))
  {
    var n, ends := WriteCount(sink, |buf|), buf[|buf| - 1] == '\n';
    var o := Out(StateOf(ends), buf[..n], n, WriteStatus(sink), Rest(sink));
    StuffFrom(prev, lf, buf, more, |buf|);
    StuffFrom(prev, lf, buf, more, n);
    assert buf[..|buf|] == buf && buf[0..0 + n] == buf[..n];
    assert DataPhase(lf, buf, 0, sink) == o;
    ResumeAt(prev, lf, buf, more, n, ends, sizes);
    ResumedIs(o, buf, more, sizes, n);
    FitAt(buf, more, n, ends, StartAfter(lf, buf[..n]));
  }

  lemma ResumedIs(o: Out, buf: string, more: string, sizes: seq<nat>, n: nat)
    requires n <= |buf| && o.written == n && o.sent == buf[..n] && o.state != AtDot && (o.res == Normal || n == 0)
    ensures Left(o, buf) == buf[n..]
    ensures Resumed(o, buf, more, sizes) == buf[..n] + Session(o.state == AfterLF, buf[n..] + more, sizes).sent
  {
    assert buf[0..] == buf && buf[..n] + "" == buf[..n];
  }

  /** The write before a dot to be escaped, taken in part or refused: the rest goes right, unless the
      dot is the first byte and is refused, when it is taken for one inside a line. */
  lemma StopBeforeDotExact(prev: char, lf: bool, buf: string, more: string, sink: seq<WriteAnswer>, sizes: seq<nat>)
    requires CrlfOnly(prev, buf + more) && (lf ==> prev != '\r')
    requires NextDot(lf, buf, 0) < |buf| && Waits(WriteStatus(sink))
    requires !(WriteStatus(sink) == Normal && WriteCount(sink, NextDot(lf, buf, 0)) == NextDot(lf, buf, 0))
    requires Completes(DataPhase(lf, buf, 0, sink), buf, more, sizes)
    ensures Resumed(DataPhase(lf, buf, 0, sink), buf, more, sizes) == Stuff(lf, buf + more) <==>
            PiecesOk(DataPhase(lf, buf, 0, sink), buf, more, sizes) && NextDot(lf, buf, 0) > 0
  {
    var n := WriteCount(sink, NextDot(lf, buf, 0));
    var o := Out(InData, buf[..n], n, WriteStatus(sink), Rest(sink));
    assert buf[0..0 + n] == buf[..n];
    assert DataPhase(lf, buf, 0, sink) == o;
    StuffFrom(prev, lf, buf, more, n);
    ResumeAt(prev, lf, buf, more, n, false, sizes);
    ResumedIs(o, buf, more, sizes, n);
    assert (buf[n..] + more)[0] == buf[n];
  }

  /** The stuffing of a text from its first dot to be escaped on. */
  lemma StuffFromDot(prev: char, lf: bool, buf: string, more: string)
    requires CrlfOnly(prev, buf + more) && (lf ==> prev != '\r') && NextDot(lf, buf, 0) < |buf|
    ensures var d := NextDot(lf, buf, 0);
            && Stuff(lf, buf + more) == buf[..d] + ("." + Stuff(false, buf[d..] + more))
            && (d > 0 ==> !(lf && buf[0] == '.'))
            && exists before :: CrlfOnly(before, buf[d..] + more)
  {
    var d := NextDot(lf, buf, 0);
    StuffFrom(prev, lf, buf, more, d);
    StuffFrom(prev, lf, buf, more, 0);
    assert (buf[d..] + more)[0] == '.';
    StartMatters(buf[d..] + more);
    CrlfDrop(prev, buf + more, d);
    SplitAt(buf, more, d);
  }

  lemma ReachesDot(lf: bool, buf: string, sink: seq<WriteAnswer>)
    requires var d := NextDot(lf, buf, 0); d < |buf| && WriteStatus(sink) == Normal && WriteCount(sink, d) == d
    ensures var d := NextDot(lf, buf, 0); var o := DotPhase(buf, d, Rest(sink));
            DataPhase(lf, buf, 0, sink) == o.(sent := buf[..d] + o.sent)
  {
    var d := NextDot(lf, buf, 0);
    assert buf[0..0 + d] == buf[..d];
    assert DataPhase(lf, buf, 0, sink) == WriteTo(d, LfAt(lf, buf, 0, d), buf, 0, sink);
  }

  /** The escaping dot not taken: the rest goes right exactly when the stream answers NORMAL, so that the
      caller moves on, or the dot is the first byte; else the bytes before it go out twice. */
  lemma RefusedDotExact(prev: char, lf: bool, buf: string, more: string, sink: seq<WriteAnswer>, sizes: seq<nat>)
    requires CrlfOnly(prev, buf + more) && (lf ==> prev != '\r')
    requires var d := NextDot(lf, buf, 0); d < |buf| && WriteStatus(sink) == Normal && WriteCount(sink, d) == d
    requires Waits(WriteStatus(Rest(sink))) && WriteCount(Rest(sink), 1) == 0
    requires Completes(DataPhase(lf, buf, 0, sink), buf, more, sizes)
    ensures Resumed(DataPhase(lf, buf, 0, sink), buf, more, sizes) == Stuff(lf, buf + more) <==>
            PiecesOk(DataPhase(lf, buf, 0, sink), buf, more, sizes) && (WriteStatus(Rest(sink)) == Normal || NextDot(lf, buf, 0) == 0)
  {
    var d := NextDot(lf, buf, 0);
    var o := Out(AtDot, buf[..d], d, WriteStatus(Rest(sink)), Rest(Rest(sink)));
    ReachesDot(lf, buf, sink);
    assert DotPhase(buf, d, Rest(sink)) == o.(sent := "") && buf[..d] + "" == buf[..d];
    if o.res == Normal || d == 0 {
      OwedAtDot(prev, lf, buf, more, o, sizes);
    } else {
      OwedAgain(prev, lf, buf, more, o, sizes);
    }
  }

  lemma OwedAtDot(prev: char, lf: bool, buf: string, more: string, o: Out, sizes: seq<nat>)
    requires CrlfOnly(prev, buf + more) && (lf ==> prev != '\r') && NextDot(lf, buf, 0) < |buf|
    requires var d := NextDot(lf, buf, 0); o.state == AtDot && o.written == d && o.sent == buf[..d] && (o.res == Normal || d == 0)
    requires Completes(o, buf, more, sizes)
    ensures Resumed(o, buf, more, sizes) == Stuff(lf, buf + more) <==> PiecesOk(o, buf, more, sizes)
  {
    var d := NextDot(lf, buf, 0);
    StuffFromDot(prev, lf, buf, more);
    assert buf[0..] == buf;
    assert Left(o, buf) == buf[d..];
    var before :| CrlfOnly(before, buf[d..] + more);
    FitExact(before, false, false, buf[d..] + more, sizes);
    DotThen(buf[..d], Session(false, buf[d..] + more, sizes).sent, Stuff(false, buf[d..] + more));
  }

  lemma DotThen(x: string, s: string, full: string)
    ensures x + "." + s == x + ("." + full) <==> s == full
  {
    Assoc(x, ".", s);
    SameHead(x, "." + s, "." + full);
    SameHead(".", s, full);
  }

  /** Going back to before a dot that begins a line repeats the line feed before it. */
  lemma RepeatedFeed(prev: char, lf: bool, buf: string, more: string, state: bool, sizes: seq<nat>)
    requires CrlfOnly(prev, buf + more) && (lf ==> prev != '\r') && 0 < NextDot(lf, buf, 0) < |buf|
    requires Session(state, buf + more, sizes).left == ""
    ensures var d := NextDot(lf, buf, 0);
            buf[..d] + "." + Session(state, buf + more, sizes).sent != Stuff(lf, buf + more)
  {
    var d := NextDot(lf, buf, 0);
    StuffFromDot(prev, lf, buf, more);
    StuffFrom(prev, lf, buf, more, d);
    DotThen(buf[..d], Session(state, buf + more, sizes).sent, Stuff(false, buf[d..] + more));
    SessionFeeds(state, buf + more, sizes);
    StuffFeeds(false, buf[d..] + more);
    SplitAt(buf, more, d);
    FeedCountConcat(buf[..d], buf[d..] + more);
    EndsInFeed(buf[..d]);
  }

  lemma {:induction false} EndsInFeed(s: string)
    requires s != "" && s[|s| - 1] == '\n'
    ensures FeedCount(s) > 0
  {
    if |s| > 1 {
      EndsInFeed(s[1..]);
    }
  }

  lemma OwedAgain(prev: char, lf: bool, buf: string, more: string, o: Out, sizes: seq<nat>)
    requires CrlfOnly(prev, buf + more) && (lf ==> prev != '\r') && 0 < NextDot(lf, buf, 0) < |buf|
    requires o.state == AtDot && o.written <= |buf| && o.res == Again && o.sent == buf[..NextDot(lf, buf, 0)]
    requires Completes(o, buf, more, sizes)
    ensures Resumed(o, buf, more, sizes) != Stuff(lf, buf + more)
  {
    RepeatedFeed(prev, lf, buf, more, false, sizes);
  }

  /** A first byte that is a dot, escaped, leaves the call as it would be in the middle of a line. */
  lemma FirstDotPassed(buf: string, more: string, sink: seq<WriteAnswer>, sizes: seq<nat>)
    requires NextDot(true, buf, 0) == 0 < |buf|
    requires WriteStatus(sink) == Normal == WriteStatus(Rest(sink)) && WriteCount(Rest(sink), 1) == 1
    ensures var o, p := DataPhase(true, buf, 0, sink), DataPhase(false, buf, 0, Rest(Rest(sink)));
            && (Completes(o, buf, more, sizes) <==> Completes(p, buf, more, sizes))
            && (PiecesOk(o, buf, more, sizes) <==> PiecesOk(p, buf, more, sizes))
            && (Resumed(o, buf, more, sizes) == Stuff(true, buf + more) <==> Resumed(p, buf, more, sizes) == Stuff(false, buf + more))
  {
    var o, p := DataPhase(true, buf, 0, sink), DataPhase(false, buf, 0, Rest(Rest(sink)));
    ReachesDot(true, buf, sink);
    assert DotPhase(buf, 0, Rest(sink)) == p.(sent := "." + p.sent);
    assert buf[..0] + ("." + p.sent) == "." + p.sent;
    PrefixDot(p, buf, more, sizes);
    StartMatters(buf + more);
    SameHead(".", Resumed(p, buf, more, sizes), Stuff(false, buf + more));
  }

  lemma PrefixDot(p: Out, buf: string, more: string, sizes: seq<nat>)
    requires p.written <= |buf|
    ensures Resumed(p.(sent := "." + p.sent), buf, more, sizes) == "." + Resumed(p, buf, more, sizes)
    ensures Left(p.(sent := "." + p.sent), buf) == Left(p, buf)
  {
    var dot, rest := if p.state == AtDot then "." else "", Session(p.state == AfterLF, Left(p, buf) + more, sizes).sent;
    assert "." + p.sent + dot + rest == "." + (p.sent + dot + rest);
  }

  lemma {:induction false} NextDotShift(lf: bool, buf: string, w: nat, k: nat)
    requires w <= |buf| && k <= |buf| - w
    ensures NextDot(lf, buf[w..], k) + w == NextDot(lf, buf, w + k)
    ensures forall j :: k <= j <= |buf| - w ==> LfAt(lf, buf[w..], k, j) == LfAt(lf, buf, w + k, w + j)
    decreases |buf| - w - k
  {
    if k < |buf| - w {
      NextDotShift(Next(lf, buf[w + k]), buf, w, k + 1);
    }
  }

  /** The outcome of a call that has escaped the dot at `d` and written `n` bytes towards `e`. */
  predicate CutOut(o: Out, buf: string, d: nat, e: nat, n: nat, res: Status)
    requires d + n <= e <= |buf|
  {
    && o.res == res && o.written == d + n && o.sent == buf[..d] + ("." + buf[d..d + n])
    && (e < |buf| ==> o.state == InData) && (e == |buf| ==> o.state == StateOf(LfAt(false, buf, d, e)))
  }

  /** Past a dot escaped in mid-buffer the call goes up to the next dot, and no further. */
  lemma PastDot(lf: bool, buf: string, sink: seq<WriteAnswer>)
    requires var d := NextDot(lf, buf, 0); 0 < d < |buf| && WriteStatus(sink) == Normal && WriteCount(sink, d) == d
    requires WriteStatus(Rest(sink)) == Normal && WriteCount(Rest(sink), 1) == 1
    ensures var d, rest := NextDot(lf, buf, 0), Rest(Rest(sink)); var e := NextDot(false, buf, d);
            d < e && CutOut(DataPhase(lf, buf, 0, sink), buf, d, e, WriteCount(rest, e - d), WriteStatus(rest))
  {
    var d, rest := NextDot(lf, buf, 0), Rest(Rest(sink));
    ReachesDot(lf, buf, sink);
    var o := DataPhase(false, buf, d, rest);
    assert DotPhase(buf, d, Rest(sink)) == o.(sent := "." + o.sent);
    FromDot(buf, d, rest);
  }

  lemma FromDot(buf: string, d: nat, sink: seq<WriteAnswer>)
    requires 0 < d < |buf| && buf[d] == '.'
    ensures var e := NextDot(false, buf, d); var n := WriteCount(sink, e - d);
            && d < e
            && DataPhase(false, buf, d, sink) ==
                 Out(if e == |buf| then StateOf(LfAt(false, buf, d, e)) else InData, buf[d..d + n], d + n, WriteStatus(sink), Rest(sink))
  {
    var e := NextDot(false, buf, d);
    assert WriteCount(sink, e - d) != e;
  }

  /** The call has escaped the dot at `d` and written `n` bytes from there on. */
  predicate Passed(o: Out, buf: string, d: nat, n: nat) {
    d + n <= |buf| && o.written == d + n && o.sent == buf[..d] + ("." + buf[d..d + n]) && o.state != AtDot && o.res == Normal
  }

  lemma ResumedPassed(o: Out, buf: string, more: string, sizes: seq<nat>, d: nat, n: nat)
    requires Passed(o, buf, d, n)
    ensures Left(o, buf) == buf[d + n..]
    ensures Resumed(o, buf, more, sizes) ==
            buf[..d] + ("." + buf[d..d + n]) + "" + Session(o.state == AfterLF, buf[d + n..] + more, sizes).sent
  {
  }

  /** The rest of a buffer past a dot escaped in it, taken as a text of its own. */
  lemma AfterDotFits(prev: char, lf: bool, buf: string, more: string, o: Out, sizes: seq<nat>, d: nat, n: nat)
    requires CrlfOnly(prev, buf + more) && (lf ==> prev != '\r') && d == NextDot(lf, buf, 0) < |buf|
    requires d + n <= NextDot(false, buf, d) && Passed(o, buf, d, n) && Completes(o, buf, more, sizes)
    ensures Resumed(o, buf, more, sizes) == Stuff(lf, buf + more) <==>
            Fit(o.state == AfterLF, StartAfter(false, buf[d..d + n]), buf[d + n..] + more) && PiecesOk(o, buf, more, sizes)
  {
    var before := DotHead(prev, lf, buf, more, d);
    ResumedPassed(o, buf, more, sizes, d, n);
    TailFits(before, buf, more, d, n, o.state == AfterLF, sizes);
    DotBetween(buf[..d], buf[d..d + n], Session(o.state == AfterLF, buf[d + n..] + more, sizes).sent, Stuff(false, buf[d..] + more));
  }

  lemma DotHead(prev: char, lf: bool, buf: string, more: string, d: nat) returns (before: char)
    requires CrlfOnly(prev, buf + more) && (lf ==> prev != '\r') && d == NextDot(lf, buf, 0) < |buf|
    ensures Stuff(lf, buf + more) == buf[..d] + ("." + Stuff(false, buf[d..] + more))
    ensures CrlfOnly(before, buf[d..] + more) && CrlfOnly(before, buf[d..])
  {
    StuffFromDot(prev, lf, buf, more);
    before :| CrlfOnly(before, buf[d..] + more);
    CrlfTake(before, buf[d..], more);
  }

  lemma TailFits(before: char, buf: string, more: string, d: nat, n: nat, state: bool, sizes: seq<nat>)
    requires d <= |buf| && d + n <= NextDot(false, buf, d) && CrlfOnly(before, buf[d..] + more)
    requires Session(state, buf[d + n..] + more, sizes).left == ""
    ensures buf[d..d + n] + Session(state, buf[d + n..] + more, sizes).sent == Stuff(false, buf[d..] + more) <==>
            Fit(state, StartAfter(false, buf[d..d + n]), buf[d + n..] + more) && ChunksOk(buf[d + n..] + more, sizes)
  {
    NextDotShift(false, buf, d, 0);
    assert buf[d..][n..] == buf[d + n..] && buf[d..][..n] == buf[d..d + n];
    ResumeAt(before, false, buf[d..], more, n, state, sizes);
  }

  lemma DotBetween(x: string, y: string, s: string, full: string)
    ensures x + ("." + y) + "" + s == x + ("." + full) <==> y + s == full
  {
    assert x + ("." + y) + "" + s == x + ("." + (y + s));
    SameHead(x, "." + (y + s), "." + full);
    SameHead(".", y + s, full);
  }

  lemma AfterDotAgain(prev: char, lf: bool, buf: string, more: string, o: Out, sizes: seq<nat>)
    requires CrlfOnly(prev, buf + more) && (lf ==> prev != '\r') && 0 < NextDot(lf, buf, 0) < |buf|
    requires o.sent == buf[..NextDot(lf, buf, 0)] + "." && o.state != AtDot && o.res == Again && o.written <= |buf|
    requires Completes(o, buf, more, sizes)
    ensures Resumed(o, buf, more, sizes) != Stuff(lf, buf + more)
  {
    var d := NextDot(lf, buf, 0);
    assert buf[..d] + "." + "" == buf[..d] + ".";
    RepeatedFeed(prev, lf, buf, more, o.state == AfterLF, sizes);
  }

  /** A write cut short past a dot escaped in mid-buffer.  Refused, it makes the caller repeat the buffer.
      Before another dot it goes right exactly when it stops short of it; at the end of the buffer, exactly
      when it takes all of it or the state that has run ahead does not matter. */
  lemma ShortAfterDotExact(prev: char, lf: bool, buf: string, more: string, sink: seq<WriteAnswer>, sizes: seq<nat>)
    requires CrlfOnly(prev, buf + more) && (lf ==> prev != '\r')
    requires var d := NextDot(lf, buf, 0); 0 < d < |buf| && WriteStatus(sink) == Normal && WriteCount(sink, d) == d
    requires WriteStatus(Rest(sink)) == Normal && WriteCount(Rest(sink), 1) == 1 && Waits(WriteStatus(Rest(Rest(sink))))
    requires Completes(DataPhase(lf, buf, 0, sink), buf, more, sizes)
    ensures var d, rest := NextDot(lf, buf, 0), Rest(Rest(sink)); var e := NextDot(false, buf, d);
            Resumed(DataPhase(lf, buf, 0, sink), buf, more, sizes) == Stuff(lf, buf + more) <==>
            && WriteStatus(rest) == Normal && PiecesOk(DataPhase(lf, buf, 0, sink), buf, more, sizes)
            && CutRight(buf, more, d, e, WriteCount(rest, e - d))
  {
    var d, rest := NextDot(lf, buf, 0), Rest(Rest(sink));
    var e := NextDot(false, buf, d);
    PastDot(lf, buf, sink);
    CutAfterDot(prev, lf, buf, more, DataPhase(lf, buf, 0, sink), WriteStatus(rest), sizes, d, e, WriteCount(rest, e - d));
  }

  /** Short of the next dot; or at the end of the buffer, or where the state that has run ahead to it does not matter. */
  predicate CutRight(buf: string, more: string, d: nat, e: nat, n: nat)
    requires d < |buf| && d + n <= e <= |buf|
  {
    if e < |buf| then n < e - d
    else d + n == |buf| || !(buf[|buf| - 1] == '\n' && !StartAfter(false, buf[d..d + n]) && Misled(buf + more, d + n))
  }

  /** The same for the outcome of the call. */
  lemma CutAfterDot(prev: char, lf: bool, buf: string, more: string, o: Out, res: Status, sizes: seq<nat>, d: nat, e: nat, n: nat)
    requires CrlfOnly(prev, buf + more) && (lf ==> prev != '\r')
    requires 0 < d == NextDot(lf, buf, 0) < |buf| && e == NextDot(false, buf, d) && d + n <= e && Waits(res) && (res == Again ==> n == 0)
    requires CutOut(o, buf, d, e, n, res) && Completes(o, buf, more, sizes)
    ensures Resumed(o, buf, more, sizes) == Stuff(lf, buf + more) <==>
            res == Normal && PiecesOk(o, buf, more, sizes) && CutRight(buf, more, d, e, n)
  {
    if res == Again {
      assert buf[d..d + 0] == "" && "." + "" == ".";
      AfterDotAgain(prev, lf, buf, more, o, sizes);
    } else if e < |buf| {
      ShortOfNextDot(prev, lf, buf, more, o, sizes, d, n);
    } else {
      ShortOfEnd(prev, lf, buf, more, o, sizes, d, n);
    }
  }

  lemma ShortOfNextDot(prev: char, lf: bool, buf: string, more: string, o: Out, sizes: seq<nat>, d: nat, n: nat)
    requires CrlfOnly(prev, buf + more) && (lf ==> prev != '\r') && d == NextDot(lf, buf, 0) < |buf|
    requires d + n <= NextDot(false, buf, d) < |buf| && Passed(o, buf, d, n) && o.state == InData && Completes(o, buf, more, sizes)
    ensures Resumed(o, buf, more, sizes) == Stuff(lf, buf + more) <==> PiecesOk(o, buf, more, sizes) && d + n < NextDot(false, buf, d)
  {
    var before := DotHead(prev, lf, buf, more, d);
    AfterDotFits(prev, lf, buf, more, o, sizes, d, n);
    PlainUpTo(before, false, buf, d, d + n);
    assert (buf[d + n..] + more)[0] == buf[d + n];
  }

  lemma ShortOfEnd(prev: char, lf: bool, buf: string, more: string, o: Out, sizes: seq<nat>, d: nat, n: nat)
    requires CrlfOnly(prev, buf + more) && (lf ==> prev != '\r') && d == NextDot(lf, buf, 0) < |buf|
    requires NextDot(false, buf, d) == |buf| && Passed(o, buf, d, n) && Completes(o, buf, more, sizes)
    requires o.state == StateOf(LfAt(false, buf, d, |buf|))
    ensures Resumed(o, buf, more, sizes) == Stuff(lf, buf + more) <==>
            PiecesOk(o, buf, more, sizes) &&
            (d + n == |buf| || !(buf[|buf| - 1] == '\n' && !StartAfter(false, buf[d..d + n]) && Misled(buf + more, d + n)))
  {
    AfterDotFits(prev, lf, buf, more, o, sizes, d, n);
    PlainTail(prev, lf, buf, more, d, n);
    if d + n < |buf| {
      FitAt(buf, more, d + n, o.state == AfterLF, StartAfter(false, buf[d..d + n]));
    }
  }

  lemma PlainTail(prev: char, lf: bool, buf: string, more: string, d: nat, n: nat)
    requires CrlfOnly(prev, buf + more) && (lf ==> prev != '\r') && d == NextDot(lf, buf, 0) < |buf|
    requires NextDot(false, buf, d) == |buf| && d + n <= |buf|
    ensures LfAt(false, buf, d, |buf|) == (buf[|buf| - 1] == '\n')
    ensures d + n < |buf| ==> !(StartAfter(false, buf[d..d + n]) && buf[d + n] == '.')
    ensures d + n == |buf| ==> StartAfter(false, buf[d..d + n]) == (buf[|buf| - 1] == '\n')
  {
    var before := DotHead(prev, lf, buf, more, d);
    PlainUpTo(before, false, buf, d, |buf|);
    PlainUpTo(before, false, buf, d, d + n);
    assert buf[d..|buf|][|buf| - d - 1] == buf[|buf| - 1];
  }

  lemma FitAt(buf: string, more: string, k: nat, state: bool, start: bool)
    requires k < |buf| && (start ==> buf[k] != '.')
    ensures Fit(state, start, buf[k..] + more) <==> !(state && !start && Misled(buf + more, k))
  {
    var t := buf[k..] + more;
    assert t[0] == (buf + more)[k];
    assert k + 1 < |buf + more| ==> t[1] == (buf + more)[k + 1];
  }

  /** CRLF text and one short write are enough to lose a dot: "a", its line end cut before the line
      feed, and a line that begins with a dot. */
  lemma ShortWriteLosesDot()
    ensures var o := DataPhase(false, "a\r\n", 0, [Took(2)]);
            && o == Out(AfterLF, "a\r", 2, Normal, [])
            && Session(true, "\n.b", [3]) == Transcript("\n.b", "")
            && Resumed(o, "a\r\n", ".b", [3]) == "a\r\n.b"
    ensures Stuff(false, "a\r\n.b") == "a\r\n..b"
  {
    CutBeforeFeed();
    TakesDotAfterFeed();
    assert "a\r\n"[2..] == "\n" && "\n" + ".b" == "\n.b";
    assert "a\r" + "" + "\n.b" == "a\r\n.b";
    StuffsLast();
  }

  lemma CutBeforeFeed()
    ensures DataPhase(false, "a\r\n", 0, [Took(2)]) == Out(AfterLF, "a\r", 2, Normal, [])
  {
    var s := "a\r\n";
    assert NextDot(true, s, 3) == 3 && NextDot(false, s, 2) == 3 && NextDot(false, s, 1) == 3;
    assert LfAt(true, s, 3, 3) && LfAt(false, s, 2, 3) && LfAt(false, s, 1, 3);
    assert s[0..2] == "a\r" && [Took(2)][1..] == [];
  }

  lemma TakesDotAfterFeed()
    ensures Session(true, "\n.b", [3]) == Transcript("\n.b", "")
  {
    assert "\n.b"[1..] == ".b" && ".b"[1..] == "b" && "b"[1..] == "";
    assert Scan(false, 1, "b") == Run("b", 1, false) && Scan(false, 1, ".b") == Run(".b", 2, false);
    assert "\n.b"[..3] == "\n.b" && "\n.b"[3..] == "" && [3][1..] == [];
  }

  lemma StuffsLast()
    ensures Stuff(false, "a\r\n.b") == "a\r\n..b"
  {
    assert "a\r\n.b"[1..] == "\r\n.b" && "\r\n.b"[1..] == "\n.b" && "\n.b"[1..] == ".b" && ".b"[1..] == "b" && "b"[1..] == "";
    assert Stuff(false, "b") == "b" && Stuff(true, ".b") == "..b" && Stuff(false, "\n.b") == "\n..b";
    assert Stuff(false, "\r\n.b") == "\r\n..b";
  }

  /** One short write can also add a dot: the one in "a." is taken for the first of a line. */
  lemma ShortWriteAddsDot()
    ensures var o := DataPhase(false, "a.\n", 0, [Took(1)]);
            && o == Out(AfterLF, "a", 1, Normal, [])
            && Resumed(o, "a.\n", "", [2]) == "a..\n"
    ensures Stuff(false, "a.\n") == "a.\n"
  {
    CutBeforeDot();
    EscapesInnerDot();
    assert "a.\n"[1..] == ".\n" && ".\n" + "" == ".\n" && "a" + "" + "..\n" == "a..\n";
    assert ".\n"[1..] == "\n" && "\n"[1..] == "" && Stuff(false, "\n") == "\n" && Stuff(false, ".\n") == ".\n";
  }

  lemma CutBeforeDot()
    ensures DataPhase(false, "a.\n", 0, [Took(1)]) == Out(AfterLF, "a", 1, Normal, [])
  {
    var s := "a.\n";
    assert NextDot(true, s, 3) == 3 && NextDot(false, s, 2) == 3 && NextDot(false, s, 1) == 3;
    assert LfAt(true, s, 3, 3) && LfAt(false, s, 2, 3) && LfAt(false, s, 1, 3);
    assert s[0..1] == "a" && [Took(1)][1..] == [];
  }

  lemma EscapesInnerDot()
    ensures Session(true, ".\n", [2]) == Transcript("..\n", "")
  {
    assert ".\n"[1..] == "\n" && "\n"[1..] == "";
    assert Scan(false, 1, "\n") == Run("\n", 1, true);
    assert ".\n"[..2] == ".\n" && ".\n"[2..] == "" && [2][1..] == [];
  }

  /** And an escaping dot that has to wait makes the caller send what went before it twice. */
  lemma WaitingDotRepeats()
    ensures var o := DataPhase(false, "\n.", 0, [Took(1), Refused(Again)]);
            && o == Out(AtDot, "\n", 1, Again, [])
            && Resumed(o, "\n.", "", [2]) == "\n.\n.."
    ensures Stuff(false, "\n.") == "\n.."
  {
    DotWaits();
    SendsAllAgain();
    assert "\n." + "" == "\n." && "\n" + "." + "\n.." == "\n.\n..";
    assert "\n."[1..] == "." && "."[1..] == "" && Stuff(true, ".") == "..";
  }

  lemma DotWaits()
    ensures DataPhase(false, "\n.", 0, [Took(1), Refused(Again)]) == Out(AtDot, "\n", 1, Again, [])
  {
    var s, sink := "\n.", [Took(1), Refused(Again)];
    assert NextDot(true, s, 1) == 1 && NextDot(false, s, 0) == 1;
    assert sink[1..] == [Refused(Again)] && [Refused(Again)][1..] == [];
    ReachesDot(false, s, sink);
    assert DotPhase(s, 1, [Refused(Again)]) == Out(AtDot, "", 1, Again, []);
    assert s[..1] + "" == "\n";
  }

  lemma SendsAllAgain()
    ensures Session(false, "\n.", [2]) == Transcript("\n..", "")
  {
    var s, sizes := "\n.", [2];
    EscapesDot(s);
    assert s[..2] == s && s[2..] == "" && sizes[1..] == [];
    assert Session(false, "", []) == Transcript("", "");
    assert "\n.." + "" == "\n..";
  }

  lemma EscapesDot(s: string)
    requires |s| == 2 && s[0] == '\n' && s[1] == '.'
    ensures Call(false, s) == Run("\n..", 2, false)
  {
    var t := s[1..];
    assert t[1..] == "" && Scan(false, 0, t[1..]) == Run("", 0, false);
    assert Scan(true, 1, t) == Run(".." + "", 1, false);
    assert ['\n'] + (".." + "") == "\n..";
  }
}
