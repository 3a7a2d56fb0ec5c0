/**
 The escaping writer (z_dot_transfer_dst_write, libproxy/dottransfer.cc) against
 the reference of DotText.

 `DataPhase` and `DotPhase` are the two labels of the source, for any stream.
 `Scan` is what they come to when the stream takes all it is offered, character
 by character; `Session` is a whole text handed over in chunks.
 */
module DotWriter {
  import opened Streams
  import opened DotText

  datatype State = InPreamble | InData | AfterLF | AtDot

  function StateOf(lf: bool): State { if lf then AfterLF else InData }

  /** The state after a character that is not escaped: a line feed counts only in the middle of a line. */
  function Next(lf: bool, c: char): bool { !lf && c == '\n' }

  /** The next dot met just after a line feed. */
  function NextDot(lf: bool, buf: string, i: nat): (d: nat)
    requires i <= |buf|
    ensures i <= d <= |buf|
    ensures d < |buf| ==> buf[d] == '.'
    decreases |buf| - i
  {
    if i == |buf| || (lf && buf[i] == '.') then i else NextDot(Next(lf, buf[i]), buf, i + 1)
  }

  function LfAt(lf: bool, buf: string, i: nat, j: nat): bool
    requires i <= j <= |buf|
    decreases j - i
  {
    if i == j then lf else LfAt(Next(lf, buf[i]), buf, i + 1, j)
  }

  // ---------------------------------------------------------------- one call, any stream

  datatype Out = Out(state: State, sent: string, written: nat, res: Status, sink: seq<WriteAnswer>)

  function DataPhase(lf: bool, buf: string, w: nat, sink: seq<WriteAnswer>): (o: Out)
    requires w <= |buf|
    ensures o.written <= |buf| && o.state != InPreamble
    decreases |sink|, 1
  {
    var d := NextDot(lf, buf, w);
    WriteTo(d, LfAt(lf, buf, w, d), buf, w, sink)
  }

  /** The scan has stopped at `d`, in state `lf`: write up to there, and go on if all of it was taken. */
  function WriteTo(d: nat, lf: bool, buf: string, w: nat, sink: seq<WriteAnswer>): (o: Out)
    requires w <= d <= |buf|
    ensures o.written <= |buf| && o.state != InPreamble
    decreases |sink|, 0
  {
    var n := WriteCount(sink, d - w);
    if d == |buf| then
      Out(StateOf(lf), buf[w..w + n], w + n, WriteStatus(sink), Rest(sink))
    else if WriteStatus(sink) == Normal && n == d then
      var o := DotPhase(buf, w + n, Rest(sink));
      o.(sent := buf[w..w + n] + o.sent)
    else
      Out(InData, buf[w..w + n], w + n, WriteStatus(sink), Rest(sink))
  }

  function DotPhase(buf: string, w: nat, sink: seq<WriteAnswer>): (o: Out)
    requires w <= |buf|
    ensures o.written <= |buf| && o.state != InPreamble
    decreases |sink|, 0
  {
    if WriteStatus(sink) == Normal && WriteCount(sink, 1) == 1 then
      var o := DataPhase(false, buf, w, Rest(sink));
      o.(sent := "." + o.sent)
    else
      Out(AtDot, "", w, WriteStatus(sink), Rest(sink))
  }

  // ---------------------------------------------------------------- one call, full writes

  datatype Run = Run(sent: string, taken: nat, lf: bool)

  /** Escapes at most `budget` dots and stops, out of step, at the next. */
  function Scan(lf: bool, budget: nat, s: string): (r: Run)
    ensures r.taken <= |s|
    decreases |s|
  {
    if s == "" then Run("", 0, lf)
    else if lf && s[0] == '.' && budget == 0 then Run("", 0, false)
    else if lf && s[0] == '.' then
      var r := Scan(false, budget - 1, s[1..]);
      Run(".." + r.sent, 1 + r.taken, r.lf)
    else
      var r := Scan(Next(lf, s[0]), budget, s[1..]);
      Run([s[0]] + r.sent, 1 + r.taken, r.lf)
  }

  /** The comparison at line 204 lets a call escape one dot past offset 0. */
  function Budget(lf: bool, buf: string, w: nat): nat {
    if w > 0 then 0 else if lf && buf != "" && buf[0] == '.' then 2 else 1
  }

  function Call(lf: bool, buf: string): Run { Scan(lf, Budget(lf, buf, 0), buf) }

  lemma ScanStep(lf: bool, b: nat, buf: string, w: nat)
    requires w < |buf|
    ensures lf && buf[w] == '.' && b == 0 ==> Scan(lf, b, buf[w..]) == Run("", 0, false)
    ensures lf && buf[w] == '.' && b > 0 ==>
              var r := Scan(false, b - 1, buf[w + 1..]); Scan(lf, b, buf[w..]) == Run(".." + r.sent, 1 + r.taken, r.lf)
    ensures !(lf && buf[w] == '.') ==>
              var r := Scan(Next(lf, buf[w]), b, buf[w + 1..]); Scan(lf, b, buf[w..]) == Run([buf[w]] + r.sent, 1 + r.taken, r.lf)
  {
    assert buf[w..][1..] == buf[w + 1..] && buf[w..][0] == buf[w];
  }

  lemma {:induction false} DotIsAfterFeed(lf: bool, buf: string, w: nat)
    requires w <= |buf|
    ensures var d := NextDot(lf, buf, w); d < |buf| ==> LfAt(lf, buf, w, d)
    decreases |buf| - w
  {
    if w < |buf| && !(lf && buf[w] == '.') {
      DotIsAfterFeed(Next(lf, buf[w]), buf, w + 1);
    }
  }

  /** The scan copies up to the next dot and goes on from there. */
  lemma ScanToDot(lf: bool, b: nat, buf: string, w: nat)
    requires w <= |buf|
    ensures var d := NextDot(lf, buf, w); var r := Scan(LfAt(lf, buf, w, d), b, buf[d..]);
            Scan(lf, b, buf[w..]) == Run(buf[w..d] + r.sent, d - w + r.taken, r.lf)
  {
    var d := NextDot(lf, buf, w);
    ScanCopies(lf, b, buf, w, d, LfAt(lf, buf, w, d), Scan(LfAt(lf, buf, w, d), b, buf[d..]));
  }

  lemma {:induction false} ScanCopies(lf: bool, b: nat, buf: string, w: nat, d: nat, lfd: bool, r: Run)
    requires w <= |buf| && d == NextDot(lf, buf, w) && lfd == LfAt(lf, buf, w, d) && r == Scan(lfd, b, buf[d..])
    ensures Scan(lf, b, buf[w..]) == Run(buf[w..d] + r.sent, d - w + r.taken, r.lf)
    decreases |buf| - w
  {
    if w < |buf| && !(lf && buf[w] == '.') {
      ScanCopies(Next(lf, buf[w]), b, buf, w + 1, d, lfd, r);
      ScanOneMore(lf, b, buf, w, d, r);
    } else {
      assert buf[w..d] + r.sent == r.sent;
    }
  }

  lemma ScanOneMore(lf: bool, b: nat, buf: string, w: nat, d: nat, r: Run)
    requires w < d <= |buf| && !(lf && buf[w] == '.')
    requires Scan(Next(lf, buf[w]), b, buf[w + 1..]) == Run(buf[w + 1..d] + r.sent, d - (w + 1) + r.taken, r.lf)
    ensures Scan(lf, b, buf[w..]) == Run(buf[w..d] + r.sent, d - w + r.taken, r.lf)
  {
    ScanStep(lf, b, buf, w);
    SliceCons(buf, w, d, r.sent);
  }

  lemma SliceCons(buf: string, w: nat, d: nat, tail: string)
    requires w < d <= |buf|
    ensures buf[w..d] + tail == [buf[w]] + (buf[w + 1..d] + tail)
  {
  }

  /** A stream that takes everything it is offered. */
  ghost predicate Generous(sink: seq<WriteAnswer>, size: nat, calls: nat) {
    |sink| >= calls && forall a :: a in sink ==> a.Took? && a.count >= size && a.count >= 1
  }

  /** The data phase, from some point of the buffer, does what a scan of the rest does. */
  ghost predicate Matches(o: Out, r: Run, w: nat) {
    o.state == StateOf(r.lf) && o.sent == r.sent && o.written == w + r.taken && o.res == Normal
  }

  /** Under full writes the two phases come to the character scan. */
  lemma {:induction false} FullPhase(lf: bool, buf: string, w: nat, sink: seq<WriteAnswer>)
    requires w <= |buf| && Generous(sink, |buf|, 2 * Budget(lf, buf, w) + 1)
    ensures Matches(DataPhase(lf, buf, w, sink), Scan(lf, Budget(lf, buf, w), buf[w..]), w)
    decreases |sink|
  {
    var d := NextDot(lf, buf, w);
    assert sink[0] in sink;
    if d == |buf| || w > 0 {
      FullEnd(lf, buf, w, sink);
    } else {
      var after := Rest(Rest(sink));
      assert sink[1] in sink && forall a :: a in after ==> a in sink;
      FullPhase(false, buf, d, after);
      FullDot(lf, buf, sink);
    }
  }

  lemma FullEnd(lf: bool, buf: string, w: nat, sink: seq<WriteAnswer>)
    requires w <= |buf| && sink != [] && sink[0].Took? && sink[0].count >= |buf|
    requires NextDot(lf, buf, w) == |buf| || w > 0
    ensures Matches(DataPhase(lf, buf, w, sink), Scan(lf, Budget(lf, buf, w), buf[w..]), w)
  {
    var d := NextDot(lf, buf, w);
    PhaseEnds(lf, buf, w, sink);
    ScanToDot(lf, Budget(lf, buf, w), buf, w);
    DotIsAfterFeed(lf, buf, w);
    if d == |buf| {
      assert buf[d..] == "" && buf[w..d] + "" == buf[w..d];
    } else {
      ScanStep(true, 0, buf, d);
      assert buf[w..d] + "" == buf[w..d];
    }
  }

  lemma FullDot(lf: bool, buf: string, sink: seq<WriteAnswer>)
    requires NextDot(lf, buf, 0) < |buf| && Generous(sink, |buf|, 2)
    requires var d := NextDot(lf, buf, 0);
             Matches(DataPhase(false, buf, d, Rest(Rest(sink))), Scan(false, Budget(false, buf, d), buf[d..]), d)
    ensures Matches(DataPhase(lf, buf, 0, sink), Scan(lf, Budget(lf, buf, 0), buf[0..]), 0)
  {
    var d, b := NextDot(lf, buf, 0), Budget(lf, buf, 0);
    assert sink[0] in sink && sink[1] in sink;
    PhaseGoesOn(lf, buf, sink);
    ScanToDot(lf, b, buf, 0);
    DotIsAfterFeed(lf, buf, 0);
    ScanStep(true, b, buf, d);
    ScanStep(false, b - 1, buf, d);
    assert Budget(false, buf, d) == b - 1;
    DotTwice(buf[0..d], Scan(false, b - 1, buf[d + 1..]).sent);
  }

  lemma DotTwice(x: string, y: string)
    ensures x + ("." + (['.'] + y)) == x + (".." + y)
  {
    assert "." + (['.'] + y) == ".." + y;
  }

  /** The data phase on a stream that takes what it is offered: it ends the call, or goes on past a dot. */
  lemma PhaseEnds(lf: bool, buf: string, w: nat, sink: seq<WriteAnswer>)
    requires w <= |buf| && sink != [] && sink[0].Took? && sink[0].count >= |buf|
    requires NextDot(lf, buf, w) == |buf| || w > 0
    ensures var d := NextDot(lf, buf, w);
            DataPhase(lf, buf, w, sink) == Out(if d == |buf| then StateOf(LfAt(lf, buf, w, d)) else InData, buf[w..d], d, Normal, Rest(sink))
  {
  }

  lemma PhaseGoesOn(lf: bool, buf: string, sink: seq<WriteAnswer>)
    requires NextDot(lf, buf, 0) < |buf| && |sink| > 1
    requires sink[0].Took? && sink[0].count >= |buf| && sink[1].Took? && sink[1].count >= 1
    ensures var d := NextDot(lf, buf, 0); var o := DataPhase(false, buf, d, Rest(Rest(sink)));
            DataPhase(lf, buf, 0, sink) == o.(sent := buf[0..d] + ("." + o.sent))
  {
    var d := NextDot(lf, buf, 0);
    assert WriteCount(sink, d) == d && DotPhase(buf, d, Rest(sink)).sent == "." + DataPhase(false, buf, d, Rest(Rest(sink))).sent;
  }

  // ---------------------------------------------------------------- a text in chunks

  datatype Transcript = Transcript(sent: string, left: string)

  /** Each call is offered up to the next chunk size of what is left, and what it takes is gone. */
  function Session(lf: bool, text: string, sizes: seq<nat>): Transcript
    decreases |sizes|
  {
    if sizes == [] then Transcript("", text)
    else
      var r := Call(lf, text[..Min(sizes[0], |text|)]);
      var t := Session(r.lf, text[r.taken..], sizes[1..]);
      Transcript(r.sent + t.sent, t.left)
  }

  /** The run of line feeds that ends just before `i`; an opening state after a line feed counts as one. */
  function Feeds(lf: bool, s: string, i: nat): nat
    requires i <= |s|
  {
    if i == 0 then (if lf then 1 else 0) else if s[i - 1] == '\n' then 1 + Feeds(lf, s, i - 1) else 0
  }

  predicate BeginsLine(start: bool, s: string, i: nat)
    requires i < |s|
  {
    if i == 0 then start else s[i - 1] == '\n'
  }

  predicate DotOk(lf: bool, start: bool, s: string, i: nat)
    requires i < |s|
  {
    s[i] == '.' && BeginsLine(start, s, i) ==> Feeds(lf, s, i) % 2 == 1
  }

  /** Every dot that begins a line follows an odd run of line feeds. */
  predicate NoSkew(lf: bool, start: bool, s: string) { forall i :: 0 <= i < |s| ==> DotOk(lf, start, s, i) }

  /** The same, by running the writer's states: no dot that begins a line is met while the writer
      thinks itself inside one. */
  predicate InStep(lf: bool, start: bool, s: string)
    decreases |s|
  {
    s == "" || ((start && s[0] == '.' ==> lf) && InStep(Next(lf, s[0]), s[0] == '\n', s[1..]))
  }

  /** The line-initial dots past offset 0. */
  function PastDots(buf: string): nat {
    if buf == "" then 0 else Dots(buf[0] == '\n', buf[1..])
  }

  /** The text cut at the sizes: every piece holds at most one line-initial dot past its first byte. */
  predicate ChunksOk(text: string, sizes: seq<nat>)
    decreases |sizes|
  {
    sizes == [] ||
    var k := Min(sizes[0], |text|);
    PastDots(text[..k]) <= 1 && ChunksOk(text[k..], sizes[1..])
  }

  function Auto(lf: bool, s: string): bool
    decreases |s|
  {
    if s == "" then lf else Auto(Next(lf, s[0]), s[1..])
  }

  /** The writer's state is the parity of the run of line feeds. */
  lemma {:induction false} AutoIsParity(lf: bool, s: string, i: nat)
    requires i <= |s|
    ensures Auto(lf, s[..i]) <==> Feeds(lf, s, i) % 2 == 1
  {
    if i > 0 {
      AutoIsParity(lf, s, i - 1);
      AutoSnoc(lf, s[..i - 1], s[i - 1]);
      assert s[..i - 1] + [s[i - 1]] == s[..i];
    }
  }

  lemma {:induction false} AutoSnoc(lf: bool, x: string, c: char)
    ensures Auto(lf, x + [c]) == Next(Auto(lf, x), c)
    decreases |x|
  {
    if x == "" {
      assert ("" + [c])[1..] == "";
    } else {
      assert (x + [c])[1..] == x[1..] + [c];
      AutoSnoc(Next(lf, x[0]), x[1..], c);
    }
  }

  lemma {:induction false} FeedsPrefix(lf: bool, s: string, n: nat, i: nat)
    requires i <= n <= |s|
    ensures Feeds(lf, s[..n], i) == Feeds(lf, s, i)
    decreases i
  {
    if i > 0 {
      FeedsPrefix(lf, s, n, i - 1);
    }
  }

  /** Parity of line-feed runs and the writer's states say the same. */
  lemma {:induction false} InStepExact(lf: bool, start: bool, s: string)
    ensures InStep(lf, start, s) <==> NoSkew(lf, start, s)
    decreases |s|
  {
    if s != "" {
      var n := |s| - 1;
      var x, c := s[..n], s[n];
      InStepExact(lf, start, x);
      assert x + [c] == s;
      InStepConcat(lf, start, x, [c]);
      AutoIsParity(lf, s, n);
      NoSkewSnoc(lf, start, s);
    }
  }

  lemma DotOkPrefix(lf: bool, start: bool, s: string, n: nat, i: nat)
    requires i < n <= |s|
    ensures DotOk(lf, start, s[..n], i) == DotOk(lf, start, s, i)
  {
    FeedsPrefix(lf, s, n, i);
  }

  lemma NoSkewSnoc(lf: bool, start: bool, s: string)
    requires s != ""
    ensures NoSkew(lf, start, s) <==> NoSkew(lf, start, s[..|s| - 1]) && DotOk(lf, start, s, |s| - 1)
  {
    var n := |s| - 1;
    forall i | 0 <= i < n
      ensures DotOk(lf, start, s[..n], i) == DotOk(lf, start, s, i)
    {
      DotOkPrefix(lf, start, s, n, i);
    }
  }

  lemma {:induction false} InStepConcat(lf: bool, start: bool, x: string, y: string)
    ensures InStep(lf, start, x + y) <==> InStep(lf, start, x) && InStep(Auto(lf, x), StartAfter(start, x), y)
    decreases |x|
  {
    if x == "" {
      assert x + y == y;
    } else {
      assert (x + y)[1..] == x[1..] + y;
      InStepConcat(Next(lf, x[0]), x[0] == '\n', x[1..], y);
    }
  }

  /** What a call sends is the stuffing of what it takes, or shorter by the dots it misses; when
      it stops early, it stops in mid-line state at a dot that begins a line. */
  lemma ScanVersusStuff(lf: bool, start: bool, b: nat, s: string)
    requires lf ==> start
    ensures var r := Scan(lf, b, s); var took := s[..r.taken];
            && |r.sent| <= |Stuff(start, took)|
            && (|r.sent| == |Stuff(start, took)| ==> r.sent == Stuff(start, took))
            && (r.sent == Stuff(start, took) <==> InStep(lf, start, took))
            && (r.lf ==> StartAfter(start, took))
            && (r.taken == |s| ==> r.lf == Auto(lf, s))
            && (r.taken < |s| ==> StartAfter(start, took) && s[r.taken] == '.' && !r.lf)
            && (r.taken == |s| && InStep(lf, start, s) ==> Dots(start, s) <= b)
            && (r.taken < |s| && InStep(lf, start, s) ==> Dots(start, s) > b)
  {
    ScanSends(lf, start, b, s);
    ScanStops(lf, start, b, s);
  }

  lemma {:induction false} ScanSends(lf: bool, start: bool, b: nat, s: string)
    requires lf ==> start
    ensures var r := Scan(lf, b, s); var took := s[..r.taken];
            && |r.sent| <= |Stuff(start, took)|
            && (|r.sent| == |Stuff(start, took)| ==> r.sent == Stuff(start, took))
            && (r.sent == Stuff(start, took) <==> InStep(lf, start, took))
    decreases |s|
  {
    if s != "" && !(lf && s[0] == '.' && b == 0) {
      var c := s[0];
      var b' := if lf && c == '.' then b - 1 else b;
      ScanSends(Next(lf, c), c == '\n', b', s[1..]);
      var r, r' := Scan(lf, b, s), Scan(Next(lf, c), b', s[1..]);
      var took, took' := s[..r.taken], s[1..][..r'.taken];
      assert took[1..] == took' && took[0] == c;
      assert Stuff(start, took) == (if start && c == '.' then ".." else [c]) + Stuff(c == '\n', took');
      HeadTail(r, r', lf, start, c, Stuff(start, took), Stuff(c == '\n', took'));
    }
  }

  lemma {:induction false} ScanStops(lf: bool, start: bool, b: nat, s: string)
    requires lf ==> start
    ensures var r := Scan(lf, b, s); var took := s[..r.taken];
            && (r.lf ==> StartAfter(start, took))
            && (r.taken == |s| ==> r.lf == Auto(lf, s))
            && (r.taken < |s| ==> StartAfter(start, took) && s[r.taken] == '.' && !r.lf)
            && (r.taken == |s| && InStep(lf, start, s) ==> Dots(start, s) <= b)
            && (r.taken < |s| && InStep(lf, start, s) ==> Dots(start, s) > b)
    decreases |s|
  {
    if s != "" && !(lf && s[0] == '.' && b == 0) {
      var c := s[0];
      var b' := if lf && c == '.' then b - 1 else b;
      ScanStops(Next(lf, c), c == '\n', b', s[1..]);
      var took := s[..Scan(lf, b, s).taken];
      assert took == [c] + took[1..] && took[1..] == s[1..][..|took| - 1];
      StartAfterConcat(start, [c], took[1..]);
    }
  }

  lemma HeadTail(r: Run, r': Run, lf: bool, start: bool, c: char, full: string, full': string)
    requires r.sent == (if lf && c == '.' then ".." else [c]) + r'.sent && (lf ==> start)
    requires full == (if start && c == '.' then ".." else [c]) + full'
    requires |r'.sent| <= |full'| && (|r'.sent| == |full'| ==> r'.sent == full')
    ensures |r.sent| <= |full| && (|r.sent| == |full| ==> r.sent == full)
    ensures r.sent == full <==> r'.sent == full' && (start && c == '.' ==> lf)
  {
    if r.sent == full {
      assert |r.sent| == |full|;
    }
  }

  /** A session never sends more than the stuffing, and falls short if it begins out of step. */
  lemma {:induction false} SessionShort(lf: bool, start: bool, text: string, sizes: seq<nat>)
    requires (lf ==> start) && Session(lf, text, sizes).left == ""
    ensures |Session(lf, text, sizes).sent| <= |Stuff(start, text)|
    ensures text != "" && start && text[0] == '.' && !lf ==> |Session(lf, text, sizes).sent| < |Stuff(start, text)|
    decreases |sizes|
  {
    if sizes != [] {
      var buf := text[..Min(sizes[0], |text|)];
      var r := Call(lf, buf);
      var took := buf[..r.taken];
      ScanVersusStuff(lf, start, Budget(lf, buf, 0), buf);
      assert text == took + text[r.taken..];
      StuffConcat(start, took, text[r.taken..]);
      SessionShort(r.lf, StartAfter(start, took), text[r.taken..], sizes[1..]);
      if r.taken > 0 {
        assert took[0] == text[0];
      }
    }
  }

  lemma {:induction false} SessionInStep(lf: bool, start: bool, text: string, sizes: seq<nat>)
    requires (lf ==> start) && Session(lf, text, sizes).left == ""
    ensures Session(lf, text, sizes).sent == Stuff(start, text) <==> InStep(lf, start, text) && ChunksOk(text, sizes)
    decreases |sizes|
  {
    if sizes != [] {
      var buf := text[..Min(sizes[0], |text|)];
      var r := Call(lf, buf);
      var took, rest := buf[..r.taken], text[r.taken..];
      var t := Session(r.lf, rest, sizes[1..]);
      ScanVersusStuff(lf, start, Budget(lf, buf, 0), buf);
      assert text == took + rest;
      StuffConcat(start, took, rest);
      SessionShort(r.lf, StartAfter(start, took), rest, sizes[1..]);
      SessionInStep(r.lf, StartAfter(start, took), rest, sizes[1..]);
      JoinExact(r.sent, t.sent, Stuff(start, took), Stuff(StartAfter(start, took), rest));
      InStepConcat(lf, start, took, rest);
      if r.taken == |buf| {
        assert took == buf;
      } else {
        assert rest[0] == buf[r.taken];
        var more := text[|buf|..];
        assert text == buf + more;
        InStepConcat(lf, start, buf, more);
      }
    }
  }

  /** The exact condition: however a text is chunked, with full writes the output is its dot-stuffing
      if and only if every line-initial dot follows an odd run of line feeds and no piece holds two
      line-initial dots past its first byte. */
  lemma SessionExact(lf: bool, start: bool, text: string, sizes: seq<nat>)
    requires (lf ==> start) && Session(lf, text, sizes).left == ""
    ensures Session(lf, text, sizes).sent == Stuff(start, text) <==> NoSkew(lf, start, text) && ChunksOk(text, sizes)
  {
    SessionInStep(lf, start, text, sizes);
    InStepExact(lf, start, text);
  }

  lemma JoinExact(a: string, b: string, x: string, y: string)
    requires |a| <= |x| && |b| <= |y| && (|a| == |x| ==> a == x)
    ensures a + b == x + y <==> a == x && b == y
    ensures |b| < |y| ==> a + b != x + y
  {
    if a + b == x + y {
      assert |a| + |b| == |x| + |y|;
      assert b == (a + b)[|a|..] && y == (x + y)[|x|..];
    }
  }

  // ---------------------------------------------------------------- consequences

  /** Every line feed follows a carriage return. */
  predicate CrlfOnly(prev: char, s: string)
    decreases |s|
  {
    s == "" || ((s[0] == '\n' ==> prev == '\r') && CrlfOnly(s[0], s[1..]))
  }

  lemma {:induction false} CrlfInStep(prev: char, lf: bool, s: string)
    requires CrlfOnly(prev, s) && (lf ==> prev != '\r')
    ensures InStep(lf, lf, s)
    ensures Auto(lf, s) == StartAfter(lf, s)
    decreases |s|
  {
    if s != "" {
      assert s[0] == '\n' ==> !lf;
      CrlfInStep(s[0], s[0] == '\n', s[1..]);
    }
  }

  /** With CRLF line ends no two line feeds meet, so the writer knows where lines begin. */
  lemma CrlfHasNoSkew(text: string)
    requires CrlfOnly('\n', text)
    ensures NoSkew(true, true, text)
  {
    CrlfInStep('\n', true, text);
    InStepExact(true, true, text);
  }

  /** z_dot_transfer_dst_shutdown: the line break added to a body left in the middle of a line. */
  function Closing(lf: bool): string { if lf then "" else "\r\n" }

  function FinalLf(lf: bool, text: string, sizes: seq<nat>): bool
    decreases |sizes|
  {
    if sizes == [] then lf
    else
      var r := Call(lf, text[..Min(sizes[0], |text|)]);
      FinalLf(r.lf, text[r.taken..], sizes[1..])
  }

  lemma {:induction false} FinalLfIsStart(lf: bool, start: bool, text: string, sizes: seq<nat>)
    requires (lf ==> start) && Session(lf, text, sizes).left == ""
    ensures FinalLf(lf, text, sizes) ==> StartAfter(start, text)
    decreases |sizes|
  {
    if sizes != [] {
      var buf := text[..Min(sizes[0], |text|)];
      var r := Call(lf, buf);
      var took, rest := buf[..r.taken], text[r.taken..];
      ScanVersusStuff(lf, start, Budget(lf, buf, 0), buf);
      assert text == took + rest;
      StartAfterConcat(start, took, rest);
      FinalLfIsStart(r.lf, StartAfter(start, took), rest, sizes[1..]);
    }
  }

  /** A CRLF body whose calls each bring at most one line-initial dot past the first byte is sent as its
      stuffing, however it is chunked; and after the shutdown the body is whole lines, none a lone dot. */
  lemma BodyIsSafe(text: string, sizes: seq<nat>)
    requires CrlfOnly('\n', text) && Session(true, text, sizes).left == ""
    requires ChunksOk(text, sizes)
    ensures var body := Session(true, text, sizes).sent + Closing(FinalLf(true, text, sizes));
            && Session(true, text, sizes).sent == Stuff(true, text)
            && Doubled(true, body)
            && StartAfter(true, body)
  {
    CrlfHasNoSkew(text);
    SessionExact(true, true, text, sizes);
    FinalLfIsStart(true, true, text, sizes);
    StuffDoubled(true, text, Closing(FinalLf(true, text, sizes)));
    StuffEnd(true, text);
  }

  lemma {:induction false} StuffEnd(start: bool, s: string)
    ensures StartAfter(start, Stuff(start, s)) == StartAfter(start, s)
    decreases |s|
  {
    if s != "" {
      StuffEnd(s[0] == '\n', s[1..]);
      var tail := Stuff(s[0] == '\n', s[1..]);
      assert s[1..] == "" ==> tail == "";
      assert s[1..] != "" ==> tail != "" && Stuff(start, s)[|Stuff(start, s)| - 1] == tail[|tail| - 1];
    }
  }

  /** A second line-initial dot past offset 0 goes out undoubled: its call stops at it, and the next
      call takes it for one inside a line. */
  lemma SecondDotIsMissed()
    ensures Session(false, "\n.\n.", [4, 1]) == Transcript("\n..\n.", "")
    ensures Stuff(false, "\n.\n.") == "\n..\n.."
  {
    StopsAtSecondDot();
    TakesDotAsText();
    assert "\n.\n."[..4] == "\n.\n." && "\n.\n."[3..] == "." && [4, 1][1..] == [1];
    assert "\n.\n."[1..] == ".\n." && ".\n."[1..] == "\n." && "\n."[1..] == "." && "."[1..] == "";
    assert Stuff(true, ".") == ".." && Stuff(false, "\n.") == "\n.." && Stuff(true, ".\n.") == "..\n..";
  }

  lemma StopsAtSecondDot()
    ensures Call(false, "\n.\n.") == Run("\n..\n", 3, false)
  {
    assert "\n.\n."[1..] == ".\n." && ".\n."[1..] == "\n." && "\n."[1..] == ".";
    assert Scan(false, 0, "\n.") == Run("\n", 1, false);
    assert Scan(true, 1, ".\n.") == Run("..\n", 2, false);
  }

  lemma TakesDotAsText()
    ensures Session(false, ".", [1]) == Transcript(".", "")
  {
    assert "."[1..] == "" && "."[..1] == "." && [1][1..] == [];
    assert Scan(false, 1, ".") == Run(".", 1, false);
  }

  /** So does a dot after two line feeds: the second is taken for text of a line. */
  lemma DotAfterTwoFeedsIsMissed()
    ensures Session(false, "\n\n.", [3]) == Transcript("\n\n.", "")
    ensures Stuff(false, "\n\n.") == "\n\n.."
  {
    assert "\n\n."[1..] == "\n." && "\n."[1..] == "." && "."[1..] == "";
    assert Scan(false, 1, ".") == Run(".", 1, false);
    assert Scan(true, 1, "\n.") == Run("\n.", 2, false);
    assert "\n\n."[..3] == "\n\n." && "\n\n."[3..] == "" && [3][1..] == [];
    assert Stuff(true, ".") == ".." && Stuff(true, "\n.") == "\n..";
  }

  // ---------------------------------------------------------------- imperative form

  class DotWriter {
    const preamble: string
    var state: State
    var preambleOfs: nat
    var sink: seq<WriteAnswer>
    var sent: string

    /** The preamble goes out once, before anything else. */
    ghost predicate Valid()
      reads this
    {
      && preambleOfs <= |preamble|
      && (state == InPreamble ==> sent == preamble[..preambleOfs])
      && (state != InPreamble ==> preambleOfs == |preamble| && preamble <= sent)
    }

    constructor (preamble: string, sink: seq<WriteAnswer>)
      ensures Valid() && this.preamble == preamble && state == InPreamble && preambleOfs == 0 && sent == "" && this.sink == sink
    {
      this.preamble, this.sink := preamble, sink;
      state, preambleOfs, sent := InPreamble, 0, "";
    }

    method StreamWrite(data: string) returns (res: Status, n: nat)
      modifies `sink, `sent
      ensures res == WriteStatus(old(sink)) && n == WriteCount(old(sink), |data|) && n <= |data|
      ensures sink == Rest(old(sink)) && sent == old(sent) + data[..n]
    {
      res, n := WriteStatus(sink), WriteCount(sink, |data|);
      sink := Rest(sink);
      sent := sent + data[..n];
    }

    method WritePreamble() returns (res: Status)
      requires Valid() && state == InPreamble
      modifies `sink, `sent, `preambleOfs
      ensures Valid() && old(preambleOfs) <= preambleOfs && sink == Rest(old(sink))
      ensures res == Normal <==> WriteStatus(old(sink)) == Normal && preambleOfs == |preamble|
      ensures preambleOfs == old(preambleOfs) + WriteCount(old(sink), |preamble| - old(preambleOfs))
    {
      var n;
      res, n := StreamWrite(preamble[preambleOfs..]);
      preambleOfs := preambleOfs + n;
      if res == Normal && preambleOfs != |preamble| {
        res := Again;
      }
    }

    /** z_dot_transfer_dst_write, once the preamble is out, does what the two phases say; before that,
        it sends more of the preamble and no data unless it completes it. */
    method DstWrite(buf: string) returns (res: Status, written: nat)
      requires Valid()
      modifies this
      ensures Valid() && written <= |buf|
      ensures old(state) != InPreamble ==>
                var o := if old(state) == AtDot then DotPhase(buf, 0, old(sink)) else DataPhase(old(state) == AfterLF, buf, 0, old(sink));
                sent == old(sent) + o.sent && state == o.state && written == o.written && res == o.res && sink == o.sink
      ensures old(state) == InPreamble && state != InPreamble ==>
                var o := DataPhase(true, buf, 0, Rest(old(sink)));
                sent == preamble + o.sent && state == o.state && written == o.written && res == o.res && sink == o.sink
      ensures state == InPreamble ==> written == 0 && old(state) == InPreamble
      ensures old(state) == InPreamble ==>
                var missing := |preamble| - old(preambleOfs);
                (state != InPreamble <==> WriteStatus(old(sink)) == Normal && WriteCount(old(sink), missing) == missing)
    {
      written := 0;
      if state == InPreamble {
        res := WritePreamble();
        if res != Normal {
          return;
        }
        state := AfterLF;
      }
      var o;
      if state == AtDot {
        o := DotState(buf, 0, sink);
      } else {
        o := DataState(state == AfterLF, buf, 0, sink);
      }
      state, sink, res, written := o.state, o.sink, o.res, o.written;
      sent := sent + o.sent;
    }

    /** z_dot_transfer_dst_shutdown: a body left in the middle of a line is closed, unless the transfer failed. */
    method DstShutdown(failed: bool) returns (res: Status)
      requires Valid()
      modifies `sink, `sent
      ensures Valid()
      ensures state == InData && !failed ==>
                var n := WriteCount(old(sink), 2);
                sent == old(sent) + Closing(false)[..n] && res == WriteStatus(old(sink)) && sink == Rest(old(sink))
      ensures state != InData || failed ==> sent == old(sent) && res == Normal && sink == old(sink)
    {
      res := Normal;
      if state == InData && !failed {
        var n;
        res, n := StreamWrite("\r\n");
      }
    }

    /** The label `data_state`; a jump to the other label is a call in the last place. */
    static method DataState(lf0: bool, buf: string, w: nat, sink: seq<WriteAnswer>) returns (o: Out)
      requires w <= |buf|
      ensures o == DataPhase(lf0, buf, w, sink)
      decreases |sink|, 1
    {
      var i, lf := ScanForDot(buf, w, lf0);
      o := WriteUpTo(i, lf, buf, w, sink);
    }

    static method WriteUpTo(i: nat, lf: bool, buf: string, w: nat, sink: seq<WriteAnswer>) returns (o: Out)
      requires w <= i <= |buf|
      ensures o == WriteTo(i, lf, buf, w, sink)
      decreases |sink|, 0
    {
      var res, n := WriteStatus(sink), WriteCount(sink, i - w);
      if i == |buf| {
        o := Out(StateOf(lf), buf[w..w + n], w + n, res, Rest(sink));
      } else if res == Normal && i == n {
        var rest := DotState(buf, w + n, Rest(sink));
        o := rest.(sent := buf[w..w + n] + rest.sent);
      } else {
        o := Out(InData, buf[w..w + n], w + n, res, Rest(sink));
      }
    }

    /** The label `dot_state`. */
    static method DotState(buf: string, w: nat, sink: seq<WriteAnswer>) returns (o: Out)
      requires w <= |buf|
      ensures o == DotPhase(buf, w, sink)
      decreases |sink|, 0
    {
      var res, n := WriteStatus(sink), WriteCount(sink, 1);
      if res == Normal && n == 1 {
        var rest := DataState(false, buf, w, Rest(sink));
        o := rest.(sent := "." + rest.sent);
      } else {
        o := Out(AtDot, "", w, res, Rest(sink));
      }
    }

    /** The for loop of the data state. */
    static method ScanForDot(buf: string, w: nat, lf0: bool) returns (i: nat, lf: bool)
      requires w <= |buf|
      ensures i == NextDot(lf0, buf, w) && lf == LfAt(lf0, buf, w, i)
    {
      i, lf := w, lf0;
      while i < |buf|
        invariant w <= i <= |buf|
        invariant NextDot(lf0, buf, w) == NextDot(lf, buf, i)
        invariant LfAt(lf0, buf, w, NextDot(lf, buf, i)) == LfAt(lf, buf, i, NextDot(lf, buf, i))
      {
        if !lf {
          if buf[i] == '\n' {
            lf := true;
          }
        } else {
          if buf[i] == '.' {
            return;
          }
          lf := false;
        }
        i := i + 1;
      }
    }
  }
}
