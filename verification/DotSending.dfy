/**
 Whole bodies through the escaping writer (libproxy/dottransfer.cc): the calls of a
 transfer and its shutdown on a stream that takes everything, and any number of
 calls on streams that take what they like.
 */
module DotSending {
  import opened Streams
  import opened DotText
  import opened DotWriter
  import opened DotFit
  import opened DotStall

  // ---------------------------------------------------------------- a stream that takes everything

  const CALL_WRITES := 6    // writes one call can make: the preamble, three of data, two dots

  lemma {:induction false} FullSink(lf: bool, buf: string, w: nat, sink: seq<WriteAnswer>, size: nat, calls: nat)
    requires w <= |buf| <= size && Generous(sink, size, calls + 2 * Budget(lf, buf, w) + 1)
    ensures Generous(DataPhase(lf, buf, w, sink).sink, size, calls)
    decreases |sink|
  {
    var d := NextDot(lf, buf, w);
    assert sink[0] in sink && forall a :: a in Rest(sink) ==> a in sink;
    if d == |buf| || w > 0 {
      PhaseEnds(lf, buf, w, sink);
    } else {
      var after := Rest(Rest(sink));
      assert sink[1] in sink && forall a :: a in after ==> a in sink;
      FullSink(false, buf, d, after, size, calls);
      PhaseGoesOn(lf, buf, sink);
    }
  }

  /** One call: the preamble if it is still due, and the scan of the piece. */
  method SendPiece(w: DotWriter, buf: string, ghost lf: bool, ghost size: nat, ghost calls: nat) returns (written: nat)
    requires w.Valid() && (w.state == StateOf(lf) || (w.state == InPreamble && lf))
    requires |buf| <= size && |w.preamble| <= size && Generous(w.sink, size, calls + CALL_WRITES)
    modifies w
    ensures w.Valid() && w.state == StateOf(Call(lf, buf).lf) && written == Call(lf, buf).taken
    ensures w.sent == (if old(w.state) == InPreamble then w.preamble else old(w.sent)) + Call(lf, buf).sent
    ensures Generous(w.sink, size, calls)
  {
    ghost var sink := w.sink;
    ghost var after := if w.state == InPreamble then Rest(sink) else sink;
    assert sink[0] in sink && forall a :: a in after ==> a in sink;
    FullPhase(lf, buf, 0, after);
    FullSink(lf, buf, 0, after, size, calls);
    assert buf[0..] == buf;
    var res;
    res, written := w.DstWrite(buf);
  }

  /** The session one call further. */
  lemma SessionStep(lf: bool, text: string, sizes: seq<nat>)
    requires sizes != []
    ensures var r := Call(lf, text[..Min(sizes[0], |text|)]);
            && r.taken <= |text|
            && Session(lf, text, sizes).sent == r.sent + Session(r.lf, text[r.taken..], sizes[1..]).sent
            && Session(lf, text, sizes).left == Session(r.lf, text[r.taken..], sizes[1..]).left
            && FinalLf(lf, text, sizes) == FinalLf(r.lf, text[r.taken..], sizes[1..])
  {
  }

  /** The calls of a body in pieces of the given sizes, and its shutdown: preamble, session and line end go
      out, so that a CRLF body in proper pieces arrives stuffed, in whole lines, none of them a lone dot. */
  method SendBody(w: DotWriter, text: string, sizes: seq<nat>) returns (left: string)
    requires w.Valid() && w.state == InPreamble
    requires Generous(w.sink, |text| + |w.preamble| + 2, CALL_WRITES * |sizes| + 1)
    modifies w
    ensures w.Valid() && left == Session(true, text, sizes).left
    ensures sizes == [] ==> w.sent == old(w.sent)
    ensures sizes != [] ==> w.sent == w.preamble + Session(true, text, sizes).sent + Closing(FinalLf(true, text, sizes))
    ensures sizes != [] && left == "" && CrlfOnly('\n', text) && ChunksOk(text, sizes) ==>
              && w.preamble + Stuff(true, text) <= w.sent
              && Doubled(true, w.sent[|w.preamble|..]) && StartAfter(true, w.sent[|w.preamble|..])
  {
    ghost var size := |text| + |w.preamble| + 2;
    ghost var lf, acc := true, "";
    var k := 0;
    left := text;
    while k < |sizes|
      invariant k <= |sizes| && w.Valid() && |left| <= |text|
      invariant if k == 0 then w.state == InPreamble && w.sent == old(w.sent) && lf && acc == ""
                else w.state == StateOf(lf) && w.sent == w.preamble + acc
      invariant Generous(w.sink, size, CALL_WRITES * (|sizes| - k) + 1)
      invariant Session(true, text, sizes).sent == acc + Session(lf, left, sizes[k..]).sent
      invariant Session(true, text, sizes).left == Session(lf, left, sizes[k..]).left
      invariant FinalLf(true, text, sizes) == FinalLf(lf, left, sizes[k..])
    {
      var buf := left[..Min(sizes[k], |left|)];
      ghost var r, rest := Call(lf, buf), sizes[k..];
      SessionStep(lf, left, rest);
      assert rest[1..] == sizes[k + 1..];
      Added(w.preamble, acc, r.sent, Session(r.lf, left[r.taken..], sizes[k + 1..]).sent);
      var n := SendPiece(w, buf, lf, size, CALL_WRITES * (|sizes| - k - 1) + 1);
      acc, lf := acc + r.sent, r.lf;
      left := left[n..];
      k := k + 1;
    }
    assert sizes[k..] == [] && acc + "" == acc;
    Finish(w, lf);
    if sizes != [] && left == "" && CrlfOnly('\n', text) && ChunksOk(text, sizes) {
      BodyIsSafe(text, sizes);
      Tail(w.preamble, acc, Closing(lf), w.sent);
    }
  }

  method Finish(w: DotWriter, ghost lf: bool)
    requires w.Valid() && (w.state == InPreamble || w.state == StateOf(lf)) && Generous(w.sink, 2, 1)
    modifies w
    ensures w.Valid() && w.sent == old(w.sent) + if w.state == InPreamble then "" else Closing(lf)
    ensures w.state == old(w.state)
  {
    assert w.sink[0] in w.sink;
    assert "\r\n"[..2] == "\r\n" && w.sent + "" == w.sent;
    var res := w.DstShutdown(false);
  }

  lemma Added(x: string, a: string, b: string, c: string)
    ensures x + a + b == x + (a + b) && a + (b + c) == a + b + c
    ensures a == "" ==> x + b == x + (a + b)
  {
    assert a == "" ==> a + b == b;
  }

  lemma Tail(x: string, a: string, b: string, s: string)
    requires s == x + a + b
    ensures s[|x|..] == a + b && x + a <= s
  {
  }

  // ---------------------------------------------------------------- any streams, any number of stalls

  /** The text with nothing added but dots, each just in front of a dot of the text. */
  predicate Dotted(s: string, out: string)
    decreases |out|
  {
    if out == "" then s == ""
    else s != "" && out[0] == s[0] && (Dotted(s[1..], out[1..]) || (s[0] == '.' && Dotted(s, out[1..])))
  }

  lemma {:induction false} DottedRefl(s: string)
    ensures Dotted(s, s)
    decreases |s|
  {
    if s != "" {
      DottedRefl(s[1..]);
    }
  }

  lemma {:induction false} DottedTrans(a: string, b: string, c: string)
    requires Dotted(a, b) && Dotted(b, c)
    ensures Dotted(a, c)
    decreases |b| + |c|
  {
    if c != "" {
      if !Dotted(b[1..], c[1..]) {
        DottedTrans(a, b, c[1..]);
      } else if Dotted(a[1..], b[1..]) {
        DottedTrans(a[1..], b[1..], c[1..]);
      } else {
        DottedTrans(a, b[1..], c[1..]);
      }
    }
  }

  lemma {:induction false} DottedAfter(x: string, s: string, out: string)
    requires Dotted(s, out)
    ensures Dotted(x + s, x + out)
    decreases |x|
  {
    if x == "" {
      assert x + s == s && x + out == out;
    } else {
      DottedAfter(x[1..], s, out);
      assert (x + s)[1..] == x[1..] + s && (x + out)[1..] == x[1..] + out;
    }
  }

  lemma {:induction false} DottedBefore(s: string, out: string, y: string)
    requires Dotted(s, out)
    ensures Dotted(s + y, out + y)
    decreases |out|
  {
    if out == "" {
      assert s + y == y && out + y == y;
      DottedRefl(y);
    } else {
      assert (s + y)[1..] == s[1..] + y && (out + y)[1..] == out[1..] + y;
      if Dotted(s[1..], out[1..]) {
        DottedBefore(s[1..], out[1..], y);
      } else {
        DottedBefore(s, out[1..], y);
      }
    }
  }

  /** No byte but dots has come or gone, and so no line feed. */
  lemma {:induction false} DottedFeeds(s: string, out: string)
    requires Dotted(s, out)
    ensures FeedCount(out) == FeedCount(s)
    decreases |out|
  {
    if out != "" {
      if Dotted(s[1..], out[1..]) {
        DottedFeeds(s[1..], out[1..]);
      } else {
        DottedFeeds(s, out[1..]);
      }
    }
  }

  lemma {:induction false} StuffIsDotted(start: bool, s: string)
    ensures Dotted(s, Stuff(start, s))
    decreases |s|
  {
    if s != "" {
      var rest := Stuff(s[0] == '\n', s[1..]);
      StuffIsDotted(s[0] == '\n', s[1..]);
      assert ([s[0]] + rest)[1..] == rest;
      if start && s[0] == '.' {
        assert (".." + rest)[1..] == [s[0]] + rest;
      }
    }
  }

  /** One call past the preamble. */
  function CallOn(q: State, buf: string, sink: seq<WriteAnswer>): (o: Out)
    ensures o.written <= |buf| && o.state != InPreamble
  {
    if q == AtDot then DotPhase(buf, 0, sink) else DataPhase(q == AfterLF, buf, 0, sink)
  }

  datatype Offer = Offer(size: nat, sink: seq<WriteAnswer>)

  /** Calls on whatever streams: what goes out, and what the caller thinks is left. */
  function Sending(q: State, text: string, offers: seq<Offer>): Transcript
    decreases |offers|
  {
    if offers == [] then Transcript("", text)
    else
      var buf := text[..Min(offers[0].size, |text|)];
      var o := CallOn(q, buf, offers[0].sink);
      var t := Sending(o.state, Left(o, buf) + text[|buf|..], offers[1..]);
      Transcript(o.sent + t.sent, t.left)
  }

  predicate Passes(sink: seq<WriteAnswer>, n: nat) { WriteStatus(sink) == Normal && WriteCount(sink, n) == n }

  /** The stream refuses the dot that escapes one, or the write after it, in a call that has written before. */
  predicate RefusedLate(lf: bool, buf: string, sink: seq<WriteAnswer>)
    decreases lf
  {
    var d, after := NextDot(lf, buf, 0), Rest(sink);
    && d < |buf| && Passes(sink, d)
    && if d > 0 then WriteStatus(after) != Normal || (Passes(after, 1) && WriteStatus(Rest(after)) != Normal)
       else lf && Passes(after, 1) && RefusedLate(false, buf, Rest(after))
  }

  predicate RefusedIn(q: State, buf: string, sink: seq<WriteAnswer>) {
    if q == AtDot then Passes(sink, 1) && RefusedLate(false, buf, Rest(sink)) else RefusedLate(q == AfterLF, buf, sink)
  }

  /** No call of the run is refused after it has written. */
  predicate NeverLate(q: State, text: string, offers: seq<Offer>)
    decreases |offers|
  {
    offers == [] ||
    var buf := text[..Min(offers[0].size, |text|)];
    var o := CallOn(q, buf, offers[0].sink);
    !RefusedIn(q, buf, offers[0].sink) && NeverLate(o.state, Left(o, buf) + text[|buf|..], offers[1..])
  }

  lemma AtFeed(lf: bool, buf: string)
    requires 0 < NextDot(lf, buf, 0) < |buf|
    ensures buf[NextDot(lf, buf, 0) - 1] == '\n'
  {
    BeforeDot(lf, buf, 0);
  }

  lemma {:induction false} BeforeDot(lf: bool, buf: string, w: nat)
    requires w < |buf| && w < NextDot(lf, buf, w) < |buf|
    ensures buf[NextDot(lf, buf, w) - 1] == '\n'
    decreases |buf| - w
  {
    var next := Next(lf, buf[w]);
    if NextDot(next, buf, w + 1) > w + 1 {
      BeforeDot(next, buf, w + 1);
    }
  }

  /** Past an escaped dot in mid-buffer the call ends with its next write. */
  lemma MidBuffer(buf: string, w: nat, sink: seq<WriteAnswer>)
    requires 0 < w < |buf| && buf[w] == '.'
    ensures var o := DataPhase(false, buf, w, sink); o.res == WriteStatus(sink) && o.written >= w && o.state != AtDot
  {
    FromDot(buf, w, sink);
  }

  /** Which calls report a positive count with an answer other than NORMAL. */
  lemma LateExact(lf: bool, buf: string, sink: seq<WriteAnswer>)
    ensures var o := DataPhase(lf, buf, 0, sink); o.res != Normal && o.written > 0 <==> RefusedLate(lf, buf, sink)
    decreases lf
  {
    var d, after := NextDot(lf, buf, 0), Rest(sink);
    if d < |buf| && Passes(sink, d) {
      ReachesDot(lf, buf, sink);
      if Passes(after, 1) {
        if d > 0 {
          MidBuffer(buf, d, Rest(after));
        } else {
          LateExact(false, buf, Rest(after));
        }
      }
    }
  }

  lemma PhaseStops(lf: bool, buf: string, w: nat, sink: seq<WriteAnswer>)
    requires w <= |buf|
    requires var d := NextDot(lf, buf, w); !(d < |buf| && WriteStatus(sink) == Normal && WriteCount(sink, d - w) == d)
    ensures var o := DataPhase(lf, buf, w, sink); w <= o.written && o.sent == buf[w..o.written] && o.state != AtDot
  {
  }

  /** Every call, whatever its stream: what it sends, with the rest of the buffer behind it, is the buffer
      with dots in front of dots. */
  lemma {:induction false} PhaseDotted(lf: bool, buf: string, w: nat, sink: seq<WriteAnswer>)
    requires w <= |buf|
    ensures var o := DataPhase(lf, buf, w, sink);
            && w <= o.written && Dotted(buf[w..], o.sent + buf[o.written..])
            && (o.state == AtDot ==> o.written < |buf| && buf[o.written] == '.')
    decreases |sink|, 1
  {
    var d := NextDot(lf, buf, w);
    var o := DataPhase(lf, buf, w, sink);
    if d < |buf| && WriteStatus(sink) == Normal && WriteCount(sink, d - w) == d {
      var p := DotPhase(buf, d, Rest(sink));
      ReachesDot(lf, buf, sink);
      DotPhaseDotted(buf, d, Rest(sink));
      DottedAfter(buf[..d], buf[d..], p.sent + buf[p.written..]);
      Joins(buf, d, p.sent, buf[p.written..]);
    } else {
      PhaseStops(lf, buf, w, sink);
      DottedRefl(buf[w..]);
      assert o.sent + buf[o.written..] == buf[w..];
    }
  }

  lemma Joins(buf: string, d: nat, x: string, y: string)
    requires d <= |buf|
    ensures buf[..d] + buf[d..] == buf[0..] && buf[..d] + (x + y) == buf[..d] + x + y
  {
  }

  lemma {:induction false} DotPhaseDotted(buf: string, w: nat, sink: seq<WriteAnswer>)
    requires w < |buf| && buf[w] == '.'
    ensures var o := DotPhase(buf, w, sink);
            && w <= o.written && Dotted(buf[w..], o.sent + buf[o.written..])
            && (o.state == AtDot ==> o.written < |buf| && buf[o.written] == '.')
    decreases |sink|, 0
  {
    if Passes(sink, 1) {
      var q := DataPhase(false, buf, w, Rest(sink));
      PhaseDotted(false, buf, w, Rest(sink));
      OneDot(buf[w..], q.sent, buf[q.written..]);
    } else {
      DottedRefl(buf[w..]);
      assert "" + buf[w..] == buf[w..];
    }
  }

  lemma OneDot(s: string, sent: string, rest: string)
    requires s != "" && s[0] == '.' && Dotted(s, sent + rest)
    ensures Dotted(s, "." + sent + rest)
  {
    assert ("." + sent + rest)[1..] == sent + rest;
  }

  /** A call, with all that is left of the text behind it. */
  lemma CallDotted(q: State, text: string, offer: Offer)
    requires q == AtDot ==> text != "" && text[0] == '.'
    ensures var buf := text[..Min(offer.size, |text|)]; var o := CallOn(q, buf, offer.sink); var rest := Left(o, buf) + text[|buf|..];
            !RefusedIn(q, buf, offer.sink) ==> Dotted(text, o.sent + rest) && (o.state == AtDot ==> rest != "" && rest[0] == '.')
  {
    var buf := text[..Min(offer.size, |text|)];
    var o, more := CallOn(q, buf, offer.sink), text[|buf|..];
    if !RefusedIn(q, buf, offer.sink) {
      LateCall(q, buf, offer.sink);
      assert Left(o, buf) == buf[o.written..];
      assert text == buf + more;
      BufferDotted(q, buf, offer.sink, more);
      assert o.sent + buf[o.written..] + more == o.sent + (buf[o.written..] + more);
    }
  }

  lemma LateCall(q: State, buf: string, sink: seq<WriteAnswer>)
    ensures var o := CallOn(q, buf, sink); o.res != Normal && o.written > 0 <==> RefusedIn(q, buf, sink)
  {
    if q == AtDot {
      if Passes(sink, 1) {
        LateExact(false, buf, Rest(sink));
      }
    } else {
      LateExact(q == AfterLF, buf, sink);
    }
  }

  lemma BufferDotted(q: State, buf: string, sink: seq<WriteAnswer>, more: string)
    requires q == AtDot ==> buf + more != "" && (buf + more)[0] == '.'
    ensures var o := CallOn(q, buf, sink);
            && Dotted(buf + more, o.sent + buf[o.written..] + more)
            && (o.state == AtDot ==> buf[o.written..] + more != "" && (buf[o.written..] + more)[0] == '.')
  {
    if q == AtDot && buf == "" {
      OwedOnNothing(buf, sink, more);
    } else {
      WholeBuffer(q, buf, sink);
      var o := CallOn(q, buf, sink);
      DottedBefore(buf, o.sent + buf[o.written..], more);
    }
  }

  lemma WholeBuffer(q: State, buf: string, sink: seq<WriteAnswer>)
    requires q == AtDot ==> buf != "" && buf[0] == '.'
    ensures var o := CallOn(q, buf, sink);
            Dotted(buf, o.sent + buf[o.written..]) && (o.state == AtDot ==> o.written < |buf| && buf[o.written] == '.')
  {
    assert buf[0..] == buf;
    if q == AtDot {
      DotPhaseDotted(buf, 0, sink);
    } else {
      PhaseDotted(q == AfterLF, buf, 0, sink);
    }
  }

  /** A call without data can still send the dot it owes. */
  lemma OwedOnNothing(buf: string, sink: seq<WriteAnswer>, more: string)
    requires |buf| == 0 && more != "" && more[0] == '.'
    ensures var o := DotPhase(buf, 0, sink); Dotted(buf + more, o.sent + buf[o.written..] + more)
  {
    var o := DotPhase(buf, 0, sink);
    PhaseStops(false, buf, 0, Rest(sink));
    DottedRefl(more);
    assert buf + more == more;
    if o.sent == "" {
      assert o.sent + buf[o.written..] + more == more;
    } else {
      assert o.sent == ".";
      OneDot(more, buf[o.written..], more);
    }
  }

  /** A call sends the line feeds of what it counts as written. */
  lemma CallFeeds(q: State, buf: string, sink: seq<WriteAnswer>)
    ensures var o := CallOn(q, buf, sink); FeedCount(o.sent) + FeedCount(buf[o.written..]) == FeedCount(buf)
  {
    var lf, rest := q == AfterLF, if q == AtDot then Rest(sink) else sink;
    var o := DataPhase(lf, buf, 0, rest);
    PhaseDotted(lf, buf, 0, rest);
    assert buf[0..] == buf;
    DottedFeeds(buf, o.sent + buf[o.written..]);
    FeedCountConcat(o.sent, buf[o.written..]);
    FeedCountConcat(".", o.sent);
  }

  lemma LateFeeds(lf: bool, buf: string, sink: seq<WriteAnswer>)
    requires RefusedLate(lf, buf, sink)
    ensures FeedCount(DataPhase(lf, buf, 0, sink).sent) > 0
    decreases lf
  {
    var d := NextDot(lf, buf, 0);
    var p := DotPhase(buf, d, Rest(sink));
    ReachesDot(lf, buf, sink);
    FeedCountConcat(buf[..d], p.sent);
    if d > 0 {
      AtFeed(lf, buf);
      EndsInFeed(buf[..d]);
    } else {
      LateFeeds(false, buf, Rest(Rest(sink)));
      FeedCountConcat(".", DataPhase(false, buf, 0, Rest(Rest(sink))).sent);
    }
  }

  /** A call never loses a line feed, and repeats some exactly when it is refused late. */
  lemma CallFeedsExact(q: State, text: string, offer: Offer)
    ensures var buf := text[..Min(offer.size, |text|)]; var o := CallOn(q, buf, offer.sink);
            var total := FeedCount(o.sent) + FeedCount(Left(o, buf) + text[|buf|..]);
            total >= FeedCount(text) && (total == FeedCount(text) <==> !RefusedIn(q, buf, offer.sink))
  {
    var buf := text[..Min(offer.size, |text|)];
    var o, more := CallOn(q, buf, offer.sink), text[|buf|..];
    assert text == buf + more;
    FeedCountConcat(buf, more);
    FeedCountConcat(Left(o, buf), more);
    CallFeeds(q, buf, offer.sink);
    LateCall(q, buf, offer.sink);
    if RefusedIn(q, buf, offer.sink) {
      LateCallFeeds(q, buf, offer.sink);
    } else {
      assert Left(o, buf) == buf[o.written..];
    }
  }

  lemma LateCallFeeds(q: State, buf: string, sink: seq<WriteAnswer>)
    requires RefusedIn(q, buf, sink)
    ensures FeedCount(CallOn(q, buf, sink).sent) > 0
  {
    if q == AtDot {
      LateFeeds(false, buf, Rest(sink));
      FeedCountConcat(".", DataPhase(false, buf, 0, Rest(sink)).sent);
    } else {
      LateFeeds(q == AfterLF, buf, sink);
    }
  }

  lemma {:induction false} SendingFeeds(q: State, text: string, offers: seq<Offer>)
    ensures var t := Sending(q, text, offers);
            var total := FeedCount(t.sent) + FeedCount(t.left);
            total >= FeedCount(text) && (total == FeedCount(text) <==> NeverLate(q, text, offers))
    decreases |offers|
  {
    if offers != [] {
      var buf := text[..Min(offers[0].size, |text|)];
      var o := CallOn(q, buf, offers[0].sink);
      var rest := Left(o, buf) + text[|buf|..];
      CallFeedsExact(q, text, offers[0]);
      SendingFeeds(o.state, rest, offers[1..]);
      FeedCountConcat(o.sent, Sending(o.state, rest, offers[1..]).sent);
    }
  }

  lemma {:induction false} SendingDotted(q: State, text: string, offers: seq<Offer>)
    requires NeverLate(q, text, offers) && (q == AtDot ==> text != "" && text[0] == '.')
    ensures var t := Sending(q, text, offers); Dotted(text, t.sent + t.left)
    decreases |offers|
  {
    if offers == [] {
      DottedRefl(text);
      assert "" + text == text;
    } else {
      var buf := text[..Min(offers[0].size, |text|)];
      var o := CallOn(q, buf, offers[0].sink);
      var rest := Left(o, buf) + text[|buf|..];
      var t := Sending(o.state, rest, offers[1..]);
      CallDotted(q, text, offers[0]);
      SendingDotted(o.state, rest, offers[1..]);
      DottedAfter(o.sent, rest, t.sent + t.left);
      DottedTrans(text, o.sent + rest, o.sent + (t.sent + t.left));
      assert o.sent + (t.sent + t.left) == o.sent + t.sent + t.left;
    }
  }

  /** Any text, any streams, any number of stalls: nothing is lost, repeated, reordered or added but dots in
      front of dots, if and only if no call is refused after it has written. */
  lemma StallsExact(q: State, text: string, offers: seq<Offer>)
    requires q == AtDot ==> text != "" && text[0] == '.'
    ensures var t := Sending(q, text, offers); Dotted(text, t.sent + t.left) <==> NeverLate(q, text, offers)
  {
    var t := Sending(q, text, offers);
    SendingFeeds(q, text, offers);
    FeedCountConcat(t.sent, t.left);
    if NeverLate(q, text, offers) {
      SendingDotted(q, text, offers);
    } else if Dotted(text, t.sent + t.left) {
      DottedFeeds(text, t.sent + t.left);
    }
  }

  /** So a text can go out as its stuffing only if no call was refused late. */
  lemma StuffedIsNeverLate(q: State, start: bool, text: string, offers: seq<Offer>)
    requires Sending(q, text, offers) == Transcript(Stuff(start, text), "")
    ensures NeverLate(q, text, offers)
  {
    StuffIsDotted(start, text);
    DottedFeeds(text, Stuff(start, text));
    SendingFeeds(q, text, offers);
  }
}
