/**
 The restartable copy engine (libproxy/transfer2.cc) over plain streams: one hop
 from source to destination, or two hops through a stacked proxy.
 */
module Transfer {
  import opened Options
  import opened Streams

  const MAX_READ_AT_A_TIME := 30

  /** A stream call made for a hop, with what came of it. */
  datatype Call = Wrote(status: Status) | Got(status: Status)

  /** One buffer with the stream it is filled from and the stream it is emptied to. */
  class Hop {
    const buf: array<byte>
    var ofs: nat
    var end: nat
    var source: seq<ReadAnswer>
    var sink: seq<WriteAnswer>
    ghost var received: seq<byte>
    ghost var delivered: seq<byte>
    ghost var dropped: seq<byte>
    ghost var readCalls: nat
    ghost var trace: seq<Call>
    // the end-of-file bits of the reading side, and how often the two ends were shut down for it
    var eof: bool
    var soft: bool
    var shutdowns: nat

    /** Conservation: what came in is what went out, then what was discarded, then what is pending. */
    ghost predicate Valid()
      reads this, buf
    {
      ofs <= end <= buf.Length && received == delivered + dropped + buf[ofs..end]
    }

    /** The end of file is acted on once, and only when the buffer is drained, unless the transfer
        was aborted; one noticed earlier is left pending only behind data still to be written. */
    ghost predicate EndOk(aborted: bool, finished: bool)
      reads this
    {
      && (eof && !aborted ==> Empty())
      && (soft && !eof && !finished ==> !Empty())
      && shutdowns == One(eof)
    }

    constructor (size: nat, source: seq<ReadAnswer>, sink: seq<WriteAnswer>)
      ensures Valid() && fresh(buf) && buf.Length == size && ofs == end == 0
      ensures received == delivered == dropped == [] && trace == [] && !eof && !soft && shutdowns == 0
      ensures this.source == source && this.sink == sink
    {
      buf := new byte[size];
      ofs, end := 0, 0;
      this.source, this.sink := source, sink;
      received, delivered, dropped, readCalls, trace := [], [], [], 0, [];
      eof, soft, shutdowns := false, false, 0;
    }

    predicate Empty()
      reads this
    {
      ofs == end
    }

    /** Since the trace had length `n`, the last call was one that could not be served now. */
    ghost predicate StoppedSince(n: nat)
      reads this
    {
      |trace| > n && (trace[|trace| - 1] == Wrote(Again) || trace[|trace| - 1] == Got(Again))
    }

    /** A write has been answered by an end of file or an error. */
    ghost predicate SinkBroke()
      reads `trace
    {
      Wrote(Eof) in trace || Wrote(Error) in trace
    }

    ghost predicate SourceBroke()
      reads `trace
    {
      Got(Error) in trace
    }

    /** The end of the source, noted or acted on, is one that a read has met. */
    ghost predicate EndIsMet()
      reads this
    {
      soft || eof <==> Got(Eof) in trace || Got(Error) in trace
    }

    /** Sends pending bytes; NORMAL is reported only when nothing is left. */
    method WriteDest() returns (res: Status)
      requires Valid() && dropped == []
      modifies `ofs, `sink, `delivered, `trace
      ensures Valid() && old(ofs) <= ofs
      ensures delivered == old(delivered) + buf[old(ofs)..ofs]
      ensures res == Normal <==> Empty()
      ensures old(ofs) == end ==> res == Normal && sink == old(sink) && trace == old(trace)
      ensures old(ofs) < end ==>
                && trace == old(trace) + [Wrote(res)]
                && sink == Rest(old(sink)) && ofs == old(ofs) + WriteCount(old(sink), end - old(ofs))
                && res == if WriteStatus(old(sink)) == Normal && !Empty() then Again else WriteStatus(old(sink))
    {
      res := Normal;
      if ofs != end {
        var n := WriteCount(sink, end - ofs);
        res := WriteStatus(sink);
        sink := Rest(sink);
        delivered := delivered + buf[ofs..ofs + n];
        ofs := ofs + n;
        if res == Normal && ofs != end {
          res := Again;
        }
        trace := trace + [Wrote(res)];
      }
    }

    /** Appends what the source stream gives, up to the room left. */
    method ReadSource() returns (res: Status)
      requires Valid()
      modifies `end, `source, `received, `readCalls, `trace, buf
      ensures Valid() && end == old(end) + |ReadBytes(old(source), buf.Length - old(end))|
      ensures res == ReadStatus(old(source)) && source == Rest(old(source))
      ensures received == old(received) + ReadBytes(old(source), buf.Length - old(end))
      ensures readCalls == old(readCalls) + 1 && trace == old(trace) + [Got(res)]
    {
      var data := ReadBytes(source, buf.Length - end);
      res := ReadStatus(source);
      source := Rest(source);
      forall k | 0 <= k < |data| {
        buf[end + k] := data[k];
      }
      assert buf[ofs..end + |data|] == old(buf[ofs..end]) + data;
      Assoc(delivered + dropped, old(buf[ofs..end]), data);
      end := end + |data|;
      received := received + data;
      readCalls := readCalls + 1;
      trace := trace + [Got(res)];
    }

    /** Empties the buffer into the destination, or onto the floor when the tail is discarded;
        anything but NORMAL when the destination would not take all of it. */
    method Drain(tail: bool) returns (res: Status)
      requires Valid() && (!tail ==> dropped == [])
      modifies `ofs, `end, `sink, `delivered, `dropped, `trace
      ensures Valid() && (!tail ==> dropped == [])
      ensures res != Normal ==> trace == old(trace) + [Wrote(res)]
      ensures res == Normal ==> trace == old(trace) || trace == old(trace) + [Wrote(Normal)]
      ensures res == Normal ==> ofs == end == 0
      ensures res != Normal ==> !Empty() && !tail
      ensures old(delivered) <= delivered && (tail ==> delivered == old(delivered))
      ensures !tail ==> old(ofs) <= old(ofs) + |delivered| - |old(delivered)| <= old(end)
                        && delivered == old(delivered) + old(buf[ofs..])[..|delivered| - |old(delivered)|]
    {
      res := Normal;
      if !tail {
        res := WriteDest();
        if res != Normal {
          return;
        }
      } else {
        dropped := dropped + buf[ofs..end];
        ofs, end := 0, 0;
      }
      if Empty() {
        ofs, end := 0, 0;
      }
    }
  }

  datatype Flags = Flags(
    finished: bool, suspended: bool, failed: bool, timedOut: bool, aborted: bool, started: bool, tail: bool, proxyOut: bool)

  const NoFlags := Flags(false, false, false, false, false, false, false, false)

  /** The poll conditions a callback hangs on. */
  datatype Cond = SourceIn | DownSourceOut | DownDestIn | DestOut
  /** How a reading loop came to its end. */
  datatype Outcome = More | Waits | Ended | EndsLater | Broken
  datatype Result = Finished | Suspended | Failed | Aborted

  /** What the poll loop and the proxy may do between two copy steps. */
  datatype Happening =
    | Ready(cond: Cond)
    | TimeOut
    | Progress(ok: bool)
    | Suspend
    | Cancel
    | ProxyOut(on: bool)
    | OwnerStops
    | PollQuits

  function One(b: bool): nat { if b then 1 else 0 }

  /** The flags a copy step leaves alone, and those it never clears. */
  predicate StepFlags(before: Flags, after: Flags) {
    && after.suspended == before.suspended && after.timedOut == before.timedOut
    && after.started == before.started && after.proxyOut == before.proxyOut
    && (before.tail ==> after.tail) && (before.failed ==> after.failed) && (before.aborted ==> after.aborted)
  }

  /** The inner loop: reads until the buffer is full or the source has nothing more to give. */
  method Fill(hop: Hop, pkts0: nat) returns (pkts: nat, outcome: Outcome)
    requires hop.Valid() && hop.ofs == hop.end == 0 && pkts0 < MAX_READ_AT_A_TIME
    modifies hop`end, hop`source, hop`received, hop`readCalls, hop`trace, hop.buf
    ensures hop.Valid() && pkts0 <= pkts <= MAX_READ_AT_A_TIME
    ensures hop.buf.Length == 0 ==> outcome == More && pkts == pkts0
    ensures outcome == More && hop.buf.Length > 0 ==> pkts > pkts0 && !hop.soft
    ensures outcome == Ended ==> hop.Empty()
    ensures outcome == Waits ==> |hop.trace| > |old(hop.trace)| && hop.trace[|hop.trace| - 1] == Got(Again)
    ensures hop.SinkBroke() == old(hop.SinkBroke())
    ensures hop.SourceBroke() <==> old(hop.SourceBroke()) || outcome == Broken
    ensures Got(Eof) in hop.trace <==> Got(Eof) in old(hop.trace) || outcome == EndsLater || (outcome == Ended && !hop.soft)
    ensures outcome == EndsLater ==> pkts < MAX_READ_AT_A_TIME
    ensures |old(hop.trace)| <= |hop.trace|
    ensures outcome == EndsLater ==> !hop.Empty() && !hop.soft
    ensures hop.soft ==> (hop.buf.Length > 0 ==> outcome == Ended) && hop.readCalls == old(hop.readCalls)
    ensures hop.readCalls <= old(hop.readCalls) + MAX_READ_AT_A_TIME - pkts0
    ensures outcome == More ==> hop.readCalls == old(hop.readCalls) + pkts - pkts0
    ensures old(hop.received) <= hop.received
  {
    pkts := pkts0;
    while pkts < MAX_READ_AT_A_TIME && hop.end != hop.buf.Length
      invariant hop.Valid() && hop.ofs == 0
      invariant pkts0 <= pkts <= MAX_READ_AT_A_TIME
      invariant pkts == pkts0 ==> hop.end == 0
      invariant pkts > pkts0 ==> !hop.soft && hop.buf.Length > 0
      invariant hop.readCalls == old(hop.readCalls) + pkts - pkts0 && old(hop.received) <= hop.received
      invariant |old(hop.trace)| <= |hop.trace| && hop.SinkBroke() == old(hop.SinkBroke())
      invariant hop.SourceBroke() == old(hop.SourceBroke()) && (Got(Eof) in hop.trace <==> Got(Eof) in old(hop.trace))
    {
      if !hop.soft {
        var res := hop.ReadSource();
        if res == Normal {
        } else if res == Again {
          return pkts, Waits;
        } else if res == Eof {
          return pkts, if hop.Empty() then Ended else EndsLater;
        } else {
          return pkts, Broken;
        }
        pkts := pkts + 1;
      } else {
        return pkts, Ended;
      }
    }
    outcome := More;
  }

  /** z_transfer2_eof: the first time, both ends of the hop are shut down. */
  method NoteEof(hop: Hop)
    requires hop.shutdowns == One(hop.eof)
    modifies hop`eof, hop`shutdowns
    ensures hop.eof && hop.shutdowns == One(hop.eof)
  {
    if !hop.eof {
      hop.shutdowns := hop.shutdowns + 1;
      hop.eof := true;
    }
  }

  /** The reading half of a pass: fills the drained buffer and acts on how that ended. */
  method Refill(hop: Hop, pkts0: nat) returns (broken: bool, pkts: nat, leave: bool)
    requires hop.Valid() && hop.ofs == hop.end == 0 && hop.shutdowns == 0 && (hop.soft ==> hop.buf.Length > 0)
    requires !hop.eof && pkts0 < MAX_READ_AT_A_TIME
    modifies hop`end, hop`source, hop`received, hop`readCalls, hop`trace, hop`eof, hop`soft, hop`shutdowns, hop.buf
    ensures hop.Valid() && hop.EndOk(broken, false)
    ensures leave || (!broken && !hop.eof)
    ensures broken ==> hop.eof
    ensures pkts0 <= pkts <= MAX_READ_AT_A_TIME
    ensures leave || pkts > pkts0 || (hop.soft && !old(hop.soft)) <==> hop.buf.Length > 0
    ensures hop.buf.Length == 0 ==> !broken && !hop.eof
    ensures leave ==> hop.eof || hop.StoppedSince(|old(hop.trace)|)
    ensures !leave && hop.soft ==> pkts < MAX_READ_AT_A_TIME
    ensures |old(hop.trace)| <= |hop.trace|
    ensures hop.SinkBroke() == old(hop.SinkBroke()) && (hop.SourceBroke() <==> old(hop.SourceBroke()) || broken)
    ensures old(hop.EndIsMet()) ==> hop.EndIsMet()
    ensures old(hop.soft) ==> leave && hop.soft && hop.readCalls == old(hop.readCalls)
    ensures hop.readCalls <= old(hop.readCalls) + MAX_READ_AT_A_TIME - pkts0
    ensures leave || hop.soft || hop.readCalls == old(hop.readCalls) + pkts - pkts0
    ensures old(hop.received) <= hop.received
  {
    var outcome;
    pkts, outcome := Fill(hop, pkts0);
    broken := false;
    leave := true;
    match outcome
    case More =>
      leave := false;
    case Waits =>
    case Ended =>
      NoteEof(hop);
    case EndsLater =>
      hop.soft := true;
      leave := false;
    case Broken =>
      broken := true;
      NoteEof(hop);
  }

  /** One pass of the outer loop: `failing` when the destination broke, `broken` when the source did. */
  method Pass(hop: Hop, tail: bool, pkts0: nat) returns (failing: bool, broken: bool, pkts: nat, leave: bool)
    requires hop.Valid() && (!tail ==> hop.dropped == []) && hop.EndOk(false, false)
    requires !hop.eof && pkts0 < MAX_READ_AT_A_TIME
    modifies hop, hop.buf
    ensures hop.Valid() && (!tail ==> hop.dropped == []) && hop.EndOk(broken, false)
    ensures leave || (!broken && !failing && !hop.eof)
    ensures failing ==> !broken && !hop.eof && !hop.Empty() && !tail
    ensures broken ==> hop.eof
    ensures pkts0 <= pkts <= MAX_READ_AT_A_TIME
    // progress, and with it the end of the copy loop, exactly when there is a buffer
    ensures leave || pkts > pkts0 || (hop.soft && !old(hop.soft)) <==> hop.buf.Length > 0
    ensures leave ==> hop.eof || failing || hop.StoppedSince(|old(hop.trace)|)
    ensures !leave && hop.soft ==> pkts < MAX_READ_AT_A_TIME
    ensures old(hop.soft) ==> leave && hop.soft && hop.readCalls == old(hop.readCalls)
    ensures hop.readCalls <= old(hop.readCalls) + MAX_READ_AT_A_TIME - pkts0
    ensures leave || hop.soft || hop.readCalls == old(hop.readCalls) + pkts - pkts0
    ensures tail ==> hop.delivered == old(hop.delivered)
    ensures old(hop.delivered) <= hop.delivered && old(hop.received) <= hop.received && |old(hop.trace)| <= |hop.trace|
    // a failure is a write that broke, an abort a read that broke, an end one that a read has met
    ensures hop.SinkBroke() <==> old(hop.SinkBroke()) || failing
    ensures hop.SourceBroke() <==> old(hop.SourceBroke()) || broken
    ensures failing ==> hop.trace[|hop.trace| - 1] in {Wrote(Eof), Wrote(Error)}
    ensures old(hop.EndIsMet()) ==> hop.EndIsMet()
  {
    pkts, leave, broken := pkts0, true, false;
    var res := hop.Drain(tail);
    failing := res == Eof || res == Error;
    if res == Normal {
      broken, pkts, leave := Refill(hop, pkts0);
    }
  }

  /** The outer loop on one hop: passes until one ends it, or the reads of a turn are used up. */
  method Passes(hop: Hop, tail: bool) returns (failing: bool, broken: bool)
    requires hop.Valid() && hop.buf.Length > 0 && (!tail ==> hop.dropped == []) && hop.EndOk(false, false)
    requires !hop.eof && !hop.SourceBroke() && hop.EndIsMet()
    modifies hop, hop.buf
    ensures hop.Valid() && (!tail ==> hop.dropped == []) && hop.EndOk(broken, false) && hop.EndIsMet()
    ensures hop.SinkBroke() <==> old(hop.SinkBroke()) || failing
    ensures hop.SourceBroke() <==> broken
    ensures (failing ==> !broken && !hop.eof && !tail) && (broken ==> hop.eof)
    ensures hop.readCalls <= old(hop.readCalls) + MAX_READ_AT_A_TIME
    ensures tail ==> hop.delivered == old(hop.delivered)
    ensures old(hop.delivered) <= hop.delivered && old(hop.received) <= hop.received
    // it goes on until the hop ends or fails, a stream has to be waited for, or its turn is used up
    ensures hop.eof || failing || hop.StoppedSince(|old(hop.trace)|) || hop.readCalls == old(hop.readCalls) + MAX_READ_AT_A_TIME
  {
    var pkts, leave := 0, false;
    failing, broken := false, false;
    while pkts < MAX_READ_AT_A_TIME && !leave
      invariant pkts <= MAX_READ_AT_A_TIME && hop.readCalls <= old(hop.readCalls) + MAX_READ_AT_A_TIME
      invariant leave || hop.soft || hop.readCalls == old(hop.readCalls) + pkts
      invariant hop.Valid() && (!tail ==> hop.dropped == []) && hop.EndOk(broken, false) && hop.EndIsMet()
      invariant leave || (!broken && !failing && !hop.eof)
      invariant (failing ==> !broken && !hop.eof && !tail) && (broken ==> hop.eof)
      invariant (hop.SinkBroke() <==> old(hop.SinkBroke()) || failing) && (hop.SourceBroke() <==> broken)
      invariant tail ==> hop.delivered == old(hop.delivered)
      invariant old(hop.delivered) <= hop.delivered && old(hop.received) <= hop.received
      invariant leave ==> hop.eof || failing || hop.StoppedSince(|old(hop.trace)|)
      invariant |old(hop.trace)| <= |hop.trace| && (!leave && hop.soft ==> pkts < MAX_READ_AT_A_TIME)
      decreases MAX_READ_AT_A_TIME - pkts, !hop.soft, !leave
    {
      failing, broken, pkts, leave := Pass(hop, tail, pkts);
    }
  }

  /** A copy step on one hop; `last` tells whether the other hop, if there is one, has ended.  A write that breaks
      ends the transfer, or turns to discarding the rest of the input; a read that breaks aborts it; otherwise it is
      finished once every hop has ended. */
  method CopyLoop(hop: Hop, last: bool, completeCopy: bool, st0: Flags) returns (st: Flags)
    requires hop.Valid() && hop.buf.Length > 0 && (!st0.tail ==> hop.dropped == []) && hop.EndOk(st0.aborted, st0.finished)
    requires !st0.finished && !st0.aborted && !hop.eof
    requires !hop.SourceBroke() && (hop.SinkBroke() ==> st0.failed && st0.tail && completeCopy) && hop.EndIsMet()
    modifies hop, hop.buf
    ensures hop.Valid() && (!st.tail ==> hop.dropped == []) && hop.EndOk(st.aborted, st.finished) && StepFlags(st0, st)
    ensures st.failed <==> st0.failed || hop.SinkBroke()
    ensures st.aborted <==> hop.SourceBroke()
    ensures st.tail <==> st0.tail || (completeCopy && hop.SinkBroke())
    ensures st.finished <==> hop.SourceBroke() || (hop.eof && last) || (hop.SinkBroke() && !completeCopy)
    ensures hop.EndIsMet() && (old(hop.SinkBroke()) ==> hop.SinkBroke())
    ensures hop.readCalls <= old(hop.readCalls) + MAX_READ_AT_A_TIME
    ensures st0.tail ==> hop.delivered == old(hop.delivered)
    ensures old(hop.delivered) <= hop.delivered && old(hop.received) <= hop.received
    ensures hop.eof || st.failed || hop.StoppedSince(|old(hop.trace)|) || hop.readCalls == old(hop.readCalls) + MAX_READ_AT_A_TIME
  {
    var failing, broken := Passes(hop, st0.tail);
    st := st0;
    if failing {
      st := st.(failed := true);
      if completeCopy {
        st := st.(tail := true);
      } else {
        st := st.(finished := true);
      }
    }
    if broken {
      st := st.(finished := true, aborted := true);
    }
    if hop.eof && last {
      st := st.(finished := true);
    }
  }

  // ---------------------------------------------------------------- poll conditions

  /** The conditions armed, given which hops have ended and which buffers are empty. */
  function Arms(stacked: bool, proxyOut: bool, eofSource: bool, eofDest: bool, empty0: bool, empty1: bool): set<Cond> {
    if stacked then
      (if eofSource then {} else if empty0 && !proxyOut then {SourceIn} else {DownSourceOut})
      + (if eofDest then {} else if empty1 then {DownDestIn} else {DestOut})
    else if eofSource then {}
    else if (empty0 || eofDest) && !proxyOut then {SourceIn} else {DestOut}
  }

  /** The hop that the callback on a condition copies. */
  predicate SecondHop(stacked: bool, c: Cond) { c == DownDestIn || (stacked && c == DestOut) }

  /** While a hop is open some condition is armed, and none is for a hop that has ended. */
  lemma ArmsForOpenHops(stacked: bool, proxyOut: bool, eofSource: bool, eofDest: bool, empty0: bool, empty1: bool)
    requires !stacked ==> eofSource == eofDest
    ensures var a := Arms(stacked, proxyOut, eofSource, eofDest, empty0, empty1);
            && (a == {} <==> eofSource && eofDest)
            && forall c :: c in a ==> (if SecondHop(stacked, c) then stacked && !eofDest else !eofSource)
  {
    var a := Arms(stacked, proxyOut, eofSource, eofDest, empty0, empty1);
    assert !eofSource ==> SourceIn in a || DownSourceOut in a || DestOut in a;
    assert stacked && !eofDest ==> DownDestIn in a || DestOut in a;
  }

  /** The conditions there are; two of them are those of a stacked proxy. */
  predicate Exists(stacked: bool, c: Cond) { stacked || c == SourceIn || c == DestOut }

  /** Waiting for something to read, and not for room to write. */
  predicate ForInput(c: Cond) { c == SourceIn || c == DownDestIn }

  /** A condition is armed exactly when its hop is open and it is the one that hop waits for: input while the
      buffer is empty, room while it is not; while the proxy writes, the first hop does not read. */
  lemma ArmsExact(stacked: bool, proxyOut: bool, eofSource: bool, eofDest: bool, empty0: bool, empty1: bool, c: Cond)
    requires !stacked ==> eofSource == eofDest
    ensures c in Arms(stacked, proxyOut, eofSource, eofDest, empty0, empty1) <==>
              && Exists(stacked, c)
              && if SecondHop(stacked, c) then !eofDest && (ForInput(c) <==> empty1)
                 else !eofSource && (ForInput(c) <==> empty0 && !proxyOut)
  {
  }

  /** What the poll loop or the owner brings sets its own flags. */
  function After(st: Flags, h: Happening): Flags {
    var stop, abort := h.TimeOut? || (h.Progress? && !h.ok), h.Cancel? || h.OwnerStops?;
    st.(timedOut := st.timedOut || h.TimeOut?, failed := st.failed || stop, aborted := st.aborted || abort,
        finished := st.finished || stop || abort, suspended := st.suspended || h.Suspend?,
        proxyOut := if h.ProxyOut? then h.on else st.proxyOut)
  }

  /** A timeout, or a progress callback that refuses to go on. */
  predicate Stopped(past: seq<Happening>) { TimeOut in past || Progress(false) in past }

  /** The owner has given up, or someone has cancelled. */
  predicate CalledOff(past: seq<Happening>) { Cancel in past || OwnerStops in past }

  lemma PastSnoc(script: seq<Happening>, i: nat)
    requires i < |script|
    ensures var h := script[i];
            && (Stopped(script[..i + 1]) <==> Stopped(script[..i]) || h.TimeOut? || (h.Progress? && !h.ok))
            && (CalledOff(script[..i + 1]) <==> CalledOff(script[..i]) || h.Cancel? || h.OwnerStops?)
            && (Suspend in script[..i + 1] <==> Suspend in script[..i] || h.Suspend?)
  {
    assert script[..i + 1] == script[..i] + [script[i]];
    assert script[i].Progress? && !script[i].ok ==> script[i] == Progress(false);
  }

  class Transfer {
    const stacked: bool
    const completeCopy: bool
    const hop0: Hop
    const hop1: Hop
    var st: Flags
    var armed: set<Cond>

    function At(second: bool): Hop { if second then hop1 else hop0 }

    ghost predicate Buffers(tail: bool)
      reads hop0, hop1, hop0.buf, hop1.buf
    {
      && hop0 != hop1 && hop0.buf != hop1.buf && hop0.buf.Length > 0 && hop1.buf.Length > 0
      && hop0.Valid() && hop1.Valid()
      && (!tail ==> hop0.dropped == [] && hop1.dropped == [])
      && (!stacked ==> hop1.received == [] && hop1.eof == hop0.eof && !hop1.soft)
    }

    ghost predicate Ends(st: Flags)
      reads hop0, hop1
    {
      && hop0.EndOk(st.aborted, st.finished) && hop1.EndOk(st.aborted, st.finished)
      && (st.finished && !st.failed && !st.aborted ==> hop0.eof && hop1.eof)
    }

    ghost predicate ArmedOk(armed: set<Cond>)
      reads hop0, hop1
    {
      forall c :: c in armed ==> (if SecondHop(stacked, c) then stacked && !hop1.eof else !hop0.eof)
    }

    ghost predicate WriteBroke()
      reads hop0`trace, hop1`trace
    {
      hop0.SinkBroke() || hop1.SinkBroke()
    }

    ghost predicate ReadBroke()
      reads hop0`trace, hop1`trace
    {
      hop0.SourceBroke() || hop1.SourceBroke()
    }

    /** A stream that broke has had its effect, and an end is one that a read has met. */
    ghost predicate Acted(st: Flags)
      reads hop0, hop1
    {
      && (WriteBroke() ==> st.failed && if completeCopy then st.tail else st.finished)
      && (ReadBroke() ==> st.aborted) && (st.aborted ==> st.finished)
      && (hop0.eof && hop1.eof ==> st.finished)
      && hop0.EndIsMet() && if stacked then hop1.EndIsMet() else hop1.trace == []
    }

    ghost predicate Valid()
      reads this, hop0, hop1, hop0.buf, hop1.buf
    {
      Buffers(st.tail) && Ends(st) && ArmedOk(armed) && Acted(st) && (!st.finished ==> armed != {})
    }

    /** Everything read has been written, on both hops. */
    ghost predicate AllDelivered()
      reads hop0, hop1
    {
      hop0.delivered == hop0.received && hop1.delivered == hop1.received
    }

    constructor (stacked: bool, completeCopy: bool, hop0: Hop, hop1: Hop)
      requires hop0 != hop1 && hop0.buf != hop1.buf && hop0.buf.Length > 0 && hop1.buf.Length > 0
      requires hop0.Valid() && hop1.Valid() && hop0.received == hop1.received == []
      requires !hop0.eof && !hop0.soft && hop0.shutdowns == 0 && !hop1.eof && !hop1.soft && hop1.shutdowns == 0
      requires hop0.trace == hop1.trace == []
      ensures Valid() && st == NoFlags && this.stacked == stacked && this.completeCopy == completeCopy
      ensures this.hop0 == hop0 && this.hop1 == hop1
      ensures armed == if stacked then {SourceIn, DownDestIn} else {SourceIn}
    {
      this.stacked, this.completeCopy := stacked, completeCopy;
      this.hop0, this.hop1 := hop0, hop1;
      st := NoFlags;
      armed := if stacked then {SourceIn, DownDestIn} else {SourceIn};
    }

    method UpdateCond()
      requires !stacked ==> hop0.eof == hop1.eof
      modifies `armed
      ensures armed == Arms(stacked, st.proxyOut, hop0.eof, hop1.eof, hop0.Empty(), hop1.Empty())
      ensures forall c :: c in armed <==>
                && Exists(stacked, c)
                && if SecondHop(stacked, c) then !hop1.eof && (ForInput(c) <==> hop1.Empty())
                   else !hop0.eof && (ForInput(c) <==> hop0.Empty() && !st.proxyOut)
      ensures ArmedOk(armed) && (armed == {} <==> hop0.eof && hop1.eof)
    {
      armed := {};
      if stacked {
        if !hop0.eof {
          if hop0.Empty() && !st.proxyOut {
            armed := armed + {SourceIn};
          } else {
            armed := armed + {DownSourceOut};
          }
        }
        if !hop1.eof {
          if hop1.Empty() {
            armed := armed + {DownDestIn};
          } else {
            armed := armed + {DestOut};
          }
        }
      } else {
        if !hop0.eof {
          if (hop0.Empty() || hop1.eof) && !st.proxyOut {
            armed := armed + {SourceIn};
          } else {
            armed := armed + {DestOut};
          }
        }
      }
      ArmsForOpenHops(stacked, st.proxyOut, hop0.eof, hop1.eof, hop0.Empty(), hop1.Empty());
      forall c
        ensures c in armed <==>
                && Exists(stacked, c)
                && if SecondHop(stacked, c) then !hop1.eof && (ForInput(c) <==> hop1.Empty())
                   else !hop0.eof && (ForInput(c) <==> hop0.Empty() && !st.proxyOut)
      {
        ArmsExact(stacked, st.proxyOut, hop0.eof, hop1.eof, hop0.Empty(), hop1.Empty(), c);
      }
    }

    /** A copy step on a hop went as far as it could: the hop ended or failed, one of its streams
        has to be waited for, or the packets of one turn are used up. */
    twostate predicate Copied(second: bool)
      reads this, hop0, hop1
    {
      var hop := At(second);
      hop.eof || st.failed || hop.StoppedSince(|old(hop.trace)|) || hop.readCalls == old(hop.readCalls) + MAX_READ_AT_A_TIME
    }

    /** Bytes are only ever added to what came in and to what went out, and what broke stays broken. */
    twostate predicate Forward()
      reads hop0, hop1
    {
      && (old(WriteBroke()) ==> WriteBroke()) && (old(ReadBroke()) ==> ReadBroke())
      && old(hop0.received) <= hop0.received && old(hop1.received) <= hop1.received
      && old(hop0.delivered) <= hop0.delivered && old(hop1.delivered) <= hop1.delivered
    }

    /** Nothing has been delivered. */
    twostate predicate Silent()
      reads hop0, hop1
    {
      hop0.delivered == old(hop0.delivered) && hop1.delivered == old(hop1.delivered)
    }

    /** The flags after a copy step: a write that broke is a failure, a read that broke aborts, and the transfer is
        finished by either, or with the last hop; but a complete copy goes on after a failure. */
    ghost predicate Outcomes(before: Flags)
      reads `st, hop0, hop1
    {
      && (st.failed <==> before.failed || WriteBroke())
      && (st.aborted <==> ReadBroke())
      && (st.finished <==> ReadBroke() || (WriteBroke() && !completeCopy) || (hop0.eof && hop1.eof))
    }

    /** The copying half of a copy step. */
    method CopyHop(second: bool)
      requires Valid() && !st.finished && !At(second).eof && (second ==> stacked)
      modifies `st, hop0, hop1, At(second).buf
      ensures Buffers(st.tail) && Ends(st) && Acted(st) && StepFlags(old(st), st) && Outcomes(old(st))
      ensures At(second).readCalls <= old(At(second).readCalls) + MAX_READ_AT_A_TIME
      ensures Copied(second) && Forward() && (old(st.tail) ==> Silent())
    {
      var hop, other := At(second), At(!second);
      var last := !stacked || other.eof;
      st := CopyLoop(hop, last, completeCopy, st);
      if !stacked && hop0.eof {
        NoteEof(hop1);
      }
    }

    /** z_transfer2_copy_data, on the hop from the source or the one from the stacked proxy. */
    method CopyData(second: bool)
      requires Valid() && !st.finished && !At(second).eof && (second ==> stacked)
      modifies `st, `armed, hop0, hop1, At(second).buf
      ensures Valid() && StepFlags(old(st), st) && Outcomes(old(st))
      ensures armed == Arms(stacked, st.proxyOut, hop0.eof, hop1.eof, hop0.Empty(), hop1.Empty())
      ensures !st.finished ==> armed != {}
      ensures At(second).readCalls <= old(At(second).readCalls) + MAX_READ_AT_A_TIME
      ensures Copied(second) && Forward() && (old(st.tail) ==> Silent())
    {
      CopyHop(second);
      UpdateCond();
    }

    /** What one turn of the poll loop does; a callback fires only on an armed condition. */
    method Turn(h: Happening)
      requires Valid() && !st.finished && h != PollQuits
      modifies `st, `armed, hop0, hop1, hop0.buf, hop1.buf
      ensures Valid() && (!st.finished ==> armed != {})
      ensures !h.Ready? ==> st == After(old(st), h) && unchanged(hop0, hop1)
      ensures st.timedOut <==> old(st.timedOut) || h == TimeOut
      ensures st.proxyOut <==> h == ProxyOut(true) || (old(st.proxyOut) && h != ProxyOut(false))
      ensures h.Ready? ==> StepFlags(old(st), st) && Outcomes(old(st))
      ensures h.Ready? && h.cond in old(armed) ==> Copied(SecondHop(stacked, h.cond))
      ensures h.Ready? && h.cond !in old(armed) ==> st == old(st) && unchanged(hop0, hop1)
      ensures Forward() && (old(st.tail) ==> st.tail && Silent())
    {
      if !h.Ready? {
        Note(h);
      } else if h.cond in armed {
        CopyData(SecondHop(stacked, h.cond));
      }
    }

    /** What the poll loop or the owner brings besides callbacks changes the status only. */
    method Note(h: Happening)
      requires Valid() && !st.finished
      modifies `st
      ensures Valid() && st == After(old(st), h)
    {
      EndsKept(h);
      st := After(st, h);
    }

    lemma EndsKept(h: Happening)
      requires Ends(st) && Acted(st) && !st.finished
      ensures var next := After(st, h);
              Ends(next) && Acted(next) && next.tail == st.tail && (next.finished <==> next.aborted || After(NoFlags, h).failed)
    {
    }

    /** The flags after some turns: the failure, the abort and the end of a transfer have their causes in what was
        brought and in what the streams answered. */
    ghost predicate Explained(before: Flags, past: seq<Happening>)
      reads `st, hop0, hop1
    {
      && (st.failed <==> before.failed || Stopped(past) || WriteBroke())
      && (st.aborted <==> before.aborted || CalledOff(past) || ReadBroke())
      && (st.finished <==> before.finished || Stopped(past) || CalledOff(past) || ReadBroke() || (WriteBroke() && !completeCopy)
                           || (hop0.eof && hop1.eof))
    }

    method NextTurn(ghost before: Flags, script: seq<Happening>, i: nat)
      requires Valid() && !st.finished && i < |script| && script[i] != PollQuits && Explained(before, script[..i])
      modifies `st, `armed, hop0, hop1, hop0.buf, hop1.buf
      ensures Valid() && st.started == old(st.started) && Explained(before, script[..i + 1])
      ensures st.suspended <==> old(st.suspended) || script[i].Suspend?
      ensures Forward() && (old(st.tail) ==> st.tail && Silent())
    {
      PastSnoc(script, i);
      Turn(script[i]);
    }

    /** The poll loop of a run: turns until it is finished or suspended, the poll gives up, or the script ends. */
    method Iterate(script: seq<Happening>) returns (quit: bool, turns: nat)
      requires Valid() && !st.suspended
      modifies `st, `armed, hop0, hop1, hop0.buf, hop1.buf
      ensures Valid() && st.started == old(st.started) && turns <= |script| && Explained(old(st), script[..turns])
      ensures st.suspended <==> Suspend in script[..turns]
      ensures st.finished || st.suspended || turns == |script| || script[turns] == PollQuits
      ensures quit <==> turns < |script| && script[turns] == PollQuits && !st.finished && !st.suspended
      ensures Forward() && (old(st.tail) ==> st.tail && Silent())
    {
      quit, turns := false, 0;
      while !st.finished && !st.suspended && turns < |script|
        invariant turns <= |script| && Valid() && st.started == old(st.started)
        invariant Explained(old(st), script[..turns]) && (st.suspended <==> Suspend in script[..turns])
        invariant Forward() && (old(st.tail) ==> st.tail && Silent())
        decreases |script| - turns
      {
        PastSnoc(script, turns);
        if script[turns] == PollQuits {
          quit := true;
          break;
        }
        NextTurn(old(st), script, turns);
        turns := turns + 1;
      }
    }

    /** What a run answers. */
    function Answer(): Result
      reads `st
    {
      if st.suspended then Suspended else if st.failed then Failed else if st.aborted then Aborted else Finished
    }

    method Begin()
      requires Valid()
      modifies `armed, `st
      ensures Valid() && st == old(st).(started := true, suspended := false)
    {
      UpdateCond();
      st := st.(started := true, suspended := false);
    }

    /** z_transfer2_run_method over a script of the poll loop; no result while it is still running.
        A run that ends because everything is finished, and not because the poll gave up, has
        delivered every byte it read; a transfer that is not finished waits for something; and the
        answer tells why the run ended. */
    method Run(script: seq<Happening>) returns (result: Option<Result>, quit: bool, turns: nat)
      requires Valid()
      modifies `st, `armed, hop0, hop1, hop0.buf, hop1.buf
      ensures Valid() && st.started && (!st.finished ==> armed != {})
      ensures turns <= |script| && Explained(old(st), script[..turns]) && (st.suspended <==> Suspend in script[..turns])
      ensures quit <==> turns < |script| && script[turns] == PollQuits && !st.finished && !st.suspended
      ensures result.None? <==> !st.finished && !st.suspended && !quit
      ensures result.None? ==> turns == |script|
      ensures result.Some? ==>
                var failed := old(st.failed) || Stopped(script[..turns]) || WriteBroke();
                var aborted := old(st.aborted) || CalledOff(script[..turns]) || ReadBroke();
                && (result.value == Suspended <==> st.suspended)
                && (result.value == Failed <==> !st.suspended && failed)
                && (result.value == Aborted <==> !st.suspended && !failed && aborted)
      ensures result == Some(Finished) && !quit && !st.tail ==> AllDelivered()
      ensures Forward() && (old(st.tail) ==> st.tail && Silent())
    {
      Begin();
      quit, turns := Iterate(script);
      result := None;
      if st.finished || st.suspended || quit {
        result := Some(Answer());
      }
    }

    /** z_transfer2_rollback: from then on input is consumed and nothing more is written, in as many runs as it is
        suspended, and one more; a transfer that has not begun or is finished is left alone. */
    method Rollback(scripts: seq<seq<Happening>>) returns (results: seq<Option<Result>>)
      requires Valid()
      modifies `st, `armed, hop0, hop1, hop0.buf, hop1.buf
      ensures Valid() && Forward() && Silent()
      ensures !old(st.started) || old(st.finished) ==> results == [] && st == old(st) && unchanged(hop0, hop1)
      ensures old(st.started) && !old(st.finished) ==> st.tail && |results| <= |scripts|
      ensures forall k :: 0 <= k < |results| - 1 ==> results[k] == Some(Suspended)
      ensures old(st.started) && !old(st.finished) && |results| < |scripts| ==>
                results != [] && results[|results| - 1] != Some(Suspended)
    {
      results := [];
      if st.started && !st.finished {
        BeginTail();
        results := RunTails(scripts);
      }
    }

    method BeginTail()
      requires Valid()
      modifies `st
      ensures Valid() && st == old(st).(tail := true)
    {
      st := st.(tail := true);
    }

    method RunTails(scripts: seq<seq<Happening>>) returns (results: seq<Option<Result>>)
      requires Valid() && st.tail
      modifies `st, `armed, hop0, hop1, hop0.buf, hop1.buf
      ensures Valid() && Forward() && Silent() && st.tail && |results| <= |scripts|
      ensures forall k :: 0 <= k < |results| - 1 ==> results[k] == Some(Suspended)
      ensures |results| < |scripts| ==> results != [] && results[|results| - 1] != Some(Suspended)
    {
      results := [];
      var result := Some(Suspended);
      while result == Some(Suspended) && |results| < |scripts|
        invariant Valid() && st.tail && Forward() && Silent() && |results| <= |scripts|
        invariant forall k :: 0 <= k < |results| - 1 ==> results[k] == Some(Suspended)
        invariant result == if results == [] then Some(Suspended) else results[|results| - 1]
        decreases |scripts| - |results|
      {
        var quit, turns;
        result, quit, turns := Run(scripts[|results|]);
        results := results + [result];
      }
    }
  }
}
