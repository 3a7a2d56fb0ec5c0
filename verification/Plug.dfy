/**
 The plug relay (lib/plugsession.cc): copy directions with one buffer each, the
 packet statistics, and the session that the ends of directions bring down.
 */
module Plug {
  import opened Options
  import opened PlugMask
  import opened Streams

  const MAX_READ_AT_A_TIME := 30

  // ---------------------------------------------------------------- one direction

  /** A stream call made for a direction, with what came of it. */
  datatype Call = Wrote(status: Status) | Got(status: Status)

  /** The client, the server, and the streams to the proxy stacked between them, if there is one. */
  datatype Stream = AtClient | AtServer | DownClient | DownServer

  /** One copy direction: the reading side of one stream, a buffer, and the writing side of another,
      unless the data is only to be read. */
  class Direction {
    const from: Stream
    const to: Stream
    const hasDest: bool
    const buf: array<byte>
    var ofs: nat
    var end: nat
    var source: seq<ReadAnswer>
    var sink: seq<WriteAnswer>
    var inArmed: bool
    var outArmed: bool
    ghost var received: seq<byte>
    ghost var delivered: seq<byte>
    ghost var readCalls: nat
    ghost var trace: seq<Call>

    /** Delivered bytes are a prefix of those read, short of exactly what the buffer holds. */
    ghost predicate Valid()
      reads this, buf
    {
      && ofs <= end <= buf.Length
      && (if hasDest then received == delivered + buf[ofs..end] else delivered == [])
    }

    /** Between two callbacks of a direction that has not ended. */
    ghost predicate Armed()
      reads this
    {
      (inArmed <==> Empty()) && (hasDest ==> (outArmed <==> !Empty()))
    }

    /** Between two packets of a turn. */
    ghost predicate Ready()
      reads this, buf
    {
      Valid() && !inArmed && (hasDest ==> Empty() && !outArmed)
    }

    predicate Empty()
      reads this
    {
      ofs == end
    }

    constructor (from: Stream, to: Stream, hasDest: bool, size: nat, source: seq<ReadAnswer>, sink: seq<WriteAnswer>)
      ensures this.from == from && this.to == to
      ensures Valid() && Armed() && fresh(buf) && buf.Length == size
      ensures this.hasDest == hasDest && this.source == source && this.sink == sink
      ensures received == delivered == [] && inArmed && !outArmed
    {
      this.from, this.to, this.hasDest := from, to, hasDest;
      buf := new byte[size];
      ofs, end := 0, 0;
      this.source, this.sink := source, sink;
      inArmed, outArmed := true, false;
      received, delivered, readCalls, trace := [], [], 0, [];
    }

    /** z_plug_read_input without the statistics: reads into the empty buffer. */
    method ReadInput() returns (rc: Status)
      requires Valid() && ofs == end == 0
      modifies `end, `source, `received, `readCalls, `trace, buf
      ensures Valid() && rc == ReadStatus(old(source)) && source == Rest(old(source))
      ensures end == |ReadBytes(old(source), buf.Length)| && received == old(received) + ReadBytes(old(source), buf.Length)
      ensures readCalls == old(readCalls) + 1 && trace == old(trace) + [Got(rc)]
    {
      var data := ReadBytes(source, buf.Length);
      rc := ReadStatus(source);
      source := Rest(source);
      forall k | 0 <= k < |data| {
        buf[k] := data[k];
      }
      end := |data|;
      received := received + data;
      readCalls := readCalls + 1;
      trace := trace + [Got(rc)];
      assert buf[ofs..end] == data;
    }

    /** z_plug_write_output: NORMAL when the buffer is empty, else AGAIN with the output armed. */
    method WriteOutput() returns (rc: Status)
      requires Valid() && hasDest
      modifies `ofs, `sink, `outArmed, `delivered, `trace
      ensures Valid()
      ensures old(Empty()) ==> rc == Normal && trace == old(trace) && ofs == old(ofs) && sink == old(sink)
      ensures !old(Empty()) ==> trace == old(trace) + [Wrote(rc)] && ofs == old(ofs) + WriteCount(old(sink), end - old(ofs))
      ensures !old(Empty()) ==> sink == Rest(old(sink))
      ensures delivered == old(delivered) + buf[old(ofs)..ofs]
      ensures rc == Normal ==> Empty() && outArmed == old(outArmed)
      ensures rc == Again ==> !Empty() && outArmed
      ensures rc == Eof || rc == Error ==> outArmed == old(outArmed)
      ensures !old(Empty()) ==> (rc == Eof <==> WriteStatus(old(sink)) == Eof) && (rc == Error <==> WriteStatus(old(sink)) == Error)
      ensures old(delivered) <= delivered
    {
      if ofs != end {
        var n := WriteCount(sink, end - ofs);
        rc := WriteStatus(sink);
        sink := Rest(sink);
        assert buf[ofs..end] == buf[ofs..ofs + n] + buf[ofs + n..end];
        Assoc(delivered, buf[ofs..ofs + n], buf[ofs + n..end]);
        delivered := delivered + buf[ofs..ofs + n];
        ofs := ofs + n;
        if rc == Normal || rc == Again {
          rc := Normal;
          if ofs != end {
            outArmed := true;
            rc := Again;
          }
        }
        trace := trace + [Wrote(rc)];
      } else {
        rc := Normal;
      }
    }
  }

  // ---------------------------------------------------------------- the session

  /** The copy callbacks: two without a stacked proxy, four with one. */
  datatype Which = ClientToServer | ServerToClient | ClientToDown | DownToClient | ServerToDown | DownToServer

  /** The streams that a callback copies between. */
  function From(w: Which): Stream {
    match w
    case ClientToServer => AtClient
    case ClientToDown => AtClient
    case ServerToClient => AtServer
    case ServerToDown => AtServer
    case DownToClient => DownClient
    case DownToServer => DownServer
  }

  function To(w: Which): Stream {
    match w
    case ClientToServer => AtServer
    case DownToServer => AtServer
    case ServerToClient => AtClient
    case DownToClient => AtClient
    case ClientToDown => DownClient
    case ServerToDown => DownServer
  }

  /** One half of a stream, which can be shut down by itself. */
  datatype Half = Reading(stream: Stream) | Writing(stream: Stream)

  /** The bit of a half of the client or the server. */
  function Bit(h: Half): Mask {
    match h
    case Reading(s) => if s == AtClient then CLIENT_R else if s == AtServer then SERVER_R else 0
    case Writing(s) => if s == AtClient then CLIENT_W else if s == AtServer then SERVER_W else 0
  }

  /** The sides that end with a direction when shutdown is soft. */
  function SidesOf(w: Which): Mask {
    match w
    case ClientToServer => CLIENT_R | SERVER_W
    case ServerToClient => SERVER_R | CLIENT_W
    case ClientToDown => CLIENT_R
    case DownToClient => CLIENT_W
    case ServerToDown => SERVER_R
    case DownToServer => SERVER_W
  }

  /** They are the half that is read and the half that is written. */
  lemma SidesExact(w: Which)
    ensures SidesOf(w) == Bit(Reading(From(w))) | Bit(Writing(To(w)))
    ensures SidesOf(w) & EOF_ALL == SidesOf(w)
  {
  }

  /** A side has ended exactly if that half of its stream has been shut down, or if everything was ended. */
  ghost predicate Shows(ended: Mask, shut: set<Half>, everything: bool) {
    && ended & EOF_ALL == ended
    && forall h :: Bit(h) != 0 ==> (ended & Bit(h) != 0 <==> everything || h in shut)
  }

  lemma ShowsMore(ended: Mask, shut: set<Half>, everything: bool, r: Half, w: Half)
    requires Shows(ended, shut, everything)
    ensures Shows(ended | (Bit(r) | Bit(w)), shut + {r, w}, everything)
  {
    forall h | Bit(h) != 0
      ensures (ended | (Bit(r) | Bit(w))) & Bit(h) != 0 <==> everything || h in shut + {r, w}
    {
      OneBit(ended, r, w, h);
    }
  }

  lemma AllShow(ended: Mask, shut: set<Half>, everything: bool)
    requires Shows(ended, shut, everything)
    ensures ended | EOF_ALL == EOF_ALL && Shows(EOF_ALL, shut, true)
  {
  }

  lemma AllAbsorbs(r: Half, w: Half)
    ensures EOF_ALL | (Bit(r) | Bit(w)) == EOF_ALL
  {
  }

  lemma OneBit(ended: Mask, r: Half, w: Half, h: Half)
    requires Bit(h) != 0
    ensures (ended | (Bit(r) | Bit(w))) & Bit(h) != 0 <==> ended & Bit(h) != 0 || h == r || h == w
  {
  }

  /** How often the policy has been asked: once for every full interval of packets; an interval of 0 is for no statistics. */
  function Asked(packets: nat, interval: nat): nat { if interval == 0 then 0 else packets / interval }

  /** The answers from number `i` up to number `j` let the session go on; a policy that has none left does. */
  predicate NoVeto(script: seq<bool>, i: nat, j: nat) { forall k :: i <= k < j && k < |script| ==> script[k] }

  lemma {:induction false} AtLeast(k: nat, i: int)
    requires k > 0 && i > 0
    ensures k * i >= i
  {
    if k > 1 {
      AtLeast(k - 1, i);
      assert k * i == (k - 1) * i + i;
    }
  }

  lemma NoMultiple(k: int, i: int)
    requires i > 0 && -i < k * i < i
    ensures k == 0
  {
    assert (-k) * i == -(k * i);
    if k > 0 {
      AtLeast(k, i);
    } else if k < 0 {
      AtLeast(-k, i);
    }
  }

  lemma QuotientIs(n: nat, i: nat, q: nat, r: nat)
    requires i > 0 && n == q * i + r && r < i
    ensures n / i == q && n % i == r
  {
    var a := n / i;
    assert n == a * i + n % i;
    assert (a - q) * i == a * i - q * i;
    NoMultiple(a - q, i);
  }

  lemma AskedStep(packets: nat, interval: nat)
    requires interval > 0
    ensures Asked(packets + 1, interval) == Asked(packets, interval) + if (packets + 1) % interval == 0 then 1 else 0
  {
    var q, r := packets / interval, packets % interval;
    assert packets == q * interval + r;
    if r + 1 == interval {
      assert packets + 1 == (q + 1) * interval + 0;
      QuotientIs(packets + 1, interval, q + 1, 0);
    } else {
      QuotientIs(packets + 1, interval, q, r + 1);
    }
  }

  lemma {:induction false} AskedGrows(packets: nat, n: nat, interval: nat)
    ensures Asked(packets, interval) <= Asked(packets + n, interval)
  {
    if n > 0 && interval > 0 {
      AskedGrows(packets, n - 1, interval);
      AskedStep(packets + n - 1, interval);
    }
  }

  /** The packet statistics of a session: every `interval` packets the policy may end it. */
  class Statistics {
    const interval: nat
    var packets: nat
    var verdicts: seq<bool>       // what the policy will still answer
    ghost const script: seq<bool> // all it will ever answer

    /** The policy has been asked once per full interval, and its answers are used in order. */
    ghost predicate Valid()
      reads this
    {
      verdicts == script[Min(Asked(packets, interval), |script|)..]
    }

    constructor (interval: nat, verdicts: seq<bool>)
      ensures Valid() && this.interval == interval && packets == 0 && script == verdicts
    {
      this.interval := interval;
      packets, this.verdicts := 0, verdicts;
      script := verdicts;
      new;
      assert interval > 0 ==> 0 / interval == 0;
    }

    /** Counts a packet; a veto is a refusal among the answers due with it. */
    method CountPacket() returns (veto: bool)
      requires Valid()
      modifies this
      ensures Valid() && packets == old(packets) + 1
      ensures veto <==> !NoVeto(script, Asked(old(packets), interval), Asked(packets, interval))
      // a veto is the answer `false` to the question asked with every interval-th packet
      ensures veto <==> interval > 0 && packets % interval == 0 && packets / interval <= |script| && !script[packets / interval - 1]
    {
      packets := packets + 1;
      veto := false;
      if interval > 0 {
        AskedStep(packets - 1, interval);
        if packets % interval == 0 {
          veto := verdicts != [] && !verdicts[0];
          verdicts := Rest(verdicts);
        }
      }
    }
  }

  /** Why a copy step on a direction is over. */
  datatype Why = TurnUsed | SourceWaits | SinkWaits | SourceEnds | SinkEnds | SourceFails | SinkFails | Vetoed

  function Result(why: Why): Status {
    match why
    case TurnUsed => Normal
    case SourceWaits => Again
    case SinkWaits => Again
    case SourceEnds => Eof
    case SinkEnds => Eof
    case Vetoed => Eof
    case SourceFails => Error
    case SinkFails => Error
  }

  /** The last stream call fits the reason. */
  predicate Fits(why: Why, last: Call) {
    match why
    case TurnUsed => last.status == Normal
    case SourceWaits => last == Got(Again)
    case SinkWaits => last == Wrote(Again)
    case SourceEnds => last == Got(Eof)
    case SinkEnds => last == Wrote(Eof)
    case SourceFails => last == Got(Error)
    case SinkFails => last == Wrote(Error)
    case Vetoed => last == Got(Normal)
  }

  function SinkWhy(rc: Status): Why
    requires rc != Normal
  {
    match rc
    case Again => SinkWaits
    case Eof => SinkEnds
    case Error => SinkFails
  }

  function SourceWhy(rc: Status): Why
    requires rc != Normal
  {
    match rc
    case Again => SourceWaits
    case Eof => SourceEnds
    case Error => SourceFails
  }

  /** The next `k` reads all answer with data. */
  predicate AllData(source: seq<ReadAnswer>, k: nat) { k <= |source| && forall i :: 0 <= i < k ==> source[i].Data? }

  /** One packet: read, counted and written.  TurnUsed stands for going on. */
  method CopyPacket(d: Direction, stats: Statistics) returns (why: Why)
    requires d.Ready() && stats.Valid()
    modifies d, d.buf, stats
    ensures d.Valid() && !d.inArmed && (d.hasDest ==> (d.outArmed <==> why == SinkWaits)) && stats.Valid()
    ensures d.hasDest && why == TurnUsed ==> d.Empty()
    ensures why == SourceWaits || why == SourceEnds ==> d.Empty()
    ensures why == SinkWaits ==> d.hasDest && !d.Empty()
    // what decides the outcome: the answer of the source, then the policy, then the sink
    ensures d.source == Rest(old(d.source))
    ensures stats.packets == old(stats.packets) + if ReadStatus(old(d.source)) == Normal then 1 else 0
    ensures why == Vetoed <==> ReadStatus(old(d.source)) == Normal && Refuses(stats, old(stats.packets), 1)
    ensures why == TurnUsed ==> ReadStatus(old(d.source)) == Normal
    ensures !d.hasDest ==> (why == TurnUsed || why == Vetoed <==> ReadStatus(old(d.source)) == Normal)
    ensures !d.hasDest ==> d.outArmed == old(d.outArmed) && d.ofs == 0 && d.end == |ReadBytes(old(d.source), d.buf.Length)|
    ensures d.readCalls == old(d.readCalls) + 1
    ensures |d.trace| > |old(d.trace)| && Fits(why, d.trace[|d.trace| - 1])
    ensures old(d.delivered) <= d.delivered && old(d.received) <= d.received
  {
    d.ofs, d.end := 0, 0;
    why := ReadPacket(d, stats);
    if why == TurnUsed && d.hasDest {
      var rc := d.WriteOutput();
      if rc != Normal {
        why := SinkWhy(rc);
      }
    }
  }

  /** z_plug_read_input: reads a packet and counts it.  TurnUsed stands for going on. */
  method ReadPacket(d: Direction, stats: Statistics) returns (why: Why)
    requires d.Valid() && d.ofs == d.end == 0 && stats.Valid()
    modifies d`end, d`source, d`received, d`readCalls, d`trace, d.buf, stats
    ensures d.Valid() && stats.Valid() && d.source == Rest(old(d.source))
    ensures stats.packets == old(stats.packets) + if ReadStatus(old(d.source)) == Normal then 1 else 0
    ensures ReadStatus(old(d.source)) != Normal ==> why == SourceWhy(ReadStatus(old(d.source))) && d.Empty()
    ensures ReadStatus(old(d.source)) == Normal ==> why == if Refuses(stats, old(stats.packets), 1) then Vetoed else TurnUsed
    ensures d.end == |ReadBytes(old(d.source), d.buf.Length)| && old(d.received) <= d.received
    ensures d.readCalls == old(d.readCalls) + 1 && d.trace == old(d.trace) + [Got(ReadStatus(old(d.source)))]
  {
    var rc := d.ReadInput();
    if rc != Normal {
      return SourceWhy(rc);
    }
    var veto := stats.CountPacket();
    why := if veto then Vetoed else TurnUsed;
  }

  /** The policy refuses within the `n` packets that follow the first `packets`. */
  ghost predicate Refuses(stats: Statistics, packets: nat, n: nat) {
    !NoVeto(stats.script, Asked(packets, stats.interval), Asked(packets + n, stats.interval))
  }

  lemma RefusesStep(stats: Statistics, packets: nat, n: nat)
    ensures Refuses(stats, packets, n + 1) <==> Refuses(stats, packets, n) || Refuses(stats, packets + n, 1)
  {
    AskedGrows(packets, n, stats.interval);
    AskedGrows(packets + n, 1, stats.interval);
  }

  lemma {:induction false} RefusesGrows(stats: Statistics, packets: nat, n: nat, m: nat)
    requires n <= m && Refuses(stats, packets, n)
    ensures Refuses(stats, packets, m)
  {
    if n < m {
      RefusesGrows(stats, packets, n, m - 1);
      RefusesStep(stats, packets, m - 1);
    }
  }

  /** `k` packets have been read and counted and, without a destination, none refused and the last one kept. */
  ghost predicate Taken(source: seq<ReadAnswer>, packets: nat, d: Direction, stats: Statistics, k: nat)
    reads d, stats
  {
    && AllData(source, k) && d.source == source[k..] && stats.packets == packets + k
    && (!d.hasDest ==> !Refuses(stats, packets, k) && (k > 0 ==> d.ofs == 0 && d.end == Min(d.buf.Length, |source[k - 1].bytes|)))
  }

  /** Packet number `k` of a turn that began with these answers of the source and this number of packets. */
  method NextPacket(d: Direction, stats: Statistics, ghost source: seq<ReadAnswer>, ghost packets: nat, ghost k: nat) returns (why: Why)
    requires d.Ready() && stats.Valid() && k < MAX_READ_AT_A_TIME && Taken(source, packets, d, stats, k)
    modifies d, d.buf, stats
    ensures d.Valid() && !d.inArmed && (d.hasDest ==> (d.outArmed <==> why == SinkWaits)) && stats.Valid()
    ensures why == TurnUsed ==> d.Ready() && Taken(source, packets, d, stats, k + 1)
    ensures why == SourceWaits || why == SourceEnds ==> d.Empty()
    ensures why == SinkWaits ==> d.hasDest && !d.Empty()
    ensures !d.hasDest ==> d.outArmed == old(d.outArmed) && (why != TurnUsed ==> !FullTurn(source, stats, packets))
    ensures d.readCalls == old(d.readCalls) + 1
    ensures |d.trace| > |old(d.trace)| && Fits(why, d.trace[|d.trace| - 1])
    ensures old(d.delivered) <= d.delivered && old(d.received) <= d.received
  {
    RefusesStep(stats, packets, k);
    why := CopyPacket(d, stats);
    if why != TurnUsed && !d.hasDest {
      TurnBroken(source, stats, packets, k);
    }
  }

  /** The loop of z_plug_copy_data, entered with nothing left to write. */
  method CopyLoop(d: Direction, stats: Statistics) returns (why: Why)
    requires d.Ready() && stats.Valid()
    modifies d, d.buf, stats
    ensures d.Valid() && !d.inArmed && (d.hasDest ==> (d.outArmed <==> why == SinkWaits)) && stats.Valid()
    ensures d.hasDest && why == TurnUsed ==> d.Empty()
    ensures why == SourceWaits || why == SourceEnds ==> d.Empty()
    ensures why == SinkWaits ==> d.hasDest && !d.Empty()
    ensures !d.hasDest ==> (why == TurnUsed <==> FullTurn(old(d.source), stats, old(stats.packets)))
    ensures !d.hasDest ==> d.outArmed == old(d.outArmed)
    ensures !d.hasDest && why == TurnUsed ==> d.ofs == 0 && d.end == Min(d.buf.Length, |old(d.source)[MAX_READ_AT_A_TIME - 1].bytes|)
    ensures why == TurnUsed ==> d.readCalls == old(d.readCalls) + MAX_READ_AT_A_TIME
    ensures d.readCalls <= old(d.readCalls) + MAX_READ_AT_A_TIME
    ensures |d.trace| > |old(d.trace)| && Fits(why, d.trace[|d.trace| - 1])
    ensures old(d.delivered) <= d.delivered && old(d.received) <= d.received
  {
    var pkts := 0;
    while pkts < MAX_READ_AT_A_TIME
      invariant pkts <= MAX_READ_AT_A_TIME && d.readCalls == old(d.readCalls) + pkts
      invariant d.Ready() && stats.Valid()
      invariant Taken(old(d.source), old(stats.packets), d, stats, pkts) && (!d.hasDest ==> d.outArmed == old(d.outArmed))
      invariant |old(d.trace)| <= |d.trace| && (pkts > 0 ==> |old(d.trace)| < |d.trace| && Fits(TurnUsed, d.trace[|d.trace| - 1]))
      invariant old(d.delivered) <= d.delivered && old(d.received) <= d.received
    {
      ghost var delivered, received := d.delivered, d.received;
      why := NextPacket(d, stats, old(d.source), old(stats.packets), pkts);
      PrefixTrans(old(d.delivered), delivered, d.delivered);
      PrefixTrans(old(d.received), received, d.received);
      if why != TurnUsed {
        return;
      }
      pkts := pkts + 1;
    }
    why := TurnUsed;
  }

  /** Every read of a turn gets data, and no packet of it is refused by the policy. */
  ghost predicate FullTurn(source: seq<ReadAnswer>, stats: Statistics, packets: nat) {
    AllData(source, MAX_READ_AT_A_TIME) && !Refuses(stats, packets, MAX_READ_AT_A_TIME)
  }

  lemma TurnBroken(source: seq<ReadAnswer>, stats: Statistics, packets: nat, k: nat)
    requires k < MAX_READ_AT_A_TIME && AllData(source, k)
    requires ReadStatus(source[k..]) != Normal || Refuses(stats, packets, k + 1)
    ensures !FullTurn(source, stats, packets)
  {
    if Refuses(stats, packets, k + 1) {
      RefusesGrows(stats, packets, k + 1, MAX_READ_AT_A_TIME);
    }
  }

  /** A full turn whose last packet leaves bytes in the buffer. */
  ghost predicate Stalls(source: seq<ReadAnswer>, size: nat, stats: Statistics, packets: nat) {
    size > 0 && FullTurn(source, stats, packets) && source[MAX_READ_AT_A_TIME - 1].bytes != []
  }

  predicate GoesOn(why: Why) { Result(why) == Normal || Result(why) == Again }

  /** The result of a copy step is the answer of its last stream call, except that a veto ends it. */
  lemma ResultExact(why: Why, last: Call)
    requires Fits(why, last)
    ensures Result(why) == if why == Vetoed then Eof else last.status
    ensures GoesOn(why) <==> why != Vetoed && (last.status == Normal || last.status == Again)
  {
  }

  /** z_plug_copy_data. */
  method CopyData(d: Direction, stats: Statistics) returns (why: Why)
    requires d.Valid() && stats.Valid()
    modifies d, d.buf, stats
    ensures d.Valid() && stats.Valid()
    // while the direction goes on, it waits to read exactly when its buffer is empty and, with a
    // destination, to write exactly when it is not
    ensures GoesOn(why) ==> (d.inArmed <==> d.ofs == d.end) && (d.hasDest ==> (d.outArmed <==> d.ofs < d.end))
    // without a destination it goes on with nothing armed exactly on these inputs
    ensures !d.hasDest ==> (GoesOn(why) && !d.inArmed <==> Stalls(old(d.source), d.buf.Length, stats, old(stats.packets)))
    ensures !d.hasDest ==> d.outArmed == old(d.outArmed)
    ensures !GoesOn(why) ==> !d.inArmed && (d.hasDest ==> !d.outArmed)
    ensures why == SourceEnds && d.hasDest ==> d.delivered == d.received
    ensures why == TurnUsed ==> d.readCalls == old(d.readCalls) + MAX_READ_AT_A_TIME
    ensures |d.trace| > |old(d.trace)| && Fits(why, d.trace[|d.trace| - 1])
    ensures d.readCalls <= old(d.readCalls) + MAX_READ_AT_A_TIME
    ensures old(d.delivered) <= d.delivered && old(d.received) <= d.received
  {
    d.inArmed := false;
    if d.hasDest {
      d.outArmed := false;
      var rc := d.WriteOutput();
      if rc != Normal {
        return SinkWhy(rc);
      }
    }
    why := CopyLoop(d, stats);
    if Result(why) == Normal || Result(why) == Again {
      if d.ofs == d.end {
        d.inArmed := true;
      }
    }
  }

  /** A client that sends thirty packets to a session that only counts them is never read again. */
  method StallExample() returns (d: Direction, why: Why)
    ensures GoesOn(why) && !d.inArmed && !d.outArmed && !d.Empty()
  {
    var source := seq(MAX_READ_AT_A_TIME, i => Data([0]));
    var stats := new Statistics(0, []);
    d := new Direction(AtClient, AtServer, false, 4096, source, []);
    assert Stalls(d.source, d.buf.Length, stats, stats.packets);
    why := CopyData(d, stats);
  }

  class Session {
    const shutdownSoft: bool
    const stats: Statistics
    var mask: Mask
    var shut: set<Half>           // the halves that have been shut down
    ghost var everything: bool    // all sides have been ended at once
    ghost var history: seq<Mask>  // the sides ended, event by event
    ghost var ended: Mask         // the sides ended so far
    var finishes: nat             // calls of the finish callback

    /** The mask is that of the sides ended so far, and the session was finished once if it is destroyed. */
    ghost predicate MaskOk()
      reads `mask, `history, `ended, `finishes
    {
      Sealed(mask, ended) && ended == Union(history) && finishes == if mask & DESTROYED != 0 then 1 else 0
    }

    ghost predicate Valid()
      reads this
    {
      MaskOk() && Shows(ended, shut, everything)
    }

    /** In every state the mask is what the updates of its history compute. */
    lemma MaskIsUpdateAll()
      requires Valid()
      ensures mask == UpdateAll(history)
    {
      SealedIsUpdateAll(mask, history);
    }

    /** In every state a side of the client or the server is marked exactly if that half was shut down or everything ended. */
    lemma MaskIsShut(h: Half)
      requires Valid() && Bit(h) != 0
      ensures mask & Bit(h) != 0 <==> everything || h in shut
    {
      assert mask & Bit(h) == ended & Bit(h);
    }

    constructor (shutdownSoft: bool, stats: Statistics)
      ensures Valid() && history == [] && finishes == 0 && shut == {} && !everything
      ensures this.shutdownSoft == shutdownSoft && this.stats == stats
    {
      this.shutdownSoft, this.stats := shutdownSoft, stats;
      mask, history, ended, finishes := 0, [], 0, 0;
      shut, everything := {}, false;
    }

    method UpdateEofMask(add: Mask)
      requires MaskOk() && add & EOF_ALL == add
      modifies `mask, `history, `ended, `finishes
      ensures MaskOk() && history == old(history) + [add] && ended == old(ended) | add
      ensures old(mask) & mask == old(mask)
      ensures finishes == old(finishes) + if old(mask) & DESTROYED == 0 && mask & DESTROYED != 0 then 1 else 0
    {
      var before := mask;
      UpdateSeals(mask, ended, add);
      mask := mask | add;
      if mask & (CLIENT_R | CLIENT_W | CLIENT_REMOVED) == CLIENT_R | CLIENT_W {
        mask := mask | CLIENT_REMOVED;
      }
      if mask & (SERVER_R | SERVER_W | SERVER_REMOVED) == SERVER_R | SERVER_W {
        mask := mask | SERVER_REMOVED;
      }
      if mask & (DESTROYED | CLIENT_REMOVED | SERVER_REMOVED) == CLIENT_REMOVED | SERVER_REMOVED {
        mask := mask | DESTROYED;
      }
      assert mask == Update(before, add);
      UnionSnoc(history, add);
      history, ended := history + [add], ended | add;
      if before & DESTROYED == 0 && mask & DESTROYED != 0 {
        finishes := finishes + 1;
      }
    }

    /** A copy callback; false asks the poll loop to drop it.  At a soft end exactly the two halves of the direction
        are shut down and marked; an error, a veto and a hard end are the end of everything. */
    method OnReady(w: Which, d: Direction) returns (keep: bool, why: Why)
      requires Valid() && d.Valid() && stats.Valid() && d.from == From(w) && d.to == To(w)
      modifies this, d, d.buf, stats
      ensures Valid() && d.Valid() && stats.Valid()
      ensures |d.trace| > |old(d.trace)| && Fits(why, d.trace[|d.trace| - 1])
      ensures keep <==> why == Vetoed || d.trace[|d.trace| - 1].status != Error
      ensures GoesOn(why) <==> why != Vetoed && d.trace[|d.trace| - 1].status in {Normal, Again}
      ensures GoesOn(why) ==> ended == old(ended) && shut == old(shut) && everything == old(everything)
      ensures !GoesOn(why) && shutdownSoft && keep && why != Vetoed ==>
                && ended == old(ended) | (Bit(Reading(d.from)) | Bit(Writing(d.to)))
                && shut == old(shut) + {Reading(d.from), Writing(d.to)} && everything == old(everything)
      ensures !GoesOn(why) && (!shutdownSoft || !keep || why == Vetoed) ==> everything && ended == EOF_ALL && finishes == 1
      ensures GoesOn(why) ==> (d.inArmed <==> d.Empty()) && (d.hasDest ==> d.Armed())
      ensures why == SourceEnds && d.hasDest ==> d.delivered == d.received
      ensures old(d.delivered) <= d.delivered && old(d.received) <= d.received
    {
      why := CopyData(d, stats);
      ResultExact(why, d.trace[|d.trace| - 1]);
      keep := End(w, d.from, d.to, why);
    }

    /** The end of a direction: its two halves, or everything under a hard shutdown. */
    method EndDirection(w: Which, from: Stream, to: Stream)
      requires Valid() && from == From(w) && to == To(w)
      modifies `mask, `shut, `everything, `history, `ended, `finishes
      ensures Valid()
      ensures shutdownSoft ==> ended == old(ended) | (Bit(Reading(from)) | Bit(Writing(to)))
      ensures shutdownSoft ==> shut == old(shut) + {Reading(from), Writing(to)} && everything == old(everything)
      ensures !shutdownSoft ==> everything && ended == EOF_ALL && finishes == 1
    {
      if shutdownSoft {
        SidesExact(w);
        ShowsMore(ended, shut, everything, Reading(from), Writing(to));
        shut := shut + {Reading(from), Writing(to)};
        UpdateEofMask(SidesOf(w));
      } else {
        EndAll();
      }
    }

    method EndAll()
      requires Valid()
      modifies `mask, `everything, `history, `ended, `finishes
      ensures Valid() && everything && ended == EOF_ALL && mask & DESTROYED != 0 && finishes == 1
    {
      AllShow(ended, shut, everything);
      everything := true;
      UpdateEofMask(EOF_ALL);
      DestroyedExact(mask, ended);
    }

    /** A veto ends everything from inside the copy step, and the end-of-file result of the step is
        then acted on like any other. */
    method EndVetoed(w: Which, from: Stream, to: Stream)
      requires Valid() && from == From(w) && to == To(w)
      modifies `mask, `shut, `everything, `history, `ended, `finishes
      ensures Valid() && everything && ended == EOF_ALL && finishes == 1
    {
      EndAll();
      AllAbsorbs(Reading(from), Writing(to));
      EndDirection(w, from, to);
    }

    /** What the end of a copy step does to the session. */
    method End(w: Which, from: Stream, to: Stream, why: Why) returns (keep: bool)
      requires Valid() && from == From(w) && to == To(w)
      modifies `mask, `shut, `everything, `history, `ended, `finishes
      ensures Valid() && (keep <==> Result(why) != Error)
      ensures GoesOn(why) ==> ended == old(ended) && shut == old(shut) && everything == old(everything)
      ensures !GoesOn(why) && shutdownSoft && keep && why != Vetoed ==>
                && ended == old(ended) | (Bit(Reading(from)) | Bit(Writing(to)))
                && shut == old(shut) + {Reading(from), Writing(to)} && everything == old(everything)
      ensures !GoesOn(why) && (!shutdownSoft || !keep || why == Vetoed) ==> everything && ended == EOF_ALL && finishes == 1
    {
      keep := Result(why) != Error;
      if GoesOn(why) {
        return;
      }
      if why == Vetoed {
        EndVetoed(w, from, to);
      } else if Result(why) == Eof {
        EndDirection(w, from, to);
      } else {
        EndAll();
      }
    }

    /** z_plug_timeout. */
    method OnTimeout()
      requires Valid()
      modifies `mask, `everything, `history, `ended, `finishes
      ensures Valid() && everything && ended == EOF_ALL && mask & DESTROYED != 0 && finishes == 1
    {
      EndAll();
    }
  }
}
