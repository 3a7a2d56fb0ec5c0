/**
 The order of the two SSL handshakes of a proxy (lib/proxyssl.cc): the side that
 is not first in the configured order registers its request and is served when
 the first side has succeeded.  Requesting the client side may first have to
 connect the server, which requests the server side in turn.
 */
module SslHandshake {
  datatype Side = Client | Server
  datatype Security = Off | Optional | Forced
  datatype Config = Config(first: Side, client: Security, server: Security)

  /** What one side of the proxy remembers. */
  datatype End = End(session: bool, pending: bool)
  datatype Link = Absent | Up | Broken
  /** How a handshake will come out, and whether it leaves a session. */
  datatype Shake = Shake(ok: bool, session: bool)
  /** A handshake was started on `side`, while the other side had a session or not. */
  datatype Start = Start(side: Side, otherReady: bool)

  datatype Proxy = Proxy(
    client: End, server: End, forceConnect: bool, link: Link,
    shakes: seq<Shake>, connects: seq<bool>, log: seq<Start>)

  datatype Op = Ask(side: Side) | Clear(side: Side) | SetForce(on: bool) | LinkBreaks | ConnectNow

  function Other(s: Side): Side { if s == Client then Server else Client }
  function Level(c: Config, s: Side): Security { if s == Client then c.client else c.server }
  function At(p: Proxy, s: Side): End { if s == Client then p.client else p.server }
  function Put(p: Proxy, s: Side, e: End): Proxy { if s == Client then p.(client := e) else p.(server := e) }

  // ---------------------------------------------------------------- steps

  function NextShake(p: Proxy): Shake { if p.shakes == [] then Shake(false, false) else p.shakes[0] }

  /** z_proxy_ssl_perform_handshake. */
  function Perform(p: Proxy, side: Side): Proxy {
    p.(shakes := if p.shakes == [] then [] else p.shakes[1..],
       log := p.log + [Start(side, At(p, Other(side)).session)])
  }

  /** The handshake of one side, and on success the delayed one of the other. */
  function Shakes(p: Proxy, side: Side): (Proxy, bool) {
    var s, q := NextShake(p), Perform(p, side);
    if !s.ok || !s.session then (q, s.ok)
    else
      var done := Put(q, side, At(q, side).(session := true));
      var o := Other(side);
      if !At(done, o).pending then (done, true)
      else
        var again := Put(done, o, At(done, o).(pending := false));
        var s2, q2 := NextShake(again), Perform(again, o);
        (Put(q2, o, At(q2, o).(session := s2.session)), s2.ok)
  }

  /** The other side goes first and is not ready yet. */
  predicate Delays(c: Config, p: Proxy, side: Side, forced: bool) {
    && c.first != side && !forced
    && Level(c, Other(side)) != Off
    && !(Level(c, side) == Forced && Level(c, Other(side)) != Forced)
    && !At(p, Other(side)).session
  }

  function Proceed(c: Config, p: Proxy, side: Side, forced: bool): (Proxy, bool) {
    if Delays(c, p, side, forced) then (Put(p, side, At(p, side).(pending := true)), true)
    else Shakes(p, side)
  }

  /** A request for the server side never leads to another. */
  function RequestServer(c: Config, p: Proxy, forced: bool): (Proxy, bool) {
    if p.server.session then (p, true) else Proceed(c, p, Server, forced)
  }

  /** z_proxy_connect_server: a usable connection is kept, a broken one is dropped with its session. */
  function Connect(c: Config, p: Proxy): (Proxy, bool) {
    if p.link == Up then (p, true)
    else
      var q := if p.link == Broken then p.(link := Absent, server := p.server.(session := false)) else p;
      if q.connects == [] || !q.connects[0] then (q.(connects := if q.connects == [] then [] else q.connects[1..]), false)
      else
        var r := q.(connects := q.connects[1..], link := Up);
        if c.server == Forced then RequestServer(c, r, false) else (r, true)
  }

  /** z_proxy_ssl_request_handshake. */
  function Request(c: Config, p: Proxy, side: Side, forced: bool): (Proxy, bool) {
    if At(p, side).session then (p, true)
    else if side == Client && p.forceConnect then
      var q := Connect(c, p);
      if !q.1 then q else Proceed(c, q.0, side, forced)
    else Proceed(c, p, side, forced)
  }

  function Step(c: Config, p: Proxy, op: Op): Proxy {
    match op
    case Ask(side) => Request(c, p, side, false).0
    case Clear(side) => Put(p, side, At(p, side).(session := false))
    case SetForce(on) => if c.first == Server then p.(forceConnect := on) else p
    case LinkBreaks => if p.link == Up then p.(link := Broken) else p
    case ConnectNow => Connect(c, p).0
  }

  function Fresh(shakes: seq<Shake>, connects: seq<bool>): Proxy {
    Proxy(End(false, false), End(false, false), false, Absent, shakes, connects, [])
  }

  function Run(c: Config, p: Proxy, ops: seq<Op>): Proxy {
    if ops == [] then p else Step(c, Run(c, p, ops[..|ops| - 1]), ops[|ops| - 1])
  }

  // ---------------------------------------------------------------- the promise

  /** The first side is never kept waiting; a delayed request waits only while the first side has no
      session; and the second side's handshake is only ever started while the first side has one. */
  ghost predicate Ordered(c: Config, p: Proxy) {
    && !At(p, c.first).pending
    && (At(p, Other(c.first)).pending ==> !At(p, c.first).session)
    && (forall s :: s in p.log && s.side != c.first ==> s.otherReady)
    && (p.forceConnect ==> c.first == Server)
  }

  ghost predicate BothForced(c: Config) { c.client == Forced && c.server == Forced }

  lemma ProceedOrdered(c: Config, p: Proxy, side: Side)
    requires Ordered(c, p) && BothForced(c)
    ensures Ordered(c, Proceed(c, p, side, false).0)
  {
  }

  lemma ConnectOrdered(c: Config, p: Proxy)
    requires Ordered(c, p) && BothForced(c)
    ensures Ordered(c, Connect(c, p).0)
  {
    if p.link != Up && p.connects != [] && p.connects[0] {
      var q := if p.link == Broken then p.(link := Absent, server := p.server.(session := false)) else p;
      ProceedOrdered(c, q.(connects := q.connects[1..], link := Up), Server);
    }
  }

  lemma StepOrdered(c: Config, p: Proxy, op: Op)
    requires Ordered(c, p) && BothForced(c)
    ensures Ordered(c, Step(c, p, op))
  {
    match op
    case Ask(side) =>
      ConnectOrdered(c, p);
      ProceedOrdered(c, p, side);
      ProceedOrdered(c, Connect(c, p).0, side);
    case Clear(side) =>
    case SetForce(on) =>
    case LinkBreaks =>
    case ConnectNow => ConnectOrdered(c, p);
  }

  /** Over every run of unforced requests, with both sides in forced mode, the order is kept. */
  lemma {:induction false} RunOrdered(c: Config, shakes: seq<Shake>, connects: seq<bool>, ops: seq<Op>)
    requires BothForced(c)
    ensures Ordered(c, Run(c, Fresh(shakes, connects), ops))
  {
    if ops != [] {
      RunOrdered(c, shakes, connects, ops[..|ops| - 1]);
      StepOrdered(c, Run(c, Fresh(shakes, connects), ops[..|ops| - 1]), ops[|ops| - 1]);
    }
  }

  /** A delayed request is started, once, and cleared in the very call in which the first side succeeds,
      and is left alone by a call in which it does not. */
  lemma DelayedIsServedAtOnce(c: Config, p: Proxy)
    requires Ordered(c, p) && BothForced(c) && At(p, Other(c.first)).pending
    ensures var q := Request(c, p, c.first, false).0; var o := Other(c.first);
            if NextShake(p).ok && NextShake(p).session
            then q.log == p.log + [Start(c.first, At(p, o).session), Start(o, true)] && !At(q, o).pending && At(q, c.first).session
            else q.log == p.log + [Start(c.first, At(p, o).session)] && At(q, o).pending && !At(q, c.first).session
  {
    var o := Other(c.first);
    assert Request(c, p, c.first, false) == Shakes(p, c.first);
    var q := Perform(p, c.first);
    if NextShake(p).ok && NextShake(p).session {
      var done := Put(q, c.first, At(q, c.first).(session := true));
      var again := Put(done, o, At(done, o).(pending := false));
      assert again.log + [Start(o, true)] == p.log + [Start(c.first, At(p, o).session), Start(o, true)];
    }
  }

  // ---------------------------------------------------------------- handshakes started twice

  function One(b: bool): nat { if b then 1 else 0 }

  /** How many handshakes of a side have been started. */
  function Starts(log: seq<Start>, side: Side): nat {
    if log == [] then 0 else Starts(log[..|log| - 1], side) + One(log[|log| - 1].side == side)
  }

  lemma PerformStarts(p: Proxy, side: Side, x: Side)
    ensures Starts(Perform(p, side).log, x) == Starts(p.log, x) + One(side == x)
  {
    var log := Perform(p, side).log;
    assert log[..|log| - 1] == p.log;
  }

  /** A handshake that leaves a session while the other side waits. */
  predicate Serves(p: Proxy, side: Side) { NextShake(p).ok && NextShake(p).session && At(p, Other(side)).pending }

  lemma ShakesStarts(p: Proxy, side: Side, x: Side)
    ensures Starts(Shakes(p, side).0.log, x) == Starts(p.log, x) + One(side == x) + One(Serves(p, side) && Other(side) == x)
  {
    var q, o := Perform(p, side), Other(side);
    PerformStarts(p, side, x);
    if Serves(p, side) {
      var done := Put(q, side, At(q, side).(session := true));
      PerformStarts(Put(done, o, At(done, o).(pending := false)), o, x);
    }
  }

  predicate Connects(p: Proxy) { p.link != Up && p.connects != [] && p.connects[0] }

  /** The proxy once the connection is there, before any handshake. */
  function Connected(p: Proxy): Proxy
    requires Connects(p)
  {
    var q := if p.link == Broken then p.(link := Absent, server := p.server.(session := false)) else p;
    q.(connects := q.connects[1..], link := Up)
  }

  lemma ConnectStarts(c: Config, p: Proxy)
    requires Ordered(c, p) && BothForced(c) && c.first == Server
    ensures Starts(Connect(c, p).0.log, Client) == Starts(p.log, Client) + One(Connects(p) && Serves(p, Server))
  {
    if Connects(p) {
      var r := Connected(p);
      assert Connect(c, p) == RequestServer(c, r, false);
      if !r.server.session {
        ShakesStarts(r, Server, Client);
      }
    }
  }

  /** A client request that has to connect the server starts the client handshake twice exactly when a
      client request was already waiting and both handshakes that follow succeed: the server handshake
      serves the waiting request, and the request goes on regardless.  No request starts it more often. */
  lemma ServedTwiceExact(c: Config, p: Proxy)
    requires Ordered(c, p) && BothForced(c)
    ensures var started := Starts(Request(c, p, Client, false).0.log, Client) - Starts(p.log, Client);
            && 0 <= started <= 2
            && (started == 2 <==>
                  && !p.client.session && p.client.pending && p.forceConnect
                  && p.link != Up && p.connects != [] && p.connects[0]
                  && |p.shakes| > 1 && p.shakes[0].ok && p.shakes[0].session && p.shakes[1].ok)
  {
    if !p.client.session {
      if p.forceConnect {
        ConnectStarts(c, p);
        ProceedStarts(c, Connect(c, p).0);
        if Connects(p) && p.client.pending {
          WaitingServed(c, p);
        }
      } else {
        ProceedStarts(c, p);
      }
    }
  }

  lemma ProceedStarts(c: Config, p: Proxy)
    ensures Starts(Proceed(c, p, Client, false).0.log, Client) == Starts(p.log, Client) + One(!Delays(c, p, Client, false))
  {
    ShakesStarts(p, Client, Client);
  }

  /** What connecting does to a waiting client request. */
  lemma WaitingServed(c: Config, p: Proxy)
    requires Ordered(c, p) && BothForced(c) && c.first == Server && Connects(p) && p.client.pending
    ensures Serves(p, Server) ==> Connect(c, p).0.server.session && (Connect(c, p).1 <==> |p.shakes| > 1 && p.shakes[1].ok)
    ensures !Serves(p, Server) ==> !Connect(c, p).0.server.session
  {
    var r := Connected(p);
    assert Connect(c, p) == Shakes(r, Server);
  }

  const BOTH_FORCED := Config(Server, Forced, Forced)

  /** Such a request can come about: the server is connected and its session cleared, the client asks and
      has to wait, and the connection breaks. */
  lemma ServedTwiceIsReached()
    ensures var p := Run(BOTH_FORCED, Fresh([Shake(true, true), Shake(true, true), Shake(true, true), Shake(true, true)], [true, true]),
                         [SetForce(true), ConnectNow, Clear(Server), Ask(Client), LinkBreaks]);
            && Ordered(BOTH_FORCED, p)
            && Starts(Request(BOTH_FORCED, p, Client, false).0.log, Client) == Starts(p.log, Client) + 2
  {
    var c, s := BOTH_FORCED, Shake(true, true);
    var ops := [SetForce(true), ConnectNow, Clear(Server), Ask(Client), LinkBreaks];
    var p0 := Fresh([s, s, s, s], [true, true]);
    var p1 := p0.(forceConnect := true);
    var p2 := p1.(link := Up, connects := [true], shakes := [s, s, s], log := [Start(Server, false)], server := End(true, false));
    var p3 := p2.(server := End(false, false));
    var p4 := p3.(client := End(false, true));
    var p5 := p4.(link := Broken);
    assert Step(c, p0, ops[0]) == p1;
    assert Step(c, p1, ops[1]) == p2 by {
      assert [true, true][1..] == [true] && [s, s, s, s][1..] == [s, s, s] && [] + [Start(Server, false)] == [Start(Server, false)];
    }
    assert Step(c, p2, ops[2]) == p3 && Step(c, p3, ops[3]) == p4 && Step(c, p4, ops[4]) == p5;
    RunIs(c, p0, ops, p1, p2, p3, p4, p5);
    ServedTwiceExact(c, p5);
  }

  lemma RunIs(c: Config, p0: Proxy, ops: seq<Op>, p1: Proxy, p2: Proxy, p3: Proxy, p4: Proxy, p5: Proxy)
    requires |ops| == 5 && Step(c, p0, ops[0]) == p1 && Step(c, p1, ops[1]) == p2 && Step(c, p2, ops[2]) == p3
    requires Step(c, p3, ops[3]) == p4 && Step(c, p4, ops[4]) == p5
    ensures Run(c, p0, ops) == p5
  {
    assert ops[..4][..3] == ops[..3] && ops[..3][..2] == ops[..2] && ops[..2][..1] == ops[..1] && ops[..1][..0] == [];
    assert Run(c, p0, ops[..1]) == p1;
    assert Run(c, p0, ops[..2]) == p2;
    assert Run(c, p0, ops[..3]) == p3;
    assert Run(c, p0, ops[..4]) == p4;
  }

  // ---------------------------------------------------------------- what a request answers

  function Drop<T>(s: seq<T>, n: nat): seq<T> { if n >= |s| then [] else s[n..] }

  /** How handshake number `k` from here comes out; with nothing left to say, it fails. */
  function ShakeAt(p: Proxy, k: nat): Shake { if k < |p.shakes| then p.shakes[k] else Shake(false, false) }

  /** From `p` to `q` exactly `n` handshakes have been started. */
  ghost predicate Uses(p: Proxy, q: Proxy, n: nat) {
    p.log <= q.log && |q.log| == |p.log| + n && q.shakes == Drop(p.shakes, n)
  }

  lemma UsesTrans(p: Proxy, q: Proxy, r: Proxy, n: nat, m: nat)
    requires Uses(p, q, n) && Uses(q, r, m)
    ensures Uses(p, r, n + m) && ShakeAt(q, 0) == ShakeAt(p, n) && (m > 0 ==> ShakeAt(q, m - 1) == ShakeAt(p, n + m - 1))
  {
  }

  lemma ShakesAnswer(p: Proxy, side: Side)
    ensures var (q, rc) := Shakes(p, side); var n := 1 + One(Serves(p, side));
            Uses(p, q, n) && rc == ShakeAt(p, n - 1).ok
  {
    var q, o := Perform(p, side), Other(side);
    assert Uses(p, q, 1);
    if Serves(p, side) {
      var done := Put(q, side, At(q, side).(session := true));
      var again := Put(done, o, At(done, o).(pending := false));
      assert Uses(again, Perform(again, o), 1);
      UsesTrans(p, again, Perform(again, o), 1, 1);
    }
  }

  /** What the handshake of a side leaves behind: its session if there is one, and that of a waiting other side, which
      no longer waits. */
  lemma ShakesExact(p: Proxy, side: Side)
    ensures var q, o := Shakes(p, side).0, Other(side);
            && (At(q, side).session <==> At(p, side).session || (ShakeAt(p, 0).ok && ShakeAt(p, 0).session))
            && (At(q, o).session <==> if Serves(p, side) then ShakeAt(p, 1).session else At(p, o).session)
            && At(q, side).pending == At(p, side).pending && (At(q, o).pending <==> At(p, o).pending && !Serves(p, side))
            && q.link == p.link && q.connects == p.connects && q.forceConnect == p.forceConnect
  {
    var q, o := Perform(p, side), Other(side);
    assert ShakeAt(p, 0) == NextShake(p) && NextShake(q) == ShakeAt(p, 1);
    if Serves(p, side) {
      var done := Put(q, side, At(q, side).(session := true));
      var again := Put(done, o, At(done, o).(pending := false));
      assert NextShake(again) == ShakeAt(p, 1);
      assert Shakes(p, side).0 == Put(Perform(again, o), o, At(Perform(again, o), o).(session := ShakeAt(p, 1).session));
    }
  }

  function Rank(s: Security): nat {
    match s
    case Off => 0
    case Optional => 1
    case Forced => 2
  }

  /** An unforced request waits exactly when the other side is to go first, has no session yet, and is at least as
      strict, an unprotected one never being waited for. */
  lemma DelaysExact(c: Config, p: Proxy, side: Side, forced: bool)
    ensures var (own, other) := if side == Client then (c.client, c.server) else (c.server, c.client);
            Delays(c, p, side, forced) <==>
            c.first != side && !forced && !At(p, c.first).session && Rank(other) >= 1 && Rank(other) >= Rank(own)
  {
  }

  function ProceedUses(c: Config, p: Proxy, side: Side, forced: bool): nat {
    if Delays(c, p, side, forced) then 0 else 1 + One(Serves(p, side))
  }

  lemma ProceedAnswers(c: Config, p: Proxy, side: Side, forced: bool)
    ensures var (q, rc) := Proceed(c, p, side, forced); var n := ProceedUses(c, p, side, forced);
            Uses(p, q, n) && (rc <==> n == 0 || ShakeAt(p, n - 1).ok)
  {
    ShakesAnswer(p, side);
  }

  lemma ConnectAnswers(c: Config, p: Proxy)
    ensures var (q, rc) := Connect(c, p);
            && |q.log| >= |p.log| && Uses(p, q, |q.log| - |p.log|)
            && (rc <==> (p.link == Up || Connects(p)) && (|q.log| > |p.log| ==> ShakeAt(p, |q.log| - |p.log| - 1).ok))
            && (q.link == Up <==> p.link == Up || Connects(p))
  {
    if Connects(p) {
      var r := Connected(p);
      if c.server == Forced && !r.server.session {
        ProceedAnswers(c, r, Server, false);
        assert Connect(c, p) == Proceed(c, r, Server, false);
      }
    }
  }

  /** A request that has to connect the server first, and cannot. */
  predicate CannotConnect(p: Proxy, side: Side) {
    side == Client && !p.client.session && p.forceConnect && p.link != Up && !Connects(p)
  }

  /** From `p` to `q` handshakes have been started, and the answer is that of the last, if there is one. */
  ghost predicate LastDecides(p: Proxy, q: Proxy, rc: bool) {
    && |q.log| >= |p.log| && Uses(p, q, |q.log| - |p.log|)
    && (rc <==> |q.log| == |p.log| || ShakeAt(p, |q.log| - |p.log| - 1).ok)
  }

  lemma ProceedDecides(c: Config, p: Proxy, side: Side, forced: bool)
    ensures var (q, rc) := Proceed(c, p, side, forced); LastDecides(p, q, rc)
  {
    ProceedAnswers(c, p, side, forced);
  }

  lemma DecidesTrans(p: Proxy, r: Proxy, q: Proxy, rc: bool)
    requires LastDecides(p, r, true) && LastDecides(r, q, rc)
    ensures LastDecides(p, q, rc)
  {
    UsesTrans(p, r, q, |r.log| - |p.log|, |q.log| - |r.log|);
  }

  /** Going on from any state that a successful connect can have left. */
  lemma GoesOnFrom(c: Config, p: Proxy, r: Proxy, forced: bool)
    requires LastDecides(p, r, true)
    ensures LastDecides(p, Proceed(c, r, Client, forced).0, Proceed(c, r, Client, forced).1)
  {
    ProceedDecides(c, r, Client, forced);
    DecidesTrans(p, r, Proceed(c, r, Client, forced).0, Proceed(c, r, Client, forced).1);
  }

  /** Whatever the configuration and the state: a request answers FALSE if and only if the connection it needs cannot
      be made, or the last handshake it started has failed. */
  lemma AnswerExact(c: Config, p: Proxy, side: Side, forced: bool)
    ensures var (q, rc) := Request(c, p, side, forced);
            if CannotConnect(p, side) then !rc && Uses(p, q, 0) else LastDecides(p, q, rc)
  {
    if !At(p, side).session {
      if side == Client && p.forceConnect {
        ConnectAnswers(c, p);
        if Connect(c, p).1 {
          GoesOnFrom(c, p, Connect(c, p).0, forced);
        }
      } else {
        ProceedDecides(c, p, side, forced);
      }
    }
  }

  /** The state in which a request comes to its own handshake. */
  function Prepared(c: Config, p: Proxy, side: Side): Proxy { if side == Client && p.forceConnect then Connect(c, p).0 else p }

  /** A request that has to wait answers TRUE, starts nothing of its own, and is left pending. */
  lemma DelayedAnswers(c: Config, p: Proxy, side: Side, forced: bool)
    requires !At(p, side).session && Delays(c, Prepared(c, p, side), side, forced)
    requires side == Client && p.forceConnect ==> Connect(c, p).1
    ensures var (q, rc) := Request(c, p, side, forced); var r := Prepared(c, p, side);
            && rc && q.log == r.log && At(q, side).pending
            && At(q, side).session == At(r, side).session && At(q, Other(side)) == At(r, Other(side))
  {
  }

  /** A new connection never goes on with the session of a broken one: the server is shaken hands with again. */
  lemma BrokenIsShakenAgain(c: Config, p: Proxy)
    requires p.link == Broken && Connects(p) && c.server == Forced
    ensures var q := Connect(c, p).0; var r := Connected(p);
            if Delays(c, r, Server, false) then q.log == p.log && q.server.pending && !q.server.session
            else Starts(q.log, Server) == Starts(p.log, Server) + 1
  {
    ShakesStarts(Connected(p), Server, Server);
  }

  /** A session is one that a handshake of that side has left. */
  ghost predicate Shaken(p: Proxy, shakes: seq<Shake>) {
    && p.shakes == Drop(shakes, |p.log|)
    && forall side :: At(p, side).session ==> HasShaken(p.log, shakes, side)
  }

  ghost predicate HasShaken(log: seq<Start>, shakes: seq<Shake>, side: Side) {
    exists k :: 0 <= k < |log| && log[k].side == side && k < |shakes| && shakes[k].session
  }

  lemma PerformShaken(p: Proxy, side: Side, shakes: seq<Shake>)
    requires Shaken(p, shakes)
    ensures var q := Perform(p, side);
            && Shaken(q, shakes) && (NextShake(p).session ==> HasShaken(q.log, shakes, side))
  {
    var q := Perform(p, side);
    forall s | HasShaken(p.log, shakes, s)
      ensures HasShaken(q.log, shakes, s)
    {
      var k :| 0 <= k < |p.log| && p.log[k].side == s && k < |shakes| && shakes[k].session;
      assert q.log[k] == p.log[k];
    }
    if NextShake(p).session {
      assert q.log[|p.log|].side == side && shakes[|p.log|].session;
    }
  }

  lemma ShakesShaken(p: Proxy, side: Side, shakes: seq<Shake>)
    requires Shaken(p, shakes)
    ensures Shaken(Shakes(p, side).0, shakes)
  {
    PerformShaken(p, side, shakes);
    var q, o := Perform(p, side), Other(side);
    if Serves(p, side) {
      var done := Put(q, side, At(q, side).(session := true));
      PerformShaken(Put(done, o, At(done, o).(pending := false)), o, shakes);
    }
  }

  lemma ConnectShaken(c: Config, p: Proxy, shakes: seq<Shake>)
    requires Shaken(p, shakes)
    ensures Shaken(Connect(c, p).0, shakes)
  {
    if Connects(p) {
      ShakesShaken(Connected(p), Server, shakes);
    }
  }

  /** Over every run, in every configuration, no side has a session without a handshake that left one. */
  lemma {:induction false} RunShaken(c: Config, shakes: seq<Shake>, connects: seq<bool>, ops: seq<Op>)
    ensures Shaken(Run(c, Fresh(shakes, connects), ops), shakes)
  {
    if ops != [] {
      var p, op := Run(c, Fresh(shakes, connects), ops[..|ops| - 1]), ops[|ops| - 1];
      RunShaken(c, shakes, connects, ops[..|ops| - 1]);
      ConnectShaken(c, p, shakes);
      if op.Ask? {
        ShakesShaken(p, op.side, shakes);
        ShakesShaken(Connect(c, p).0, op.side, shakes);
      }
    }
  }

  // ---------------------------------------------------------------- imperative form

  class ProxySsl {
    const config: Config
    var ends: map<Side, End>
    var forceConnect: bool
    var link: Link
    var shakes: seq<Shake>
    var connects: seq<bool>
    var log: seq<Start>

    ghost predicate Valid()
      reads this
    {
      Client in ends && Server in ends
    }

    ghost function Abs(): Proxy
      requires Valid()
      reads this
    {
      Proxy(ends[Client], ends[Server], forceConnect, link, shakes, connects, log)
    }

    constructor (config: Config, shakes: seq<Shake>, connects: seq<bool>)
      ensures Valid() && this.config == config && Abs() == Fresh(shakes, connects)
    {
      this.config := config;
      ends := map[Client := End(false, false), Server := End(false, false)];
      forceConnect, link := false, Absent;
      this.shakes, this.connects, log := shakes, connects, [];
    }

    method PerformHandshake(side: Side) returns (s: Shake)
      requires Valid()
      modifies `shakes, `log
      ensures Valid() && s == NextShake(old(Abs())) && Abs() == Perform(old(Abs()), side)
    {
      s := Shake(false, false);
      if shakes != [] {
        s, shakes := shakes[0], shakes[1..];
      }
      log := log + [Start(side, ends[Other(side)].session)];
    }

    method RequestHandshake(side: Side, forced: bool) returns (rc: bool)
      requires Valid()
      modifies this
      ensures Valid() && (Abs(), rc) == Request(config, old(Abs()), side, forced)
      decreases if side == Client then 2 else 0
    {
      if ends[side].session {
        return true;
      }
      if side == Client && forceConnect {
        rc := ConnectServer();
        if !rc {
          return;
        }
      }
      if config.first != side && !forced && Level(config, Other(side)) != Off
         && !(Level(config, side) == Forced && Level(config, Other(side)) != Forced)
         && !ends[Other(side)].session {
        ends := ends[side := ends[side].(pending := true)];
        return true;
      }
      rc := Complete(side);
    }

    method Complete(side: Side) returns (rc: bool)
      requires Valid()
      modifies this
      ensures Valid() && (Abs(), rc) == Shakes(old(Abs()), side)
    {
      var s := PerformHandshake(side);
      if !s.ok || !s.session {
        return s.ok;
      }
      ends := ends[side := ends[side].(session := true)];
      rc := true;
      var o := Other(side);
      if ends[o].pending {
        ends := ends[o := ends[o].(pending := false)];
        s := PerformHandshake(o);
        rc := s.ok;
        ends := ends[o := ends[o].(session := s.session)];
      }
    }

    method ConnectServer() returns (rc: bool)
      requires Valid()
      modifies this
      ensures Valid() && (Abs(), rc) == Connect(config, old(Abs()))
      decreases 1
    {
      if link == Up {
        return true;
      }
      if link == Broken {
        link := Absent;
        ends := ends[Server := ends[Server].(session := false)];
      }
      if connects == [] {
        return false;
      }
      rc, connects := connects[0], connects[1..];
      if rc {
        link := Up;
        if config.server == Forced {
          rc := RequestHandshake(Server, false);
        }
      }
    }
  }
}
