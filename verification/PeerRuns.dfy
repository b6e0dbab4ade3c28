/** Every interleaving of the CARLA host with any number of traffic machines, and with strangers that
    speak anything on its port. Either end may close, die or be cut off at any moment. */
module PeerRuns {
  import opened PeerProtocol

  // ------------------------------------------------------------------- the state

  /** A message on a connection's record, with the side that sent it. */
  datatype Entry = FromTraffic(msg: Msg) | FromHost(msg: Msg)

  /** One connection: the dialling side's protocol number and the map it wants, both ends' progress,
      the messages in flight, whether the network cut it, and the record of everything sent.
      `returned` is set once ask_peer_to_serve has returned the socket. */
  datatype Conn = Conn(
    proto: int, wanted: MapName, traffic: TrafficPc, returned: bool, host: HostStage,
    toHost: seq<Msg>, toTraffic: seq<Msg>, cut: bool, log: seq<Entry>)

  datatype HostPc = Listening | On(id: nat)

  datatype State = State(conns: map<nat, Conn>, host: HostPc)

  datatype Config = Config(hostProto: int, fallback: MapName, prepTimeout: real)

  predicate IsClient(c: Conn) {
    !c.traffic.Stranger? && !c.traffic.StrangerGone?
  }

  predicate TrafficClosed(c: Conn) {
    c.traffic.Exited? || c.traffic.StrangerGone?
  }

  predicate Active(stage: HostStage) {
    !stage.Queued? && !stage.Finished?
  }

  function TrafficSays(c: Conn, msg: Msg): Conn {
    c.(toHost := c.toHost + [msg], log := c.log + [FromTraffic(msg)])
  }

  function HostSays(c: Conn, msg: Msg): Conn {
    c.(toTraffic := c.toTraffic + [msg], log := c.log + [FromHost(msg)])
  }

  // ------------------------------------------------------- what either side may do

  /** `heard` is what a read of `queue` may come to, leaving `rest`. A read may time out while a message is
      still on its way. */
  predicate MayHear(queue: seq<Msg>, closed: bool, heard: Heard, rest: seq<Msg>) {
    match heard
    case Said(msg) => queue != [] && msg == queue[0] && rest == queue[1..]
    case HungUp => queue == [] && closed && rest == queue
    case PeerError => rest == queue
  }

  ghost predicate Dialled(c: Conn) {
    && c.host == Queued && c.toTraffic == [] && !c.cut && !c.returned
    && ((c.traffic == AwaitingWelcome && c.toHost == [Hello(c.proto)] && c.log == [FromTraffic(Hello(c.proto))])
        || (c.traffic == Stranger && c.toHost == [] && c.log == []))
  }

  /** A traffic side in the handshake or the wait reads once and reacts. */
  function TrafficReacts(cfg: Config, c: Conn, heard: Heard, rest: seq<Msg>): Conn {
    var d := c.(toTraffic := rest);
    match c.traffic
    case AwaitingWelcome =>
      var next := AfterHello(c.proto, heard);
      if next.Waiting? then TrafficSays(d.(traffic := next), Serve(c.wanted)) else d.(traffic := next)
    case Waiting(waited) =>
      var next := WhileWaiting(waited, cfg.prepTimeout, heard);
      d.(traffic := next, returned := c.returned || next.Running?)
    case _ => c
  }

  ghost predicate TrafficReads(cfg: Config, c: Conn, c': Conn) {
    exists heard: Heard, rest: seq<Msg> ::
      MayHear(c.toTraffic, c.host.Finished? || c.cut, heard, rest) && c' == TrafficReacts(cfg, c, heard, rest)
  }

  /** A traffic side ends its run with a BYE, or goes without a word; a stranger says anything. */
  ghost predicate TrafficActs(c: Conn, c': Conn) {
    || (c.traffic.Running? && exists why :: c' == TrafficSays(c, Bye(why)).(traffic := Exited))
    || (IsClient(c) && c' == c.(traffic := Exited))
    || (c.traffic.Stranger? && ((exists msg :: c' == TrafficSays(c, msg)) || c' == c.(traffic := StrangerGone)))
  }

  /** The network goes: what was in flight may be lost from some point on, both ends see a close. */
  ghost predicate Severed(c: Conn, c': Conn) {
    exists i: nat, j: nat :: i <= |c.toHost| && j <= |c.toTraffic| &&
      c' == c.(cut := true, toHost := c.toHost[..i], toTraffic := c.toTraffic[..j])
  }

  ghost predicate TrafficStep(cfg: Config, c: Conn, c': Conn) {
    TrafficReads(cfg, c, c') || TrafficActs(c, c') || Severed(c, c')
  }

  function Replies(c: Conn, reply: seq<Msg>): Conn {
    if reply == [] then c else HostSays(c, reply[0])
  }

  /** What serve_forever reports of an exception that nothing else caught, up to the exception. */
  const UNEXPECTED := "unexpected error on the render host"

  /** await_peer and hold_carla read once and react. */
  function HostReacts(cfg: Config, c: Conn, heard: Heard, rest: seq<Msg>): Conn {
    var d := c.(toHost := rest);
    if c.host.Greeting? || c.host.Requested? then
      var (reply, next) := HostHandshake(c.host, cfg.hostProto, cfg.fallback, heard);
      Replies(d, reply).(host := next)
    else if c.host.Holding? && CrashesHold(Hears(heard)) then HostSays(d, Error(UNEXPECTED, true)).(host := Finished)
    else if c.host.Holding? && Releases(Hears(heard)) then d.(host := Finished)
    else if c.host.Holding? then d
    else c
  }

  ghost predicate HostReads(cfg: Config, c: Conn, c': Conn) {
    exists heard: Heard, rest: seq<Msg> ::
      MayHear(c.toHost, TrafficClosed(c) || c.cut, heard, rest) && c' == HostReacts(cfg, c, heard, rest)
  }

  /** The run on the host: progress reports, SERVING from hold_carla, a failure that is
      reported, or hold_carla ending the run itself. */
  ghost predicate HostRuns(c: Conn, c': Conn) {
    || (c.host.Preparing? && exists stage, text :: c' == HostSays(c, Progress(stage, text)))
    || (c.host.Preparing? && c' == HostSays(c, Serving(c.host.map_)).(host := Holding(c.host.map_)))
    || ((c.host.Preparing? || c.host.Holding?)
        && exists why, retryable :: c' == HostSays(c, Error(why, retryable)).(host := Finished))
    || (c.host.Holding? && exists why :: c' == HostSays(c, Bye(why)).(host := Finished))
  }

  ghost predicate HostStep(cfg: Config, c: Conn, c': Conn) {
    || HostReads(cfg, c, c')
    || HostRuns(c, c')
    || (Active(c.host) && c' == c.(host := Finished))
  }

  /** A new connection lands in the backlog. */
  ghost predicate Dials(s: State, s': State, id: nat, c: Conn) {
    id !in s.conns && Dialled(c) && s' == s.(conns := s.conns[id := c])
  }

  /** The dialling side of a connection, or the network under it, moves. */
  ghost predicate PeerMoves(cfg: Config, s: State, s': State, id: nat, c: Conn) {
    id in s.conns && TrafficStep(cfg, s.conns[id], c) && s' == s.(conns := s.conns[id := c])
  }

  ghost predicate Accepts(s: State, s': State, id: nat) {
    && id in s.conns && s.conns[id].host.Queued? && s.host.Listening?
    && s' == State(s.conns[id := s.conns[id].(host := Greeting)], On(id))
  }

  /** The host moves on the connection it is busy with, and listens again when it is done with it. */
  ghost predicate HostMoves(cfg: Config, s: State, s': State, id: nat, c: Conn) {
    && id in s.conns && s.host == On(id) && HostStep(cfg, s.conns[id], c)
    && s' == State(s.conns[id := c], if c.host.Finished? then Listening else On(id))
  }

  /** The listening socket closes with this connection still in its backlog. */
  ghost predicate Drops(s: State, s': State, id: nat) {
    && id in s.conns && s.conns[id].host.Queued?
    && s' == s.(conns := s.conns[id := s.conns[id].(host := Finished)])
  }

  /** The host process dies, and a new one listens. */
  ghost predicate Restarts(s: State, s': State) {
    s' == State(map id | id in s.conns :: s.conns[id].(host := Finished), Listening)
  }

  ghost predicate Next(cfg: Config, s: State, s': State) {
    || (exists id: nat, c: Conn :: Dials(s, s', id, c))
    || (exists id: nat, c: Conn :: PeerMoves(cfg, s, s', id, c))
    || (exists id: nat :: Accepts(s, s', id))
    || (exists id: nat, c: Conn :: HostMoves(cfg, s, s', id, c))
    || (exists id: nat :: Drops(s, s', id))
    || Restarts(s, s')
  }

  ghost predicate IsRun(cfg: Config, run: seq<State>) {
    && |run| > 0
    && run[0] == State(map[], Listening)
    && forall k :: 0 < k < |run| ==> Next(cfg, run[k - 1], run[k])
  }

  // -------------------------------------------------------------- nothing is ruled out

  /** A connection can be cut anywhere, with anything in flight lost from some point on; either end can go at any
      moment; a read can time out whatever is on its way; a stranger can say anything. */
  lemma NothingIsRuledOut(cfg: Config, c: Conn, i: nat, j: nat, msg: Msg)
    requires i <= |c.toHost| && j <= |c.toTraffic|
    ensures TrafficStep(cfg, c, c.(cut := true, toHost := c.toHost[..i], toTraffic := c.toTraffic[..j]))
    ensures IsClient(c) ==> TrafficStep(cfg, c, c.(traffic := Exited))
    ensures c.traffic.Stranger? ==>
              TrafficStep(cfg, c, TrafficSays(c, msg)) && TrafficStep(cfg, c, c.(traffic := StrangerGone))
    ensures Active(c.host) ==> HostStep(cfg, c, c.(host := Finished))
    ensures TrafficStep(cfg, c, TrafficReacts(cfg, c, PeerError, c.toTraffic))
    ensures HostStep(cfg, c, HostReacts(cfg, c, PeerError, c.toHost))
  {
    assert Severed(c, c.(cut := true, toHost := c.toHost[..i], toTraffic := c.toTraffic[..j]));
    assert MayHear(c.toTraffic, c.host.Finished? || c.cut, PeerError, c.toTraffic);
    assert MayHear(c.toHost, TrafficClosed(c) || c.cut, PeerError, c.toHost);
  }

  /** What was sent is heard in order, and after it the close, by whichever end and for whatever reason. */
  lemma WhatIsSentCanBeHeard(cfg: Config, c: Conn)
    ensures c.toTraffic != [] ==>
              TrafficStep(cfg, c, TrafficReacts(cfg, c, Said(c.toTraffic[0]), c.toTraffic[1..]))
    ensures c.toTraffic == [] && (c.host.Finished? || c.cut) ==>
              TrafficStep(cfg, c, TrafficReacts(cfg, c, HungUp, []))
    ensures c.toHost != [] ==> HostStep(cfg, c, HostReacts(cfg, c, Said(c.toHost[0]), c.toHost[1..]))
    ensures c.toHost == [] && (c.traffic.Exited? || c.traffic.StrangerGone? || c.cut) ==>
              HostStep(cfg, c, HostReacts(cfg, c, HungUp, []))
  {
  }

  /** While it prepares the host may report progress, serve, or fail; while it holds it may fail or say BYE; a
      traffic side that runs may say BYE. */
  lemma WhatTheHostMaySay(cfg: Config, c: Conn, text: string, retryable: bool)
    ensures c.host.Preparing? ==>
              && HostStep(cfg, c, HostSays(c, Progress(text, text)))
              && HostStep(cfg, c, HostSays(c, Serving(c.host.map_)).(host := Holding(c.host.map_)))
              && HostStep(cfg, c, HostSays(c, Error(text, retryable)).(host := Finished))
    ensures c.host.Holding? ==>
              && HostStep(cfg, c, HostSays(c, Error(text, retryable)).(host := Finished))
              && HostStep(cfg, c, HostSays(c, Bye(text)).(host := Finished))
    ensures c.traffic.Running? ==> TrafficStep(cfg, c, TrafficSays(c, Bye(text)).(traffic := Exited))
  {
  }

  /** Holding, the host is done at a hang-up, null, BYE or a bare value, and holds on at anything else. */
  lemma WhatEndsHolding(cfg: Config, c: Conn, heard: Heard, rest: seq<Msg>)
    requires c.host.Holding?
    ensures HostReacts(cfg, c, heard, rest).host ==
            if heard == HungUp || (heard.Said? && (heard.msg.Null? || heard.msg.Bye? || heard.msg.Bare?)) then Finished
            else c.host
    ensures HostReacts(cfg, c, heard, rest).toHost == rest
    ensures HostReacts(cfg, c, heard, rest).toTraffic ==
            if heard.Said? && heard.msg.Bare? then c.toTraffic + [Error("unexpected error on the render host", true)]
            else c.toTraffic
  {
  }

  /** A traffic side that has dialled and said HELLO. */
  function NewClient(proto: int, wanted: MapName): Conn {
    Conn(proto, wanted, AwaitingWelcome, false, Queued, [Hello(proto)], [], false, [FromTraffic(Hello(proto))])
  }

  /** Connections come and go: a dial at any time, the next one accepted whenever the host listens, the backlog
      dropped, the host restarted. */
  lemma ConnectionsComeAndGo(cfg: Config, s: State, id: nat, proto: int, wanted: MapName)
    ensures id !in s.conns ==>
              && Next(cfg, s, s.(conns := s.conns[id := NewClient(proto, wanted)]))
              && Next(cfg, s, s.(conns := s.conns[id := NewClient(proto, wanted).(
                   traffic := Stranger, toHost := [], log := [])]))
    ensures id in s.conns && s.conns[id].host.Queued? && s.host.Listening? ==>
              Next(cfg, s, State(s.conns[id := s.conns[id].(host := Greeting)], On(id)))
    ensures id in s.conns && s.conns[id].host.Queued? ==>
              Next(cfg, s, s.(conns := s.conns[id := s.conns[id].(host := Finished)]))
    ensures Next(cfg, s, State(map i | i in s.conns :: s.conns[i].(host := Finished), Listening))
  {
    hide HostStep, TrafficStep;
    if id !in s.conns {
      var c := NewClient(proto, wanted);
      assert Dials(s, s.(conns := s.conns[id := c]), id, c);
      var d := c.(traffic := Stranger, toHost := [], log := []);
      assert Dials(s, s.(conns := s.conns[id := d]), id, d);
    } else if s.conns[id].host.Queued? {
      assert Drops(s, s.(conns := s.conns[id := s.conns[id].(host := Finished)]), id);
      if s.host.Listening? {
        assert Accepts(s, State(s.conns[id := s.conns[id].(host := Greeting)], On(id)), id);
      }
    }
    assert Restarts(s, State(map i | i in s.conns :: s.conns[i].(host := Finished), Listening));
  }

  /** What a connection may do is a step of the whole. */
  lemma StepsOfOneAreStepsOfAll(cfg: Config, s: State, id: nat, c: Conn)
    requires id in s.conns
    ensures TrafficStep(cfg, s.conns[id], c) ==> Next(cfg, s, s.(conns := s.conns[id := c]))
    ensures s.host == On(id) && HostStep(cfg, s.conns[id], c) ==>
              Next(cfg, s, State(s.conns[id := c], if c.host.Finished? then Listening else On(id)))
  {
    hide HostStep, TrafficStep;
    if TrafficStep(cfg, s.conns[id], c) {
      assert PeerMoves(cfg, s, s.(conns := s.conns[id := c]), id, c);
    }
    if s.host == On(id) && HostStep(cfg, s.conns[id], c) {
      assert HostMoves(cfg, s, State(s.conns[id := c], if c.host.Finished? then Listening else On(id)), id, c);
    }
  }

  /** A connection from the dial to the returned socket, step by step. */
  function Conversation(proto: int, wanted: MapName, map_: MapName): seq<Conn> {
    var dialled := NewClient(proto, wanted);
    var accepted := dialled.(host := Greeting);
    var welcomed := HostSays(accepted, Welcome(proto)).(toHost := [], host := Requested);
    var asking := TrafficSays(welcomed, Serve(wanted)).(toTraffic := [], traffic := Waiting(0.0));
    var preparing := asking.(toHost := [], host := Preparing(map_));
    var serving := HostSays(preparing, Serving(map_)).(host := Holding(map_));
    [dialled, accepted, welcomed, asking, preparing, serving,
     serving.(toTraffic := [], traffic := Running, returned := true)]
  }

  lemma ConversationGoesOn(cfg: Config, wanted: MapName, map_: MapName)
    requires map_ == (if wanted != "" then wanted else cfg.fallback) && map_ != ""
    ensures var cs := Conversation(cfg.hostProto, wanted, map_);
            && cs[2] == HostReacts(cfg, cs[1], Said(cs[1].toHost[0]), cs[1].toHost[1..])
            && cs[3] == TrafficReacts(cfg, cs[2], Said(cs[2].toTraffic[0]), cs[2].toTraffic[1..])
            && cs[4] == HostReacts(cfg, cs[3], Said(cs[3].toHost[0]), cs[3].toHost[1..])
            && cs[5] == HostSays(cs[4], Serving(map_)).(host := Holding(map_))
            && cs[6] == TrafficReacts(cfg, cs[5], Said(cs[5].toTraffic[0]), cs[5].toTraffic[1..])
  {
  }

  /** For every map a host can serve, a run that gets all the way: dialled, accepted, welcomed, asked, served, and
      the socket returned. */
  lemma ARunThatServes(cfg: Config, wanted: MapName, map_: MapName) returns (run: seq<State>)
    requires map_ == (if wanted != "" then wanted else cfg.fallback) && map_ != ""
    ensures IsRun(cfg, run) && |run| == 8 && 0 in run[7].conns && run[7].host == On(0)
    ensures var c := run[7].conns[0];
            && c.returned && c.traffic.Running? && c.host == Holding(map_)
            && c.log == [FromTraffic(Hello(cfg.hostProto)), FromHost(Welcome(cfg.hostProto)),
                         FromTraffic(Serve(wanted)), FromHost(Serving(map_))]
  {
    hide Next, HostReacts, TrafficReacts, Only;
    var cs := Conversation(cfg.hostProto, wanted, map_);
    ConversationGoesOn(cfg, wanted, map_);
    ConversationStarts(cfg, wanted, map_);
    HostGoesOn(cfg, cs[1], cs[2]);
    TrafficGoesOn(cfg, cs[2], cs[3]);
    HostGoesOn(cfg, cs[3], cs[4]);
    HostServes(cfg, cs[4], map_);
    TrafficGoesOn(cfg, cs[5], cs[6]);
    run := [State(map[], Listening), Only(cs[0], Listening), Only(cs[1], On(0)), Only(cs[2], On(0)),
            Only(cs[3], On(0)), Only(cs[4], On(0)), Only(cs[5], On(0)), Only(cs[6], On(0))];
    OnlyIs(cs[6], On(0));
  }

  lemma OnlyIs(c: Conn, host: HostPc)
    ensures 0 in Only(c, host).conns && Only(c, host).conns[0] == c && Only(c, host).host == host
  {
  }

  lemma ConversationStarts(cfg: Config, wanted: MapName, map_: MapName)
    ensures var cs := Conversation(cfg.hostProto, wanted, map_);
            && Next(cfg, State(map[], Listening), Only(cs[0], Listening))
            && Next(cfg, Only(cs[0], Listening), Only(cs[1], On(0)))
  {
    hide Next;
    var cs := Conversation(cfg.hostProto, wanted, map_);
    ConnectionsComeAndGo(cfg, State(map[], Listening), 0, cfg.hostProto, wanted);
    ConnectionsComeAndGo(cfg, Only(cs[0], Listening), 0, cfg.hostProto, wanted);
    assert Only(cs[0], Listening).conns[0 := cs[1]] == Only(cs[1], On(0)).conns;
  }

  lemma HostServes(cfg: Config, c: Conn, wanted: MapName)
    requires c.host == Preparing(wanted)
    ensures Next(cfg, Only(c, On(0)), Only(HostSays(c, Serving(wanted)).(host := Holding(wanted)), On(0)))
  {
    hide Next, TrafficStep, HostStep;
    var c' := HostSays(c, Serving(wanted)).(host := Holding(wanted));
    WhatTheHostMaySay(cfg, c, "", false);
    StepsOfOneAreStepsOfAll(cfg, Only(c, On(0)), 0, c');
    assert Only(c, On(0)).conns[0 := c'] == Only(c', On(0)).conns;
  }

  /** One connection, numbered 0, and nothing else. */
  function Only(c: Conn, host: HostPc): State {
    State(map[0 := c], host)
  }

  lemma HostGoesOn(cfg: Config, c: Conn, c': Conn)
    requires c.toHost != [] && c' == HostReacts(cfg, c, Said(c.toHost[0]), c.toHost[1..]) && !c'.host.Finished?
    ensures Next(cfg, Only(c, On(0)), Only(c', On(0)))
  {
    hide Next, TrafficStep, HostStep;
    WhatIsSentCanBeHeard(cfg, c);
    StepsOfOneAreStepsOfAll(cfg, Only(c, On(0)), 0, c');
    assert Only(c, On(0)).conns[0 := c'] == Only(c', On(0)).conns;
  }

  lemma TrafficGoesOn(cfg: Config, c: Conn, c': Conn)
    requires c.toTraffic != [] && c' == TrafficReacts(cfg, c, Said(c.toTraffic[0]), c.toTraffic[1..])
    ensures Next(cfg, Only(c, On(0)), Only(c', On(0)))
  {
    hide Next, TrafficStep, HostStep;
    WhatIsSentCanBeHeard(cfg, c);
    StepsOfOneAreStepsOfAll(cfg, Only(c, On(0)), 0, c');
    assert Only(c, On(0)).conns[0 := c'] == Only(c', On(0)).conns;
  }

  // ------------------------------------------------------------------ the invariant

  function Opening(cfg: Config, c: Conn): seq<Entry> {
    [FromTraffic(Hello(c.proto)), FromHost(Welcome(cfg.hostProto)), FromTraffic(Serve(c.wanted))]
  }

  ghost predicate AllProgress(es: seq<Entry>) {
    forall i :: 0 <= i < |es| ==> es[i].FromHost? && es[i].msg.Progress?
  }

  /** HELLO, WELCOME with the host's number, SERVE, and since then nothing but progress. */
  ghost predicate Asked(cfg: Config, c: Conn, log: seq<Entry>) {
    |log| >= 3 && log[..3] == Opening(cfg, c) && AllProgress(log[3..])
  }

  /** ... and then SERVING for the map that was asked for, `k` messages in. */
  ghost predicate ServedAfter(cfg: Config, c: Conn, k: nat) {
    && k < |c.log|
    && Asked(cfg, c, c.log[..k])
    && c.log[k] == FromHost(Serving(if c.wanted != "" then c.wanted else cfg.fallback))
    && (c.wanted != "" || cfg.fallback != "")
  }

  ghost predicate Served(cfg: Config, c: Conn) {
    exists k: nat :: ServedAfter(cfg, c, k)
  }

  ghost predicate NoServing(log: seq<Entry>) {
    forall i :: 0 <= i < |log| ==> !(log[i].FromHost? && log[i].msg.Serving?)
  }

  ghost predicate HostPhase(cfg: Config, c: Conn) {
    match c.host
    case Finished => true
    case Requested =>
      || (c.log == Opening(cfg, c)[..2] && c.toHost == [])
      || (c.log == Opening(cfg, c) && c.toHost <= [Serve(c.wanted)])
    case Preparing(m) => Asked(cfg, c, c.log) && c.toHost == [] && m == MapToServe(c.wanted, cfg.fallback) != ""
    case Holding(m) => Served(cfg, c)
    case _ => c.log == Opening(cfg, c)[..1] && c.toHost <= [Hello(c.proto)] && c.toTraffic == []
  }

  ghost predicate TrafficPhase(cfg: Config, c: Conn) {
    && (c.traffic.AwaitingWelcome? ==> !c.returned && FromTraffic(Serve(c.wanted)) !in c.log)
    && (c.traffic.Waiting? ==> !c.returned && c.proto == cfg.hostProto)
    && (c.traffic.Running? ==> c.returned)
    && (c.returned ==> c.proto == cfg.hostProto && Served(cfg, c))
  }

  ghost predicate LogSound(cfg: Config, c: Conn) {
    && (NoServing(c.log) || Served(cfg, c))
    && (forall m :: m in c.toTraffic ==> FromHost(m) in c.log)
    && (forall p :: FromHost(Welcome(p)) in c.log ==> p == cfg.hostProto)
  }

  ghost predicate ConnInv(cfg: Config, c: Conn) {
    IsClient(c) ==> HostPhase(cfg, c) && TrafficPhase(cfg, c) && LogSound(cfg, c)
  }

  ghost predicate Inv(cfg: Config, s: State) {
    && (forall id :: id in s.conns ==> ConnInv(cfg, s.conns[id]) && (Active(s.conns[id].host) <==> s.host == On(id)))
    && (s.host.On? ==> s.host.id in s.conns)
  }

  // -------------------------------------------------------------------- its steps

  lemma ServedStays(cfg: Config, c: Conn, c': Conn)
    requires Served(cfg, c) && c.log <= c'.log && c'.proto == c.proto && c'.wanted == c.wanted
    ensures Served(cfg, c')
  {
    var k: nat :| ServedAfter(cfg, c, k);
    assert c'.log[..k] == c.log[..k] && c'.log[k] == c.log[k];
    assert ServedAfter(cfg, c', k);
  }

  /** The record up to SERVE and the progress after it: SERVE is there, SERVING is not. */
  lemma AskedButNotServing(cfg: Config, c: Conn, log: seq<Entry>)
    requires Asked(cfg, c, log)
    ensures FromTraffic(Serve(c.wanted)) in log && NoServing(log)
    ensures forall e :: e in log && e.FromTraffic? ==> e.msg == Hello(c.proto) || e.msg == Serve(c.wanted)
  {
    assert log == log[..3] + log[3..];
    assert log[2] == log[..3][2];
  }

  /** Before SERVE is on the record, SERVING is not. */
  lemma NotServedBeforeAsking(cfg: Config, c: Conn)
    requires FromTraffic(Serve(c.wanted)) !in c.log
    ensures !Served(cfg, c)
  {
    if k: nat :| ServedAfter(cfg, c, k) {
      AskedButNotServing(cfg, c, c.log[..k]);
    }
  }

  lemma LogSoundStays(cfg: Config, c: Conn, c': Conn)
    requires LogSound(cfg, c) && c'.log == c.log && c'.proto == c.proto && c'.wanted == c.wanted
    requires forall m :: m in c'.toTraffic ==> m in c.toTraffic
    ensures LogSound(cfg, c')
  {
    if Served(cfg, c) {
      ServedStays(cfg, c, c');
    }
  }

  lemma LogSoundGrows(cfg: Config, c: Conn, c': Conn, e: Entry)
    requires LogSound(cfg, c) && c'.log == c.log + [e] && c'.proto == c.proto && c'.wanted == c.wanted
    requires forall m :: m in c'.toTraffic ==> m in c.toTraffic || e == FromHost(m)
    requires e.FromHost? && e.msg.Welcome? ==> e.msg.proto == cfg.hostProto
    requires e.FromHost? && e.msg.Serving? ==> Served(cfg, c')
    ensures LogSound(cfg, c')
  {
    if Served(cfg, c) {
      ServedStays(cfg, c, c');
    }
  }

  lemma HearingHelloAnswerKeeps(cfg: Config, c: Conn, heard: Heard, rest: seq<Msg>)
    requires ConnInv(cfg, c) && c.traffic == AwaitingWelcome
        && MayHear(c.toTraffic, c.host.Finished? || c.cut, heard, rest)
    ensures ConnInv(cfg, TrafficReacts(cfg, c, heard, rest))
  {
    var c' := TrafficReacts(cfg, c, heard, rest);
    assert forall m :: m in rest ==> m in c.toTraffic;
    NotServedBeforeAsking(cfg, c);
    if c'.traffic.Waiting? {
      assert heard.msg in c.toTraffic;
      assert FromHost(Welcome(c.proto)) in c.log;
      LogSoundGrows(cfg, c, c', FromTraffic(Serve(c.wanted)));
      if !c.host.Finished? {
        WelcomedThenAsked(cfg, c);
      }
      assert HostPhase(cfg, c');
    } else {
      LogSoundStays(cfg, c, c');
      assert HostPhase(cfg, c');
    }
  }

  lemma HearingWhileWaitingKeeps(cfg: Config, c: Conn, heard: Heard, rest: seq<Msg>)
    requires ConnInv(cfg, c) && c.traffic.Waiting? && MayHear(c.toTraffic, c.host.Finished? || c.cut, heard, rest)
    ensures ConnInv(cfg, TrafficReacts(cfg, c, heard, rest))
  {
    var c' := TrafficReacts(cfg, c, heard, rest);
    assert forall m :: m in rest ==> m in c.toTraffic;
    LogSoundStays(cfg, c, c');
    if Served(cfg, c) {
      ServedStays(cfg, c, c');
    }
    if c'.traffic.Running? {
      assert heard.msg in c.toTraffic;
      assert FromHost(heard.msg) in c.log;
      assert !NoServing(c.log);
    }
    assert HostPhase(cfg, c');
  }

  lemma WelcomedThenAsked(cfg: Config, c: Conn)
    requires HostPhase(cfg, c) && !c.host.Finished? && !Served(cfg, c)
    requires FromTraffic(Serve(c.wanted)) !in c.log && FromHost(Welcome(c.proto)) in c.log
    ensures c.host.Requested? && c.log == Opening(cfg, c)[..2] && c.toHost == []
    ensures c.log + [FromTraffic(Serve(c.wanted))] == Opening(cfg, c)
  {
    if c.host.Preparing? {
      AskedButNotServing(cfg, c, c.log);
    }
  }

  lemma TrafficActsKeeps(cfg: Config, c: Conn, c': Conn)
    requires ConnInv(cfg, c) && IsClient(c) && (TrafficActs(c, c') || Severed(c, c'))
    ensures ConnInv(cfg, c')
  {
    assert c.log <= c'.log;
    if Served(cfg, c) {
      ServedStays(cfg, c, c');
    }
    if c.returned {
      ServedMeansHoldingOrOver(cfg, c);
    }
  }

  /** Once SERVING is on the record the host is holding, or done with the connection. */
  lemma ServedMeansHoldingOrOver(cfg: Config, c: Conn)
    requires HostPhase(cfg, c) && Served(cfg, c)
    ensures c.host.Holding? || c.host.Finished?
  {
    var k: nat :| ServedAfter(cfg, c, k);
    assert |c.log[..k]| >= 3;
    if c.host.Preparing? {
      AskedButNotServing(cfg, c, c.log);
    }
  }

  lemma HandshakeKeeps(cfg: Config, c: Conn, heard: Heard, rest: seq<Msg>)
    requires ConnInv(cfg, c) && IsClient(c) && MayHear(c.toHost, TrafficClosed(c) || c.cut, heard, rest)
    requires c.host.Greeting? || c.host.Requested?
    ensures ConnInv(cfg, HostReacts(cfg, c, heard, rest))
  {
    hide HostPhase, TrafficPhase, LogSound, MayHear;
    HandshakeIsSound(cfg, c, heard, rest);
    HandshakePhase(cfg, c, heard, rest);
  }

  lemma HandshakeIsSound(cfg: Config, c: Conn, heard: Heard, rest: seq<Msg>)
    requires HostPhase(cfg, c) && TrafficPhase(cfg, c) && LogSound(cfg, c)
    requires c.host.Greeting? || c.host.Requested?
    ensures TrafficPhase(cfg, HostReacts(cfg, c, heard, rest)) && LogSound(cfg, HostReacts(cfg, c, heard, rest))
  {
    hide LogSound, HostPhase, Served, Opening;
    var c' := HostReacts(cfg, c, heard, rest);
    var (reply, next) := HostHandshake(c.host, cfg.hostProto, cfg.fallback, heard);
    if Served(cfg, c) {
      ServedMeansHoldingOrOver(cfg, c);
    }
    if reply == [] {
      LogSoundStays(cfg, c, c');
    } else {
      LogSoundGrows(cfg, c, c', FromHost(reply[0]));
    }
  }

  lemma HandshakePhase(cfg: Config, c: Conn, heard: Heard, rest: seq<Msg>)
    requires HostPhase(cfg, c) && MayHear(c.toHost, TrafficClosed(c) || c.cut, heard, rest)
    requires c.host.Greeting? || c.host.Requested?
    ensures HostPhase(cfg, HostReacts(cfg, c, heard, rest))
  {
    var c' := HostReacts(cfg, c, heard, rest);
    if c'.host.Requested? {
      assert c'.log == Opening(cfg, c)[..2];
    } else if c'.host.Preparing? {
      assert c.log == Opening(cfg, c) && heard.msg == Serve(c.wanted);
    }
  }

  lemma HoldingReadsKeeps(cfg: Config, c: Conn, heard: Heard, rest: seq<Msg>)
    requires ConnInv(cfg, c) && IsClient(c) && !c.host.Greeting? && !c.host.Requested?
    ensures ConnInv(cfg, HostReacts(cfg, c, heard, rest))
  {
    var d := c.(toHost := rest);
    LogSoundStays(cfg, c, d);
    if Served(cfg, c) {
      ServedStays(cfg, c, d);
    }
    if c.host.Holding? {
      HoldingSaysKeeps(cfg, d, Error(UNEXPECTED, true));
      ClosingKeeps(cfg, d);
    }
  }

  lemma PreparingSaysKeeps(cfg: Config, c: Conn, msg: Msg, next: HostStage)
    requires ConnInv(cfg, c) && IsClient(c) && c.host.Preparing?
    requires
      || (msg.Progress? && next == c.host)
      || (msg == Serving(c.host.map_) && next == Holding(c.host.map_))
      || (msg.Error? && next == Finished)
    ensures ConnInv(cfg, HostSays(c, msg).(host := next))
  {
    var c' := HostSays(c, msg).(host := next);
    var k := |c.log|;
    if c.returned || Served(cfg, c) {
      ServedMeansHoldingOrOver(cfg, c);
    }
    assert c'.log[..k] == c.log;
    AskedButNotServing(cfg, c, c.log);
    if msg.Serving? {
      assert ServedAfter(cfg, c', k);
    } else if msg.Progress? {
      assert c'.log[..3] == c.log[..3];
      assert c'.log[3..] == c.log[3..] + [FromHost(msg)];
    }
    LogSoundGrows(cfg, c, c', FromHost(msg));
  }

  lemma HoldingSaysKeeps(cfg: Config, c: Conn, msg: Msg)
    requires ConnInv(cfg, c) && IsClient(c) && c.host.Holding? && (msg.Bye? || msg.Error?)
    ensures ConnInv(cfg, HostSays(c, msg).(host := Finished))
  {
    var c' := HostSays(c, msg).(host := Finished);
    ServedStays(cfg, c, c');
    if c.traffic.AwaitingWelcome? {
      NotServedBeforeAsking(cfg, c);
    }
    LogSoundGrows(cfg, c, c', FromHost(msg));
  }

  lemma HostRunsKeeps(cfg: Config, c: Conn, c': Conn)
    requires ConnInv(cfg, c) && IsClient(c) && HostRuns(c, c')
    ensures ConnInv(cfg, c')
  {
    if c.host.Preparing? {
      if stage, text :| c' == HostSays(c, Progress(stage, text)) {
        PreparingSaysKeeps(cfg, c, Progress(stage, text), c.host);
      } else if why, retryable :| c' == HostSays(c, Error(why, retryable)).(host := Finished) {
        PreparingSaysKeeps(cfg, c, Error(why, retryable), Finished);
      } else {
        PreparingSaysKeeps(cfg, c, Serving(c.host.map_), Holding(c.host.map_));
      }
    } else if why, retryable :| c' == HostSays(c, Error(why, retryable)).(host := Finished) {
      HoldingSaysKeeps(cfg, c, Error(why, retryable));
    } else {
      var why :| c' == HostSays(c, Bye(why)).(host := Finished);
      HoldingSaysKeeps(cfg, c, Bye(why));
    }
  }

  lemma ConnStepKeeps(cfg: Config, c: Conn, c': Conn)
    requires ConnInv(cfg, c) && (TrafficStep(cfg, c, c') || (Active(c.host) && HostStep(cfg, c, c')))
    ensures ConnInv(cfg, c')
  {
    if !IsClient(c) {
      assert !IsClient(c');
    } else if TrafficReads(cfg, c, c') {
      var heard, rest :|
        MayHear(c.toTraffic, c.host.Finished? || c.cut, heard, rest) && c' == TrafficReacts(cfg, c, heard, rest);
      if c.traffic.AwaitingWelcome? {
        HearingHelloAnswerKeeps(cfg, c, heard, rest);
      } else if c.traffic.Waiting? {
        HearingWhileWaitingKeeps(cfg, c, heard, rest);
      }
    } else if TrafficActs(c, c') || Severed(c, c') {
      TrafficActsKeeps(cfg, c, c');
    } else if HostReads(cfg, c, c') {
      var heard, rest :|
        MayHear(c.toHost, TrafficClosed(c) || c.cut, heard, rest) && c' == HostReacts(cfg, c, heard, rest);
      if c.host.Greeting? || c.host.Requested? {
        HandshakeKeeps(cfg, c, heard, rest);
      } else {
        HoldingReadsKeeps(cfg, c, heard, rest);
      }
    } else if HostRuns(c, c') {
      HostRunsKeeps(cfg, c, c');
    } else {
      ClosingKeeps(cfg, c);
    }
  }

  lemma ClosingKeeps(cfg: Config, c: Conn)
    requires ConnInv(cfg, c)
    ensures ConnInv(cfg, c.(host := Finished))
  {
    var c' := c.(host := Finished);
    if Served(cfg, c) {
      ServedStays(cfg, c, c');
    }
  }

  lemma DiallingKeeps(cfg: Config, c: Conn)
    requires Dialled(c)
    ensures ConnInv(cfg, c) && !Active(c.host)
  {
    if IsClient(c) {
      assert c.log == Opening(cfg, c)[..1];
      assert c.toHost <= [Hello(c.proto)];
    }
  }

  lemma AcceptingKeeps(cfg: Config, c: Conn)
    requires ConnInv(cfg, c) && c.host.Queued?
    ensures ConnInv(cfg, c.(host := Greeting))
  {
    LogSoundStaysServed(cfg, c, c.(host := Greeting));
  }

  lemma LogSoundStaysServed(cfg: Config, c: Conn, c': Conn)
    requires c' == c.(host := c'.host)
    ensures Served(cfg, c) == Served(cfg, c')
  {
    if Served(cfg, c) { ServedStays(cfg, c, c'); }
    if Served(cfg, c') { ServedStays(cfg, c', c); }
  }

  lemma StageAfterStep(cfg: Config, c: Conn, c': Conn)
    ensures TrafficStep(cfg, c, c') ==> c'.host == c.host
    ensures HostStep(cfg, c, c') && Active(c.host) ==> Active(c'.host) || c'.host.Finished?
  {
  }

  /** Replacing one connection keeps the invariant when the host's activity is accounted for. */
  lemma ReplacingKeeps(cfg: Config, s: State, id: nat, c: Conn, host: HostPc)
    requires Inv(cfg, s) && ConnInv(cfg, c)
    requires host == s.host || (s.host.Listening? && host == On(id)) || (s.host == On(id) && host.Listening?)
    requires Active(c.host) <==> host == On(id)
    ensures Inv(cfg, State(s.conns[id := c], host))
  {
  }

  lemma NextKeeps(cfg: Config, s: State, s': State)
    requires Inv(cfg, s) && Next(cfg, s, s')
    ensures Inv(cfg, s')
  {
    if id: nat, c: Conn :| Dials(s, s', id, c) {
      DiallingKeeps(cfg, c);
      ReplacingKeeps(cfg, s, id, c, s.host);
    } else if id: nat, c: Conn :| PeerMoves(cfg, s, s', id, c) {
      StageAfterStep(cfg, s.conns[id], c);
      ConnStepKeeps(cfg, s.conns[id], c);
      ReplacingKeeps(cfg, s, id, c, s.host);
    } else if id: nat :| Accepts(s, s', id) {
      AcceptingKeeps(cfg, s.conns[id]);
      ReplacingKeeps(cfg, s, id, s.conns[id].(host := Greeting), On(id));
    } else if id: nat, c: Conn :| HostMoves(cfg, s, s', id, c) {
      StageAfterStep(cfg, s.conns[id], c);
      ConnStepKeeps(cfg, s.conns[id], c);
      ReplacingKeeps(cfg, s, id, c, s'.host);
    } else if id: nat :| Drops(s, s', id) {
      ClosingKeeps(cfg, s.conns[id]);
      ReplacingKeeps(cfg, s, id, s.conns[id].(host := Finished), s.host);
    } else {
      forall id | id in s.conns ensures ConnInv(cfg, s.conns[id].(host := Finished)) {
        ClosingKeeps(cfg, s.conns[id]);
      }
    }
  }

  lemma {:induction false} RunKeepsInv(cfg: Config, run: seq<State>, k: nat)
    requires IsRun(cfg, run) && k < |run|
    ensures Inv(cfg, run[k])
  {
    if k > 0 {
      RunKeepsInv(cfg, run, k - 1);
      NextKeeps(cfg, run[k - 1], run[k]);
    }
  }

  // ------------------------------------------------------------- what every run keeps

  /** ask_peer_to_serve returns a socket only for a connection whose record is HELLO, WELCOME with
      this side's own protocol number, SERVE for the map it wants, progress, and SERVING for the
      map that request stands for, sent on entering hold_carla. Whatever else is said, lost or
      closed, on this connection or others, cannot make it return. */
  lemma ReturnedSocketWasServed(cfg: Config, run: seq<State>, k: nat, id: nat)
    requires IsRun(cfg, run) && k < |run| && id in run[k].conns
    requires IsClient(run[k].conns[id]) && run[k].conns[id].returned
    ensures run[k].conns[id].proto == cfg.hostProto
    ensures exists n: nat :: ServedAfter(cfg, run[k].conns[id], n)
  {
    RunKeepsInv(cfg, run, k);
  }

  /** One CARLA never serves two co-simulations: of the traffic sides that are running, at most one
      still has the host's end of its connection open, and it is the one the host is holding. */
  lemma ServesOneAtATime(cfg: Config, run: seq<State>, k: nat, i: nat, j: nat)
    requires IsRun(cfg, run) && k < |run| && i in run[k].conns && j in run[k].conns
    requires run[k].conns[i].traffic.Running? && !run[k].conns[i].host.Finished?
    requires run[k].conns[j].traffic.Running? && !run[k].conns[j].host.Finished?
    ensures i == j && run[k].host == On(i) && run[k].conns[i].host.Holding?
  {
    RunKeepsInv(cfg, run, k);
    ServedMeansHoldingOrOver(cfg, run[k].conns[i]);
    ServedMeansHoldingOrOver(cfg, run[k].conns[j]);
  }

  /** hold_carla starts a fresh Reader on the socket await_peer was reading. Nothing is lost: from a
      traffic side's SERVE until SERVING it has sent nothing that could be left in the old buffer. */
  lemma FreshReaderLosesNothing(cfg: Config, run: seq<State>, k: nat, id: nat)
    requires IsRun(cfg, run) && k < |run| && id in run[k].conns
    requires IsClient(run[k].conns[id]) && run[k].conns[id].host.Preparing?
    ensures run[k].conns[id].toHost == []
    ensures forall e :: e in run[k].conns[id].log && e.FromTraffic? ==>
              e.msg == Hello(run[k].conns[id].proto) || e.msg == Serve(run[k].conns[id].wanted)
  {
    RunKeepsInv(cfg, run, k);
    AskedButNotServing(cfg, run[k].conns[id], run[k].conns[id].log);
  }

  /** With a different protocol number on the two machines no traffic side ever gets past HELLO. */
  lemma MismatchedBuildsNeverRun(cfg: Config, run: seq<State>, k: nat, id: nat)
    requires IsRun(cfg, run) && k < |run| && id in run[k].conns
    requires IsClient(run[k].conns[id]) && run[k].conns[id].proto != cfg.hostProto
    ensures run[k].conns[id].traffic.AwaitingWelcome? || run[k].conns[id].traffic.Exited?
    ensures !run[k].conns[id].returned
  {
    RunKeepsInv(cfg, run, k);
  }

  /** One step takes a traffic side into a run: SERVING is the next message it has, and it hears it. */
  predicate HearsServing(c: Conn, c': Conn) {
    c.traffic.Waiting? && c.toTraffic != [] && c.toTraffic[0].Serving? && c'.traffic.Running? && c'.returned
  }

  predicate Asking(c: Conn) {
    c.traffic.AwaitingWelcome? || c.traffic.Waiting?
  }

  /** Only a SERVING takes a traffic side out of the handshake or the wait into a run; an exit is for good. */
  lemma OnlyServingEndsTheWait(cfg: Config, c: Conn, c': Conn)
    requires IsClient(c) && TrafficStep(cfg, c, c')
    ensures IsClient(c') && (c.traffic.Exited? ==> c'.traffic.Exited?)
    ensures Asking(c) ==> Asking(c') || c'.traffic.Exited? || HearsServing(c, c')
    ensures c.traffic.Running? ==> c'.traffic.Running? || c'.traffic.Exited?
  {
  }

  lemma HostLeavesTraffic(cfg: Config, c: Conn, c': Conn)
    requires HostStep(cfg, c, c')
    ensures c'.traffic == c.traffic
  {
  }

  /** A step of the whole leaves a traffic side where it is, or is a step of its own. */
  lemma OneSideMoves(cfg: Config, s: State, s': State, id: nat)
    requires Next(cfg, s, s') && id in s.conns
    ensures id in s'.conns
    ensures s'.conns[id].traffic == s.conns[id].traffic || TrafficStep(cfg, s.conns[id], s'.conns[id])
  {
    hide TrafficStep, HostStep, Dialled;
    if i: nat, c: Conn :| HostMoves(cfg, s, s', i, c) {
      HostLeavesTraffic(cfg, s.conns[i], c);
    }
  }

  /** One step of the whole, seen from one traffic side. */
  lemma OneStepOfTraffic(cfg: Config, s: State, s': State, id: nat)
    requires Next(cfg, s, s') && id in s.conns && IsClient(s.conns[id])
    ensures id in s'.conns && IsClient(s'.conns[id])
    ensures s.conns[id].traffic.Exited? ==> s'.conns[id].traffic.Exited?
    ensures Asking(s.conns[id]) ==>
              || Asking(s'.conns[id]) || s'.conns[id].traffic.Exited? || HearsServing(s.conns[id], s'.conns[id])
  {
    hide Next, TrafficStep;
    OneSideMoves(cfg, s, s', id);
    if TrafficStep(cfg, s.conns[id], s'.conns[id]) {
      OnlyServingEndsTheWait(cfg, s.conns[id], s'.conns[id]);
    }
  }

  /** Between two moments of a run, traffic side `id` hears SERVING while it waits. */
  ghost predicate HearsServingBetween(run: seq<State>, j: nat, k: nat, id: nat) {
    exists i :: j <= i < k < |run| && id in run[i].conns && id in run[i + 1].conns
                && HearsServing(run[i].conns[id], run[i + 1].conns[id])
  }

  /** What a traffic side that is asking can come to, in any run: it goes on asking, it hears SERVING and
      returns the socket, or it exits; and an exit is for good. */
  lemma {:induction false} EveryOtherEndingExits(cfg: Config, run: seq<State>, j: nat, k: nat, id: nat)
    requires IsRun(cfg, run) && j <= k < |run| && id in run[j].conns && IsClient(run[j].conns[id])
    ensures id in run[k].conns && IsClient(run[k].conns[id])
    ensures run[j].conns[id].traffic.Exited? ==> run[k].conns[id].traffic.Exited?
    ensures Asking(run[j].conns[id]) ==>
              Asking(run[k].conns[id]) || run[k].conns[id].traffic.Exited? || HearsServingBetween(run, j, k, id)
    decreases k
  {
    if j < k {
      hide Next, Asking, HearsServing, IsClient;
      EveryOtherEndingExits(cfg, run, j, k - 1, id);
      assert Next(cfg, run[k - 1], run[k]);
      OneStepOfTraffic(cfg, run[k - 1], run[k], id);
      if HearsServing(run[k - 1].conns[id], run[k].conns[id]) {
        assert run[k - 1 + 1] == run[k];
      }
    }
  }
}
