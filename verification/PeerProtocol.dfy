/** The control protocol between the traffic machine, which dials, and the CARLA host, which listens:
    HELLO, WELCOME, SERVE, any number of PROGRESS, SERVING. */
module PeerProtocol {
  import opened Common

  type MapName = string

  /** A JSON value: the `t` field of an object with the fields that decide something; `Other` is any other
      object. `Null` is what `read` returns as None, and `Bare` every other value, of which false, 0, "" and
      the empty list are not truthy. */
  datatype Msg =
    | Hello(proto: int)
    | Welcome(proto: int)
    | Busy(why: string)
    | Serve(wanted: MapName)            // "" when the request names no map
    | Progress(stage: string, text: string)
    | Serving(served: MapName)
    | Error(why: string, retryable: bool)
    | Bye(why: string)
    | Other
    | Null
    | Bare(truthy: bool)

  /** What one read on the control socket comes to: a message, PeerError (a timeout, or a line that is
      not JSON), or None. */
  datatype Heard = Said(msg: Msg) | PeerError | HungUp

  /** The None of `read`: the peer has closed, or it said null. */
  predicate IsNone(h: Heard) {
    h == HungUp || h == Said(Null)
  }

  /** `msg.get("t")` raises on it, and nothing catches that. */
  predicate HasNoGet(h: Heard) {
    h.Said? && h.msg.Bare?
  }

  // ------------------------------------------------------------ the traffic side

  datatype TrafficPc = AwaitingWelcome | Waiting(waited: real) | Running | Exited | Stranger | StrangerGone

  const SLICE: real := 5.0

  /** hello(): anything but a WELCOME with the same protocol number ends the attempt, and the process. */
  function AfterHello(proto: int, heard: Heard): TrafficPc {
    if heard == Said(Welcome(proto)) then Waiting(0.0) else Exited
  }

  /** One turn of the waiting loop. Objects it does not know are skipped. */
  function WhileWaiting(waited: real, prepTimeout: real, heard: Heard): TrafficPc {
    match heard
    case PeerError => if waited + SLICE >= prepTimeout then Exited else Waiting(waited + SLICE)
    case HungUp => Exited
    case Said(msg) =>
      if msg.Serving? then Running
      else if msg.Error? || msg.Null? || msg.Bare? then Exited
      else Waiting(waited)
  }

  /** One end of a control connection as its owner sees it: what it will hear, what it has said. */
  class Link {
    var incoming: seq<Heard>
    var sent: seq<Msg>
    var closed: bool

    constructor (incoming: seq<Heard>)
      ensures this.incoming == incoming && sent == [] && !closed
    {
      this.incoming, sent, closed := incoming, [], false;
    }

    /** After the last thing to be heard the other end has hung up. */
    method Hear() returns (heard: Heard)
      modifies this`incoming
      ensures old(incoming) == [] ==> heard == HungUp && incoming == []
      ensures old(incoming) != [] ==> heard == old(incoming)[0] && incoming == old(incoming)[1..]
    {
      if incoming == [] {
        return HungUp;
      }
      heard, incoming := incoming[0], incoming[1..];
    }

    method Say(msg: Msg)
      modifies this`sent
      ensures sent == old(sent) + [msg]
    {
      sent := sent + [msg];
    }

    method Close()
      modifies this`closed
      ensures closed
    {
      closed := true;
    }
  }

  /** Crashed: an exception that is neither caught nor an exit. */
  datatype AskResult = Connected | NoPeer | Exit | Crashed

  function CountErrors(heard: seq<Heard>): nat {
    if heard == [] then 0 else CountErrors(heard[..|heard| - 1]) + if heard[|heard| - 1] == PeerError then 1 else 0
  }

  /** Heard while waiting, this ends the wait one way or the other. */
  predicate Decides(h: Heard) {
    IsNone(h) || HasNoGet(h) || (h.Said? && (h.msg.Serving? || h.msg.Error?))
  }

  predicate Greeted(incoming: seq<Heard>, proto: int) {
    incoming != [] && incoming[0] == Said(Welcome(proto))
  }

  /** The wait survives everything heard between WELCOME and position `k`. */
  ghost predicate StillWaitingAt(incoming: seq<Heard>, proto: int, prepTimeout: real, k: nat) {
    && 0 < k <= |incoming|
    && incoming[0] == Said(Welcome(proto))
    && (forall j :: 0 < j < k ==> !Decides(incoming[j]))
    && (CountErrors(incoming[1..k]) > 0 ==> SLICE * CountErrors(incoming[1..k]) as real < prepTimeout)
  }

  ghost predicate ServedAt(incoming: seq<Heard>, proto: int, prepTimeout: real, k: nat) {
    && k < |incoming|
    && StillWaitingAt(incoming, proto, prepTimeout, k)
    && incoming[k].Said? && incoming[k].msg.Serving?
  }

  /** The value that cannot be asked for its `t` comes as the answer to HELLO, or while waiting. */
  ghost predicate CrashesAt(incoming: seq<Heard>, proto: int, prepTimeout: real, k: nat) {
    && k < |incoming|
    && (k == 0 || StillWaitingAt(incoming, proto, prepTimeout, k))
    && HasNoGet(incoming[k])
  }

  lemma ErrorsNeverDecrease(heard: seq<Heard>, j: nat, k: nat)
    requires j <= k <= |heard|
    ensures CountErrors(heard[..j]) <= CountErrors(heard[..k])
    decreases k
  {
    if j < k {
      assert heard[..k][..k - 1] == heard[..k - 1];
      ErrorsNeverDecrease(heard, j, k - 1);
    }
  }

  lemma WaitedAllAlong(incoming: seq<Heard>, proto: int, prepTimeout: real, k: nat, j: nat)
    requires 0 < k <= j && StillWaitingAt(incoming, proto, prepTimeout, j)
    ensures StillWaitingAt(incoming, proto, prepTimeout, k)
  {
    ErrorsNeverDecrease(incoming[1..], k - 1, j - 1);
    assert incoming[1..][..k - 1] == incoming[1..k] && incoming[1..][..j - 1] == incoming[1..j];
  }

  /** A wait that is still on at `k` and over after it was served at `k` or never. */
  lemma OverAfter(incoming: seq<Heard>, proto: int, prepTimeout: real, k: nat)
    requires StillWaitingAt(incoming, proto, prepTimeout, k)
    requires !StillWaitingAt(incoming, proto, prepTimeout, k + 1)
    ensures forall j: nat :: ServedAt(incoming, proto, prepTimeout, j) ==> j == k
    ensures forall j: nat :: CrashesAt(incoming, proto, prepTimeout, j) ==> j == k
  {
    forall j: nat | ServedAt(incoming, proto, prepTimeout, j) || CrashesAt(incoming, proto, prepTimeout, j)
      ensures j == k
    {
      if j > k {
        WaitedAllAlong(incoming, proto, prepTimeout, k + 1, j);
      }
    }
  }

  lemma OneMoreError(incoming: seq<Heard>, k: nat)
    requires 0 < k < |incoming|
    ensures CountErrors(incoming[1..k + 1]) == CountErrors(incoming[1..k]) + if incoming[k] == PeerError then 1 else 0
  {
    assert incoming[1..k + 1] == incoming[1..k] + [incoming[k]];
  }

  /** What the next thing heard does to a wait that is on at `k`. */
  lemma HearingNext(incoming: seq<Heard>, proto: int, prepTimeout: real, k: nat)
    requires StillWaitingAt(incoming, proto, prepTimeout, k)
    ensures var heard := if k < |incoming| then incoming[k] else HungUp;
            var pc := WhileWaiting(SLICE * CountErrors(incoming[1..k]) as real, prepTimeout, heard);
            if pc.Waiting? then
              && k < |incoming| && StillWaitingAt(incoming, proto, prepTimeout, k + 1) && !HasNoGet(heard)
              && pc == Waiting(SLICE * CountErrors(incoming[1..k + 1]) as real)
            else
              && (HasNoGet(heard) ==> pc == Exited)
              && (pc == Running <==> exists j: nat :: ServedAt(incoming, proto, prepTimeout, j))
              && (HasNoGet(heard) <==> exists j: nat :: CrashesAt(incoming, proto, prepTimeout, j))
  {
    if k < |incoming| {
      OneMoreError(incoming, k);
      if !StillWaitingAt(incoming, proto, prepTimeout, k + 1) {
        OverAfter(incoming, proto, prepTimeout, k);
        assert CrashesAt(incoming, proto, prepTimeout, k) <==> HasNoGet(incoming[k]);
        assert ServedAt(incoming, proto, prepTimeout, k) <==> incoming[k].Said? && incoming[k].msg.Serving?;
      }
    } else {
      OverAfter(incoming, proto, prepTimeout, k);
    }
  }

  /** The answer to HELLO ends the attempt, or the wait begins. */
  lemma HearingTheAnswer(incoming: seq<Heard>, proto: int, prepTimeout: real)
    ensures var heard := if incoming != [] then incoming[0] else HungUp;
            if AfterHello(proto, heard).Waiting? then
              Greeted(incoming, proto) && StillWaitingAt(incoming, proto, prepTimeout, 1)
              && CountErrors(incoming[1..1]) == 0 && !HasNoGet(heard)
            else
              && !Greeted(incoming, proto)
              && (forall j: nat :: !ServedAt(incoming, proto, prepTimeout, j))
              && (HasNoGet(heard) <==> exists j: nat :: CrashesAt(incoming, proto, prepTimeout, j))
  {
    if incoming != [] && HasNoGet(incoming[0]) {
      assert CrashesAt(incoming, proto, prepTimeout, 0);
    }
  }

  /** The waiting loop, after WELCOME. */
  method WaitForServing(link: Link, proto: int, prepTimeout: real, ghost incoming: seq<Heard>) returns (r: AskResult)
    requires StillWaitingAt(incoming, proto, prepTimeout, 1) && link.incoming == incoming[1..] && !link.closed
    modifies link`incoming, link`closed
    ensures r != NoPeer && link.closed == (r == Exit)
    ensures r == Connected <==> exists k: nat :: ServedAt(incoming, proto, prepTimeout, k)
    ensures r == Crashed <==> exists k: nat :: CrashesAt(incoming, proto, prepTimeout, k)
  {
    hide ServedAt, CrashesAt, StillWaitingAt, CountErrors, WhileWaiting;
    ghost var k: nat := 1;
    var waited := 0.0;
    NoErrorsYet(incoming, proto, prepTimeout);
    while true
      invariant !link.closed && StillWaitingAt(incoming, proto, prepTimeout, k)
      invariant k <= |incoming| && link.incoming == incoming[k..]
      invariant waited == SLICE * CountErrors(incoming[1..k]) as real
      decreases |incoming| - k
    {
      var heard := link.Hear();
      HearingNext(incoming, proto, prepTimeout, k);
      var pc := WhileWaiting(waited, prepTimeout, heard);
      if HasNoGet(heard) {
        return Crashed;
      }
      match pc {
        case Running => return Connected;
        case Waiting(longer) => waited := longer;
        case _ =>
          link.Close();
          return Exit;
      }
      k := k + 1;
    }
  }

  lemma NoErrorsYet(incoming: seq<Heard>, proto: int, prepTimeout: real)
    requires StillWaitingAt(incoming, proto, prepTimeout, 1)
    ensures |incoming| >= 1 && CountErrors(incoming[1..1]) == 0
  {
  }

  /** Tell the CARLA host what to serve and wait for it. `link` is null when nobody answered the dial. */
  method AskPeerToServe(link: Link?, proto: int, wanted: MapName, prepTimeout: real, allowManual: bool)
    returns (r: AskResult)
    requires link != null ==> link.sent == [] && !link.closed
    modifies if link == null then {} else {link}
    ensures r == NoPeer <==> link == null && allowManual
    ensures r == Connected <==> link != null && exists k: nat :: ServedAt(old(link.incoming), proto, prepTimeout, k)
    ensures r == Crashed <==> link != null && exists k: nat :: CrashesAt(old(link.incoming), proto, prepTimeout, k)
    ensures link != null ==>
              && link.closed == (r == Exit)
              && link.sent == [Hello(proto)] + if Greeted(old(link.incoming), proto) then [Serve(wanted)] else []
  {
    hide ServedAt, CrashesAt, StillWaitingAt, CountErrors, Greeted;
    if link == null {
      return if allowManual then NoPeer else Exit;
    }
    ghost var incoming := link.incoming;
    link.Say(Hello(proto));
    var heard := link.Hear();
    HearingTheAnswer(incoming, proto, prepTimeout);
    if HasNoGet(heard) {
      return Crashed;
    }
    if AfterHello(proto, heard) == Exited {
      link.Close();
      return Exit;
    }
    link.Say(Serve(wanted));
    r := WaitForServing(link, proto, prepTimeout, incoming);
  }

  // --------------------------------------------------------- how long a silence may last

  /** The wait is given up at `k`, for silence. */
  ghost predicate GivesUpAt(incoming: seq<Heard>, proto: int, prepTimeout: real, k: nat) {
    && StillWaitingAt(incoming, proto, prepTimeout, k) && k < |incoming| && incoming[k] == PeerError
    && !StillWaitingAt(incoming, proto, prepTimeout, k + 1)
  }

  /** The silence that is still on at `k` began at `i`. */
  predicate SilentSince(incoming: seq<Heard>, i: nat, k: nat)
    requires 0 < i <= k < |incoming|
  {
    (forall j :: i <= j <= k ==> incoming[j] == PeerError) && (i == 1 || incoming[i - 1] != PeerError)
  }

  lemma {:induction false} ErrorsSince(incoming: seq<Heard>, i: nat, n: nat)
    requires 0 < i <= n <= |incoming| && forall j :: i <= j < n ==> incoming[j] == PeerError
    ensures CountErrors(incoming[1..n]) == CountErrors(incoming[1..i]) + (n - i)
    decreases n
  {
    if i < n {
      ErrorsSince(incoming, i, n - 1);
      OneMoreError(incoming, n - 1);
    }
  }

  lemma {:induction false} NoErrorsCounted(incoming: seq<Heard>, i: nat)
    requires 0 < i <= |incoming|
    ensures CountErrors(incoming[1..i]) == 0 <==> forall j :: 0 < j < i ==> incoming[j] != PeerError
    decreases i
  {
    if i == 1 {
      assert incoming[1..1] == [];
    } else {
      NoErrorsCounted(incoming, i - 1);
      OneMoreError(incoming, i - 1);
    }
  }

  /** Giving up, the silence that ended the wait has lasted the preparation timeout exactly when it was the
      first: earlier ones are counted too, whatever was heard in between. */
  lemma GivesUpEarlyUnlessFirstSilence(incoming: seq<Heard>, proto: int, prepTimeout: real, i: nat, k: nat)
    requires GivesUpAt(incoming, proto, prepTimeout, k) && 0 < i <= k && SilentSince(incoming, i, k)
    ensures 5.0 * (k + 1 - i) as real >= prepTimeout <==> forall j :: 0 < j < i ==> incoming[j] != PeerError
  {
    ErrorsSince(incoming, i, k);
    ErrorsSince(incoming, i, k + 1);
    NoErrorsCounted(incoming, i);
  }

  const TWO_SLICES: real := 10.0

  /** Two silences of one slice each, with a progress report in between. */
  const TWO_SILENCES: seq<Heard> :=
    [Said(Welcome(1)), PeerError, Said(Progress("cook", "half way")), PeerError, Said(Serving("m"))]

  /** A timeout of two slices gives up on it, although no silence lasted that long, and never hears SERVING. */
  lemma GivesUpOnProgress()
    ensures GivesUpAt(TWO_SILENCES, 1, TWO_SLICES, 3) && SilentSince(TWO_SILENCES, 3, 3)
    ensures forall k: nat :: !ServedAt(TWO_SILENCES, 1, TWO_SLICES, k)
  {
    OneMoreError(TWO_SILENCES, 1);
    OneMoreError(TWO_SILENCES, 2);
    OneMoreError(TWO_SILENCES, 3);
    assert TWO_SILENCES[1..1] == [];
    OverAfter(TWO_SILENCES, 1, TWO_SLICES, 3);
  }

  // ------------------------------------------------------------ the CARLA host

  /** What the host does with a connection. */
  datatype HostStage =
    | Queued                      // in the listening socket's backlog
    | Greeting                    // accepted, reading HELLO
    | Requested                   // WELCOME sent, reading SERVE
    | Preparing(map_: MapName)    // launching CARLA, cooking, loading
    | Holding(map_: MapName)      // in hold_carla, SERVING sent
    | Finished

  /** The map to serve: the peer's, else this host's own --carla-map; "" when there is neither. */
  function MapToServe(wanted: MapName, fallback: MapName): MapName {
    if wanted != "" then wanted else fallback
  }

  const NO_MAP := "SERVE carried no map, and this host has no --carla-map to fall back on"

  /** `not msg` lets it through, and `msg.get` raises. */
  predicate CrashesHost(heard: Heard) {
    HasNoGet(heard) && heard.msg.truthy
  }

  /** What the host says and where the connection goes when it hears something in the handshake. */
  function HostHandshake(stage: HostStage, proto: int, fallback: MapName, heard: Heard): (res: (seq<Msg>, HostStage))
    requires stage.Greeting? || stage.Requested?
  {
    if CrashesHost(heard) then ([], Finished)
    else if stage.Greeting? then
      if heard == PeerError then ([], Finished)
      else if heard.Said? && heard.msg.Hello? then ([Welcome(proto)], Requested)
      else ([Error("expected HELLO", false)], Finished)
    else
      if !(heard.Said? && heard.msg.Serve?) then ([], Finished)
      else
        var target := MapToServe(heard.msg.wanted, fallback);
        if target == "" then ([Error(NO_MAP, false)], Finished)
        else ([], Preparing(target))
  }

  /** The map a connection asks for in the handshake, "" when it does not get that far. */
  function RequestedMap(heard: seq<Heard>, fallback: MapName): MapName {
    if |heard| >= 2 && heard[0].Said? && heard[0].msg.Hello? && heard[1].Said? && heard[1].msg.Serve?
    then if heard[1].msg.wanted != "" then heard[1].msg.wanted else fallback
    else ""
  }

  /** HELLO, and then a request for a map that it names, or that this host has. */
  predicate AsksForAMap(heard: seq<Heard>, fallback: MapName) {
    |heard| >= 2 && heard[0].Said? && heard[0].msg.Hello? && heard[1].Said? && heard[1].msg.Serve?
    && (heard[1].msg.wanted != "" || fallback != "")
  }

  /** What is said to each thing heard in the handshake, and where the connection goes. */
  lemma WhatTheHostAnswers(proto: int, fallback: MapName, heard: Heard)
    ensures HostHandshake(Greeting, proto, fallback, heard) ==
            if heard == PeerError || heard == Said(Bare(true)) then ([], Finished)
            else if heard.Said? && heard.msg.Hello? then ([Welcome(proto)], Requested)
            else ([Error("expected HELLO", false)], Finished)
    ensures HostHandshake(Requested, proto, fallback, heard) ==
            if heard.Said? && heard.msg.Serve? then
              if heard.msg.wanted != "" then ([], Preparing(heard.msg.wanted))
              else if fallback != "" then ([], Preparing(fallback))
              else ([Error("SERVE carried no map, and this host has no --carla-map to fall back on", false)], Finished)
            else ([], Finished)
  {
  }

  /** The connection says something in the handshake that ends await_peer by an exception. */
  predicate EndsAwait(heard: seq<Heard>) {
    heard != [] && (CrashesHost(heard[0]) ||
                    (|heard| >= 2 && heard[0].Said? && heard[0].msg.Hello? && CrashesHost(heard[1])))
  }

  /** What a connection that asks for no known map is told before it is closed. One that stays silent,
      or says something that is not JSON, is told nothing more. */
  function RefusalTo(heard: seq<Heard>, proto: int): seq<Msg> {
    if heard != [] && heard[0] == PeerError then []
    else if heard == [] || heard[0] == HungUp || !heard[0].msg.Hello? then [Error("expected HELLO", false)]
    else if |heard| >= 2 && heard[1].Said? && heard[1].msg.Serve? then [Welcome(proto), Error(NO_MAP, false)]
    else [Welcome(proto)]
  }

  /** Told what is wrong: whoever does not open with HELLO, and whoever asks for no map when the host has none.
      Not told: whoever stays silent or talks no JSON, or goes after WELCOME without asking. */
  lemma WhatTheRefusedAreTold(heard: seq<Heard>, proto: int)
    ensures var told := RefusalTo(heard, proto);
            && (heard == [] ==> told == [Error("expected HELLO", false)])
            && (heard != [] && heard[0] == PeerError ==> told == [])
            && (heard != [] && heard[0] == HungUp ==> told == [Error("expected HELLO", false)])
            && (heard != [] && heard[0].Said? && !heard[0].msg.Hello? ==> told == [Error("expected HELLO", false)])
            && (|heard| >= 2 && heard[0].Said? && heard[0].msg.Hello? && heard[1] == Said(Serve("")) ==>
                  told == [Welcome(proto), Error(
                    "SERVE carried no map, and this host has no --carla-map to fall back on", false)])
            && (|heard| == 1 && heard[0].Said? && heard[0].msg.Hello? ==> told == [Welcome(proto)])
            && (|heard| >= 2 && heard[0].Said? && heard[0].msg.Hello? && !(heard[1].Said? && heard[1].msg.Serve?) ==>
                  told == [Welcome(proto)])
  {
  }

  datatype Reception = Takes(target: MapName) | Refuses | Crashes

  /** One accepted connection, up to its request. */
  method Greet(link: Link, proto: int, fallback: MapName) returns (r: Reception)
    requires link.sent == [] && !link.closed
    modifies link
    ensures r.Crashes? <==> EndsAwait(old(link.incoming))
    ensures r.Takes? <==> RequestedMap(old(link.incoming), fallback) != ""
    ensures r.Takes? <==> AsksForAMap(old(link.incoming), fallback)
    ensures r.Crashes? ==> !link.closed && link.sent <= [Welcome(proto)]
    ensures r.Refuses? ==> link.closed && link.sent == RefusalTo(old(link.incoming), proto)
    ensures r.Takes? ==>
              && r.target == RequestedMap(old(link.incoming), fallback)
              && r.target == (if old(link.incoming[1].msg.wanted) != "" then old(link.incoming[1].msg.wanted)
                              else fallback)
              && !link.closed && link.sent == [Welcome(proto)] && link.incoming == old(link.incoming)[2..]
  {
    var heard := link.Hear();
    if CrashesHost(heard) {
      return Crashes;
    }
    var (reply, stage) := HostHandshake(Greeting, proto, fallback, heard);
    if reply != [] {
      link.Say(reply[0]);
    }
    if stage == Requested {
      heard := link.Hear();
      if CrashesHost(heard) {
        return Crashes;
      }
      var (refusal, next) := HostHandshake(Requested, proto, fallback, heard);
      if next.Preparing? {
        return Takes(next.map_);
      }
      if refusal != [] {
        link.Say(refusal[0]);
      }
    }
    link.Close();
    return Refuses;
  }

  datatype AwaitResult = Chosen(n: nat, target: MapName) | StillListening | Raised(n: nat)

  /** The one connection the host settles on: the first to say HELLO and then ask for a map that is
      known. Every earlier one is told what is wrong, or nothing when it fell silent, and closed, and the host
      keeps listening; but one that says a bare value where an object is due ends the listening by an exception. */
  method AwaitPeer(peers: seq<Link>, proto: int, fallback: MapName) returns (r: AwaitResult)
    requires forall i, j :: 0 <= i < j < |peers| ==> peers[i] != peers[j]
    requires forall i :: 0 <= i < |peers| ==> peers[i].sent == [] && !peers[i].closed
    modifies peers
    ensures r.StillListening? || r.n < |peers|
    ensures var end := if r.StillListening? then |peers| else r.n;
            && (forall i :: 0 <= i < end ==>
                  && RequestedMap(old(peers[i].incoming), fallback) == "" && !EndsAwait(old(peers[i].incoming))
                  && peers[i].closed && peers[i].sent == RefusalTo(old(peers[i].incoming), proto))
            && (forall i :: 0 <= i < end ==> !AsksForAMap(old(peers[i].incoming), fallback))
            && (forall i :: end < i < |peers| ==> !peers[i].closed && peers[i].sent == [])
    ensures r.Chosen? ==>
              var link := peers[r.n];
              && !link.closed && link.sent == [Welcome(proto)]
              && r.target == RequestedMap(old(link.incoming), fallback) != ""
              && link.incoming == old(link.incoming)[2..]
    ensures r.Chosen? ==>
              var heard := old(peers[r.n].incoming);
              && |heard| >= 2 && heard[0].Said? && heard[0].msg.Hello? && heard[1].Said? && heard[1].msg.Serve?
              && (heard[1].msg.wanted != "" ==> r.target == heard[1].msg.wanted)
              && (heard[1].msg.wanted == "" ==> r.target == fallback)
    ensures r.Raised? ==>
              EndsAwait(old(peers[r.n].incoming)) && !peers[r.n].closed && peers[r.n].sent <= [Welcome(proto)]
    ensures r.Raised? <==> exists n :: 0 <= n < |peers| && EndsAwait(old(peers[n].incoming)) &&
                                       forall i :: 0 <= i < n ==> RequestedMap(old(peers[i].incoming), fallback) == ""
  {
    hide RequestedMap, EndsAwait, RefusalTo;
    for n := 0 to |peers|
      invariant forall i :: 0 <= i < n ==>
                  && RequestedMap(old(peers[i].incoming), fallback) == "" && !EndsAwait(old(peers[i].incoming))
                  && !AsksForAMap(old(peers[i].incoming), fallback)
                  && peers[i].closed && peers[i].sent == RefusalTo(old(peers[i].incoming), proto)
      invariant forall i :: n <= i < |peers| ==>
                  !peers[i].closed && peers[i].sent == [] && peers[i].incoming == old(peers[i].incoming)
    {
      var reception := Greet(peers[n], proto, fallback);
      match reception {
        case Takes(target) => return Chosen(n, target);
        case Crashes => return Raised(n);
        case Refuses =>
      }
    }
    return StillListening;
  }

  /** A turn of hold_carla's loop: something is heard while CARLA runs, CARLA is found dead, or
      somebody presses Ctrl+C on the host. */
  datatype Turn = Hears(heard: Heard) | CarlaDied | CtrlC

  predicate Releases(t: Turn) {
    t.Hears? && (IsNone(t.heard) || (t.heard.Said? && t.heard.msg.Bye?))
  }

  predicate CrashesHold(t: Turn) {
    t.Hears? && HasNoGet(t.heard)
  }

  /** What hold_carla returns, whatever ended the run. */
  const HELD_RC := 0

  /** Keep CARLA alive for the peer. Every way out returns 0, but for a bare value that raises; after
      `k` turns it is over. The peer is told why when the end comes from this side; when the peer spoke first
      the socket is left open for the caller to drop. `delivered` is whether SERVING could be sent. */
  method HoldCarla(link: Link, target: MapName, delivered: bool, turns: seq<Turn>)
    returns (raised: bool, rc: int, k: nat)
    modifies link
    ensures k <= |turns| && (!raised ==> rc == HELD_RC)
    ensures raised <==> delivered && k < |turns| && CrashesHold(turns[k])
    ensures !delivered ==> k == 0 && link.sent == old(link.sent) && link.closed == old(link.closed)
    ensures delivered ==> forall j :: 0 <= j < k ==> turns[j].Hears? && !Releases(turns[j]) && !CrashesHold(turns[j])
    ensures delivered && (k == |turns| || turns[k].Hears?) ==>
              && link.sent == old(link.sent) + [Serving(target)] && link.closed == old(link.closed)
              && (k < |turns| ==> Releases(turns[k]) || CrashesHold(turns[k]))
    ensures delivered && k < |turns| && !turns[k].Hears? ==>
              var why := if turns[k] == CarlaDied then "CARLA exited on the render host"
                         else "stopped from the render host (Ctrl+C)";
              link.closed && link.sent == old(link.sent) + [Serving(target), Bye(why)]
  {
    raised, rc, k := false, HELD_RC, 0;
    if !delivered {
      return;
    }
    link.Say(Serving(target));
    while k < |turns|
      invariant k <= |turns| && !raised && rc == HELD_RC
      invariant forall j :: 0 <= j < k ==> turns[j].Hears? && !Releases(turns[j]) && !CrashesHold(turns[j])
      invariant link.sent == old(link.sent) + [Serving(target)] && link.closed == old(link.closed)
    {
      match turns[k] {
        case Hears(heard) =>
          if IsNone(heard) {
            return;
          }
          if HasNoGet(heard) {
            raised := true;
            return;
          }
          if heard.Said? && heard.msg.Bye? {
            return;
          }
        case CarlaDied =>
          link.Say(Bye("CARLA exited on the render host"));
          link.Close();
          return;
        case CtrlC =>
          link.Say(Bye("stopped from the render host (Ctrl+C)"));
          link.Close();
          return;
      }
      k := k + 1;
    }
  }

  /** The line `5` on the wire: a value that has no `get`. */
  const FIVE: Heard := Said(Bare(true))

  /** One line of one stranger, in place of HELLO or after it, ends await_peer, which says it refuses such a
      peer and keeps listening. Heard while waiting, or while CARLA is held, it ends that too. */
  lemma AStrangerEndsTheListening()
    ensures EndsAwait([FIVE]) && EndsAwait([Said(Hello(1)), FIVE])
    ensures !EndsAwait([Said(Bare(false))]) && !EndsAwait([Said(Null)])
    ensures CrashesAt([Said(Welcome(1)), FIVE, Said(Serving("m"))], 1, TWO_SLICES, 1) && CrashesHold(Hears(FIVE))
  {
    var heard := [Said(Welcome(1)), FIVE, Said(Serving("m"))];
    assert heard[1..1] == [];
    assert StillWaitingAt(heard, 1, TWO_SLICES, 1);
  }
}
