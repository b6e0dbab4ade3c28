/** --serve as a service: one run after another, one control socket in the slot at a time, every
    failure reported to the peer, and a cap on failures in a row. */
module ServeLoop {
  import opened Common
  import PeerProtocol

  const MAX_CONSECUTIVE_FAILURES: nat := 5

  type Sock = nat

  /** What sys.exit was called with. */
  datatype ExitCode = NoCode | Status(status: int) | Words(words: string)

  /** How main() ended. */
  datatype Ending = Interrupt | SystemExit(code: ExitCode) | Crash(repr: string) | Returns(rc: int)

  /** One turn of the loop: the peer whose socket await_peer put in the slot, if any, and the ending. */
  datatype Run = Run(peer: Option<Sock>, ending: Ending)

  /** The reason sent: a text, "exited with status ...", or "unexpected error ...". */
  datatype Why = Text(text: string) | WithStatus(status: int) | WithRepr(repr: string)

  datatype ErrorSent = ErrorSent(sock: Sock, why: Why, retryable: bool)

  /** The exit status a run counts as. An interrupt ends the service before it is counted. */
  function RcOf(e: Ending): int {
    match e
    case Interrupt => 0
    case SystemExit(NoCode) => 0
    case SystemExit(Status(n)) => n
    case SystemExit(Words(_)) => 1
    case Crash(_) => 1
    case Returns(rc) => rc
  }

  predicate Failed(r: Run) {
    RcOf(r.ending) != 0
  }

  /** What the peer of a run is told, None when the run is not a failure. */
  function ToldPeer(e: Ending): Option<(Why, bool)> {
    match e
    case Interrupt => Some((Text("stopped from the render host (Ctrl+C)"), true))
    case SystemExit(NoCode) => None
    case SystemExit(Status(n)) => if n == 0 then None else Some((WithStatus(n), false))
    case SystemExit(Words(w)) => Some((Text(w), false))
    case Crash(repr) => Some((WithRepr(repr), true))
    case Returns(rc) => if rc == 0 then None else Some((WithStatus(rc), false))
  }

  /** What one run adds to the ERROR messages, and to the sockets closed without a word. */
  function ErrorOf(r: Run): seq<ErrorSent> {
    if r.peer.Some? && ToldPeer(r.ending).Some?
    then [ErrorSent(r.peer.value, ToldPeer(r.ending).value.0, ToldPeer(r.ending).value.1)] else []
  }

  function DropOf(r: Run): seq<Sock> {
    if r.peer.Some? && ToldPeer(r.ending).None? then [r.peer.value] else []
  }

  function ErrorsOf(runs: seq<Run>): seq<ErrorSent> {
    if runs == [] then [] else ErrorsOf(runs[..|runs| - 1]) + ErrorOf(runs[|runs| - 1])
  }

  function DroppedBy(runs: seq<Run>): seq<Sock> {
    if runs == [] then [] else DroppedBy(runs[..|runs| - 1]) + DropOf(runs[|runs| - 1])
  }

  function PeerOf(r: Run): seq<Sock> {
    if r.peer.Some? then [r.peer.value] else []
  }

  function PeersOf(runs: seq<Run>): seq<Sock> {
    if runs == [] then [] else PeersOf(runs[..|runs| - 1]) + PeerOf(runs[|runs| - 1])
  }

  function SocksOf(errors: seq<ErrorSent>): (socks: seq<Sock>)
    ensures |socks| == |errors|
  {
    if errors == [] then [] else SocksOf(errors[..|errors| - 1]) + [errors[|errors| - 1].sock]
  }

  /** The loop disposes of every socket a run was handed exactly once: with an ERROR or without a word. One
      that hold_carla has said BYE on is closed by then, and dropped all the same. */
  lemma {:induction false} EverySocketIsDisposedOfOnce(runs: seq<Run>)
    ensures multiset(SocksOf(ErrorsOf(runs))) + multiset(DroppedBy(runs)) == multiset(PeersOf(runs))
  {
    if runs != [] {
      var rest, r := runs[..|runs| - 1], runs[|runs| - 1];
      EverySocketIsDisposedOfOnce(rest);
      SocksOfAppended(ErrorsOf(rest), r);
      assert multiset(SocksOf(ErrorsOf(runs))) + multiset(DroppedBy(runs))
          == multiset(SocksOf(ErrorsOf(rest))) + multiset(DroppedBy(rest)) + multiset(SocksOf(ErrorOf(r)) + DropOf(r));
      assert SocksOf(ErrorOf(r)) + DropOf(r) == PeerOf(r);
    }
  }

  /** What a peer is told of each way a run ends, and whether trying again may help. */
  lemma WhatThePeerIsTold(sock: Sock, status: int, words: string, repr: string)
    requires status != 0
    ensures ErrorOf(Run(Some(sock), Interrupt)) ==
            [ErrorSent(sock, Text("stopped from the render host (Ctrl+C)"), true)]
    ensures ErrorOf(Run(Some(sock), SystemExit(Words(words)))) == [ErrorSent(sock, Text(words), false)]
    ensures ErrorOf(Run(Some(sock), SystemExit(Status(status)))) == [ErrorSent(sock, WithStatus(status), false)]
    ensures ErrorOf(Run(Some(sock), Returns(status))) == [ErrorSent(sock, WithStatus(status), false)]
    ensures ErrorOf(Run(Some(sock), Crash(repr))) == [ErrorSent(sock, WithRepr(repr), true)]
    ensures forall e :: e in [SystemExit(NoCode), SystemExit(Status(0)), Returns(0)] ==>
              ErrorOf(Run(Some(sock), e)) == [] && DropOf(Run(Some(sock), e)) == [sock] && !Failed(Run(Some(sock), e))
    ensures Failed(Run(Some(sock), SystemExit(Words(words)))) && Failed(Run(Some(sock), SystemExit(Status(status))))
    ensures Failed(Run(Some(sock), Returns(status))) && Failed(Run(Some(sock), Crash(repr)))
  {
  }

  /** A run that holds a peer sends one ERROR exactly when it failed or was interrupted, and none otherwise. */
  lemma OneErrorWhenFailed(r: Run)
    ensures |ErrorOf(r)| == if r.peer.Some? && (Failed(r) || r.ending.Interrupt?) then 1 else 0
    ensures forall error :: error in ErrorOf(r) ==> Some(error.sock) == r.peer
  {
  }

  lemma SocksOfAppended(errors: seq<ErrorSent>, r: Run)
    ensures SocksOf(errors + ErrorOf(r)) == SocksOf(errors) + SocksOf(ErrorOf(r))
  {
    var all := errors + ErrorOf(r);
    if ErrorOf(r) == [] {
      assert all == errors;
    } else {
      assert all[..|all| - 1] == errors;
    }
  }

  /** The service ends with this run: somebody interrupted it, or it is the fifth failure in a row. */
  ghost predicate Stops(runs: seq<Run>, k: nat)
    requires k < |runs|
  {
    || runs[k].ending.Interrupt?
    || (k + 1 >= MAX_CONSECUTIVE_FAILURES
        && forall j :: k + 1 - MAX_CONSECUTIVE_FAILURES <= j <= k ==> Failed(runs[j]))
  }

  /** How many of the last runs failed without one in between that did not. */
  function FailingSuffix(runs: seq<Run>): (n: nat)
    ensures n <= |runs|
  {
    if runs == [] || !Failed(runs[|runs| - 1]) then 0 else FailingSuffix(runs[..|runs| - 1]) + 1
  }

  lemma {:induction false} FailingSuffixIsMaximal(runs: seq<Run>)
    ensures var n := FailingSuffix(runs);
            && (forall j :: |runs| - n <= j < |runs| ==> Failed(runs[j]))
            && (n < |runs| ==> !Failed(runs[|runs| - n - 1]))
  {
    if runs != [] && Failed(runs[|runs| - 1]) {
      FailingSuffixIsMaximal(runs[..|runs| - 1]);
    }
  }

  lemma CapMeansFiveFailures(runs: seq<Run>)
    ensures FailingSuffix(runs) >= MAX_CONSECUTIVE_FAILURES <==>
              |runs| >= 5 && forall j :: |runs| - 5 <= j < |runs| ==> Failed(runs[j])
  {
    FailingSuffixIsMaximal(runs);
  }

  lemma NoRuns(runs: seq<Run>)
    ensures FailingSuffix(runs[..0]) == 0 && ErrorsOf(runs[..0]) == [] && DroppedBy(runs[..0]) == []
  {
  }

  lemma OneMoreRun(runs: seq<Run>, n: nat)
    requires n < |runs|
    ensures FailingSuffix(runs[..n + 1]) == if Failed(runs[n]) then FailingSuffix(runs[..n]) + 1 else 0
    ensures ErrorsOf(runs[..n + 1]) == ErrorsOf(runs[..n]) + ErrorOf(runs[n])
    ensures DroppedBy(runs[..n + 1]) == DroppedBy(runs[..n]) + DropOf(runs[n])
    ensures runs[n].ending.Interrupt? ==> Stops(runs, n)
  {
    assert runs[..n + 1][..n] == runs[..n];
  }

  class Service {
    /** The control socket of the run being served. */
    var slot: Option<Sock>
    var errors: seq<ErrorSent>
    var dropped: seq<Sock>

    constructor ()
      ensures slot == None && errors == [] && dropped == []
    {
      slot, errors, dropped := None, [], [];
    }

    method DropServeSock()
      modifies this
      ensures slot == None && errors == old(errors)
      ensures dropped == old(dropped) + if old(slot).Some? then [old(slot).value] else []
    {
      if slot.Some? {
        dropped := dropped + [slot.value];
      }
      slot := None;
    }

    method FailPeer(why: Why, retryable: bool)
      modifies this
      ensures slot == None && dropped == old(dropped)
      ensures errors == old(errors) + if old(slot).Some? then [ErrorSent(old(slot).value, why, retryable)] else []
    {
      if slot.Some? {
        errors := errors + [ErrorSent(slot.value, why, retryable)];
      }
      slot := None;
    }

    /** The except clauses of the loop, then the end of the run's control socket. */
    method FinishRun(ending: Ending) returns (rc: int)
      requires !ending.Interrupt?
      modifies this
      ensures slot == None && rc == RcOf(ending)
      ensures errors == old(errors) + ErrorOf(Run(old(slot), ending))
      ensures dropped == old(dropped) + DropOf(Run(old(slot), ending))
    {
      match ending {
        case SystemExit(NoCode) =>
          rc := 0;
        case SystemExit(Status(status)) =>
          rc := status;
          if status != 0 {
            FailPeer(WithStatus(status), false);
          }
        case SystemExit(Words(words)) =>
          rc := 1;
          FailPeer(Text(words), false);
        case Crash(repr) =>
          FailPeer(WithRepr(repr), true);
          rc := 1;
        case Returns(status) =>
          rc := status;
          if rc != 0 {
            FailPeer(WithStatus(rc), false);
          }
      }
      DropServeSock();
    }

    /** Serve the runs one after another. `stopped` tells that the service ended by itself, after `n`
        runs and with status `rc`; otherwise it is still listening after all of them. */
    method ServeForever(runs: seq<Run>) returns (stopped: bool, rc: int, n: nat)
      requires slot == None
      modifies this
      ensures slot == None && n <= |runs|
      ensures stopped <==> exists k: nat :: k < |runs| && Stops(runs, k)
      ensures !stopped ==> n == |runs|
      ensures stopped ==> n > 0 && Stops(runs, n - 1) && rc == RcOf(runs[n - 1].ending)
      ensures forall k: nat :: k + 1 < n ==> !Stops(runs, k)
      ensures errors == old(errors) + ErrorsOf(runs[..n])
      ensures dropped == old(dropped) + DroppedBy(runs[..n])
    {
      hide ErrorsOf, DroppedBy, FailingSuffix, Stops;
      n, rc := 0, 0;
      var consecutive := 0;
      NoRuns(runs);
      while n < |runs|
        invariant n <= |runs| && slot == None
        invariant consecutive == FailingSuffix(runs[..n])
        invariant forall k: nat :: k < n ==> !Stops(runs, k)
        invariant errors == old(errors) + ErrorsOf(runs[..n])
        invariant dropped == old(dropped) + DroppedBy(runs[..n])
      {
        var run := runs[n];
        n := n + 1;
        OneMoreRun(runs, n - 1);
        slot := run.peer;
        if run.ending.Interrupt? {
          FailPeer(Text("stopped from the render host (Ctrl+C)"), true);
          return true, 0, n;
        }
        rc := FinishRun(run.ending);
        consecutive := if rc != 0 then consecutive + 1 else 0;
        CapAfter(runs, n);
        if consecutive >= MAX_CONSECUTIVE_FAILURES {
          return true, rc, n;
        }
      }
      return false, rc, n;
    }
  }

  lemma CapAfter(runs: seq<Run>, n: nat)
    requires 0 < n <= |runs| && !runs[n - 1].ending.Interrupt?
    ensures FailingSuffix(runs[..n]) >= MAX_CONSECUTIVE_FAILURES <==> Stops(runs, n - 1)
  {
    CapMeansFiveFailures(runs[..n]);
    assert forall j :: 0 <= j < n ==> runs[..n][j] == runs[j];
  }

  function Again(r: Run, times: nat): seq<Run> {
    seq(times, _ => r)
  }

  /** The same failure, time after time, stops the service exactly when it completes five in a row. */
  lemma RepeatedFailureStops(before: seq<Run>, r: Run, times: nat)
    requires forall k: nat :: k < |before| ==> !Stops(before, k)
    requires Failed(r)
    ensures var runs := before + Again(r, times);
            (exists k: nat :: k < |runs| && Stops(runs, k)) <==>
              times > 0 && times + FailingSuffix(before) >= MAX_CONSECUTIVE_FAILURES
  {
    FailingSuffixIsMaximal(before);
    CapMeansFiveFailures(before);
    var runs := before + Again(r, times);
    var n := FailingSuffix(before);
    if times > 0 && times + n >= MAX_CONSECUTIVE_FAILURES {
      assert forall j :: |before| - n <= j < |runs| ==> Failed(runs[j]);
      assert Stops(runs, |runs| - 1);
    }
    if k: nat :| k < |runs| && Stops(runs, k) {
      if k < |before| {
        assert forall j :: 0 <= j <= k ==> runs[j] == before[j];
        assert Stops(before, k);
      } else {
        assert !runs[k].ending.Interrupt?;
        assert n < |before| ==> runs[|before| - n - 1] == before[|before| - n - 1];
      }
    }
  }

  /** How main() ends when somebody presses Ctrl+C while await_peer is listening. */
  const STOPPED_WHILE_LISTENING: Run := Run(None, SystemExit(Words("\n[serve] stopped before any peer connected.")))

  /** Ctrl+C while no peer is connected does not stop the service: await_peer turns it into an exit
      with a message, which counts as one failed run. It takes five in a row, or four after a
      failure, and the status is then 1. */
  lemma CtrlCWhileListeningIsAFailure(before: seq<Run>, presses: nat)
    requires forall k: nat :: k < |before| ==> !Stops(before, k)
    ensures var runs := before + Again(STOPPED_WHILE_LISTENING, presses);
            (exists k: nat :: k < |runs| && Stops(runs, k)) <==>
              presses > 0 && presses + FailingSuffix(before) >= 5
  {
    hide Stops, FailingSuffix;
    RepeatedFailureStops(before, STOPPED_WHILE_LISTENING, presses);
  }

  /** How main() ends when a stranger says `5` to await_peer. */
  const CRASHED_BY_A_STRANGER: Run := Run(None, Crash("AttributeError(\"'int' object has no attribute 'get'\")"))

  /** Five such strangers, one after another, end the service. */
  lemma FiveStrangersEndTheService(before: seq<Run>, strangers: nat)
    requires forall k: nat :: k < |before| ==> !Stops(before, k)
    ensures var runs := before + Again(CRASHED_BY_A_STRANGER, strangers);
            (exists k: nat :: k < |runs| && Stops(runs, k)) <==>
              strangers > 0 && strangers + FailingSuffix(before) >= 5
  {
    hide Stops, FailingSuffix;
    RepeatedFailureStops(before, CRASHED_BY_A_STRANGER, strangers);
  }

  /** Where in main() Ctrl+C is pressed on the render host: in await_peer, in hold_carla, or anywhere else,
      before or after a peer has been taken. */
  datatype Press = Listening | Holding(peer: Sock) | Elsewhere(taken: Option<Sock>)

  /** How that run ends: await_peer exits with a message, hold_carla returns, and from anywhere else the
      interrupt escapes. */
  function Pressed(p: Press): Run {
    match p
    case Listening => STOPPED_WHILE_LISTENING
    case Holding(peer) => Run(Some(peer), Returns(PeerProtocol.HELD_RC))
    case Elsewhere(taken) => Run(taken, Interrupt)
  }

  /** One press of Ctrl+C stops the service exactly when it falls neither in await_peer nor in hold_carla, or
      in await_peer after four failures in a row. Pressed while CARLA is held for a peer, it ends that run as a
      success: the service listens again, and earlier failures are forgotten. */
  lemma WhatCtrlCStops(before: seq<Run>, p: Press)
    requires forall k: nat :: k < |before| ==> !Stops(before, k)
    ensures var runs := before + [Pressed(p)];
            && ((exists k: nat :: k < |runs| && Stops(runs, k)) <==>
                  p.Elsewhere? || (p.Listening? && FailingSuffix(before) + 1 >= 5))
            && (p.Holding? ==> FailingSuffix(runs) == 0)
            && (p.Listening? ==> FailingSuffix(runs) == FailingSuffix(before) + 1)
  {
    hide Stops, FailingSuffix;
    var runs, n := before + [Pressed(p)], |before|;
    assert runs[..n] == before && runs[..n + 1] == runs;
    OneMoreRun(runs, n);
    if !p.Elsewhere? {
      CapAfter(runs, n + 1);
    }
    forall k: nat | k < n ensures !Stops(runs, k) {
      SameStop(before, runs, k);
    }
  }

  lemma SameStop(before: seq<Run>, runs: seq<Run>, k: nat)
    requires before <= runs && k < |before|
    ensures Stops(runs, k) == Stops(before, k)
  {
    assert forall j :: 0 <= j <= k ==> runs[j] == before[j];
  }

  /** Nor does any number of presses while CARLA is held, one after another. */
  lemma HoldingPressesNeverStop(before: seq<Run>, peers: seq<Sock>)
    requires forall k: nat :: k < |before| ==> !Stops(before, k)
    ensures var runs := before + seq(|peers|, i requires 0 <= i < |peers| => Pressed(Holding(peers[i])));
            !exists k: nat :: k < |runs| && Stops(runs, k)
  {
    var runs := before + seq(|peers|, i requires 0 <= i < |peers| => Pressed(Holding(peers[i])));
    forall k: nat | k < |runs| ensures !Stops(runs, k) {
      if k < |before| {
        SameStop(before, runs, k);
      } else {
        assert runs[k] == Pressed(Holding(peers[k - |before|])) && !Failed(runs[k]);
      }
    }
  }
}
