/** Is a scenario's ego route drivable? A walk over the polyline's samples that carries the set of
    lanes the ego could consistently be on, and resynchronises after a violation. */
module EgoRoute {
  import opened LaneNet
  import opened Text

  /** How many connections may lie between two consecutive samples. */
  const MAX_HOPS: nat := 6

  /** A polyline point on the network: its index in the polyline and the lanes near it, nearest first. */
  datatype Sample = Sample(index: nat, lanes: seq<LaneId>)

  datatype Violation = Violation(pointIndex: nat, fromLane: LaneId, toLane: LaneId,
                                 fromReaches: set<LaneId>, toFedBy: set<LaneId>)

  ghost predicate Resolves(net: Net, lanes: seq<LaneId>) {
    forall l :: l in lanes ==> l in net
  }

  ghost predicate WellFormed(net: Net, samples: seq<Sample>) {
    forall i :: 0 <= i < |samples| ==> samples[i].lanes != [] && Resolves(net, samples[i].lanes)
  }

  function Lanes(s: Sample): set<LaneId> {
    set l | l in s.lanes
  }

  // ------------------------------------------- assignments of lanes to samples

  /** The ego may be on `y` one sample after being on `x`. */
  ghost predicate Follows(net: Net, x: LaneId, y: LaneId) {
    x == y || WithinHops(net, x, y, MAX_HOPS)
  }

  ghost predicate IsAssignment(samples: seq<Sample>, a: seq<LaneId>) {
    |a| == |samples| && forall i :: 0 <= i < |a| ==> a[i] in samples[i].lanes
  }

  /** How many steps of an assignment are illegal. */
  ghost function Breaks(net: Net, a: seq<LaneId>): nat {
    if |a| <= 1 then 0
    else Breaks(net, a[..|a| - 1]) + if Follows(net, a[|a| - 2], a[|a| - 1]) then 0 else 1
  }

  ghost predicate Explainable(net: Net, samples: seq<Sample>) {
    exists a :: IsAssignment(samples, a) && Breaks(net, a) == 0
  }

  /** `a` is a cheapest assignment when `cost` is the least number of breaks. */
  ghost predicate Achieves(net: Net, samples: seq<Sample>, a: seq<LaneId>, cost: nat) {
    IsAssignment(samples, a) && Breaks(net, a) == cost
  }

  ghost predicate IsMinimumBreaks(net: Net, samples: seq<Sample>, cost: nat) {
    && (forall a :: IsAssignment(samples, a) ==> cost <= Breaks(net, a))
    && (exists a :: Achieves(net, samples, a, cost))
  }

  // ------------------------------------------------------------------ the walk

  /** What the walk carries: the possible lanes, the violations reported, and the sample positions
      at which it resynchronised. */
  datatype Walk = Walk(possible: set<LaneId>, violations: seq<Violation>, cuts: seq<nat>)

  ghost function Consistent(net: Net, possible: set<LaneId>, s: Sample): set<LaneId> {
    set y | y in Lanes(s) && exists x :: x in possible && Follows(net, x, y)
  }

  lemma FollowerIsConsistent(net: Net, possible: set<LaneId>, s: Sample, x: LaneId, y: LaneId)
    requires x in possible && y in s.lanes && Follows(net, x, y)
    ensures y in Consistent(net, possible, s)
  {
    assert y in Lanes(s);
  }

  function FedBy(net: Net, lane: LaneId): set<LaneId> {
    set l | l in net && lane in Successors(net, l)
  }

  /** The report made when no possible lane leads to the sample: the least possible lane against the
      nearest candidate. */
  ghost predicate IsReport(net: Net, possible: set<LaneId>, s: Sample, v: Violation) {
    && v.pointIndex == s.index
    && IsLeast(possible, v.fromLane)
    && s.lanes != [] && v.toLane == s.lanes[0]
    && v.fromLane in net && v.fromReaches == Successors(net, v.fromLane)
    && v.toFedBy == FedBy(net, v.toLane)
  }

  /** One step of the walk over the sample at position `k`. */
  ghost predicate Advances(net: Net, w: Walk, s: Sample, k: nat, w': Walk) {
    var nxt := Consistent(net, w.possible, s);
    if nxt != {} then w' == w.(possible := nxt)
    else
      && |w'.violations| == |w.violations| + 1
      && w'.violations[..|w.violations|] == w.violations
      && IsReport(net, w.possible, s, w'.violations[|w.violations|])
      && w'.possible == Lanes(s)
      && w'.cuts == w.cuts + [k]
  }

  /** `w` is the walk's state after `samples`, `trace[i]` its state after the first `i + 1` of them. */
  ghost predicate IsWalk(net: Net, samples: seq<Sample>, trace: seq<Walk>) {
    && |trace| == |samples| > 0
    && trace[0] == Walk(Lanes(samples[0]), [], [])
    && forall k :: 0 < k < |samples| ==> Advances(net, trace[k - 1], samples[k], k, trace[k])
  }

  // --------------------------------------------------- the walk is the minimum

  lemma {:induction false} NoAssignmentBeatsTheWalk(net: Net, samples: seq<Sample>, trace: seq<Walk>, a: seq<LaneId>)
    requires IsWalk(net, samples, trace) && IsAssignment(samples, a)
    ensures var w := trace[|trace| - 1];
            && |w.violations| <= Breaks(net, a)
            && (|w.violations| == Breaks(net, a) ==> a[|a| - 1] in w.possible)
  {
    var n := |samples| - 1;
    if n > 0 {
      var b := a[..n];
      assert IsAssignment(samples[..n], b);
      NoAssignmentBeatsTheWalk(net, samples[..n], trace[..n], b);
      assert Advances(net, trace[n - 1], samples[n], n, trace[n]);
      assert b[n - 1] == a[n - 1];
      assert a[n] in Lanes(samples[n]);
      if b[n - 1] in trace[n - 1].possible && Follows(net, b[n - 1], a[n]) {
        FollowerIsConsistent(net, trace[n - 1].possible, samples[n], b[n - 1], a[n]);
      }
    }
  }

  lemma {:induction false} PossibleLaneIsCheapest(net: Net, samples: seq<Sample>, trace: seq<Walk>, l: LaneId)
    returns (a: seq<LaneId>)
    requires WellFormed(net, samples) && IsWalk(net, samples, trace)
    requires l in trace[|trace| - 1].possible
    ensures Achieves(net, samples, a, |trace[|trace| - 1].violations|) && a[|a| - 1] == l
  {
    var n := |samples| - 1;
    if n == 0 {
      a := [l];
    } else {
      assert Advances(net, trace[n - 1], samples[n], n, trace[n]);
      var x: LaneId;
      if Consistent(net, trace[n - 1].possible, samples[n]) != {} {
        x :| x in trace[n - 1].possible && Follows(net, x, l);
      } else {
        x := trace[n].violations[|trace[n - 1].violations|].fromLane;
        assert x in trace[n - 1].possible;
        assert l in Lanes(samples[n]);
        if Follows(net, x, l) {
          FollowerIsConsistent(net, trace[n - 1].possible, samples[n], x, l);
        }
      }
      var b := PossibleLaneIsCheapest(net, samples[..n], trace[..n], x);
      a := b + [l];
      assert a[..|a| - 1] == b;
      assert a[|a| - 2] == x;
    }
  }

  lemma {:induction false} PossibleIsNeverEmpty(net: Net, samples: seq<Sample>, trace: seq<Walk>)
    requires WellFormed(net, samples) && IsWalk(net, samples, trace)
    ensures trace[|trace| - 1].possible != {}
  {
    var n := |samples| - 1;
    assert samples[n].lanes[0] in Lanes(samples[n]);
    if n > 0 {
      assert Advances(net, trace[n - 1], samples[n], n, trace[n]);
    }
  }

  /** The number of violations is the least number of illegal steps over every assignment of one
      candidate lane per sample, and the possible lanes are exactly those where a cheapest
      assignment can end: restarting greedily is optimal. */
  lemma WalkCountsMinimumBreaks(net: Net, samples: seq<Sample>, trace: seq<Walk>)
    requires WellFormed(net, samples) && IsWalk(net, samples, trace)
    ensures var w := trace[|trace| - 1];
            && IsMinimumBreaks(net, samples, |w.violations|)
            && forall l :: l in w.possible <==>
                 exists a :: Achieves(net, samples, a, |w.violations|) && a[|a| - 1] == l
  {
    var w := trace[|trace| - 1];
    forall a | IsAssignment(samples, a) ensures |w.violations| <= Breaks(net, a) {
      NoAssignmentBeatsTheWalk(net, samples, trace, a);
    }
    PossibleIsNeverEmpty(net, samples, trace);
    var l0 :| l0 in w.possible;
    var a0 := PossibleLaneIsCheapest(net, samples, trace, l0);
    forall l
      ensures l in w.possible <==> exists a :: Achieves(net, samples, a, |w.violations|) && a[|a| - 1] == l
    {
      if l in w.possible {
        var a := PossibleLaneIsCheapest(net, samples, trace, l);
      }
      if a :| Achieves(net, samples, a, |w.violations|) && a[|a| - 1] == l {
        NoAssignmentBeatsTheWalk(net, samples, trace, a);
      }
    }
  }

  lemma NoViolationsMeansExplainable(net: Net, samples: seq<Sample>, trace: seq<Walk>)
    requires WellFormed(net, samples) && IsWalk(net, samples, trace)
    ensures trace[|trace| - 1].violations == [] <==> Explainable(net, samples)
  {
    WalkCountsMinimumBreaks(net, samples, trace);
    var w := trace[|trace| - 1];
    if w.violations == [] {
      var a :| Achieves(net, samples, a, 0);
    }
  }

  // ------------------------------------------------------- maximal explained runs

  /** Where the run that sample `k` belongs to started. */
  ghost function RunStart(cuts: seq<nat>): nat {
    if cuts == [] then 0 else cuts[|cuts| - 1]
  }

  /** Since its last resynchronisation the walk behaves like a fresh walk without violations. */
  lemma {:induction false} WalkSinceLastCut(net: Net, samples: seq<Sample>, trace: seq<Walk>)
    returns (since: seq<Walk>)
    requires WellFormed(net, samples) && IsWalk(net, samples, trace)
    ensures var w := trace[|trace| - 1]; var from := RunStart(w.cuts);
            && from < |samples| && |w.cuts| == |w.violations|
            && IsWalk(net, samples[from..], since)
            && since[|since| - 1] == Walk(w.possible, [], [])
  {
    hide Consistent;
    var n := |samples| - 1;
    var w := trace[n];
    if n == 0 {
      since := [w];
    } else {
      assert Advances(net, trace[n - 1], samples[n], n, w);
      var before := WalkSinceLastCut(net, samples[..n], trace[..n]);
      assert trace[..n][|trace[..n]| - 1] == trace[n - 1];
      if Consistent(net, trace[n - 1].possible, samples[n]) == {} {
        since := [Walk(w.possible, [], [])];
      } else {
        var from := RunStart(w.cuts);
        assert samples[from..] == samples[..n][from..] + [samples[n]];
        since := before + [Walk(w.possible, [], [])];
      }
    }
  }

  ghost predicate IsMaximalRun(net: Net, samples: seq<Sample>, from: nat, to: nat) {
    && from < to < |samples|
    && Explainable(net, samples[from..to])
    && !Explainable(net, samples[from..to + 1])
  }

  ghost function CutBefore(cuts: seq<nat>, j: nat): nat
    requires j <= |cuts|
  {
    if j == 0 then 0 else cuts[j - 1]
  }

  /** The `j`-th violation ends a maximal run and is reported at that run's end. */
  ghost predicate CutsMaximalRun(net: Net, samples: seq<Sample>, w: Walk, j: nat) {
    && j < |w.cuts| == |w.violations|
    && IsMaximalRun(net, samples, CutBefore(w.cuts, j), w.cuts[j])
    && w.violations[j].pointIndex == samples[w.cuts[j]].index
  }

  ghost predicate RunsAreMaximal(net: Net, samples: seq<Sample>, w: Walk) {
    |w.cuts| == |w.violations| && forall j :: 0 <= j < |w.cuts| ==> CutsMaximalRun(net, samples, w, j)
  }

  lemma MaximalRunOfPrefix(net: Net, samples: seq<Sample>, n: nat, from: nat, to: nat)
    requires n <= |samples| && IsMaximalRun(net, samples[..n], from, to)
    ensures IsMaximalRun(net, samples, from, to)
  {
    assert samples[..n][from..to] == samples[from..to];
    assert samples[..n][from..to + 1] == samples[from..to + 1];
  }

  lemma RunsStayMaximal(net: Net, samples: seq<Sample>, n: nat, w: Walk)
    requires n <= |samples| && RunsAreMaximal(net, samples[..n], w)
    ensures RunsAreMaximal(net, samples, w)
  {
    forall j: nat | j < |w.cuts| ensures CutsMaximalRun(net, samples, w, j) {
      assert CutsMaximalRun(net, samples[..n], w, j);
      MaximalRunOfPrefix(net, samples, n, CutBefore(w.cuts, j), w.cuts[j]);
    }
  }

  lemma AddedRunIsMaximal(net: Net, samples: seq<Sample>, u: Walk, w: Walk, k: nat)
    requires k < |samples| && RunsAreMaximal(net, samples, u)
    requires |w.violations| == |u.violations| + 1 && w.violations[..|u.violations|] == u.violations
    requires w.violations[|u.violations|].pointIndex == samples[k].index && w.cuts == u.cuts + [k]
    requires IsMaximalRun(net, samples, RunStart(u.cuts), k)
    ensures RunsAreMaximal(net, samples, w)
  {
    forall j: nat | j < |w.cuts| ensures CutsMaximalRun(net, samples, w, j) {
      if j < |u.cuts| {
        assert CutsMaximalRun(net, samples, u, j);
        assert w.violations[j] == w.violations[..|u.violations|][j];
      }
    }
  }

  lemma RunsAfterStep(net: Net, samples: seq<Sample>, trace: seq<Walk>)
    requires WellFormed(net, samples) && IsWalk(net, samples, trace) && |samples| > 1
    requires RunsAreMaximal(net, samples[..|samples| - 1], trace[|samples| - 2])
    ensures RunsAreMaximal(net, samples, trace[|samples| - 1])
  {
    var n := |samples| - 1;
    var u, w := trace[n - 1], trace[n];
    RunsStayMaximal(net, samples, n, u);
    assert Advances(net, u, samples[n], n, w);
    if Consistent(net, u.possible, samples[n]) == {} {
      LastRunIsMaximal(net, samples, trace);
      AddedRunIsMaximal(net, samples, u, w, n);
    } else {
      forall j: nat | j < |w.cuts| ensures CutsMaximalRun(net, samples, w, j) {
        assert CutsMaximalRun(net, samples, u, j);
      }
    }
  }

  lemma {:induction false} AllRunsMaximal(net: Net, samples: seq<Sample>, trace: seq<Walk>)
    requires WellFormed(net, samples) && IsWalk(net, samples, trace)
    ensures RunsAreMaximal(net, samples, trace[|trace| - 1])
  {
    var n := |samples| - 1;
    if n > 0 {
      assert IsWalk(net, samples[..n], trace[..n]);
      AllRunsMaximal(net, samples[..n], trace[..n]);
      assert trace[..n][|trace[..n]| - 1] == trace[n - 1];
      RunsAfterStep(net, samples, trace);
    }
  }

  /** The violations cut the samples into maximal explainable runs: from each resynchronisation to
      the next one some assignment is legal at every step, and none still is once the reported
      sample is included. The last run is explainable to the end. */
  lemma ViolationsCutMaximalRuns(net: Net, samples: seq<Sample>, trace: seq<Walk>)
    requires WellFormed(net, samples) && IsWalk(net, samples, trace)
    ensures var w := trace[|trace| - 1];
            && RunsAreMaximal(net, samples, w)
            && RunStart(w.cuts) < |samples|
            && Explainable(net, samples[RunStart(w.cuts)..])
  {
    AllRunsMaximal(net, samples, trace);
    var w := trace[|trace| - 1];
    var since := WalkSinceLastCut(net, samples, trace);
    NoViolationsMeansExplainable(net, samples[RunStart(w.cuts)..], since);
  }

  /** A walk with one more sample that nothing possible leads to, and its report. */
  lemma WalkOneMore(net: Net, samples: seq<Sample>, walk: seq<Walk>, s: Sample, v: Violation)
    returns (longer: seq<Walk>)
    requires IsWalk(net, samples, walk) && walk[|walk| - 1].violations == [] && walk[|walk| - 1].cuts == []
    requires Consistent(net, walk[|walk| - 1].possible, s) == {} && IsReport(net, walk[|walk| - 1].possible, s, v)
    ensures IsWalk(net, samples + [s], longer) && longer[|longer| - 1].violations == [v]
  {
    hide Consistent, IsReport;
    var n := |samples|;
    longer := walk + [Walk(Lanes(s), [v], [n])];
    assert Advances(net, walk[n - 1], s, n, longer[n]);
    forall i | 0 < i <= n ensures Advances(net, longer[i - 1], (samples + [s])[i], i, longer[i]) {
      if i < n {
        assert Advances(net, walk[i - 1], samples[i], i, walk[i]);
      }
    }
  }

  lemma LastRunIsMaximal(net: Net, samples: seq<Sample>, trace: seq<Walk>)
    requires WellFormed(net, samples) && IsWalk(net, samples, trace)
    requires |samples| > 1 && Consistent(net, trace[|samples| - 2].possible, samples[|samples| - 1]) == {}
    ensures RunStart(trace[|samples| - 2].cuts) < |samples| - 1
    ensures IsMaximalRun(net, samples, RunStart(trace[|samples| - 2].cuts), |samples| - 1)
  {
    hide Consistent, IsReport;
    var n := |samples| - 1;
    var u := trace[n - 1];
    assert IsWalk(net, samples[..n], trace[..n]);
    var before := WalkSinceLastCut(net, samples[..n], trace[..n]);
    var from := RunStart(u.cuts);
    assert samples[..n][from..] == samples[from..n];
    NoViolationsMeansExplainable(net, samples[from..n], before);
    assert Advances(net, u, samples[n], n, trace[n]);
    var longer := WalkOneMore(net, samples[from..n], before, samples[n], trace[n].violations[|u.violations|]);
    assert samples[from..n + 1] == samples[from..n] + [samples[n]];
    NoViolationsMeansExplainable(net, samples[from..n + 1], longer);
  }

  /** Every report names a step that really is illegal: the lane it came from is one the ego could
      have been on, it does not lead to the reported lane within the hop limit, and the two lists it
      prints confirm it. */
  lemma ReportedStepIsIllegal(net: Net, possible: set<LaneId>, s: Sample, v: Violation)
    requires IsReport(net, possible, s, v) && Consistent(net, possible, s) == {}
    ensures v.fromLane in possible && v.toLane in s.lanes && !Follows(net, v.fromLane, v.toLane)
    ensures v.toLane !in v.fromReaches && v.fromLane !in v.toFedBy
  {
    if Follows(net, v.fromLane, v.toLane) {
      FollowerIsConsistent(net, possible, s, v.fromLane, v.toLane);
    }
    if v.toLane in v.fromReaches || v.fromLane in v.toFedBy {
      OneConnectionIsWithinHops(net, v.fromLane, v.toLane, MAX_HOPS);
    }
  }

  /** The `j`-th violation is the report of one step of the walk. */
  lemma {:induction false} ViolationIsReport(net: Net, samples: seq<Sample>, trace: seq<Walk>, j: nat) returns (k: nat)
    requires IsWalk(net, samples, trace) && j < |trace[|trace| - 1].violations|
    ensures 0 < k < |samples| && Consistent(net, trace[k - 1].possible, samples[k]) == {}
    ensures IsReport(net, trace[k - 1].possible, samples[k], trace[|trace| - 1].violations[j])
  {
    hide Consistent, IsReport;
    var n := |samples| - 1;
    assert n > 0;
    assert Advances(net, trace[n - 1], samples[n], n, trace[n]);
    var before := trace[n - 1].violations;
    if j < |before| {
      k := ViolationIsReport(net, samples[..n], trace[..n], j);
      assert trace[n].violations[..|before|][j] == before[j];
    } else {
      k := n;
    }
  }

  /** A cheapest assignment of the samples can end on `l`. */
  ghost predicate IsCheapestEnd(net: Net, samples: seq<Sample>, l: LaneId) {
    exists a, cost ::
      IsMinimumBreaks(net, samples, cost) && Achieves(net, samples, a, cost) && a != [] && a[|a| - 1] == l
  }

  /** The lane a report comes from is, in sort order, the first of those on which a cheapest explanation of the
      samples before it can end; the lane it leads to is the sample's nearest. */
  lemma ReportNamesFirstAndNearest(net: Net, samples: seq<Sample>, trace: seq<Walk>, j: nat) returns (k: nat)
    requires WellFormed(net, samples) && IsWalk(net, samples, trace) && j < |trace[|trace| - 1].violations|
    ensures var v := trace[|trace| - 1].violations[j];
            && 0 < k < |samples| && v.pointIndex == samples[k].index && v.toLane == samples[k].lanes[0]
            && IsCheapestEnd(net, samples[..k], v.fromLane)
            && (forall l :: IsCheapestEnd(net, samples[..k], l) ==> LexLeq(v.fromLane, l))
  {
    hide Consistent, Breaks, IsMinimumBreaks;
    k := ViolationIsReport(net, samples, trace, j);
    var v := trace[|trace| - 1].violations[j];
    assert IsWalk(net, samples[..k], trace[..k]);
    WalkCountsMinimumBreaks(net, samples[..k], trace[..k]);
    var w := trace[..k][k - 1];
    forall l ensures l in w.possible <==> IsCheapestEnd(net, samples[..k], l) {
      if a, cost :| IsMinimumBreaks(net, samples[..k], cost) && Achieves(net, samples[..k], a, cost) && a != []
                    && a[|a| - 1] == l {
        MinimumIsUnique(net, samples[..k], cost, |w.violations|);
      }
    }
  }

  lemma MinimumIsUnique(net: Net, samples: seq<Sample>, m: nat, n: nat)
    requires IsMinimumBreaks(net, samples, m) && IsMinimumBreaks(net, samples, n)
    ensures m == n
  {
    var a :| Achieves(net, samples, a, m);
    var b :| Achieves(net, samples, b, n);
  }

  /** A violation names the sample's nearest lane, and lists the lanes one connection away from each of the two. */
  ghost predicate NamesNeighbours(net: Net, points: seq<seq<LaneId>>, v: Violation) {
    && v.pointIndex < |points| && points[v.pointIndex] != [] && v.toLane == points[v.pointIndex][0]
    && v.fromLane in net
    && (forall l :: l in v.fromReaches <==> Leads(net, v.fromLane, l))
    && (forall l :: l in v.toFedBy <==> Leads(net, l, v.toLane))
  }

  lemma ReportListsNeighbours(net: Net, possible: set<LaneId>, s: Sample, v: Violation)
    requires IsReport(net, possible, s, v)
    ensures forall l :: l in v.fromReaches <==> Leads(net, v.fromLane, l)
    ensures forall l :: l in v.toFedBy <==> Leads(net, l, v.toLane)
  {
    hide Leads, Successors;
    SuccessorsAre(net, v.fromLane);
    forall l ensures l in v.toFedBy <==> Leads(net, l, v.toLane) {
      if l in net {
        SuccessorsAre(net, l);
      } else {
        NothingLeadsFrom(net, l, v.toLane);
      }
    }
  }

  lemma NothingLeadsFrom(net: Net, a: LaneId, b: LaneId)
    requires a !in net
    ensures !Leads(net, a, b)
  {
  }

  lemma ViolationsNameNeighbours(net: Net, points: seq<seq<LaneId>>, trace: seq<Walk>)
    requires IsWalk(net, OnNetwork(points), trace)
    ensures forall v :: v in trace[|trace| - 1].violations ==> NamesNeighbours(net, points, v)
  {
    hide Consistent, FedBy, Successors, Leads;
    OnNetworkKeepsOrder(points);
    forall v | v in trace[|trace| - 1].violations ensures NamesNeighbours(net, points, v) {
      var j: nat :| j < |trace[|trace| - 1].violations| && trace[|trace| - 1].violations[j] == v;
      var k := ViolationIsReport(net, OnNetwork(points), trace, j);
      ReportListsNeighbours(net, trace[k - 1].possible, OnNetwork(points)[k], v);
    }
  }

  // ------------------------------------------------------- how far apart samples may be

  /** Eight lanes in a row. */
  const CHAIN_LANES: seq<LaneId> := ["0", "1", "2", "3", "4", "5", "6", "7"]

  const CHAIN: Net := map[
    "0" := [Connection("", "1")], "1" := [Connection("", "2")], "2" := [Connection("", "3")],
    "3" := [Connection("", "4")], "4" := [Connection("", "5")], "5" := [Connection("", "6")],
    "6" := [Connection("", "7")], "7" := []]

  lemma ChainLane(i: nat)
    requires i < 8
    ensures CHAIN_LANES[i] in CHAIN && |CHAIN_LANES| == 8
    ensures Successors(CHAIN, CHAIN_LANES[i]) == if i < 7 then {CHAIN_LANES[i + 1]} else {}
  {
  }

  lemma {:induction false} ChainRoute(p: seq<LaneId>)
    requires IsRoute(CHAIN, p) && p[0] == "0"
    ensures |p| <= 8 && p[|p| - 1] == CHAIN_LANES[|p| - 1]
  {
    if |p| > 1 {
      var q := p[..|p| - 1];
      ChainRoute(q);
      ChainLane(|q| - 1);
      assert q[|q| - 1] == p[|p| - 2];
    }
  }

  /** Two samples at its ends. */
  lemma ChainSamples()
    ensures WellFormed(CHAIN, [Sample(0, ["0"]), Sample(1, ["7"])])
  {
    assert CHAIN_LANES[0] in CHAIN && CHAIN_LANES[7] in CHAIN;
  }

  /** Six connections may lie between two samples, not seven. */
  lemma SixConnectionsNotSeven()
    ensures Follows(CHAIN, "0", "6") && !Follows(CHAIN, "0", "7")
  {
    hide CHAIN;
    var p := CHAIN_LANES[..7];
    forall i | 0 <= i < 7 ensures p[i] in CHAIN && Successors(CHAIN, p[i]) == {CHAIN_LANES[i + 1]} {
      ChainLane(i);
    }
    assert RouteBetween(CHAIN, p, "0", "6");
    if q: seq<LaneId> :| RouteBetween(CHAIN, q, "0", "7") && 2 <= |q| <= MAX_HOPS + 1 {
      ChainRoute(q);
      assert false;
    }
  }

  // ------------------------------------------------------------------ the check

  /** The samples kept: points with at least one lane in tolerance, in polyline order. */
  function OnNetwork(points: seq<seq<LaneId>>): (samples: seq<Sample>) {
    if points == [] then []
    else
      var n := |points| - 1;
      OnNetwork(points[..n]) + if points[n] == [] then [] else [Sample(n, points[n])]
  }

  lemma {:induction false} OnNetworkKeepsOrder(points: seq<seq<LaneId>>)
    ensures var samples := OnNetwork(points);
            && (forall i :: 0 <= i < |samples| ==>
                  samples[i].index < |points| && samples[i].lanes == points[samples[i].index] != [])
            && (forall i, j :: 0 <= i < j < |samples| ==> samples[i].index < samples[j].index)
            && (forall k :: 0 <= k < |points| && points[k] != [] ==> Sample(k, points[k]) in samples)
  {
    if points != [] {
      OnNetworkKeepsOrder(points[..|points| - 1]);
    }
  }

  /** Can the ego be on `lane` now, given the lanes it may have been on? The middle test of the
      three, one connection, never decides anything the last one would not. */
  method CanBeOn(net: Net, possible: set<LaneId>, lane: LaneId) returns (ok: bool)
    requires forall p :: p in possible ==> p in net
    ensures ok <==> exists x :: x in possible && Follows(net, x, lane)
  {
    if lane in possible {
      assert Follows(net, lane, lane);
      return true;
    }
    var todo := possible;
    while todo != {}
      invariant todo <= possible
    {
      var p :| p in todo;
      var successors := CollectSuccessors(net, p);
      if lane in successors {
        OneConnectionIsWithinHops(net, p, lane, MAX_HOPS);
        assert Follows(net, p, lane);
        return true;
      }
      todo := todo - {p};
    }
    todo := possible;
    while todo != {}
      invariant todo <= possible
      invariant forall x :: x in possible - todo ==> !Follows(net, x, lane)
    {
      var p :| p in todo;
      var reached := ReachableWithin(net, p, lane, MAX_HOPS);
      if reached {
        assert Follows(net, p, lane);
        return true;
      }
      todo := todo - {p};
    }
    return false;
  }

  method CollectConsistent(net: Net, possible: set<LaneId>, s: Sample) returns (nxt: set<LaneId>)
    requires forall p :: p in possible ==> p in net
    ensures nxt == Consistent(net, possible, s)
  {
    nxt := {};
    for i := 0 to |s.lanes|
      invariant nxt == set y | y in s.lanes[..i] && exists x :: x in possible && Follows(net, x, y)
    {
      assert s.lanes[..i + 1] == s.lanes[..i] + [s.lanes[i]];
      var ok := CanBeOn(net, possible, s.lanes[i]);
      if ok {
        nxt := nxt + {s.lanes[i]};
      }
    }
    assert s.lanes[..|s.lanes|] == s.lanes;
  }

  method CollectCandidates(points: seq<seq<LaneId>>) returns (candidates: seq<Sample>)
    ensures candidates == OnNetwork(points)
  {
    candidates := [];
    for index := 0 to |points|
      invariant candidates == OnNetwork(points[..index])
    {
      assert points[..index + 1][..index] == points[..index];
      if points[index] == [] {
        continue;
      }
      candidates := candidates + [Sample(index, points[index])];
    }
    assert points[..|points|] == points;
  }

  lemma ExtendWalk(net: Net, samples: seq<Sample>, trace: seq<Walk>, k: nat, w: Walk)
    requires 0 < k < |samples| && IsWalk(net, samples[..k], trace)
    requires Advances(net, trace[k - 1], samples[k], k, w)
    ensures IsWalk(net, samples[..k + 1], trace + [w])
  {
  }

  /** The walk itself: `possible` and `violations`, sample by sample. */
  method WalkSamples(net: Net, candidates: seq<Sample>) returns (violations: seq<Violation>, ghost trace: seq<Walk>)
    requires candidates != [] && WellFormed(net, candidates)
    ensures IsWalk(net, candidates, trace) && trace[|trace| - 1].violations == violations
  {
    violations := [];
    var possible := Lanes(candidates[0]);
    assert candidates[0].lanes[0] in possible;
    trace := [Walk(possible, [], [])];
    for k := 1 to |candidates|
      invariant IsWalk(net, candidates[..k], trace)
      invariant trace[k - 1].possible == possible && trace[k - 1].violations == violations
      invariant possible != {} && forall p :: p in possible ==> p in net
    {
      var s := candidates[k];
      ghost var u := trace[k - 1];
      var nxt := CollectConsistent(net, possible, s);
      if nxt != {} {
        possible := nxt;
        ExtendWalk(net, candidates, trace, k, u.(possible := nxt));
        trace := trace + [u.(possible := nxt)];
        continue;
      }
      var fromLane := Least(possible);
      var toLane := s.lanes[0];
      var reaches := CollectSuccessors(net, fromLane);
      violations := violations + [Violation(s.index, fromLane, toLane, reaches, FedBy(net, toLane))];
      possible := Lanes(s);
      assert toLane in possible;
      ghost var w := Walk(possible, violations, u.cuts + [k]);
      ExtendWalk(net, candidates, trace, k, w);
      trace := trace + [w];
    }
    assert candidates[..|candidates|] == candidates;
  }

  lemma CandidatesAreWellFormed(net: Net, points: seq<seq<LaneId>>)
    requires forall i :: 0 <= i < |points| ==> Resolves(net, points[i])
    ensures WellFormed(net, OnNetwork(points))
  {
    OnNetworkKeepsOrder(points);
  }

  /** Walk the polyline. Empty means drivable; otherwise there are exactly as many violations as the
      best possible explanation of the polyline has illegal steps. */
  method CheckEgoRoute(points: seq<seq<LaneId>>, net: Net) returns (violations: seq<Violation>)
    requires forall i :: 0 <= i < |points| ==> Resolves(net, points[i])
    ensures OnNetwork(points) == [] ==> violations == []
    ensures OnNetwork(points) != [] ==>
              && IsMinimumBreaks(net, OnNetwork(points), |violations|)
              && (violations == [] <==> Explainable(net, OnNetwork(points)))
    ensures OnNetwork(points) != [] ==>
              exists trace: seq<Walk> ::
                IsWalk(net, OnNetwork(points), trace) && trace[|trace| - 1].violations == violations
    ensures forall v :: v in violations ==> NamesNeighbours(net, points, v)
  {
    hide NamesNeighbours, IsWalk, IsMinimumBreaks, Explainable, Leads, OnNetwork, WellFormed;
    var candidates := CollectCandidates(points);
    CandidatesAreWellFormed(net, points);
    if candidates == [] {
      return [];
    }
    ghost var trace;
    violations, trace := WalkSamples(net, candidates);
    WalkCountsMinimumBreaks(net, candidates, trace);
    NoViolationsMeansExplainable(net, candidates, trace);
    ViolationsNameNeighbours(net, points, trace);
  }
}
