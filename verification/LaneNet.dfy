/** The road network as the drivability check sees it: which lanes one connection leads to, and
    which lanes a bounded number of connections can reach. */
module LaneNet {

  type LaneId = string

  /** A lane connection: the junction-interior lane it runs through ("" when it has none) and the
      lane it ends on. */
  datatype Connection = Connection(via: LaneId, to: LaneId)

  /** The lanes that resolve, each with its outgoing connections. */
  type Net = map<LaneId, seq<Connection>>

  function Destinations(cs: seq<Connection>): set<LaneId> {
    (set c | c in cs :: c.to) + (set c | c in cs && c.via != "" :: c.via)
  }

  function Successors(net: Net, lane: LaneId): set<LaneId>
    requires lane in net
  {
    Destinations(net[lane])
  }

  /** A connection of lane `a` ends on `b` or runs through it. */
  ghost predicate Leads(net: Net, a: LaneId, b: LaneId) {
    a in net && exists c :: c in net[a] && (b == c.to || (b == c.via && b != ""))
  }

  lemma SuccessorsAre(net: Net, lane: LaneId)
    requires lane in net
    ensures forall l :: l in Successors(net, lane) <==> Leads(net, lane, l)
  {
  }

  /** The loop over a lane's connections: both the interior lane and the destination count. */
  method CollectSuccessors(net: Net, lane: LaneId) returns (out: set<LaneId>)
    requires lane in net
    ensures out == Successors(net, lane)
    ensures forall l :: l in out <==> exists c :: c in net[lane] && (l == c.to || (l == c.via && l != ""))
  {
    var cs := net[lane];
    out := {};
    for i := 0 to |cs|
      invariant out == Destinations(cs[..i])
    {
      assert cs[..i + 1] == cs[..i] + [cs[i]];
      if cs[i].via != "" {
        out := out + {cs[i].via};
      }
      out := out + {cs[i].to};
    }
    assert cs[..|cs|] == cs;
  }

  // ------------------------------------------------------------------ routes

  /** Consecutive lanes follow a connection, and every lane that is left resolves in the net. */
  ghost predicate IsRoute(net: Net, p: seq<LaneId>) {
    && |p| > 0
    && forall i :: 0 <= i < |p| - 1 ==> p[i] in net && p[i + 1] in Successors(net, p[i])
  }

  ghost predicate RouteBetween(net: Net, p: seq<LaneId>, a: LaneId, b: LaneId) {
    IsRoute(net, p) && p[0] == a && p[|p| - 1] == b
  }

  /** Some route of 1 to `k` connections leads from `a` to `b` (possibly back to `a`). */
  ghost predicate WithinHops(net: Net, a: LaneId, b: LaneId, k: nat) {
    exists p: seq<LaneId> :: RouteBetween(net, p, a, b) && 2 <= |p| <= k + 1
  }

  lemma OneConnectionIsWithinHops(net: Net, a: LaneId, b: LaneId, k: nat)
    requires a in net && b in Successors(net, a) && k >= 1
    ensures WithinHops(net, a, b, k)
  {
    assert RouteBetween(net, [a, b], a, b);
  }

  /** Everything one connection beyond `s`. */
  ghost function Expand(net: Net, s: set<LaneId>): set<LaneId> {
    set l, m | l in s && l in net && m in Successors(net, l) :: m
  }

  /** Lanes at most `n` connections from `a`, `a` itself included. */
  ghost function Ball(net: Net, a: LaneId, n: nat): set<LaneId> {
    if n == 0 then {a} else Ball(net, a, n - 1) + Expand(net, Ball(net, a, n - 1))
  }

  lemma {:induction false} RouteStaysInBall(net: Net, p: seq<LaneId>, n: nat)
    requires IsRoute(net, p) && |p| <= n + 1
    ensures p[|p| - 1] in Ball(net, p[0], n)
  {
    if n > 0 {
      if |p| == 1 {
        RouteStaysInBall(net, p, n - 1);
      } else {
        var q := p[..|p| - 1];
        assert IsRoute(net, q);
        RouteStaysInBall(net, q, n - 1);
        var l := q[|q| - 1];
        assert l == p[|p| - 2];
        assert l in net && p[|p| - 1] in Successors(net, l);
      }
    }
  }

  lemma {:induction false} BallHasRoute(net: Net, a: LaneId, n: nat, b: LaneId) returns (p: seq<LaneId>)
    requires b in Ball(net, a, n)
    ensures RouteBetween(net, p, a, b) && |p| <= n + 1
  {
    if n == 0 || b in Ball(net, a, n - 1) {
      if n == 0 { p := [a]; } else { p := BallHasRoute(net, a, n - 1, b); }
    } else {
      var l :| l in Ball(net, a, n - 1) && l in net && b in Successors(net, l);
      var q := BallHasRoute(net, a, n - 1, l);
      p := q + [b];
    }
  }

  /** The layered sets and the routes describe the same lanes. */
  lemma ExpandedBallIsWithinHops(net: Net, a: LaneId, b: LaneId, n: nat)
    ensures b in Expand(net, Ball(net, a, n)) <==> WithinHops(net, a, b, n + 1)
  {
    hide Successors, Ball;
    if b in Expand(net, Ball(net, a, n)) {
      var l :| l in Ball(net, a, n) && l in net && b in Successors(net, l);
      var q := BallHasRoute(net, a, n, l);
      assert RouteBetween(net, q + [b], a, b);
    }
    if WithinHops(net, a, b, n + 1) {
      var p: seq<LaneId> :| RouteBetween(net, p, a, b) && 2 <= |p| <= n + 2;
      var q := p[..|p| - 1];
      assert IsRoute(net, q);
      RouteStaysInBall(net, q, n);
      var l := q[|q| - 1];
      assert l == p[|p| - 2];
      assert l in net && b in Successors(net, l);
    }
  }

  /** Once a layer adds nothing, no later layer does. */
  lemma {:induction false} BallIsSaturated(net: Net, a: LaneId, n: nat, m: nat)
    requires n <= m && Expand(net, Ball(net, a, n)) <= Ball(net, a, n)
    ensures Ball(net, a, m) == Ball(net, a, n)
    decreases m - n
  {
    if n < m {
      assert Ball(net, a, n + 1) == Ball(net, a, n);
      BallIsSaturated(net, a, n + 1, m);
    }
  }

  // ---------------------------------------------------------- bounded search

  lemma ExpandUnion(net: Net, s: set<LaneId>, t: set<LaneId>)
    ensures Expand(net, s + t) == Expand(net, s) + Expand(net, t)
  {
  }

  lemma ExpandOne(net: Net, l: LaneId)
    ensures Expand(net, {l}) == if l in net then Successors(net, l) else {}
  {
  }

  /** The innermost loop of the search: look for the target, collect what was not seen before. */
  method Absorb(successors: set<LaneId>, target: LaneId, seen0: set<LaneId>, nxt0: set<LaneId>)
    returns (found: bool, seen: set<LaneId>, nxt: set<LaneId>)
    ensures found <==> target in successors
    ensures !found ==> seen == seen0 + successors && nxt == nxt0 + (successors - seen0)
  {
    found, seen, nxt := false, seen0, nxt0;
    var todo := successors;
    while todo != {}
      invariant todo <= successors && target !in successors - todo
      invariant seen == seen0 + (successors - todo)
      invariant nxt == nxt0 + (successors - todo - seen0)
    {
      var successor :| successor in todo;
      if successor == target {
        found := true;
        return;
      }
      if successor !in seen {
        seen, nxt := seen + {successor}, nxt + {successor};
      }
      todo := todo - {successor};
    }
  }

  /** One round: everything one connection beyond `frontier`, unless the target is among it. */
  method ExpandFrontier(net: Net, frontier: set<LaneId>, target: LaneId, seen0: set<LaneId>)
    returns (found: bool, seen: set<LaneId>, nxt: set<LaneId>)
    ensures found <==> target in Expand(net, frontier)
    ensures !found ==> seen == seen0 + Expand(net, frontier) && nxt == Expand(net, frontier) - seen0
  {
    found, seen, nxt := false, seen0, {};
    var todo := frontier;
    while todo != {}
      invariant todo <= frontier
      invariant seen == seen0 + Expand(net, frontier - todo)
      invariant nxt == Expand(net, frontier - todo) - seen0
      invariant target !in Expand(net, frontier - todo)
    {
      var here :| here in todo;
      ExpandUnion(net, frontier - todo, {here});
      ExpandOne(net, here);
      assert frontier - (todo - {here}) == frontier - todo + {here};
      if here in net {
        var successors := CollectSuccessors(net, here);
        found, seen, nxt := Absorb(successors, target, seen, nxt);
        if found {
          return;
        }
      }
      todo := todo - {here};
    }
    assert frontier - todo == frontier;
  }

  /** After `n` rounds without a hit: `seen` is everything within `n` connections, and everything
      beyond the lanes already expanded has been seen and compared with the target. */
  ghost predicate Layered(net: Net, a: LaneId, b: LaneId, n: nat, seen: set<LaneId>, frontier: set<LaneId>) {
    && seen == Ball(net, a, n)
    && frontier <= seen
    && Expand(net, seen - frontier) <= seen
    && b !in Expand(net, seen - frontier)
    && (n > 0 ==> seen - frontier == Ball(net, a, n - 1))
  }

  lemma NextLayer(net: Net, a: LaneId, b: LaneId, n: nat, seen: set<LaneId>, frontier: set<LaneId>)
    requires Layered(net, a, b, n, seen, frontier) && b !in Expand(net, frontier)
    ensures Layered(net, a, b, n + 1, seen + Expand(net, frontier), Expand(net, frontier) - seen)
  {
    ExpandUnion(net, seen - frontier, frontier);
    assert seen - frontier + frontier == seen;
    var grown := seen + Expand(net, frontier);
    assert grown - (Expand(net, frontier) - seen) == seen;
    assert grown == Ball(net, a, n + 1);
  }

  lemma FoundInLayer(net: Net, a: LaneId, b: LaneId, n: nat, k: nat, seen: set<LaneId>, frontier: set<LaneId>)
    requires Layered(net, a, b, n, seen, frontier) && b in Expand(net, frontier) && n < k
    ensures WithinHops(net, a, b, k)
  {
    assert b in Expand(net, Ball(net, a, n));
    ExpandedBallIsWithinHops(net, a, b, n);
  }

  lemma LastLayer(net: Net, a: LaneId, b: LaneId, n: nat, k: nat, seen: set<LaneId>, frontier: set<LaneId>)
    requires Layered(net, a, b, n, seen, frontier) && n <= k && (frontier == {} || n == k)
    ensures !WithinHops(net, a, b, k)
  {
    if k > 0 {
      if n < k {
        assert seen - frontier == seen;
        BallIsSaturated(net, a, n, k - 1);
      }
      ExpandedBallIsWithinHops(net, a, b, k - 1);
    }
  }

  /** Bounded breadth-first search. `seen` starts with the start lane, yet the target is compared
      before `seen` is consulted, so a loop back to the start is found; pruning by `seen` and
      stopping on an empty frontier lose nothing. */
  method ReachableWithin(net: Net, start: LaneId, target: LaneId, maxHops: nat) returns (found: bool)
    ensures found <==> WithinHops(net, start, target, maxHops)
  {
    var frontier, seen := {start}, {start};
    assert seen - frontier == {};
    for hop := 0 to maxHops
      invariant Layered(net, start, target, hop, seen, frontier)
    {
      ghost var before := seen;
      var nxt;
      found, seen, nxt := ExpandFrontier(net, frontier, target, seen);
      if found {
        FoundInLayer(net, start, target, hop, maxHops, before, frontier);
        return;
      }
      NextLayer(net, start, target, hop, before, frontier);
      if nxt == {} {
        LastLayer(net, start, target, hop + 1, maxHops, seen, nxt);
        return;
      }
      frontier := nxt;
    }
    LastLayer(net, start, target, maxHops, maxHops, seen, frontier);
    return false;
  }
}
