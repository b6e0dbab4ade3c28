/** What bringing a stash home does, from any disk an isolation, a restore or a recovery was killed on. */
module ImportRecovery {
  import opened Common
  import opened Text
  import opened ImportTree
  import opened ImportIsolation

  // ------------------------------------------------------------------------ recovery

  ghost predicate AreTops(names: seq<Path>, held: Tree) {
    IsPermutationOf(names, set a | a in TopNames(held) :: [a])
  }

  /** What of the stash lies under the given top-level names and has nothing in its place. */
  function Homeward(d: Disk, heads: set<string>): Tree {
    map q | q in Held(d) && |q| > 0 && q[0] in heads && [q[0]] !in d.imp :: Held(d)[q]
  }

  function Heads(names: seq<Path>): set<string> {
    set n | n in names && |n| == 1 :: n[0]
  }

  lemma UnderSingle(a: string, q: Path)
    ensures UnderAny({[a]}, q) <==> |q| > 0 && q[0] == a
  {
    UnderOneMore({}, [a], q);
  }

  lemma HomewardKeys(d: Disk, heads: set<string>, a: string, q: Path)
    requires a !in heads && [a] !in d.imp
    ensures q in Homeward(d, heads + {a}) <==> q in Homeward(d, heads) || (q in Held(d) && |q| > 0 && q[0] == a)
    ensures q in Homeward(d, heads) ==> !(|q| > 0 && q[0] == a)
  {
  }

  lemma HomewardOneMore(d: Disk, heads: set<string>, a: string)
    requires a !in heads && [a] !in d.imp
    ensures Homeward(d, heads + {a}) == Homeward(d, heads) + Taken(Held(d) - Homeward(d, heads).Keys, {[a]})
    ensures Left(Held(d) - Homeward(d, heads).Keys, {[a]}) == Held(d) - Homeward(d, heads + {a}).Keys
  {
    var before, home := Homeward(d, heads), Homeward(d, heads + {a});
    var held := Held(d) - before.Keys;
    forall q
      ensures UnderAny({[a]}, q) <==> |q| > 0 && q[0] == a
      ensures q in home <==> q in before || (q in Held(d) && |q| > 0 && q[0] == a)
      ensures q in before ==> !(|q| > 0 && q[0] == a)
    {
      UnderSingle(a, q);
      HomewardKeys(d, heads, a, q);
    }
    HomewardSplits(Held(d), before, home, a);
  }

  /** The same, said of any maps that are parts of the stash. */
  lemma HomewardSplits(held: Tree, before: Tree, home: Tree, a: string)
    requires forall q :: UnderAny({[a]}, q) <==> |q| > 0 && q[0] == a
    requires forall q :: q in home <==> q in before || (q in held && |q| > 0 && q[0] == a)
    requires forall q :: q in before ==> q in held && before[q] == held[q]
    requires forall q :: q in home ==> home[q] == held[q]
    ensures home == before + Taken(held - before.Keys, {[a]})
    ensures Left(held - before.Keys, {[a]}) == held - home.Keys
  {
  }

  lemma RecoveringOne(d: Disk, heads: set<string>, a: string)
    requires d.stash.Some? && [a] in Held(d) && a !in heads
    ensures RestoreOne(Disk(d.imp + Homeward(d, heads), Some(Held(d) - Homeward(d, heads).Keys)), [a]) ==
            Disk(d.imp + Homeward(d, heads + {a}), Some(Held(d) - Homeward(d, heads + {a}).Keys))
  {
    var before, home := Homeward(d, heads), Homeward(d, heads + {a});
    if [a] in d.imp {
      assert home == before;
    } else {
      HomewardOneMore(d, heads, a);
      var held := Held(d) - before.Keys;
      assert [a] in held && [a] !in before;
      assert Scaffold([a]) == map[];
      assert d.imp + before + map[] == d.imp + before;
      assert d.imp + before + Taken(held, {[a]}) == d.imp + home;
    }
  }

  lemma {:induction false} RecoveringNames(d: Disk, names: seq<Path>, k: nat)
    requires d.stash.Some? && AreTops(names, Held(d)) && k <= |names|
    ensures RestoreAll(d, names[..k]) ==
            Disk(d.imp + Homeward(d, Heads(names[..k])), Some(Held(d) - Homeward(d, Heads(names[..k])).Keys))
  {
    if k == 0 {
      var home := Homeward(d, Heads(names[..0]));
      assert names[..0] == [] && Heads(names[..0]) == {} && home == map[];
      assert d.imp + home == d.imp && Held(d) - home.Keys == Held(d);
    } else {
      RecoveringNames(d, names, k - 1);
      assert names[k - 1] in names;
      var a :| a in TopNames(Held(d)) && names[k - 1] == [a];
      TopNameIs(Held(d), a);
      HeadsOneMore(names, k - 1, a);
      assert names[..k][..k - 1] == names[..k - 1];
      RecoveringOne(d, Heads(names[..k - 1]), a);
    }
  }

  lemma HeadsOneMore(names: seq<Path>, k: nat, a: string)
    requires k < |names| && names[k] == [a] && forall i :: 0 <= i < k ==> names[i] != names[k]
    ensures Heads(names[..k + 1]) == Heads(names[..k]) + {a} && a !in Heads(names[..k])
  {
    assert names[..k + 1] == names[..k] + [[a]];
    assert [a][0] == a;
    forall n | n in names[..k] ensures n != [a] {
    }
  }

  /** Recovering brings home every top-level entry of the stash that nothing has replaced, with all
      it holds, overwrites nothing, and leaves the rest in the stash. */
  lemma RecoveryMeans(d: Disk, names: seq<Path>)
    requires d.stash.Some? && AreTops(names, Held(d)) && WellFormed(Held(d))
    ensures RestoreAll(d, names).imp == d.imp + Homeward(d, TopNames(Held(d)))
    ensures Held(RestoreAll(d, names)) == Held(d) - Homeward(d, TopNames(Held(d))).Keys
    ensures forall q :: q in Homeward(d, TopNames(Held(d))) <==> q in Held(d) && [q[0]] !in d.imp
  {
    RecoveringNames(d, names, |names|);
    assert names[..|names|] == names;
    assert Heads(names) == TopNames(Held(d)) by {
      forall a | a in TopNames(Held(d)) ensures a in Heads(names) {
        assert [a] in names && [a][0] == a;
      }
    }
    forall q | q in Held(d) ensures |q| > 0 && q[0] in TopNames(Held(d)) {
      if |q| > 1 {
        assert q[..1] in Held(d) && q[..1][0] == q[0];
      }
    }
  }

  /** What recovering makes of a disk. */
  function Recovered(d: Disk): Disk {
    if d.stash.None? then d
    else
      var home := Homeward(d, TopNames(Held(d)));
      SweptDisk(Disk(d.imp + home, Some(Held(d) - home.Keys)))
  }

  lemma SweptIsWellFormed(t: Tree)
    requires WellFormed(t)
    ensures WellFormed(Swept(t))
  {
    forall p, k | p in Swept(t) && 0 < k < |p| ensures !Hollow(t, p[..k]) {
      assert p in t && p[..k] < p;
    }
  }

  lemma HomeIsWellFormed(d: Disk)
    requires WellFormed(d.imp) && WellFormed(Held(d))
    ensures var home := Homeward(d, TopNames(Held(d)));
            WellFormed(d.imp + home) && WellFormed(Held(d) - home.Keys)
  {
    var home := Homeward(d, TopNames(Held(d)));
    forall p: Path, k | 0 < k < |p| ensures p[..k] != [] && p[..k][0] == p[0] && (p in d.imp ==> [p[0]] in d.imp) {
      assert p[..1] == [p[0]];
    }
    forall p | p in d.imp && |p| == 1 ensures [p[0]] in d.imp {
      assert p == [p[0]];
    }
  }

  /** After recovering, everything that stays in the stash is below a folder that Import/ has. */
  lemma RecoveredStaysBehind(d: Disk)
    requires WellFormed(d.imp) && WellFormed(Held(d))
    ensures var home := Recovered(d);
            && WellFormed(home.imp) && WellFormed(Held(home))
            && forall q :: q in Held(home) ==> |q| > 0 && [q[0]] in home.imp
  {
    if d.stash.Some? {
      HomeIsWellFormed(d);
      var home := Homeward(d, TopNames(Held(d)));
      SweptIsWellFormed(Held(d) - home.Keys);
      forall q | q in Held(d) && q !in home ensures [q[0]] in d.imp {
        HeadIsThere(Held(d), q);
      }
    }
  }

  lemma HeadIsThere(t: Tree, q: Path)
    requires WellFormed(t) && q in t
    ensures |q| > 0 && [q[0]] in t && q[0] in TopNames(t)
  {
    PrefixIsThere(t, q[..1], q);
    TopNameIs(t, q[0]);
  }

  // ------------------------------------------------------------ dropping the empty folders

  ghost predicate Nested(items: set<Path>) {
    forall m :: m in items ==> |m| > 1
  }

  /** Only duplicates from below the top level are still out. */
  ghost predicate SweepReady(orig: Tree, extra: Tree, items: set<Path>, d: Disk) {
    exists w: Tree, x: Tree, out: set<Path> ::
      Thinner(w, orig) && Thinner(x, extra) && Nested(out) && InTransit(w, x, items, out, d)
  }

  lemma ReadyIsRecoverable(orig: Tree, extra: Tree, items: set<Path>, d: Disk)
    requires SweepReady(orig, extra, items, d)
    ensures Recoverable(orig, extra, items, d)
  {
  }

  lemma ThinnerStill(a: Tree, b: Tree, c: Tree)
    requires Thinner(a, b) && Thinner(b, c)
    ensures Thinner(a, c)
  {
  }

  lemma SweepingOne(orig: Tree, extra: Tree, items: set<Path>, d: Disk, q: Path)
    requires SweepReady(orig, extra, items, d) && d.stash.Some? && Hollow(Held(d), q)
    ensures SweepReady(orig, extra, items, d.(stash := Some(d.stash.value - {q})))
  {
    hide InTransit, Hollow, Thinner, WithoutUnder;
    var w: Tree, x: Tree, out: set<Path> :|
      Thinner(w, orig) && Thinner(x, extra) && Nested(out) && InTransit(w, x, items, out, d);
    DroppingKeepsTransit(w, x, items, out, d, q);
    ThinnerStill(WithoutUnder(w, out, q), w, orig);
    ThinnerStill(x - {q}, x, extra);
    assert d.stash.value == Held(d);
  }

  lemma SweepingLast(orig: Tree, extra: Tree, items: set<Path>, d: Disk)
    requires SweepReady(orig, extra, items, d) && d.stash == Some(map[])
    ensures SweepReady(orig, extra, items, d.(stash := None))
  {
    var w: Tree, x: Tree, out: set<Path> :|
      Thinner(w, orig) && Thinner(x, extra) && Nested(out) && InTransit(w, x, items, out, d);
    assert InTransit(w, x, items, out, d.(stash := None));
  }

  lemma OneMoreRecoverable(orig: Tree, extra: Tree, items: set<Path>, trace: seq<Disk>, from: nat, d: Disk)
    requires AllRecoverable(orig, extra, items, trace, from) && Recoverable(orig, extra, items, d)
    ensures AllRecoverable(orig, extra, items, trace + [d], from)
  {
  }

  lemma NothingToRecover(orig: Tree, extra: Tree, items: set<Path>, trace: seq<Disk>)
    ensures AllRecoverable(orig, extra, items, trace, |trace|)
  {
  }

  lemma HollowStill(before: Tree, gone: set<Path>, q: Path)
    requires Hollow(before, q) && q !in gone
    ensures Hollow(before - gone, q)
  {
  }

  /** The names reach every top-level item that is in the stash. */
  ghost predicate Reaches(names: seq<Path>, items: set<Path>, held: Tree) {
    && (forall i :: 0 <= i < |names| ==> Addressed(items, names[i]))
    && forall m :: m in items && |m| == 1 && m in held ==> m in names
  }

  /** Restoring from a disk an isolation was killed on. */
  lemma RestoringRecoverable(orig: Tree, extra: Tree, items: set<Path>, d: Disk, names: seq<Path>)
    requires Recoverable(orig, extra, items, d) && Reaches(names, items, Held(d))
    ensures AllRecoverable(orig, extra, items, RestoreTrace(d, names), 0)
    ensures SweepReady(orig, extra, items, RestoreAll(d, names)) && Unblocked(d, names)
  {
    hide InTransit, Thinner, RestoreTrace, RestoreAll, Unblocked;
    var w: Tree, x: Tree, out: set<Path> :| Thinner(w, orig) && Thinner(x, extra) && InTransit(w, x, items, out, d);
    RestoringAll(w, x, items, out, d, names);
    RestoringIsUnblocked(w, x, items, out, d, names);
    AllThicker(orig, extra, w, x, items, RestoreTrace(d, names));
    AllReached(w, x, items, out, d, names);
  }

  lemma AllReached(orig: Tree, extra: Tree, items: set<Path>, out: set<Path>, d: Disk, names: seq<Path>)
    requires InTransit(orig, extra, items, out, d) && Reaches(names, items, Held(d))
    ensures Nested(out - Elements(names))
  {
    forall m | m in out - Elements(names) ensures |m| > 1 {
      HeldItem(orig, extra, items, out, d, m);
    }
  }

  lemma AllThicker(orig: Tree, extra: Tree, w: Tree, x: Tree, items: set<Path>, trace: seq<Disk>)
    requires Thinner(w, orig) && Thinner(x, extra) && AllRecoverable(w, x, items, trace, 0)
    ensures AllRecoverable(orig, extra, items, trace, 0)
  {
    hide InTransit, Thinner;
    forall i | 0 <= i < |trace| ensures Recoverable(orig, extra, items, trace[i]) {
      var w': Tree, x': Tree, out: set<Path> :|
        Thinner(w', w) && Thinner(x', x) && InTransit(w', x', items, out, trace[i]);
      ThinnerStill(w', w, orig);
      ThinnerStill(x', x, extra);
    }
  }

  lemma SortedTopsAreTops(tops: seq<string>, names: seq<Path>, held: Tree)
    requires IsSorted(tops) && (forall x :: x in tops <==> x in TopNames(held))
    requires |names| == |tops| && forall i :: 0 <= i < |tops| ==> names[i] == [tops[i]]
    ensures AreTops(names, held)
  {
    forall a | a in TopNames(held) ensures [a] in names {
      var i :| 0 <= i < |tops| && tops[i] == a;
      assert names[i] == [a];
    }
    forall i, j | 0 <= i < j < |names| ensures names[i] != names[j] {
      assert names[i][0] == tops[i] && names[j][0] == tops[j];
    }
  }

  lemma TopsReach(names: seq<Path>, items: set<Path>, held: Tree)
    requires AreTops(names, held)
    ensures Reaches(names, items, held)
  {
    forall m | m in items && |m| == 1 && m in held ensures m in names {
      TopNameIs(held, m[0]);
      assert m == [m[0]];
    }
    assert forall i :: 0 <= i < |names| ==> names[i] in names;
  }

  lemma TopsAreUnblocked(d: Disk, names: seq<Path>)
    requires forall i :: 0 <= i < |names| ==> |names[i]| == 1
    ensures Unblocked(d, names)
  {
    forall i | 0 <= i < |names| ensures Scaffold(names[i]) == map[] {
    }
  }
}
