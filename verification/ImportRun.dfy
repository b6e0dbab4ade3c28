/** _isolate_import and _restore_stash at work on the disk, one file operation at a time. */
module ImportRun {
  import opened Common
  import opened Text
  import opened ImportTree
  import opened ImportIsolation
  import opened ImportRecovery

  class ImportArea {
    var disk: Disk
    /** Every state the disk went through. */
    ghost var trace: seq<Disk>

    constructor (disk: Disk)
      ensures this.disk == disk && trace == [disk] && Tracking()
    {
      this.disk := disk;
      trace := [disk];
    }

    ghost predicate Tracking()
      reads this
    {
      trace != [] && trace[|trace| - 1] == disk
    }

    method Become(d: Disk)
      modifies this
      ensures disk == d && trace == old(trace) + [d]
    {
      disk := d;
      trace := trace + [d];
    }

    /** Drop the folders of the stash that hold nothing, then the stash itself if nothing is left. */
    method Sweep(ghost orig: Tree, ghost extra: Tree, ghost items: set<Path>)
      requires Tracking() && disk.stash.Some?
      modifies this
      ensures Tracking() && disk == SweptDisk(old(disk)) && old(trace) <= trace
      ensures SweepReady(orig, extra, items, old(disk)) ==> AllRecoverable(orig, extra, items, trace, |old(trace)|)
    {
      hide SweepReady, AllRecoverable, Recoverable;
      NothingToRecover(orig, extra, items, trace);
      var before := disk.stash.value;
      var todo := set q | q in before && Hollow(before, q);
      ghost var hollow := todo;
      ghost var ready := SweepReady(orig, extra, items, disk);
      assert before - (hollow - todo) == before;
      while todo != {}
        invariant todo <= hollow && Tracking() && old(trace) <= trace
        invariant disk == old(disk).(stash := Some(before - (hollow - todo)))
        invariant ready ==>
                    SweepReady(orig, extra, items, disk) && AllRecoverable(orig, extra, items, trace, |old(trace)|)
      {
        var q :| q in todo;
        assert before - (hollow - (todo - {q})) == before - (hollow - todo) - {q};
        ghost var next := disk.(stash := Some(disk.stash.value - {q}));
        if ready {
          HollowStill(before, hollow - todo, q);
          SweepingOne(orig, extra, items, disk, q);
          ReadyIsRecoverable(orig, extra, items, next);
          OneMoreRecoverable(orig, extra, items, trace, |old(trace)|, next);
        }
        Become(disk.(stash := Some(disk.stash.value - {q})));
        todo := todo - {q};
      }
      assert disk.stash.value == Swept(before);
      if disk.stash.value == map[] {
        if ready {
          SweepingLast(orig, extra, items, disk);
          ReadyIsRecoverable(orig, extra, items, disk.(stash := None));
          OneMoreRecoverable(orig, extra, items, trace, |old(trace)|, disk.(stash := None));
        }
        Become(disk.(stash := None));
      }
    }

    /** Move one item back unless something is in its place: the missing folders first, then the rename. */
    method RestoreName(n: Path) returns (raised: bool)
      requires Tracking() && disk.stash.Some?
      modifies this
      ensures Tracking() && disk.stash.Some? && raised == Blocked(old(disk), n)
      ensures raised ==> disk == old(disk) && trace == old(trace)
      ensures !raised ==> disk == RestoreOne(old(disk), n) && trace == old(trace) + RestoreSteps(old(disk), n)
    {
      raised := Blocked(disk, n);
      if !raised && n in disk.stash.value && n !in disk.imp {
        Become(disk.(imp := disk.imp + Scaffold(n)));
        Become(Disk(disk.imp + Taken(disk.stash.value, {n}), Some(Left(disk.stash.value, {n}))));
      }
    }

    /** The loop of _restore_stash; `k` names are done when it ends or a file is in the way. */
    method RestoreNames(names: seq<Path>) returns (raised: bool, ghost k: nat)
      requires Tracking() && disk.stash.Some?
      modifies this
      ensures Tracking() && disk.stash.Some? && k <= |names| && (raised <==> !Unblocked(old(disk), names))
      ensures disk == RestoreAll(old(disk), names[..k]) && trace == old(trace) + RestoreTrace(old(disk), names[..k])
      ensures Unblocked(old(disk), names[..k])
      ensures if raised then k < |names| && Blocked(disk, names[k]) else k == |names|
    {
      hide RestoreAll, RestoreTrace, RestoreSteps, Blocked, Unblocked;
      raised, k := false, 0;
      RestoreNothing(disk);
      assert names[..0] == [];
      for i := 0 to |names|
        invariant disk == RestoreAll(old(disk), names[..i]) && disk.stash.Some? && Unblocked(old(disk), names[..i])
        invariant Tracking() && trace == old(trace) + RestoreTrace(old(disk), names[..i]) && !raised && k == i
      {
        RestoreNext(old(disk), names, i);
        UnblockedNext(old(disk), names, i);
        raised := RestoreName(names[i]);
        if raised {
          return;
        }
        k := i + 1;
      }
      assert names[..|names|] == names;
    }

    /** Move `names` back, each where it came from, unless something is there by now, and drop the empty
        folders of the stash. From any disk an isolation of `orig` was killed on, with some of its
        `items` out and `extra` behind in the stash, every disk on the way is recoverable again. */
    method RestoreStash(names: seq<Path>, ghost orig: Tree, ghost extra: Tree, ghost items: set<Path>)
      returns (raised: bool)
      requires Tracking()
      modifies this
      ensures Tracking() && old(trace) <= trace && (raised <==> old(disk).stash.Some? && !Unblocked(old(disk), names))
      ensures !raised ==> disk == Restored(old(disk), names)
      ensures raised ==> exists k :: 0 <= k < |names| && Unblocked(old(disk), names[..k])
                                     && disk == RestoreAll(old(disk), names[..k]) && Blocked(disk, names[k])
      ensures Recoverable(orig, extra, items, old(disk)) && Reaches(names, items, Held(old(disk))) ==>
                !raised && AllRecoverable(orig, extra, items, trace, |old(trace)|)
    {
      hide Recoverable, Reaches, SweptDisk, RestoreAll, RestoreTrace, Blocked, Unblocked;
      if disk.stash.None? {
        return false;
      }
      if Recoverable(orig, extra, items, disk) && Reaches(names, items, Held(disk)) {
        RestoringRecoverable(orig, extra, items, disk, names);
      }
      ghost var k;
      raised, k := RestoreNames(names);
      if raised {
        return;
      }
      assert names[..|names|] == names;
      ghost var restored := trace;
      Sweep(orig, extra, items);
      assert forall i :: 0 <= i < |restored| ==> trace[i] == restored[i];
    }

    /** makedirs in the stash, then shutil.move; refused when something is in the way. */
    method SetAside(m: Path) returns (refused: bool)
      requires Tracking() && disk.stash.Some?
      modifies this
      ensures Tracking() && disk.stash.Some? && old(trace) <= trace && refused == Refused(old(disk), m)
      ensures !refused ==>
                disk == MovedOut(MadeWay(old(disk), m), m) && trace == old(trace) + [MadeWay(old(disk), m), disk]
    {
      refused := Refused(disk, m);
      if exists q :: q in Scaffold(m) && q in disk.stash.value && disk.stash.value[q].Leaf? {
        return;
      }
      Become(MadeWay(disk, m));
      if !refused {
        Become(MovedOut(disk, m));
      }
    }

    /** One more item after those moved so far. */
    method SetAsideMore(m: Path, ghost moved: seq<Path>, ghost start: Disk, ghost base: seq<Disk>)
      returns (refused: bool)
      requires Tracking() && disk.stash.Some?
      requires disk == SetAsideAll(start, moved) && trace == base + SetAsideTrace(start, moved)
          && Accepted(start, moved)
      modifies this
      ensures Tracking() && disk.stash.Some? && old(trace) <= trace && refused == Refused(SetAsideAll(start, moved), m)
      ensures !refused ==>
                && disk == SetAsideAll(start, moved + [m]) && trace == base + SetAsideTrace(start, moved + [m])
                && disk.imp == Left(old(disk).imp, {m}) && Accepted(start, moved + [m])
    {
      hide SetAsideAll, SetAsideTrace, Refused, Accepted;
      SetAsideNext(start, moved, m);
      refused := SetAside(m);
    }

    /** One descriptor of the top level and the asset folder beside it. */
    method SetAsidePackage(f: string, keep: string, moved0: seq<Path>, ghost start: Disk, ghost base: seq<Disk>)
      returns (moved: seq<Path>, refused: bool)
      requires Tracking() && disk.stash.Some? && SetsAside(f, keep)
      requires disk == SetAsideAll(start, moved0) && trace == base + SetAsideTrace(start, moved0)
          && Accepted(start, moved0)
      modifies this
      ensures Tracking() && disk.stash.Some? && old(trace) <= trace
      ensures refused ==> RefusesPackage(start, moved0, f)
      ensures !refused ==>
                && disk == SetAsideAll(start, moved) && trace == base + SetAsideTrace(start, moved)
                && Accepted(start, moved) && moved == moved0 + Package(Left(old(disk).imp, {[f]}), f)
    {
      hide SetAsideAll, SetAsideTrace, Refused, MadeWay, IsDescriptor, Accepted;
      moved := moved0;
      refused := SetAsideMore([f], moved, start, base);
      if refused {
        return;
      }
      moved := moved + [[f]];
      if IsFolder(disk.imp, [BaseOf(f)]) {
        refused := SetAsideMore([BaseOf(f)], moved, start, base);
        if refused {
          return;
        }
        moved := moved + [[BaseOf(f)]];
      }
    }

    /** The loop over sorted(os.listdir(import_dir)). */
    method SetAsideTops(keep: string, ghost items: set<Path>) returns (moved: seq<Path>, refused: bool)
      requires Tracking() && disk.stash.Some? && TopItems(disk.imp, keep) <= items && Apart(items)
      modifies this
      ensures Tracking() && disk.stash.Some? && old(trace) <= trace && (refused ==> RefusesAny(old(disk), items))
      ensures !refused ==>
                && disk == SetAsideAll(old(disk), moved) && trace == old(trace) + SetAsideTrace(old(disk), moved)
                && IsPermutationOf(moved, TopItems(old(disk).imp, keep)) && Accepted(old(disk), moved)
    {
      hide RefusesAny, SetAsideAll, SetAsideTrace, RefusesPackage, Accepted, Apart;
      var names := SortedNames(TopNames(disk.imp));
      ghost var t := disk.imp;
      moved, refused := [], false;
      NothingMovedYet(disk);
      for n := 0 to |names|
        invariant Tracking() && disk.stash.Some? && old(trace) <= trace && !refused
        invariant disk == SetAsideAll(old(disk), moved) && trace == old(trace) + SetAsideTrace(old(disk), moved)
        invariant IsPermutationOf(moved, TopItemsAmong(t, keep, names[..n])) && Accepted(old(disk), moved)
      {
        TopItemsOneMore(t, keep, names, n);
        var f := names[n];
        if !SetsAside(f, keep) {
          continue;
        }
        PackageSetAside(t, keep, names, n, moved, old(disk));
        PackageRefusal(t, keep, names, n, moved, old(disk), items);
        moved, refused := SetAsidePackage(f, keep, moved, old(disk), old(trace));
        if refused {
          return;
        }
      }
      assert names[..|names|] == names;
      assert TopItemsAmong(t, keep, names) == TopItems(t, keep);
    }

    /** The nested duplicates, each moved with the folders on its way made first. */
    method SetAsideEach(nested: seq<Path>, moved0: seq<Path>, ghost start: Disk, ghost base: seq<Disk>,
        ghost items: set<Path>)
      returns (refused: bool)
      requires Tracking() && disk.stash.Some? && IsPermutationOf(moved0 + nested, items) && Apart(items)
      requires disk == SetAsideAll(start, moved0) && trace == base + SetAsideTrace(start, moved0)
          && Accepted(start, moved0)
      modifies this
      ensures Tracking() && disk.stash.Some? && old(trace) <= trace && (refused ==> RefusesAny(start, items))
      ensures !refused ==>
                && disk == SetAsideAll(start, moved0 + nested) && trace == base + SetAsideTrace(start, moved0 + nested)
                && Accepted(start, moved0 + nested)
    {
      hide RefusesAny, SetAsideAll, SetAsideTrace, Refused, IsPermutationOf, Accepted, Apart;
      refused := false;
      ghost var moved := moved0;
      assert moved0 + nested[..0] == moved0;
      for i := 0 to |nested|
        invariant Tracking() && disk.stash.Some? && old(trace) <= trace && moved == moved0 + nested[..i] && !refused
        invariant disk == SetAsideAll(start, moved) && trace == base + SetAsideTrace(start, moved)
            && Accepted(start, moved)
      {
        MovedOneMore(moved0, nested, i);
        PrefixMayFollow(items, moved0, nested, i);
        RefusedFromTheStart(start, items, moved, nested[i]);
        refused := SetAsideMore(nested[i], moved, start, base);
        if refused {
          return;
        }
        moved := moved + [nested[i]];
      }
      MovedAll(moved0, nested);
    }

    /** Set aside everything but `keep`, whatever the stash still holds; the items moved come back, in
        the order they were moved, unless one of them was refused. */
    method SetAsideFor(keep: string) returns (moved: seq<Path>, refused: bool)
      requires Tracking() && WellFormed(disk.imp)
      modifies this
      ensures Tracking() && old(trace) <= trace
      ensures refused <==> RefusesAny(old(disk), ItemsOf(old(disk).imp, keep))
      ensures var start := Disk(old(disk).imp, Some(Held(old(disk))));
              !refused ==>
                && disk == SetAsideAll(start, moved) && trace == old(trace) + [start] + SetAsideTrace(start, moved)
                && IsPermutationOf(moved, ItemsOf(old(disk).imp, keep)) && Accepted(start, moved)
    {
      hide RefusesAny, SetAsideAll, SetAsideTrace, Accepted, Apart, WellFormed;
      Become(disk.(stash := Some(Held(disk))));
      ghost var start, base := disk, trace;
      ghost var items := ItemsOf(start.imp, keep);
      MakingStash(old(disk), items);
      ItemsAreApart(start.imp, keep);
      moved, refused := SetAsideTops(keep, items);
      if refused {
        return;
      }
      SettingAsideLeaves(start, moved);
      assert Elements(moved) == TopItems(start.imp, keep);
      if IsFile(disk.imp, [keep + DESCRIPTOR_EXT]) {
        var nested := NestedDuplicateRoots(disk.imp, keep);
        TopsThenNested(start.imp, keep, moved, nested);
        refused := SetAsideEach(nested, moved, start, base, items);
        if refused {
          return;
        }
        moved := moved + nested;
      }
      AcceptedExactly(start, items, moved);
    }

    /** What a killed cook left behind goes home first. */
    method Recover(ghost orig: Tree, ghost extra: Tree, ghost items: set<Path>)
      requires Tracking() && WellFormed(Held(disk))
      modifies this
      ensures Tracking() && old(trace) <= trace && disk == Recovered(old(disk))
      ensures Recoverable(orig, extra, items, old(disk)) ==> AllRecoverable(orig, extra, items, trace, |old(trace)|)
    {
      if disk.stash.None? {
        return;
      }
      var tops := SortedNames(TopNames(disk.stash.value));
      var names := seq(|tops|, i requires 0 <= i < |tops| => [tops[i]]);
      SortedTopsAreTops(tops, names, Held(disk));
      RecoveryMeans(disk, names);
      TopsReach(names, items, Held(disk));
      TopsAreUnblocked(disk, names);
      var raised := RestoreStash(names, orig, extra, items);
    }

    /** _isolate_import: recover, then set aside everything but `keep`. `from` is where the recovery ends
        in the trace. `orig`, `extra` and `items` are those of the isolation an earlier run was killed in, if any. */
    method IsolateImport(keep: string, ghost orig: Tree, ghost extra: Tree, ghost items: set<Path>)
      returns (moved: seq<Path>, refused: bool, ghost from: nat)
      requires Tracking() && WellFormed(disk.imp) && WellFormed(Held(disk))
      modifies this
      ensures Tracking() && old(trace) <= trace && |old(trace)| <= from <= |trace|
      ensures Recoverable(orig, extra, items, old(disk)) ==>
                AllRecoverable(orig, extra, items, trace[..from], |old(trace)|)
      ensures var home := Recovered(old(disk));
              && (refused <==> RefusesAny(home, ItemsOf(home.imp, keep)))
              && (!refused ==> SetOut(home, keep, moved, disk) && KeepsTheRest(home.imp, disk.imp, keep))
      ensures var home := Recovered(old(disk));
              Free(ItemsOf(home.imp, keep), Held(home)) ==>
                && !refused && Isolated(home, keep, moved, disk)
                && AllRecoverable(home.imp, Held(home), ItemsOf(home.imp, keep), trace, from)
    {
      hide Recoverable, AllRecoverable, SetAsideAll, SetAsideTrace, Accepted, Recovered, ItemsOf, Free, Isolated,
          RefusesAny, KeepsTheRest, SetOut;
      RecoveredStaysBehind(disk);
      Recover(orig, extra, items);
      from := |trace|;
      ghost var home, recovered := disk, trace;
      FreeIsUnhindered(home, keep);
      moved, refused := SetAsideFor(keep);
      assert trace[..from] == recovered;
      if !refused {
        SetOutKeepsTheRest(home, keep, moved, disk);
      }
      if Free(ItemsOf(home.imp, keep), Held(home)) {
        UnhinderedRefusesNone(home, ItemsOf(home.imp, keep));
        IsolationMeans(home, keep, moved, recovered, trace);
      }
    }
  }

  lemma UnblockedNext(d: Disk, names: seq<Path>, k: nat)
    requires k < |names| && Unblocked(d, names[..k])
    ensures Unblocked(d, names[..k + 1]) <==> !Blocked(RestoreAll(d, names[..k]), names[k])
    ensures Blocked(RestoreAll(d, names[..k]), names[k]) ==> !Unblocked(d, names)
  {
    hide Blocked, RestoreAll;
    assert names[..k + 1][..k] == names[..k] && names[..k + 1][k] == names[k];
    forall j | 0 <= j < k ensures names[..k + 1][..j] == names[..k][..j] && names[..k + 1][j] == names[..k][j] {
    }
  }

  lemma FreeIsUnhindered(home: Disk, keep: string)
    requires WellFormed(home.imp) && WellFormed(Held(home))
    requires forall q :: q in Held(home) ==> |q| > 0 && [q[0]] in home.imp
    ensures Free(ItemsOf(home.imp, keep), Held(home)) <==> Unhindered(home, ItemsOf(home.imp, keep))
  {
    ItemsAreItems(home.imp, keep);
  }

  lemma MakingStash(d: Disk, items: set<Path>)
    ensures Unhindered(d.(stash := Some(Held(d))), items) == Unhindered(d, items)
    ensures RefusesAny(d.(stash := Some(Held(d))), items) == RefusesAny(d, items)
  {
  }

  lemma NothingMovedYet(d: Disk)
    ensures SetAsideAll(d, []) == d && SetAsideTrace(d, []) == [] && Accepted(d, [])
  {
  }

  lemma PrefixMayFollow(items: set<Path>, moved0: seq<Path>, nested: seq<Path>, i: nat)
    requires IsPermutationOf(moved0 + nested, items) && i < |nested|
    ensures MayFollow(items, moved0 + nested[..i], nested[i])
  {
    var all, k := moved0 + nested, |moved0| + i;
    assert moved0 + nested[..i] == all[..k] && nested[i] == all[k];
    assert forall x :: x in all[..k] ==> x in all;
  }

  /** `d` is what the moves for a cook of `keep` make of `start`; whatever the stash held, none was refused. */
  ghost predicate SetOut(start: Disk, keep: string, moved: seq<Path>, d: Disk) {
    var open := Disk(start.imp, Some(Held(start)));
    IsPermutationOf(moved, ItemsOf(start.imp, keep)) && Accepted(open, moved) && d == SetAsideAll(open, moved)
  }

  /** `d` is an isolation for `keep` that set out from `start`: `moved` are its items, all out, what the
      stash held is still there, and the cook sees `keep`'s descriptor alone. */
  ghost predicate Isolated(start: Disk, keep: string, moved: seq<Path>, d: Disk) {
    && Unhindered(start, ItemsOf(start.imp, keep))
    && SetOut(start, keep, moved, d)
    && ShowsOnly(d.imp, keep) && KeepsTheRest(start.imp, d.imp, keep)
  }

  lemma SetOutKeepsTheRest(start: Disk, keep: string, moved: seq<Path>, d: Disk)
    requires WellFormed(start.imp)
    requires var open := Disk(start.imp, Some(Held(start)));
             && IsPermutationOf(moved, ItemsOf(start.imp, keep)) && Accepted(open, moved)
             && d == SetAsideAll(open, moved)
    ensures SetOut(start, keep, moved, d) && KeepsTheRest(start.imp, d.imp, keep)
  {
    hide ItemsOf, SetAsideAll, Accepted, KeepsTheRest, WellFormed;
    SettingAsideLeaves(Disk(start.imp, Some(Held(start))), moved);
    assert Elements(moved) == ItemsOf(start.imp, keep);
    TheRestIsKept(start.imp, keep);
  }

  lemma IsolationMeans(start: Disk, keep: string, moved: seq<Path>, before: seq<Disk>, after: seq<Disk>)
    requires Unhindered(start, ItemsOf(start.imp, keep)) && IsPermutationOf(moved, ItemsOf(start.imp, keep))
    requires var open := Disk(start.imp, Some(Held(start)));
             Accepted(open, moved) && after == before + [open] + SetAsideTrace(open, moved)
    ensures Isolated(start, keep, moved, SetAsideAll(Disk(start.imp, Some(Held(start))), moved))
    ensures AllRecoverable(start.imp, Held(start), ItemsOf(start.imp, keep), after, |before|)
  {
    hide ItemsOf, ShowsOnly, SetAsideAll, SetAsideTrace, Accepted, Unhindered, InTransit, AllRecoverable, KeepsTheRest;
    UnhinderedIsWellFormed(start, ItemsOf(start.imp, keep));
    var open, items := Disk(start.imp, Some(Held(start))), ItemsOf(start.imp, keep);
    MakingStash(start, items);
    NothingSetAside(open, items);
    TransitIsRecoverable(start.imp, Held(start), items, {}, open);
    SettingAside(open, items, moved, items);
    SettingAsideLeaves(open, moved);
    assert Elements(moved) == items;
    CookSeesOnlyKeep(start.imp, keep);
    TheRestIsKept(start.imp, keep);
    AllRecoverableFrom(start.imp, Held(start), items, before, open, SetAsideTrace(open, moved));
  }

  lemma UnhinderedIsWellFormed(start: Disk, items: set<Path>)
    requires Unhindered(start, items)
    ensures WellFormed(start.imp)
  {
  }

  lemma AllRecoverableFrom(orig: Tree, extra: Tree, items: set<Path>, before: seq<Disk>, start: Disk, steps: seq<Disk>)
    requires Recoverable(orig, extra, items, start) && AllRecoverable(orig, extra, items, steps, 0)
    ensures AllRecoverable(orig, extra, items, before + [start] + steps, |before|)
  {
    hide Recoverable;
    var all := before + [start] + steps;
    forall i | |before| <= i < |all| ensures Recoverable(orig, extra, items, all[i]) {
      if i > |before| {
        assert all[i] == steps[i - |before| - 1];
      }
    }
  }
}
