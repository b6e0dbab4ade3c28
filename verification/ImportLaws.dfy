/** What isolating and restoring Import/ promise: the round trip, and recovery after a kill. */
module ImportLaws {
  import opened Common
  import opened Text
  import opened ImportTree
  import opened ImportIsolation
  import opened ImportRecovery
  import opened ImportRun

  // -------------------------------------------------------------------- the round trip

  lemma IsolatedInTransit(start: Disk, keep: string, moved: seq<Path>, d: Disk)
    requires Isolated(start, keep, moved, d)
    ensures InTransit(start.imp, Held(start), ItemsOf(start.imp, keep), ItemsOf(start.imp, keep), d)
    ensures forall i :: 0 <= i < |moved| ==> Addressed(ItemsOf(start.imp, keep), moved[i])
    ensures Elements(moved) == ItemsOf(start.imp, keep)
  {
    hide InTransit, ItemsOf, Unhindered, SetAsideAll, AllRecoverable;
    var open := Disk(start.imp, Some(Held(start)));
    MakingStash(start, ItemsOf(start.imp, keep));
    SettingAside(open, ItemsOf(start.imp, keep), moved, ItemsOf(start.imp, keep));
    assert forall i :: 0 <= i < |moved| ==> moved[i] in moved;
  }

  /** Moving everything set aside back. */
  lemma BackAgain(start: Disk, keep: string, moved: seq<Path>, d: Disk)
    requires Isolated(start, keep, moved, d)
    ensures InTransit(start.imp, Held(start), ItemsOf(start.imp, keep), {}, RestoreAll(d, moved))
    ensures RestoreAll(d, moved).imp == start.imp
  {
    var items := ItemsOf(start.imp, keep);
    IsolatedInTransit(start, keep, moved, d);
    hide InTransit, Isolated, ItemsOf, RestoreAll;
    RestoringAll(start.imp, Held(start), items, items, d, moved);
    assert items - items == {};
    NothingOut(start.imp, Held(start), items, RestoreAll(d, moved));
  }

  lemma NothingOut(orig: Tree, extra: Tree, items: set<Path>, d: Disk)
    requires InTransit(orig, extra, items, {}, d)
    ensures d.imp == orig
    ensures forall q :: q in extra ==> q in Held(d) && Held(d)[q] == extra[q]
    ensures forall q :: q in Held(d) ==> q in extra || (AboveAny(items, q) && Held(d)[q].Folder?)
  {
    assert Left(orig, {}) == orig;
  }

  /** Import/ is back as it was and the stash has lost no file. */
  ghost predicate ComesBack(start: Disk, after: Disk) {
    && after.imp == start.imp
    && forall q :: q in Held(start) && Held(start)[q].Leaf? ==> q in Held(after) && Held(after)[q] == Held(start)[q]
  }

  /** Restoring after an isolation, with nothing changed in between, gives back Import/ exactly, and
      leaves every file that the stash held before. */
  lemma IsolateThenRestore(start: Disk, keep: string, moved: seq<Path>, d: Disk)
    requires Isolated(start, keep, moved, d)
    ensures ComesBack(start, Restored(d, moved))
  {
    hide Isolated, RestoreAll, InTransit, ItemsOf;
    BackAgain(start, keep, moved, d);
    NothingOut(start.imp, Held(start), ItemsOf(start.imp, keep), RestoreAll(d, moved));
    FilesSwept(Held(RestoreAll(d, moved)));
    StashIsThere(start, keep, moved, d);
  }

  lemma StashIsThere(start: Disk, keep: string, moved: seq<Path>, d: Disk)
    requires Isolated(start, keep, moved, d)
    ensures d.stash.Some?
  {
    SettingAsideLeaves(Disk(start.imp, Some(Held(start))), moved);
  }

  /** Dropping empty folders drops no file. */
  lemma FilesSwept(t: Tree)
    ensures forall q :: q in Swept(t) && Swept(t)[q].Leaf? <==> q in t && t[q].Leaf?
  {
  }

  function WayTree(ms: seq<Path>): Tree {
    if ms == [] then map[] else WayTree(ms[..|ms| - 1]) + Scaffold(ms[|ms| - 1])
  }

  lemma {:induction false} WayTreeIs(ms: seq<Path>, q: Path)
    ensures q in WayTree(ms) <==> AboveAny(Elements(ms), q)
    ensures q in WayTree(ms) ==> WayTree(ms)[q].Folder?
  {
    if ms != [] {
      var n := |ms| - 1;
      WayTreeIs(ms[..n], q);
      ScaffoldIs(ms[n], q);
      assert ms == ms[..n] + [ms[n]];
      assert Elements(ms) == Elements(ms[..n]) + {ms[n]};
    }
  }

  /** A restore over a tree the cook changed keeps step with the same restore over an unchanged one. */
  ghost predicate InStep(orig: Tree, done: seq<Path>, imp: Tree, e: Disk, d: Disk) {
    && e.stash.Some? && Held(e) == Held(d)
    && e.imp == imp + WayTree(done) + Taken(orig, Elements(done))
  }

  lemma {:induction false} RestoringInStep(orig: Tree, extra: Tree, items: set<Path>, moved: seq<Path>, d: Disk,
      imp: Tree, k: nat)
    requires InTransit(orig, extra, items, items, d) && IsPermutationOf(moved, items)
    requires d.stash.Some? && k <= |moved| && forall m :: m in items ==> m !in imp
    ensures InStep(orig, moved[..k], imp, RestoreAll(Disk(imp, d.stash), moved[..k]), RestoreAll(d, moved[..k]))
  {
    hide *;
    if k == 0 {
      NothingBack(orig, d, imp);
      assert moved[..0] == [];
    } else {
      var done, m := moved[..k - 1], moved[k - 1];
      RestoringInStep(orig, extra, items, moved, d, imp, k - 1);
      BackSoFar(orig, extra, items, moved, d, k - 1);
      RestoreNext(d, moved, k - 1);
      RestoreNext(Disk(imp, d.stash), moved, k - 1);
      StayInStep(orig, extra, items, done, m, RestoreAll(Disk(imp, d.stash), done), RestoreAll(d, done), imp);
    }
  }

  lemma NothingBack(orig: Tree, d: Disk, imp: Tree)
    requires d.stash.Some?
    ensures InStep(orig, [], imp, RestoreAll(Disk(imp, d.stash), []), RestoreAll(d, []))
  {
    assert Taken(orig, Elements([])) == map[];
  }

  lemma NextIsNew(items: set<Path>, moved: seq<Path>, k: nat)
    requires IsPermutationOf(moved, items) && k < |moved|
    ensures moved[..k + 1] == moved[..k] + [moved[k]]
    ensures Elements(moved[..k]) <= items && moved[k] in items && moved[k] !in Elements(moved[..k])
    ensures forall i :: 0 <= i < |moved| ==> Addressed(items, moved[i])
  {
  }

  /** Part of the way through a restore, the next item is still out. */
  lemma BackSoFar(orig: Tree, extra: Tree, items: set<Path>, moved: seq<Path>, d: Disk, k: nat)
    requires InTransit(orig, extra, items, items, d) && IsPermutationOf(moved, items) && k < |moved|
    ensures moved[..k + 1] == moved[..k] + [moved[k]]
    ensures Elements(moved[..k]) <= items && moved[k] in items && moved[k] !in Elements(moved[..k])
    ensures InTransit(orig, extra, items, items - Elements(moved[..k]), RestoreAll(d, moved[..k]))
  {
    hide InTransit, RestoreAll, IsPermutationOf, AllRecoverable, Addressed, Elements;
    NextIsNew(items, moved, k);
    RestoringNames(orig, extra, items, items, d, moved, k);
  }

  lemma StayInStep(orig: Tree, extra: Tree, items: set<Path>, done: seq<Path>, m: Path, e: Disk, d: Disk, imp: Tree)
    requires InStep(orig, done, imp, e, d) && InTransit(orig, extra, items, items - Elements(done), d)
    requires Elements(done) <= items && m in items && m !in Elements(done) && m !in imp
    ensures InStep(orig, done + [m], imp, RestoreOne(e, m), RestoreOne(d, m))
  {
    hide AreItems, StaysBehind, Holds;
    HeldItem(orig, extra, items, items - Elements(done), d, m);
    ItemsAreThere(orig, items);
    NotBackYet(orig, items, done, m, imp);
    DoneOneMore(orig, done, m);
    ScaffoldOffItems(orig, items, done, m);
    Commute(imp, WayTree(done), Taken(orig, Elements(done)), Scaffold(m), Taken(orig, {m}));
    assert RestoreOne(e, m) == MovedBack(e, m) && RestoreOne(d, m) == MovedBack(d, m);
  }

  lemma DoneOneMore(orig: Tree, done: seq<Path>, m: Path)
    ensures WayTree(done + [m]) == WayTree(done) + Scaffold(m)
    ensures Taken(orig, Elements(done + [m])) == Taken(orig, Elements(done)) + Taken(orig, {m})
  {
    assert (done + [m])[..|done|] == done;
    assert Elements(done + [m]) == Elements(done) + {m};
    TakenOfUnion(orig, Elements(done), m);
  }

  lemma ScaffoldOffItems(orig: Tree, items: set<Path>, done: seq<Path>, m: Path)
    requires Apart(items) && Elements(done) <= items && m in items
    ensures Taken(orig, Elements(done)).Keys !! Scaffold(m).Keys
  {
    forall q | q in Scaffold(m) ensures q !in Taken(orig, Elements(done)) {
      ScaffoldIsClear(items, Elements(done), m, q);
    }
  }

  lemma NotBackYet(orig: Tree, items: set<Path>, done: seq<Path>, m: Path, imp: Tree)
    requires Apart(items) && Elements(done) <= items && m in items && m !in Elements(done) && m !in imp
    ensures m !in imp + WayTree(done) + Taken(orig, Elements(done))
  {
    ItemIsOutOrIn(items, Elements(done), m);
    WayTreeIs(done, m);
    NotAboveFewer(items, Elements(done), m);
  }

  /** Whatever the cook did to the rest of Import/, everything set aside comes back where it was, as it
      was, and what the cook left there stays, if nothing has taken an item's place; and the restore does not
      raise, if no folder on the way to one has been made a file. */
  lemma RestoreAfterCook(start: Disk, keep: string, moved: seq<Path>, d: Disk, imp: Tree)
    requires Isolated(start, keep, moved, d) && forall m :: m in ItemsOf(start.imp, keep) ==> m !in imp
    ensures Restored(Disk(imp, d.stash), moved).imp == imp + WayTree(moved) + Taken(start.imp, ItemsOf(start.imp, keep))
    ensures (forall q :: q in imp && AboveAny(ItemsOf(start.imp, keep), q) ==> imp[q].Folder?) ==>
              Unblocked(Disk(imp, d.stash), moved)
  {
    var items := ItemsOf(start.imp, keep);
    IsolatedInTransit(start, keep, moved, d);
    StashIsThere(start, keep, moved, d);
    hide InTransit, ItemsOf, RestoreAll, IsPermutationOf, Unhindered, SetAsideAll, Blocked, AboveAny;
    RestoringInStep(start.imp, Held(start), items, moved, d, imp, |moved|);
    assert moved[..|moved|] == moved;
    if forall q :: q in imp && AboveAny(items, q) ==> imp[q].Folder? {
      forall k | 0 <= k < |moved| ensures !Blocked(RestoreAll(Disk(imp, d.stash), moved[..k]), moved[k]) {
        RestoringInStep(start.imp, Held(start), items, moved, d, imp, k);
        WayIsClear(start.imp, Held(start), items, moved, d, imp, k, RestoreAll(Disk(imp, d.stash), moved[..k]));
      }
    }
  }

  lemma WayIsClear(orig: Tree, extra: Tree, items: set<Path>, moved: seq<Path>, d: Disk, imp: Tree, k: nat, e: Disk)
    requires InTransit(orig, extra, items, items, d) && IsPermutationOf(moved, items) && k < |moved|
    requires e.imp == imp + WayTree(moved[..k]) + Taken(orig, Elements(moved[..k]))
    requires forall q :: q in imp && AboveAny(items, q) ==> imp[q].Folder?
    ensures !Blocked(e, moved[k])
  {
    ItemsAreThere(orig, items);
    assert moved[k] in moved;
    forall q | q in Scaffold(moved[k]) && q in e.imp ensures e.imp[q].Folder? {
      ScaffoldIs(moved[k], q);
      WaysAreFolders(orig, items, q);
      WayTreeIs(moved[..k], q);
    }
  }

  lemma NotAboveFewer(items: set<Path>, out: set<Path>, q: Path)
    requires out <= items && !AboveAny(items, q)
    ensures !AboveAny(out, q)
  {
  }

  lemma TakenOfUnion(t: Tree, items: set<Path>, m: Path)
    ensures Taken(t, items + {m}) == Taken(t, items) + Taken(t, {m})
  {
    forall q
      ensures UnderAny(items + {m}, q) <==> UnderAny(items, q) || m <= q
      ensures UnderAny({m}, q) <==> m <= q
    {
      UnderOneMore(items, m, q);
    }
  }

  lemma Commute(a: Tree, b: Tree, c: Tree, d: Tree, e: Tree)
    requires c.Keys !! d.Keys
    ensures a + b + c + d + e == a + (b + d) + (c + e)
  {
  }

  lemma OwnDescriptor(keep: string)
    ensures IsDescriptor(keep + DESCRIPTOR_EXT) ==> BaseOf(keep + DESCRIPTOR_EXT) == keep
  {
  }

  /** What lies in the folder of `keep`, and its canonical descriptor, are never set aside with the top level. */
  lemma OwnPathsAreNoTopItems(t: Tree, keep: string, q: Path)
    requires !IsDescriptor(keep) && q != [] && (q[0] == keep || (q == [keep + DESCRIPTOR_EXT] && IsFile(t, q)))
    ensures !UnderAny(TopItems(t, keep), q)
  {
    hide IsDescriptor, BaseOf;
    var own := keep + DESCRIPTOR_EXT;
    OwnDescriptor(keep);
    assert forall m :: m in TopItems(t, keep) ==> |m| == 1 && m[0] != keep && !(m == [own] && IsFile(t, [own]));
  }

  lemma OwnDuplicate(t: Tree, rest: Tree, keep: string)
    requires forall q :: q in rest ==> q in t && rest[q] == t[q]
    requires forall q: Path :: q != [] && q[0] == keep && q in t ==> q in rest
    ensures HoldsDuplicate(rest, [keep], keep) == HoldsDuplicate(t, [keep], keep)
  {
    forall q: Path | |q| == 2 && [keep] <= q ensures q != [] && q[0] == keep {
    }
  }

  /** The folder of the map being cooked stays in Import/, unless it directly holds a second descriptor. */
  lemma OwnFolderStaysUnlessDuplicate(t: Tree, keep: string)
    requires WellFormed(t) && IsFolder(t, [keep]) && !IsDescriptor(keep)
    ensures [keep] in Left(t, ItemsOf(t, keep)) <==>
            !(IsFile(t, [keep + DESCRIPTOR_EXT]) && HoldsDuplicate(t, [keep], keep))
  {
    hide HoldsDuplicate, IsDescriptor, TopItems;
    var rest := Left(t, TopItems(t, keep));
    forall q: Path | q in t && q != [] && q[0] == keep ensures q in rest {
      OwnPathsAreNoTopItems(t, keep, q);
    }
    if IsFile(t, [keep + DESCRIPTOR_EXT]) {
      OwnPathsAreNoTopItems(t, keep, [keep + DESCRIPTOR_EXT]);
    }
    OwnDuplicate(t, rest, keep);
    LeftOfUnion(t, TopItems(t, keep), OuterRoots(rest, keep));
    OwnRoot(rest, keep);
  }

  lemma OwnRoot(rest: Tree, keep: string)
    requires IsFolder(rest, [keep]) && [] !in rest
    ensures UnderAny(OuterRoots(rest, keep), [keep]) <==> HoldsDuplicate(rest, [keep], keep)
  {
    hide HoldsDuplicate;
    forall r: Path | r in rest && r <= [keep] ensures r == [keep] {
      assert r == [keep][..|r|];
    }
    if HoldsDuplicate(rest, [keep], keep) {
      assert [keep] in OuterRoots(rest, keep);
    }
  }

  /** The package of map "k" with a second descriptor for it in its own folder. */
  const TWIN: Tree := map[["k.json"] := Leaf("canonical"), ["k"] := Folder, ["k", "k.json"] := Leaf("duplicate")]

  /** Its own folder is set aside when it is cooked. */
  lemma OwnFolderGoes()
    ensures ["k"] in TWIN && ["k"] !in Left(TWIN, ItemsOf(TWIN, "k"))
  {
    hide ItemsOf, TopItems, HoldsDuplicate;
    TwinHolds();
    TwinIsPlain();
    OwnFolderStaysUnlessDuplicate(TWIN, "k");
  }

  lemma TwinHolds()
    ensures HoldsDuplicate(TWIN, ["k"], "k")
  {
    var q := ["k", "k.json"];
    assert q in TWIN && TWIN[q].Leaf? && q[1] == "k" + DESCRIPTOR_EXT;
  }

  lemma TwinIsPlain()
    ensures WellFormed(TWIN) && IsFolder(TWIN, ["k"]) && IsFile(TWIN, ["k" + DESCRIPTOR_EXT]) && !IsDescriptor("k")
  {
    assert ["k", "k.json"][..1] == ["k"] && "k" + DESCRIPTOR_EXT == "k.json";
  }

  // ------------------------------------------------------------------ what stays of the stash

  lemma {:induction false} WaysAreHeld(start: Disk, ms: seq<Path>, q: Path)
    requires AboveAny(Elements(ms), q)
    ensures q in Held(SetAsideAll(start, ms))
  {
    var n := |ms| - 1;
    if ms != [] {
      assert ms == ms[..n] + [ms[n]];
      assert Elements(ms) == Elements(ms[..n]) + {ms[n]};
      ScaffoldIs(ms[n], q);
      if AboveAny(Elements(ms[..n]), q) {
        WaysAreHeld(start, ms[..n], q);
      }
    }
  }

  lemma {:induction false} WaysStayHeld(items: set<Path>, d: Disk, names: seq<Path>, q: Path)
    requires Apart(items) && (forall n :: n in names ==> n in items) && AboveAny(items, q) && q in Held(d)
    ensures q in Held(RestoreAll(d, names))
  {
    if names != [] {
      var n := names[|names| - 1];
      WaysStayHeld(items, d, names[..|names| - 1], q);
      AboveIsNotUnder(items, q);
      UnderOneMore({}, n, q);
      assert n in names;
    }
  }

  /** After a restore the stash is gone exactly when it held nothing but empty top-level folders before,
      and nothing was set aside from deeper than one folder below the top. Otherwise folders stay behind in
      it, because the walk that drops them looks at each folder before its subfolders are dropped. */
  lemma StashGoneUnlessDeep(start: Disk, keep: string, moved: seq<Path>, d: Disk)
    requires Isolated(start, keep, moved, d)
    ensures Restored(d, moved).stash == None <==>
              && (forall m :: m in ItemsOf(start.imp, keep) ==> |m| <= 2)
              && forall q :: q in Held(start) ==> |q| == 1 && Held(start)[q].Folder?
    ensures forall q :: q in Held(Restored(d, moved)) && Held(Restored(d, moved))[q].Leaf? ==> q in Held(start)
  {
    var items, after := ItemsOf(start.imp, keep), RestoreAll(d, moved);
    BackAgain(start, keep, moved, d);
    IsolatedInTransit(start, keep, moved, d);
    SettingAsideLeaves(Disk(start.imp, Some(Held(start))), moved);
    NothingOut(start.imp, Held(start), items, after);
    ItemsAreThere(start.imp, items);
    hide InTransit, ItemsOf, Unhindered, SetAsideAll, RestoreAll, AreItems, StaysBehind;
    forall q | AboveAny(items, q) ensures q in Held(after) {
      WaysAreHeld(Disk(start.imp, Some(Held(start))), moved, q);
      WaysStayHeld(items, d, moved, q);
    }
    HeldIsWellFormed(start.imp, Held(start), items, after);
    SweptIsGone(Held(after));
    DeepWay(items);
  }

  lemma HeldIsWellFormed(orig: Tree, extra: Tree, items: set<Path>, d: Disk)
    requires InTransit(orig, extra, items, {}, d)
    ensures WellFormed(Held(d))
  {
  }

  /** An item deeper than one folder below the top is one that has a nested folder on its way. */
  lemma DeepWay(items: set<Path>)
    ensures (forall m :: m in items ==> |m| <= 2) <==> forall q :: AboveAny(items, q) ==> |q| == 1
  {
    forall m | m in items && |m| > 2 ensures AboveAny(items, m[..2]) {
      assert m[..2] < m;
    }
  }

  lemma SweptIsGone(t: Tree)
    requires WellFormed(t)
    ensures Swept(t) == map[] <==> forall q :: q in t ==> |q| == 1 && t[q].Folder?
  {
    if forall q :: q in t ==> |q| == 1 && t[q].Folder? {
      forall q | q in t ensures Hollow(t, q) {
      }
    } else {
      var q :| q in t && !(|q| == 1 && t[q].Folder?);
      if t[q].Folder? {
        assert q[..1] in t && q[..1] < q;
        assert q[..1] in Swept(t);
      } else {
        assert q in Swept(t);
      }
    }
  }

  /** A package three folders down holding a second descriptor for map "m". */
  const DEEP_ROOT: Path := ["A", "B", "C"]
  const DEEP: Tree := map[
    ["m.json"] := Leaf("canonical"), ["A"] := Folder, ["A", "B"] := Folder, DEEP_ROOT := Folder,
    DEEP_ROOT + ["m.json"] := Leaf("duplicate")]

  lemma DeepIsWellFormed()
    ensures WellFormed(DEEP)
  {
    assert DEEP_ROOT[..1] == ["A"] && DEEP_ROOT[..2] == ["A", "B"] && ["A", "B"][..1] == ["A"];
    var q := DEEP_ROOT + ["m.json"];
    assert q[..1] == ["A"] && q[..2] == ["A", "B"] && q[..3] == DEEP_ROOT;
  }

  lemma DeepTops()
    ensures TopItems(DEEP, "m") == {}
  {
    assert EndsWith("m.json", DESCRIPTOR_EXT) && BaseOf("m.json") == "m" by {
      assert "m.json" == "m" + DESCRIPTOR_EXT;
    }
    forall f | f in TopNames(DEEP) ensures !SetsAside(f, "m") {
      assert f == "m.json" || f == "A";
    }
  }

  lemma DeepHolds()
    ensures DEEP_ROOT in DEEP && DEEP[DEEP_ROOT].Folder? && HoldsDuplicate(DEEP, DEEP_ROOT, "m")
  {
    var q := DEEP_ROOT + ["m.json"];
    assert q in DEEP && DEEP[q] == Leaf("duplicate") && q[3] == "m" + DESCRIPTOR_EXT;
  }

  lemma DeepLeaf(q: Path)
    requires q in DEEP && DEEP[q].Leaf? && |q| > 1
    ensures q == DEEP_ROOT + ["m.json"]
  {
  }

  lemma DeepHoldsOnce(p: Path)
    requires p in DEEP && p != [] && HoldsDuplicate(DEEP, p, "m")
    ensures p == DEEP_ROOT
  {
    hide DEEP;
    var r :| r in DEEP && |r| == |p| + 1 && p <= r && DEEP[r].Leaf?;
    DeepLeaf(r);
    assert p == r[..|p|];
  }

  lemma DeepFile()
    ensures IsFile(DEEP, ["m" + DESCRIPTOR_EXT])
  {
    assert "m" + DESCRIPTOR_EXT == "m.json";
  }

  lemma OneRoot(t: Tree, keep: string, root: Path)
    requires TopItems(t, keep) == {} && IsFile(t, [keep + DESCRIPTOR_EXT])
    requires root in t && t[root].Folder? && HoldsDuplicate(t, root, keep)
    requires forall p :: p in t && HoldsDuplicate(t, p, keep) ==> p == root
    ensures ItemsOf(t, keep) == {root}
  {
    hide HoldsDuplicate;
    assert Left(t, {}) == t;
    assert DuplicateRoots(t, keep) == {root};
    assert OuterRoots(t, keep) == {root};
  }

  lemma FreshStart(t: Tree, keep: string)
    requires WellFormed(t)
    ensures Unhindered(Disk(t, None), ItemsOf(t, keep))
  {
    ItemsAreItems(t, keep);
  }

  /** Setting a single item aside, and nothing held before. */
  lemma OneItem(t: Tree, keep: string, root: Path)
    requires WellFormed(t) && ItemsOf(t, keep) == {root}
    ensures Isolated(Disk(t, None), keep, [root], SetAsideAll(Disk(t, Some(map[])), [root]))
  {
    hide *;
    var open := Disk(t, Some(map[]));
    FreshStart(t, keep);
    OneMove(t, root);
    IsolationMeans(Disk(t, None), keep, [root], [], [open] + SetAsideTrace(open, [root]));
  }

  lemma OneMove(t: Tree, root: Path)
    requires Unhindered(Disk(t, None), {root})
    ensures var open := Disk(t, Some(map[]));
            && Accepted(open, [root]) && IsPermutationOf([root], {root}) && Held(Disk(t, None)) == map[]
            && [open] + SetAsideTrace(open, [root]) == [] + [open] + SetAsideTrace(open, [root])
  {
    hide SetAsideAll, SetAsideTrace, Unhindered, Refused, Accepted;
    var open := Disk(t, Some(map[]));
    MakingStash(Disk(t, None), {root});
    NothingFollows(root);
    NotRefused(open, {root}, [], root);
    NothingMovedYet(open);
    SetAsideNext(open, [], root);
    assert [] + [root] == [root];
  }

  lemma NothingFollows(root: Path)
    ensures MayFollow({root}, [], root)
  {
    assert Elements([]) == {};
  }

  /** A package whose isolation and restore leave the stash behind, holding only empty folders. */
  lemma DeepDuplicateLeavesTheStash()
    ensures var d := SetAsideAll(Disk(DEEP, Some(map[])), [DEEP_ROOT]);
            Isolated(Disk(DEEP, None), "m", [DEEP_ROOT], d) && Restored(d, [DEEP_ROOT]).stash.Some?
  {
    hide ItemsOf, TopItems, IsFile, HoldsDuplicate, WellFormed, Isolated, Restored, SetAsideAll;
    DeepIsWellFormed();
    DeepTops();
    DeepHolds();
    DeepFile();
    forall p | p in DEEP && HoldsDuplicate(DEEP, p, "m") ensures p == DEEP_ROOT {
      assert p != [];
      DeepHoldsOnce(p);
    }
    OneRoot(DEEP, "m", DEEP_ROOT);
    OneItem(DEEP, "m", DEEP_ROOT);
    StashGoneUnlessDeep(Disk(DEEP, None), "m", [DEEP_ROOT], SetAsideAll(Disk(DEEP, Some(map[])), [DEEP_ROOT]));
    assert DEEP_ROOT in ItemsOf(DEEP, "m");
  }

  // ------------------------------------------------------------------ recovery after a kill

  ghost function Singles(out: set<Path>): set<Path> {
    set m | m in out && |m| == 1
  }

  lemma {:induction false} Listed(s: set<Path>) returns (names: seq<Path>)
    ensures IsPermutationOf(names, s)
  {
    if s == {} {
      names := [];
    } else {
      var m :| m in s;
      names := Listed(s - {m});
      names := names + [m];
    }
  }

  /** The names a recovery goes by are those of the top-level items that are out. */
  lemma TopsAreSingles(orig: Tree, extra: Tree, items: set<Path>, out: set<Path>, d: Disk, names: seq<Path>)
    requires InTransit(orig, extra, items, out, d) && AreTops(names, Held(d))
    ensures out - Elements(names) == out - Singles(out)
  {
    forall m | m in out ensures m in names <==> |m| == 1 {
      HeldItem(orig, extra, items, out, d, m);
      if |m| == 1 {
        TopNameIs(Held(d), m[0]);
        assert m == [m[0]];
      }
    }
  }

  /** Killed at whatever step of an isolation, a restore or a recovery: recovering brings home every
      top-level item that is out, whole, and no file is lost; only duplicates from below the top level
      may stay in the stash. */
  lemma KilledThenRecovered(orig: Tree, extra: Tree, items: set<Path>, out: set<Path>, d: Disk)
    requires InTransit(orig, extra, items, out, d)
    ensures Recovered(d).imp == Left(orig, out - Singles(out))
    ensures (forall m :: m in items ==> |m| == 1) ==> Recovered(d).imp == orig
    ensures var held := Held(Recovered(d));
            forall q :: q in held && held[q].Leaf? <==>
              (q in orig && orig[q].Leaf? && UnderAny(out - Singles(out), q)) || (q in extra && extra[q].Leaf?)
  {
    hide InTransit, Holds, Recovered, UnderAny;
    if d.stash.None? {
      NoneIsOut(orig, extra, items, out, d);
      assert out - Singles(out) == out;
      RecoveredNothing(d);
    } else {
      RecoveredFromStash(orig, extra, items, out, d);
    }
    if forall m :: m in items ==> |m| == 1 {
      AllSingle(orig, extra, items, out, d);
    }
  }

  /** Whatever has become of Import/ since the kill, restaged packages included: every top-level item that
      is out and has nothing in its place comes home whole, and nothing that is in Import/ is touched. */
  lemma KilledRestagedThenRecovered(orig: Tree, extra: Tree, items: set<Path>, out: set<Path>, d: Disk, imp: Tree)
    requires InTransit(orig, extra, items, out, d) && WellFormed(imp)
    ensures var home := Recovered(Disk(imp, d.stash)).imp;
            && (forall m :: m in out && |m| == 1 && m !in imp ==> Taken(home, {m}) == Taken(orig, {m}))
            && (forall q :: q in imp ==> q in home && home[q] == imp[q])
  {
    hide InTransit, Recovered, Homeward;
    var now := Disk(imp, d.stash);
    if d.stash.None? {
      NoneIsOut(orig, extra, items, out, d);
      RecoveredNothing(now);
    } else {
      OnlyAdds(now);
      forall m | m in out && |m| == 1 && m !in imp ensures Taken(Recovered(now).imp, {m}) == Taken(orig, {m}) {
        ItemOutIsItem(orig, extra, items, out, d, m);
        HeldItem(orig, extra, items, out, d, m);
        HomeWhole(now, m);
      }
    }
  }

  lemma ItemOutIsItem(orig: Tree, extra: Tree, items: set<Path>, out: set<Path>, d: Disk, m: Path)
    requires InTransit(orig, extra, items, out, d) && m in out
    ensures m in items
  {
  }

  lemma OnlyAdds(d: Disk)
    requires WellFormed(d.imp) && d.stash.Some?
    ensures forall q :: q in d.imp ==> q in Recovered(d).imp && Recovered(d).imp[q] == d.imp[q]
  {
    forall q | q in d.imp ensures |q| > 0 && [q[0]] in d.imp {
      HeadIsThere(d.imp, q);
    }
  }

  lemma HomeWhole(d: Disk, m: Path)
    requires WellFormed(d.imp) && d.stash.Some? && |m| == 1 && m in Held(d) && m !in d.imp
    ensures Taken(Recovered(d).imp, {m}) == Taken(Held(d), {m})
  {
    var home := Homeward(d, TopNames(Held(d)));
    assert m == [m[0]];
    TopNameIs(Held(d), m[0]);
    forall q: Path | m <= q
      ensures (q in Recovered(d).imp <==> q in Held(d)) && (q in Held(d) ==> Recovered(d).imp[q] == Held(d)[q])
    {
      assert q[0] == m[0];
      if q in d.imp {
        PrefixIsThere(d.imp, m, q);
      }
      assert q in home <==> q in Held(d);
    }
    SameBelow(Recovered(d).imp, Held(d), m);
  }

  lemma AllSingle(orig: Tree, extra: Tree, items: set<Path>, out: set<Path>, d: Disk)
    requires InTransit(orig, extra, items, out, d) && forall m :: m in items ==> |m| == 1
    ensures Left(orig, out - Singles(out)) == orig
  {
    assert out - Singles(out) == {};
    assert Left(orig, {}) == orig;
  }

  lemma RecoveredNothing(d: Disk)
    requires d.stash.None?
    ensures Recovered(d) == d && Held(d) == map[]
  {
  }

  lemma RecoveredFromStash(orig: Tree, extra: Tree, items: set<Path>, out: set<Path>, d: Disk)
    requires InTransit(orig, extra, items, out, d) && d.stash.Some?
    ensures Recovered(d).imp == Left(orig, out - Singles(out))
    ensures var held := Held(Recovered(d));
            forall q :: q in held && held[q].Leaf? <==>
              (q in orig && orig[q].Leaf? && UnderAny(out - Singles(out), q)) || (q in extra && extra[q].Leaf?)
  {
    hide AreItems, StaysBehind, Holds, RestoreAll, UnderAny, Homeward;
    var names := Listed(set a | a in TopNames(Held(d)) :: [a]);
    TransitIsRecoverable(orig, extra, items, out, d);
    RecoverableIsWellFormed(orig, extra, items, d);
    RecoveryMeans(d, names);
    TopsReach(names, items, Held(d));
    RestoringAll(orig, extra, items, out, d, names);
    TopsAreSingles(orig, extra, items, out, d, names);
    FilesHeld(orig, extra, items, out - Singles(out), RestoreAll(d, names));
    FilesSwept(Held(RestoreAll(d, names)));
  }

  lemma FilesHeld(orig: Tree, extra: Tree, items: set<Path>, out: set<Path>, d: Disk)
    requires InTransit(orig, extra, items, out, d)
    ensures forall q :: q in Held(d) && Held(d)[q].Leaf? <==>
              (q in orig && orig[q].Leaf? && UnderAny(out, q)) || (q in extra && extra[q].Leaf?)
  {
  }

  lemma NoneIsOut(orig: Tree, extra: Tree, items: set<Path>, out: set<Path>, d: Disk)
    requires InTransit(orig, extra, items, out, d) && d.stash.None?
    ensures out == {} && extra == map[] && d.imp == Left(orig, {}) && forall q :: !UnderAny(out, q)
  {
    forall m | m in out ensures m in Held(d) {
      HeldItem(orig, extra, items, out, d, m);
    }
  }
}
