/** What a stash that is not empty does to the next isolation: shutil.move puts a package onto a folder of
    its name that is still there, and so into it. */
module ImportCollisions {
  import opened Common
  import opened ImportTree
  import opened ImportIsolation
  import opened ImportRecovery
  import opened ImportRun
  import opened ImportLaws
  import Text

  // ---------------------------------------------------------------- what the stash keeps

  /** No move takes anything out of the stash. */
  lemma {:induction false} StashGrows(d: Disk, ms: seq<Path>, k: nat, q: Path)
    requires k <= |ms| && q in Held(SetAsideAll(d, ms[..k]))
    ensures q in Held(SetAsideAll(d, ms))
    decreases |ms|
  {
    if k == |ms| {
      assert ms[..k] == ms;
    } else {
      assert ms[..|ms| - 1][..k] == ms[..k];
      StashGrows(d, ms[..|ms| - 1], k, q);
    }
  }

  // ----------------------------------------------------------------- what a restore makes of it

  lemma RestoreLeavesAlone(items: set<Path>, d: Disk, n: Path, m: Path, r: Path)
    requires Apart(items) && n in items && m in items && n != m && m <= r
    requires m in Held(d) && r in Held(d) && m !in d.imp
    ensures var after := RestoreOne(d, n); m in Held(after) && r in Held(after) && m !in after.imp
  {
    UnderOneMore({}, n, m);
    UnderOneMore({}, n, r);
    if n <= r {
      OnlyUnderItself(items, m, n, r);
    }
    if m in Scaffold(n) {
      ScaffoldIs(n, m);
    }
  }

  lemma {:induction false} RestoresLeaveAlone(items: set<Path>, d: Disk, names: seq<Path>, m: Path, r: Path)
    requires Apart(items) && (forall n :: n in names ==> n in items && n != m) && m in items && m <= r
    requires m in Held(d) && r in Held(d) && m !in d.imp
    ensures var after := RestoreAll(d, names); m in Held(after) && r in Held(after) && m !in after.imp
  {
    if names != [] {
      var k := |names| - 1;
      assert names == names[..k] + [names[k]] && names[k] in names;
      RestoresLeaveAlone(items, d, names[..k], m, r);
      RestoreLeavesAlone(items, RestoreAll(d, names[..k]), names[k], m, r);
    }
  }

  /** When its turn comes the whole of what the stash has at `m` goes to Import/. */
  lemma RestoreMovesAll(d: Disk, m: Path, r: Path)
    requires m in Held(d) && r in Held(d) && m !in d.imp && m <= r
    ensures r in RestoreOne(d, m).imp && m !in Held(RestoreOne(d, m))
  {
    UnderOneMore({}, m, r);
    UnderOneMore({}, m, m);
  }

  lemma {:induction false} ImportGrows(d: Disk, names: seq<Path>, k: nat, q: Path)
    requires k <= |names|
    ensures q in RestoreAll(d, names[..k]).imp ==> q in RestoreAll(d, names).imp
    ensures q !in Held(RestoreAll(d, names[..k])) ==> q !in Held(RestoreAll(d, names))
    decreases |names|
  {
    if k == |names| {
      assert names[..k] == names;
    } else {
      assert names[..|names| - 1][..k] == names[..k];
      ImportGrows(d, names[..|names| - 1], k, q);
    }
  }

  /** Everything the stash has at an item that is out ends up in Import/, and not in the stash. */
  lemma RestoredAtItem(items: set<Path>, d: Disk, names: seq<Path>, m: Path, r: Path)
    requires Apart(items) && IsPermutationOf(names, items) && m in items && m <= r
    requires m in Held(d) && r in Held(d) && m !in d.imp
    ensures r in RestoreAll(d, names).imp && m !in Held(RestoreAll(d, names))
  {
    hide RestoreAll, RestoreOne;
    var k :| 0 <= k < |names| && names[k] == m;
    assert forall i :: 0 <= i < k ==> names[i] in names && names[i] != m;
    RestoresLeaveAlone(items, d, names[..k], m, r);
    RestoreMovesAll(RestoreAll(d, names[..k]), m, r);
    RestoreNext(d, names, k);
    ImportGrows(d, names, k + 1, r);
    ImportGrows(d, names, k + 1, m);
  }

  // -------------------------------------------------------------------- an item in the way

  lemma {:induction false} Longest(ps: set<Path>) returns (p: Path)
    requires ps != {}
    ensures p in ps && forall q :: q in ps ==> |q| <= |p|
  {
    p :| p in ps;
    if ps != {p} {
      var q := Longest(ps - {p});
      if |q| > |p| {
        p := q;
      }
    }
  }

  /** Moved onto a folder of its name, an item ends up one folder deeper than anything it held. */
  lemma LandsInside(d: Disk, m: Path, p: Path)
    requires m != [] && m in Held(d) && Held(d)[m].Folder? && p in d.imp && m <= p
    ensures m + [m[|m| - 1]] + p[|m|..] in Held(MovedOut(MadeWay(d, m), m))
  {
    var made := MadeWay(d, m);
    var n := Landing(Held(made), m);
    assert n == m + [m[|m| - 1]] by {
      if m in Scaffold(m) {
        ScaffoldIs(m, m);
      }
    }
    var r := n + p[|m|..];
    assert r[|n|..] == p[|m|..] && m + r[|n|..] == p;
    assert r in Rehung(made.imp, m, n);
  }

  /** The turn of item `m`: the moves before it, and that it is still whole in Import/. */
  lemma TurnOf(items: set<Path>, d: Disk, ms: seq<Path>, m: Path) returns (k: nat)
    requires Apart(items) && IsPermutationOf(ms, items) && m in items
    ensures k < |ms| && ms[k] == m && forall i :: 0 <= i < k ==> ms[i] in items && ms[i] != m
    ensures forall p :: p in d.imp && m <= p ==> p in SetAsideAll(d, ms[..k]).imp
  {
    k :| 0 <= k < |ms| && ms[k] == m;
    assert forall i :: 0 <= i < k ==> ms[i] in ms && ms[i] != m;
    SettingAsideLeaves(d, ms[..k]);
    forall p | p in d.imp && m <= p ensures !UnderAny(Elements(ms[..k]), p) {
      if n :| n in Elements(ms[..k]) && n <= p {
        OnlyUnderItself(items, m, n, p);
      }
    }
  }

  lemma UntilItsTurn(items: set<Path>, d: Disk, ms: seq<Path>, m: Path, k: nat)
    requires Apart(items) && k < |ms| && ms[k] == m && m in items && m in Held(d)
    requires forall i :: 0 <= i < k ==> ms[i] in items && ms[i] != m
    ensures var now := SetAsideAll(d, ms[..k]); m in Held(now) && Held(now)[m] == Held(d)[m]
  {
    MovesKeepBelow(items, d, ms[..k], m, m);
  }

  lemma {:induction false} MovesKeepBelow(items: set<Path>, d: Disk, ms: seq<Path>, m: Path, q: Path)
    requires Apart(items) && m in items && m <= q && forall i :: 0 <= i < |ms| ==> ms[i] in items && ms[i] != m
    ensures var after := Held(SetAsideAll(d, ms));
            (q in after <==> q in Held(d)) && (q in after ==> after[q] == Held(d)[q])
  {
    hide SetAsideAll, MadeWay, MovedOut, Apart;
    if ms == [] {
      NothingMovedYet(d);
    } else {
      var rest, n := ms[..|ms| - 1], ms[|ms| - 1];
      assert ms == rest + [n];
      SetAsideNext(d, rest, n);
      MovesKeepBelow(items, d, rest, m, q);
      MoveKeepsBelow(SetAsideAll(d, rest), items, n, m, q);
    }
  }

  /** An item whose place in the stash is taken by a folder lands inside it. */
  lemma LandsDeeper(items: set<Path>, d: Disk, ms: seq<Path>, m: Path) returns (r: Path)
    requires Apart(items) && IsPermutationOf(ms, items) && Accepted(d, ms)
    requires m in items && m in d.imp && m in Held(d) && Held(d)[m].Folder?
    ensures m <= r && r !in d.imp && r in Held(SetAsideAll(d, ms)) && m in Held(SetAsideAll(d, ms))
  {
    hide SetAsideAll, Accepted, MovedOut, MadeWay, IsPermutationOf;
    var k := TurnOf(items, d, ms, m);
    UntilItsTurn(items, d, ms, m, k);
    var below := set p | p in d.imp && m <= p;
    assert m in below;
    var p := Longest(below);
    r := m + [m[|m| - 1]] + p[|m|..];
    LandsInside(SetAsideAll(d, ms[..k]), m, p);
    SetAsideNext(d, ms[..k], m);
    assert ms[..k + 1] == ms[..k] + [m];
    StashGrows(d, ms, k + 1, r);
    StashGrows(d, ms, k, m);
    assert m <= r && |r| == |p| + 1;
  }

  lemma ItemIsGone(items: set<Path>, d: Disk, ms: seq<Path>, m: Path)
    requires IsPermutationOf(ms, items) && m in items
    ensures m !in SetAsideAll(d, ms).imp
  {
    SettingAsideLeaves(d, ms);
    UnderOne(Elements(ms), m, m);
  }

  /** ... and so comes back one folder too deep. */
  lemma FolderInTheWay(items: set<Path>, d: Disk, ms: seq<Path>, m: Path)
    requires Apart(items) && IsPermutationOf(ms, items) && Accepted(d, ms)
    requires m in items && m in d.imp && m in Held(d) && Held(d)[m].Folder?
    ensures RestoreAll(SetAsideAll(d, ms), ms).imp != d.imp
  {
    hide SetAsideAll, RestoreAll, Accepted;
    var r := LandsDeeper(items, d, ms, m);
    ItemIsGone(items, d, ms, m);
    RestoredAtItem(items, SetAsideAll(d, ms), ms, m, r);
  }

  /** A file in an item's place is overwritten: the stash has lost it. */
  lemma FileInTheWay(items: set<Path>, d: Disk, ms: seq<Path>, m: Path)
    requires Apart(items) && IsPermutationOf(ms, items) && Accepted(d, ms)
    requires m in items && m in d.imp && m in Held(d)
    ensures m !in Held(RestoreAll(SetAsideAll(d, ms), ms))
  {
    hide SetAsideAll, RestoreAll, Accepted;
    var k := TurnOf(items, d, ms, m);
    UntilItsTurn(items, d, ms, m, k);
    StashGrows(d, ms, k, m);
    ItemIsGone(items, d, ms, m);
    RestoredAtItem(items, SetAsideAll(d, ms), ms, m, m);
  }

  /** An isolation whose moves all went through, and its restore, give Import/ back and keep every file
      of the stash exactly when the stash had nothing at an item's place, nor a file on the way to one. */
  lemma ComesBackExactlyWhenFree(start: Disk, keep: string, moved: seq<Path>, d: Disk)
    requires WellFormed(start.imp) && WellFormed(Held(start))
    requires forall q :: q in Held(start) ==> |q| > 0 && [q[0]] in start.imp
    requires SetOut(start, keep, moved, d)
    ensures ComesBack(start, Restored(d, moved)) <==> Free(ItemsOf(start.imp, keep), Held(start))
  {
    var items, open := ItemsOf(start.imp, keep), Disk(start.imp, Some(Held(start)));
    FreeIsUnhindered(start, keep);
    ItemsAreItems(start.imp, keep);
    ItemsAreThere(start.imp, items);
    hide ItemsOf, Unhindered, Free, Restored, SetAsideAll, Accepted, AreItems;
    if Free(items, Held(start)) {
      FreeIsIsolated(start, keep, moved, d);
      IsolateThenRestore(start, keep, moved, d);
    } else {
      NotFree(items, open, moved);
      assert ComesBack(open, Restored(d, moved)) == ComesBack(start, Restored(d, moved));
    }
  }

  lemma FreeIsIsolated(start: Disk, keep: string, moved: seq<Path>, d: Disk)
    requires Unhindered(start, ItemsOf(start.imp, keep)) && SetOut(start, keep, moved, d)
    ensures Isolated(start, keep, moved, d)
  {
    hide ItemsOf, Unhindered, SetAsideAll, Accepted, ShowsOnly, KeepsTheRest;
    UnhinderedIsWellFormed(start, ItemsOf(start.imp, keep));
    CookSeesOnlyKeep(start.imp, keep);
    TheRestIsKept(start.imp, keep);
    SettingAsideLeaves(Disk(start.imp, Some(Held(start))), moved);
    assert Elements(moved) == ItemsOf(start.imp, keep);
  }

  lemma NotFree(items: set<Path>, d: Disk, ms: seq<Path>)
    requires Apart(items) && IsPermutationOf(ms, items) && Accepted(d, ms) && d.stash.Some?
    requires (forall m :: m in items ==> m in d.imp) && !Free(items, Held(d))
    ensures !ComesBack(d, Restored(SetAsideAll(d, ms), ms))
  {
    hide SetAsideAll, RestoreAll, Accepted;
    SettingAsideLeaves(d, ms);
    if m :| m in items && m in Held(d) {
      if Held(d)[m].Folder? {
        FolderInTheWay(items, d, ms, m);
      } else {
        FileInTheWay(items, d, ms, m);
      }
    } else {
      var q :| q in Held(d) && AboveAny(items, q) && !Held(d)[q].Folder?;
      var m :| m in items && 0 < |q| && q < m;
      ScaffoldIs(m, q);
      assert Refused(d, m);
      AcceptedExactly(d, items, ms);
    }
  }

  /** A duplicate that a killed cook left in the stash is in the way of setting its package aside: the
      next cook, of another map, puts that package into what the stash still has of it. */
  lemma StrandedDuplicateIsInTheWay(orig: Tree, extra: Tree, items: set<Path>, out: set<Path>, d: Disk, m: Path,
      keep: string)
    requires InTransit(orig, extra, items, out, d) && m in out && |m| > 1
    requires [m[0]] in ItemsOf(Recovered(d).imp, keep)
    ensures !Free(ItemsOf(Recovered(d).imp, keep), Held(Recovered(d)))
  {
    hide InTransit, ItemsOf, Recovered;
    KilledThenRecovered(orig, extra, items, out, d);
    TransitIsRecoverable(orig, extra, items, out, d);
    RecoverableIsWellFormed(orig, extra, items, d);
    RecoveredStaysBehind(d);
    var f := FileOf(orig, extra, items, out, d, m);
    UnderOne(out - Singles(out), m, f);
    HeadIsThere(Held(Recovered(d)), f);
  }

  /** A stranded duplicate whose folder is called like the package's own makes every later cook that sets the
      package aside raise, in the middle of setting aside: the folder it would land in has one of that name. */
  lemma StrandedTwinIsRefused(orig: Tree, extra: Tree, items: set<Path>, out: set<Path>, d: Disk, a: string,
      keep: string)
    requires InTransit(orig, extra, items, out, d) && [a, a] in out && [a] in ItemsOf(Recovered(d).imp, keep)
    ensures RefusesAny(Recovered(d), ItemsOf(Recovered(d).imp, keep))
  {
    hide InTransit, ItemsOf, Recovered, WellFormed;
    var m, held := [a, a], Held(Recovered(d));
    KilledThenRecovered(orig, extra, items, out, d);
    TransitIsRecoverable(orig, extra, items, out, d);
    RecoverableIsWellFormed(orig, extra, items, d);
    RecoveredStaysBehind(d);
    var f := FileOf(orig, extra, items, out, d, m);
    UnderOne(out - Singles(out), m, f);
    PrefixIsThere(held, m, f);
    PrefixIsThere(held, [a], m);
    assert m == [a] + [a] && Landing(held, [a]) == m;
    assert Refused(Recovered(d), [a]);
  }

  lemma FileOf(orig: Tree, extra: Tree, items: set<Path>, out: set<Path>, d: Disk, m: Path) returns (f: Path)
    requires InTransit(orig, extra, items, out, d) && m in out && |m| > 1
    ensures f in orig && orig[f].Leaf? && m <= f && f[0] == m[0]
  {
    assert HoldsFile(orig, m);
    f :| f in orig && m < f && orig[f].Leaf?;
  }

  // ----------------------------------------------------------------------- one such run

  /** Package "A" with a second descriptor for itself in its folder `x`. */
  function ClashRoot(x: string): Path {
    ["A", x]
  }

  function Clash(x: string): Tree {
    map[["A.json"] := Leaf("canonical"), ["A"] := Folder, ClashRoot(x) := Folder,
        ClashRoot(x) + ["A.json"] := Leaf("duplicate")]
  }

  lemma ClashIsWellFormed(x: string)
    ensures WellFormed(Clash(x))
  {
    assert ClashRoot(x)[..1] == ["A"];
    var q := ClashRoot(x) + ["A.json"];
    assert q[..1] == ["A"] && q[..2] == ClashRoot(x);
  }

  lemma ClashDescriptor()
    ensures IsDescriptor("A.json") && BaseOf("A.json") == "A" && "A" + DESCRIPTOR_EXT == "A.json" && !IsDescriptor("A")
  {
    assert "A.json" == "A" + DESCRIPTOR_EXT;
    var t := Text.ToLower("A.json");
    assert t[1..] == DESCRIPTOR_EXT;
  }

  lemma ClashNames(x: string, f: string)
    ensures f in TopNames(Clash(x)) <==> f == "A.json" || f == "A"
  {
    TopNameIs(Clash(x), f);
  }

  lemma ClashTops(x: string)
    ensures TopItems(Clash(x), "A") == {}
  {
    ClashDescriptor();
    hide IsDescriptor, BaseOf;
    forall f | f in TopNames(Clash(x)) ensures !SetsAside(f, "A") {
      ClashNames(x, f);
    }
  }

  lemma ClashHolds(x: string)
    ensures ClashRoot(x) in Clash(x) && Clash(x)[ClashRoot(x)].Folder? && HoldsDuplicate(Clash(x), ClashRoot(x), "A")
  {
    var q := ClashRoot(x) + ["A.json"];
    assert q in Clash(x) && Clash(x)[q] == Leaf("duplicate") && q[2] == "A" + DESCRIPTOR_EXT;
  }

  lemma ClashLeaf(x: string, q: Path)
    requires q in Clash(x) && Clash(x)[q].Leaf? && |q| > 1
    ensures q == ClashRoot(x) + ["A.json"]
  {
  }

  lemma ClashHoldsOnce(x: string, p: Path)
    requires p in Clash(x) && p != [] && HoldsDuplicate(Clash(x), p, "A")
    ensures p == ClashRoot(x)
  {
    hide Clash;
    var r :| r in Clash(x) && |r| == |p| + 1 && p <= r && Clash(x)[r].Leaf?;
    ClashLeaf(x, r);
    assert p == r[..|p|];
  }

  /** The disk a cook of "A" works on, and on which it is killed. */
  function ClashKilled(x: string): Disk {
    SetAsideAll(Disk(Clash(x), Some(map[])), [ClashRoot(x)])
  }

  lemma ClashIsIsolated(x: string)
    ensures Isolated(Disk(Clash(x), None), "A", [ClashRoot(x)], ClashKilled(x))
    ensures ItemsOf(Clash(x), "A") == {ClashRoot(x)}
  {
    hide ItemsOf, TopItems, IsFile, HoldsDuplicate, WellFormed, Isolated, SetAsideAll;
    ClashIsWellFormed(x);
    ClashTops(x);
    ClashHolds(x);
    ClashFile(x);
    forall p | p in Clash(x) && HoldsDuplicate(Clash(x), p, "A") ensures p == ClashRoot(x) {
      assert p != [];
      ClashHoldsOnce(x, p);
    }
    OneRoot(Clash(x), "A", ClashRoot(x));
    OneItem(Clash(x), "A", ClashRoot(x));
  }

  lemma ClashFile(x: string)
    ensures IsFile(Clash(x), ["A" + DESCRIPTOR_EXT])
  {
    assert "A" + DESCRIPTOR_EXT == "A.json";
  }

  /** After the kill: Import/ has the package without its duplicate, the stash the duplicate in folder "A". */
  lemma ClashRecovered(x: string)
    ensures var home := Recovered(ClashKilled(x));
            && InTransit(Clash(x), map[], {ClashRoot(x)}, {ClashRoot(x)}, ClashKilled(x))
            && home.imp == map[["A.json"] := Leaf("canonical"), ["A"] := Folder]
  {
    hide ItemsOf, InTransit, Isolated, Recovered, ClashKilled;
    ClashIsIsolated(x);
    IsolatedInTransit(Disk(Clash(x), None), "A", [ClashRoot(x)], ClashKilled(x));
    KilledThenRecovered(Clash(x), map[], {ClashRoot(x)}, {ClashRoot(x)}, ClashKilled(x));
    assert {ClashRoot(x)} - Singles({ClashRoot(x)}) == {ClashRoot(x)};
    ClashLeft(x);
  }

  lemma ClashLeft(x: string)
    ensures Left(Clash(x), {ClashRoot(x)}) == map[["A.json"] := Leaf("canonical"), ["A"] := Folder]
  {
    forall q ensures UnderAny({ClashRoot(x)}, q) <==> ClashRoot(x) <= q {
      UnderOneMore({}, ClashRoot(x), q);
    }
    var q := ClashRoot(x) + ["A.json"];
    assert ClashRoot(x) <= q;
  }

  /** Killed while cooking "A", then asked to cook "m": the package "A" is in the way of itself. */
  lemma ClashIsNotFree(x: string)
    ensures var home := Recovered(ClashKilled(x)); !Free(ItemsOf(home.imp, "m"), Held(home))
  {
    ClashRecovered(x);
    ClashDescriptor();
    var imp := Recovered(ClashKilled(x)).imp;
    hide InTransit, Recovered, ClashKilled, IsDescriptor, BaseOf;
    assert "A.json" in TopNames(imp) && SetsAside("A.json", "m") && IsFolder(imp, ["A"]) by {
      TopNameIs(imp, "A.json");
    }
    assert ["A"] in TopItems(imp, "m");
    StrandedDuplicateIsInTheWay(Clash(x), map[], {ClashRoot(x)}, {ClashRoot(x)}, ClashKilled(x), ClashRoot(x), "m");
  }

  lemma RecoveredHoldsLess(d: Disk)
    ensures forall q :: q in Held(Recovered(d)) ==> q in Held(d) && Held(Recovered(d))[q] == Held(d)[q]
  {
  }

  lemma ClashHeld(x: string)
    ensures var held := Held(Recovered(ClashKilled(x))); ["A.json"] !in held && (x != "A" ==> ["A", "A"] !in held)
    ensures var held := Held(Recovered(ClashKilled(x))); ["A"] in held ==> held[["A"]].Folder?
  {
    hide Recovered, ClashKilled, AreItems, StaysBehind, Holds, Clash;
    ClashRecovered(x);
    RecoveredHoldsLess(ClashKilled(x));
    ClashStash(x, Held(ClashKilled(x)));
  }

  lemma ClashStash(x: string, held: Tree)
    requires Holds(held, Clash(x), map[], {ClashRoot(x)}, {ClashRoot(x)})
    ensures ["A.json"] !in held && (["A"] in held ==> held[["A"]].Folder?)
    ensures x != "A" ==> ["A", "A"] !in held
  {
    hide Clash;
    forall q ensures UnderAny({ClashRoot(x)}, q) <==> ClashRoot(x) <= q {
      UnderOneMore({}, ClashRoot(x), q);
    }
    assert ClashRoot(x)[..1] == ["A"];
    assert ClashRoot(x)[0] != ["A.json"][0] by {
      assert |"A"| != |"A.json"|;
    }
    assert x != "A" ==> ClashRoot(x)[1] != ["A", "A"][1];
  }

  lemma ClashItems(imp: Tree)
    requires imp == map[["A.json"] := Leaf("canonical"), ["A"] := Folder]
    ensures ItemsOf(imp, "m") == {["A.json"], ["A"]}
  {
    ClashDescriptor();
    hide IsDescriptor, BaseOf;
    assert "A.json" in TopNames(imp) && IsFolder(imp, ["A"]) by {
      TopNameIs(imp, "A.json");
    }
    forall f | f in TopNames(imp) ensures f == "A.json" || f == "A" {
      TopNameIs(imp, f);
    }
    assert TopItems(imp, "m") == {["A.json"], ["A"]};
    assert !IsFile(Left(imp, TopItems(imp, "m")), ["m" + DESCRIPTOR_EXT]);
  }

  /** Nothing in the stash stops the two top-level items of package `a`. */
  lemma PackageIsAccepted(d: Disk, f: string, a: string)
    requires f != a && [f] !in Held(d) && [a, a] !in Held(d) && ([a] in Held(d) ==> Held(d)[[a]].Folder?)
    ensures Accepted(d, [[f], [a]])
  {
    hide SetAsideAll, Accepted;
    assert Scaffold([f]) == map[] && Scaffold([a]) == map[] && [a] + [a] == [a, a];
    assert !Refused(d, [f]) && !Refused(d, [a]);
    AcceptedExactly(d, {[f], [a]}, [[f], [a]]);
  }

  lemma ClashSettled(x: string)
    ensures var home := Recovered(ClashKilled(x));
            && WellFormed(home.imp) && WellFormed(Held(home))
            && forall q :: q in Held(home) ==> |q| > 0 && [q[0]] in home.imp
  {
    hide InTransit, Recovered, ClashKilled, Clash, Recoverable;
    ClashRecovered(x);
    TransitIsRecoverable(Clash(x), map[], {ClashRoot(x)}, {ClashRoot(x)}, ClashKilled(x));
    RecoverableIsWellFormed(Clash(x), map[], {ClashRoot(x)}, ClashKilled(x));
    RecoveredStaysBehind(ClashKilled(x));
  }

  /** Killed while cooking "A", then told to cook "m": every move goes through, and the restore after that
      cook leaves the package one folder too deep, unless the duplicate's folder is itself called "A". */
  lemma KilledThenOtherMapMisplaces(x: string)
    requires x != "A"
    ensures var home := Recovered(ClashKilled(x)); var moved := [["A.json"], ["A"]];
            var d := SetAsideAll(Disk(home.imp, Some(Held(home))), moved);
            SetOut(home, "m", moved, d) && !ComesBack(home, Restored(d, moved))
  {
    hide InTransit, Recovered, ClashKilled, ItemsOf, Accepted, SetAsideAll, ComesBack, Restored, WellFormed, Clash,
        Free;
    var home, moved := Recovered(ClashKilled(x)), [["A.json"], ["A"]];
    ClashRecovered(x);
    ClashHeld(x);
    ClashItems(home.imp);
    PackageIsAccepted(Disk(home.imp, Some(Held(home))), "A.json", "A");
    ClashIsNotFree(x);
    ClashSettled(x);
    ComesBackExactlyWhenFree(home, "m", moved, SetAsideAll(Disk(home.imp, Some(Held(home))), moved));
  }

  /** If it is, the cook of "m" raises in the middle of setting aside. */
  lemma KilledThenOtherMapIsRefused()
    ensures var home := Recovered(ClashKilled("A")); RefusesAny(home, ItemsOf(home.imp, "m"))
  {
    hide InTransit, Recovered, ClashKilled, ItemsOf, RefusesAny, Clash;
    ClashRecovered("A");
    ClashItems(Recovered(ClashKilled("A")).imp);
    StrandedTwinIsRefused(Clash("A"), map[], {ClashRoot("A")}, {ClashRoot("A")}, ClashKilled("A"), "A", "m");
  }
}
