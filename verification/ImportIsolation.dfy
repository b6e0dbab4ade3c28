/** What _isolate_import sets aside for a cook and _restore_stash brings back, and what either does to the
    disk move by move. */
module ImportIsolation {
  import opened Common
  import opened Text
  import opened ImportTree

  // ------------------------------------------------------------------ what is set aside

  const DESCRIPTOR_EXT := ".json"
  const DECALS := "roadpainter_decals.json"

  predicate IsDescriptor(f: string) {
    EndsWith(ToLower(f), DESCRIPTOR_EXT) && ToLower(f) != DECALS
  }

  function BaseOf(f: string): string
    requires IsDescriptor(f)
  {
    f[..|f| - |DESCRIPTOR_EXT|]
  }

  /** A top-level entry that does not stay for a cook of `keep`. */
  predicate SetsAside(f: string, keep: string) {
    IsDescriptor(f) && BaseOf(f) != keep
  }

  function TopNames(t: Tree): set<string> {
    set p | p in t && |p| == 1 :: p[0]
  }

  predicate IsFolder(t: Tree, p: Path) {
    p in t && t[p].Folder?
  }

  predicate IsFile(t: Tree, p: Path) {
    p in t && t[p].Leaf?
  }

  /** The descriptors set aside, and the asset folders beside them. */
  function TopItems(t: Tree, keep: string): set<Path> {
    (set f | f in TopNames(t) && SetsAside(f, keep) :: [f]) +
    (set f | f in TopNames(t) && SetsAside(f, keep) && IsFolder(t, [BaseOf(f)]) :: [BaseOf(f)])
  }

  /** Folder `p` directly holds a file named like `keep`'s descriptor. */
  predicate HoldsDuplicate(t: Tree, p: Path, keep: string) {
    exists q :: q in t && |q| == |p| + 1 && p <= q && t[q].Leaf? && ToLower(q[|p|]) == ToLower(keep + DESCRIPTOR_EXT)
  }

  function DuplicateRoots(t: Tree, keep: string): set<Path> {
    set p | p in t && t[p].Folder? && HoldsDuplicate(t, p, keep)
  }

  function Outermost(ps: set<Path>): set<Path> {
    set p | p in ps && forall r :: r in ps ==> !(r < p)
  }

  /** A root inside another one goes with it. */
  function OuterRoots(t: Tree, keep: string): set<Path> {
    Outermost(DuplicateRoots(t, keep))
  }

  lemma {:induction false} EveryRootIsInAnOuterOne(t: Tree, keep: string, p: Path) returns (r: Path)
    requires p in DuplicateRoots(t, keep)
    ensures r in OuterRoots(t, keep) && r <= p
    decreases |p|
  {
    if p in OuterRoots(t, keep) {
      r := p;
    } else {
      var q :| q in DuplicateRoots(t, keep) && q < p;
      r := EveryRootIsInAnOuterOne(t, keep, q);
    }
  }

  /** The filter keeps no root inside another, so every root can be moved whatever the order. */
  lemma OuterRootsAreApart(t: Tree, keep: string)
    requires WellFormed(t)
    ensures Apart(OuterRoots(t, keep))
  {
  }

  /** Once the outer roots are gone, no second descriptor for `keep` is left below the top level. */
  lemma NoDuplicateIsLeft(t: Tree, keep: string)
    ensures DuplicateRoots(Left(t, OuterRoots(t, keep)), keep) == {}
  {
    var left := Left(t, OuterRoots(t, keep));
    forall p ensures p !in DuplicateRoots(left, keep) {
      if p in DuplicateRoots(left, keep) {
        assert p in DuplicateRoots(t, keep);
        var r := EveryRootIsInAnOuterOne(t, keep, p);
        assert UnderAny(OuterRoots(t, keep), p);
      }
    }
  }

  // ------------------------------------------------------------------------ restoring

  function RestoreOne(d: Disk, n: Path): Disk {
    if n in Held(d) && n !in d.imp then MovedBack(d, n) else d
  }

  function RestoreAll(d: Disk, names: seq<Path>): Disk {
    if names == [] then d else RestoreOne(RestoreAll(d, names[..|names| - 1]), names[|names| - 1])
  }

  /** The walk that drops empty folders sees each folder as it was before any was dropped. */
  function Swept(t: Tree): Tree {
    map q | q in t && !Hollow(t, q) :: t[q]
  }

  function SweptDisk(d: Disk): Disk {
    d.(stash := if Swept(Held(d)) == map[] then None else Some(Swept(Held(d))))
  }

  function Restored(d: Disk, names: seq<Path>): Disk {
    if d.stash.None? then d else SweptDisk(RestoreAll(d, names))
  }

  ghost predicate IsPermutationOf(s: seq<Path>, elements: set<Path>) {
    (forall x :: x in s <==> x in elements) && forall i, j :: 0 <= i < j < |s| ==> s[i] != s[j]
  }

  ghost predicate AllRecoverable(orig: Tree, extra: Tree, items: set<Path>, trace: seq<Disk>, from: nat) {
    forall i :: from <= i < |trace| ==> Recoverable(orig, extra, items, trace[i])
  }

  ghost function Elements(s: seq<Path>): set<Path> {
    set x | x in s
  }

  /** A file of Import/ stands where a folder on the way back to `n` has to be: makedirs raises. */
  predicate Blocked(d: Disk, n: Path) {
    n in Held(d) && n !in d.imp && exists q :: q in Scaffold(n) && q in d.imp && d.imp[q].Leaf?
  }

  /** A restore raises exactly where going on would put a folder in place of a file of Import/. */
  lemma BlockedExactly(d: Disk, n: Path)
    requires WellFormed(d.imp) && n != []
    ensures Blocked(d, n) <==> exists q :: q in d.imp && d.imp[q].Leaf? && RestoreOne(d, n).imp[q] != d.imp[q]
    ensures Blocked(d, n) <==>
              n in Held(d) && n !in d.imp && exists k :: 0 < k < |n| && n[..k] in d.imp && d.imp[n[..k]].Leaf?
  {
    if n in Held(d) && n !in d.imp {
      forall q | q in d.imp ensures q !in Taken(Held(d), {n}) {
        UnderOneMore({}, n, q);
        if n <= q {
          PrefixIsThere(d.imp, n, q);
        }
      }
      forall q | q in Scaffold(n) ensures 0 < |q| < |n| && q == n[..|q|] {
        ScaffoldIs(n, q);
      }
      forall k | 0 < k < |n| ensures n[..k] in Scaffold(n) {
        ScaffoldIs(n, n[..k]);
      }
    }
  }

  /** Restoring `names` raises at none of them. */
  predicate Unblocked(d: Disk, names: seq<Path>) {
    forall k :: 0 <= k < |names| ==> !Blocked(RestoreAll(d, names[..k]), names[k])
  }

  /** A name a restore may be given: an item, or an entry of the stash's top level. */
  predicate Addressed(items: set<Path>, n: Path) {
    n in items || |n| == 1
  }

  /** The states one name, and all names, take the disk through on the way back. */
  function RestoreSteps(d: Disk, n: Path): seq<Disk> {
    if n in Held(d) && n !in d.imp then [d.(imp := d.imp + Scaffold(n)), MovedBack(d, n)] else []
  }

  function RestoreTrace(d: Disk, names: seq<Path>): seq<Disk> {
    if names == [] then []
    else RestoreTrace(d, names[..|names| - 1]) + RestoreSteps(RestoreAll(d, names[..|names| - 1]), names[|names| - 1])
  }

  lemma RestoreNothing(d: Disk)
    ensures RestoreAll(d, []) == d && RestoreTrace(d, []) == [] && Unblocked(d, [])
  {
  }

  lemma RestoreNext(d: Disk, names: seq<Path>, k: nat)
    requires k < |names|
    ensures RestoreAll(d, names[..k + 1]) == RestoreOne(RestoreAll(d, names[..k]), names[k])
    ensures RestoreTrace(d, names[..k + 1]) ==
            RestoreTrace(d, names[..k]) + RestoreSteps(RestoreAll(d, names[..k]), names[k])
  {
    assert names[..k + 1][..k] == names[..k];
  }

  /** What the stash has and Import/ lacks is an item that is out. */
  lemma MissingIsOut(orig: Tree, extra: Tree, items: set<Path>, out: set<Path>, d: Disk, n: Path)
    requires InTransit(orig, extra, items, out, d) && Addressed(items, n)
    ensures n in Held(d) && n !in d.imp <==> n in out
  {
    if n in items {
      HeldItem(orig, extra, items, out, d, n);
    } else if n in Held(d) {
      TopIsThere(orig, extra, items, out, Held(d), n);
      SingleUnder(items, out, n);
    }
  }

  lemma TopIsThere(orig: Tree, extra: Tree, items: set<Path>, out: set<Path>, held: Tree, n: Path)
    requires AreItems(orig, items) && StaysBehind(orig, extra, items) && Holds(held, orig, extra, items, out)
    requires n in held && |n| == 1
    ensures n in orig
  {
    if n in extra {
      assert n == [n[0]];
    } else if AboveAny(items, n) {
      WaysAreFolders(orig, items, n);
    }
  }

  lemma SingleUnder(items: set<Path>, out: set<Path>, n: Path)
    requires Apart(items) && out <= items && |n| == 1
    ensures UnderAny(out, n) <==> n in out
  {
    if m :| m in out && m <= n {
      assert m == n[..|m|] == n;
    }
  }

  lemma NotBlocked(orig: Tree, extra: Tree, items: set<Path>, out: set<Path>, d: Disk, n: Path)
    requires InTransit(orig, extra, items, out, d) && Addressed(items, n)
    ensures !Blocked(d, n)
  {
    forall q | q in Scaffold(n) && q in d.imp ensures d.imp[q].Folder? {
      ScaffoldIs(n, q);
      if n in items {
        WaysAreFolders(orig, items, q);
      }
    }
  }

  /** One name moved back, or left alone when it has nothing in the stash or something in its place. */
  lemma RestoringOne(orig: Tree, extra: Tree, items: set<Path>, out: set<Path>, d: Disk, n: Path)
    requires InTransit(orig, extra, items, out, d) && Addressed(items, n)
    ensures InTransit(orig, extra, items, out - {n}, RestoreOne(d, n))
    ensures AllRecoverable(orig, extra, items, RestoreSteps(d, n), 0)
  {
    hide InTransit, MovedBack, Recoverable;
    MissingIsOut(orig, extra, items, out, d, n);
    if n in out {
      MovingBackKeepsTransit(orig, extra, items, out, d, n);
      TransitIsRecoverable(orig, extra, items, out, d);
      TransitIsRecoverable(orig, extra, items, out - {n}, MovedBack(d, n));
      assert d.(imp := d.imp + Scaffold(n)) == d;
    } else {
      assert out - {n} == out;
    }
  }

  lemma RecoverableConcat(orig: Tree, extra: Tree, items: set<Path>, a: seq<Disk>, b: seq<Disk>)
    requires AllRecoverable(orig, extra, items, a, 0) && AllRecoverable(orig, extra, items, b, 0)
    ensures AllRecoverable(orig, extra, items, a + b, 0)
  {
  }

  lemma NothingRestored(orig: Tree, extra: Tree, items: set<Path>, out: set<Path>)
    ensures out - Elements([]) == out && AllRecoverable(orig, extra, items, [], 0)
  {
  }

  lemma OneMoreElement(out: set<Path>, names: seq<Path>, k: nat)
    requires k < |names|
    ensures out - Elements(names[..k + 1]) == out - Elements(names[..k]) - {names[k]}
  {
    assert names[..k + 1] == names[..k] + [names[k]];
  }

  /** Moving names back, one after another, wherever an isolation was killed. */
  lemma {:induction false} RestoringNames(orig: Tree, extra: Tree, items: set<Path>, out: set<Path>, d: Disk,
                                          names: seq<Path>, k: nat)
    requires InTransit(orig, extra, items, out, d) && k <= |names|
    requires forall i :: 0 <= i < |names| ==> Addressed(items, names[i])
    ensures InTransit(orig, extra, items, out - Elements(names[..k]), RestoreAll(d, names[..k]))
    ensures AllRecoverable(orig, extra, items, RestoreTrace(d, names[..k]), 0)
  {
    hide *;
    if k == 0 {
      RestoreNothing(d);
      NothingRestored(orig, extra, items, out);
      assert names[..0] == [];
    } else {
      RestoringNames(orig, extra, items, out, d, names, k - 1);
      RestoreNext(d, names, k - 1);
      OneMoreElement(out, names, k - 1);
      var now := RestoreAll(d, names[..k - 1]);
      RestoringOne(orig, extra, items, out - Elements(names[..k - 1]), now, names[k - 1]);
      RecoverableConcat(orig, extra, items, RestoreTrace(d, names[..k - 1]), RestoreSteps(now, names[k - 1]));
    }
  }

  lemma RestoringIsUnblocked(orig: Tree, extra: Tree, items: set<Path>, out: set<Path>, d: Disk, names: seq<Path>)
    requires InTransit(orig, extra, items, out, d) && forall i :: 0 <= i < |names| ==> Addressed(items, names[i])
    ensures Unblocked(d, names)
  {
    hide InTransit, Blocked, RestoreAll, Addressed;
    forall k | 0 <= k < |names| ensures !Blocked(RestoreAll(d, names[..k]), names[k]) {
      RestoringNames(orig, extra, items, out, d, names, k);
      NotBlocked(orig, extra, items, out - Elements(names[..k]), RestoreAll(d, names[..k]), names[k]);
    }
  }

  lemma RestoringAll(orig: Tree, extra: Tree, items: set<Path>, out: set<Path>, d: Disk, names: seq<Path>)
    requires InTransit(orig, extra, items, out, d) && forall i :: 0 <= i < |names| ==> Addressed(items, names[i])
    ensures InTransit(orig, extra, items, out - Elements(names), RestoreAll(d, names))
    ensures AllRecoverable(orig, extra, items, RestoreTrace(d, names), 0)
  {
    hide *;
    RestoringNames(orig, extra, items, out, d, names, |names|);
    assert names[..|names|] == names;
  }

  // ------------------------------------------------------------------------ setting aside

  function SetAsideAll(d: Disk, ms: seq<Path>): Disk {
    if ms == [] then d
    else
      var before := SetAsideAll(d, ms[..|ms| - 1]);
      MovedOut(MadeWay(before, ms[|ms| - 1]), ms[|ms| - 1])
  }

  function SetAsideTrace(d: Disk, ms: seq<Path>): seq<Disk> {
    if ms == [] then []
    else
      var before, m := SetAsideAll(d, ms[..|ms| - 1]), ms[|ms| - 1];
      SetAsideTrace(d, ms[..|ms| - 1]) + [MadeWay(before, m), MovedOut(MadeWay(before, m), m)]
  }

  /** None of these moves is refused. */
  predicate Accepted(d: Disk, ms: seq<Path>) {
    ms == [] || (Accepted(d, ms[..|ms| - 1]) && !Refused(SetAsideAll(d, ms[..|ms| - 1]), ms[|ms| - 1]))
  }

  /** Everything set aside for a cook of `keep`: the top level first, then the duplicates below it, if
      the canonical descriptor is there. */
  function ItemsOf(t: Tree, keep: string): set<Path> {
    var rest := Left(t, TopItems(t, keep));
    TopItems(t, keep) + if IsFile(rest, [keep + DESCRIPTOR_EXT]) then OuterRoots(rest, keep) else {}
  }

  lemma {:induction false} SettingAsideLeaves(d: Disk, ms: seq<Path>)
    ensures SetAsideAll(d, ms).imp == Left(d.imp, Elements(ms))
    ensures d.stash.Some? ==> SetAsideAll(d, ms).stash.Some?
  {
    hide *;
    if ms == [] {
      NothingLeaves(d);
    } else {
      var rest, m := ms[..|ms| - 1], ms[|ms| - 1];
      SettingAsideLeaves(d, rest);
      TakeOneMore(d.imp, Elements(rest), m);
      SetAsideNext(d, rest, m);
      MoveLeaves(SetAsideAll(d, rest), m);
      ElementsAnd(rest, m);
      assert ms == rest + [m];
    }
  }

  lemma NothingLeaves(d: Disk)
    ensures SetAsideAll(d, []) == d && Left(d.imp, Elements([])) == d.imp
  {
  }

  lemma MoveLeaves(d: Disk, m: Path)
    ensures MovedOut(MadeWay(d, m), m).imp == Left(d.imp, {m}) && MovedOut(MadeWay(d, m), m).stash.Some?
  {
  }

  lemma ElementsAnd(ms: seq<Path>, m: Path)
    ensures Elements(ms + [m]) == Elements(ms) + {m}
  {
  }

  lemma SetAsideNext(d: Disk, ms: seq<Path>, m: Path)
    ensures SetAsideAll(d, ms + [m]) == MovedOut(MadeWay(SetAsideAll(d, ms), m), m)
    ensures SetAsideTrace(d, ms + [m]) ==
        SetAsideTrace(d, ms) + [MadeWay(SetAsideAll(d, ms), m), SetAsideAll(d, ms + [m])]
    ensures Accepted(d, ms + [m]) == (Accepted(d, ms) && !Refused(SetAsideAll(d, ms), m))
  {
    assert (ms + [m])[..|ms|] == ms;
  }

  lemma SetAsideStep(orig: Tree, extra: Tree, items: set<Path>, out: set<Path>, d: Disk, m: Path)
    requires InTransit(orig, extra, items, out, d) && m in items && m !in out
    ensures InTransit(orig, extra, items, out + {m}, MovedOut(MadeWay(d, m), m))
    ensures AllRecoverable(orig, extra, items, [MadeWay(d, m), MovedOut(MadeWay(d, m), m)], 0)
    ensures !Refused(d, m)
  {
    hide InTransit, MadeWay, MovedOut, Recoverable, Refused;
    var made := MadeWay(d, m);
    NothingInTheWay(orig, extra, items, out, d, m);
    MakingWayKeepsTransit(orig, extra, items, out, d, m);
    MovingOutKeepsTransit(orig, extra, items, out, made, m);
    TransitIsRecoverable(orig, extra, items, out, made);
    TransitIsRecoverable(orig, extra, items, out + {m}, MovedOut(made, m));
  }

  /** The stash holds nothing that is in the way of setting `items` aside. */
  ghost predicate Unhindered(start: Disk, items: set<Path>) {
    AreItems(start.imp, items) && StaysBehind(start.imp, Held(start), items)
  }

  lemma NothingSetAside(start: Disk, items: set<Path>)
    requires Unhindered(start, items)
    ensures InTransit(start.imp, Held(start), items, {}, start)
  {
    assert Left(start.imp, {}) == start.imp;
  }

  /** Some of the items set aside, in any order. */
  lemma {:induction false} SettingAside(start: Disk, items: set<Path>, ms: seq<Path>, out: set<Path>)
    requires Unhindered(start, items) && IsPermutationOf(ms, out) && out <= items
    ensures InTransit(start.imp, Held(start), items, out, SetAsideAll(start, ms))
    ensures AllRecoverable(start.imp, Held(start), items, SetAsideTrace(start, ms), 0)
  {
    hide *;
    if ms == [] {
      NoneSetAside(start, items, ms, out);
    } else {
      var rest, m := ms[..|ms| - 1], ms[|ms| - 1];
      AllButLast(ms, out);
      SettingAside(start, items, rest, out - {m});
      SettingAsideLast(start, items, rest, m, out - {m});
      assert ms == rest + [m] && out == out - {m} + {m};
    }
  }

  lemma NoneSetAside(start: Disk, items: set<Path>, ms: seq<Path>, out: set<Path>)
    requires Unhindered(start, items) && IsPermutationOf(ms, out) && ms == []
    ensures InTransit(start.imp, Held(start), items, out, SetAsideAll(start, ms))
    ensures AllRecoverable(start.imp, Held(start), items, SetAsideTrace(start, ms), 0)
  {
    assert out == {};
    NothingSetAside(start, items);
  }

  lemma AllButLast(ms: seq<Path>, out: set<Path>)
    requires IsPermutationOf(ms, out) && ms != []
    ensures IsPermutationOf(ms[..|ms| - 1], out - {ms[|ms| - 1]}) && ms[|ms| - 1] in out
  {
    assert ms == ms[..|ms| - 1] + [ms[|ms| - 1]];
  }

  lemma SettingAsideLast(start: Disk, items: set<Path>, rest: seq<Path>, m: Path, out: set<Path>)
    requires InTransit(start.imp, Held(start), items, out, SetAsideAll(start, rest)) && m in items && m !in out
    requires AllRecoverable(start.imp, Held(start), items, SetAsideTrace(start, rest), 0)
    ensures InTransit(start.imp, Held(start), items, out + {m}, SetAsideAll(start, rest + [m]))
    ensures AllRecoverable(start.imp, Held(start), items, SetAsideTrace(start, rest + [m]), 0)
  {
    hide *;
    var now := SetAsideAll(start, rest);
    SetAsideNext(start, rest, m);
    SetAsideStep(start.imp, Held(start), items, out, now, m);
    RecoverableConcat(start.imp, Held(start), items,
                      SetAsideTrace(start, rest), [MadeWay(now, m), MovedOut(MadeWay(now, m), m)]);
  }

  /** `m` is an item whose turn may come after `moved`. */
  ghost predicate MayFollow(items: set<Path>, moved: seq<Path>, m: Path) {
    IsPermutationOf(moved, Elements(moved)) && Elements(moved) <= items && m in items && m !in Elements(moved)
  }

  // ------------------------------------------------------------------ moves that are refused

  /** One of the items is refused on this disk. */
  ghost predicate RefusesAny(d: Disk, items: set<Path>) {
    exists m :: m in items && Refused(d, m)
  }

  lemma AcceptedPrefix(d: Disk, ms: seq<Path>, k: nat)
    requires Accepted(d, ms) && k <= |ms|
    ensures Accepted(d, ms[..k])
    decreases |ms|
  {
    if k == |ms| {
      assert ms[..k] == ms;
    } else {
      assert ms[..|ms| - 1][..k] == ms[..k];
      AcceptedPrefix(d, ms[..|ms| - 1], k);
    }
  }

  /** Another item's move leaves everything at or below `m` alone. */
  lemma MoveKeepsBelow(d: Disk, items: set<Path>, n: Path, m: Path, q: Path)
    requires Apart(items) && n in items && m in items && n != m && m <= q
    ensures var after := Held(MovedOut(MadeWay(d, n), n));
            (q in after <==> q in Held(d)) && (q in after ==> after[q] == Held(d)[q])
  {
    ScaffoldIs(n, q);
    var made := MadeWay(d, n);
    var at := Landing(Held(made), n);
    if q in Rehung(made.imp, n, at) {
      var p :| p in made.imp && n <= p && q == at + p[|n|..];
      OnlyUnderItself(items, m, n, q);
    }
  }

  /** ... and no folder on the way to it becomes a file, or the other way round. */
  lemma MoveKeepsWay(d: Disk, items: set<Path>, n: Path, m: Path, q: Path)
    requires Apart(items) && n in items && m in items && n != m && q in Scaffold(m) && !Refused(d, n)
    ensures IsFile(Held(MovedOut(MadeWay(d, n), n)), q) == IsFile(Held(d), q)
  {
    ScaffoldIs(m, q);
    var made := MadeWay(d, n);
    var at := Landing(Held(made), n);
    if q in Rehung(made.imp, n, at) {
      var p :| p in made.imp && n <= p && q == at + p[|n|..];
      PrefixIsTransitive(n, q, m);
    }
  }

  /** So whether `m` is refused does not depend on what was moved before it. */
  lemma MoveKeepsRefusal(d: Disk, items: set<Path>, n: Path, m: Path)
    requires Apart(items) && n in items && m in items && n != m && !Refused(d, n)
    ensures Refused(MovedOut(MadeWay(d, n), n), m) == Refused(d, m)
  {
    var after := MovedOut(MadeWay(d, n), n);
    MoveKeepsBelow(d, items, n, m, m);
    MoveKeepsBelow(d, items, n, m, m + [m[|m| - 1]]);
    UnderOneMore({}, n, m);
    hide MovedOut, MadeWay;
    forall q | q in Scaffold(m) ensures IsFile(Held(after), q) == IsFile(Held(d), q) {
      MoveKeepsWay(d, items, n, m, q);
    }
  }

  lemma {:induction false} RefusedFromTheStart(d: Disk, items: set<Path>, moved: seq<Path>, m: Path)
    requires Apart(items) && Accepted(d, moved) && MayFollow(items, moved, m)
    ensures Refused(SetAsideAll(d, moved), m) == Refused(d, m)
    ensures Refused(d, m) ==> RefusesAny(d, items)
  {
    hide Refused, MadeWay, MovedOut, Apart;
    if moved != [] {
      var rest, n := moved[..|moved| - 1], moved[|moved| - 1];
      assert moved == rest + [n];
      RefusedFromTheStart(d, items, rest, m);
      MoveKeepsRefusal(SetAsideAll(d, rest), items, n, m);
    }
  }

  /** In whatever order the items are moved, every move goes through exactly when none is refused at the start. */
  lemma AcceptedExactly(d: Disk, items: set<Path>, ms: seq<Path>)
    requires Apart(items) && IsPermutationOf(ms, items)
    ensures Accepted(d, ms) <==> !RefusesAny(d, items)
  {
    hide Refused, Apart, Accepted;
    if Accepted(d, ms) {
      forall m | m in items ensures !Refused(d, m) {
        var k :| 0 <= k < |ms| && ms[k] == m;
        AcceptedAtItsTurn(d, items, ms, k);
      }
    } else if !RefusesAny(d, items) {
      RefusingNoneAccepts(d, items, ms, items);
    }
  }

  lemma {:induction false} RefusingNoneAccepts(d: Disk, items: set<Path>, ms: seq<Path>, out: set<Path>)
    requires Apart(items) && IsPermutationOf(ms, out) && out <= items && !RefusesAny(d, items)
    ensures Accepted(d, ms)
  {
    hide *;
    if ms == [] {
      NothingRefused(d);
    } else {
      var rest, m := ms[..|ms| - 1], ms[|ms| - 1];
      AllButLast(ms, out);
      RefusingNoneAccepts(d, items, rest, out - {m});
      LastIsNotRefused(d, items, rest, out - {m}, m);
      SetAsideNext(d, rest, m);
      assert ms == rest + [m];
    }
  }

  lemma LastIsNotRefused(d: Disk, items: set<Path>, rest: seq<Path>, out: set<Path>, m: Path)
    requires Apart(items) && IsPermutationOf(rest, out) && out <= items && m in items && m !in out
    requires Accepted(d, rest) && !RefusesAny(d, items)
    ensures !Refused(SetAsideAll(d, rest), m)
  {
    hide Refused, Apart, Accepted, RefusesAny, SetAsideAll;
    ElementsOf(rest, out);
    RefusedFromTheStart(d, items, rest, m);
  }

  lemma NothingRefused(d: Disk)
    ensures Accepted(d, [])
  {
  }

  lemma ElementsOf(ms: seq<Path>, out: set<Path>)
    requires IsPermutationOf(ms, out)
    ensures Elements(ms) == out && IsPermutationOf(ms, Elements(ms))
  {
  }

  lemma AcceptedAtItsTurn(d: Disk, items: set<Path>, ms: seq<Path>, k: nat)
    requires Apart(items) && IsPermutationOf(ms, items) && Accepted(d, ms) && k < |ms|
    ensures !Refused(d, ms[k])
  {
    hide *;
    AcceptedPrefix(d, ms, k + 1);
    assert ms[..k + 1] == ms[..k] + [ms[k]];
    SetAsideNext(d, ms[..k], ms[k]);
    TurnMayFollow(items, ms, k);
    RefusedFromTheStart(d, items, ms[..k], ms[k]);
  }

  lemma TurnMayFollow(items: set<Path>, ms: seq<Path>, k: nat)
    requires IsPermutationOf(ms, items) && k < |ms|
    ensures MayFollow(items, ms[..k], ms[k])
  {
    assert forall x :: x in ms[..k] ==> x in ms;
  }

  lemma UnhinderedRefusesNone(start: Disk, items: set<Path>)
    requires Unhindered(start, items)
    ensures !RefusesAny(start, items)
  {
    hide Refused, InTransit, Unhindered;
    NothingSetAside(start, items);
    forall m | m in items ensures !Refused(start, m) {
      NothingInTheWay(start.imp, Held(start), items, {}, start, m);
    }
  }

  lemma NotRefused(start: Disk, items: set<Path>, moved: seq<Path>, m: Path)
    requires Unhindered(start, items) && MayFollow(items, moved, m)
    ensures !Refused(SetAsideAll(start, moved), m)
  {
    hide Unhindered, InTransit, Refused, MadeWay, SetAsideAll;
    SettingAside(start, items, moved, Elements(moved));
    SetAsideStep(start.imp, Held(start), items, Elements(moved), SetAsideAll(start, moved), m);
  }

  lemma DuplicateHoldsFile(t: Tree, items: set<Path>, keep: string, m: Path)
    requires m in OuterRoots(Left(t, items), keep)
    ensures HoldsFile(t, m)
  {
    var rest := Left(t, items);
    assert HoldsDuplicate(rest, m, keep);
    var q :| q in rest && |q| == |m| + 1 && m <= q && rest[q].Leaf?;
    assert q in t && m < q;
  }

  lemma ItemsAreItems(t: Tree, keep: string)
    requires WellFormed(t)
    ensures AreItems(t, ItemsOf(t, keep))
  {
    ItemsAreApart(t, keep);
    forall m | m in ItemsOf(t, keep) && |m| > 1 ensures HoldsFile(t, m) {
      if m in TopItems(t, keep) {
        TopItemIsThere(t, keep, m);
      } else {
        DuplicateHoldsFile(t, TopItems(t, keep), keep, m);
      }
    }
  }

  /** Set-aside items are there, and none is inside another. */
  lemma ItemsAreApart(t: Tree, keep: string)
    requires WellFormed(t)
    ensures Apart(ItemsOf(t, keep)) && forall m :: m in ItemsOf(t, keep) ==> m in t
  {
    var tops := TopItems(t, keep);
    var rest := Left(t, tops);
    forall m | m in tops ensures |m| == 1 && m in t {
      TopItemIsThere(t, keep, m);
    }
    forall p, k | p in rest && 0 < k < |p| ensures p[..k] in rest && rest[p[..k]].Folder? {
      if UnderAny(tops, p[..k]) {
        var m :| m in tops && m <= p[..k];
        PrefixIsTransitive(m, p[..k], p);
      }
    }
    OuterRootsAreApart(rest, keep);
    forall m, n | m in tops && n in OuterRoots(rest, keep) ensures !(m <= n) && !(n <= m) {
      if m <= n {
        UnderOne(tops, m, n);
      }
    }
  }

  lemma UnderOne(items: set<Path>, m: Path, q: Path)
    requires m in items && m <= q
    ensures UnderAny(items, q)
  {
  }

  lemma TopItemIsThere(t: Tree, keep: string, m: Path)
    requires m in TopItems(t, keep)
    ensures |m| == 1 && m in t
  {
    if f :| f in TopNames(t) && SetsAside(f, keep) && m == [f] {
      var p :| p in t && |p| == 1 && p[0] == f;
      assert p == [f];
    }
  }

  lemma {:induction false} ShorterSortsFirst(a: string, suffix: string)
    requires suffix != ""
    ensures !LexLeq(a + suffix, a)
  {
    if a == "" {
      assert a + suffix == suffix;
    } else {
      ShorterSortsFirst(a[1..], suffix);
      assert (a + suffix)[1..] == a[1..] + suffix;
    }
  }

  /** The items of the top level met among the first names. */
  function TopItemsAmong(t: Tree, keep: string, names: seq<string>): set<Path> {
    (set f | f in names && SetsAside(f, keep) :: [f]) +
    (set f | f in names && SetsAside(f, keep) && IsFolder(t, [BaseOf(f)]) :: [BaseOf(f)])
  }

  lemma TopItemsOneMore(t: Tree, keep: string, names: seq<string>, n: nat)
    requires n < |names|
    ensures var f := names[n]; var before := TopItemsAmong(t, keep, names[..n]);
            TopItemsAmong(t, keep, names[..n + 1]) ==
            before + (if !SetsAside(f, keep) then {}
                      else {[f]} + (if IsFolder(t, [BaseOf(f)]) then {[BaseOf(f)]} else {}))
  {
    assert names[..n + 1] == names[..n] + [names[n]];
  }

  /** A descriptor, and the asset folder beside it if `t` has one. */
  function Package(t: Tree, f: string): seq<Path>
    requires IsDescriptor(f)
  {
    [[f]] + if IsFolder(t, [BaseOf(f)]) then [[BaseOf(f)]] else []
  }

  lemma BaseIsPrefix(g: string)
    requires IsDescriptor(g)
    ensures |g| > |BaseOf(g)| && g[..|BaseOf(g)|] == BaseOf(g)
  {
  }

  lemma FolderSortsFirst(g: string)
    requires IsDescriptor(g)
    ensures !LexLeq(g, BaseOf(g)) && g != BaseOf(g)
  {
    hide IsDescriptor, BaseOf, LexLeq;
    BaseIsPrefix(g);
    var f := BaseOf(g);
    assert g == f + g[|f|..];
    ShorterSortsFirst(f, g[|f|..]);
  }

  /** A descriptor's turn comes before that of any descriptor whose asset folder it could be. */
  lemma NotMovedYet(t: Tree, keep: string, names: seq<string>, n: nat)
    requires IsSorted(names) && n < |names|
    ensures [names[n]] !in TopItemsAmong(t, keep, names[..n])
  {
    hide IsDescriptor, BaseOf, LexLeq;
    var f := names[n];
    forall g | g in names[..n] && SetsAside(g, keep) ensures f != g && f != BaseOf(g) {
      var j :| 0 <= j < n && names[j] == g;
      assert LexLeq(names[j], names[n]);
      FolderSortsFirst(g);
    }
  }

  lemma SinglesUnder(items: set<Path>, q: Path)
    requires |q| == 1 && forall m :: m in items ==> |m| == 1
    ensures UnderAny(items, q) <==> q in items
  {
    if m :| m in items && m <= q {
      assert m == q[..1] == q;
    }
  }

  lemma TopItemsAreSingles(t: Tree, keep: string, names: seq<string>)
    ensures forall m :: m in TopItemsAmong(t, keep, names) ==> |m| == 1
  {
  }

  lemma ElementsOneMore(ms: seq<Path>, items: set<Path>, m: Path)
    requires IsPermutationOf(ms, items) && m !in items
    ensures IsPermutationOf(ms + [m], items + {m}) && Elements(ms) == items && Elements(ms + [m]) == items + {m}
  {
  }

  // ------------------------------------------------------------------ nested duplicates

  ghost predicate DeepestFirst(ps: seq<Path>) {
    forall i, j :: 0 <= i < j < |ps| ==> |ps[i]| >= |ps[j]|
  }

  method Deepest(s: set<Path>) returns (p: Path)
    requires s != {}
    ensures p in s && forall q :: q in s ==> |q| <= |p|
  {
    p :| p in s;
    var todo := s - {p};
    while todo != {}
      invariant todo <= s && p in s && forall q :: q in s - todo ==> |q| <= |p|
    {
      var q :| q in todo;
      if |q| > |p| {
        p := q;
      }
      todo := todo - {q};
    }
  }

  method SortDeepestFirst(s: set<Path>) returns (ps: seq<Path>)
    ensures IsPermutationOf(ps, s) && DeepestFirst(ps)
  {
    ps := [];
    var todo := s;
    while todo != {}
      invariant todo <= s && IsPermutationOf(ps, s - todo) && DeepestFirst(ps)
      invariant forall p, q :: p in ps && q in todo ==> |p| >= |q|
    {
      var p := Deepest(todo);
      assert forall i :: 0 <= i < |ps| ==> ps[i] in ps;
      ps, todo := ps + [p], todo - {p};
    }
  }

  method CollectRoots(t: Tree, keep: string) returns (roots: set<Path>)
    ensures roots == DuplicateRoots(t, keep)
  {
    roots := {};
    var todo := t.Keys;
    while todo != {}
      invariant todo <= t.Keys && roots == DuplicateRoots(t, keep) - todo
    {
      var p :| p in todo;
      if t[p].Folder? && HoldsDuplicate(t, p, keep) {
        roots := roots + {p};
      }
      todo := todo - {p};
    }
  }

  /** Drop any root nested inside another one listed. */
  method DropInner(ordered: seq<Path>, roots: set<Path>) returns (kept: seq<Path>)
    requires IsPermutationOf(ordered, roots) && DeepestFirst(ordered)
    ensures IsPermutationOf(kept, Outermost(roots)) && DeepestFirst(kept)
  {
    kept := [];
    for i := 0 to |ordered|
      invariant DeepestFirst(kept)
      invariant forall p :: p in kept <==> p in ordered[..i] && p in Outermost(roots)
      invariant forall j, k :: 0 <= j < k < |kept| ==> kept[j] != kept[k]
    {
      var r := ordered[i];
      assert ordered[..i + 1] == ordered[..i] + [r];
      if !exists k :: k in roots && k < r {
        assert r !in ordered[..i] && r in roots;
        forall j | 0 <= j < |kept| ensures |kept[j]| >= |r| && kept[j] != r {
          assert kept[j] in kept;
        }
        kept := kept + [r];
      }
    }
    assert ordered[..|ordered|] == ordered;
  }

  /** Every folder below the top that holds a second descriptor for `keep`, deepest first, without
      those inside another one. */
  method NestedDuplicateRoots(t: Tree, keep: string) returns (kept: seq<Path>)
    ensures IsPermutationOf(kept, OuterRoots(t, keep)) && DeepestFirst(kept)
  {
    var roots := CollectRoots(t, keep);
    var ordered := SortDeepestFirst(roots);
    kept := DropInner(ordered, roots);
  }

  lemma MovedOneMore(moved0: seq<Path>, nested: seq<Path>, i: nat)
    requires i < |nested|
    ensures moved0 + nested[..i] + [nested[i]] == moved0 + nested[..i + 1]
  {
  }

  lemma MovedAll(moved0: seq<Path>, nested: seq<Path>)
    ensures moved0 + nested[..|nested|] == moved0 + nested
  {
    assert nested[..|nested|] == nested;
  }

  // ------------------------------------------------------------------- what the cook sees

  lemma TopNameIs(t: Tree, a: string)
    ensures a in TopNames(t) <==> [a] in t
  {
    if [a] in t {
      assert [a][0] == a;
    }
    if p :| p in t && |p| == 1 && p[0] == a {
      assert p == [a];
    }
  }

  lemma LeftOfUnion(t: Tree, a: set<Path>, b: set<Path>)
    ensures Left(t, a + b) == Left(Left(t, a), b)
  {
    forall q ensures UnderAny(a + b, q) <==> UnderAny(a, q) || UnderAny(b, q) {
      if m :| m in a && m <= q {
        UnderOne(a + b, m, q);
      }
      if m :| m in b && m <= q {
        UnderOne(a + b, m, q);
      }
    }
  }

  lemma CookSeesOnlyKeep(t: Tree, keep: string)
    ensures ShowsOnly(Left(t, ItemsOf(t, keep)), keep)
  {
    var tops := TopItems(t, keep);
    var rest, shown := Left(t, tops), Left(t, ItemsOf(t, keep));
    forall f | [f] in shown && IsDescriptor(f) ensures BaseOf(f) == keep {
      TopNameIs(t, f);
      if BaseOf(f) != keep {
        UnderOne(ItemsOf(t, keep), [f], [f]);
      }
    }
    if IsFile(rest, [keep + DESCRIPTOR_EXT]) {
      LeftOfUnion(t, tops, OuterRoots(rest, keep));
      NoDuplicateIsLeft(rest, keep);
    } else {
      assert ItemsOf(t, keep) == tops;
    }
  }

  /** The cook sees at the top level no descriptor but `keep`'s own and the decals, and, when `keep`'s
      canonical descriptor is there, no second one for it below. */
  ghost predicate ShowsOnly(t: Tree, keep: string) {
    && (forall f :: [f] in t && IsDescriptor(f) ==> BaseOf(f) == keep)
    && (IsFile(t, [keep + DESCRIPTOR_EXT]) ==> DuplicateRoots(t, keep) == {})
  }

  // ------------------------------------------------------------------- what stays, name by name

  /** A file name that is a map's descriptor, not `keep`'s and not the decals. */
  predicate IsOtherMap(f: string, keep: string) {
    EndsWith(ToLower(f), ".json") && ToLower(f) != "roadpainter_decals.json" && f[..|f| - 5] != keep
  }

  /** Entry `a` of the top level is the descriptor of another map, or the asset folder beside one. */
  ghost predicate GoesWithPackage(t: Tree, keep: string, a: string) {
    || ([a] in t && IsOtherMap(a, keep))
    || ([a] in t && t[[a]].Folder?
        && exists f :: f in TopNames(t) && IsOtherMap(f, keep) && a == f[..|f| - 5])
  }

  /** Folder `p` directly holds a file called like `keep`'s descriptor, whatever the case. */
  ghost predicate HoldsNamesake(t: Tree, p: Path, keep: string) {
    exists r :: r in t && p <= r && |r| == |p| + 1 && t[r].Leaf? && ToLower(r[|p|]) == ToLower(keep + ".json")
  }

  /** `q` is such a folder below the top, or inside one, and the canonical descriptor is there. */
  ghost predicate GoesAsDuplicate(t: Tree, keep: string, q: Path) {
    && [keep + ".json"] in t && t[[keep + ".json"]].Leaf?
    && exists p :: p != [] && p <= q && HoldsNamesake(t, p, keep)
  }

  /** Everything in Import/ stays but the other packages and the duplicates. */
  ghost predicate KeepsTheRest(t: Tree, imp: Tree, keep: string) {
    && (forall q :: q in imp ==> q in t && imp[q] == t[q])
    && forall q :: q in t && q != [] ==> (q in imp <==> !GoesWithPackage(t, keep, q[0]) && !GoesAsDuplicate(t, keep, q))
  }

  lemma SetsAsideOthers(f: string, keep: string)
    ensures SetsAside(f, keep) <==> IsOtherMap(f, keep)
    ensures SetsAside(f, keep) ==> IsDescriptor(f)
    ensures IsDescriptor(f) ==> |f| >= 5 && BaseOf(f) == f[..|f| - 5]
  {
    assert |DESCRIPTOR_EXT| == 5;
  }

  lemma TopItemIs(t: Tree, keep: string, a: string)
    ensures [a] in TopItems(t, keep) <==> GoesWithPackage(t, keep, a)
  {
    hide IsDescriptor, BaseOf, IsOtherMap, SetsAside;
    forall f
      ensures f in TopNames(t) <==> [f] in t
      ensures SetsAside(f, keep) <==> IsOtherMap(f, keep)
      ensures IsDescriptor(f) ==> |f| >= 5 && BaseOf(f) == f[..|f| - 5]
      ensures SetsAside(f, keep) ==> IsDescriptor(f)
    {
      TopNameIs(t, f);
      SetsAsideOthers(f, keep);
    }
    TopItemsMean(t, keep, a);
  }

  lemma TopItemsMean(t: Tree, keep: string, a: string)
    ensures [a] in TopItems(t, keep) <==>
              || (a in TopNames(t) && SetsAside(a, keep))
              || exists f :: f in TopNames(t) && SetsAside(f, keep) && IsFolder(t, [BaseOf(f)]) && a == BaseOf(f)
  {
    hide IsDescriptor, BaseOf;
    assert forall x: string, y: string :: [x] == [y] ==> [x][0] == [y][0];
  }

  lemma UnderTopItem(t: Tree, keep: string, q: Path)
    requires q != []
    ensures UnderAny(TopItems(t, keep), q) <==> GoesWithPackage(t, keep, q[0])
  {
    hide GoesWithPackage, TopItems;
    TopItemIs(t, keep, q[0]);
    assert [q[0]] <= q;
    if m :| m in TopItems(t, keep) && m <= q {
      TopItemIsThere(t, keep, m);
      assert m == [q[0]];
    }
  }

  lemma CanonicalStays(t: Tree, keep: string)
    ensures IsFile(Left(t, TopItems(t, keep)), [keep + DESCRIPTOR_EXT]) <==>
              [keep + ".json"] in t && t[[keep + ".json"]].Leaf?
  {
    hide TopItems, UnderAny;
    var own := keep + ".json";
    UnderTopItem(t, keep, [own]);
    assert own[..|own| - 5] == keep;
  }

  lemma UnderOuterRoot(t: Tree, keep: string, q: Path)
    ensures UnderAny(OuterRoots(t, keep), q) <==> exists p :: p in DuplicateRoots(t, keep) && p <= q
  {
    hide DuplicateRoots;
    if p :| p in DuplicateRoots(t, keep) && p <= q {
      var r := EveryRootIsInAnOuterOne(t, keep, p);
      PrefixIsTransitive(r, p, q);
    }
  }

  /** What is not set aside with a package is a duplicate in what is left as it was in the whole. */
  lemma RootOfRest(t: Tree, keep: string, p: Path)
    requires WellFormed(t) && p != [] && !GoesWithPackage(t, keep, p[0])
    ensures p in DuplicateRoots(Left(t, TopItems(t, keep)), keep) <==> HoldsNamesake(t, p, keep)
  {
    hide GoesWithPackage, TopItems, UnderAny;
    forall r: Path | p <= r ensures !UnderAny(TopItems(t, keep), r) {
      UnderTopItem(t, keep, r);
      assert r[0] == p[0];
    }
    if r :| r in t && p <= r && |r| == |p| + 1 && t[r].Leaf? && ToLower(r[|p|]) == ToLower(keep + ".json") {
      PrefixIsThere(t, p, r);
      assert r in Left(t, TopItems(t, keep));
    }
  }

  lemma DuplicateOfRest(t: Tree, keep: string, q: Path)
    requires WellFormed(t) && q in t && !GoesWithPackage(t, keep, q[0])
    ensures UnderAny(OuterRoots(Left(t, TopItems(t, keep)), keep), q) <==>
              exists p :: p != [] && p <= q && HoldsNamesake(t, p, keep)
  {
    hide GoesWithPackage, TopItems, DuplicateRoots, OuterRoots, HoldsNamesake;
    var rest := Left(t, TopItems(t, keep));
    UnderOuterRoot(rest, keep, q);
    RootsAreThere(rest, keep);
    forall p: Path | p != [] && p <= q ensures p in DuplicateRoots(rest, keep) <==> HoldsNamesake(t, p, keep) {
      RootOfRest(t, keep, p);
    }
  }

  lemma RootsAreThere(t: Tree, keep: string)
    ensures forall p :: p in DuplicateRoots(t, keep) ==> p in t
  {
  }

  lemma StaysOrGoes(t: Tree, keep: string, q: Path)
    requires WellFormed(t) && q in t
    ensures q in Left(t, ItemsOf(t, keep)) <==> !GoesWithPackage(t, keep, q[0]) && !GoesAsDuplicate(t, keep, q)
  {
    hide GoesWithPackage, TopItems, OuterRoots, HoldsNamesake, UnderAny;
    var tops := TopItems(t, keep);
    var rest := Left(t, tops);
    CanonicalStays(t, keep);
    UnderTopItem(t, keep, q);
    LeftOfUnion(t, tops, OuterRoots(rest, keep));
    assert tops + {} == tops;
    if !GoesWithPackage(t, keep, q[0]) {
      DuplicateOfRest(t, keep, q);
    }
  }

  /** What is left of Import/, said of every path in it. */
  lemma TheRestIsKept(t: Tree, keep: string)
    requires WellFormed(t)
    ensures KeepsTheRest(t, Left(t, ItemsOf(t, keep)), keep)
  {
    hide GoesWithPackage, GoesAsDuplicate, ItemsOf, UnderAny;
    forall q | q in t
      ensures q in Left(t, ItemsOf(t, keep)) <==> !GoesWithPackage(t, keep, q[0]) && !GoesAsDuplicate(t, keep, q)
    {
      StaysOrGoes(t, keep, q);
    }
  }

  /** A file of the top level stays exactly when it is the decals, no descriptor, or `keep`'s own. */
  lemma TopFileStays(t: Tree, keep: string, f: string)
    requires WellFormed(t) && IsFile(t, [f])
    ensures [f] in Left(t, ItemsOf(t, keep)) <==>
              ToLower(f) == "roadpainter_decals.json" || !EndsWith(ToLower(f), ".json") || f[..|f| - 5] == keep
  {
    hide ItemsOf, Left, ToLower, EndsWith, GoesWithPackage, GoesAsDuplicate, WellFormed;
    StaysOrGoes(t, keep, [f]);
    assert [f][0] == f;
    FileGoesAlone(t, keep, f);
    FileHoldsNothing(t, keep, f);
  }

  lemma FileGoesAlone(t: Tree, keep: string, f: string)
    requires IsFile(t, [f])
    ensures GoesWithPackage(t, keep, f) <==> IsOtherMap(f, keep)
  {
    hide IsOtherMap;
  }

  lemma FileHoldsNothing(t: Tree, keep: string, f: string)
    requires WellFormed(t) && IsFile(t, [f])
    ensures !GoesAsDuplicate(t, keep, [f])
  {
    hide ToLower, WellFormed;
    if p: Path :| p != [] && p <= [f] && HoldsNamesake(t, p, keep) {
      assert p == [f];
      var r :| r in t && p <= r && |r| == |p| + 1;
      PrefixIsThere(t, p, r);
    }
  }

  lemma PermutationsAppended(a: seq<Path>, b: seq<Path>, as_: set<Path>, bs: set<Path>)
    requires IsPermutationOf(a, as_) && IsPermutationOf(b, bs) && as_ !! bs
    ensures IsPermutationOf(a + b, as_ + bs)
  {
    forall i, j | 0 <= i < |a| && 0 <= j < |b| ensures a[i] != b[j] {
      assert a[i] in a && b[j] in b;
    }
  }

  lemma TopsThenNested(t: Tree, keep: string, tops: seq<Path>, nested: seq<Path>)
    requires IsPermutationOf(tops, TopItems(t, keep))
    requires IsPermutationOf(nested, OuterRoots(Left(t, TopItems(t, keep)), keep))
    ensures IsPermutationOf(tops + nested, TopItems(t, keep) + OuterRoots(Left(t, TopItems(t, keep)), keep))
  {
    forall m | m in TopItems(t, keep) ensures m !in OuterRoots(Left(t, TopItems(t, keep)), keep) {
      UnderOne(TopItems(t, keep), m, m);
    }
    PermutationsAppended(tops, nested, TopItems(t, keep), OuterRoots(Left(t, TopItems(t, keep)), keep));
  }

  /** An asset folder is still in Import/ exactly when it has not been set aside. */
  lemma FolderStillThere(t: Tree, items: set<Path>, base: string)
    requires forall m :: m in items ==> |m| == 1
    ensures IsFolder(Left(t, items), [base]) <==> IsFolder(t, [base]) && [base] !in items
  {
    SinglesUnder(items, [base]);
  }

  /** What one package adds to the items moved so far. */
  lemma PackageSetAside(t: Tree, keep: string, names: seq<string>, n: nat, moved: seq<Path>, start: Disk)
    requires IsSorted(names) && n < |names| && SetsAside(names[n], keep) && start.imp == t
    requires IsPermutationOf(moved, TopItemsAmong(t, keep, names[..n]))
    ensures var f := names[n];
            IsPermutationOf(moved + Package(Left(SetAsideAll(start, moved).imp, {[f]}), f),
                            TopItemsAmong(t, keep, names[..n + 1]))
  {
    hide SetAsideAll, IsDescriptor, UnderAny, IsPermutationOf, TopItemsAmong;
    var f := names[n];
    var base := BaseOf(f);
    var items := TopItemsAmong(t, keep, names[..n]);
    NotMovedYet(t, keep, names, n);
    TopItemsOneMore(t, keep, names, n);
    TopItemsAreSingles(t, keep, names[..n]);
    ElementsOneMore(moved, items, [f]);
    SettingAsideLeaves(start, moved);
    TakeOneMore(t, items, [f]);
    FolderStillThere(t, items + {[f]}, base);
    if IsFolder(Left(t, items + {[f]}), [base]) {
      ElementsOneMore(moved + [[f]], items + {[f]}, [base]);
      assert moved + ([[f]] + [[base]]) == moved + [[f]] + [[base]];
      assert items + {[f]} + {[base]} == items + ({[f]} + {[base]});
    } else {
      assert moved + ([[f]] + []) == moved + [[f]];
      assert [base] in items + {[f]} ==> items + ({[f]} + {[base]}) == items + {[f]};
      assert items + ({[f]} + {}) == items + {[f]};
    }
  }

  /** A move refused while a package is being set aside was refused from the start. */
  lemma PackageRefusal(t: Tree, keep: string, names: seq<string>, n: nat, moved: seq<Path>, start: Disk,
      items: set<Path>)
    requires IsSorted(names) && n < |names| && SetsAside(names[n], keep) && start.imp == t && TopItems(t, keep) <= items
    requires (forall f :: f in names <==> f in TopNames(t)) && Apart(items)
        && IsPermutationOf(moved, TopItemsAmong(t, keep, names[..n]))
    ensures var f := names[n];
            RefusesPackage(start, moved, f) ==> RefusesAny(start, items)
  {
    hide SetAsideAll, Refused, Accepted, Apart, RefusesAny;
    var f := names[n];
    PackageSetAside(t, keep, names, n, moved, start);
    AmongTops(t, keep, names, n + 1);
    var all := moved + Package(Left(SetAsideAll(start, moved).imp, {[f]}), f);
    FirstMayFollow(items, TopItemsAmong(t, keep, names[..n + 1]), moved, [f], all);
    if Accepted(start, moved) && Refused(SetAsideAll(start, moved), [f]) {
      RefusedFromTheStart(start, items, moved, [f]);
    }
    if IsFolder(Left(SetAsideAll(start, moved).imp, {[f]}), [BaseOf(f)]) {
      FirstMayFollow(items, TopItemsAmong(t, keep, names[..n + 1]), moved + [[f]], [BaseOf(f)], all);
      if Accepted(start, moved + [[f]]) && Refused(SetAsideAll(start, moved + [[f]]), [BaseOf(f)]) {
        RefusedFromTheStart(start, items, moved + [[f]], [BaseOf(f)]);
      }
    }
  }

  /** After `moved`, setting aside descriptor `f` or its asset folder is refused. */
  ghost predicate RefusesPackage(start: Disk, moved: seq<Path>, f: string)
    requires IsDescriptor(f)
  {
    || (Accepted(start, moved) && Refused(SetAsideAll(start, moved), [f]))
    || (IsFolder(Left(SetAsideAll(start, moved).imp, {[f]}), [BaseOf(f)]) && Accepted(start, moved + [[f]])
        && Refused(SetAsideAll(start, moved + [[f]]), [BaseOf(f)]))
  }

  lemma FirstMayFollow(items: set<Path>, among: set<Path>, moved: seq<Path>, m: Path, all: seq<Path>)
    requires IsPermutationOf(all, among) && among <= items && moved + [m] <= all
    ensures MayFollow(items, moved, m)
  {
    assert forall i :: 0 <= i < |moved| ==> moved[i] == all[i] && all[i] in all;
    assert all[|moved|] == m && m in all;
  }

  lemma AmongTops(t: Tree, keep: string, names: seq<string>, n: nat)
    requires n <= |names| && forall f :: f in names <==> f in TopNames(t)
    ensures TopItemsAmong(t, keep, names[..n]) <= TopItems(t, keep)
  {
  }
}
