/** CARLA's Import/ folder and the stash beside it as trees of paths, and what moving parts of them
    between the two does. A set-aside item keeps its path, so both trees speak of the same paths. */
module ImportTree {
  import opened Common

  /** The components below the folder; never empty for something in it. */
  type Path = seq<string>

  datatype Node = Folder | Leaf(content: string)

  type Tree = map<Path, Node>

  ghost predicate WellFormed(t: Tree) {
    forall p :: p in t ==> |p| > 0 && forall k :: 0 < k < |p| ==> p[..k] in t && t[p[..k]].Folder?
  }

  /** `q` is one of `items`, or below one. */
  predicate UnderAny(items: set<Path>, q: Path) {
    exists m :: m in items && m <= q
  }

  /** `q` is a folder on the way to one of `items`. */
  predicate AboveAny(items: set<Path>, q: Path) {
    exists m :: m in items && 0 < |q| && q < m
  }

  /** None of the items is below another one. */
  ghost predicate Apart(items: set<Path>) {
    && (forall m :: m in items ==> |m| > 0)
    && forall m, n :: m in items && n in items && m <= n ==> m == n
  }

  /** What is left when the items have been taken out, and what they hold. */
  function Left(t: Tree, items: set<Path>): Tree {
    map q | q in t && !UnderAny(items, q) :: t[q]
  }

  function Taken(t: Tree, items: set<Path>): Tree {
    map q | q in t && UnderAny(items, q) :: t[q]
  }

  function WaysTo(m: Path): set<Path> {
    set k | 0 < k < |m| :: m[..k]
  }

  /** The folders makedirs creates on the way to an item. */
  function Scaffold(m: Path): Tree {
    map q | q in WaysTo(m) :: Folder
  }

  lemma ScaffoldIs(m: Path, q: Path)
    ensures q in Scaffold(m) <==> 0 < |q| && q < m
  {
    if 0 < |q| && q < m {
      assert q == m[..|q|];
    }
  }

  lemma PrefixIsTransitive(a: Path, b: Path, c: Path)
    requires a <= b && b <= c
    ensures a <= c
  {
  }

  lemma PrefixesCompare(a: Path, b: Path, q: Path)
    requires a <= q && b <= q
    ensures a <= b || b <= a
  {
    assert a == q[..|a|] && b == q[..|b|];
  }

  lemma UnderFewer(items: set<Path>, out: set<Path>, q: Path)
    requires out <= items && UnderAny(out, q)
    ensures UnderAny(items, q)
  {
    var m :| m in out && m <= q;
    assert m in items;
  }

  lemma UnderOneMore(items: set<Path>, m: Path, q: Path)
    ensures UnderAny(items + {m}, q) <==> UnderAny(items, q) || m <= q
    ensures UnderAny({m}, q) <==> m <= q
  {
    assert m in items + {m} && m in {m};
  }

  /** Taking out one more item. */
  lemma TakeOneMore(t: Tree, items: set<Path>, m: Path)
    ensures Left(Left(t, items), {m}) == Left(t, items + {m})
    ensures Taken(t, items + {m}) == Taken(t, items) + Taken(Left(t, items), {m})
    ensures Taken(t, items).Keys !! Left(t, items).Keys
  {
    forall q
      ensures UnderAny(items + {m}, q) <==> UnderAny(items, q) || m <= q
      ensures UnderAny({m}, q) <==> m <= q
    {
      UnderOneMore(items, m, q);
    }
  }

  lemma AboveIsNotUnder(items: set<Path>, q: Path)
    requires Apart(items) && AboveAny(items, q)
    ensures !UnderAny(items, q)
  {
    if UnderAny(items, q) {
      var m :| m in items && 0 < |q| && q < m;
      var n :| n in items && n <= q;
      PrefixIsTransitive(n, q, m);
    }
  }

  lemma WaysAreFolders(t: Tree, items: set<Path>, q: Path)
    requires WellFormed(t) && AboveAny(items, q) && forall m :: m in items ==> m in t
    ensures q in t && t[q].Folder?
  {
    var m :| m in items && 0 < |q| && q < m;
    assert q == m[..|q|];
  }

  // ------------------------------------------------------------- a set-aside in progress

  /** Import/ and the stash; the stash need not exist. */
  datatype Disk = Disk(imp: Tree, stash: Option<Tree>)

  /** What the stash holds. */
  function Held(d: Disk): Tree {
    if d.stash.Some? then d.stash.value else map[]
  }

  /** `t` without some of its folders; every file is still there. */
  ghost predicate Thinner(thin: Tree, t: Tree) {
    && (forall q :: q in thin ==> q in t && thin[q] == t[q])
    && (forall q :: q in t && t[q].Leaf? ==> q in thin)
  }

  ghost predicate HoldsFile(t: Tree, p: Path) {
    exists q :: q in t && p < q && t[q].Leaf?
  }

  /** Parts of `t` to be set aside: apart from each other, and one from below the top holds a file. */
  ghost predicate AreItems(t: Tree, items: set<Path>) {
    && WellFormed(t) && Apart(items)
    && forall m :: m in items ==> m in t && (|m| > 1 ==> HoldsFile(t, m))
  }

  /** Nothing in the stash is in the way of setting `items` aside. */
  ghost predicate Free(items: set<Path>, stash: Tree) {
    && (forall m :: m in items ==> m !in stash)
    && (forall q :: q in stash && AboveAny(items, q) ==> stash[q].Folder?)
  }

  /** What earlier cooks left in the stash: below folders that Import/ has, and in the way of no item. */
  ghost predicate StaysBehind(orig: Tree, extra: Tree, items: set<Path>) {
    && WellFormed(extra) && Free(items, extra)
    && forall q :: q in extra ==> |q| > 0 && [q[0]] in orig
  }

  /** The stash has all of `out` and `extra`, and besides them only folders on the way to an item. */
  ghost predicate Holds(held: Tree, orig: Tree, extra: Tree, items: set<Path>, out: set<Path>) {
    && WellFormed(held)
    && (forall q :: q in orig && UnderAny(out, q) ==> q in held && held[q] == orig[q])
    && (forall q :: q in extra ==> q in held && held[q] == extra[q])
    && (forall q :: q in held ==>
          (q in orig && UnderAny(out, q)) || q in extra || (AboveAny(items, q) && held[q].Folder?))
  }

  /** Of `orig`, exactly the items `out` are in the stash with all they hold and the rest is in Import/;
      the stash has `extra` as before. */
  ghost predicate InTransit(orig: Tree, extra: Tree, items: set<Path>, out: set<Path>, d: Disk) {
    && AreItems(orig, items) && StaysBehind(orig, extra, items) && out <= items
    && d.imp == Left(orig, out) && Holds(Held(d), orig, extra, items, out)
  }

  /** Some items are out, the others are in; at most empty folders have gone. */
  ghost predicate Recoverable(orig: Tree, extra: Tree, items: set<Path>, d: Disk) {
    exists w: Tree, x: Tree, out: set<Path> :: Thinner(w, orig) && Thinner(x, extra) && InTransit(w, x, items, out, d)
  }

  lemma TransitIsRecoverable(orig: Tree, extra: Tree, items: set<Path>, out: set<Path>, d: Disk)
    requires InTransit(orig, extra, items, out, d)
    ensures Recoverable(orig, extra, items, d)
  {
    assert Thinner(orig, orig) && Thinner(extra, extra);
  }

  lemma ItemIsOutOrIn(items: set<Path>, out: set<Path>, m: Path)
    requires Apart(items) && out <= items && m in items
    ensures (UnderAny(out, m) <==> m in out) && !AboveAny(items, m)
  {
    if AboveAny(items, m) {
      AboveIsNotUnder(items, m);
    }
  }

  lemma PrefixIsThere(t: Tree, m: Path, q: Path)
    requires WellFormed(t) && q in t && 0 < |m| && m <= q
    ensures m in t && (m != q ==> t[m].Folder?)
  {
    if |m| < |q| {
      assert m == q[..|m|];
    } else {
      assert m == q;
    }
  }

  lemma PrefixesAreThere(t: Tree, items: set<Path>, q: Path)
    requires WellFormed(t) && q in t && forall m :: m in items ==> |m| > 0
    ensures forall m :: m in items && m <= q ==> m in t
  {
    forall m | m in items && m <= q ensures m in t {
      PrefixIsThere(t, m, q);
    }
  }

  /** Nothing left behind is below an item. */
  lemma BehindIsNotUnder(items: set<Path>, extra: Tree, q: Path)
    requires WellFormed(extra) && Free(items, extra) && Apart(items) && q in extra
    ensures !UnderAny(items, q)
  {
    PrefixesAreThere(extra, items, q);
  }

  lemma LeftIsWellFormed(t: Tree, items: set<Path>)
    requires WellFormed(t)
    ensures WellFormed(Left(t, items))
  {
    forall p, k | p in Left(t, items) && 0 < k < |p| ensures !UnderAny(items, p[..k]) {
      if m :| m in items && m <= p[..k] {
        PrefixIsTransitive(m, p[..k], p);
      }
    }
  }

  lemma RecoverableIsWellFormed(orig: Tree, extra: Tree, items: set<Path>, d: Disk)
    requires Recoverable(orig, extra, items, d)
    ensures WellFormed(d.imp) && WellFormed(Held(d))
  {
    var w: Tree, x: Tree, out: set<Path> :| Thinner(w, orig) && Thinner(x, extra) && InTransit(w, x, items, out, d);
    LeftIsWellFormed(w, out);
  }

  lemma ItemsAreThere(orig: Tree, items: set<Path>)
    requires AreItems(orig, items)
    ensures Apart(items) && forall m :: m in items ==> m in orig
  {
  }

  /** An item is in the stash exactly when it is out, and then with all that it held, no more. */
  lemma HeldItem(orig: Tree, extra: Tree, items: set<Path>, out: set<Path>, d: Disk, m: Path)
    requires InTransit(orig, extra, items, out, d) && m in items
    ensures m in Held(d) <==> m in out
    ensures m in d.imp <==> m !in out
    ensures m in out ==> Taken(Held(d), {m}) == Taken(orig, {m})
  {
    hide AboveAny, StaysBehind, AreItems;
    assert Apart(items) && m in orig by {
      ItemsAreThere(orig, items);
    }
    ItemIsOutOrIn(items, out, m);
    NothingElseUnder(orig, extra, items, out, Held(d), m, m);
    if m in out {
      forall q | m <= q ensures (q in Held(d) <==> q in orig) && (q in orig ==> Held(d)[q] == orig[q]) {
        NothingElseUnder(orig, extra, items, out, Held(d), m, q);
        assert UnderAny(out, q);
      }
      SameBelow(Held(d), orig, m);
    }
  }

  lemma SameBelow(a: Tree, b: Tree, m: Path)
    requires forall q :: m <= q ==> (q in a <==> q in b)
    requires forall q :: m <= q && q in b ==> a[q] == b[q]
    ensures Taken(a, {m}) == Taken(b, {m})
  {
    forall q ensures UnderAny({m}, q) <==> m <= q {
      UnderOneMore({}, m, q);
    }
  }

  lemma NothingElseUnder(orig: Tree, extra: Tree, items: set<Path>, out: set<Path>, held: Tree, m: Path, q: Path)
    requires AreItems(orig, items) && StaysBehind(orig, extra, items) && out <= items
    requires Holds(held, orig, extra, items, out) && m in items && m <= q
    ensures q in held <==> q in orig && UnderAny(out, q)
  {
    if q in extra {
      BehindIsNotUnder(items, extra, q);
    }
    if AboveAny(items, q) {
      AboveIsNotUnder(items, q);
    }
    assert UnderAny(items, q);
  }

  lemma LeafInTransit(orig: Tree, extra: Tree, items: set<Path>, out: set<Path>, d: Disk, q: Path)
    requires InTransit(orig, extra, items, out, d)
    ensures q in orig && orig[q].Leaf? ==>
              && ((q in d.imp && d.imp[q] == orig[q]) || (q in Held(d) && Held(d)[q] == orig[q]))
              && (q !in extra ==> (q in d.imp <==> q !in Held(d)))
    ensures q in extra ==> q in Held(d) && Held(d)[q] == extra[q]
    ensures q in Held(d) && Held(d)[q].Leaf? ==> q in orig || q in extra
  {
    if q in orig && AboveAny(items, q) {
      WaysAreFolders(orig, items, q);
    }
  }

  /** Every set-aside item is in exactly one of the two places, and no file is lost, changed or doubled,
      of Import/ as it was or of what the stash already held. */
  lemma NothingIsLostInTransit(orig: Tree, extra: Tree, items: set<Path>, d: Disk)
    requires Recoverable(orig, extra, items, d)
    ensures forall m :: m in items ==> (m in d.imp <==> m !in Held(d))
    ensures forall q :: q in orig && orig[q].Leaf? ==>
              && ((q in d.imp && d.imp[q] == orig[q]) || (q in Held(d) && Held(d)[q] == orig[q]))
              && (q !in extra ==> (q in d.imp <==> q !in Held(d)))
    ensures forall q :: q in extra && extra[q].Leaf? ==> q in Held(d) && Held(d)[q] == extra[q]
    ensures forall q :: q in d.imp && d.imp[q].Leaf? ==> q in orig
    ensures forall q :: q in Held(d) && Held(d)[q].Leaf? ==> q in orig || q in extra
  {
    var w: Tree, x: Tree, out: set<Path> :| Thinner(w, orig) && Thinner(x, extra) && InTransit(w, x, items, out, d);
    forall m | m in items ensures m in d.imp <==> m !in Held(d) {
      HeldItem(w, x, items, out, d, m);
    }
    forall q
      ensures q in w && w[q].Leaf? ==>
                && ((q in d.imp && d.imp[q] == w[q]) || (q in Held(d) && Held(d)[q] == w[q]))
                && (q !in x ==> (q in d.imp <==> q !in Held(d)))
      ensures q in x ==> q in Held(d) && Held(d)[q] == x[q]
      ensures q in Held(d) && Held(d)[q].Leaf? ==> q in w || q in x
    {
      LeafInTransit(w, x, items, out, d, q);
    }
  }

  // -------------------------------------------------------------------- single operations

  /** makedirs on the way to `m` inside the stash. */
  function MadeWay(d: Disk, m: Path): Disk {
    d.(stash := Some(Held(d) + Scaffold(m)))
  }

  /** shutil.move puts what is moved onto an existing folder into it. */
  function Landing(held: Tree, m: Path): Path {
    if m != [] && m in held && held[m].Folder? then m + [m[|m| - 1]] else m
  }

  /** What is at or below `m`, as it is called when `m` has become `n`. */
  function Rehung(t: Tree, m: Path, n: Path): Tree {
    map r | r in (set q | q in t && m <= q :: n + q[|m|..]) && m + r[|n|..] in t :: t[m + r[|n|..]]
  }

  /** The move of Import/m to stash/m. */
  function MovedOut(d: Disk, m: Path): Disk {
    Disk(Left(d.imp, {m}), Some(Held(d) + Rehung(d.imp, m, Landing(Held(d), m))))
  }

  /** The move to stash/m is refused: a file is in the way of the folders above, the folder it lands in
      has something of that name, or a folder would replace a file. */
  predicate Refused(d: Disk, m: Path) {
    || (exists q :: q in Scaffold(m) && q in Held(d) && Held(d)[q].Leaf?)
    || (Landing(Held(d), m) != m && Landing(Held(d), m) in Held(d))
    || (m in Held(d) && Held(d)[m].Leaf? && m in d.imp && d.imp[m].Folder?)
  }

  /** A move is refused when a file stands where a folder on its way has to be, when the folder it would land in
      has something of its name, and when a folder would take the place of a file; and in no other case. */
  lemma RefusedExactly(d: Disk, m: Path)
    requires m != []
    ensures Refused(d, m) <==>
              || (exists k :: 0 < k < |m| && m[..k] in Held(d) && Held(d)[m[..k]].Leaf?)
              || (m in Held(d) && Held(d)[m].Folder? && m + [m[|m| - 1]] in Held(d))
              || (m in Held(d) && Held(d)[m].Leaf? && m in d.imp && d.imp[m].Folder?)
  {
    forall q ensures q in Scaffold(m) <==> exists k :: 0 < k < |m| && q == m[..k] {
    }
  }

  /** A move takes everything at or below the item, in order, into the folder of its name if there is one, and in
      place of a file otherwise. */
  lemma MoveMeans(d: Disk, m: Path, p: Path)
    requires m != [] && p in d.imp && m <= p
    ensures var after := MovedOut(d, m); var inside := m in Held(d) && Held(d)[m].Folder?;
            var n := if inside then m + [m[|m| - 1]] else m;
            && p !in after.imp && n + p[|m|..] in Held(after) && Held(after)[n + p[|m|..]] == d.imp[p]
  {
    UnderOneMore({}, m, p);
    var n := Landing(Held(d), m);
    var r := n + p[|m|..];
    assert r[|n|..] == p[|m|..] && m + r[|n|..] == p;
    assert r in Rehung(d.imp, m, n);
  }

  lemma RehungInPlace(t: Tree, m: Path)
    ensures Rehung(t, m, m) == Taken(t, {m})
  {
    forall q ensures UnderAny({m}, q) <==> m <= q {
      UnderOneMore({}, m, q);
    }
    forall q: Path | m <= q ensures m + q[|m|..] == q {
    }
  }

  /** The missing folders on the way to `m` inside Import/, then the rename back. */
  function MovedBack(d: Disk, m: Path): Disk {
    Disk(d.imp + Scaffold(m) + Taken(Held(d), {m}), Some(Left(Held(d), {m})))
  }

  /** A folder without anything in it. */
  predicate Hollow(t: Tree, q: Path) {
    q in t && t[q].Folder? && forall r :: r in t ==> !(q < r)
  }

  lemma ScaffoldIsClear(items: set<Path>, out: set<Path>, m: Path, q: Path)
    requires Apart(items) && out <= items && m in items && q in Scaffold(m)
    ensures AboveAny(items, q) && !UnderAny(out, q)
  {
    ScaffoldIs(m, q);
    AboveIsNotUnder(items, q);
    if UnderAny(out, q) {
      UnderFewer(items, out, q);
    }
  }

  lemma WellFormedWithWay(t: Tree, m: Path)
    requires WellFormed(t) && forall q :: q in Scaffold(m) && q in t ==> t[q].Folder?
    ensures WellFormed(t + Scaffold(m))
  {
    forall p, k | p in t + Scaffold(m) && 0 < k < |p|
      ensures p[..k] in t + Scaffold(m) && (t + Scaffold(m))[p[..k]].Folder?
    {
      if p in Scaffold(m) {
        ScaffoldIs(m, p);
        ScaffoldIs(m, p[..k]);
      }
    }
    forall p | p in Scaffold(m) ensures |p| > 0 {
      ScaffoldIs(m, p);
    }
  }

  lemma NothingInTheWay(orig: Tree, extra: Tree, items: set<Path>, out: set<Path>, d: Disk, m: Path)
    requires InTransit(orig, extra, items, out, d) && m in items && m !in out
    ensures !Refused(d, m)
  {
    HeldItem(orig, extra, items, out, d, m);
    forall q | q in Scaffold(m) && q in Held(d) ensures Held(d)[q].Folder? {
      ScaffoldIsClear(items, out, m, q);
    }
  }

  lemma MakingWayKeepsTransit(orig: Tree, extra: Tree, items: set<Path>, out: set<Path>, d: Disk, m: Path)
    requires InTransit(orig, extra, items, out, d) && m in items
    ensures InTransit(orig, extra, items, out, MadeWay(d, m))
    ensures forall q :: q in Scaffold(m) ==> q in Held(MadeWay(d, m)) && Held(MadeWay(d, m))[q].Folder?
  {
    forall q | q in Scaffold(m) ensures AboveAny(items, q) && !UnderAny(out, q)
        && (q in Held(d) ==> Held(d)[q].Folder?) {
      ScaffoldIsClear(items, out, m, q);
    }
    WellFormedWithWay(Held(d), m);
  }

  lemma WellFormedWithItem(t: Tree, held: Tree, m: Path)
    requires WellFormed(t) && WellFormed(held) && m in t
    requires forall q :: q in Scaffold(m) ==> q in held && held[q].Folder?
    requires forall q :: q in held ==> !(m <= q)
    ensures WellFormed(held + Taken(t, {m}))
  {
    var all := held + Taken(t, {m});
    forall q ensures UnderAny({m}, q) <==> m <= q {
      UnderOneMore({}, m, q);
    }
    forall p, k | p in all && 0 < k < |p| ensures p[..k] in all && all[p[..k]].Folder? {
      if m <= p && k < |m| {
        assert p[..k] == m[..k];
        ScaffoldIs(m, p[..k]);
      }
    }
  }

  lemma MovingOutKeepsTransit(orig: Tree, extra: Tree, items: set<Path>, out: set<Path>, d: Disk, m: Path)
    requires InTransit(orig, extra, items, out, d) && m in items && m !in out
    requires forall q :: q in Scaffold(m) ==> q in Held(d) && Held(d)[q].Folder?
    ensures InTransit(orig, extra, items, out + {m}, MovedOut(d, m))
  {
    HeldItem(orig, extra, items, out, d, m);
    RehungInPlace(d.imp, m);
    forall q | m <= q ensures q !in Held(d) {
      NothingElseUnder(orig, extra, items, out, Held(d), m, q);
      if UnderAny(out, q) {
        NotUnderAnother(items, out, m, q);
      }
    }
    LeftIsWellFormed(orig, out);
    WellFormedWithItem(d.imp, Held(d), m);
    TakeOneMore(orig, out, m);
    HoldsOneMore(orig, extra, items, out, Held(d), m);
  }

  lemma NotUnderAnother(items: set<Path>, out: set<Path>, m: Path, q: Path)
    requires Apart(items) && out <= items && m in items && m !in out && m <= q
    ensures !UnderAny(out, q)
  {
    if n :| n in out && n <= q {
      OnlyUnderItself(items, m, n, q);
    }
  }

  lemma HoldsOneMore(orig: Tree, extra: Tree, items: set<Path>, out: set<Path>, held: Tree, m: Path)
    requires Holds(held, orig, extra, items, out) && WellFormed(held + Taken(Left(orig, out), {m}))
    requires forall q :: q in held ==> !(m <= q)
    ensures Holds(held + Taken(Left(orig, out), {m}), orig, extra, items, out + {m})
  {
    forall q
      ensures UnderAny(out + {m}, q) <==> UnderAny(out, q) || m <= q
      ensures UnderAny({m}, q) <==> m <= q
    {
      UnderOneMore(out, m, q);
    }
  }

  lemma OnlyUnderItself(items: set<Path>, m: Path, n: Path, q: Path)
    requires Apart(items) && m in items && n in items && m <= q && n <= q
    ensures m == n
  {
    PrefixesCompare(m, n, q);
  }

  /** What is below `m` is below no other item. */
  lemma UnderOneLess(items: set<Path>, out: set<Path>, m: Path, q: Path)
    requires Apart(items) && out <= items && m in out
    ensures UnderAny(out - {m}, q) <==> UnderAny(out, q) && !(m <= q)
  {
    assert out - {m} + {m} == out;
    UnderOneMore(out - {m}, m, q);
    if m <= q && UnderAny(out - {m}, q) {
      var n :| n in out - {m} && n <= q;
      OnlyUnderItself(items, m, n, q);
    }
  }

  /** The folders on the way to an item never left Import/. */
  lemma WayIsThere(orig: Tree, items: set<Path>, out: set<Path>, m: Path)
    requires WellFormed(orig) && Apart(items) && out <= items && m in items && forall n :: n in items ==> n in orig
    ensures Left(orig, out) + Scaffold(m) == Left(orig, out)
  {
    forall q | q in Scaffold(m) ensures q in orig && orig[q].Folder? && !UnderAny(out, q) {
      ScaffoldIsClear(items, out, m, q);
      WaysAreFolders(orig, items, q);
    }
  }

  lemma LeftAndOneTaken(orig: Tree, items: set<Path>, out: set<Path>, m: Path)
    requires Apart(items) && out <= items && m in out
    ensures Left(orig, out) + Taken(orig, {m}) == Left(orig, out - {m})
  {
    forall q
      ensures UnderAny(out - {m}, q) <==> UnderAny(out, q) && !(m <= q)
      ensures UnderAny({m}, q) <==> m <= q
      ensures m <= q ==> UnderAny(out, q)
    {
      UnderOneLess(items, out, m, q);
      UnderOneMore({}, m, q);
    }
  }

  lemma HoldsOneLess(orig: Tree, extra: Tree, items: set<Path>, out: set<Path>, held: Tree, m: Path)
    requires AreItems(orig, items) && StaysBehind(orig, extra, items) && out <= items && m in out
    requires Holds(held, orig, extra, items, out)
    ensures Holds(Left(held, {m}), orig, extra, items, out - {m})
  {
    LeftIsWellFormed(held, {m});
    forall q
      ensures UnderAny(out - {m}, q) <==> UnderAny(out, q) && !(m <= q)
      ensures UnderAny({m}, q) <==> m <= q
    {
      UnderOneLess(items, out, m, q);
      UnderOneMore({}, m, q);
    }
    forall q | q in extra ensures !(m <= q) {
      BehindIsNotUnder(items, extra, q);
    }
  }

  lemma MovingBackKeepsTransit(orig: Tree, extra: Tree, items: set<Path>, out: set<Path>, d: Disk, m: Path)
    requires InTransit(orig, extra, items, out, d) && m in out
    ensures InTransit(orig, extra, items, out - {m}, MovedBack(d, m))
    ensures d.imp + Scaffold(m) == d.imp
  {
    HeldItem(orig, extra, items, out, d, m);
    WayIsThere(orig, items, out, m);
    LeftAndOneTaken(orig, items, out, m);
    HoldsOneLess(orig, extra, items, out, Held(d), m);
  }

  // ------------------------------------------------------------------- dropping empty folders

  /** Dropping an empty folder of the stash: one left behind, one inside an item that is out, or one on
      the way to an item. The tree it is from is one folder thinner. */
  lemma DroppingKeepsTransit(orig: Tree, extra: Tree, items: set<Path>, out: set<Path>, d: Disk, q: Path)
    requires InTransit(orig, extra, items, out, d) && Hollow(Held(d), q) && forall m :: m in out ==> |m| > 1
    ensures InTransit(WithoutUnder(orig, out, q), extra - {q}, items, out, d.(stash := Some(Held(d) - {q})))
    ensures Thinner(WithoutUnder(orig, out, q), orig) && Thinner(extra - {q}, extra)
  {
    hide AreItems, StaysBehind, Holds, Thinner, Hollow, WithoutUnder;
    ThinnerItems(orig, extra, items, out, Held(d), q);
    ThinnerBehind(orig, extra, items, out, Held(d), q);
    HoldsAfterDropping(Held(d), orig, extra, items, out, q);
    LeftAfterDropping(orig, out, q);
  }

  function WithoutUnder(t: Tree, out: set<Path>, q: Path): Tree {
    if UnderAny(out, q) then t - {q} else t
  }

  lemma LeftAfterDropping(orig: Tree, out: set<Path>, q: Path)
    ensures Left(WithoutUnder(orig, out, q), out) == Left(orig, out)
  {
  }

  lemma HoldsAfterDropping(held: Tree, orig: Tree, extra: Tree, items: set<Path>, out: set<Path>, q: Path)
    requires Holds(held, orig, extra, items, out) && Hollow(held, q)
    ensures Holds(held - {q}, WithoutUnder(orig, out, q), extra - {q}, items, out)
  {
    hide UnderAny, AboveAny;
  }

  lemma ThinnerBehind(orig: Tree, extra: Tree, items: set<Path>, out: set<Path>, held: Tree, q: Path)
    requires StaysBehind(orig, extra, items) && Holds(held, orig, extra, items, out) && Hollow(held, q)
    requires forall m :: m in out ==> |m| > 1
    ensures StaysBehind(WithoutUnder(orig, out, q), extra - {q}, items) && Thinner(extra - {q}, extra)
  {
    forall m | m in out ensures forall a: string :: !(m <= [a]) {
    }
  }

  lemma NoItemIsHollow(orig: Tree, items: set<Path>, q: Path)
    requires AreItems(orig, items) && |q| > 1 && forall r :: r in orig ==> !(q < r)
    ensures q !in items
  {
    forall n | n in items && |n| > 1 ensures n != q {
      assert HoldsFile(orig, n);
    }
  }

  lemma ThinnerItems(orig: Tree, extra: Tree, items: set<Path>, out: set<Path>, held: Tree, q: Path)
    requires AreItems(orig, items) && StaysBehind(orig, extra, items) && out <= items
    requires Holds(held, orig, extra, items, out) && Hollow(held, q) && forall m :: m in out ==> |m| > 1
    ensures AreItems(WithoutUnder(orig, out, q), items) && Thinner(WithoutUnder(orig, out, q), orig)
  {
    hide Holds, StaysBehind, Hollow, AreItems;
    if UnderAny(out, q) {
      HollowInside(orig, extra, items, out, held, q);
      NoItemIsHollow(orig, items, q);
      ItemsOfThinner(orig, items, q);
    }
  }

  lemma ItemsOfThinner(orig: Tree, items: set<Path>, q: Path)
    requires AreItems(orig, items) && q !in items && q in orig && orig[q].Folder? && forall r :: r in orig ==> !(q < r)
    ensures AreItems(orig - {q}, items)
  {
    hide HoldsFile;
    forall n | n in items && |n| > 1 ensures HoldsFile(orig - {q}, n) {
      FileStays(orig, n, q);
    }
    assert WellFormed(orig - {q});
  }

  lemma FileStays(t: Tree, n: Path, q: Path)
    requires HoldsFile(t, n) && (q in t ==> t[q].Folder?)
    ensures HoldsFile(t - {q}, n)
  {
    var f :| f in t && n < f && t[f].Leaf?;
    assert f in t - {q};
  }

  /** A folder of an item that is out is as empty in the stash as it was in Import/. */
  lemma HollowInside(orig: Tree, extra: Tree, items: set<Path>, out: set<Path>, held: Tree, q: Path)
    requires AreItems(orig, items) && StaysBehind(orig, extra, items) && out <= items
    requires Holds(held, orig, extra, items, out) && Hollow(held, q) && UnderAny(out, q)
    requires forall m :: m in out ==> |m| > 1
    ensures |q| > 1 && q in orig && orig[q].Folder? && forall r :: r in orig ==> !(q < r)
  {
    var m :| m in out && m <= q;
    NothingElseUnder(orig, extra, items, out, held, m, q);
    forall r | r in orig && q < r ensures r in held {
      assert m <= r && UnderAny(out, r);
    }
  }
}
