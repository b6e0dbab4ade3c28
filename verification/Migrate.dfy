/** migrate_scenarios: scenario yamls moved, once, from where older versions kept them. */
module Migrate {
  import opened Text

  /** A folder's files, by name. A folder that is not there has none. */
  type Files = map<string, string>

  predicate IsYaml(name: string) {
    EndsWith(ToLower(name), ".yaml") || EndsWith(ToLower(name), ".yml")
  }

  /** The index of the last dot; the length when there is none. */
  function LastDot(s: string): (n: nat)
    ensures n <= |s| && (n < |s| ==> s[n] == '.')
    ensures forall i :: n < i < |s| ==> s[i] != '.'
    ensures n == |s| ==> forall i :: 0 <= i < |s| ==> s[i] != '.'
  {
    if s == "" then 0
    else if s[|s| - 1] == '.' then |s| - 1
    else
      var n := LastDot(s[..|s| - 1]);
      if n == |s| - 1 then |s| else n
  }

  /** os.path.splitext: at the last dot, unless only dots come before it. */
  function SplitExt(name: string): (string, string) {
    var n := LastDot(name);
    if n < |name| && exists i :: 0 <= i < n && name[i] != '.' then (name[..n], name[n..]) else (name, "")
  }

  function Target(mapName: string, name: string): string {
    var (stem, ext) := SplitExt(name);
    if stem == "config" then mapName + ext else mapName + "_" + name
  }

  /** Two names and what becomes of them, written out. */
  lemma TargetsAre()
    ensures Target("m", "config.yaml") == "m.yaml" && Target("m", "x.yaml") == "m_x.yaml"
  {
    hide SplitExt;
    SplitAt("config", ".yaml");
    SplitAt("x", ".yaml");
    assert "config" + ".yaml" == "config.yaml" && "x" + ".yaml" == "x.yaml";
    assert "m" + ".yaml" == "m.yaml" && "m" + "_" + "x.yaml" == "m_x.yaml";
  }

  /** The stem is what is before the last dot, if that is more than dots. */
  lemma SplitAt(stem: string, ext: string)
    requires stem != "" && stem[0] != '.' && ext != "" && ext[0] == '.' && '.' !in ext[1..]
    ensures SplitExt(stem + ext) == (stem, ext)
    ensures '.' !in stem ==> SplitExt(stem) == (stem, "")
    ensures SplitExt(ext) == (ext, "")
  {
    var name := stem + ext;
    assert name[|stem|] == '.' && name[0] != '.';
    assert forall i :: |stem| < i < |name| ==> name[i] == ext[1..][i - |stem| - 1];
    assert LastDot(name) == |stem|;
    assert forall i :: 0 < i < |ext| ==> ext[i] == ext[1..][i - 1];
    assert LastDot(ext) == 0;
  }

  /** A yaml is called so in either case, and by its end. */
  lemma YamlsAre(stem: string)
    ensures IsYaml(stem + ".yaml") && IsYaml(stem + ".yml") && IsYaml(stem + ".YAML") && IsYaml(stem + ".YML")
    ensures !IsYaml(stem + ".json") && !IsYaml(stem + ".bak")
  {
    hide ToLower;
    EndsInLower(stem, ".yaml", ".yaml");
    EndsInLower(stem, ".yml", ".yml");
    EndsInLower(stem, ".YAML", ".yaml");
    EndsInLower(stem, ".YML", ".yml");
    LastLetter(stem + ".json", 'n');
    LastLetter(stem + ".bak", 'k');
  }

  lemma EndsInLower(stem: string, ext: string, low: string)
    requires |ext| == |low| && forall i :: 0 <= i < |ext| ==> LowerChar(ext[i]) == low[i]
    ensures EndsWith(ToLower(stem + ext), low)
  {
    assert ToLower(stem + ext)[|stem|..] == low;
  }

  lemma LastLetter(name: string, c: char)
    requires name != "" && name[|name| - 1] == c && 'a' <= c <= 'z' && c != 'l'
    ensures !IsYaml(name)
  {
    hide EndsWith, ToLower;
    var low := ToLower(name);
    assert low[|low| - 1] == LowerChar(name[|low| - 1]) == c;
    EndsDiffer(low, ".yaml");
    EndsDiffer(low, ".yml");
  }

  lemma EndsDiffer(s: string, suffix: string)
    requires s != "" && suffix != "" && s[|s| - 1] != suffix[|suffix| - 1]
    ensures !EndsWith(s, suffix)
  {
    var n := |suffix|;
    assert |s| >= n ==> s[|s| - n..][n - 1] == s[|s| - 1];
  }

  /** A yaml whose stem is "config" has an extension. */
  lemma ConfigHasExtension(name: string)
    requires IsYaml(name) && SplitExt(name).0 == "config"
    ensures name == "config" + SplitExt(name).1 && SplitExt(name).1 != "" && SplitExt(name).1[0] == '.'
  {
    if SplitExt(name).1 == "" {
      ConfigIsNoYaml();
    }
  }

  lemma ConfigIsNoYaml()
    ensures !IsYaml("config")
  {
    var low := ToLower("config");
    assert |low| == 6 && low[1] == 'o' && low[2] == 'n';
    assert low[|low| - 5..][0] == low[1] && low[|low| - 4..][0] == low[2];
  }

  /** Distinct yamls of one folder never claim the same target. */
  lemma TargetsAreDistinct(mapName: string, a: string, b: string)
    requires IsYaml(a) && IsYaml(b) && Target(mapName, a) == Target(mapName, b)
    ensures a == b
  {
    var n := |mapName|;
    if SplitExt(a).0 == "config" {
      ConfigHasExtension(a);
      assert Target(mapName, a)[n] == '.';
    }
    if SplitExt(b).0 == "config" {
      ConfigHasExtension(b);
      assert Target(mapName, b)[n] == '.';
    }
    if SplitExt(a).0 != "config" {
      assert Target(mapName, a)[n] == '_' && Target(mapName, a)[n + 1..] == a;
    }
    if SplitExt(b).0 != "config" {
      assert Target(mapName, b)[n] == '_' && Target(mapName, b)[n + 1..] == b;
    }
    assert SplitExt(a).0 == "config" ==> Target(mapName, a)[n..] == SplitExt(a).1;
    assert SplitExt(b).0 == "config" ==> Target(mapName, b)[n..] == SplitExt(b).1;
  }

  // ------------------------------------------------------------------- one source folder

  /** The names a pass over `src` moves: yamls whose target is free, and that the move succeeds for. */
  function Movable(mapName: string, dest: Files, src: Files, stuck: set<string>): set<string> {
    set name | name in src && IsYaml(name) && name !in stuck && Target(mapName, name) !in dest
  }

  /** A folder as pairs of name and content. */
  function Pairs(m: Files): set<(string, string)> {
    set k | k in m :: (k, m[k])
  }

  /** Files under their new names. */
  function Renamed(mapName: string, src: Files, names: set<string>): set<(string, string)> {
    set n | n in names && n in src :: (Target(mapName, n), src[n])
  }

  /** The files of `names`, and only they, have left the source and are in the destination, as
      `renamed`, under names that were free; the rest is as it was. */
  ghost predicate MovedOver(dest: Files, src: Files, names: set<string>, renamed: set<(string, string)>,
                        dest': Files, src': Files) {
    && names <= src.Keys && src' == src - names
    && Pairs(dest') == Pairs(dest) + renamed
    && |dest'| == |dest| + |names|
  }

  /** What a pass leaves. */
  ghost predicate Migrated(mapName: string, dest: Files, src: Files, names: set<string>, dest': Files, src': Files) {
    MovedOver(dest, src, names, Renamed(mapName, src, names), dest', src')
  }

  /** A pass in progress: of the names `seen`, exactly the movable ones have been moved. */
  ghost predicate SoFar(mapName: string, dest: Files, src: Files, stuck: set<string>, seen: seq<string>,
                        done: set<string>, dest': Files, src': Files, moved: seq<string>) {
    && IsSorted(moved) && (forall name :: name in moved <==> name in done)
    && (forall name :: name in done <==> name in seen && name in Movable(mapName, dest, src, stuck))
    && Migrated(mapName, dest, src, done, dest', src')
  }

  method MigrateFrom(mapName: string, dest: Files, src: Files, stuck: set<string>)
    returns (dest': Files, src': Files, moved: seq<string>)
    ensures Migrated(mapName, dest, src, Movable(mapName, dest, src, stuck), dest', src')
    ensures IsSorted(moved) && forall name :: name in moved <==> name in Movable(mapName, dest, src, stuck)
    ensures forall name :: name in src ==>
              (name in src' <==> !IsYaml(name) || name in stuck || Target(mapName, name) in dest)
  {
    hide Migrated, Target, IsYaml, SoFar;
    var names := SortedNames(set f | f in src && IsYaml(f));
    dest', src', moved := dest, src, [];
    ghost var done: set<string> := {};
    NothingMoved(mapName, dest, src, stuck);
    for k := 0 to |names|
      invariant SoFar(mapName, dest, src, stuck, names[..k], done, dest', src', moved)
    {
      var name := names[k];
      assert names[..k + 1] == names[..k] + [name] && name in names;
      TakenBefore(mapName, dest, src, stuck, names, k, done, dest', src', moved);
      var target := Target(mapName, name);
      if target in dest' || name in stuck {
        Skipped(mapName, dest, src, stuck, names[..k], name, done, dest', src', moved);
        continue;
      }
      MovedNext(mapName, dest, src, stuck, names, k, done, dest', src', moved);
      dest', src', moved := dest'[target := src[name]], src' - {name}, moved + [name];
      done := done + {name};
    }
    assert names[..|names|] == names;
    AllSeen(mapName, dest, src, stuck, names, done, dest', src', moved);
  }

  lemma NothingMoved(mapName: string, dest: Files, src: Files, stuck: set<string>)
    ensures SoFar(mapName, dest, src, stuck, [], {}, dest, src, [])
  {
    assert src - {} == src;
    assert Renamed(mapName, src, {}) == {};
  }

  lemma Skipped(mapName: string, dest: Files, src: Files, stuck: set<string>, seen: seq<string>, name: string,
                done: set<string>, dest': Files, src': Files, moved: seq<string>)
    requires SoFar(mapName, dest, src, stuck, seen, done, dest', src', moved)
    requires name !in Movable(mapName, dest, src, stuck)
    ensures SoFar(mapName, dest, src, stuck, seen + [name], done, dest', src', moved)
  {
    hide Migrated;
  }

  lemma MovedNext(mapName: string, dest: Files, src: Files, stuck: set<string>, names: seq<string>, k: nat,
                  done: set<string>, dest': Files, src': Files, moved: seq<string>)
    requires IsSorted(names) && k < |names| && SoFar(mapName, dest, src, stuck, names[..k], done, dest', src', moved)
    requires names[k] in Movable(mapName, dest, src, stuck) && Target(mapName, names[k]) !in dest'
    ensures SoFar(mapName, dest, src, stuck, names[..k + 1], done + {names[k]},
                  dest'[Target(mapName, names[k]) := src[names[k]]], src' - {names[k]}, moved + [names[k]])
  {
    hide MovedOver, Renamed, Target, IsYaml;
    NextName(names, k);
    OneMoved(dest, src, done, Renamed(mapName, src, done), dest', src', names[k], Target(mapName, names[k]));
    RenamedOneMore(mapName, src, done, names[k]);
    SortedAppended(names, k, moved);
  }

  lemma AllSeen(mapName: string, dest: Files, src: Files, stuck: set<string>, names: seq<string>,
                done: set<string>, dest': Files, src': Files, moved: seq<string>)
    requires SoFar(mapName, dest, src, stuck, names, done, dest', src', moved)
    requires forall name :: name in names <==> name in src && IsYaml(name)
    ensures done == Movable(mapName, dest, src, stuck)
    ensures Migrated(mapName, dest, src, done, dest', src')
    ensures IsSorted(moved) && forall name :: name in moved <==> name in done
    ensures forall name :: name in src ==>
              (name in src' <==> !IsYaml(name) || name in stuck || Target(mapName, name) in dest)
  {
    hide IsYaml, Target, Renamed, Pairs;
  }

  lemma NextName(names: seq<string>, k: nat)
    requires IsSorted(names) && k < |names|
    ensures names[..k + 1] == names[..k] + [names[k]] && names[k] in names && names[k] !in names[..k]
  {
  }

  lemma SortedAppended(names: seq<string>, k: nat, moved: seq<string>)
    requires IsSorted(names) && k < |names| && IsSorted(moved) && forall n :: n in moved ==> n in names[..k]
    ensures IsSorted(moved + [names[k]])
  {
    forall i | 0 <= i < |moved| ensures LexLeq(moved[i], names[k]) && moved[i] != names[k] {
      assert moved[i] in moved;
      var j :| 0 <= j < k && names[j] == moved[i];
    }
  }

  lemma HasItem(m: Files, k: string)
    ensures k in m <==> exists v :: (k, v) in Pairs(m)
  {
    if k in m {
      assert (k, m[k]) in Pairs(m);
    }
  }

  lemma TargetStillFree(mapName: string, dest: Files, src: Files, names: set<string>, dest': Files,
                        src': Files, name: string)
    requires Migrated(mapName, dest, src, names, dest', src') && forall n :: n in names ==> IsYaml(n)
    requires IsYaml(name) && name !in names
    ensures Target(mapName, name) in dest' <==> Target(mapName, name) in dest
  {
    var t := Target(mapName, name);
    HasItem(dest, t);
    HasItem(dest', t);
    if v :| (t, v) in Renamed(mapName, src, names) {
      var n :| n in names && n in src && (t, v) == (Target(mapName, n), src[n]);
      TargetsAreDistinct(mapName, name, n);
    }
  }

  /** A target found taken was taken before this folder's turn. */
  lemma TakenBefore(mapName: string, dest: Files, src: Files, stuck: set<string>, names: seq<string>, k: nat,
                    done: set<string>, dest': Files, src': Files, moved: seq<string>)
    requires IsSorted(names) && k < |names| && SoFar(mapName, dest, src, stuck, names[..k], done, dest', src', moved)
    requires IsYaml(names[k])
    ensures Target(mapName, names[k]) in dest' <==> Target(mapName, names[k]) in dest
  {
    hide Migrated, IsYaml, Target;
    NextName(names, k);
    TargetStillFree(mapName, dest, src, done, dest', src', names[k]);
  }

  lemma OneMoved(dest: Files, src: Files, names: set<string>, renamed: set<(string, string)>, dest': Files, src': Files,
                 name: string, t: string)
    requires MovedOver(dest, src, names, renamed, dest', src')
    requires name in src && name !in names && t !in dest'
    ensures MovedOver(dest, src, names + {name}, renamed + {(t, src[name])}, dest'[t := src[name]], src' - {name})
  {
    TakeOne(src, names, name);
    PairsOneMore(dest', t, src[name]);
  }

  lemma TakeOne(src: Files, names: set<string>, name: string)
    ensures src - names - {name} == src - (names + {name})
  {
  }

  lemma RenamedOneMore(mapName: string, src: Files, names: set<string>, name: string)
    requires name in src
    ensures Renamed(mapName, src, names + {name}) == Renamed(mapName, src, names) + {(Target(mapName, name), src[name])}
  {
  }

  lemma PairsOneMore(m: Files, k: string, v: string)
    requires k !in m
    ensures Pairs(m[k := v]) == Pairs(m) + {(k, v)} && |m[k := v]| == |m| + 1
  {
    assert m[k := v].Keys == m.Keys + {k};
    assert |m[k := v].Keys| == |m.Keys| + 1;
  }

  // ---------------------------------------------------------------------- both folders

  datatype Places = Places(dest: Files, legacy: Files, nested: Files)

  /** `name` is still in its folder, or moved, unchanged, to its target, which was free; never both. */
  ghost predicate Kept(mapName: string, src: Files, src': Files, dest: Files, dest': Files, name: string)
    requires name in src
  {
    var t := Target(mapName, name);
    if name in src' then src'[name] == src[name]
    else IsYaml(name) && t !in dest && t in dest' && dest'[t] == src[name]
  }

  /** Everything is conserved: the destination keeps what it had, and each file of either source is
      where it was or, unchanged, at its target. */
  ghost predicate Conserved(mapName: string, f: Places, f': Places) {
    && (forall t :: t in f.dest ==> t in f'.dest && f'.dest[t] == f.dest[t])
    && (forall n :: n in f.legacy ==> Kept(mapName, f.legacy, f'.legacy, f.dest, f'.dest, n))
    && (forall n :: n in f.nested ==> Kept(mapName, f.nested, f'.nested, f.dest, f'.dest, n))
    && f'.legacy.Keys <= f.legacy.Keys && f'.nested.Keys <= f.nested.Keys
    && |f'.dest| + |f'.legacy| + |f'.nested| == |f.dest| + |f.legacy| + |f.nested|
  }

  /** Nothing is left that another run could move. */
  ghost predicate Settled(mapName: string, f: Places) {
    Movable(mapName, f.dest, f.legacy, {}) == {} && Movable(mapName, f.dest, f.nested, {}) == {}
  }

  method MigrateScenarios(mapName: string, f: Places, stuckLegacy: set<string>, stuckNested: set<string>)
    returns (f': Places, moved: seq<string>)
    ensures Conserved(mapName, f, f')
    ensures moved == [] <==> f' == f
    ensures forall n :: n in f.legacy ==>
              (n in f'.legacy <==> !IsYaml(n) || n in stuckLegacy || Target(mapName, n) in f.dest)
    ensures forall n :: n in f.nested ==>
              (n in f'.nested <==>
                 || !IsYaml(n) || n in stuckNested || Target(mapName, n) in f.dest
                 || (n in f.legacy && n !in f'.legacy))
    ensures stuckLegacy == stuckNested == {} ==> Settled(mapName, f')
    ensures Settled(mapName, f) ==> f' == f
  {
    var dest1, legacy, moved1 := MigrateFrom(mapName, f.dest, f.legacy, stuckLegacy);
    var dest2, nested, moved2 := MigrateFrom(mapName, dest1, f.nested, stuckNested);
    f', moved := Places(dest2, legacy, nested), moved1 + moved2;
    TakenByTheOther(mapName, f.dest, f.legacy, stuckLegacy, dest1, legacy);
    BothConserved(mapName, f, dest1, legacy, dest2, nested, stuckLegacy, stuckNested);
    MovedNothing(mapName, f.dest, f.legacy, stuckLegacy, dest1, legacy, moved1);
    MovedNothing(mapName, dest1, f.nested, stuckNested, dest2, nested, moved2);
  }

  /** After one pass a name of the other folder is taken if it was, or if the pass moved a file so called. */
  lemma TakenByTheOther(mapName: string, dest: Files, src: Files, stuck: set<string>, dest1: Files, src': Files)
    requires Migrated(mapName, dest, src, Movable(mapName, dest, src, stuck), dest1, src')
    ensures forall n :: IsYaml(n) ==>
              (Target(mapName, n) in dest1 <==> Target(mapName, n) in dest || (n in src && n !in src'))
  {
    hide Target, IsYaml;
    var names := Movable(mapName, dest, src, stuck);
    forall n | IsYaml(n)
      ensures Target(mapName, n) in dest1 <==> Target(mapName, n) in dest || (n in src && n !in src')
    {
      if n in names {
        assert (Target(mapName, n), src[n]) in Renamed(mapName, src, names);
        HasItem(dest1, Target(mapName, n));
      } else {
        TargetStillFree(mapName, dest, src, names, dest1, src', n);
      }
    }
  }

  lemma PairsDecide(a: Files, b: Files)
    requires Pairs(a) <= Pairs(b)
    ensures forall t :: t in a ==> t in b && b[t] == a[t]
  {
    forall t | t in a ensures t in b && b[t] == a[t] {
      assert (t, a[t]) in Pairs(b);
    }
  }

  lemma SamePairsSameFiles(a: Files, b: Files)
    requires Pairs(a) == Pairs(b)
    ensures a == b
  {
    PairsDecide(a, b);
    PairsDecide(b, a);
  }

  lemma CountLeft(src: Files, names: set<string>)
    requires names <= src.Keys
    ensures |src - names| == |src| - |names|
  {
    assert (src - names).Keys == src.Keys - names;
  }

  /** What one pass means for each file of its folder, in any destination that keeps the result. */
  lemma PassKeeps(mapName: string, dest: Files, src: Files, stuck: set<string>, dest1: Files, src': Files, dest2: Files)
    requires Migrated(mapName, dest, src, Movable(mapName, dest, src, stuck), dest1, src')
        && Pairs(dest1) <= Pairs(dest2)
    ensures forall n :: n in src ==> Kept(mapName, src, src', dest, dest2, n)
    ensures |dest1| + |src'| == |dest| + |src| && src'.Keys <= src.Keys
  {
    CountLeft(src, Movable(mapName, dest, src, stuck));
    PairsDecide(dest1, dest2);
    forall n | n in src ensures Kept(mapName, src, src', dest, dest2, n) {
      if n !in src' {
        assert (Target(mapName, n), src[n]) in Pairs(dest1);
      }
    }
  }

  lemma BothConserved(mapName: string, f: Places, dest1: Files, legacy: Files, dest2: Files, nested: Files,
                      s1: set<string>, s2: set<string>)
    requires Migrated(mapName, f.dest, f.legacy, Movable(mapName, f.dest, f.legacy, s1), dest1, legacy)
    requires Migrated(mapName, dest1, f.nested, Movable(mapName, dest1, f.nested, s2), dest2, nested)
    ensures Conserved(mapName, f, Places(dest2, legacy, nested))
    ensures s1 == s2 == {} ==> Settled(mapName, Places(dest2, legacy, nested))
  {
    PassKeeps(mapName, f.dest, f.legacy, s1, dest1, legacy, dest2);
    PassKeeps(mapName, dest1, f.nested, s2, dest2, nested, dest2);
    PairsDecide(f.dest, dest1);
    PairsDecide(dest1, dest2);
    forall n | n in f.nested ensures Kept(mapName, f.nested, nested, f.dest, dest2, n) {
      assert Kept(mapName, f.nested, nested, dest1, dest2, n);
    }
    if s1 == s2 == {} {
      PassSettles(mapName, f.dest, f.legacy, dest1, legacy, dest2);
      PassSettles(mapName, dest1, f.nested, dest2, nested, dest2);
    }
  }

  lemma PassSettles(mapName: string, dest: Files, src: Files, dest1: Files, src': Files, dest2: Files)
    requires Migrated(mapName, dest, src, Movable(mapName, dest, src, {}), dest1, src') && Pairs(dest1) <= Pairs(dest2)
    ensures Movable(mapName, dest2, src', {}) == {}
  {
    PairsDecide(dest, dest1);
    PairsDecide(dest1, dest2);
  }

  lemma MovedNothing(mapName: string, dest: Files, src: Files, stuck: set<string>, dest': Files, src': Files,
                     moved: seq<string>)
    requires Migrated(mapName, dest, src, Movable(mapName, dest, src, stuck), dest', src')
    requires forall name :: name in moved <==> name in Movable(mapName, dest, src, stuck)
    ensures moved == [] <==> src' == src
    ensures moved == [] ==> dest' == dest
    ensures Movable(mapName, dest, src, {}) == {} ==> moved == []
  {
    assert moved != [] ==> moved[0] in Movable(mapName, dest, src, stuck) && moved[0] !in src';
    assert Movable(mapName, dest, src, stuck) <= Movable(mapName, dest, src, {});
    if moved == [] {
      assert Movable(mapName, dest, src, stuck) == {};
      assert Renamed(mapName, src, {}) == {};
      SamePairsSameFiles(dest', dest);
    }
  }
}
