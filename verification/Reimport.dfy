/** ensure_map: a working map is moved aside, cooked afresh, and put back when the cook fails. The
    process may be killed between any two file operations, any number of times. */
module Reimport {
  import opened Common
  import opened Text

  type Path = string
  type Content = string

  /** A folder: its files, by path below it. */
  type Tree = map<Path, Content>

  /** Where the cook leaves the map, below the content folder, and where the digest is noted. */
  const UMAP: Path := "Maps/name/name.umap"
  const SHA_NOTE: Path := ".source_sha"

  predicate HasUmap(folder: Option<Tree>) {
    folder.Some? && UMAP in folder.value
  }

  // -------------------------------------------------------------- one file operation at a time

  datatype Pc =
    | Idle                        // no ensure_map is running
    | Staging                     // stage_package: touches neither folder
    | ClearBackup                 // rmtree(backup) of a re-import
    | MoveAside                   // rename(content, backup)
    | Cook(attempt: nat)          // Import.py at work
    | Judge(attempt: nat, rc: int)
    | DropBackup                  // rmtree(backup) after a success
    | ClearContent                // rmtree(content) after a failure
    | PutBack                     // rename(backup, content)
    | Stamp

  /** The two folders and the process. History: what the content folder held when this run started,
      whether that was a working map, and what was last moved aside. */
  datatype State = State(content: Option<Tree>, backup: Option<Tree>, pc: Pc,
                         atStart: Option<Tree>, already: bool, saved: Option<Tree>)

  /** rmtree takes one file, or the folder once it is empty. */
  ghost predicate Deletes(folder: Option<Tree>, folder': Option<Tree>) {
    && folder.Some?
    && ((exists p :: p in folder.value && folder' == Some(folder.value - {p}))
        || (folder.value == map[] && folder' == None))
  }

  /** A folder can be renamed onto nothing, and on some systems onto an empty folder. */
  predicate CanBeRenamedOnto(folder: Option<Tree>) {
    folder.None? || folder.value == map[]
  }

  /** What follows a cook: one retry when it failed without leaving a map, then the backup. */
  function AfterCook(s: State, attempt: nat, rc: int): Pc {
    var ok := HasUmap(s.content);
    if attempt == 1 && rc != 0 && !ok then Cook(2)
    else if s.backup.Some? then if ok then DropBackup else ClearContent
    else if ok then Stamp else Idle
  }

  /** One file operation of ensure_map. rmtree(ignore_errors) may stop early and leave files behind. */
  ghost predicate Works(s: State, s': State) {
    match s.pc
    case Idle => s' == s.(pc := Staging, atStart := s.content, already := HasUmap(s.content))
    case Staging => s' == s.(pc := if s.already then ClearBackup else Cook(1))
    case ClearBackup =>
      (Deletes(s.backup, s'.backup) && s' == s.(backup := s'.backup)) || s' == s.(pc := MoveAside)
    case MoveAside =>
      && CanBeRenamedOnto(s.backup) && s.content.Some?
      && s' == s.(content := None, backup := s.content, saved := s.content, pc := Cook(1))
    case Cook(attempt) =>
      s' == s.(content := s'.content) || exists rc :: s' == s.(pc := Judge(attempt, rc))
    case Judge(attempt, rc) => s' == s.(pc := AfterCook(s, attempt, rc))
    case DropBackup =>
      (Deletes(s.backup, s'.backup) && s' == s.(backup := s'.backup)) || s' == s.(pc := Stamp)
    case ClearContent =>
      (Deletes(s.content, s'.content) && s' == s.(content := s'.content)) || s' == s.(pc := PutBack)
    case PutBack =>
      && CanBeRenamedOnto(s.content) && s.backup.Some?
      && s' == s.(content := s.backup, backup := None, pc := Idle)
    case Stamp =>
      && s.content.Some? && s'.content.Some? && SHA_NOTE in s'.content.value
      && s' == s.(content := Some(s.content.value[SHA_NOTE := s'.content.value[SHA_NOTE]]), pc := Idle)
  }

  /** Killed, or left by an exception or sys.exit: whatever is on the disk stays. */
  ghost predicate Ends(s: State, s': State) {
    s' == s.(pc := Idle)
  }

  ghost predicate Next(s: State, s': State) {
    Works(s, s') || Ends(s, s')
  }

  /** Any number of runs of ensure_map, any cook outcomes, a kill anywhere. */
  ghost predicate IsHistory(h: seq<State>) {
    |h| > 0 && forall k :: 0 < k < |h| ==> Next(h[k - 1], h[k])
  }

  /** The process may be killed at any moment; a cook may leave anything, and any exit code; a removal may stop
      before it is done. */
  lemma NothingIsRuledOut(s: State, content: Option<Tree>, rc: int)
    ensures Next(s, s.(pc := Idle))
    ensures s.pc.Cook? ==> Next(s, s.(content := content)) && Next(s, s.(pc := Judge(s.pc.attempt, rc)))
    ensures s.pc.ClearBackup? ==> Next(s, s.(pc := MoveAside))
    ensures s.pc.DropBackup? ==> Next(s, s.(pc := Stamp))
    ensures s.pc.ClearContent? ==> Next(s, s.(pc := PutBack))
  {
  }

  /** One retry, of a first cook that failed and left no map; then the old map goes when there is a new one, and
      comes back when there is none. */
  lemma WhatFollowsACook(s: State, rc: int)
    ensures AfterCook(s, 1, rc) == Cook(2) <==> rc != 0 && !HasUmap(s.content)
    ensures AfterCook(s, 2, rc) ==
            if HasUmap(s.content) then (if s.backup.Some? then DropBackup else Stamp)
            else if s.backup.Some? then ClearContent else Idle
    ensures rc == 0 || HasUmap(s.content) ==> AfterCook(s, 1, rc) == AfterCook(s, 2, rc)
  {
  }

  // -------------------------------------------------------------------- what is never lost

  /** The working map is in the content folder, or untouched in the backup exactly as it was moved
      aside. */
  ghost predicate Safe(s: State) {
    && (s.pc.Idle? || s.pc.Staging? ==> HasUmap(s.content) || (HasUmap(s.saved) && s.backup == s.saved))
    && (s.pc.Staging? ==> s.already == HasUmap(s.content) && s.atStart == s.content)
    && (s.pc.ClearBackup? || s.pc.MoveAside? ==> HasUmap(s.content) && s.atStart == s.content && s.already)
    && (s.pc.Cook? || s.pc.Judge? || s.pc.ClearContent? || s.pc.PutBack? ==>
          && HasUmap(s.saved) && s.backup == s.saved
          && (s.already ==> s.saved == s.atStart))
    && (s.pc.ClearContent? || s.pc.PutBack? ==> !HasUmap(s.content))
    && (s.pc.DropBackup? || s.pc.Stamp? ==> HasUmap(s.content))
  }

  lemma NextKeepsSafe(s: State, s': State)
    requires Safe(s) && Next(s, s')
    ensures Safe(s')
  {
  }

  lemma {:induction false} HistoryStaysSafe(h: seq<State>, k: nat)
    requires IsHistory(h) && k < |h| && h[0].pc == Idle && HasUmap(h[0].content)
    ensures Safe(h[k])
  {
    if k > 0 {
      HistoryStaysSafe(h, k - 1);
      NextKeepsSafe(h[k - 1], h[k]);
    }
  }

  /** Once there is a working map, the content folder or its backup holds one at every moment of every
      later history; and whenever the content folder does not, the backup is, byte for byte, the
      working content folder that was moved aside. */
  lemma AWorkingMapIsNeverLost(h: seq<State>, k: nat)
    requires IsHistory(h) && k < |h| && h[0].pc == Idle && HasUmap(h[0].content)
    ensures HasUmap(h[k].content) || HasUmap(h[k].backup)
    ensures !HasUmap(h[k].content) ==> h[k].backup == h[k].saved
  {
    HistoryStaysSafe(h, k);
  }

  /** `t` was, at some moment of the history so far, the content folder with a working map in it. */
  ghost predicate WasWorking(h: seq<State>, k: nat, t: Option<Tree>) {
    exists i: nat :: i <= k < |h| && h[i].content == t && HasUmap(t)
  }

  /** What would be put back is a working content folder of this very history. */
  lemma {:induction false} SavedWasWorking(h: seq<State>, k: nat)
    requires IsHistory(h) && k < |h| && h[0].pc == Idle && HasUmap(h[0].content)
    ensures !HasUmap(h[k].content) || h[k].pc.Cook? || h[k].pc.Judge? || h[k].pc.ClearContent? || h[k].pc.PutBack? ==>
              WasWorking(h, k, h[k].saved)
  {
    if k > 0 {
      SavedWasWorking(h, k - 1);
      HistoryStaysSafe(h, k - 1);
      var s, s' := h[k - 1], h[k];
      assert Next(s, s');
      if s.pc == MoveAside && s'.pc == Cook(1) {
        assert h[k - 1].content == s'.saved;
        assert WasWorking(h, k, s'.saved);
      } else if WasWorking(h, k - 1, s.saved) {
        var i: nat :| i <= k - 1 < |h| && h[i].content == s.saved && HasUmap(s.saved);
        assert WasWorking(h, k, s.saved);
      }
    }
  }

  /** A restore that finishes: a re-import leaves the content folder exactly as it found it, and a run
      that found no map, because an earlier one was killed, puts back a working content folder from
      before the kill. */
  lemma RestoreIsExact(h: seq<State>, k: nat)
    requires IsHistory(h) && 0 < k < |h| && h[0].pc == Idle && HasUmap(h[0].content)
    requires h[k - 1].pc == PutBack && Works(h[k - 1], h[k])
    ensures h[k].backup == None && HasUmap(h[k].content)
    ensures h[k].content == if h[k].already then h[k].atStart else h[k].saved
    ensures WasWorking(h, k, h[k].content)
  {
    HistoryStaysSafe(h, k - 1);
    SavedWasWorking(h, k - 1);
    var i: nat :| i <= k - 1 < |h| && h[i].content == h[k - 1].saved && HasUmap(h[k - 1].saved);
    assert h[i].content == h[k].content;
  }

  // ------------------------------------------------------------------ ensure_map itself

  /** How Import.py leaves the content folder, and its exit code. */
  datatype CookOutcome = CookOutcome(content: Option<Tree>, rc: int)

  /** The files the operating system would not let a removal take, and whether it refuses the note. */
  datatype Locks = Locks(oldBackup: set<Path>, spentBackup: set<Path>, failedCook: set<Path>, note: bool)

  datatype Result = Kept | Imported | Failed | Raised

  /** What rmtree(ignore_errors) leaves of a folder. */
  function Remaining(folder: Option<Tree>, locked: set<Path>): Option<Tree> {
    if folder.None? then None
    else
      var rest := map p | p in folder.value && p in locked :: folder.value[p];
      if rest == map[] then None else Some(rest)
  }

  /** What is left is what the system would not let go, as it was. */
  lemma RemainingHolds(folder: Option<Tree>, locked: set<Path>, p: Path)
    ensures var rest := Remaining(folder, locked);
            && (rest.Some? && p in rest.value <==> folder.Some? && p in folder.value && p in locked)
            && (rest.Some? && p in rest.value ==> rest.value[p] == folder.value[p])
            && (rest.Some? ==> rest.value != map[])
  {
    if folder.Some? && p in folder.value && p in locked {
      assert p in map q | q in folder.value && q in locked :: folder.value[q];
    }
  }

  /** The one file by which a map counts as imported. */
  lemma TheUmapDecides(files: Tree, content: Content)
    ensures HasUmap(Some(files["Maps/name/name.umap" := content]))
    ensures !HasUmap(None) && !HasUmap(Some(files - {"Maps/name/name.umap"}))
  {
    assert UMAP == "Maps/name/name.umap";
  }

  /** `tree` is what a removal has left of `before` so far. */
  ghost predicate LeftOver(before: Tree, tree: Tree, locked: set<Path>) {
    && (forall p :: p in tree ==> p in before && tree[p] == before[p])
    && (forall p :: p in before && p in locked ==> p in tree)
  }

  lemma NothingRemains(locked: set<Path>)
    ensures Remaining(None, locked) == None && Deletes(Some(map[]), None)
  {
  }

  lemma DeletingOne(before: Tree, tree: Tree, locked: set<Path>, p: Path)
    requires LeftOver(before, tree, locked) && p in tree && p !in locked
    ensures LeftOver(before, tree - {p}, locked) && Deletes(Some(tree), Some(tree - {p}))
  {
  }

  lemma RemainingIs(before: Tree, tree: Tree, locked: set<Path>)
    requires LeftOver(before, tree, locked) && tree.Keys - locked == {}
    ensures Remaining(Some(before), locked) == if tree == map[] then None else Some(tree)
  {
    forall p | p in tree ensures p in locked {
      assert p !in locked ==> p in tree.Keys - locked;
    }
    assert tree == map p | p in before && p in locked :: before[p];
  }

  datatype Which = ContentFolder | BackupFolder

  class Folders {
    var content: Option<Tree>
    var backup: Option<Tree>
    /** Every state the disk went through, one file operation apart. */
    ghost var history: seq<State>

    ghost predicate Tracking()
      reads this
    {
      && IsHistory(history)
      && history[|history| - 1].content == content
      && history[|history| - 1].backup == backup
    }

    ghost function Now(): State
      requires history != []
      reads this
    {
      history[|history| - 1]
    }

    constructor (content: Option<Tree>, backup: Option<Tree>)
      ensures this.content == content && this.backup == backup && Tracking() && Now().pc == Idle && |history| == 1
    {
      this.content, this.backup := content, backup;
      history := [State(content, backup, Idle, None, false, None)];
    }

    ghost method Record(s: State)
      requires IsHistory(history) && Next(history[|history| - 1], s)
      requires s.content == content && s.backup == backup
      modifies this`history
      ensures Tracking() && history == old(history) + [s]
    {
      history := history + [s];
    }

    function Get(which: Which): Option<Tree>
      reads this
    {
      if which.ContentFolder? then content else backup
    }

    method Put(which: Which, folder: Option<Tree>)
      requires Tracking() && Deletes(Get(which), folder)
      requires if which.ContentFolder? then Now().pc == ClearContent
               else Now().pc == ClearBackup || Now().pc == DropBackup
      modifies this
      ensures Tracking() && old(history) <= history && Get(which) == folder
      ensures Now() == if which.ContentFolder? then old(Now()).(content := folder) else old(Now()).(backup := folder)
    {
      ghost var now := Now();
      if which.ContentFolder? {
        content := folder;
        Record(now.(content := folder));
      } else {
        backup := folder;
        Record(now.(backup := folder));
      }
    }

    /** shutil.rmtree(folder, ignore_errors=True): file by file, in any order. */
    method RemoveTree(which: Which, locked: set<Path>)
      requires Tracking()
      requires if which.ContentFolder? then Now().pc == ClearContent
               else Now().pc == ClearBackup || Now().pc == DropBackup
      modifies this
      ensures Tracking() && old(history) <= history
      ensures Get(which) == Remaining(old(Get(which)), locked)
      ensures Now() == if which.ContentFolder? then old(Now()).(content := content) else old(Now()).(backup := backup)
    {
      hide Works, Next, Deletes, Remaining;
      NothingRemains(locked);
      if Get(which).None? {
        return;
      }
      var before := Get(which).value;
      var tree := before;
      var todo := tree.Keys - locked;
      while todo != {}
        invariant Tracking() && old(history) <= history && Get(which) == Some(tree)
        invariant todo == tree.Keys - locked && LeftOver(before, tree, locked)
        invariant Now() == if which.ContentFolder? then old(Now()).(content := content)
            else old(Now()).(backup := backup)
        decreases |todo|
      {
        var p :| p in todo;
        DeletingOne(before, tree, locked, p);
        Put(which, Some(tree - {p}));
        tree, todo := tree - {p}, todo - {p};
      }
      RemainingIs(before, tree, locked);
      if tree == map[] {
        Put(which, None);
      }
    }

    /** Clear an old backup and rename the content folder onto its name. False when the rename raises. */
    method MoveContentAside(locked: set<Path>) returns (moved: bool)
      requires Tracking() && Now().pc == ClearBackup && content.Some?
      modifies this
      ensures Tracking() && old(history) <= history
      ensures moved <==> Remaining(old(backup), locked).None?
      ensures !moved ==> content == old(content) && backup == Remaining(old(backup), locked) && Now().pc == Idle
      ensures moved ==> content == None && backup == old(content) && Now().pc == Cook(1)
    {
      RemoveTree(BackupFolder, locked);
      Record(Now().(pc := MoveAside));
      if !CanBeRenamedOnto(backup) {
        Record(Now().(pc := Idle));
        return false;
      }
      backup, content := content, None;
      Record(Now().(content := content, backup := backup, saved := backup, pc := Cook(1)));
      return true;
    }

    /** One run of Import.py. */
    method RunImport(outcome: CookOutcome, ghost attempt: nat)
      requires Tracking() && Now().pc == Cook(attempt)
      modifies this
      ensures Tracking() && old(history) <= history
      ensures content == outcome.content && backup == old(backup)
      ensures Now().pc == AfterCook(Now(), attempt, outcome.rc)
    {
      content := outcome.content;
      Record(Now().(content := content));
      Record(Now().(pc := Judge(attempt, outcome.rc)));
      Record(Now().(pc := AfterCook(Now(), attempt, outcome.rc)));
    }

    /** Put the backup back in place of whatever a failed cook left. False when the rename raises. */
    method RestoreBackup(locked: set<Path>) returns (restored: bool)
      requires Tracking() && Now().pc == ClearContent && backup.Some? && !HasUmap(content)
      modifies this
      ensures Tracking() && old(history) <= history && Now().pc == Idle
      ensures restored <==> Remaining(old(content), locked).None?
      ensures restored ==> content == old(backup) && backup == None
      ensures !restored ==> !HasUmap(content) && backup == old(backup) && content == Remaining(old(content), locked)
    {
      RemoveTree(ContentFolder, locked);
      Record(Now().(pc := PutBack));
      if !CanBeRenamedOnto(content) {
        Record(Now().(pc := Idle));
        return false;
      }
      content, backup := backup, None;
      Record(Now().(content := content, backup := backup, pc := Idle));
      return true;
    }

    /** Note the digest of what was cooked. Without one nothing is written, and a note that cannot be written
        is left out. */
    method WriteSha(sha: string, refused: bool)
      requires Tracking() && Now().pc == Stamp && content.Some?
      modifies this
      ensures Tracking() && old(history) <= history && Now().pc == Idle && backup == old(backup)
      ensures content == if sha == "" || refused then old(content)
                         else Some(old(content).value[".source_sha" := Strip(sha) + "\n"])
    {
      if sha != "" && !refused {
        content := Some(content.value[SHA_NOTE := Strip(sha) + "\n"]);
        Record(Now().(content := content, pc := Idle));
      } else {
        Record(Now().(pc := Idle));
      }
    }

    /** The cook, its one retry, and what follows from whether the map is there. */
    method CookAndSettle(locks: Locks, cooks: (CookOutcome, CookOutcome),
                        sha: string) returns (result: Result)
      requires Tracking() && Now().pc == Cook(1)
      modifies this
      ensures Tracking() && old(history) <= history && Now().pc == Idle && result != Kept
      ensures var last := if cooks.0.rc != 0 && !HasUmap(cooks.0.content) then cooks.1.content else cooks.0.content;
              && (result == Imported <==> HasUmap(last))
              && (result == Raised <==>
                    !HasUmap(last) && old(backup).Some? && Remaining(last, locks.failedCook).Some?)
              && (result == Imported ==>
                    && content == (if sha == "" || locks.note then last
                                   else Some(last.value[".source_sha" := Strip(sha) + "\n"]))
                    && backup == Remaining(old(backup), locks.spentBackup))
              && (result == Failed ==> backup == None && content == if old(backup).Some? then old(backup) else last)
              && (result == Raised ==>
                    content == Remaining(last, locks.failedCook) && !HasUmap(content) && backup == old(backup))
    {
      RunImport(cooks.0, 1);
      if cooks.0.rc != 0 && !HasUmap(content) {
        RunImport(cooks.1, 2);
      }
      var ok := HasUmap(content);
      if backup.Some? {
        if ok {
          RemoveTree(BackupFolder, locks.spentBackup);
          Record(Now().(pc := Stamp));
        } else {
          var restored := RestoreBackup(locks.failedCook);
          return if restored then Failed else Raised;
        }
      }
      if !ok {
        return Failed;
      }
      WriteSha(sha, locks.note);
      return Imported;
    }

    /** Make sure the map is imported. `force` stands for the flag or a "y" to the question. */
    method EnsureMap(force: bool, locks: Locks, cooks: (CookOutcome, CookOutcome), sha: string)
      returns (result: Result)
      requires Tracking() && Now().pc == Idle
      modifies this
      ensures Tracking() && old(history) <= history && Now().pc == Idle
      ensures result == Kept <==> HasUmap(old(content)) && !force
      ensures result == Kept ==> content == old(content) && backup == old(backup)
      ensures var blocked := HasUmap(old(content)) && Remaining(old(backup), locks.oldBackup).Some?;
              var aside := if HasUmap(old(content)) then old(content) else old(backup);
              var last := if cooks.0.rc != 0 && !HasUmap(cooks.0.content) then cooks.1.content else cooks.0.content;
              && (result == Imported <==> result != Kept && !blocked && HasUmap(last))
              && (result == Raised <==>
                    result != Kept
                    && (blocked || (!HasUmap(last) && aside.Some? && Remaining(last, locks.failedCook).Some?)))
              && (result == Imported ==>
                    && content == (if sha == "" || locks.note then last
                                   else Some(last.value[".source_sha" := Strip(sha) + "\n"]))
                    && backup == Remaining(aside, locks.spentBackup))
              && (result == Failed ==> backup == None && content == if aside.Some? then aside else last)
              && (result == Raised ==>
                    if blocked then content == old(content) && backup == Remaining(old(backup), locks.oldBackup)
                    else content == Remaining(last, locks.failedCook) && !HasUmap(content) && backup == aside)
    {
      var already := HasUmap(content);
      if already && !force {
        return Kept;
      }
      Record(Now().(pc := Staging, atStart := content, already := already));
      Record(Now().(pc := if already then ClearBackup else Cook(1)));
      if already {
        var moved := MoveContentAside(locks.oldBackup);
        if !moved {
          return Raised;
        }
      }
      result := CookAndSettle(locks, cooks, sha);
    }
  }
}
