/** One scenario yaml over any number of launches from any checkouts, with user edits in between. */
module StagingRuns {
  import opened Common
  import opened Text
  import opened StageRecord
  import opened Staging

  /** What happens to one file: the user edits, replaces or deletes the copy, or a launch stages it.
      `othersChanged` is whether the record is saved because of another file. */
  datatype Event =
    | Edit(copy: File)
    | Launches(path: string, src: File, answer: Option<Answer>, copyFails: bool, backupFails: bool,
               othersChanged: bool, saveOk: bool)

  /** The copy and its saved entry. History: the upstream versions launches had, the versions
      recorded, what the tool last wrote while nobody has changed it since, and the backups. */
  datatype FileState = FileState(copy: File, entry: Entry, upstreams: set<Digest>, recorded: seq<Digest>,
                                 written: Option<Digest>, backups: seq<File>)

  function Outcome(f: FileState, e: Event): Staged
    requires e.Launches?
  {
    StageSlot(Slot(f.copy, f.entry.(source := e.path)), e.src, e.copyFails)
  }

  /** Asked about, when anybody answers. */
  function After(f: FileState, e: Event): Slot
    requires e.Launches?
  {
    var r := Outcome(f, e);
    if r.ask then AnswerSlot(r.slot, Pending("", e.src, NormLines(e.src.content)), e.answer, e.copyFails) else r.slot
  }

  /** The version this launch records, if any. */
  function Records(f: FileState, e: Event): bool
    requires e.Launches?
  {
    var r := Outcome(f, e);
    r.changed || (r.ask && (e.answer == Some(Keep) || (e.answer == Some(Take) && !e.copyFails)))
  }

  function Step(f: FileState, e: Event): FileState {
    match e
    case Edit(copy) => f.(copy := copy, written := if NormHash(copy) == f.written then f.written else None)
    case Launches(_, src, answer, _, backupFails, othersChanged, saveOk) =>
      var s := After(f, e);
      f.(copy := s.copy,
         entry := if saveOk && (Records(f, e) || othersChanged) then s.entry.(legacy := None) else f.entry,
         upstreams := f.upstreams + (if src.Present? then {NormLines(src.content)} else {}),
         recorded := if Records(f, e) then f.recorded + [NormLines(src.content)] else f.recorded,
         written := if s.copy != f.copy then NormHash(s.copy) else f.written,
         backups := if Outcome(f, e).ask && answer == Some(Take) && !backupFails then f.backups + [f.copy]
           else f.backups)
  }

  function Run(f: FileState, es: seq<Event>): FileState {
    if es == [] then f else Step(Run(f, es[..|es| - 1]), es[|es| - 1])
  }

  /** Nothing staged and nothing recorded yet; a digest of the older scheme may be waiting. */
  predicate Fresh(f: FileState) {
    f.entry.seen == [] && f.upstreams == {} && f.recorded == [] && f.written == None
  }

  // ------------------------------------------------- what may be overwritten, and when

  ghost predicate SeenIsUpstream(f: FileState) {
    forall d :: d in f.entry.seen ==> d in f.upstreams
  }

  lemma {:induction false} RemoveFirstKeepsElements<T>(s: seq<T>, x: T)
    ensures forall y :: y in RemoveFirst(s, x) ==> y in s
  {
    if s != [] {
      RemoveFirstKeepsElements(s[1..], x);
    }
  }

  lemma RememberedElements(e: Entry, digest: Option<Digest>)
    ensures forall d :: d in Remember(e, digest).seen ==> d in e.seen || Some(d) == digest
    ensures digest.Some? ==> digest.value in Remember(e, digest).seen
  {
    if digest.Some? {
      RemoveFirstKeepsElements(e.seen, digest.value);
      var seen := (if digest.value in e.seen then RemoveFirst(e.seen, digest.value) else e.seen) + [digest.value];
      assert seen[|seen| - 1] == digest.value;
      assert LastOf(seen, SEEN_LIMIT)[|LastOf(seen, SEEN_LIMIT)| - 1] == digest.value;
    }
  }

  lemma StepKeepsSeenUpstream(f: FileState, e: Event)
    requires SeenIsUpstream(f)
    ensures SeenIsUpstream(Step(f, e))
  {
    hide Remember, NormLines;
    if e.Launches? {
      RememberedElements(f.entry.(source := e.path), NormHash(e.src));
    }
  }

  lemma {:induction false} RunKeepsSeenUpstream(f: FileState, es: seq<Event>)
    requires Fresh(f)
    ensures SeenIsUpstream(Run(f, es))
  {
    if es != [] {
      RunKeepsSeenUpstream(f, es[..|es| - 1]);
      StepKeepsSeenUpstream(Run(f, es[..|es| - 1]), es[|es| - 1]);
    }
  }

  /** Over any launches, checkouts, edits, answers and failures: a launch changes an existing copy
      only when its content is, up to normalisation, a version upstream had in an earlier launch, or
      when the user answered `o`; then the old content is among the backups unless the backup failed. */
  lemma NothingOfYoursIsLost(f: FileState, es: seq<Event>, e: Event)
    requires Fresh(f) && e.Launches?
    ensures var before, after := Run(f, es), Step(Run(f, es), e);
            !before.copy.Absent? && after.copy != before.copy ==>
              || (NormHash(before.copy).Some? && NormHash(before.copy).value in before.upstreams)
              || (e.answer == Some(Take) && Outcome(before, e).ask
                  && (!e.backupFails ==> after.backups == before.backups + [before.copy]))
  {
    RunKeepsSeenUpstream(f, es);
  }

  /** The answer `o`, when the copy goes through, puts the repo's version in place of the user's; what was
      there is backed up exactly when the backup goes through. The code does not look whether it did. */
  lemma TakingBacksUpUnlessItFails(f: FileState, e: Event)
    requires e.Launches? && Outcome(f, e).ask && e.answer == Some(Take) && !e.copyFails
    ensures Step(f, e).copy == e.src != f.copy
    ensures Step(f, e).backups == f.backups + [f.copy] <==> !e.backupFails
    ensures f.copy in Step(f, e).backups <==> !e.backupFails || f.copy in f.backups
  {
    AskedMeansDifferent(f, e);
  }

  lemma AskedMeansDifferent(f: FileState, e: Event)
    requires e.Launches? && Outcome(f, e).ask
    ensures e.src.Present? && e.src != f.copy && Outcome(f, e).slot.copy == f.copy
  {
  }

  const FIRST_VERSION := Present(["1"])
  const MY_VERSION := Present(["2"])
  const NEXT_VERSION := Present(["3"])

  const NOTHING_YET := FileState(Absent, Entry("", [], None), {}, [], None, [])
  const FIRST_LAUNCH := Launches("a.yaml", FIRST_VERSION, None, false, false, false, true)

  /** Staged once, then edited. */
  function EditedCopy(): FileState {
    Run(NOTHING_YET, [FIRST_LAUNCH, Edit(MY_VERSION)])
  }

  /** The repo has moved on, the user answers `o`, and the backup fails. */
  const TAKE_WITHOUT_BACKUP := Launches("a.yaml", NEXT_VERSION, Some(Take), false, true, false, true)

  lemma OneLineNorm(c: char)
    requires !IsSpace(c)
    ensures NormLines([[c]]) == [[c]]
  {
    assert TrimEnd([c]) == [c];
  }

  lemma EditedCopyIs()
    ensures var f := EditedCopy();
            f.copy == MY_VERSION && f.entry == Entry("a.yaml", [["1"]], None) && f.backups == []
  {
    hide Run, Step, NormLines;
    OneLineNorm('1');
    TwoSteps(NOTHING_YET, FIRST_LAUNCH, Edit(MY_VERSION));
    FirstStaging(NOTHING_YET, FIRST_LAUNCH, ["1"]);
    Editing(Step(NOTHING_YET, FIRST_LAUNCH), MY_VERSION);
  }

  lemma TwoSteps(f: FileState, a: Event, b: Event)
    ensures Run(f, [a, b]) == Step(Step(f, a), b)
  {
    hide Step;
    assert [a, b][..1] == [a] && [a][..0] == [];
    assert Run(f, [a]) == Step(f, a);
  }

  lemma Editing(f: FileState, copy: File)
    ensures var g := Step(f, Edit(copy)); g.copy == copy && g.entry == f.entry && g.backups == f.backups
  {
  }

  lemma FirstStaging(f: FileState, e: Event, d: Digest)
    requires f.copy.Absent? && f.entry.seen == [] && e.Launches? && GoesWell(e) && NormHash(e.src) == Some(d)
    ensures Step(f, e).copy == e.src && Step(f, e).entry == Entry(e.path, [d], None) && Step(f, e).backups == f.backups
  {
    hide NormLines;
    assert LastOf([] + [d], SEEN_LIMIT) == [d];
  }

  /** A file, a history and an answer after which the user's version is nowhere any more. */
  lemma TakingCanLoseYours()
    ensures var before, after := EditedCopy(), Step(EditedCopy(), TAKE_WITHOUT_BACKUP);
            && Fresh(NOTHING_YET)
            && before.copy == MY_VERSION && Outcome(before, TAKE_WITHOUT_BACKUP).ask
            && after.copy == NEXT_VERSION && MY_VERSION !in after.backups
  {
    OneLineNorm('1');
    OneLineNorm('2');
    OneLineNorm('3');
    EditedCopyIs();
    hide EditedCopy, NormLines, Remember;
    TakingBacksUpUnlessItFails(EditedCopy(), TAKE_WITHOUT_BACKUP);
  }

  // ------------------------------------------------------- an untouched copy follows the repo

  /** What the tool wrote and nobody changed is in the record. */
  ghost predicate WrittenIsSeen(f: FileState) {
    f.written.Some? ==>
      && NormHash(f.copy) == f.written && f.written.value in f.entry.seen && f.entry.legacy == None
  }

  predicate GoesWell(e: Event) {
    e.Launches? ==> !e.copyFails && e.saveOk
  }

  lemma StepKeepsWrittenSeen(f: FileState, e: Event)
    requires WrittenIsSeen(f) && GoesWell(e)
    ensures WrittenIsSeen(Step(f, e))
  {
    hide Remember, NormLines;
    if e.Launches? {
      RememberedElements(f.entry.(source := e.path), NormHash(e.src));
    }
  }

  lemma {:induction false} RunKeepsWrittenSeen(f: FileState, es: seq<Event>)
    requires Fresh(f) && forall i :: 0 <= i < |es| ==> GoesWell(es[i])
    ensures WrittenIsSeen(Run(f, es))
  {
    if es != [] {
      RunKeepsWrittenSeen(f, es[..|es| - 1]);
      StepKeepsWrittenSeen(Run(f, es[..|es| - 1]), es[|es| - 1]);
    }
  }

  /** A copy nobody touched since the tool wrote it is never asked about, and ends every launch equal,
      up to normalisation, to that launch's version, whichever checkouts alternate and however many
      versions the record has dropped. */
  lemma UntouchedCopyFollowsTheRepo(f: FileState, es: seq<Event>, e: Event)
    requires Fresh(f) && (forall i :: 0 <= i < |es| ==> GoesWell(es[i]))
    requires e.Launches? && GoesWell(e) && e.src.Present?
    requires Run(f, es).written.Some?
    ensures !Outcome(Run(f, es), e).ask
    ensures NormHash(Step(Run(f, es), e).copy) == NormHash(e.src)
    ensures Step(Run(f, es), e).written == NormHash(e.src)
  {
    RunKeepsWrittenSeen(f, es);
  }

  /** A missing copy is staged, and from then on counts as untouched. */
  lemma MissingCopyIsStaged(f: FileState, e: Event)
    requires e.Launches? && GoesWell(e) && e.src.Present? && f.copy.Absent?
    ensures !Outcome(f, e).ask && Step(f, e).copy == e.src && Step(f, e).written == NormHash(e.src)
  {
  }

  // ------------------------------------------------------------ how long a decision holds

  ghost predicate SeenIsRecord(f: FileState) {
    f.entry.seen == Recorded(f.recorded)
  }

  lemma RememberIsRecorded(e: Entry, h: seq<Digest>, d: Digest)
    requires e.seen == Recorded(h)
    ensures Remember(e, Some(d)).seen == Recorded(h + [d])
  {
    assert (h + [d])[..|h|] == h;
  }

  lemma StageRecordsSource(s: Slot, src: File, copyFails: bool, h: seq<Digest>)
    requires s.entry.seen == Recorded(h)
    ensures var r := StageSlot(s, src, copyFails);
            if r.changed then src.Present? && r.slot.entry.seen == Recorded(h + [NormLines(src.content)])
            else r.slot.entry.seen == Recorded(h)
  {
    if src.Present? {
      RememberIsRecorded(s.entry, h, NormLines(src.content));
    }
  }

  lemma AnswerRecordsSource(s: Slot, p: Pending, answer: Option<Answer>, copyFails: bool, h: seq<Digest>)
    requires s.entry.seen == Recorded(h) && p.src.Present?
    ensures var records := answer == Some(Keep) || (answer == Some(Take) && !copyFails);
            AnswerSlot(s, p, answer, copyFails).entry.seen == Recorded(if records then h + [p.hash] else h)
  {
    RememberIsRecorded(s.entry, h, p.hash);
  }

  lemma AfterRecords(f: FileState, e: Event)
    requires SeenIsRecord(f) && e.Launches?
    ensures Records(f, e) ==> e.src.Present?
    ensures After(f, e).entry.seen ==
        Recorded(if Records(f, e) then f.recorded + [NormLines(e.src.content)] else f.recorded)
  {
    var s := Slot(f.copy, f.entry.(source := e.path));
    StageRecordsSource(s, e.src, e.copyFails, f.recorded);
    var r := Outcome(f, e);
    if r.ask {
      AnswerRecordsSource(r.slot, Pending("", e.src, NormLines(e.src.content)), e.answer, e.copyFails, f.recorded);
    }
  }

  lemma StepKeepsRecord(f: FileState, e: Event)
    requires SeenIsRecord(f) && GoesWell(e)
    ensures SeenIsRecord(Step(f, e))
  {
    if e.Launches? {
      AfterRecords(f, e);
    }
  }

  lemma {:induction false} RunKeepsRecord(f: FileState, es: seq<Event>)
    requires Fresh(f) && forall i :: 0 <= i < |es| ==> GoesWell(es[i])
    ensures SeenIsRecord(Run(f, es))
  {
    if es != [] {
      RunKeepsRecord(f, es[..|es| - 1]);
      StepKeepsRecord(Run(f, es[..|es| - 1]), es[|es| - 1]);
    }
  }

  /** A version settled, with `k` or by taking it, is not asked about again until ten other versions
      have been recorded since. Without `k`, an unanswered question comes back. */
  lemma SettledVersionsStaySettled(f: FileState, es: seq<Event>, e: Event, d: Digest)
    requires Fresh(f) && forall i :: 0 <= i < |es| ==> GoesWell(es[i])
    requires e.Launches? && NormHash(e.src) == Some(d) && d in Run(f, es).recorded
    requires |RecordedSince(Run(f, es).recorded, d)| < 10
    ensures !Outcome(Run(f, es), e).ask
  {
    RunKeepsRecord(f, es);
    ForgottenAfterTenOthers(Run(f, es).recorded, d);
  }

  /** The one case that asks: an edited copy, against an upstream version that differs from it and is
      not settled. */
  lemma AsksExactlyWhenEdited(f: FileState, e: Event)
    requires e.Launches?
    ensures Outcome(f, e).ask <==>
              && e.src.Present? && !f.copy.Absent?
              && NormHash(f.copy) != NormHash(e.src)
              && NormLines(e.src.content) !in f.entry.seen
              && (f.entry.legacy.Some? ==> e.src.content != f.entry.legacy.value)
              && (f.copy.Present? ==> NormLines(f.copy.content) !in f.entry.seen)
  {
  }

  /** The copy is the user's when neither the tool wrote it nor the repo has it. */
  predicate IsYours(f: FileState, src: File) {
    && !f.copy.Absent? && NormHash(f.copy) != NormHash(src)
    && !(f.copy.Present? && NormLines(f.copy.content) in f.entry.seen)
  }

  /** The record of the older scheme names exactly the source. */
  predicate IsSettledOfOld(f: FileState, src: File) {
    src.Present? && f.entry.legacy == Some(src.content)
  }

  /** When a launch puts the repo's version in place of the copy: it is missing, or written by the tool and out
      of date, or the answer is `o`; otherwise the copy is as it was. */
  lemma CopyIsReplacedExactly(f: FileState, e: Event)
    requires e.Launches?
    ensures var refreshed :=
              && e.src.Present? && !e.copyFails
              && (f.copy.Absent?
                  || (!IsSettledOfOld(f, e.src) && NormHash(f.copy) != NormHash(e.src) && !IsYours(f, e.src))
                  || (Outcome(f, e).ask && e.answer == Some(Take)));
            Step(f, e).copy == if refreshed then e.src else f.copy
  {
    hide Remember, NormLines;
  }

  /** When a launch records the repo's version: with the copy it puts there, when the copy already agrees, when
      the older record settled it, and after `k`. */
  lemma VersionIsRecordedExactly(f: FileState, e: Event)
    requires e.Launches?
    ensures Records(f, e) <==>
              && e.src.Present?
              && ((f.copy.Absent? && !e.copyFails)
                  || (!f.copy.Absent? && IsSettledOfOld(f, e.src))
                  || (!f.copy.Absent? && NormHash(f.copy) == NormHash(e.src)
                      && NormLines(e.src.content) !in f.entry.seen)
                  || (!f.copy.Absent? && NormHash(f.copy) != NormHash(e.src) && !IsYours(f, e.src) && !e.copyFails)
                  || (Outcome(f, e).ask && (e.answer == Some(Keep) || (e.answer == Some(Take) && !e.copyFails))))
    ensures After(f, e).entry ==
            if Records(f, e) then Remember(f.entry.(source := e.path), NormHash(e.src)) else f.entry.(source := e.path)
  {
    hide Remember, NormLines;
  }

  // --------------------------------------- a launch of many files is a launch of each of them

  ghost predicate DistinctBases(configs: seq<Config>) {
    forall i, j :: 0 <= i < j < |configs| ==> configs[i].base != configs[j].base
  }

  ghost predicate OnlyOthers(configs: seq<Config>, base: string) {
    forall i :: 0 <= i < |configs| ==> configs[i].base != base
  }

  lemma {:induction false} StagingOthers(pass: Pass, configs: seq<Config>, faults: Faults, base: string)
    requires OnlyOthers(configs, base)
    ensures var after := StageAll(pass, configs, faults);
            && SlotOf(after.home, base) == SlotOf(pass.home, base)
            && after.home.asked == pass.home.asked && after.home.backups == pass.home.backups
            && (forall p :: p in after.pending && p.base == base ==> p in pass.pending)
            && (pass.changed ==> after.changed)
  {
    if configs != [] {
      StagingOthers(pass, configs[..|configs| - 1], faults, base);
    }
  }

  function OfferOf(cfg: Config): Pending
    requires cfg.src.Present?
  {
    Pending(cfg.base, cfg.src, NormLines(cfg.src.content))
  }

  function StagedAs(h: Home, cfg: Config, faults: Faults): Staged {
    var s := SlotOf(h, cfg.base);
    StageSlot(s.(entry := s.entry.(source := cfg.path)), cfg.src, cfg.base in faults.copy)
  }

  /** Among many files, each is staged as if alone. */
  lemma {:induction false} StagingOne(pass: Pass, configs: seq<Config>, faults: Faults, i: nat)
    requires DistinctBases(configs) && i < |configs| && !configs[i].src.Absent?
    requires forall p :: p in pass.pending ==> p.base != configs[i].base
    ensures var after := StageAll(pass, configs, faults); var r := StagedAs(pass.home, configs[i], faults);
            && SlotOf(after.home, configs[i].base) == r.slot && configs[i].base in after.home.index
            && after.home.backups == pass.home.backups && after.home.asked == pass.home.asked
            && (r.changed ==> after.changed)
            && (r.ask ==> OfferOf(configs[i]) in after.pending)
            && (!r.ask ==> forall p :: p in after.pending ==> p.base != configs[i].base)
  {
    var n := |configs| - 1;
    if i < n {
      StagingOne(pass, configs[..n], faults, i);
    } else {
      assert OnlyOthers(configs[..n], configs[n].base);
      StagingOthers(pass, configs[..n], faults, configs[n].base);
    }
  }

  ghost predicate DistinctOffers(pending: seq<Pending>) {
    forall i, j :: 0 <= i < j < |pending| ==> pending[i].base != pending[j].base
  }

  lemma {:induction false} OffersAreDistinct(h: Home, configs: seq<Config>, faults: Faults)
    requires DistinctBases(configs)
    ensures var pending := StageAll(Pass(h, false, []), configs, faults).pending;
            && DistinctOffers(pending)
            && forall p :: p in pending ==> exists i :: 0 <= i < |configs| && p.base == configs[i].base
  {
    if configs != [] {
      OffersAreDistinct(h, configs[..|configs| - 1], faults);
    }
  }

  /** The backups of one file, oldest first. */
  function BackupsOf(backups: seq<(string, File)>, base: string): seq<File> {
    if backups == [] then []
    else
      var n := |backups| - 1;
      BackupsOf(backups[..n], base) + if backups[n].0 == base then [backups[n].1] else []
  }

  lemma OneMoreBackup(backups: seq<(string, File)>, base: string, copy: File, other: string)
    ensures BackupsOf(backups + [(base, copy)], other) ==
            BackupsOf(backups, other) + if base == other then [copy] else []
  {
    assert (backups + [(base, copy)])[..|backups|] == backups;
  }

  lemma {:induction false} AskingOthers(h: Home, changed: bool, pending: seq<Pending>, input: seq<string>,
                        faults: Faults, base: string)
    requires forall p :: p in pending ==> p.base != base
    ensures var after := AskAll(h, changed, pending, input, faults);
            && SlotOf(after.home, base) == SlotOf(h, base)
            && (changed ==> after.changed) && (base in h.index ==> base in after.home.index)
    decreases |pending|
  {
    hide Remember, ReadAnswer;
    if pending != [] {
      if (pending[0].base, pending[0].hash) in h.asked {
        AskingOthers(h, changed, pending[1..], input, faults, base);
      } else if ReadAnswer(input).0.Some? {
        var one := AskAll(h, false, [pending[0]], input, faults);
        AskAllStep(h, changed, pending, input, faults);
        assert [pending[0]][1..] == [];
        AskingOthers(one.home, changed || one.changed, pending[1..], one.input, faults, base);
      }
    }
  }

  /** How many questions are put before the `k`-th of these. */
  function PutBefore(asked: set<(string, Digest)>, pending: seq<Pending>, k: nat): nat
    requires k <= |pending|
  {
    if k == 0 then 0
    else PutBefore(asked, pending, k - 1) + if (pending[k - 1].base, pending[k - 1].hash) in asked then 0 else 1
  }

  /** The answer to the `k`-th: none when it was put before, or when the decisions run out, else the next one. */
  function AnswerTo(asked: set<(string, Digest)>, pending: seq<Pending>, k: nat, input: seq<string>): Option<Answer>
    requires k < |pending|
  {
    var n := PutBefore(asked, pending, k);
    if (pending[k].base, pending[k].hash) in asked || n >= |Decisions(input)| then None else Some(Decisions(input)[n])
  }

  lemma {:induction false} PutBeforeRest(asked: set<(string, Digest)>, pending: seq<Pending>, k: nat)
    requires DistinctOffers(pending) && 0 < k <= |pending|
    ensures var key := (pending[0].base, pending[0].hash);
            PutBefore(asked, pending, k) ==
              (if key in asked then 0 else 1) + PutBefore(asked + {key}, pending[1..], k - 1)
  {
    if k > 1 {
      PutBeforeRest(asked, pending, k - 1);
      assert pending[1..][k - 2] == pending[k - 1];
    }
  }

  lemma AnswerToRest(asked: set<(string, Digest)>, pending: seq<Pending>, k: nat, input: seq<string>)
    requires DistinctOffers(pending) && 0 < k < |pending|
    ensures var key := (pending[0].base, pending[0].hash); var (answer, rest) := ReadAnswer(input);
            && (key in asked ==> AnswerTo(asked, pending, k, input) == AnswerTo(asked, pending[1..], k - 1, input))
            && (key !in asked && answer.None? ==> AnswerTo(asked, pending, k, input) == None)
            && (key !in asked && answer.Some? ==>
                  AnswerTo(asked, pending, k, input) == AnswerTo(asked + {key}, pending[1..], k - 1, rest))
  {
    hide ReadAnswer, Decisions;
    var key := (pending[0].base, pending[0].hash);
    PutBeforeRest(asked, pending, k);
    ReadAnswerDecides(input);
    assert pending[1..][k - 1] == pending[k];
    assert key in asked ==> asked + {key} == asked;
  }

  lemma FirstAnswer(asked: set<(string, Digest)>, pending: seq<Pending>, input: seq<string>)
    requires pending != []
    ensures AnswerTo(asked, pending, 0, input) ==
            if (pending[0].base, pending[0].hash) in asked then None else ReadAnswer(input).0
  {
    hide ReadAnswer, Decisions;
    ReadAnswerDecides(input);
  }

  /** The answer to one question settles that file; the other questions do not touch it. */
  lemma {:induction false} AskingOne(h: Home, changed: bool, pending: seq<Pending>, input: seq<string>,
                        faults: Faults, k: nat)
    requires DistinctOffers(pending) && k < |pending| && pending[k].base in h.index
    ensures var p := pending[k]; var after := AskAll(h, changed, pending, input, faults);
            var answer, copyFails := AnswerTo(h.asked, pending, k, input), p.base in faults.copy;
            && SlotOf(after.home, p.base) == AnswerSlot(SlotOf(h, p.base), p, answer, copyFails)
            && p.base in after.home.index
            && (changed || answer == Some(Keep) || (answer == Some(Take) && !copyFails && p.src.Present?)
              ==> after.changed)
    decreases |pending|
  {
    hide Remember, ReadAnswer, AnswerTo, PutBefore, AnswerSlot;
    var first := pending[0];
    var answer := AnswerTo(h.asked, pending, k, input);
    assert pending[1..] == [] || k == 0 || pending[1..][k - 1] == pending[k];
    FirstAnswer(h.asked, pending, input);
    Unanswered(SlotOf(h, pending[k].base), pending[k], pending[k].base in faults.copy);
    if k > 0 {
      AnswerToRest(h.asked, pending, k, input);
    }
    if (first.base, first.hash) in h.asked {
      if k == 0 {
        AskingOthers(h, changed, pending[1..], input, faults, first.base);
      } else {
        AskingOne(h, changed, pending[1..], input, faults, k - 1);
      }
    } else if ReadAnswer(input).0.Some? {
      var one := AskAll(h, false, [first], input, faults);
      AskAllStep(h, changed, pending, input, faults);
      AskingFirst(h, input, first, faults);
      if k == 0 {
        AskingOthers(one.home, changed || one.changed, pending[1..], one.input, faults, first.base);
      } else {
        AskingOne(one.home, changed || one.changed, pending[1..], one.input, faults, k - 1);
        AskingOthers(h, false, [first], input, faults, pending[k].base);
      }
    }
  }

  lemma Unanswered(s: Slot, p: Pending, copyFails: bool)
    ensures AnswerSlot(s, p, None, copyFails) == s
  {
  }

  /** One question, answered. */
  lemma AskingFirst(h: Home, input: seq<string>, p: Pending, faults: Faults)
    requires (p.base, p.hash) !in h.asked && ReadAnswer(input).0.Some?
    ensures var one := AskAll(h, false, [p], input, faults);
            var answer, copyFails := ReadAnswer(input).0, p.base in faults.copy;
            && SlotOf(one.home, p.base) == AnswerSlot(SlotOf(h, p.base), p, answer, copyFails)
            && p.base in one.home.index && one.home.asked == h.asked + {(p.base, p.hash)}
            && one.input == ReadAnswer(input).1
            && one.home.backups == h.backups
               + (if answer == Some(Take) && p.base !in faults.backup then [(p.base, CopyOf(h, p.base))] else [])
            && (one.changed <==> answer == Some(Keep) || (answer == Some(Take) && !copyFails && p.src.Present?))
  {
    hide Remember, ReadAnswer;
    var h1 := h.(asked := h.asked + {(p.base, p.hash)});
    var (answer, rest) := ReadAnswer(input);
    var h2 := if answer.value.Take? && p.base !in faults.backup
              then h1.(backups := h1.backups + [(p.base, CopyOf(h, p.base))]) else h1;
    var s := AnswerSlot(SlotOf(h1, p.base), p, answer, p.base in faults.copy);
    var told := answer.value.Keep? || (answer.value.Take? && p.base !in faults.copy && p.src.Present?);
    assert [p][1..] == [];
    assert AskAll(WithSlot(h2, p.base, s), told, [], rest, faults) == Asked(WithSlot(h2, p.base, s), told, rest);
    assert AskAll(h, false, [p], input, faults) == Asked(WithSlot(h2, p.base, s), told, rest);
  }

  /** The backups of one file that one question adds. */
  function BackupFor(h: Home, p: Pending, answer: Option<Answer>, faults: Faults, base: string): seq<File> {
    if base == p.base && answer == Some(Take) && p.base !in faults.backup then [CopyOf(h, p.base)] else []
  }

  lemma BackupsAfterFirst(h: Home, changed: bool, pending: seq<Pending>, input: seq<string>, faults: Faults,
                          base: string)
    requires pending != [] && (pending[0].base, pending[0].hash) !in h.asked && ReadAnswer(input).0.Some?
    ensures var one := AskAll(h, false, [pending[0]], input, faults);
            && AskAll(h, changed, pending, input, faults) ==
               AskAll(one.home, changed || one.changed, pending[1..], one.input, faults)
            && one.home.asked == h.asked + {(pending[0].base, pending[0].hash)} && one.input == ReadAnswer(input).1
            && BackupsOf(one.home.backups, base) ==
               BackupsOf(h.backups, base) + BackupFor(h, pending[0], ReadAnswer(input).0, faults, base)
            && (base != pending[0].base ==> CopyOf(one.home, base) == CopyOf(h, base))
  {
    hide AskAll, ReadAnswer, AnswerSlot, BackupsOf;
    AskAllStep(h, changed, pending, input, faults);
    AskingFirst(h, input, pending[0], faults);
    OneMoreBackup(h.backups, pending[0].base, CopyOf(h, pending[0].base), base);
    assert h.backups + [] == h.backups;
    if base != pending[0].base {
      AskingOthers(h, false, [pending[0]], input, faults, base);
    }
  }

  lemma {:induction false} BackupsOfOthers(h: Home, changed: bool, pending: seq<Pending>, input: seq<string>,
                                           faults: Faults, base: string)
    requires forall p :: p in pending ==> p.base != base
    ensures BackupsOf(AskAll(h, changed, pending, input, faults).home.backups, base) == BackupsOf(h.backups, base)
    decreases |pending|
  {
    hide ReadAnswer, BackupsOf;
    if pending != [] {
      if (pending[0].base, pending[0].hash) in h.asked {
        BackupsOfOthers(h, changed, pending[1..], input, faults, base);
      } else if ReadAnswer(input).0.Some? {
        hide AskAll;
        var one := AskAll(h, false, [pending[0]], input, faults);
        BackupsAfterFirst(h, changed, pending, input, faults, base);
        BackupsOfOthers(one.home, changed || one.changed, pending[1..], one.input, faults, base);
      }
    }
  }

  /** The copy asked about is backed up exactly when its question is answered with `o` and the backup goes
      through. */
  lemma {:induction false} BackupsOfOne(h: Home, changed: bool, pending: seq<Pending>, input: seq<string>,
                                        faults: Faults, k: nat)
    requires DistinctOffers(pending) && k < |pending|
    ensures var p := pending[k];
            BackupsOf(AskAll(h, changed, pending, input, faults).home.backups, p.base) ==
              BackupsOf(h.backups, p.base) + BackupFor(h, p, AnswerTo(h.asked, pending, k, input), faults, p.base)
    decreases |pending|
  {
    hide ReadAnswer, AnswerTo, BackupsOf;
    var first, base := pending[0], pending[k].base;
    assert k > 0 ==> pending[1..][k - 1] == pending[k];
    FirstAnswer(h.asked, pending, input);
    if k > 0 {
      AnswerToRest(h.asked, pending, k, input);
    }
    if (first.base, first.hash) in h.asked {
      if k == 0 {
        BackupsOfOthers(h, changed, pending[1..], input, faults, base);
      } else {
        BackupsOfOne(h, changed, pending[1..], input, faults, k - 1);
      }
    } else if ReadAnswer(input).0.Some? {
      hide AskAll;
      var one := AskAll(h, false, [first], input, faults);
      BackupsAfterFirst(h, changed, pending, input, faults, base);
      if k == 0 {
        BackupsOfOthers(one.home, changed || one.changed, pending[1..], one.input, faults, base);
      } else {
        BackupsOfOne(one.home, changed || one.changed, pending[1..], one.input, faults, k - 1);
      }
    }
  }

  /** The entry read back at the next launch. */
  lemma SavedEntry(index: map<string, Entry>, saved: map<string, Json>, base: string, save: bool)
    requires base in index
    ensures var saved' := if save then SaveIndex(index) else saved;
            EntryOf(Home(map[], [], LoadIndex(saved'), {}), base) ==
            if save then index[base].(legacy := None) else EntryOf(Home(map[], [], LoadIndex(saved), {}), base)
  {
    LoadAfterSave(index[base]);
  }

  /** Config `i` is asked about in one of the questions of the launch, and this is the answer. */
  ghost predicate AnswersInTurn(h: Home, configs: seq<Config>, input: seq<string>, faults: Faults, i: nat,
                                answer: Option<Answer>)
    requires i < |configs|
  {
    var pending := StageAll(Pass(h, false, []), configs, faults).pending;
    configs[i].src.Present? &&
      exists k :: 0 <= k < |pending| && pending[k] == OfferOf(configs[i])
                  && answer == AnswerTo(h.asked, pending, k, input)
  }

  /** Everything about one file in a launch, up to saving the record. */
  lemma LaunchedSlot(h: Home, configs: seq<Config>, interactive: bool, input: seq<string>, faults: Faults, i: nat)
    returns (answer: Option<Answer>, done: Asked)
    requires DistinctBases(configs) && i < |configs| && !configs[i].src.Absent?
    ensures var pass := StageAll(Pass(h, false, []), configs, faults);
            done == if pass.pending != [] && interactive
              then AskAll(pass.home, pass.changed, pass.pending, input, faults)
                    else Asked(pass.home, pass.changed, input)
    ensures var r := StagedAs(h, configs[i], faults); var copyFails := configs[i].base in faults.copy;
            && SlotOf(done.home, configs[i].base) ==
                 (if r.ask then AnswerSlot(r.slot, OfferOf(configs[i]), answer, copyFails) else r.slot)
            && configs[i].base in done.home.index
            && (r.changed || (r.ask && (answer == Some(Keep) || (answer == Some(Take) && !copyFails))) ==> done.changed)
            && BackupsOf(done.home.backups, configs[i].base) == BackupsOf(h.backups, configs[i].base)
               + (if r.ask && answer == Some(Take) && configs[i].base !in faults.backup then [r.slot.copy] else [])
            && (r.ask && interactive ==> AnswersInTurn(h, configs, input, faults, i, answer))
            && (!r.ask || !interactive ==> answer == None)
  {
    var start := Pass(h, false, []);
    var pass := StageAll(start, configs, faults);
    StagingOne(start, configs, faults, i);
    OffersAreDistinct(h, configs, faults);
    answer, done := None, Asked(pass.home, pass.changed, input);
    if pass.pending != [] && interactive {
      done := AskAll(pass.home, pass.changed, pass.pending, input, faults);
      if StagedAs(h, configs[i], faults).ask {
        var k :| 0 <= k < |pass.pending| && pass.pending[k] == OfferOf(configs[i]);
        answer := AnswerTo(h.asked, pass.pending, k, input);
        AskingOne(pass.home, pass.changed, pass.pending, input, faults, k);
        BackupsOfOne(pass.home, pass.changed, pass.pending, input, faults, k);
      } else {
        AskingOthers(pass.home, pass.changed, pass.pending, input, faults, configs[i].base);
        BackupsOfOthers(pass.home, pass.changed, pass.pending, input, faults, configs[i].base);
      }
    }
  }

  /** The record as the launch reads it. */
  function WithIndex(h: Home, saved: map<string, Json>): Home {
    h.(index := LoadIndex(saved))
  }

  /** stage_configs over many files with distinct names is, for each of them, one launch of that file. */
  lemma LaunchOfOne(h: Home, saved: map<string, Json>, configs: seq<Config>, interactive: bool, input: seq<string>,
                    faults: Faults, saveFails: bool, i: nat, f: FileState) returns (e: Event)
    requires DistinctBases(configs) && i < |configs| && !configs[i].src.Absent?
    requires f.copy == CopyOf(h, configs[i].base)
    requires f.entry == EntryOf(Home(map[], [], LoadIndex(saved), {}), configs[i].base)
    requires f.backups == BackupsOf(h.backups, configs[i].base)
    ensures e.Launches? && e.path == configs[i].path && e.src == configs[i].src && e.saveOk == !saveFails
    ensures e.copyFails == (configs[i].base in faults.copy) && e.backupFails == (configs[i].base in faults.backup)
    ensures !interactive ==> e.answer == None
    ensures interactive && Outcome(f, e).ask ==> AnswersInTurn(WithIndex(h, saved), configs, input, faults, i, e.answer)
    ensures e.answer == Some(Take) ==> exists line :: line in input && ToLower(Strip(line)) == "o"
    ensures e.answer == Some(Keep) ==> exists line :: line in input && ToLower(Strip(line)) == "k"
    ensures var (h', saved', _) := Launch(h, saved, configs, interactive, input, faults, saveFails);
            && Step(f, e).copy == CopyOf(h', configs[i].base)
            && Step(f, e).entry == EntryOf(Home(map[], [], LoadIndex(saved'), {}), configs[i].base)
            && Step(f, e).backups == BackupsOf(h'.backups, configs[i].base)
  {
    hide StageSlot, StageAll, AskAll, Remember, AnswersInTurn, Strip, ToLower, Step, After, AnswerSlot,
        LoadIndex, SaveIndex, BackupsOf, NormLines;
    AskedHasSource(WithIndex(h, saved), configs[i], faults);
    var cfg := configs[i];
    var h0 := WithIndex(h, saved);
    var answer, done := LaunchedSlot(h0, configs, interactive, input, faults, i);
    e := Launches(cfg.path, cfg.src, answer, cfg.base in faults.copy, cfg.base in faults.backup, done.changed,
      !saveFails);
    StepFollows(h0, cfg, faults, f, e, done);
    SavedEntry(done.home.index, saved, cfg.base, done.changed && !saveFails);
    if answer.Some? {
      AnswerHasLine(h0, configs, input, faults, i, answer);
    }
  }

  /** What a launch made of one of many files is what it makes of that file alone. */
  lemma StepFollows(h: Home, cfg: Config, faults: Faults, f: FileState, e: Event, done: Asked)
    requires e.Launches? && e.path == cfg.path && e.src == cfg.src && !cfg.src.Absent?
    requires e.copyFails == (cfg.base in faults.copy) && e.backupFails == (cfg.base in faults.backup)
    requires f.copy == CopyOf(h, cfg.base) && f.entry == EntryOf(h, cfg.base)
    requires f.backups == BackupsOf(h.backups, cfg.base)
    requires StagedAs(h, cfg, faults).ask ==> cfg.src.Present?
    requires var r := StagedAs(h, cfg, faults);
             && SlotOf(done.home, cfg.base) ==
                (if r.ask then AnswerSlot(r.slot, OfferOf(cfg), e.answer, e.copyFails) else r.slot)
             && BackupsOf(done.home.backups, cfg.base) == BackupsOf(h.backups, cfg.base)
                + (if r.ask && e.answer == Some(Take) && !e.backupFails then [r.slot.copy] else [])
    ensures Outcome(f, e) == StagedAs(h, cfg, faults)
    ensures After(f, e) == SlotOf(done.home, cfg.base)
    ensures Step(f, e).copy == CopyOf(done.home, cfg.base)
    ensures Step(f, e).entry ==
            if e.saveOk && (Records(f, e) || e.othersChanged) then EntryOf(done.home, cfg.base).(legacy := None)
            else f.entry
    ensures Step(f, e).backups == BackupsOf(done.home.backups, cfg.base)
  {
    hide StageSlot, Remember, Step, After, AnswerSlot, BackupsOf;
    StepIs(f, e);
    BackupsOfStep(f, e);
    if Outcome(f, e).ask {
      SameAnswer(Outcome(f, e).slot, OfferOf(cfg), Pending("", e.src, NormLines(e.src.content)), e.answer, e.copyFails);
    }
  }

  lemma StepIs(f: FileState, e: Event)
    requires e.Launches?
    ensures Step(f, e).copy == After(f, e).copy
    ensures Step(f, e).entry ==
            if e.saveOk && (Records(f, e) || e.othersChanged) then After(f, e).entry.(legacy := None) else f.entry
    ensures After(f, e) == var r := Outcome(f, e);
              if r.ask then AnswerSlot(r.slot, Pending("", e.src, NormLines(e.src.content)), e.answer, e.copyFails)
              else r.slot
    ensures Outcome(f, e).ask ==> e.src.Present? && Outcome(f, e).slot == Slot(f.copy, f.entry.(source := e.path))
  {
  }

  lemma BackupsOfStep(f: FileState, e: Event)
    requires e.Launches?
    ensures Step(f, e).backups ==
            f.backups + if Outcome(f, e).ask && e.answer == Some(Take) && !e.backupFails then [f.copy] else []
    ensures Outcome(f, e).ask ==> Outcome(f, e).slot.copy == f.copy
  {
    hide Remember, NormLines;
    assert f.backups + [] == f.backups;
  }

  lemma SameAnswer(s: Slot, p: Pending, q: Pending, answer: Option<Answer>, copyFails: bool)
    requires p.src == q.src && p.hash == q.hash
    ensures AnswerSlot(s, p, answer, copyFails) == AnswerSlot(s, q, answer, copyFails)
  {
  }

  lemma AnswerHasLine(h: Home, configs: seq<Config>, input: seq<string>, faults: Faults, i: nat, answer: Option<Answer>)
    requires i < |configs| && AnswersInTurn(h, configs, input, faults, i, answer)
    ensures answer == Some(Take) ==> exists line :: line in input && ToLower(Strip(line)) == "o"
    ensures answer == Some(Keep) ==> exists line :: line in input && ToLower(Strip(line)) == "k"
  {
    hide StageAll, AnswerTo;
    var pending := StageAll(Pass(h, false, []), configs, faults).pending;
    var k :| 0 <= k < |pending| && answer == AnswerTo(h.asked, pending, k, input);
    AnswerIsALine(h.asked, pending, k, input);
  }

  lemma AnswerIsALine(asked: set<(string, Digest)>, pending: seq<Pending>, k: nat, input: seq<string>)
    requires k < |pending|
    ensures var answer := AnswerTo(asked, pending, k, input);
            && (answer == Some(Take) ==> exists line :: line in input && ToLower(Strip(line)) == "o")
            && (answer == Some(Keep) ==> exists line :: line in input && ToLower(Strip(line)) == "k")
  {
    hide PutBefore;
    if PutBefore(asked, pending, k) < |Decisions(input)| {
      var line := DecidedBy(input, PutBefore(asked, pending, k));
    }
  }

  /** An edited copy that the launch would ask about is as it was, unless somebody answers "o". */
  lemma WithoutAnOYoursStays(h: Home, saved: map<string, Json>, configs: seq<Config>, interactive: bool,
                             input: seq<string>, faults: Faults, saveFails: bool, i: nat)
    requires DistinctBases(configs) && i < |configs|
    requires var cfg := configs[i]; StagedAs(WithIndex(h, saved), cfg, faults).ask
    requires forall line :: line in input ==> ToLower(Strip(line)) != "o"
    ensures CopyOf(Launch(h, saved, configs, interactive, input, faults, saveFails).0, configs[i].base)
            == CopyOf(h, configs[i].base)
  {
    hide Launch, StageAll, AskAll, Remember, StageSlot, AnswersInTurn, LoadIndex, NormLines, Step, After, AnswerSlot,
        BackupsOf, Records, ToLower, Strip;
    var cfg := configs[i];
    var f := FileState(CopyOf(h, cfg.base), EntryOf(Home(map[], [], LoadIndex(saved), {}), cfg.base), {}, [], None,
                       BackupsOf(h.backups, cfg.base));
    AskedHasSource(WithIndex(h, saved), cfg, faults);
    var e := LaunchOfOne(h, saved, configs, interactive, input, faults, saveFails, i, f);
    StepIs(f, e);
    OnlyTakingReplaces(Outcome(f, e).slot, Pending("", e.src, NormLines(e.src.content)), e.answer, e.copyFails);
  }

  lemma OnlyTakingReplaces(s: Slot, p: Pending, answer: Option<Answer>, copyFails: bool)
    requires answer != Some(Take)
    ensures AnswerSlot(s, p, answer, copyFails).copy == s.copy
  {
  }

  /** With one config there is nothing else to ask for. */
  lemma EnterLeavesTheOnlyOne(h: Home, saved: map<string, Json>, cfg: Config, faults: Faults, saveFails: bool)
    requires StagedAs(WithIndex(h, saved), cfg, faults).ask
    ensures CopyOf(Launch(h, saved, [cfg], true, [""], faults, saveFails).0, cfg.base) == CopyOf(h, cfg.base)
  {
    hide Launch, StagedAs;
    EnterLeavesYours(h, saved, [cfg], faults, saveFails, 0);
  }

  /** Configs that are declared but not there are skipped. */
  lemma MissingConfigsAreSkipped(h: Home, saved: map<string, Json>, configs: seq<Config>, interactive: bool,
                                 input: seq<string>, faults: Faults, saveFails: bool)
    requires forall i :: 0 <= i < |configs| ==> configs[i].src.Absent?
    ensures Launch(h, saved, configs, interactive, input, faults, saveFails) == (WithIndex(h, saved), saved, input)
  {
    NothingStaged(Pass(WithIndex(h, saved), false, []), configs, faults);
  }

  lemma {:induction false} NothingStaged(pass: Pass, configs: seq<Config>, faults: Faults)
    requires forall i :: 0 <= i < |configs| ==> configs[i].src.Absent?
    ensures StageAll(pass, configs, faults) == pass
  {
    if configs != [] {
      NothingStaged(pass, configs[..|configs| - 1], faults);
    }
  }

  lemma AskedHasSource(h: Home, cfg: Config, faults: Faults)
    ensures StagedAs(h, cfg, faults).ask ==> cfg.src.Present?
  {
    hide StageSlot;
    var s := SlotOf(h, cfg.base);
    AskingNeedsSource(s.(entry := s.entry.(source := cfg.path)), cfg.src, cfg.base in faults.copy);
  }

  lemma AskingNeedsSource(s: Slot, src: File, copyFails: bool)
    ensures StageSlot(s, src, copyFails).ask ==> src.Present?
  {
  }

  /** Pressing Enter is the safe answer. */
  lemma EnterLeavesYours(h: Home, saved: map<string, Json>, configs: seq<Config>, faults: Faults, saveFails: bool,
                         i: nat)
    requires DistinctBases(configs) && i < |configs| && StagedAs(WithIndex(h, saved), configs[i], faults).ask
    ensures CopyOf(Launch(h, saved, configs, true, [""], faults, saveFails).0, configs[i].base)
            == CopyOf(h, configs[i].base)
  {
    hide Launch, StagedAs;
    assert ToLower(Strip("")) == "";
    WithoutAnOYoursStays(h, saved, configs, true, [""], faults, saveFails, i);
  }
}
