/** Staging an app's scenario yamls: the repo's versions, the user's copies, and the questions asked. */
module Staging {
  import opened Common
  import opened Text
  import opened StageRecord

  datatype Config = Config(base: string, path: string, src: File)

  /** A config to ask about, with the upstream version offered. */
  datatype Pending = Pending(base: string, src: File, hash: Digest)

  datatype Answer = Later | Keep | Take

  /** What the operating system refuses: copying onto, and backing up, these files. */
  datatype Faults = Faults(copy: set<string>, backup: set<string>)

  // ------------------------------------------------------------------ the saved record

  /** A value of the record's JSON document. In `seen`, None is an element that is not a string. */
  datatype Json = NotAnObject | Object(source: Option<string>, seen: Option<seq<Option<Digest>>>, hash: Option<Content>)

  function Strings(xs: seq<Option<Digest>>): seq<Digest> {
    if xs == [] then [] else (if xs[0].Some? then [xs[0].value] else []) + Strings(xs[1..])
  }

  function Quoted(xs: seq<Digest>): seq<Option<Digest>> {
    if xs == [] then [] else [Some(xs[0])] + Quoted(xs[1..])
  }

  function LoadEntry(doc: Json): Entry
    requires doc.Object?
  {
    var source := if doc.source.Some? then doc.source.value else "";
    if doc.seen.Some? then Entry(source, Strings(doc.seen.value), None)
    else Entry(source, [], doc.hash)
  }

  /** What json.dump writes of an entry. A digest of the older scheme goes out under another name
      than it is read by. */
  function SaveEntry(e: Entry): Json {
    Object(Some(e.source), Some(Quoted(e.seen)), None)
  }

  lemma {:induction false} StringsOfQuoted(xs: seq<Digest>)
    ensures Strings(Quoted(xs)) == xs
  {
    if xs != [] {
      StringsOfQuoted(xs[1..]);
    }
  }

  /** Saving and loading gives an entry back exactly when no older digest is still waiting in it. */
  lemma LoadAfterSave(e: Entry)
    ensures LoadEntry(SaveEntry(e)) == e.(legacy := None)
    ensures LoadEntry(SaveEntry(e)) == e <==> e.legacy == None
  {
    StringsOfQuoted(e.seen);
  }

  /** Elements that are no strings are dropped, the others kept in order. */
  lemma {:induction false} StringsAreKept(a: seq<Option<Digest>>, b: seq<Option<Digest>>, d: Digest)
    ensures Strings(a + b) == Strings(a) + Strings(b)
    ensures Strings([Some(d)]) == [d] && Strings([None]) == []
  {
    if a == [] {
      assert a + b == b;
    } else {
      assert (a + b)[1..] == a[1..] + b;
      StringsAreKept(a[1..], b, d);
    }
    OneString(d);
  }

  lemma OneString(d: Digest)
    ensures Strings([Some(d)]) == [d] && Strings([None]) == []
  {
    assert [Some(d)][1..] == [];
    var none: seq<Option<Digest>> := [None];
    assert none[1..] == [];
  }

  /** A record of the newer scheme is read as its list, whatever else it has; one of the older scheme has a digest
      of the whole file. */
  lemma RecordsAreRead(source: string, seen: seq<Option<Digest>>, content: Content)
    ensures LoadEntry(Object(Some(source), Some(seen), Some(content))) == Entry(source, Strings(seen), None)
    ensures LoadEntry(Object(Some(source), None, Some(content))) == Entry(source, [], Some(content))
    ensures LoadEntry(Object(None, None, None)) == Entry("", [], None)
  {
  }

  /** Entries that are no objects are dropped, and the others kept under their names. */
  lemma IndexIsRead(doc: map<string, Json>, base: string)
    ensures base in LoadIndex(doc) <==> base in doc && doc[base] != NotAnObject
    ensures base in LoadIndex(doc) ==> LoadIndex(doc)[base] == LoadEntry(doc[base])
  {
  }

  function LoadIndex(doc: map<string, Json>): map<string, Entry> {
    map base | base in doc && doc[base].Object? :: LoadEntry(doc[base])
  }

  function SaveIndex(index: map<string, Entry>): map<string, Json> {
    map base | base in index :: SaveEntry(index[base])
  }

  // --------------------------------------------------------------------- one file

  /** A staged copy and its entry. */
  datatype Slot = Slot(copy: File, entry: Entry)

  datatype Staged = Staged(slot: Slot, changed: bool, ask: bool)

  /** What staging does with one declared config before anything is asked. */
  function StageSlot(s: Slot, src: File, copyFails: bool): Staged {
    var hash := NormHash(src);
    var seen := s.entry.seen;
    var copied := if copyFails || !src.Present? then Staged(s, false, false)
                  else Staged(Slot(src, Remember(s.entry, hash)), true, false);
    if s.copy.Absent? then copied
    else if s.entry.legacy.Some? && src == Present(s.entry.legacy.value) then
      Staged(s.(entry := Remember(s.entry, hash)), true, false)
    else if hash.None? || hash == NormHash(s.copy) then
      if hash.Some? && hash.value !in seen then Staged(s.(entry := Remember(s.entry, hash)), true, false)
      else Staged(s, false, false)
    else if NormHash(s.copy).Some? && NormHash(s.copy).value in seen then copied
    else Staged(s, false, hash.value !in seen)
  }

  /** What an answer does. Taking the repo's version overwrites even when no backup could be made. */
  function AnswerSlot(s: Slot, p: Pending, answer: Option<Answer>, copyFails: bool): Slot {
    match answer
    case Some(Take) =>
      if copyFails || !p.src.Present? then s else Slot(p.src, Remember(s.entry, Some(p.hash)))
    case Some(Keep) => s.(entry := Remember(s.entry, Some(p.hash)))
    case _ => s
  }

  // ------------------------------------------------------------------------ the prompt

  /** Read answers until one decides; None at the end of the input. */
  function ReadAnswer(input: seq<string>): (r: (Option<Answer>, seq<string>))
    ensures |r.1| <= |input| && (input != [] ==> |r.1| < |input|)
  {
    if input == [] then (None, [])
    else
      var ans := ToLower(Strip(input[0]));
      if ans == "" then (Some(Later), input[1..])
      else if ans == "o" then (Some(Take), input[1..])
      else if ans == "k" then (Some(Keep), input[1..])
      else ReadAnswer(input[1..])
  }

  /** The first line that is blank, "o" or "k", whatever the white space and the case, is the answer; there is
      none exactly when the input has no such line. */
  lemma {:induction false} FirstDecidingLine(input: seq<string>) returns (k: nat)
    ensures k <= |input|
    ensures forall j :: 0 <= j < k ==> ToLower(Strip(input[j])) !in ["", "o", "k"]
    ensures var (answer, rest) := ReadAnswer(input);
            if k == |input| then answer == None && rest == []
            else
              var ans := ToLower(Strip(input[k]));
              && ans in ["", "o", "k"] && rest == input[k + 1..] && answer.Some?
              && (answer == Some(Later) <==> ans == "") && (answer == Some(Take) <==> ans == "o")
              && (answer == Some(Keep) <==> ans == "k")
  {
    hide ToLower, Strip;
    k := 0;
    if input != [] {
      var ans := ToLower(Strip(input[0]));
      if ans !in ["", "o", "k"] {
        k := FirstDecidingLine(input[1..]);
        k := k + 1;
      }
    }
  }

  function Decision(line: string): seq<Answer> {
    var ans := ToLower(Strip(line));
    if ans == "" then [Later] else if ans == "o" then [Take] else if ans == "k" then [Keep] else []
  }

  /** What the lines of the input decide, in order. */
  function Decisions(input: seq<string>): seq<Answer> {
    if input == [] then [] else Decision(input[0]) + Decisions(input[1..])
  }

  /** A question takes the next line that decides. */
  lemma {:induction false} ReadAnswerDecides(input: seq<string>)
    ensures var (answer, rest) := ReadAnswer(input);
            && (answer.None? <==> Decisions(input) == []) && (answer.None? ==> rest == [])
            && (answer.Some? ==> Decisions(input) == [answer.value] + Decisions(rest))
  {
    hide ToLower, Strip;
    if input != [] {
      ReadAnswerDecides(input[1..]);
    }
  }

  /** The line at which a decision was made. */
  lemma {:induction false} DecidedBy(input: seq<string>, n: nat) returns (line: string)
    requires n < |Decisions(input)|
    ensures line in input
    ensures ToLower(Strip(line)) == match Decisions(input)[n] case Later => "" case Take => "o" case Keep => "k"
  {
    hide ToLower, Strip;
    if n < |Decision(input[0])| {
      line := input[0];
    } else {
      line := DecidedBy(input[1..], n - |Decision(input[0])|);
    }
  }

  // --------------------------------------------------------------------- the whole folder

  /** The user's copies, the backups taken, the record in memory, and the questions already put. */
  datatype Home = Home(copies: map<string, File>, backups: seq<(string, File)>, index: map<string, Entry>,
                       asked: set<(string, Digest)>)

  function CopyOf(h: Home, base: string): File {
    if base in h.copies then h.copies[base] else Absent
  }

  function EntryOf(h: Home, base: string): Entry {
    if base in h.index then h.index[base] else Entry("", [], None)
  }

  function SlotOf(h: Home, base: string): Slot {
    Slot(CopyOf(h, base), EntryOf(h, base))
  }

  function WithSlot(h: Home, base: string, s: Slot): Home {
    h.(copies := if s.copy == CopyOf(h, base) then h.copies else h.copies[base := s.copy],
       index := h.index[base := s.entry])
  }

  datatype Pass = Pass(home: Home, changed: bool, pending: seq<Pending>)

  /** One turn of the staging loop. */
  function StageOne(pass: Pass, cfg: Config, faults: Faults): Pass {
    if cfg.src.Absent? then pass
    else
      var s := SlotOf(pass.home, cfg.base);
      var r := StageSlot(s.(entry := s.entry.(source := cfg.path)), cfg.src, cfg.base in faults.copy);
      Pass(WithSlot(pass.home, cfg.base, r.slot), pass.changed || r.changed,
           pass.pending + if r.ask then [Pending(cfg.base, cfg.src, NormLines(cfg.src.content))] else [])
  }

  function StageAll(pass: Pass, configs: seq<Config>, faults: Faults): Pass {
    if configs == [] then pass
    else StageOne(StageAll(pass, configs[..|configs| - 1], faults), configs[|configs| - 1], faults)
  }

  datatype Asked = Asked(home: Home, changed: bool, input: seq<string>)

  /** The questions, one after another; the end of the input ends them all. */
  function AskAll(h: Home, changed: bool, pending: seq<Pending>, input: seq<string>, faults: Faults): Asked
    decreases |pending|
  {
    if pending == [] then Asked(h, changed, input)
    else
      var p := pending[0];
      if (p.base, p.hash) in h.asked then AskAll(h, changed, pending[1..], input, faults)
      else
        var h1 := h.(asked := h.asked + {(p.base, p.hash)});
        var (answer, rest) := ReadAnswer(input);
        if answer.None? then Asked(h1, changed, rest)
        else
          var copyFails := p.base in faults.copy;
          var s := SlotOf(h1, p.base);
          var h2 := if answer.value.Take? && p.base !in faults.backup
                    then h1.(backups := h1.backups + [(p.base, s.copy)]) else h1;
          var told := answer.value.Keep? || (answer.value.Take? && !copyFails && p.src.Present?);
          AskAll(WithSlot(h2, p.base, AnswerSlot(s, p, answer, copyFails)), changed || told, pending[1..], rest, faults)
  }

  /** One question after another is all of them. */
  lemma AskAllStep(h: Home, changed: bool, pending: seq<Pending>, input: seq<string>, faults: Faults)
    requires pending != [] && (pending[0].base, pending[0].hash) !in h.asked
    ensures var one := AskAll(h, false, [pending[0]], input, faults);
            AskAll(h, changed, pending, input, faults) ==
            if ReadAnswer(input).0.None? then Asked(one.home, changed, one.input)
            else AskAll(one.home, changed || one.changed, pending[1..], one.input, faults)
  {
    assert [pending[0]][1..] == [];
  }

  class AppHome {
    var home: Home
    /** .sources.json as it is on the disk. */
    var saved: map<string, Json>

    constructor (home: Home, saved: map<string, Json>)
      ensures this.home == home && this.saved == saved
    {
      this.home, this.saved := home, saved;
    }

    /** Record a version as settled: move it to the end, keep the last ten. */
    method RememberVersion(base: string, digest: Option<Digest>)
      modifies this`home
      ensures home == old(home).(index := old(home).index[base := Remember(EntryOf(old(home), base), digest)])
    {
      var e := EntryOf(home, base);
      if digest.Some? {
        var seen := e.seen;
        if digest.value in seen {
          seen := RemoveFirst(seen, digest.value);
        }
        seen := seen + [digest.value];
        if |seen| > SEEN_LIMIT {
          seen := seen[|seen| - SEEN_LIMIT..];
        }
        e := e.(seen := seen, legacy := None);
      }
      home := home.(index := home.index[base := e]);
    }

    method CopyOver(base: string, src: File, faults: Faults) returns (ok: bool)
      modifies this`home
      ensures ok <==> base !in faults.copy && src.Present?
      ensures home == if ok && src != CopyOf(old(home), base)
          then old(home).(copies := old(home).copies[base := src]) else old(home)
    {
      ok := base !in faults.copy && src.Present?;
      if ok && src != CopyOf(home, base) {
        home := home.(copies := home.copies[base := src]);
      }
    }

    method StageConfig(cfg: Config, faults: Faults) returns (changed: bool, ask: Option<Pending>)
      modifies this`home
      ensures Pass(home, changed, if ask.Some? then [ask.value] else []) ==
          StageOne(Pass(old(home), false, []), cfg, faults)
    {
      hide Remember, NormLines;
      changed, ask := false, None;
      var base, src := cfg.base, cfg.src;
      if src.Absent? {
        return;
      }
      var entry := EntryOf(home, base).(source := cfg.path);
      home := home.(index := home.index[base := entry]);
      var copy := CopyOf(home, base);
      var srcHash, dstHash := NormHash(src), NormHash(copy);
      if copy.Absent? {
        var ok := CopyOver(base, src, faults);
        if ok {
          RememberVersion(base, srcHash);
          changed := true;
        }
      } else {
        if entry.legacy.Some? && src == Present(entry.legacy.value) {
          RememberVersion(base, srcHash);
          changed := true;
        } else if srcHash.None? || srcHash == dstHash {
          if srcHash.Some? && srcHash.value !in entry.seen {
            RememberVersion(base, srcHash);
            changed := true;
          }
        } else if dstHash.Some? && dstHash.value in entry.seen {
          var ok := CopyOver(base, src, faults);
          if ok {
            RememberVersion(base, srcHash);
            changed := true;
          }
        } else if srcHash.value !in entry.seen {
          ask := Some(Pending(base, src, srcHash.value));
        }
      }
    }

    /** Put one question and act on the answer. `more` is false once the input has ended. */
    method AskOne(p: Pending, input: seq<string>, faults: Faults)
      returns (changed: bool, rest: seq<string>, more: bool)
      requires (p.base, p.hash) !in home.asked && p.base in home.index
      modifies this`home
      ensures more == ReadAnswer(input).0.Some? && rest == ReadAnswer(input).1
      ensures Asked(home, changed, rest) == AskAll(old(home), false, [p], input, faults)
    {
      changed, more, rest := false, true, input;
      home := home.(asked := home.asked + {(p.base, p.hash)});
      while true
        invariant ReadAnswer(rest) == ReadAnswer(input)
        decreases |rest|
      {
        if rest == [] {
          more := false;
          return;
        }
        var ans := ToLower(Strip(rest[0]));
        rest := rest[1..];
        assert home.index[p.base := home.index[p.base]] == home.index;
        if ans == "" {
          return;
        }
        if ans == "o" {
          if p.base !in faults.backup {
            home := home.(backups := home.backups + [(p.base, CopyOf(home, p.base))]);
          }
          var ok := CopyOver(p.base, p.src, faults);
          if ok {
            RememberVersion(p.base, Some(p.hash));
            changed := true;
          }
          return;
        }
        if ans == "k" {
          RememberVersion(p.base, Some(p.hash));
          changed := true;
          return;
        }
      }
    }

    /** Ask about the configs the user actually edited. True when the record changed. */
    method Ask(pending: seq<Pending>, input: seq<string>, faults: Faults) returns (changed: bool, rest: seq<string>)
      requires forall i :: 0 <= i < |pending| ==> pending[i].base in home.index
      modifies this`home
      ensures Asked(home, changed, rest) == AskAll(old(home), false, pending, input, faults)
    {
      changed, rest := false, input;
      for n := 0 to |pending|
        invariant AskAll(home, changed, pending[n..], rest, faults) == AskAll(old(home), false, pending, input, faults)
        invariant old(home).index.Keys <= home.index.Keys
      {
        var p := pending[n];
        assert pending[n..][0] == p && pending[n..][1..] == pending[n + 1..];
        if (p.base, p.hash) in home.asked {
          continue;
        }
        AskAllStep(home, changed, pending[n..], rest, faults);
        var told, more;
        told, rest, more := AskOne(p, rest, faults);
        if !more {
          return;
        }
        changed := changed || told;
      }
    }

    /** The staging loop. */
    method StageDeclared(configs: seq<Config>, faults: Faults) returns (changed: bool, pending: seq<Pending>)
      modifies this`home
      ensures Pass(home, changed, pending) == StageAll(Pass(old(home), false, []), configs, faults)
      ensures forall i :: 0 <= i < |pending| ==> pending[i].base in home.index
    {
      changed, pending := false, [];
      for n := 0 to |configs|
        invariant Pass(home, changed, pending) == StageAll(Pass(old(home), false, []), configs[..n], faults)
        invariant forall i :: 0 <= i < |pending| ==> pending[i].base in home.index
      {
        assert configs[..n + 1][..n] == configs[..n];
        var one, ask := StageConfig(configs[n], faults);
        changed := changed || one;
        if ask.Some? {
          pending := pending + [ask.value];
        }
      }
      assert configs[..|configs|] == configs;
    }

    /** Stage the configs that exist, ask about the edited ones when somebody is there to answer, and
        save the record if it changed. */
    method StageConfigs(configs: seq<Config>, interactive: bool, input: seq<string>, faults: Faults, saveFails: bool)
      returns (rest: seq<string>)
      modifies this
      ensures (home, saved, rest) == Launch(old(home), old(saved), configs, interactive, input, faults, saveFails)
    {
      rest := input;
      home := home.(index := LoadIndex(saved));
      var changed, pending := StageDeclared(configs, faults);
      if pending != [] && interactive {
        AskAllChanged(home, changed, pending, input, faults);
        var told;
        told, rest := Ask(pending, rest, faults);
        changed := changed || told;
      }
      if changed && !saveFails {
        saved := SaveIndex(home.index);
      }
    }
  }

  lemma {:induction false} AskAllChanged(h: Home, changed: bool, pending: seq<Pending>, input: seq<string>,
                        faults: Faults)
    ensures var all := AskAll(h, false, pending, input, faults);
            AskAll(h, changed, pending, input, faults) == all.(changed := changed || all.changed)
    decreases |pending|
  {
    if pending != [] {
      if (pending[0].base, pending[0].hash) in h.asked {
        AskAllChanged(h, changed, pending[1..], input, faults);
      } else {
        var one := AskAll(h, false, [pending[0]], input, faults);
        AskAllStep(h, false, pending, input, faults);
        AskAllStep(h, changed, pending, input, faults);
        AskAllChanged(one.home, one.changed, pending[1..], one.input, faults);
        AskAllChanged(one.home, changed || one.changed, pending[1..], one.input, faults);
      }
    }
  }

  /** A whole call of stage_configs: the folder, the saved record, and the input left over. */
  function Launch(h: Home, saved: map<string, Json>, configs: seq<Config>, interactive: bool, input: seq<string>,
                  faults: Faults, saveFails: bool): (Home, map<string, Json>, seq<string>)
  {
    var pass := StageAll(Pass(h.(index := LoadIndex(saved)), false, []), configs, faults);
    var done := if pass.pending != [] && interactive
                then AskAll(pass.home, pass.changed, pass.pending, input, faults)
                else Asked(pass.home, pass.changed, input);
    (done.home, if done.changed && !saveFails then SaveIndex(done.home.index) else saved, done.input)
  }
}
