/** What set_yaml_scalar and get_yaml_scalar promise about each other. */
module YamlLaws {
  import opened Common
  import opened Text
  import opened YamlLine
  import opened YamlScalar

  // ---------------------------------------------------------------- marks of edited lines

  /** A name is read off a line in one way only. */
  lemma NameIsUnique(a: string, b: string, s: string)
    requires Name(a) && Name(b) && AfterName(a, s).Some? && AfterName(b, s).Some?
    ensures a == b
  {
    if |a| < |b| {
      assert s[|a|] == b[|a|];
      NameStops(a, s);
    } else if |b| < |a| {
      assert s[|b|] == a[|b|];
      NameStops(b, s);
    } else {
      assert a == s[..|a|] && b == s[..|b|];
    }
  }

  lemma NameStops(name: string, s: string)
    requires AfterName(name, s).Some?
    ensures |name| < |s| && (IsSpace(s[|name|]) || s[|name|] == ':')
  {
    assert s[|name|..][0] == s[|name|];
  }

  /** An indented line is no header and leaves no section. */
  lemma IndentedLine(line: string, section: string)
    requires line != "" && IsSpace(line[0]) && Name(section)
    ensures !Header(section, line) && !Leaves(line)
  {
  }

  lemma HeaderLine(line: string, section: string, key: string)
    requires Name(section) && Header(section, line)
    ensures MatchKey(key, line).None? && Leaves(line)
  {
    assert !IsSpace(line[0]);
    assert LeadingSpace(line) == 0;
  }

  lemma OtherMarkOfHeader(line: string, section: string, other: string, key: string)
    requires Name(section) && Name(other) && Header(section, line) && section != other
    ensures MarkOf(other, key, line) == LeaveMark
  {
    HeaderLine(line, section, key);
    if Header(other, line) {
      NameIsUnique(section, other, line);
    }
  }

  /** A line that sets `key` is marked so in every section, and by no other key. */
  lemma MarkOfKeyLine(line: string, key: string, section: string, other: string)
    requires Name(key) && Name(other) && Name(section) && MatchKey(key, line).Some?
    ensures MarkOf(section, other, line) == if other == key then KeyMark else InnerMark
  {
    IndentedLine(line, section);
    if other != key && MatchKey(other, line).Some? {
      NameIsUnique(key, other, line[LeadingSpace(line)..]);
    }
  }

  /** Whatever value it carries, the line an edit writes sets its key. */
  lemma EditSetsKey(indent: string, key: string, value: string, trail: string)
    requires IsIndent(indent) && Name(key)
    ensures MatchKey(key, KeyText(indent, key, value, trail)).Some?
  {
    var tail := " " + (value + trail + "\n");
    var rest := key + ("" + (":" + tail));
    SkipGap(indent, rest);
    AfterNameIs(key, "", tail);
  }

  lemma EditIsLine(indent: string, key: string, value: string, trail: string)
    requires IsIndent(indent) && Name(key) && '\n' !in value && '\n' !in trail
    ensures IsLine(KeyText(indent, key, value, trail)) && Terminated(KeyText(indent, key, value, trail))
  {
    var most := indent + (key + ("" + (":" + (" " + (value + trail)))));
    assert KeyText(indent, key, value, trail) == most + "\n";
    assert '\n' !in most;
  }

  lemma {:induction false} CopiedIndentIsIndent(lines: seq<string>, n: nat)
    requires AreLines(lines) && n <= |lines|
    ensures IsIndent(IndentFrom(lines, n))
    decreases |lines| - n
  {
    if n < |lines| {
      var k := LeadingSpace(lines[n]);
      LeadingSpaceIs(lines[n][..k], k);
      CopiedIndentIsIndent(lines, n + 1);
    } else {
      LeadingSpaceIs("  ", 2);
    }
  }

  lemma TrailHasNoNewline(comment: string, trail: string)
    requires '\n' !in comment && IsTrail(trail)
    ensures IsTrail(TrailFor(comment, trail)) && '\n' !in TrailFor(comment, trail)
  {
    if comment != "" {
      var t := "   # " + comment;
      LeadingSpaceIs(t, 3);
    }
  }

  // ------------------------------------------------------------------- the edited lines

  /** What an edit does: rewrite one line, or insert one below the last header; nothing else moves. */
  datatype Edit = Rewrite(at: nat) | Insert(header: nat)

  function EditOf(lines: seq<string>, section: string, key: string): Option<Edit> {
    var ms := Marks(section, key, lines);
    match FindKey(ms, 0)
    case Some(i) => Some(Rewrite(i))
    case None => match LastHeader(ms, |ms|) case Some(h) => Some(Insert(h)) case None => None
  }

  function NewLine(lines: seq<string>, edit: Edit, key: string, value: string, comment: string): string
    requires if edit.Rewrite? then edit.at < |lines| && MatchKey(key, lines[edit.at]).Some? else edit.header < |lines|
  {
    match edit
    case Rewrite(i) =>
      var m := MatchKey(key, lines[i]).value;
      KeyText(m.indent, key, value, TrailFor(comment, m.trail))
    case Insert(h) => KeyText(IndentFrom(lines, h + 1), key, value, "")
  }

  /** A successful edit changes exactly one line, or inserts exactly one; it fails exactly when the
      section has no header. */
  lemma EditTouchesOneLine(lines: seq<string>, section: string, key: string, value: string, comment: string)
    ensures Edited(lines, section, key, value, comment).None? <==>
              forall i :: 0 <= i < |lines| ==> !Header(section, lines[i])
    ensures Edited(lines, section, key, value, comment).Some? ==>
              var edit := EditOf(lines, section, key).value;
              var lines' := Edited(lines, section, key, value, comment).value;
              match edit
              case Rewrite(i) =>
                && i < |lines| == |lines'| && MatchKey(key, lines[i]).Some?
                && lines' == lines[i := NewLine(lines, edit, key, value, comment)]
              case Insert(h) =>
                && h < |lines| && Header(section, lines[h])
                && lines' == Inserted(lines, h + 1, NewLine(lines, edit, key, value, comment))
  {
    hide MatchKey, KeyText, AfterName, InSection;
    var ms := Marks(section, key, lines);
    if FindKey(ms, 0).Some? {
      InsideMeansHeader(ms, FindKey(ms, 0).value);
    }
  }

  lemma {:induction false} InsideMeansHeader(ms: seq<Mark>, n: nat)
    requires n <= |ms| && InSection(ms, n)
    ensures exists i :: 0 <= i < n && ms[i].HeaderMark?
  {
    if !ms[n - 1].HeaderMark? {
      InsideMeansHeader(ms, n - 1);
    } else {
      assert ms[n - 1].HeaderMark?;
    }
  }

  /** What the line written says. */
  lemma EditWrites(lines: seq<string>, section: string, key: string, value: string, comment: string)
    requires EditOf(lines, section, key).Some?
    ensures var lines' := Edited(lines, section, key, value, comment).value;
            var edit := EditOf(lines, section, key).value;
            && (edit.Rewrite? ==>
                  var m := MatchKey(key, lines[edit.at]).value;
                  lines'[edit.at] ==
                    m.indent + key + ": " + value + (if comment != "" then "   # " + comment else m.trail) + "\n")
            && (edit.Insert? ==>
                  lines'[edit.header + 1] == IndentFrom(lines, edit.header + 1) + key + ": " + value + "\n")
  {
    hide MatchKey, Header, IndentFrom;
    EditTouchesOneLine(lines, section, key, value, comment);
    match EditOf(lines, section, key).value
    case Rewrite(i) =>
      var m := MatchKey(key, lines[i]).value;
      KeyTextIs(m.indent, key, value, if comment != "" then "   # " + comment else m.trail);
    case Insert(h) =>
      KeyTextIs(IndentFrom(lines, h + 1), key, value, "");
  }

  lemma KeyTextIs(indent: string, key: string, value: string, trail: string)
    ensures KeyText(indent, key, value, trail) == indent + key + ": " + value + trail + "\n"
  {
  }

  /** An insertion copies the indentation of the first indented line below the header, or takes two spaces. */
  lemma {:induction false} IndentIsCopied(lines: seq<string>, n: nat) returns (k: nat)
    requires n <= |lines|
    ensures n <= k <= |lines|
    ensures forall j :: n <= j < k ==> Blank(lines[j]) || !IsSpace(lines[j][0])
    ensures if k == |lines| then IndentFrom(lines, n) == "  "
            else !Blank(lines[k]) && IndentFrom(lines, n) <= lines[k] && Blank(IndentFrom(lines, n))
                 && IndentFrom(lines, n) != "" && !IsSpace(lines[k][|IndentFrom(lines, n)|])
    decreases |lines| - n
  {
    k := n;
    if n < |lines| {
      if !Blank(lines[n]) && IsSpace(lines[n][0]) {
        LeadingSpaceIs(lines[n][..LeadingSpace(lines[n])], LeadingSpace(lines[n]));
      } else {
        k := IndentIsCopied(lines, n + 1);
      }
    }
  }

  // -------------------------------------------------------------------- after an edit

  lemma MarksOfUpdate(section: string, key: string, lines: seq<string>, i: nat, line: string)
    requires i < |lines| && MarkOf(section, key, line) == MarkOf(section, key, lines[i])
    ensures Marks(section, key, lines[i := line]) == Marks(section, key, lines)
  {
  }

  lemma MarksOfInsertion(section: string, key: string, lines: seq<string>, p: nat, line: string)
    requires p <= |lines|
    ensures Marks(section, key, Inserted(lines, p, line))
         == Inserted(Marks(section, key, lines), p, MarkOf(section, key, line))
  {
    hide MarkOf;
  }

  /** The line an edit writes, and the line it rewrites, set the key and look alike to every scan. */
  lemma NewLineSetsKey(lines: seq<string>, section: string, key: string, value: string, comment: string)
    requires Name(section) && Name(key) && AreLines(lines) && EditOf(lines, section, key).Some?
    ensures MatchKey(key, NewLine(lines, EditOf(lines, section, key).value, key, value, comment)).Some?
    ensures '\n' !in value && '\n' !in comment ==>
              var line := NewLine(lines, EditOf(lines, section, key).value, key, value, comment);
              IsLine(line) && Terminated(line)
  {
    hide MatchKey, KeyText;
    match EditOf(lines, section, key).value
    case Rewrite(i) =>
      PartsOfKeyLine(key, lines[i]);
      var m := MatchKey(key, lines[i]).value;
      EditSetsKey(m.indent, key, value, TrailFor(comment, m.trail));
      if '\n' !in value && '\n' !in comment {
        TrailHasNoNewline(comment, m.trail);
        EditIsLine(m.indent, key, value, TrailFor(comment, m.trail));
      }
    case Insert(h) =>
      CopiedIndentIsIndent(lines, h + 1);
      EditSetsKey(IndentFrom(lines, h + 1), key, value, "");
      if '\n' !in value && '\n' !in comment {
        EditIsLine(IndentFrom(lines, h + 1), key, value, "");
      }
  }

  /** The edit reaches the section where a read looks for it: the scan has not left the section
      before the line written. */
  predicate WrittenWhereRead(lines: seq<string>, section: string, key: string) {
    var ms := Marks(section, key, lines);
    match EditOf(lines, section, key)
    case Some(Rewrite(i)) => !LeftBefore(ms, i)
    case Some(Insert(h)) => !LeftBefore(ms, h)
    case None => false
  }

  function At(edit: Edit): nat {
    match edit case Rewrite(i) => i case Insert(h) => h + 1
  }

  /** The scan of `lines'` finds line `at` first, and has left the section before it or not. */
  predicate FoundAt(lines: seq<string>, section: string, key: string, at: nat, left: bool) {
    var ms := Marks(section, key, lines);
    at < |lines| && FindKey(ms, 0) == Some(at) && LeftBefore(ms, at) == left
  }

  lemma RewriteIsFound(lines: seq<string>, section: string, key: string, i: nat, line: string)
    requires Name(section) && Name(key) && MatchKey(key, line).Some?
    requires FindKey(Marks(section, key, lines), 0) == Some(i)
    ensures FoundAt(lines[i := line], section, key, i, LeftBefore(Marks(section, key, lines), i))
  {
    MarkOfKeyLine(line, key, section, key);
    MarkOfKeyLine(lines[i], key, section, key);
    MarksOfUpdate(section, key, lines, i, line);
  }

  lemma InsertIsFound(lines: seq<string>, section: string, key: string, h: nat, line: string)
    requires Name(section) && Name(key) && MatchKey(key, line).Some?
    requires FindKey(Marks(section, key, lines), 0) == None && h < |lines| && Header(section, lines[h])
    ensures FoundAt(Inserted(lines, h + 1, line), section, key, h + 1, LeftBefore(Marks(section, key, lines), h))
  {
    hide MatchKey, FindKey, LeftBefore, InSection, Header, Inserted, Marks;
    MarkOfKeyLine(line, key, section, key);
    MarksOfInsertion(section, key, lines, h + 1, line);
    InsertedKeyIsFound(Marks(section, key, lines), h);
  }

  /** After an edit the scan for the same key finds the line written, and nothing before it. */
  lemma EditIsFound(lines: seq<string>, section: string, key: string, value: string, comment: string)
    requires Name(section) && Name(key) && AreLines(lines) && EditOf(lines, section, key).Some?
    ensures var edit := EditOf(lines, section, key).value;
            var lines' := Edited(lines, section, key, value, comment).value;
            && FoundAt(lines', section, key, At(edit), !WrittenWhereRead(lines, section, key))
            && lines'[At(edit)] == NewLine(lines, edit, key, value, comment)
  {
    hide MatchKey, KeyText, Header, FoundAt, LeftBefore, LastHeader;
    EditTouchesOneLine(lines, section, key, value, comment);
    NewLineSetsKey(lines, section, key, value, comment);
    var edit := EditOf(lines, section, key).value;
    var line := NewLine(lines, edit, key, value, comment);
    match edit
    case Rewrite(i) => RewriteIsFound(lines, section, key, i, line);
    case Insert(h) => InsertIsFound(lines, section, key, h, line);
  }

  lemma ReadAfterEdit(lines: seq<string>, section: string, key: string, value: string, comment: string)
    requires Name(section) && Name(key) && AreLines(lines) && EditOf(lines, section, key).Some?
    requires Clean(value) && '\n' !in comment
    ensures ReadLines(Edited(lines, section, key, value, comment).value, section, key)
         == if WrittenWhereRead(lines, section, key) then Some(value) else None
  {
    hide MatchKey, NewLine, FindKey, LeftBefore, Marks, Clean, ValueOf, WrittenWhereRead, Edited, AreLines;
    EditIsFound(lines, section, key, value, comment);
    NewLineIsRead(lines, section, key, value, comment);
  }

  /** The line an edit writes is read as the value. */
  lemma NewLineIsRead(lines: seq<string>, section: string, key: string, value: string, comment: string)
    requires Name(section) && Name(key) && AreLines(lines) && EditOf(lines, section, key).Some?
    requires Clean(value) && '\n' !in comment
    ensures var line := NewLine(lines, EditOf(lines, section, key).value, key, value, comment);
            MatchKey(key, line).Some? && ValueOf(MatchKey(key, line).value) == Some(value)
  {
    hide MatchKey, Clean, ValueOf, KeyText, FindKey, LastHeader;
    match EditOf(lines, section, key).value
    case Rewrite(i) =>
      PartsOfKeyLine(key, lines[i]);
      var m := MatchKey(key, lines[i]).value;
      TrailHasNoNewline(comment, m.trail);
      KeyTextRoundTrip(m.indent, key, value, TrailFor(comment, m.trail));
    case Insert(h) =>
      CopiedIndentIsIndent(lines, h + 1);
      KeyTextRoundTrip(IndentFrom(lines, h + 1), key, value, "");
  }

  // ------------------------------------------------------------------ on the file's text

  lemma Regroup(a: string, b: string, c: string)
    ensures a + (b + c) == a + b + c
  {
  }

  lemma {:induction false} JoinOfConcat(a: seq<string>, b: seq<string>)
    ensures Join(a + b) == Join(a) + Join(b)
  {
    if a == [] {
      assert a + b == b;
    } else {
      assert (a + b)[1..] == a[1..] + b;
      JoinOfConcat(a[1..], b);
      Regroup(a[0], Join(a[1..]), Join(b));
    }
  }

  /** The header an insertion goes below ends in a newline. */
  predicate HeaderEnds(lines: seq<string>, section: string, key: string) {
    match EditOf(lines, section, key)
    case Some(Insert(h)) => h < |lines| && Terminated(lines[h])
    case _ => true
  }

  /** The edit is the one made on `lines`. */
  predicate IsEditOf(lines: seq<string>, section: string, key: string, edit: Edit) {
    match edit
    case Rewrite(i) => i < |lines| && MatchKey(key, lines[i]).Some? && FindKey(Marks(section, key, lines), 0) == Some(i)
    case Insert(h) => h < |lines| && Header(section, lines[h]) && FindKey(Marks(section, key, lines), 0) == None
  }

  /** The lines read back after an edit that writes `line`. A header without a newline swallows the
      line inserted below it. */
  function ReadBack(lines: seq<string>, edit: Edit, line: string): seq<string>
    requires if edit.Rewrite? then edit.at < |lines| else edit.header < |lines|
  {
    match edit
    case Rewrite(i) => lines[i := line]
    case Insert(h) => if Terminated(lines[h]) then Inserted(lines, h + 1, line) else lines[h := lines[h] + line]
  }

  lemma SwallowedLine(lines: seq<string>, line: string)
    requires AreLines(lines) && lines != [] && !Terminated(lines[|lines| - 1]) && IsLine(line)
    ensures SplitLines(Join(Inserted(lines, |lines|, line))) == lines[|lines| - 1 := lines[|lines| - 1] + line]
  {
    var h := |lines| - 1;
    var merged := lines[h := lines[h] + line];
    assert Inserted(lines, |lines|, line) == lines[..h] + [lines[h], line];
    assert merged == lines[..h] + [lines[h] + line];
    JoinOfConcat(lines[..h], [lines[h], line]);
    JoinOfConcat(lines[..h], [lines[h] + line]);
    assert [lines[h], line][1..] == [line] && [line][1..] == [];
    assert Join([lines[h], line]) == lines[h] + (line + "");
    assert Join([lines[h] + line]) == lines[h] + line + "";
    assert Join(Inserted(lines, |lines|, line)) == Join(merged);
    JoinThenSplit(merged);
  }

  lemma LinesAfterInsertion(lines: seq<string>, p: nat, line: string)
    requires AreLines(lines) && 0 < p <= |lines| && Terminated(lines[p - 1]) && IsLine(line) && Terminated(line)
    ensures AreLines(Inserted(lines, p, line))
  {
  }

  lemma SplitAfterInsertion(lines: seq<string>, h: nat, line: string)
    requires AreLines(lines) && h < |lines| && IsLine(line) && Terminated(line)
    ensures SplitLines(Join(Inserted(lines, h + 1, line)))
         == if Terminated(lines[h]) then Inserted(lines, h + 1, line) else lines[h := lines[h] + line]
  {
    if Terminated(lines[h]) {
      LinesAfterInsertion(lines, h + 1, line);
      JoinThenSplit(Inserted(lines, h + 1, line));
    } else {
      SwallowedLine(lines, line);
    }
  }

  lemma SplitAfterRewrite(lines: seq<string>, i: nat, line: string)
    requires AreLines(lines) && i < |lines| && IsLine(line) && Terminated(line)
    ensures SplitLines(Join(lines[i := line])) == lines[i := line]
  {
    JoinThenSplit(lines[i := line]);
  }

  /** A successful set, seen as one edit of the lines and what is read back. */
  lemma SetAsEdit(text: string, section: string, key: string, value: string, comment: string)
    returns (lines: seq<string>, edit: Edit, line: string)
    requires Name(section) && Name(key) && '\n' !in value && '\n' !in comment
    requires Set(text, section, key, value, comment).Some?
    ensures lines == SplitLines(text) && AreLines(lines)
    ensures EditOf(lines, section, key) == Some(edit) && IsEditOf(lines, section, key, edit)
    ensures line == NewLine(lines, edit, key, value, comment) && MatchKey(key, line).Some?
    ensures SplitLines(Set(text, section, key, value, comment).value) == ReadBack(lines, edit, line)
  {
    SplitGivesLines(text);
    lines := SplitLines(text);
    edit := EditOf(lines, section, key).value;
    EditTouchesOneLine(lines, section, key, value, comment);
    NewLineSetsKey(lines, section, key, value, comment);
    line := NewLine(lines, edit, key, value, comment);
    match edit
    case Rewrite(i) => SplitAfterRewrite(lines, i, line);
    case Insert(h) => SplitAfterInsertion(lines, h, line);
  }

  lemma SwallowingHeader(line: string, more: string, section: string)
    requires Name(section) && Header(section, line)
    ensures Header(section, line + more)
  {
    var k := LeadingSpace(line[|section|..]);
    assert (line + more)[|section|..] == line[|section|..] + more;
    LeadingSpaceIs(line[|section|..] + more, k);
  }

  /** Whatever follows on a header line, every scan sees the same. */
  lemma SwallowingKeepsMark(line: string, more: string, section: string, other: string, key: string)
    requires Name(section) && Name(other) && Header(section, line)
    ensures MarkOf(other, key, line + more) == MarkOf(other, key, line)
  {
    SwallowingHeader(line, more, section);
    if other != section {
      OtherMarkOfHeader(line, section, other, key);
      OtherMarkOfHeader(line + more, section, other, key);
    }
  }

  lemma ReadValueIsClean(text: string, section: string, key: string)
    requires Get(text, section, key).Some?
    ensures Clean(Get(text, section, key).value)
  {
    SplitGivesLines(text);
    var lines := SplitLines(text);
    ReadValuesAreClean(key, lines[FindKey(Marks(section, key, lines), 0).value]);
  }

  /** Setting and reading back. The value comes back exactly when it is one a line can carry, when the
      line is written before the section is first left, and when an insertion finds its header
      ended by a newline. */
  lemma SetThenGet(text: string, section: string, key: string, value: string, comment: string)
    requires Name(section) && Name(key) && '\n' !in comment
    requires Set(text, section, key, value, comment).Some?
    ensures var lines := SplitLines(text);
            Get(Set(text, section, key, value, comment).value, section, key) == Some(value) <==>
              Clean(value) && WrittenWhereRead(lines, section, key) && HeaderEnds(lines, section, key)
  {
    var text' := Set(text, section, key, value, comment).value;
    if Get(text', section, key).Some? {
      ReadValueIsClean(text', section, key);
    }
    if Clean(value) {
      SetThenGetClean(text, section, key, value, comment);
    }
  }

  lemma SetThenGetClean(text: string, section: string, key: string, value: string, comment: string)
    requires Name(section) && Name(key) && '\n' !in comment && Clean(value)
    requires Set(text, section, key, value, comment).Some?
    ensures Get(Set(text, section, key, value, comment).value, section, key) ==
            if WrittenWhereRead(SplitLines(text), section, key) && HeaderEnds(SplitLines(text), section, key)
            then Some(value) else None
  {
    var lines, edit, line := SetAsEdit(text, section, key, value, comment);
    ReadAfterEdit(lines, section, key, value, comment);
    EditTouchesOneLine(lines, section, key, value, comment);
    if !HeaderEnds(lines, section, key) {
      var h := edit.header;
      SwallowingKeepsMark(lines[h], line, section, section, key);
      MarksOfUpdate(section, key, lines, h, lines[h] + line);
    }
  }

  /** A section, another one, the first again, and a key. */
  predicate Repeats(lines: seq<string>, section: string, other: string, key: string) {
    && |lines| == 4 && Header(section, lines[0]) && Header(other, lines[1]) && Header(section, lines[2])
    && MatchKey(key, lines[3]).Some?
  }

  lemma ScanOfRepeated(ms: seq<Mark>)
    requires |ms| == 4 && ms[0].HeaderMark? && ms[1].LeaveMark? && ms[2].HeaderMark? && ms[3].KeyMark?
    ensures FindKey(ms, 0) == Some(3) && LeftBefore(ms, 3)
  {
    assert InSection(ms, 1) && LeftBefore(ms, 2) && InSection(ms, 3);
    FirstHitIsFound(ms, Some(3));
  }

  /** A set that succeeds, and whose value is not read back: the read stops where the section is first left. */
  lemma RepeatedSectionIsNotRead(text: string, section: string, other: string, key: string, value: string)
    requires Name(section) && Name(other) && section != other && Name(key) && Clean(value)
    requires Repeats(SplitLines(text), section, other, key)
    ensures Set(text, section, key, value, "").Some?
    ensures Get(Set(text, section, key, value, "").value, section, key) == None
  {
    var lines := SplitLines(text);
    OtherMarkOfHeader(lines[1], other, section, key);
    MarkOfKeyLine(lines[3], key, section, key);
    ScanOfRepeated(Marks(section, key, lines));
    SetThenGetClean(text, section, key, value, "");
  }

  /** Such a file: "a:", "b:", "a:" again, and then key "k". */
  const REPEATED: string := "a:\nb:\na:\n  k: 1\n"

  lemma SplitOff(line: string, rest: string)
    requires IsLine(line) && Terminated(line)
    ensures SplitLines(line + rest) == [line] + SplitLines(rest)
  {
    FirstLineIs(line, rest);
    assert (line + rest)[|line|..] == rest;
  }

  lemma ShortLine(c: char)
    requires c != '\n'
    ensures IsLine([c, ':', '\n']) && Terminated([c, ':', '\n'])
  {
  }

  lemma HeaderOf(c: char)
    requires !IsSpace(c) && c != ':'
    ensures Name([c]) && Header([c], [c, ':', '\n'])
  {
    AfterNameIs([c], "", "\n");
    assert [c, ':', '\n'] == [c] + ("" + (":" + "\n"));
  }

  lemma KeyOf()
    ensures MatchKey("k", "  k: 1\n").Some? && IsLine("  k: 1\n") && Terminated("  k: 1\n")
  {
    hide MatchKey, IsGap, LeadingSpace, AfterName;
    KeyIndent();
    EditSetsKey("  ", "k", "1", "");
    assert KeyText("  ", "k", "1", "") == "  k: 1\n";
  }

  lemma KeyIndent()
    ensures IsIndent("  ")
  {
    LeadingSpaceIs("  ", 2);
  }

  lemma RepeatedLines()
    ensures SplitLines(REPEATED) == ["a:\n", "b:\n", "a:\n", "  k: 1\n"]
  {
    hide SplitLines, IsLine, Terminated, MatchKey;
    assert REPEATED == "a:\n" + ("b:\n" + ("a:\n" + ("  k: 1\n" + "")));
    ShortLine('a');
    ShortLine('b');
    KeyOf();
    SplitOff("a:\n", "b:\n" + ("a:\n" + ("  k: 1\n" + "")));
    SplitOff("b:\n", "a:\n" + ("  k: 1\n" + ""));
    SplitOff("a:\n", "  k: 1\n" + "");
    SplitOff("  k: 1\n", "");
    NoLines();
  }

  lemma NoLines()
    ensures SplitLines("") == []
  {
  }

  lemma RepeatedIsNotRead(value: string)
    requires Clean(value)
    ensures Set(REPEATED, "a", "k", value, "").Some? && Get(Set(REPEATED, "a", "k", value, "").value, "a", "k") == None
  {
    hide SplitLines, Header, MatchKey, Set, Get, Clean, REPEATED;
    RepeatedLines();
    HeaderOf('a');
    HeaderOf('b');
    HeaderOf('k');
    KeyOf();
    RepeatedSectionIsNotRead(REPEATED, "a", "b", "k", value);
  }

  /** A file that is one header and nothing else. */
  lemma HeaderAlone(end: string)
    requires end == "" || end == "\n"
    ensures var text := "s:" + end;
            SplitLines(text) == [text] && EditOf([text], "s", "k") == Some(Insert(0)) && IsLine(text)
    ensures Terminated("s:" + end) <==> end == "\n"
  {
    hide SplitLines, Header, EditOf;
    var text := "s:" + end;
    OneLineText(text);
    HeaderIs("s", end);
    assert text == "s" + (":" + end);
    HeaderOnly(text);
  }

  lemma HeaderIs(section: string, end: string)
    ensures Header(section, section + (":" + end))
  {
    AfterNameIs(section, "", end);
    assert "" + (":" + end) == ":" + end;
  }

  lemma OneLineText(line: string)
    requires IsLine(line)
    ensures SplitLines(line) == [line]
  {
    assert Join([line][1..]) == "";
    assert Join([line]) == line;
    JoinThenSplit([line]);
  }

  lemma HeaderOnly(line: string)
    requires Header("s", line)
    ensures EditOf([line], "s", "k") == Some(Insert(0))
  {
    hide Header;
    var ms := Marks("s", "k", [line]);
    assert ms == [HeaderMark];
    FirstHitIsFound(ms, None);
  }

  /** The same for a file that ends in the header, without a newline. */
  lemma UnterminatedHeaderSwallows(value: string)
    requires Clean(value)
    ensures Set("s:", "s", "k", value, "").Some?
    ensures Get(Set("s:", "s", "k", value, "").value, "s", "k") == None
  {
    HeaderAlone("");
    assert "s:" + "" == "s:";
    hide Clean, FindKey, SplitLines, Join, MatchKey, KeyText;
    SetThenGetClean("s:", "s", "k", value, "");
  }

  // ------------------------------------------------------------ the usual file: one header

  lemma {:induction false} NeverLeftInside(ms: seq<Mark>, h: nat, n: nat)
    requires h < |ms| && n <= |ms| && (forall j :: 0 <= j < |ms| && ms[j].HeaderMark? ==> j == h)
    ensures n <= h ==> !InSection(ms, n) && !LeftBefore(ms, n)
    ensures InSection(ms, n) ==> !LeftBefore(ms, n)
  {
    if n > 0 {
      NeverLeftInside(ms, h, n - 1);
    }
  }

  /** With one header for the section, ended by a newline, every clean value can be set and read back,
      whether its key was there or not. */
  lemma SetThenGetOneHeader(text: string, section: string, key: string, value: string, comment: string, h: nat)
    requires Name(section) && Name(key) && Clean(value) && '\n' !in comment
    requires h < |SplitLines(text)| && Terminated(SplitLines(text)[h])
    requires forall i :: 0 <= i < |SplitLines(text)| ==> (Header(section, SplitLines(text)[i]) <==> i == h)
    ensures Set(text, section, key, value, comment).Some?
    ensures Get(Set(text, section, key, value, comment).value, section, key) == Some(value)
  {
    var lines := SplitLines(text);
    EditTouchesOneLine(lines, section, key, value, comment);
    OneHeaderIsWhereRead(lines, section, key, h);
    SetThenGetClean(text, section, key, value, comment);
  }

  lemma OneHeaderIsWhereRead(lines: seq<string>, section: string, key: string, h: nat)
    requires h < |lines| && Terminated(lines[h])
    requires forall i :: 0 <= i < |lines| ==> (Header(section, lines[i]) <==> i == h)
    ensures WrittenWhereRead(lines, section, key) && HeaderEnds(lines, section, key)
  {
    var ms := Marks(section, key, lines);
    assert ms[h].HeaderMark?;
    var r := FindKey(ms, 0);
    NeverLeftInside(ms, h, if r.Some? then r.value else h);
  }

  // ------------------------------------------------------------- every other setting

  /** While the scan is inside one section it is outside every other. */
  lemma {:induction false} InsideOneSection(lines: seq<string>, section: string, key: string, other: string,
                        otherKey: string, n: nat)
    requires Name(section) && Name(other) && section != other && n <= |lines|
    requires InSection(Marks(section, key, lines), n)
    ensures !InSection(Marks(other, otherKey, lines), n)
  {
    var line := lines[n - 1];
    if Header(section, line) {
      OtherMarkOfHeader(line, section, other, otherKey);
    } else {
      InsideOneSection(lines, section, key, other, otherKey, n - 1);
      if Header(other, line) {
        OtherMarkOfHeader(line, other, section, key);
      }
    }
  }

  lemma SameMarksSameReading(lines: seq<string>, lines': seq<string>, section: string, key: string)
    requires |lines| == |lines'| && Marks(section, key, lines) == Marks(section, key, lines')
    requires var r := FindKey(Marks(section, key, lines), 0); r.Some? ==> lines'[r.value] == lines[r.value]
    ensures ReadLines(lines', section, key) == ReadLines(lines, section, key)
  {
  }

  lemma NotFoundByOthers(lines: seq<string>, section: string, key: string, i: nat, other: string, otherKey: string)
    requires Name(section) && Name(key) && Name(other) && Name(otherKey) && (other != section || otherKey != key)
    requires FindKey(Marks(section, key, lines), 0) == Some(i)
    ensures FindKey(Marks(other, otherKey, lines), 0) != Some(i)
  {
    MarkOfKeyLine(lines[i], key, other, otherKey);
    if other != section {
      InsideOneSection(lines, section, key, other, otherKey, i);
    }
  }

  lemma OthersAfterRewrite(lines: seq<string>, section: string, key: string, i: nat, line: string,
                        other: string, otherKey: string)
    requires Name(section) && Name(key) && Name(other) && Name(otherKey) && (other != section || otherKey != key)
    requires FindKey(Marks(section, key, lines), 0) == Some(i) && MatchKey(key, line).Some?
    ensures ReadLines(lines[i := line], other, otherKey) == ReadLines(lines, other, otherKey)
  {
    hide MatchKey, ReadLines, FindKey, Header;
    MarkOfKeyLine(line, key, other, otherKey);
    MarkOfKeyLine(lines[i], key, other, otherKey);
    MarksOfUpdate(other, otherKey, lines, i, line);
    NotFoundByOthers(lines, section, key, i, other, otherKey);
    SameMarksSameReading(lines, lines[i := line], other, otherKey);
  }

  /** A reading depends on the line found, and on whether the section was left before it. */
  lemma SameFindSameReading(lines: seq<string>, lines': seq<string>, section: string, key: string, i: nat, i': nat)
    requires FindKey(Marks(section, key, lines), 0) == Some(i) && FindKey(Marks(section, key, lines'), 0) == Some(i')
    requires i < |lines| && i' < |lines'| && lines[i] == lines'[i']
    requires LeftBefore(Marks(section, key, lines), i) == LeftBefore(Marks(section, key, lines'), i')
    ensures ReadLines(lines, section, key) == ReadLines(lines', section, key)
  {
  }

  lemma MovedReading(lines: seq<string>, p: nat, line: string, section: string, key: string)
    requires p <= |lines|
    requires var m := MarkOf(section, key, line);
             m.InnerMark? || (m.KeyMark? && !InSection(Marks(section, key, lines), p))
    ensures ReadLines(Inserted(lines, p, line), section, key) == ReadLines(lines, section, key)
  {
    hide MatchKey, MarkOf, FindKey, LeftBefore, InSection, Marks, Inserted, Hits;
    var ms, m := Marks(section, key, lines), MarkOf(section, key, line);
    MarksOfInsertion(section, key, lines, p, line);
    OtherKeyIsFound(ms, p, m);
    var r := FindKey(ms, 0);
    if r.Some? {
      HitsAfterInsertion(ms, p, m, r.value);
      SameFindSameReading(lines, Inserted(lines, p, line), section, key, r.value, Moved(r.value, p));
    }
  }

  lemma OthersAfterInsertion(lines: seq<string>, section: string, key: string, h: nat, line: string,
                        other: string, otherKey: string)
    requires Name(section) && Name(key) && Name(other) && Name(otherKey) && (other != section || otherKey != key)
    requires h < |lines| && Header(section, lines[h]) && MatchKey(key, line).Some?
    ensures ReadLines(Inserted(lines, h + 1, line), other, otherKey) == ReadLines(lines, other, otherKey)
  {
    MarkOfKeyLine(line, key, other, otherKey);
    if other != section {
      OtherMarkOfHeader(lines[h], section, other, otherKey);
    }
    MovedReading(lines, h + 1, line, other, otherKey);
  }

  /** An edit leaves every other setting of the file reading the same. */
  lemma OthersAreUndisturbed(text: string, section: string, key: string, value: string, comment: string,
                        other: string, otherKey: string)
    requires Name(section) && Name(key) && Name(other) && Name(otherKey) && (other != section || otherKey != key)
    requires '\n' !in value && '\n' !in comment
    requires Set(text, section, key, value, comment).Some?
    ensures Get(Set(text, section, key, value, comment).value, other, otherKey) == Get(text, other, otherKey)
  {
    hide MatchKey, KeyText, Header, ReadLines, Set, EditOf;
    var lines, edit, line := SetAsEdit(text, section, key, value, comment);
    match edit
    case Rewrite(i) => OthersAfterRewrite(lines, section, key, i, line, other, otherKey);
    case Insert(h) =>
      if Terminated(lines[h]) {
        OthersAfterInsertion(lines, section, key, h, line, other, otherKey);
      } else {
        OthersAfterSwallowing(lines, section, h, line, other, otherKey);
      }
  }

  lemma OthersAfterSwallowing(lines: seq<string>, section: string, h: nat, line: string, other: string,
                        otherKey: string)
    requires Name(section) && Name(other) && Name(otherKey) && h < |lines| && Header(section, lines[h])
    ensures ReadLines(lines[h := lines[h] + line], other, otherKey) == ReadLines(lines, other, otherKey)
  {
    SwallowingKeepsMark(lines[h], line, section, other, otherKey);
    MarksOfUpdate(other, otherKey, lines, h, lines[h] + line);
    HeaderLine(lines[h], section, otherKey);
    SameMarksSameReading(lines, lines[h := lines[h] + line], other, otherKey);
  }

  // --------------------------------------------------------------- comments, and doing it twice

  /** A rewrite keeps the indentation, and the trailing comment unless a new one is given. */
  lemma RewriteKeepsComment(lines: seq<string>, section: string, key: string, value: string, comment: string)
    requires Name(section) && Name(key) && AreLines(lines) && Clean(value) && '\n' !in comment
    requires EditOf(lines, section, key).Some? && EditOf(lines, section, key).value.Rewrite?
    ensures var i := EditOf(lines, section, key).value.at;
            MatchKey(key, Edited(lines, section, key, value, comment).value[i]) ==
            Some(KeyLine(MatchKey(key, lines[i]).value.indent, value,
                         TrailFor(comment, MatchKey(key, lines[i]).value.trail)))
  {
    var i := EditOf(lines, section, key).value.at;
    PartsOfKeyLine(key, lines[i]);
    var m := MatchKey(key, lines[i]).value;
    TrailHasNoNewline(comment, m.trail);
    KeyTextRoundTrip(m.indent, key, value, TrailFor(comment, m.trail));
  }

  /** A read gives a comment for a value exactly when, on the line it finds, the comment comes first after
      the colon. */
  lemma GetReadsACommentExactly(text: string, section: string, key: string)
    ensures var lines := SplitLines(text); var v := Get(text, section, key);
            var r := FindKey(Marks(section, key, lines), 0);
            v.Some? && StartsWithHash(v.value) <==>
              r.Some? && !LeftBefore(Marks(section, key, lines), r.value) && StartsWithHash(TextOf(key, lines[r.value]))
  {
    SplitGivesLines(text);
    ReadLinesACommentExactly(SplitLines(text), section, key);
  }

  lemma ReadLinesACommentExactly(lines: seq<string>, section: string, key: string)
    requires AreLines(lines)
    ensures var r := FindKey(Marks(section, key, lines), 0); var v := ReadLines(lines, section, key);
            v.Some? && StartsWithHash(v.value) <==>
              r.Some? && !LeftBefore(Marks(section, key, lines), r.value) && StartsWithHash(TextOf(key, lines[r.value]))
  {
    hide *;
    var r := FindKey(Marks(section, key, lines), 0);
    ReadsWhatItFinds(lines, section, key);
    if r.Some? {
      CommentIsReadExactlyWhenFirst(key, lines[r.value]);
    }
  }

  lemma ReadsWhatItFinds(lines: seq<string>, section: string, key: string)
    requires AreLines(lines)
    ensures var r := FindKey(Marks(section, key, lines), 0);
            if r.None? then ReadLines(lines, section, key) == None
            else
              && IsLine(lines[r.value]) && MatchKey(key, lines[r.value]).Some?
              && ReadLines(lines, section, key) ==
                 if LeftBefore(Marks(section, key, lines), r.value) then None
                 else ValueOf(MatchKey(key, lines[r.value]).value)
  {
    hide MatchKey, IsLine, ValueOf, FindKey, LeftBefore;
  }

  /** The trailing comment of the new line is the comment the old one had. */
  predicate KeepsComment(key: string, before: string, after: string) {
    && MatchKey(key, before).Some? && MatchKey(key, after).Some?
    && SkipSpace(MatchKey(key, after).value.trail) == CommentOf(key, before)
  }

  /** A rewrite that is given no comment keeps the line's own exactly when it is not the first thing after
      the colon; then it goes with the value it was taken for. */
  lemma RewriteKeepsCommentUnlessFirst(lines: seq<string>, section: string, key: string, value: string)
    requires Name(section) && Name(key) && AreLines(lines) && Clean(value)
    requires EditOf(lines, section, key).Some? && EditOf(lines, section, key).value.Rewrite?
    ensures var i := EditOf(lines, section, key).value.at;
            KeepsComment(key, lines[i], Edited(lines, section, key, value, "").value[i]) <==>
              !StartsWithHash(TextOf(key, lines[i]))
  {
    var i := EditOf(lines, section, key).value.at;
    RewriteKeepsComment(lines, section, key, value, "");
    hide TextOf, CommentOf, MatchKey, KeyText, SkipSpace, Clean;
    TrailIsCommentUnlessFirst(key, lines[i]);
  }

  /** A rewrite that is given a comment leaves that as the line's comment exactly when the value does not start
      with '#'. */
  lemma RewriteWritesComment(lines: seq<string>, section: string, key: string, value: string, comment: string)
    requires Name(section) && Name(key) && AreLines(lines) && Clean(value) && comment != "" && '\n' !in comment
    requires EditOf(lines, section, key).Some? && EditOf(lines, section, key).value.Rewrite?
    ensures var i := EditOf(lines, section, key).value.at;
            var after := Edited(lines, section, key, value, comment).value[i];
            MatchKey(key, after).Some? && (CommentOf(key, after) == "# " + comment <==> value[0] != '#')
  {
    var i := EditOf(lines, section, key).value.at;
    RewriteKeepsComment(lines, section, key, value, comment);
    NewLineSetsKey(lines, section, key, value, comment);
    EditTouchesOneLine(lines, section, key, value, comment);
    hide MatchKey, KeyText, Clean, AreLines;
    CommentBehind(key, Edited(lines, section, key, value, comment).value[i], value, comment);
  }

  lemma CommentBehind(key: string, line: string, value: string, comment: string)
    requires IsLine(line) && value != ""
    requires MatchKey(key, line).Some? && MatchKey(key, line).value.raw == value
    requires MatchKey(key, line).value.trail == "   # " + comment
    ensures CommentOf(key, line) == "# " + comment <==> value[0] != '#'
  {
    hide HashAt, AfterName, CommentOf, TextOf, MatchKey, IsLine, SkipSpace;
    TrailIsCommentUnlessFirst(key, line);
    ValueStartsText(key, line);
    SkipToHash(comment);
  }

  lemma ValueStartsText(key: string, line: string)
    requires MatchKey(key, line).Some? && MatchKey(key, line).value.raw != ""
    ensures TextOf(key, line) != "" && TextOf(key, line)[0] == MatchKey(key, line).value.raw[0]
  {
    hide HashAt, AfterName, LeadingSpace, WithoutNewline, SkipSpace;
    var body := TextOf(key, line);
    assert MatchKey(key, line).value.raw == body[..CommentAt(body)];
  }

  lemma SkipToHash(comment: string)
    ensures SkipSpace("   # " + comment) == "# " + comment
  {
    LeadingSpaceIs("   # " + comment, 3);
  }

  /** `line` is printed and matched as these parts. */
  predicate PrintsAs(line: string, indent: string, key: string, value: string, trail: string) {
    line == KeyText(indent, key, value, trail) && MatchKey(key, line) == Some(KeyLine(indent, value, trail))
  }

  lemma RewrittenLine(lines: seq<string>, key: string, i: nat, value: string, comment: string)
    requires Name(key) && AreLines(lines) && Clean(value) && '\n' !in comment
    requires i < |lines| && MatchKey(key, lines[i]).Some?
    ensures var m := MatchKey(key, lines[i]).value;
            PrintsAs(NewLine(lines, Rewrite(i), key, value, comment), m.indent, key, value, TrailFor(comment, m.trail))
  {
    PartsOfKeyLine(key, lines[i]);
    var m := MatchKey(key, lines[i]).value;
    TrailHasNoNewline(comment, m.trail);
    KeyTextRoundTrip(m.indent, key, value, TrailFor(comment, m.trail));
  }

  lemma InsertedLine(lines: seq<string>, key: string, h: nat, value: string, comment: string)
    requires Name(key) && AreLines(lines) && Clean(value) && h < |lines|
    ensures PrintsAs(NewLine(lines, Insert(h), key, value, comment), IndentFrom(lines, h + 1), key, value, "")
  {
    hide MatchKey, KeyText, Clean;
    CopiedIndentIsIndent(lines, h + 1);
    KeyTextRoundTrip(IndentFrom(lines, h + 1), key, value, "");
  }

  /** A key line met again is rewritten to itself exactly when it already has the comment asked for. */
  lemma RewriteAgain(lines: seq<string>, section: string, key: string, i: nat, indent: string, trail: string,
                     value: string, comment: string)
    requires i < |lines| && PrintsAs(lines[i], indent, key, value, trail)
    requires FindKey(Marks(section, key, lines), 0) == Some(i)
    ensures Edited(lines, section, key, value, comment) == Some(lines) <==> TrailFor(comment, trail) == trail
  {
    var again := KeyText(indent, key, value, TrailFor(comment, trail));
    assert Edited(lines, section, key, value, comment) == Some(lines[i := again]);
    if again == lines[i] {
      KeyTextDecidesTrail(indent, key, value, trail, TrailFor(comment, trail));
      assert lines[i := again] == lines;
    } else {
      assert lines[i := again][i] != lines[i];
    }
  }

  lemma KeyTextDecidesTrail(indent: string, key: string, value: string, a: string, b: string)
    requires KeyText(indent, key, value, a) == KeyText(indent, key, value, b)
    ensures a == b
  {
    var n := |indent| + |key| + |value| + 2;
    assert KeyText(indent, key, value, a)[n..] == a + "\n";
    assert KeyText(indent, key, value, b)[n..] == b + "\n";
    assert a == (a + "\n")[..|a|] && b == (b + "\n")[..|b|];
  }

  lemma SetIsItself(text: string, section: string, key: string, value: string, comment: string)
    requires Name(section) && Name(key) && '\n' !in value && '\n' !in comment
        && HeaderEnds(SplitLines(text), section, key)
    ensures Set(text, section, key, value, comment) == Some(text) <==>
            Edited(SplitLines(text), section, key, value, comment) == Some(SplitLines(text))
  {
    SplitGivesLines(text);
    if Set(text, section, key, value, comment).Some? {
      var lines, edit, line := SetAsEdit(text, section, key, value, comment);
      EditTouchesOneLine(lines, section, key, value, comment);
    }
  }

  lemma SetTwiceAfterRewrite(text: string, section: string, key: string, value: string, comment: string)
    requires Name(section) && Name(key) && Clean(value) && '\n' !in comment
    requires Set(text, section, key, value, comment).Some?
    requires EditOf(SplitLines(text), section, key).value.Rewrite?
    ensures var once := Set(text, section, key, value, comment).value;
            Set(once, section, key, value, comment) == Some(once)
  {
    var lines, edit, line := SetAsEdit(text, section, key, value, comment);
    var i, lines' := edit.at, lines[edit.at := line];
    RewriteIsFound(lines, section, key, i, line);
    RewrittenLine(lines, key, i, value, comment);
    var m := MatchKey(key, lines[i]).value;
    RewriteAgain(lines', section, key, i, m.indent, TrailFor(comment, m.trail), value, comment);
    SetIsItself(Set(text, section, key, value, comment).value, section, key, value, comment);
  }

  lemma SetTwiceAfterInsertion(text: string, section: string, key: string, value: string, comment: string)
    requires Name(section) && Name(key) && Clean(value) && '\n' !in comment
    requires Set(text, section, key, value, comment).Some?
    requires EditOf(SplitLines(text), section, key).value.Insert? && HeaderEnds(SplitLines(text), section, key)
    ensures var once := Set(text, section, key, value, comment).value;
            Set(once, section, key, value, comment) == Some(once) <==> comment == ""
  {
    var lines, edit, line := SetAsEdit(text, section, key, value, comment);
    var h, lines' := edit.header, Inserted(lines, edit.header + 1, line);
    InsertIsFound(lines, section, key, h, line);
    InsertedLine(lines, key, h, value, comment);
    RewriteAgain(lines', section, key, h + 1, IndentFrom(lines, h + 1), "", value, comment);
    SetIsItself(Set(text, section, key, value, comment).value, section, key, value, comment);
  }

  lemma SetTwiceAfterSwallowing(text: string, section: string, key: string, value: string, comment: string)
    requires Name(section) && Name(key) && Clean(value) && '\n' !in comment
    requires Set(text, section, key, value, comment).Some? && !HeaderEnds(SplitLines(text), section, key)
    ensures var once := Set(text, section, key, value, comment).value;
            Set(once, section, key, value, comment) != Some(once)
  {
    hide MatchKey, KeyText, AfterName;
    var lines, edit, line := SetAsEdit(text, section, key, value, comment);
    NewLineSetsKey(lines, section, key, value, comment);
    var h := edit.header;
    var lines' := lines[h := lines[h] + line];
    SwallowingKeepsMark(lines[h], line, section, section, key);
    MarksOfUpdate(section, key, lines, h, lines[h] + line);
    EditTouchesOneLine(lines', section, key, value, comment);
    assert EditOf(lines', section, key) == Some(edit);
    assert Terminated(lines'[h]);
    SetIsItself(Set(text, section, key, value, comment).value, section, key, value, comment);
  }

  /** Setting twice is setting once, unless the key had to be inserted: an insertion ignores the
      comment it is given, so a second set adds it; and below a header without a newline the second
      set does not find what the first one wrote. */
  lemma SetTwice(text: string, section: string, key: string, value: string, comment: string)
    requires Name(section) && Name(key) && Clean(value) && '\n' !in comment
    requires Set(text, section, key, value, comment).Some?
    ensures var once := Set(text, section, key, value, comment).value;
            Set(once, section, key, value, comment) == Some(once) <==>
              (EditOf(SplitLines(text), section, key).value.Rewrite?
               || (comment == "" && HeaderEnds(SplitLines(text), section, key)))
  {
    if !HeaderEnds(SplitLines(text), section, key) {
      SetTwiceAfterSwallowing(text, section, key, value, comment);
    } else if EditOf(SplitLines(text), section, key).value.Rewrite? {
      SetTwiceAfterRewrite(text, section, key, value, comment);
    } else {
      SetTwiceAfterInsertion(text, section, key, value, comment);
    }
  }

  /** A section without the key, and a comment: the first set leaves the comment out, the second adds it. */
  lemma SecondSetAddsTheComment(value: string, comment: string)
    requires Clean(value) && comment != "" && '\n' !in comment
    ensures Set("s:\n", "s", "k", value, comment).Some?
    ensures var once := Set("s:\n", "s", "k", value, comment).value; Set(once, "s", "k", value, comment) != Some(once)
  {
    HeaderAlone("\n");
    assert "s:" + "\n" == "s:\n";
    hide Clean, FindKey, SplitLines, Join, MatchKey, KeyText;
    SetTwice("s:\n", "s", "k", value, comment);
  }
}
