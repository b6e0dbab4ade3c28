/** One line of a scenario yaml: splitting a text into lines, and printing and matching a key line. */
module YamlLine {
  import opened Common
  import opened Text

  // ------------------------------------------------------------------------ lines

  predicate Terminated(line: string) {
    line != "" && line[|line| - 1] == '\n'
  }

  /** A newline only at the end, if at all. */
  predicate IsLine(line: string) {
    line != "" && forall i :: 0 <= i < |line| - 1 ==> line[i] != '\n'
  }

  /** The first line of a text, with its newline. */
  function FirstLine(text: string): (line: string)
    requires text != ""
    ensures IsLine(line) && line <= text && (Terminated(line) || line == text)
  {
    if text[0] == '\n' || |text| == 1 then text[..1] else [text[0]] + FirstLine(text[1..])
  }

  /** readlines(): each line keeps its newline; only the last may lack one. */
  function SplitLines(text: string): seq<string> {
    if text == "" then [] else [FirstLine(text)] + SplitLines(text[|FirstLine(text)|..])
  }

  predicate AreLines(lines: seq<string>) {
    && (forall i :: 0 <= i < |lines| ==> IsLine(lines[i]))
    && (forall i :: 0 <= i < |lines| - 1 ==> Terminated(lines[i]))
  }

  /** writelines(). */
  function Join(lines: seq<string>): string {
    if lines == [] then "" else lines[0] + Join(lines[1..])
  }

  lemma {:induction false} SplitGivesLines(text: string)
    ensures AreLines(SplitLines(text)) && Join(SplitLines(text)) == text
  {
    if text != "" {
      var line := FirstLine(text);
      var rest := text[|line|..];
      SplitGivesLines(rest);
      assert text == line + rest;
      assert !Terminated(line) ==> SplitLines(rest) == [];
    }
  }

  lemma FirstLineIs(line: string, rest: string)
    requires IsLine(line) && (Terminated(line) || rest == "")
    ensures FirstLine(line + rest) == line
  {
    var text := line + rest;
    var first := FirstLine(text);
    assert forall i :: 0 <= i < |first| ==> first[i] == text[i];
    assert forall i :: 0 <= i < |line| ==> line[i] == text[i];
  }

  lemma {:induction false} JoinThenSplit(lines: seq<string>)
    requires AreLines(lines)
    ensures SplitLines(Join(lines)) == lines
  {
    hide FirstLine, Terminated, IsLine;
    if lines != [] {
      var line, rest := lines[0], Join(lines[1..]);
      JoinThenSplit(lines[1..]);
      assert lines[1..] == [] ==> rest == "";
      FirstLineIs(line, rest);
      assert Join(lines) == line + rest && (line + rest)[|line|..] == rest;
      LineIsSomething(line);
    }
  }

  lemma LineIsSomething(line: string)
    requires IsLine(line)
    ensures line != ""
  {
  }

  // -------------------------------------------------------------- what a line says

  /** Section and key names: no white space, no colon. */
  predicate Name(s: string) {
    s != "" && forall i :: 0 <= i < |s| ==> !IsSpace(s[i]) && s[i] != ':'
  }

  /** What follows `name`, optional white space and a colon: how both headers and keys are recognised. */
  function AfterName(name: string, s: string): Option<string> {
    if !(name <= s) then None
    else
      var t := s[|name|..];
      var k := LeadingSpace(t);
      if k < |t| && t[k] == ':' then Some(t[k + 1..]) else None
  }

  /** ^section\s*: */
  predicate Header(section: string, line: string) {
    AfterName(section, line).Some?
  }

  /** A line that ends the section it is met in. */
  predicate Leaves(line: string) {
    !Blank(line) && !IsSpace(line[0])
  }

  /** The first '#' with white space before it; the end when there is none. */
  function HashAt(s: string, from: nat): (j: nat)
    requires 0 < from
    ensures j < |s| ==> from <= j && s[j] == '#' && IsSpace(s[j - 1])
    ensures forall k :: from <= k < j && k < |s| ==> !(s[k] == '#' && IsSpace(s[k - 1]))
    decreases |s| - from
  {
    if from >= |s| then |s| else if s[from] == '#' && IsSpace(s[from - 1]) then from else HashAt(s, from + 1)
  }

  /** Where the trailing comment of a value starts: at the white space before that '#'. */
  function CommentAt(s: string): (n: nat)
    ensures n <= |s|
  {
    var j := HashAt(s, 1);
    if j >= |s| then |s| else |TrimEnd(s[..j])|
  }

  /** The three groups of ^(\s+)key\s*:\s*(.*?)(\s+#.*)?$ ("" when there is no comment). */
  datatype KeyLine = KeyLine(indent: string, raw: string, trail: string)

  function WithoutNewline(s: string): string {
    if Terminated(s) then s[..|s| - 1] else s
  }

  function SkipSpace(s: string): string {
    s[LeadingSpace(s)..]
  }

  function MatchKey(key: string, line: string): Option<KeyLine> {
    var n := LeadingSpace(line);
    var tail := AfterName(key, line[n..]);
    if n == 0 || tail.None? then None
    else
      var body := WithoutNewline(SkipSpace(tail.value));
      Some(KeyLine(line[..n], body[..CommentAt(body)], body[CommentAt(body)..]))
  }

  /** What a key line is read as: group 2, stripped; None when that is empty. */
  function ValueOf(m: KeyLine): Option<string> {
    var v := Strip(m.raw);
    if v == "" then None else Some(v)
  }

  predicate NoComment(s: string) {
    forall k :: 0 < k < |s| ==> !(s[k] == '#' && IsSpace(s[k - 1]))
  }

  /** A value a key line can carry: non-empty, trimmed, on one line, no white space before a '#'. */
  predicate Clean(v: string) {
    v != "" && !IsSpace(v[0]) && !IsSpace(v[|v| - 1]) && '\n' !in v && NoComment(v)
  }

  predicate IsGap(s: string) {
    LeadingSpace(s) == |s|
  }

  predicate IsTrail(trail: string) {
    trail == "" ||
    (0 < LeadingSpace(trail) < |trail| && trail[LeadingSpace(trail)] == '#' && '\n' !in trail)
  }

  predicate IsIndent(indent: string) {
    indent != "" && IsGap(indent) && '\n' !in indent
  }

  /** A key line put together from the pieces of the pattern. */
  function Pieces(indent: string, key: string, between: string, gap: string, body: string): string {
    indent + (key + (between + (":" + (gap + (body + "\n")))))
  }

  /** The line an edit writes: indent, key, ": ", value and comment. */
  function KeyText(indent: string, key: string, value: string, trail: string): string {
    Pieces(indent, key, "", " ", value + trail)
  }

  // ----------------------------------------------------- printing and matching a key line

  lemma SkipGap(gap: string, s: string)
    requires IsGap(gap) && (s == "" || !IsSpace(s[0]))
    ensures LeadingSpace(gap + s) == |gap| && SkipSpace(gap + s) == s
  {
    LeadingSpaceIs(gap + s, |gap|);
  }

  lemma AfterNameIs(name: string, gap: string, tail: string)
    requires IsGap(gap)
    ensures AfterName(name, name + (gap + (":" + tail))) == Some(tail)
  {
    SkipGap(gap, ":" + tail);
    assert (name + (gap + (":" + tail)))[|name|..] == gap + (":" + tail);
    assert (gap + (":" + tail))[|gap| + 1..] == tail;
  }

  /** ^name\s*: and what follows. */
  lemma AfterNameExactly(name: string, s: string, tail: string)
    ensures AfterName(name, s) == Some(tail) <==> exists gap :: IsGap(gap) && s == name + gap + ":" + tail
  {
    hide AfterName, IsGap;
    if gap :| IsGap(gap) && s == name + gap + ":" + tail {
      AfterNameIs(name, gap, tail);
      assert s == name + (gap + (":" + tail));
    }
    if AfterName(name, s) == Some(tail) {
      GapAfterName(name, s, tail);
    }
  }

  lemma GapAfterName(name: string, s: string, tail: string)
    requires AfterName(name, s) == Some(tail)
    ensures exists gap :: IsGap(gap) && s == name + gap + ":" + tail
  {
    var t := s[|name|..];
    var k := LeadingSpace(t);
    LeadingSpaceIs(t[..k], k);
    assert s == name + t[..k] + ":" + tail;
  }

  /** ^\s+key\s*: at least one white space, then the key as above. */
  lemma MatchesExactly(key: string, line: string)
    requires Name(key)
    ensures MatchKey(key, line).Some? <==>
              exists indent, gap, tail :: indent != "" && IsGap(indent) && IsGap(gap)
                && line == indent + (key + gap + ":" + tail)
  {
    hide AfterName, LeadingSpace, CommentAt, Name, IsGap, MatchKey;
    MatchIs(key, line);
    var n := LeadingSpace(line);
    if indent, gap, tail :| indent != "" && IsGap(indent) && IsGap(gap) && line == indent + (key + gap + ":" + tail) {
      IndentAndRest(key, indent, key + gap + ":" + tail);
      AfterNameExactly(key, key + gap + ":" + tail, tail);
    }
    if MatchKey(key, line).Some? {
      var tail := AfterName(key, line[n..]).value;
      AfterNameExactly(key, line[n..], tail);
      var gap :| IsGap(gap) && line[n..] == key + gap + ":" + tail;
      IndentIsGap(line);
      assert line == line[..n] + (key + gap + ":" + tail);
    }
  }

  lemma MatchIs(key: string, line: string)
    ensures MatchKey(key, line).Some? <==> LeadingSpace(line) > 0 && AfterName(key, line[LeadingSpace(line)..]).Some?
  {
    hide AfterName, LeadingSpace, CommentAt;
  }

  lemma IndentIsGap(line: string)
    ensures IsGap(line[..LeadingSpace(line)])
  {
    LeadingSpaceIs(line[..LeadingSpace(line)], LeadingSpace(line));
  }

  lemma IndentAndRest(key: string, indent: string, rest: string)
    requires Name(key) && IsGap(indent) && key <= rest
    ensures LeadingSpace(indent + rest) == |indent| && (indent + rest)[|indent|..] == rest
  {
    SkipGap(indent, rest);
  }

  /** A section is left at any line that does not start with white space, unless that is a header of it. */
  lemma LeavesExactly(line: string)
    ensures Leaves(line) <==> line != "" && !IsSpace(line[0])
  {
  }

  lemma TrimEndOfGap(v: string, gap: string)
    requires (v != "" ==> !IsSpace(v[|v| - 1])) && IsGap(gap)
    ensures TrimEnd(v + gap) == v
  {
    var t := TrimEnd(v + gap);
    assert t == (v + gap)[..|t|];
    assert forall i :: 0 <= i < |gap| ==> IsSpace(gap[i]);
    assert v != "" ==> (v + gap)[|v| - 1] == v[|v| - 1];
    assert forall i :: |v| <= i < |v + gap| ==> (v + gap)[i] == gap[i - |v|];
  }

  lemma CommentAfterValue(v: string, trail: string)
    requires (v != "" ==> !IsSpace(v[|v| - 1])) && NoComment(v) && IsTrail(trail) && (v != "" || trail == "")
    ensures CommentAt(v + trail) == |v|
  {
    var s := v + trail;
    if trail == "" {
      assert s == v;
    } else {
      var n := LeadingSpace(trail);
      var j := |v| + n;
      assert s[j] == '#' && IsSpace(s[j - 1]);
      assert forall k :: 0 < k < j ==> !(s[k] == '#' && IsSpace(s[k - 1]));
      assert HashAt(s, 1) == j;
      LeadingSpaceIs(trail[..n], n);
      assert s[..j] == v + trail[..n];
      TrimEndOfGap(v, trail[..n]);
    }
  }

  lemma MatchesPieces(indent: string, key: string, between: string, gap: string, v: string, trail: string)
    requires IsIndent(indent) && Name(key) && IsGap(between) && IsGap(gap) && Clean(v) && IsTrail(trail)
    ensures MatchKey(key, Pieces(indent, key, between, gap, v + trail)) == Some(KeyLine(indent, v, trail))
  {
    hide AfterName, LeadingSpace, CommentAt, NoComment;
    var body := v + trail;
    var tail := gap + (body + "\n");
    var rest := key + (between + (":" + tail));
    SkipGap(indent, rest);
    AfterNameIs(key, between, tail);
    SkipGap(gap, body + "\n");
    BodyParts(v, trail);
    assert (indent + rest)[..|indent|] == indent;
    assert (indent + rest)[|indent|..] == rest;
  }

  lemma BodyParts(v: string, trail: string)
    requires Clean(v) && IsTrail(trail)
    ensures var body := v + trail;
            && WithoutNewline(body + "\n") == body
            && CommentAt(body) == |v| && body[..|v|] == v && body[|v|..] == trail
  {
    hide NoComment, CommentAt, LeadingSpace;
    CommentAfterValue(v, trail);
  }

  /** Printing a key line and matching it again gives back its parts. */
  lemma KeyTextRoundTrip(indent: string, key: string, value: string, trail: string)
    requires IsIndent(indent) && Name(key) && Clean(value) && IsTrail(trail)
    ensures MatchKey(key, KeyText(indent, key, value, trail)) == Some(KeyLine(indent, value, trail))
    ensures ValueOf(KeyLine(indent, value, trail)) == Some(value)
  {
    MatchesPieces(indent, key, "", " ", value, trail);
    assert SkipSpace(value) == value;
  }

  /** An empty value with a comment behind it: the comment is what gets read. */
  lemma EmptyValueReadsItsComment(indent: string, key: string, gap: string, comment: string)
    requires IsIndent(indent) && Name(key) && IsGap(gap) && Clean("#" + comment)
    ensures MatchKey(key, Pieces(indent, key, "", gap, "#" + comment)) == Some(KeyLine(indent, "#" + comment, ""))
  {
    MatchesPieces(indent, key, "", gap, "#" + comment, "");
    assert "#" + comment + "" == "#" + comment;
  }

  /** A newline only at the end, if at all. */
  predicate OneLine(s: string) {
    forall i :: 0 <= i < |s| - 1 ==> s[i] != '\n'
  }

  lemma OneLineSuffix(s: string, n: nat)
    requires OneLine(s) && n <= |s|
    ensures OneLine(s[n..])
  {
  }

  lemma BodyHasNoNewline(s: string)
    requires OneLine(s)
    ensures '\n' !in WithoutNewline(s)
  {
  }

  lemma OneLineAfterName(name: string, s: string)
    requires OneLine(s) && AfterName(name, s).Some?
    ensures OneLine(AfterName(name, s).value)
  {
    var t := s[|name|..];
    OneLineSuffix(s, |name|);
    OneLineSuffix(t, LeadingSpace(t) + 1);
  }

  /** How the value and the comment of a matched line look. */
  lemma PartsOfBody(body: string)
    requires '\n' !in body && (body == "" || !IsSpace(body[0]))
    ensures IsTrail(body[CommentAt(body)..]) && NoComment(body[..CommentAt(body)])
  {
    var j := HashAt(body, 1);
    if j < |body| {
      var n := CommentAt(body);
      assert TrimEnd(body[..j]) == body[..n];
      LeadingSpaceIs(body[n..], j - n);
    }
  }

  lemma PartsOfKeyLine(key: string, line: string)
    requires IsLine(line) && MatchKey(key, line).Some?
    ensures var m := MatchKey(key, line).value;
            && IsIndent(m.indent) && IsTrail(m.trail)
            && '\n' !in m.raw && NoComment(m.raw) && (m.raw != "" ==> !IsSpace(m.raw[0]))
  {
    hide *;
    BodyOfLine(key, line);
    IndentOfLine(line);
    MatchParts(key, line);
    PartsOfBody(WithoutNewline(SkipSpace(AfterName(key, line[LeadingSpace(line)..]).value)));
    RawOfBody(WithoutNewline(SkipSpace(AfterName(key, line[LeadingSpace(line)..]).value)));
  }

  lemma MatchParts(key: string, line: string)
    requires MatchKey(key, line).Some?
    ensures LeadingSpace(line) > 0 && AfterName(key, line[LeadingSpace(line)..]).Some?
    ensures var body := WithoutNewline(SkipSpace(AfterName(key, line[LeadingSpace(line)..]).value));
            MatchKey(key, line).value ==
            KeyLine(line[..LeadingSpace(line)], body[..CommentAt(body)], body[CommentAt(body)..])
  {
    hide AfterName, LeadingSpace, CommentAt;
  }

  lemma RawOfBody(body: string)
    requires '\n' !in body && (body == "" || !IsSpace(body[0]))
    ensures var raw := body[..CommentAt(body)]; '\n' !in raw && (raw != "" ==> !IsSpace(raw[0]))
  {
    hide CommentAt, IsSpace;
  }

  lemma IndentOfLine(line: string)
    requires IsLine(line) && LeadingSpace(line) < |line|
    ensures LeadingSpace(line) > 0 ==> IsIndent(line[..LeadingSpace(line)])
  {
    LeadingSpaceIs(line[..LeadingSpace(line)], LeadingSpace(line));
  }

  /** The text behind the colon and its white space is on one line and starts with neither. */
  lemma BodyOfLine(key: string, line: string)
    requires IsLine(line) && MatchKey(key, line).Some?
    ensures LeadingSpace(line) < |line|
    ensures var body := WithoutNewline(SkipSpace(AfterName(key, line[LeadingSpace(line)..]).value));
            '\n' !in body && (body == "" || !IsSpace(body[0]))
  {
    hide HashAt, CommentAt;
    var n := LeadingSpace(line);
    OneLineSuffix(line, n);
    OneLineAfterName(key, line[n..]);
    var tail := AfterName(key, line[n..]).value;
    OneLineSuffix(tail, LeadingSpace(tail));
    BodyHasNoNewline(SkipSpace(tail));
  }

  lemma StripIsPrefix(raw: string)
    requires raw == "" || !IsSpace(raw[0])
    ensures Strip(raw) <= raw
  {
    assert raw[LeadingSpace(raw)..] == raw;
  }

  lemma PrefixStaysPlain(raw: string, v: string)
    requires v <= raw && '\n' !in raw && NoComment(raw)
    ensures '\n' !in v && NoComment(v)
  {
    assert forall i :: 0 <= i < |v| ==> v[i] == raw[i];
  }

  lemma StrippedIsClean(raw: string)
    requires '\n' !in raw && NoComment(raw) && (raw != "" ==> !IsSpace(raw[0])) && Strip(raw) != ""
    ensures Clean(Strip(raw))
  {
    hide Strip, NoComment, IsSpace;
    StripIsPrefix(raw);
    PrefixStaysPlain(raw, Strip(raw));
  }

  /** Whatever is read out of a line is clean, whoever wrote the line. */
  lemma ReadValuesAreClean(key: string, line: string)
    requires IsLine(line) && MatchKey(key, line).Some? && ValueOf(MatchKey(key, line).value).Some?
    ensures Clean(ValueOf(MatchKey(key, line).value).value)
  {
    hide MatchKey, IsLine, Clean, NoComment, IsTrail, IsIndent, Strip;
    PartsOfKeyLine(key, line);
    StrippedIsClean(MatchKey(key, line).value.raw);
  }

  // ------------------------------------------------------ an empty value with a comment behind it

  /** What follows the colon of a key line and the white space after it. */
  function TextOf(key: string, line: string): string
    requires MatchKey(key, line).Some?
  {
    WithoutNewline(SkipSpace(AfterName(key, line[LeadingSpace(line)..]).value))
  }

  predicate StartsWithHash(s: string) {
    s != "" && s[0] == '#'
  }

  /** The comment of a key line: from the first '#' with white space before it, the colon's included. */
  function CommentOf(key: string, line: string): string
    requires MatchKey(key, line).Some?
  {
    var text := TextOf(key, line);
    if StartsWithHash(text) then text else if HashAt(text, 1) < |text| then text[HashAt(text, 1)..] else ""
  }

  lemma FirstHashIsValue(body: string)
    requires StartsWithHash(body)
    ensures 0 < CommentAt(body) && StartsWithHash(Strip(body[..CommentAt(body)]))
  {
    var raw := body[..CommentAt(body)];
    assert raw[0] == '#' && SkipSpace(raw) == raw;
    var v := TrimEnd(raw);
    assert v == raw[..|v|];
  }

  /** A comment is read as the value exactly when nothing stands between it and the colon's white space:
      for every line, whoever wrote it. */
  lemma CommentIsReadExactlyWhenFirst(key: string, line: string)
    requires IsLine(line) && MatchKey(key, line).Some?
    ensures var v := ValueOf(MatchKey(key, line).value);
            v.Some? && StartsWithHash(v.value) <==> StartsWithHash(TextOf(key, line))
  {
    var body, raw := TextOf(key, line), MatchKey(key, line).value.raw;
    assert raw == body[..CommentAt(body)];
    if StartsWithHash(body) {
      FirstHashIsValue(body);
    } else {
      PartsOfKeyLine(key, line);
      hide MatchKey, TextOf, IsTrail, IsIndent, NoComment;
      StripIsPrefix(raw);
    }
  }

  /** The trailing comment, as the pattern finds it, is the comment of the line exactly when it is not first. */
  lemma TrailIsCommentUnlessFirst(key: string, line: string)
    requires IsLine(line) && MatchKey(key, line).Some?
    ensures SkipSpace(MatchKey(key, line).value.trail) == CommentOf(key, line) <==> !StartsWithHash(TextOf(key, line))
  {
    var body := TextOf(key, line);
    assert MatchKey(key, line).value.trail == body[CommentAt(body)..];
    if StartsWithHash(body) {
      FirstHashIsValue(body);
    } else {
      TrailOfBody(body);
    }
  }

  lemma GapBehind(s: string)
    ensures |TrimEnd(s)| <= |s| && IsGap(s[|TrimEnd(s)|..])
  {
    var t := TrimEnd(s);
    var gap := s[|t|..];
    assert forall i :: 0 <= i < |gap| ==> gap[i] == s[|t| + i];
    LeadingSpaceIs(gap, |gap|);
  }

  lemma SkipTo(s: string, n: nat, j: nat)
    requires n <= j < |s| && IsGap(s[..j][n..]) && !IsSpace(s[j])
    ensures SkipSpace(s[n..]) == s[j..]
  {
    hide IsGap, SkipSpace, LeadingSpace, IsSpace;
    assert s[n..] == s[..j][n..] + s[j..];
    SkipGap(s[..j][n..], s[j..]);
  }

  lemma CommentAtIs(body: string)
    ensures var j := HashAt(body, 1);
            if j < |body| then CommentAt(body) <= j && IsGap(body[..j][CommentAt(body)..]) && !IsSpace(body[j])
            else CommentAt(body) == |body|
  {
    hide IsGap, HashAt, TrimEnd;
    if HashAt(body, 1) < |body| {
      GapBehind(body[..HashAt(body, 1)]);
    }
  }

  lemma TrailOfBody(body: string)
    ensures var j := HashAt(body, 1); SkipSpace(body[CommentAt(body)..]) == if j < |body| then body[j..] else ""
  {
    hide *;
    CommentAtIs(body);
    if HashAt(body, 1) < |body| {
      SkipTo(body, CommentAt(body), HashAt(body, 1));
    } else {
      assert body[CommentAt(body)..] == "";
      NothingToSkip();
    }
  }

  lemma NothingToSkip()
    ensures SkipSpace("") == ""
  {
  }
}
