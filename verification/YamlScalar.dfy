/** Reading and editing one `section.key` of a scenario yaml in place, by its lines. */
module YamlScalar {
  import opened Common
  import opened Text
  import opened YamlLine

  // --------------------------------------------------------- what the scan makes of a line

  /** A header of the section; else a line setting the key; else one that leaves a section; else none. */
  datatype Mark = HeaderMark | KeyMark | LeaveMark | InnerMark

  function MarkOf(section: string, key: string, line: string): Mark {
    if Header(section, line) then HeaderMark
    else if MatchKey(key, line).Some? then KeyMark
    else if Leaves(line) then LeaveMark
    else InnerMark
  }

  function Marks(section: string, key: string, lines: seq<string>): (ms: seq<Mark>)
    ensures |ms| == |lines|
    ensures forall i :: 0 <= i < |lines| ==> ms[i] == MarkOf(section, key, lines[i])
  {
    if lines == [] then [] else Marks(section, key, lines[..|lines| - 1]) + [MarkOf(section, key, lines[|lines| - 1])]
  }

  /** Is the scan inside the section after `n` lines? */
  predicate InSection(ms: seq<Mark>, n: nat)
    requires n <= |ms|
  {
    n > 0 && (ms[n - 1].HeaderMark? || (InSection(ms, n - 1) && !ms[n - 1].LeaveMark?))
  }

  /** Has it left the section, if only once, within the first `n` lines? */
  predicate LeftBefore(ms: seq<Mark>, n: nat)
    requires n <= |ms|
  {
    n > 0 && (LeftBefore(ms, n - 1) || (InSection(ms, n - 1) && ms[n - 1].LeaveMark?))
  }

  /** Line `i` sets the key, in the section. */
  predicate Hits(ms: seq<Mark>, i: nat) {
    i < |ms| && ms[i].KeyMark? && InSection(ms, i)
  }

  /** The first line from `n` on that sets the key in the section. */
  function FindKey(ms: seq<Mark>, n: nat): (r: Option<nat>)
    requires n <= |ms|
    ensures r.Some? ==> n <= r.value < |ms| && Hits(ms, r.value)
    decreases |ms| - n
  {
    if n == |ms| then None else if Hits(ms, n) then Some(n) else FindKey(ms, n + 1)
  }

  function LastHeader(ms: seq<Mark>, n: nat): (r: Option<nat>)
    requires n <= |ms|
    ensures r.Some? ==> r.value < n && ms[r.value].HeaderMark?
    ensures forall j :: (if r.Some? then r.value + 1 else 0) <= j < n ==> !ms[j].HeaderMark?
  {
    if n == 0 then None else if ms[n - 1].HeaderMark? then Some(n - 1) else LastHeader(ms, n - 1)
  }

  lemma LeftStaysLeft(ms: seq<Mark>, n: nat, m: nat)
    requires n <= m <= |ms| && LeftBefore(ms, n)
    ensures LeftBefore(ms, m)
    decreases m
  {
    if n < m {
      LeftStaysLeft(ms, n, m - 1);
    }
  }

  /** The indentation copied by an insertion: that of the first indented line below. */
  function IndentFrom(lines: seq<string>, n: nat): string
    requires n <= |lines|
    decreases |lines| - n
  {
    if n == |lines| then "  "
    else if !Blank(lines[n]) && IsSpace(lines[n][0]) then lines[n][..LeadingSpace(lines[n])]
    else IndentFrom(lines, n + 1)
  }

  // -------------------------------------------------------------------- get and set

  /** The value read: that of the first line setting the key, unless the section was left before it. */
  function ReadLines(lines: seq<string>, section: string, key: string): Option<string> {
    var ms := Marks(section, key, lines);
    match FindKey(ms, 0)
    case Some(i) => if LeftBefore(ms, i) then None else ValueOf(MatchKey(key, lines[i]).value)
    case None => None
  }

  function Get(text: string, section: string, key: string): Option<string> {
    ReadLines(SplitLines(text), section, key)
  }

  function TrailFor(comment: string, trail: string): string {
    if comment != "" then "   # " + comment else trail
  }

  /** The lines after an edit; None when the section does not exist. */
  function Edited(lines: seq<string>, section: string, key: string, value: string,
                  comment: string): Option<seq<string>> {
    var ms := Marks(section, key, lines);
    match FindKey(ms, 0)
    case Some(i) =>
      var m := MatchKey(key, lines[i]).value;
      Some(lines[i := KeyText(m.indent, key, value, TrailFor(comment, m.trail))])
    case None =>
      match LastHeader(ms, |ms|)
      case None => None
      case Some(h) =>
        Some(lines[..h + 1] + [KeyText(IndentFrom(lines, h + 1), key, value, "")] + lines[h + 1..])
  }

  function Set(text: string, section: string, key: string, value: string, comment: string): Option<string> {
    match Edited(SplitLines(text), section, key, value, comment)
    case None => None
    case Some(lines) => Some(Join(lines))
  }

  method GetYamlScalar(text: string, section: string, key: string) returns (r: Option<string>)
    ensures r == Get(text, section, key)
  {
    var lines := SplitLines(text);
    ghost var ms := Marks(section, key, lines);
    var inSection := false;
    for n := 0 to |lines|
      invariant inSection == InSection(ms, n) && !LeftBefore(ms, n)
      invariant FindKey(ms, 0) == FindKey(ms, n)
    {
      var line := lines[n];
      if Header(section, line) {
        inSection := true;
        continue;
      }
      if inSection {
        var m := MatchKey(key, line);
        if m.Some? {
          assert Hits(ms, n);
          return ValueOf(m.value);
        }
        if Leaves(line) {
          assert LeftBefore(ms, n + 1);
          var i := FindKey(ms, n + 1);
          if i.Some? {
            LeftStaysLeft(ms, n + 1, i.value);
          }
          return None;
        }
      }
    }
    return None;
  }

  /** Copy the indentation of the first indented line below the header. */
  method CopyIndent(lines: seq<string>, at: nat) returns (indent: string)
    requires at <= |lines|
    ensures indent == IndentFrom(lines, at)
  {
    for k := at to |lines|
      invariant IndentFrom(lines, at) == IndentFrom(lines, k)
    {
      if !Blank(lines[k]) && IsSpace(lines[k][0]) {
        return lines[k][..LeadingSpace(lines[k])];
      }
    }
    return "  ";
  }

  /** The scan for the line to rewrite. It goes on after leaving the section, and may re-enter it. */
  method RewriteKey(before: seq<string>, section: string, key: string, value: string, comment: string)
    returns (lines: seq<string>, secAt: Option<nat>, done: bool)
    ensures var ms := Marks(section, key, before);
            && done == FindKey(ms, 0).Some?
            && (done ==> Some(lines) == Edited(before, section, key, value, comment))
            && (!done ==> lines == before && secAt == LastHeader(ms, |ms|))
  {
    ghost var ms := Marks(section, key, before);
    lines, secAt, done := before, None, false;
    var inSection := false;
    for n := 0 to |lines|
      invariant lines == before && !done && inSection == InSection(ms, n)
      invariant secAt == LastHeader(ms, n) && FindKey(ms, 0) == FindKey(ms, n)
    {
      var line := lines[n];
      if Header(section, line) {
        inSection, secAt := true, Some(n);
        continue;
      }
      if inSection {
        var m := MatchKey(key, line);
        if m.Some? {
          assert Hits(ms, n);
          lines := lines[n := KeyText(m.value.indent, key, value, TrailFor(comment, m.value.trail))];
          done := true;
          return;
        }
        if Leaves(line) {
          inSection := false;
        }
      }
    }
  }

  /** The new text, or None when the section has to be added by hand. */
  method SetYamlScalar(text: string, section: string, key: string, value: string, comment: string)
    returns (r: Option<string>)
    ensures r == Set(text, section, key, value, comment)
  {
    var lines, secAt, done := RewriteKey(SplitLines(text), section, key, value, comment);
    if !done {
      if secAt == None {
        return None;
      }
      var at := secAt.value + 1;
      var indent := CopyIndent(lines, at);
      lines := lines[..at] + [KeyText(indent, key, value, "")] + lines[at..];
    }
    return Some(Join(lines));
  }

  // ------------------------------------------------------------ the scan's own laws

  lemma {:induction false} FindKeyIsFirst(ms: seq<Mark>, n: nat)
    requires n <= |ms|
    ensures var r := FindKey(ms, n); forall j :: n <= j < (if r.Some? then r.value else |ms|) ==> !Hits(ms, j)
    decreases |ms| - n
  {
    if n < |ms| && !Hits(ms, n) {
      FindKeyIsFirst(ms, n + 1);
    }
  }

  lemma FirstHitIsFound(ms: seq<Mark>, r: Option<nat>)
    requires r.Some? ==> Hits(ms, r.value)
    requires forall j: nat :: j < (if r.Some? then r.value else |ms|) ==> !Hits(ms, j)
    ensures FindKey(ms, 0) == r
  {
    FindKeyIsFirst(ms, 0);
  }

  lemma {:induction false} PrefixDecides(ms: seq<Mark>, other: seq<Mark>, n: nat)
    requires n <= |ms| && n <= |other| && ms[..n] == other[..n]
    ensures InSection(ms, n) == InSection(other, n) && LeftBefore(ms, n) == LeftBefore(other, n)
  {
    if n > 0 {
      assert ms[..n][n - 1] == other[..n][n - 1];
      assert ms[..n - 1] == ms[..n][..n - 1] && other[..n - 1] == other[..n][..n - 1];
      PrefixDecides(ms, other, n - 1);
    }
  }

  function Inserted<T>(s: seq<T>, p: nat, x: T): (r: seq<T>)
    requires p <= |s|
    ensures |r| == |s| + 1 && r[p] == x && r[..p] == s[..p]
    ensures forall i :: 0 <= i < |r| ==> r[i] == if i < p then s[i] else if i == p then x else s[i - 1]
  {
    s[..p] + [x] + s[p..]
  }

  /** Inserting a line that is neither a header nor leaves shifts the scan and changes nothing else. */
  lemma {:induction false} ScanAfterInsertion(ms: seq<Mark>, p: nat, m: Mark, n: nat)
    requires p <= n <= |ms| && (m.KeyMark? || m.InnerMark?)
    ensures InSection(Inserted(ms, p, m), n + 1) == InSection(ms, n)
    ensures LeftBefore(Inserted(ms, p, m), n + 1) == LeftBefore(ms, n)
  {
    var ms' := Inserted(ms, p, m);
    if n == p {
      PrefixDecides(ms, ms', p);
    } else {
      ScanAfterInsertion(ms, p, m, n - 1);
      assert ms'[n] == ms[n - 1];
    }
  }

  /** Where index `j` goes when a line is inserted at `p`. */
  function Moved(j: nat, p: nat): nat {
    if j < p then j else j + 1
  }

  lemma HitsAfterInsertion(ms: seq<Mark>, p: nat, m: Mark, j: nat)
    requires p <= |ms| && (m.KeyMark? || m.InnerMark?) && j < |ms|
    ensures Hits(Inserted(ms, p, m), Moved(j, p)) == Hits(ms, j)
    ensures LeftBefore(Inserted(ms, p, m), Moved(j, p)) == LeftBefore(ms, j)
  {
    var ms' := Inserted(ms, p, m);
    if j < p {
      assert ms'[..j] == ms'[..p][..j] && ms[..j] == ms[..p][..j];
      PrefixDecides(ms, ms', j);
    } else {
      ScanAfterInsertion(ms, p, m, j);
    }
  }

  /** The insertion below the last header is what the next scan finds, if nothing was found before. */
  lemma InsertedKeyIsFound(ms: seq<Mark>, h: nat)
    requires FindKey(ms, 0) == None && h < |ms| && ms[h].HeaderMark?
    ensures FindKey(Inserted(ms, h + 1, KeyMark), 0) == Some(h + 1)
    ensures LeftBefore(Inserted(ms, h + 1, KeyMark), h + 1) == LeftBefore(ms, h)
  {
    var ms' := Inserted(ms, h + 1, KeyMark);
    PrefixDecides(ms, ms', h + 1);
    FindKeyIsFirst(ms, 0);
    forall j: nat | j < h + 1 ensures !Hits(ms', j) {
      HitsAfterInsertion(ms, h + 1, KeyMark, j);
    }
    FirstHitIsFound(ms', Some(h + 1));
  }

  /** An insertion that is not a hit only moves what other scans find. */
  lemma OtherKeyIsFound(ms: seq<Mark>, p: nat, m: Mark)
    requires p <= |ms| && (m.KeyMark? || m.InnerMark?) && !(m.KeyMark? && InSection(ms, p))
    ensures FindKey(Inserted(ms, p, m), 0) ==
            if FindKey(ms, 0).None? then None else Some(Moved(FindKey(ms, 0).value, p))
  {
    hide LeftBefore, FindKey, Inserted;
    var ms' := Inserted(ms, p, m);
    var r := FindKey(ms, 0);
    FindKeyIsFirst(ms, 0);
    PrefixDecides(ms, ms', p);
    var moved := if r.None? then None else Some(Moved(r.value, p));
    forall j: nat | j < (if moved.Some? then moved.value else |ms'|) ensures !Hits(ms', j) {
      if j != p {
        HitsAfterInsertion(ms, p, m, if j < p then j else j - 1);
      }
    }
    if r.Some? {
      HitsAfterInsertion(ms, p, m, r.value);
    }
    FirstHitIsFound(ms', moved);
  }
}
