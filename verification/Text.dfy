/** Strings as the scripts use them: code-point order. */
module Text {

  /** `a <= b` in code-point (lexicographic) order. */
  predicate LexLeq(a: string, b: string) {
    a == "" || (b != "" && (a[0] < b[0] || (a[0] == b[0] && LexLeq(a[1..], b[1..]))))
  }

  lemma {:induction false} LexTotal(a: string, b: string)
    ensures LexLeq(a, b) || LexLeq(b, a)
    ensures LexLeq(a, b) && LexLeq(b, a) ==> a == b
  {
    if a != "" && b != "" && a[0] == b[0] {
      LexTotal(a[1..], b[1..]);
      assert a == [a[0]] + a[1..] && b == [b[0]] + b[1..];
    }
  }

  lemma {:induction false} LexTransitive(a: string, b: string, c: string)
    requires LexLeq(a, b) && LexLeq(b, c)
    ensures LexLeq(a, c)
  {
    if a != "" && a[0] == b[0] == c[0] {
      LexTransitive(a[1..], b[1..], c[1..]);
    }
  }

  /** The first difference decides, and a prefix comes first. */
  lemma {:induction false} LexLeqIs(a: string, b: string)
    ensures LexLeq(a, b) <==> a <= b || exists k :: 0 <= k < |a| && k < |b| && a[..k] == b[..k] && a[k] < b[k]
  {
    if a != "" && b != "" {
      if a[0] != b[0] {
        assert a[..0] == b[..0];
      } else {
        LexLeqIs(a[1..], b[1..]);
        assert a == [a[0]] + a[1..] && b == [b[0]] + b[1..];
        if k :| 0 <= k < |a[1..]| && k < |b[1..]| && a[1..][..k] == b[1..][..k] && a[1..][k] < b[1..][k] {
          assert a[..k + 1] == [a[0]] + a[1..][..k] && b[..k + 1] == [b[0]] + b[1..][..k];
        }
        if k :| 0 <= k < |a| && k < |b| && a[..k] == b[..k] && a[k] < b[k] {
          assert a[1..][..k - 1] == a[..k][1..] && b[1..][..k - 1] == b[..k][1..];
        }
      }
    }
  }

  ghost predicate IsLeast(s: set<string>, m: string) {
    m in s && forall x :: x in s ==> LexLeq(m, x)
  }

  /** The first name of `sorted(s)`. */
  method Least(s: set<string>) returns (m: string)
    requires s != {}
    ensures IsLeast(s, m)
  {
    m :| m in s;
    var todo := s - {m};
    LexTotal(m, m);
    while todo != {}
      invariant todo <= s && m in s
      invariant forall x :: x in s - todo ==> LexLeq(m, x)
    {
      var x :| x in todo;
      LexTotal(m, x);
      if LexLeq(x, m) {
        forall y | y in s - todo ensures LexLeq(x, y) { LexTransitive(x, m, y); }
        LexTotal(x, x);
        m := x;
      }
      todo := todo - {x};
    }
  }

  predicate IsSorted(names: seq<string>) {
    forall i, j :: 0 <= i < j < |names| ==> LexLeq(names[i], names[j]) && names[i] != names[j]
  }

  /** sorted(os.listdir(...)). */
  method SortedNames(s: set<string>) returns (names: seq<string>)
    ensures IsSorted(names) && forall x :: x in names <==> x in s
  {
    names := [];
    var todo := s;
    while todo != {}
      invariant todo <= s && IsSorted(names) && (forall x :: x in names <==> x in s - todo)
      invariant forall x, y :: x in names && y in todo ==> LexLeq(x, y)
    {
      var m := Least(todo);
      assert forall i :: 0 <= i < |names| ==> names[i] in names;
      names, todo := names + [m], todo - {m};
    }
  }

  // ---------------------------------------------------------------- white space

  /** What str.isspace(), str.strip() and the regular expressions' \s take for white space. */
  predicate IsSpace(c: char) {
    || '\U{0009}' <= c <= '\U{000D}' || '\U{001C}' <= c <= '\U{0020}' || c == '\U{0085}' || c == '\U{00A0}'
    || c == '\U{1680}' || '\U{2000}' <= c <= '\U{200A}' || c == '\U{2028}' || c == '\U{2029}' || c == '\U{202F}'
    || c == '\U{205F}' || c == '\U{3000}'
  }

  const WHITE_SPACE: string :=
    "\t\n\U{000B}\U{000C}\r\U{001C}\U{001D}\U{001E}\U{001F} \U{0085}\U{00A0}\U{1680}\U{2000}\U{2001}" +
    "\U{2002}\U{2003}\U{2004}\U{2005}\U{2006}\U{2007}\U{2008}\U{2009}\U{200A}\U{2028}\U{2029}\U{202F}" +
    "\U{205F}\U{3000}"

  /** Written out, the 29 characters that are white space. */
  lemma WhiteSpaceIs(c: char)
    ensures IsSpace(c) <==> c in WHITE_SPACE
  {
    var n := c as int;
    if 0x2000 <= n <= 0x200A {
      assert WHITE_SPACE[n - 0x2000 + 13] == c;
    } else if 0x1C <= n <= 0x20 {
      assert WHITE_SPACE[n - 0x1C + 5] == c;
    } else if 9 <= n <= 13 {
      assert WHITE_SPACE[n - 9] == c;
    }
  }

  /** The length of the white space a string starts with. */
  function LeadingSpace(s: string): (n: nat)
    ensures n <= |s| && (n < |s| ==> !IsSpace(s[n]))
    ensures forall i :: 0 <= i < n ==> IsSpace(s[i])
  {
    if s == "" || !IsSpace(s[0]) then 0 else 1 + LeadingSpace(s[1..])
  }

  lemma LeadingSpaceIs(s: string, n: nat)
    requires n <= |s| && (forall i :: 0 <= i < n ==> IsSpace(s[i])) && (n < |s| ==> !IsSpace(s[n]))
    ensures LeadingSpace(s) == n
  {
  }

  function TrimEnd(s: string): (t: string)
    ensures t <= s && (t != "" ==> !IsSpace(t[|t| - 1])) && forall i :: |t| <= i < |s| ==> IsSpace(s[i])
  {
    if s == "" || !IsSpace(s[|s| - 1]) then s else TrimEnd(s[..|s| - 1])
  }

  function Strip(s: string): (t: string)
    ensures t != "" ==> !IsSpace(t[0]) && !IsSpace(t[|t| - 1])
  {
    TrimEnd(s[LeadingSpace(s)..])
  }

  /** What is stripped is white space at either end. */
  lemma StripIs(s: string) returns (before: string, after: string)
    ensures s == before + Strip(s) + after
    ensures LeadingSpace(before) == |before| && LeadingSpace(after) == |after|
  {
    hide *;
    var n := LeadingSpace(s);
    var t := s[n..];
    before, after := s[..n], t[|TrimEnd(t)|..];
    SpaceBefore(s);
    SpaceBehind(t);
    StripMeans(s);
    assert s == before + t;
    assert before + (Strip(s) + after) == before + Strip(s) + after;
  }

  lemma SpaceBefore(s: string)
    ensures LeadingSpace(s[..LeadingSpace(s)]) == LeadingSpace(s)
  {
    LeadingSpaceIs(s[..LeadingSpace(s)], LeadingSpace(s));
  }

  lemma StripMeans(s: string)
    ensures Strip(s) == TrimEnd(s[LeadingSpace(s)..])
  {
  }

  lemma SpaceBehind(t: string)
    ensures var after := t[|TrimEnd(t)|..]; t == TrimEnd(t) + after && LeadingSpace(after) == |after|
  {
    hide TrimEnd, IsSpace;
    var m := |TrimEnd(t)|;
    var after := t[m..];
    assert forall i :: 0 <= i < |after| ==> after[i] == t[m + i];
    LeadingSpaceIs(after, |after|);
  }

  lemma StripOfTrimmed(s: string)
    requires s != "" && !IsSpace(s[0]) && !IsSpace(s[|s| - 1])
    ensures Strip(s) == s
  {
  }

  predicate Blank(s: string) {
    LeadingSpace(s) == |s|
  }

  predicate EndsWith(s: string, suffix: string) {
    |s| >= |suffix| && s[|s| - |suffix|..] == suffix
  }

  // ------------------------------------------------------------------------ case

  /** str.lower() on ASCII letters; other characters stay as they are. */
  function LowerChar(c: char): char {
    if 'A' <= c <= 'Z' then (c as int + 32) as char else c
  }

  /** Each capital letter has its small one, and nothing else changes. */
  lemma LowerLetters(c: char)
    ensures var upper, lower := "ABCDEFGHIJKLMNOPQRSTUVWXYZ", "abcdefghijklmnopqrstuvwxyz";
            && (forall i :: 0 <= i < 26 ==> LowerChar(upper[i]) == lower[i])
            && (c !in upper ==> LowerChar(c) == c)
  {
    if 'A' <= c <= 'Z' {
      assert "ABCDEFGHIJKLMNOPQRSTUVWXYZ"[c as int - 65] == c;
    }
  }

  function ToLower(s: string): (t: string)
    ensures |t| == |s| && forall i :: 0 <= i < |s| ==> t[i] == LowerChar(s[i])
  {
    if s == "" then "" else [LowerChar(s[0])] + ToLower(s[1..])
  }
}
