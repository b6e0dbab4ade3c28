/** What staging remembers of a scenario yaml: normalised contents, and the bounded record of upstream
    versions already written or settled. */
module StageRecord {
  import opened Common
  import opened Text

  // --------------------------------------------------------------------- file contents

  /** A file's lines. */
  type Content = seq<string>

  datatype File = Absent | Unreadable | Present(content: Content)

  /** The sha256 of the normalised content; being injective, the content itself stands for it. */
  type Digest = seq<string>

  function NormLine(line: string): Digest {
    if TrimEnd(line) == "" then [] else [TrimEnd(line)]
  }

  /** Trailing white space gone, blank lines dropped, comments kept. */
  function NormLines(lines: Content): Digest {
    if lines == [] then [] else NormLine(lines[0]) + NormLines(lines[1..])
  }

  function NormHash(f: File): Option<Digest> {
    if f.Present? then Some(NormLines(f.content)) else None
  }

  /** What a line counts as: its text before the white space at its end, a comment like any other; nothing when
      it is white space altogether. */
  lemma NormOfOneLine(text: string, gap: string)
    requires LeadingSpace(gap) == |gap| && (text != "" ==> !IsSpace(text[|text| - 1]))
    ensures NormLines([text + gap]) == if text == "" then [] else [text]
  {
    hide TrimEnd, LeadingSpace;
    TrimEndAbsorbs(text, gap);
    TrimmedStays(text);
    assert [text + gap][1..] == [];
    assert NormLines([text + gap]) == NormLine(text + gap) + NormLines([]);
  }

  lemma TrimmedStays(text: string)
    requires text != "" ==> !IsSpace(text[|text| - 1])
    ensures TrimEnd(text) == text
  {
  }

  lemma {:induction false} NormOfConcat(a: Content, b: Content)
    ensures NormLines(a + b) == NormLines(a) + NormLines(b)
  {
    hide NormLine;
    if a == [] {
      assert a + b == b;
    } else {
      assert (a + b)[1..] == a[1..] + b;
      NormOfConcat(a[1..], b);
    }
  }

  lemma SameNormInside(before: Content, a: Content, b: Content, after: Content)
    requires NormLines(a) == NormLines(b)
    ensures NormLines(before + a + after) == NormLines(before + b + after)
  {
    NormOfConcat(before + a, after);
    NormOfConcat(before, a);
    NormOfConcat(before + b, after);
    NormOfConcat(before, b);
  }

  /** White space behind a line, and lines of nothing else, are not an edit. */
  lemma NormIgnoresBlankAndTrailing(before: Content, line: string, gap: string, after: Content)
    requires LeadingSpace(gap) == |gap|
    ensures NormLines(before + [line + gap] + after) == NormLines(before + [line] + after)
    ensures NormLines(before + [gap] + after) == NormLines(before + after)
  {
    TrimEndAbsorbs(line, gap);
    TrimEndAbsorbs("", gap);
    assert "" + gap == gap && TrimEnd(gap) == "";
    assert NormLines([line + gap]) == NormLines([line]);
    SameNormInside(before, [line + gap], [line], after);
    assert NormLines([gap]) == [];
    SameNormInside(before, [gap], [], after);
    assert before + [] == before;
  }

  lemma {:induction false} TrimEndAbsorbs(s: string, gap: string)
    requires LeadingSpace(gap) == |gap|
    ensures TrimEnd(s + gap) == TrimEnd(s)
  {
    if gap == "" {
      assert s + gap == s;
    } else {
      var n := |gap| - 1;
      LeadingSpaceIs(gap[..n], n);
      assert (s + gap)[..|s + gap| - 1] == s + gap[..n];
      TrimEndAbsorbs(s, gap[..n]);
    }
  }

  // ---------------------------------------------------------------------- the record

  const SEEN_LIMIT: nat := 10

  /** The staging record of one file: its source, the upstream versions settled, newest last, and a
      whole-file digest carried over from the older scheme. */
  datatype Entry = Entry(source: string, seen: seq<Digest>, legacy: Option<Content>)

  function Without<T(==)>(s: seq<T>, x: T): (r: seq<T>)
    ensures x !in r && |r| <= |s|
  {
    if s == [] then [] else if s[0] == x then Without(s[1..], x) else [s[0]] + Without(s[1..], x)
  }

  /** list.remove: the first occurrence only. */
  function RemoveFirst<T(==)>(s: seq<T>, x: T): seq<T> {
    if s == [] then [] else if s[0] == x then s[1..] else [s[0]] + RemoveFirst(s[1..], x)
  }

  function LastOf<T>(s: seq<T>, n: nat): seq<T> {
    if |s| <= n then s else s[|s| - n..]
  }

  function Remember(e: Entry, digest: Option<Digest>): Entry {
    if digest.None? then e
    else
      var seen := if digest.value in e.seen then RemoveFirst(e.seen, digest.value) else e.seen;
      e.(seen := LastOf(seen + [digest.value], SEEN_LIMIT), legacy := None)
  }

  ghost predicate Distinct<T>(s: seq<T>) {
    forall i, j :: 0 <= i < j < |s| ==> s[i] != s[j]
  }

  // ------------------------------------------- the last ten distinct versions, by recency

  /** Every version ever recorded, each at its last occurrence, oldest first. */
  function Recency<T(==)>(h: seq<T>): seq<T> {
    if h == [] then [] else Without(Recency(h[..|h| - 1]), h[|h| - 1]) + [h[|h| - 1]]
  }

  /** What is remembered after recording `h`, from an empty record. */
  function Recorded(h: seq<Digest>): seq<Digest> {
    if h == [] then [] else Remember(Entry("", Recorded(h[..|h| - 1]), None), Some(h[|h| - 1])).seen
  }

  lemma {:induction false} WithoutMeans<T>(s: seq<T>, x: T)
    ensures forall y :: y in Without(s, x) <==> y in s && y != x
    ensures x !in s ==> Without(s, x) == s
  {
    if s != [] {
      WithoutMeans(s[1..], x);
      assert s == [s[0]] + s[1..];
    }
  }

  lemma {:induction false} WithoutOfDistinct<T>(s: seq<T>, x: T)
    requires Distinct(s)
    ensures Distinct(Without(s, x)) && RemoveFirst(s, x) == Without(s, x)
    ensures |Without(s, x)| == if x in s then |s| - 1 else |s|
  {
    if s != [] {
      var rest := s[1..];
      WithoutOfDistinct(rest, x);
      WithoutMeans(rest, x);
      assert s[0] !in rest;
    }
  }

  lemma {:induction false} RecencyIsDistinct<T>(h: seq<T>)
    ensures Distinct(Recency(h)) && forall x :: x in Recency(h) <==> x in h
  {
    if h != [] {
      RecencyIsDistinct(h[..|h| - 1]);
      WithoutMeans(Recency(h[..|h| - 1]), h[|h| - 1]);
      WithoutOfDistinct(Recency(h[..|h| - 1]), h[|h| - 1]);
      assert h == h[..|h| - 1] + [h[|h| - 1]];
    }
  }

  lemma {:induction false} WithoutOfConcat<T>(a: seq<T>, b: seq<T>, x: T)
    ensures Without(a + b, x) == Without(a, x) + Without(b, x)
  {
    if a == [] {
      assert a + b == b;
    } else {
      assert (a + b)[1..] == a[1..] + b;
      WithoutOfConcat(a[1..], b, x);
    }
  }

  lemma LastOfConcat<T>(a: seq<T>, b: seq<T>, n: nat)
    requires |b| >= n
    ensures LastOf(a + b, n) == LastOf(b, n)
  {
  }

  /** Dropping the oldest first or removing an entry first comes to the same ten. */
  lemma TrimThenRecord<T>(s: seq<T>, x: T, n: nat)
    requires Distinct(s) && n > 0
    ensures LastOf(Without(LastOf(s, n), x) + [x], n) == LastOf(Without(s, x) + [x], n)
  {
    if |s| > n {
      var early, recent := s[..|s| - n], s[|s| - n..];
      assert s == early + recent;
      WithoutOfConcat(early, recent, x);
      WithoutOfDistinct(recent, x);
      assert Without(s, x) + [x] == Without(early, x) + (Without(recent, x) + [x]);
      LastOfConcat(Without(early, x), Without(recent, x) + [x], n);
    }
  }

  /** The record always is the last ten distinct versions recorded, in the order they were last seen. */
  lemma {:induction false} RecordIsLastTen(h: seq<Digest>)
    ensures Recorded(h) == LastOf(Recency(h), 10)
    ensures Distinct(Recorded(h)) && |Recorded(h)| <= 10
  {
    RecencyIsDistinct(h);
    if h != [] {
      var before, d := h[..|h| - 1], h[|h| - 1];
      RecordIsLastTen(before);
      RecencyIsDistinct(before);
      WithoutOfDistinct(Recorded(before), d);
      WithoutMeans(Recorded(before), d);
      TrimThenRecord(Recency(before), d, SEEN_LIMIT);
    }
  }

  /** The versions other than `d` recorded after its last occurrence. */
  function RecordedSince(h: seq<Digest>, d: Digest): set<Digest> {
    if h == [] || h[|h| - 1] == d then {} else RecordedSince(h[..|h| - 1], d) + {h[|h| - 1]}
  }

  function IndexIn<T(==)>(s: seq<T>, x: T): (i: nat)
    requires x in s
    ensures i < |s| && s[i] == x
  {
    if s[0] == x then 0 else 1 + IndexIn(s[1..], x)
  }

  /** Removing another element keeps what stands around `d` apart. */
  lemma WithoutAround<T>(ahead: seq<T>, d: T, behind: seq<T>, x: T)
    requires x != d
    ensures Without(ahead + [d] + behind, x) == Without(ahead, x) + [d] + Without(behind, x)
  {
    WithoutOfConcat(ahead + [d], behind, x);
    WithoutOfConcat(ahead, [d], x);
    assert Without([d], x) == [d];
  }

  lemma PositionIsUnique<T>(s: seq<T>, i: nat, j: nat)
    requires Distinct(s) && i < |s| && j < |s| && s[i] == s[j]
    ensures i == j
  {
  }

  ghost predicate ElementsAre<T(!new)>(s: seq<T>, elements: set<T>) {
    |elements| == |s| && forall x :: x in elements <==> x in s
  }

  lemma ElementsAfterMove<T(!new)>(s: seq<T>, elements: set<T>, x: T)
    requires Distinct(s) && ElementsAre(s, elements)
    ensures ElementsAre(Without(s, x) + [x], elements + {x})
  {
    WithoutMeans(s, x);
    WithoutOfDistinct(s, x);
    if x in s {
      assert elements + {x} == elements;
    }
  }

  /** Recording another version puts it at the end of what stands behind `d`. */
  lemma BehindAfterRecording<T(!new)>(r: seq<T>, k: nat, since: set<T>, last: T, i: nat)
    requires Distinct(r) && k < |r| && r[k] != last && ElementsAre(r[k + 1..], since)
    requires i < |Without(r, last)| && Without(r, last)[i] == r[k]
    ensures ElementsAre((Without(r, last) + [last])[i + 1..], since + {last})
  {
    hide Without;
    var d, ahead, behind := r[k], r[..k], r[k + 1..];
    assert r == ahead + [d] + behind;
    WithoutAround(ahead, d, behind, last);
    WithoutOfDistinct(r, last);
    var kept := Without(ahead, last);
    PositionIsUnique(Without(r, last), i, |kept|);
    assert (Without(r, last) + [last])[i + 1..] == Without(behind, last) + [last];
    assert forall j :: 0 <= j < |behind| ==> behind[j] == r[k + 1 + j];
    ElementsAfterMove(behind, since, last);
  }

  /** Behind `d` in recency order stand exactly the versions recorded since. */
  lemma {:induction false} BehindInRecency(h: seq<Digest>, d: Digest, i: nat)
    requires i < |Recency(h)| && Recency(h)[i] == d
    ensures ElementsAre(Recency(h)[i + 1..], RecordedSince(h, d))
  {
    RecencyIsDistinct(h);
    var before, last := h[..|h| - 1], h[|h| - 1];
    var r := Recency(before);
    if last == d {
      PositionIsUnique(Recency(h), i, |Recency(h)| - 1);
    } else {
      RecencyIsDistinct(before);
      WithoutMeans(r, last);
      assert d in Without(r, last);
      var k := IndexIn(r, d);
      BehindInRecency(before, d, k);
      BehindAfterRecording(r, k, RecordedSince(before, d), last, i);
    }
  }

  /** A version once recorded stays in the record until ten others have been recorded since. */
  lemma ForgottenAfterTenOthers(h: seq<Digest>, d: Digest)
    requires d in h
    ensures d in Recorded(h) <==> |RecordedSince(h, d)| < 10
  {
    RecordIsLastTen(h);
    RecencyIsDistinct(h);
    var r := Recency(h);
    var i := IndexIn(r, d);
    BehindInRecency(h, d, i);
    if |r| > SEEN_LIMIT {
      var from := |r| - SEEN_LIMIT;
      assert Recorded(h) == r[from..];
      if i >= from {
        assert r[from..][i - from] == d;
      }
    }
  }
}
