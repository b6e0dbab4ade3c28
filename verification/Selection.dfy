/** parse_selection: the indices named by a picker answer such as "1,3-5". */
module Selection {
  import opened Common
  import opened Text

  // -------------------------------------------------------------------- text of an answer

  predicate IsDigit(c: char) {
    '0' <= c <= '9'
  }

  /** str.isdigit() on ASCII text: not empty, and digits only. */
  predicate AllDigits(s: string) {
    s != "" && forall i :: 0 <= i < |s| ==> IsDigit(s[i])
  }

  /** int() of a text of digits. */
  function Value(s: string): nat
    requires forall i :: 0 <= i < |s| ==> IsDigit(s[i])
  {
    if s == "" then 0
    else
      assert IsDigit(s[|s| - 1]);
      Value(s[..|s| - 1]) * 10 + (s[|s| - 1] as int - '0' as int)
  }

  /** split(sep): one part more than there are separators. */
  function Split(s: string, sep: char): (parts: seq<string>)
    ensures |parts| > 0
  {
    if s == "" then [""]
    else
      var rest := Split(s[1..], sep);
      if s[0] == sep then [""] + rest else [[s[0]] + rest[0]] + rest[1..]
  }

  function RemoveChar(s: string, c: char): string {
    if s == "" then "" else (if s[0] == c then "" else [s[0]]) + RemoveChar(s[1..], c)
  }

  function IndexOfChar(s: string, c: char): (i: nat)
    ensures i <= |s| && (i < |s| ==> s[i] == c) && forall j :: 0 <= j < i ==> s[j] != c
  {
    if s == "" || s[0] == c then 0 else 1 + IndexOfChar(s[1..], c)
  }

  // ----------------------------------------------------------------- what a part denotes

  /** The 1-based bounds a part stands for, inclusive; None when it does not parse or is out of range. */
  function Bounds(part: string, count: nat): (b: Option<(nat, nat)>)
    ensures b.Some? ==> 1 <= b.value.0 <= b.value.1 <= count
  {
    var dash := IndexOfChar(part, '-');
    if dash < |part| then
      var lo, hi := part[..dash], part[dash + 1..];
      var inRange := AllDigits(lo) && AllDigits(hi) && 1 <= Value(lo) <= Value(hi) <= count;
      if inRange then Some((Value(lo), Value(hi))) else None
    else if AllDigits(part) && 1 <= Value(part) <= count then Some((Value(part), Value(part)))
    else None
  }

  /** A part without a dash is one number from 1 to the count. */
  lemma NumberIsRead(part: string, count: nat)
    requires '-' !in part
    ensures Bounds(part, count) ==
            if AllDigits(part) && 1 <= Value(part) <= count then Some((Value(part), Value(part))) else None
  {
  }

  /** A part with one is two numbers, the first not above the second, within the same bounds. */
  lemma RangeIsRead(lo: string, hi: string, count: nat)
    requires '-' !in lo
    ensures Bounds(lo + "-" + hi, count) ==
            if AllDigits(lo) && AllDigits(hi) && 1 <= Value(lo) <= Value(hi) <= count then Some((Value(lo), Value(hi)))
            else None
  {
    IndexOfFirst(lo, '-', hi);
    var part := lo + "-" + hi;
    assert part[..|lo|] == lo && part[|lo| + 1..] == hi;
  }

  /** Digits in front count ten times what is behind them. */
  lemma {:induction false} ValueOfConcat(a: string, d: char)
    requires (forall i :: 0 <= i < |a| ==> IsDigit(a[i])) && d in "0123456789"
    ensures IsDigit(d) && Value(a + [d]) == 10 * Value(a) + (d as int - 48)
  {
    assert (a + [d])[..|a|] == a;
  }

  /** Every part that is not empty parses. */
  predicate Parses(parts: seq<string>, count: nat) {
    forall p :: p in parts && p != "" ==> Bounds(p, count).Some?
  }

  /** Part `p` names index `i`. */
  predicate Names(p: string, count: nat, i: nat) {
    p != "" && Bounds(p, count).Some? && Bounds(p, count).value.0 <= i + 1 <= Bounds(p, count).value.1
  }

  /** Index `i` is named by some part. */
  predicate Denotes(parts: seq<string>, count: nat, i: nat) {
    exists p :: p in parts && Names(p, count, i)
  }

  /** range(lo, hi) as a set. */
  function Range(lo: nat, hi: nat): (r: set<nat>)
    ensures forall i: nat :: i in r <==> lo <= i < hi
    decreases hi
  {
    if hi <= lo then {} else Range(lo, hi - 1) + {hi - 1}
  }

  function Parts(answer: string): seq<string> {
    Split(RemoveChar(answer, ' '), ',')
  }

  predicate MeansAll(answer: string) {
    answer == "a" || answer == "all" || answer == "*"
  }

  predicate StrictlyIncreasing(s: seq<nat>) {
    forall i, j :: 0 <= i < j < |s| ==> s[i] < s[j]
  }

  /** sorted(chosen). */
  method Sorted(chosen: set<nat>, count: nat) returns (s: seq<nat>)
    requires forall i :: i in chosen ==> i < count
    ensures StrictlyIncreasing(s) && forall i: nat :: i in s <==> i in chosen
  {
    s := [];
    for k := 0 to count
      invariant StrictlyIncreasing(s) && forall i: nat :: i in s <==> i in chosen && i < k
    {
      if k in chosen {
        assert forall j :: 0 <= j < |s| ==> s[j] in s;
        s := s + [k];
      }
    }
  }

  /** None, or the named indices in increasing order: everything for "all", otherwise the union of the
      numbers and ranges, when each one parses and there is one. */
  method ParseSelection(text: string, count: nat) returns (r: Option<seq<nat>>)
    ensures var answer := ToLower(Strip(text));
            if answer == "a" || answer == "all" || answer == "*" then
              r.Some? && forall i: nat :: i in r.value <==> i < count
            else
              && (r.Some? <==> Parses(Parts(answer), count) && exists i: nat :: Denotes(Parts(answer), count, i))
              && (r.Some? ==> forall i: nat :: i in r.value <==> Denotes(Parts(answer), count, i))
    ensures r.Some? ==> StrictlyIncreasing(r.value) && forall i :: i in r.value ==> i < count
  {
    hide Bounds, Denotes, Names, Parts, Strip, ToLower;
    NothingNamed(count);
    var answer := ToLower(Strip(text));
    if MeansAll(answer) {
      var all := Sorted(Range(0, count), count);
      return Some(all);
    }
    var parts := Parts(answer);
    var chosen: set<nat> := {};
    assert parts[..0] == [];
    for k := 0 to |parts|
      invariant Parses(parts[..k], count)
      invariant forall i: nat :: i in chosen <==> Denotes(parts[..k], count, i)
      invariant forall i :: i in chosen ==> i < count
    {
      var part := parts[k];
      assert parts[..k + 1] == parts[..k] + [part];
      if part == "" {
        SamePartsSaid(parts[..k], part, count);
        continue;
      }
      var bounds := Bounds(part, count);
      if bounds == None {
        assert part in parts;
        return None;
      }
      OneMorePart(parts[..k], part, count);
      chosen := chosen + Range(bounds.value.0 - 1, bounds.value.1);
    }
    assert parts[..|parts|] == parts;
    if chosen == {} {
      return None;
    }
    var i :| i in chosen;
    assert Denotes(parts, count, i);
    var s := Sorted(chosen, count);
    return Some(s);
  }

  lemma NothingNamed(count: nat)
    ensures forall i: nat :: !Denotes([], count, i)
  {
  }

  lemma SamePartsSaid(parts: seq<string>, part: string, count: nat)
    requires part == ""
    ensures Parses(parts, count) ==> Parses(parts + [part], count)
    ensures forall i: nat :: Denotes(parts + [part], count, i) <==> Denotes(parts, count, i)
  {
  }

  lemma OneMorePart(parts: seq<string>, part: string, count: nat)
    requires part != "" && Bounds(part, count).Some?
    ensures Parses(parts, count) ==> Parses(parts + [part], count)
    ensures forall i: nat :: Denotes(parts + [part], count, i) <==>
              Denotes(parts, count, i) || Bounds(part, count).value.0 <= i + 1 <= Bounds(part, count).value.1
  {
    forall i: nat
      ensures Denotes(parts + [part], count, i) <==>
                Denotes(parts, count, i) || Bounds(part, count).value.0 <= i + 1 <= Bounds(part, count).value.1
    {
      assert part in parts + [part];
    }
  }

  // ------------------------------------------------------------- writing an answer

  datatype Item = One(n: nat) | Span(lo: nat, hi: nat)

  predicate InRange(item: Item, count: nat) {
    match item
    case One(n) => 1 <= n <= count
    case Span(lo, hi) => 1 <= lo <= hi <= count
  }

  predicate Covers(item: Item, i: nat) {
    match item
    case One(n) => i + 1 == n
    case Span(lo, hi) => lo <= i + 1 <= hi
  }

  function Digit(n: nat): char
    requires n < 10
  {
    ('0' as int + n) as char
  }

  function Decimal(n: nat): (s: string)
    ensures s != "" && forall i :: 0 <= i < |s| ==> IsDigit(s[i])
  {
    if n < 10 then [Digit(n)] else Decimal(n / 10) + [Digit(n % 10)]
  }

  lemma {:induction false} ValueOfDecimal(n: nat)
    ensures Value(Decimal(n)) == n
  {
    if n >= 10 {
      ValueOfDecimal(n / 10);
      var s := Decimal(n);
      assert s[..|s| - 1] == Decimal(n / 10);
    } else {
      assert Decimal(n)[..0] == "";
    }
  }

  function RenderItem(item: Item): string {
    match item
    case One(n) => Decimal(n)
    case Span(lo, hi) => Decimal(lo) + "-" + Decimal(hi)
  }

  function RenderAll(items: seq<Item>): (parts: seq<string>)
    ensures |parts| == |items| && forall k :: 0 <= k < |items| ==> parts[k] == RenderItem(items[k])
  {
    if items == [] then [] else [RenderItem(items[0])] + RenderAll(items[1..])
  }

  function Render(items: seq<Item>): string
    requires items != []
  {
    if |items| == 1 then RenderItem(items[0]) else RenderItem(items[0]) + "," + Render(items[1..])
  }

  lemma IndexOfFirst(before: string, c: char, after: string)
    requires c !in before
    ensures IndexOfChar(before + [c] + after, c) == |before|
  {
    var s := before + [c] + after;
    assert s[|before|] == c;
    assert forall j :: 0 <= j < |before| ==> s[j] == before[j];
  }

  lemma BoundsOfItem(item: Item, count: nat)
    requires InRange(item, count)
    ensures RenderItem(item) != "" && Bounds(RenderItem(item), count).Some?
    ensures forall i: nat :: Covers(item, i) <==> Names(RenderItem(item), count, i)
  {
    match item
    case One(n) =>
      ValueOfDecimal(n);
    case Span(lo, hi) =>
      ValueOfDecimal(lo);
      ValueOfDecimal(hi);
      IndexOfFirst(Decimal(lo), '-', Decimal(hi));
      var s := RenderItem(item);
      assert s[..|Decimal(lo)|] == Decimal(lo) && s[|Decimal(lo)| + 1..] == Decimal(hi);
  }

  /** Nothing but digits, dashes and commas. */
  predicate Plain(s: string) {
    forall i :: 0 <= i < |s| ==> IsDigit(s[i]) || s[i] == '-' || s[i] == ','
  }

  lemma {:induction false} RenderIsPlain(items: seq<Item>)
    requires items != []
    ensures Plain(Render(items)) && Render(items) != "" && IsDigit(Render(items)[0])
  {
    if |items| > 1 {
      RenderIsPlain(items[1..]);
    }
  }

  lemma {:induction false} RemoveAbsent(s: string, c: char)
    requires c !in s
    ensures RemoveChar(s, c) == s
  {
    if s != "" {
      RemoveAbsent(s[1..], c);
      assert s == [s[0]] + s[1..];
    }
  }

  /** Stripping, lowering and dropping spaces leave a plain answer as it is. */
  lemma PlainStays(s: string)
    requires Plain(s) && s != ""
    ensures ToLower(Strip(s)) == s && RemoveChar(s, ' ') == s
  {
    StripOfTrimmed(s);
    assert ToLower(s) == s;
    RemoveAbsent(s, ' ');
  }

  /** Spaces do not matter, wherever they are. */
  lemma SpacesDoNotMatter(a: string, b: string)
    ensures Parts(a + " " + b) == Parts(a + b)
  {
    RemoveFromConcat(a + " ", b, ' ');
    RemoveFromConcat(a, " ", ' ');
    RemoveFromConcat(a, b, ' ');
    assert " "[1..] == "" && RemoveChar(" ", ' ') == "";
    assert RemoveChar(a, ' ') + "" == RemoveChar(a, ' ');
  }

  lemma {:induction false} RemoveFromConcat(a: string, b: string, c: char)
    ensures RemoveChar(a + b, c) == RemoveChar(a, c) + RemoveChar(b, c)
  {
    if a == "" {
      assert a + b == b;
    } else {
      assert (a + b)[1..] == a[1..] + b;
      RemoveFromConcat(a[1..], b, c);
    }
  }

  lemma {:induction false} SplitAbsent(s: string, sep: char)
    requires sep !in s
    ensures Split(s, sep) == [s]
  {
    if s != "" {
      SplitAbsent(s[1..], sep);
      assert s == [s[0]] + s[1..];
    }
  }

  lemma {:induction false} SplitFirst(first: string, sep: char, rest: string)
    requires sep !in first
    ensures Split(first + [sep] + rest, sep) == [first] + Split(rest, sep)
  {
    var s := first + [sep] + rest;
    if first == "" {
      assert s[1..] == rest;
    } else {
      SplitFirst(first[1..], sep, rest);
      assert s[1..] == first[1..] + [sep] + rest;
      assert first == [first[0]] + first[1..];
    }
  }

  lemma {:induction false} SplitOfRender(items: seq<Item>)
    requires items != []
    ensures Split(Render(items), ',') == RenderAll(items)
  {
    var first := RenderItem(items[0]);
    assert ',' !in first;
    if |items| == 1 {
      SplitAbsent(first, ',');
      assert RenderAll(items[1..]) == [];
    } else {
      SplitOfRender(items[1..]);
      SplitFirst(first, ',', Render(items[1..]));
    }
  }

  /** Any comma-and-range way of writing down indices is read as exactly those indices: nothing in it
      is taken for "all", every part parses, and together they name what the items cover. */
  lemma RenderingIsRead(items: seq<Item>, count: nat)
    requires items != [] && forall k :: 0 <= k < |items| ==> InRange(items[k], count)
    ensures var answer := ToLower(Strip(Render(items))); var parts := Parts(answer);
            && !MeansAll(answer) && Parses(parts, count)
            && (exists i: nat :: Denotes(parts, count, i))
            && forall i: nat :: Denotes(parts, count, i) <==> exists k :: 0 <= k < |items| && Covers(items[k], i)
  {
    RenderedAnswer(items);
    PartsOfItems(items, count);
  }

  /** An answer as it is typed. */
  lemma OneAndARange()
    ensures Render([One(1), Span(3, 5)]) == "1,3-5"
    ensures InRange(One(1), 5) && InRange(Span(3, 5), 5)
  {
    assert [One(1), Span(3, 5)][1..] == [Span(3, 5)];
    assert Decimal(1) == "1" && Decimal(3) == "3" && Decimal(5) == "5";
  }

  lemma RenderedAnswer(items: seq<Item>)
    requires items != []
    ensures ToLower(Strip(Render(items))) == Render(items) && !MeansAll(Render(items))
    ensures Parts(Render(items)) == RenderAll(items)
  {
    RenderIsPlain(items);
    PlainStays(Render(items));
    SplitOfRender(items);
  }

  lemma PartsOfItems(items: seq<Item>, count: nat)
    requires items != [] && forall k :: 0 <= k < |items| ==> InRange(items[k], count)
    ensures var parts := RenderAll(items);
            && Parses(parts, count)
            && (exists i: nat :: Denotes(parts, count, i))
            && forall i: nat :: Denotes(parts, count, i) <==> exists k :: 0 <= k < |items| && Covers(items[k], i)
  {
    hide Denotes, Covers, InRange;
    forall i: nat
      ensures Denotes(RenderAll(items), count, i) <==> exists k :: 0 <= k < |items| && Covers(items[k], i)
    {
      PartsDenote(items, count, i);
    }
    PartsParse(items, count);
    var first := SomeCovered(items[0], count);
    PartsDenote(items, count, first);
  }

  lemma PartsParse(items: seq<Item>, count: nat)
    requires forall k :: 0 <= k < |items| ==> InRange(items[k], count)
    ensures Parses(RenderAll(items), count)
  {
    hide Covers, InRange, Bounds, RenderItem;
    forall k | 0 <= k < |items| ensures Bounds(RenderItem(items[k]), count).Some? {
      BoundsOfItem(items[k], count);
    }
  }

  lemma PartsDenote(items: seq<Item>, count: nat, i: nat)
    requires forall k :: 0 <= k < |items| ==> InRange(items[k], count)
    ensures Denotes(RenderAll(items), count, i) <==> exists k :: 0 <= k < |items| && Covers(items[k], i)
  {
    hide Names, Covers, Bounds, InRange, RenderItem;
    var parts := RenderAll(items);
    forall k | 0 <= k < |items| ensures parts[k] in parts && (Covers(items[k], i) <==> Names(parts[k], count, i)) {
      BoundsOfItem(items[k], count);
    }
  }

  lemma SomeCovered(item: Item, count: nat) returns (i: nat)
    requires InRange(item, count)
    ensures Covers(item, i)
  {
    i := if item.One? then item.n - 1 else item.lo - 1;
  }
}
