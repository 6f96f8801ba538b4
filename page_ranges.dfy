/** `_parse_page_ranges`: a page-range text such as "1-3,5,7-" becomes 0-based page
    positions, bounds-checked and without repeats. */
module PageRanges {
  import opened Wrappers
  import opened Strings
  import opened Sequences

  /** The `ValueError`s the parser raises, with the offending text. */
  datatype RangeError =
    | InvalidStart(text: string)
    | InvalidEnd(text: string)
    | InvalidRange(part: string)
    | InvalidPageNumber(part: string)
    | PageOutOfBounds(part: string)
  {
    function Message(): string {
      match this
      case InvalidStart(t) => "Invalid page start: " + t
      case InvalidEnd(t) => "Invalid page end: " + t
      case InvalidRange(p) => "Invalid range: " + p
      case InvalidPageNumber(p) => "Invalid page number: " + p
      case PageOutOfBounds(p) => "Page out of bounds: " + p
    }
  }

  function Min(a: int, b: int): int { if a <= b then a else b }

  /** The 0-based first position of a range: the first page when the text is empty. */
  function RangeStart(text: string): (r: Result<int, RangeError>)
    ensures text == [] ==> r == Ok(0)
    ensures r.Err? <==> text != [] && ParseInt(text).None?
    ensures r.Err? ==> r == Err(InvalidStart(text))
    ensures text != [] && IsIntText(StripSpace(text)) ==> r == Ok(IntTextValue(StripSpace(text)) - 1)
  {
    if text == [] then Ok(0)
    else match ParseInt(text)
         case None => Err(InvalidStart(text))
         case Some(v) => Ok(v - 1)
  }

  /** The 0-based last position of a range, before clamping: the last page when the text is empty. */
  function RangeEnd(text: string, total: nat): (r: Result<int, RangeError>)
    ensures text == [] ==> r == Ok(total - 1)
    ensures r.Err? <==> text != [] && ParseInt(text).None?
    ensures r.Err? ==> r == Err(InvalidEnd(text))
    ensures text != [] && IsIntText(StripSpace(text)) ==> r == Ok(IntTextValue(StripSpace(text)) - 1)
  {
    if text == [] then Ok(total - 1)
    else match ParseInt(text)
         case None => Err(InvalidEnd(text))
         case Some(v) => Ok(v - 1)
  }

  /** The positions of a range token, split at its first '-': an empty start means the first
      page and an empty end the last; the end is clamped to the last page but the start is not. */
  function RangeToken(part: string, total: nat): (r: Result<seq<int>, RangeError>)
    requires '-' in part
    ensures r.Ok? ==> InBounds(r.value, total)
  {
    var i := FirstIndex(part, '-');
    RangeBetween(part, RangeStart(part[..i]), RangeEnd(part[i + 1..], total), total)
  }

  /** A range token's positions once its two ends have been read: the start's error comes
      first, then the end's; a negative end or an end before the start is an invalid range. */
  function RangeBetween(part: string, start: Result<int, RangeError>, end: Result<int, RangeError>, total: nat)
    : (r: Result<seq<int>, RangeError>)
    ensures r.Ok? ==> InBounds(r.value, total)
  {
    var s :- start;
    var e :- end;
    if s < 0 || e < 0 || s > e then Err(InvalidRange(part))
    else Ok(Interval(s, Min(e, total - 1) + 1))
  }

  /** The position of a token that is one page number, which must lie within the document. */
  function NumberToken(part: string, total: nat): (r: Result<seq<int>, RangeError>)
    ensures r.Ok? ==> InBounds(r.value, total)
    ensures !IsIntText(StripSpace(part)) ==> r == Err(InvalidPageNumber(part))
    ensures IsIntText(StripSpace(part)) ==>
      var page := IntTextValue(StripSpace(part));
      r == if 1 <= page <= total then Ok([page - 1]) else Err(PageOutOfBounds(part))
  {
    match ParseInt(part)
    case None => Err(InvalidPageNumber(part))
    case Some(v) =>
      if v - 1 < 0 || v - 1 >= total then Err(PageOutOfBounds(part)) else Ok([v - 1])
  }

  /** The positions one stripped, non-empty token stands for: a token with a '-' is a range,
      any other token one page number. */
  function TokenIndices(part: string, total: nat): (r: Result<seq<int>, RangeError>)
    ensures r.Ok? ==> InBounds(r.value, total)
  {
    if '-' in part then RangeToken(part, total) else NumberToken(part, total)
  }

  /** The positions of the comma-separated parts in order, before de-duplication; blank parts
      are skipped and the first failing part decides the error. */
  function RawIndices(parts: seq<string>, total: nat): (r: Result<seq<int>, RangeError>)
    ensures r.Ok? ==> InBounds(r.value, total)
    decreases |parts|
  {
    if parts == [] then Ok([])
    else
      var before :- RawIndices(parts[..|parts| - 1], total);
      var part := StripSpace(parts[|parts| - 1]);
      if part == [] then Ok(before)
      else
        var more :- TokenIndices(part, total);
        Ok(before + more)
  }

  /** `_parse_page_ranges(pages, total)`: every page when the text is absent or empty,
      otherwise the parts' positions with repeats removed at their later occurrences. */
  function PageRanges(pages: Option<string>, total: nat): (r: Result<seq<int>, RangeError>)
    ensures pages.None? || pages.value == [] ==> r == Ok(Interval(0, total))
    ensures r.Ok? ==> InBounds(r.value, total) && Distinct(r.value)
  {
    if pages.None? || pages.value == [] then Ok(Interval(0, total))
    else
      match RawIndices(Split(pages.value, ','), total)
      case Err(e) => Err(e)
      case Ok(raw) =>
        DedupDistinct(raw);
        DedupInBounds(raw, total);
        Ok(Dedup(raw))
  }

  lemma DedupInBounds(s: seq<int>, total: nat)
    requires InBounds(s, total)
    ensures InBounds(Dedup(s), total)
  {
    forall k | 0 <= k < |Dedup(s)| ensures 0 <= Dedup(s)[k] < total {
      DedupMember(s, Dedup(s)[k]);
    }
  }

  /** The parser as written: it extends `indices` part by part, then keeps each position the
      first time it is seen. */
  method ParsePageRanges(pages: Option<string>, total: nat) returns (r: Result<seq<int>, RangeError>)
    ensures r == PageRanges(pages, total)
  {
    if pages.None? || pages.value == [] {
      return Ok(Interval(0, total));
    }
    var raw := CollectIndices(Split(pages.value, ','), total);
    if raw.Err? {
      return Err(raw.error);
    }
    var unique := DropRepeats(raw.value);
    return Ok(unique);
  }

  /** The loop over the comma-separated parts, stopping at the first failing part. */
  method CollectIndices(parts: seq<string>, total: nat) returns (r: Result<seq<int>, RangeError>)
    ensures r == RawIndices(parts, total)
  {
    var indices: seq<int> := [];
    var k := 0;
    while k < |parts|
      invariant 0 <= k <= |parts|
      invariant RawIndices(parts[..k], total) == Ok(indices)
    {
      assert parts[..k + 1][..k] == parts[..k];
      var part := StripSpace(parts[k]);
      if part != [] {
        var more := TokenIndices(part, total);
        if more.Err? {
          RawIndicesErrorSticks(parts, k + 1, total);
          return Err(more.error);
        }
        indices := indices + more.value;
      }
      k := k + 1;
    }
    assert parts[..k] == parts;
    return Ok(indices);
  }

  /** The `seen`-set comprehension: each position is kept the first time it occurs. */
  method DropRepeats(indices: seq<int>) returns (unique: seq<int>)
    ensures unique == Dedup(indices)
  {
    var seen: set<int> := {};
    unique := [];
    var j := 0;
    while j < |indices|
      invariant 0 <= j <= |indices|
      invariant unique == Dedup(indices[..j])
      invariant forall x :: x in seen <==> x in indices[..j]
    {
      assert indices[..j + 1][..j] == indices[..j];
      var i := indices[j];
      if i !in seen {
        seen := seen + {i};
        unique := unique + [i];
      }
      j := j + 1;
    }
    assert indices[..j] == indices;
  }

  /** Once a prefix of the parts fails, every longer prefix fails with the same error. */
  lemma {:induction false} RawIndicesErrorSticks(parts: seq<string>, m: nat, total: nat)
    requires m <= |parts| && RawIndices(parts[..m], total).Err?
    ensures RawIndices(parts, total) == RawIndices(parts[..m], total)
    decreases |parts| - m
  {
    if m < |parts| {
      assert parts[..m + 1][..m] == parts[..m];
      RawIndicesErrorSticks(parts, m + 1, total);
    } else {
      assert parts[..m] == parts;
    }
  }

  /** Repeats are dropped at their later occurrences: a position comes before another in the
      result exactly when its first occurrence among the parts' positions comes first, and the
      result holds exactly the parts' positions. */
  lemma PageRangesFirstOccurrence(pages: string, total: nat, i: nat, j: nat)
    requires pages != [] && PageRanges(Some(pages), total).Ok?
    requires i < j < |PageRanges(Some(pages), total).value|
    ensures var raw := RawIndices(Split(pages, ','), total).value;
            var r := PageRanges(Some(pages), total).value;
            r[i] in raw && r[j] in raw && FirstIndex(raw, r[i]) < FirstIndex(raw, r[j])
  {
    var raw := RawIndices(Split(pages, ','), total).value;
    DedupKeepsFirstOccurrenceOrder(raw, i, j);
  }

  lemma PageRangesMembers(pages: string, total: nat, x: int)
    requires pages != [] && PageRanges(Some(pages), total).Ok?
    ensures x in PageRanges(Some(pages), total).value <==> x in RawIndices(Split(pages, ','), total).value
  {
    DedupMember(RawIndices(Split(pages, ','), total).value, x);
  }

  /** A page-range text without commas is one token. */
  lemma OneToken(t: string, total: nat)
    requires t != [] && ',' !in t && StripSpace(t) == t
    ensures TokenIndices(t, total).Err? ==> PageRanges(Some(t), total) == Err(TokenIndices(t, total).error)
    ensures TokenIndices(t, total).Ok? ==> PageRanges(Some(t), total) == Ok(Dedup(TokenIndices(t, total).value))
  {
    assert Split(t, ',') == [t];
    OnePart(t, total);
  }

  /** A comma-free token with repeat-free positions selects exactly those positions. */
  lemma OneTokenSelects(t: string, total: nat, pages: seq<int>)
    requires t != [] && ',' !in t && StripSpace(t) == t
    requires TokenIndices(t, total) == Ok(pages) && Distinct(pages)
    ensures PageRanges(Some(t), total) == Ok(pages)
  {
    OneToken(t, total);
    DedupOfDistinct(pages);
  }

  lemma OnePart(t: string, total: nat)
    requires t != [] && StripSpace(t) == t
    ensures RawIndices([t], total) == TokenIndices(t, total)
  {
    var parts := [t];
    assert parts[..0] == [];
    assert RawIndices(parts[..0], total) == Ok([]);
    var m := TokenIndices(t, total);
    if m.Ok? {
      assert [] + m.value == m.value;
    }
  }

  /** The decimal text of a page number: digits only, so no sign and no comma. */
  lemma NumberText(n: nat)
    ensures var s := NatToString(n);
            s != [] && IsDigit(s[0]) && IsDigit(s[|s| - 1]) && '-' !in s && ',' !in s
  {
    var s := NatToString(n);
    forall i | 0 <= i < |s| ensures s[i] != '-' && s[i] != ',' { assert IsDigit(s[i]); }
  }

  /** The decimal text of a page number reads back as the number. */
  lemma NumberParses(n: nat)
    ensures ParseInt(NatToString(n)) == Some(n)
  {
    IntToStringParses(n);
  }

  lemma NumberedStart(n: nat)
    ensures RangeStart(NatToString(n)) == Ok(n - 1)
  {
    NumberParses(n);
  }

  lemma NumberedEnd(n: nat, total: nat)
    ensures RangeEnd(NatToString(n), total) == Ok(n - 1)
  {
    NumberParses(n);
  }

  lemma NumberStripped(n: nat)
    ensures StripSpace(NatToString(n)) == NatToString(n)
  {
    var s := NatToString(n);
    assert IsDigit(s[0]) && IsDigit(s[|s| - 1]);
    StripSpaceUnchanged(s);
  }

  /** A bare page number, as a token. */
  lemma PageToken(n: nat, total: nat)
    ensures TokenIndices(NatToString(n), total)
            == if 1 <= n <= total then Ok([n - 1]) else Err(PageOutOfBounds(NatToString(n)))
  {
    NumberText(n);
    NumberParses(n);
  }

  /** Splitting `x-y` at its first '-' when `x` has none. */
  lemma DashSplit(x: string, y: string)
    requires '-' !in x
    ensures var t := x + "-" + y;
            '-' in t && FirstIndex(t, '-') == |x| && t[..|x|] == x && t[|x| + 1..] == y
  {
    var t := x + "-" + y;
    assert t[|x|] == '-';
    assert t[..|x|] == x;
    FirstIndexUnique(t, '-', |x|);
  }

  /** A token `x-y` with no '-' in `x` is the range from `x` to `y`. */
  lemma DashToken(x: string, y: string, total: nat)
    requires '-' !in x
    ensures TokenIndices(x + "-" + y, total) == RangeBetween(x + "-" + y, RangeStart(x), RangeEnd(y, total), total)
  {
    DashSplit(x, y);
  }

  /** Two 1-based ends `a` and `b`: pages a..b clamped to the document, unless the range is
      reversed or starts before page 1. */
  lemma BoundedRange(t: string, a: int, b: int, total: nat)
    ensures RangeBetween(t, Ok(a - 1), Ok(b - 1), total)
            == if a < 1 || b < 1 || a > b then Err(InvalidRange(t)) else Ok(Interval(a - 1, Min(b, total)))
  {
    assert Min(b - 1, total - 1) + 1 == Min(b, total);
  }

  /** "a-b" with 1 <= a <= b selects pages a..b, clamped to the document: an end past the
      last page stops at the last page, and a start past the last page selects nothing. */
  lemma ClosedRange(a: nat, b: nat, total: nat)
    requires 1 <= a <= b
    ensures PageRanges(Some(NatToString(a) + "-" + NatToString(b)), total) == Ok(Interval(a - 1, Min(b, total)))
  {
    var x, y := NatToString(a), NatToString(b);
    NumberText(a);
    NumberText(b);
    RangeText(x, y);
    NumberedStart(a);
    NumberedEnd(b, total);
    DashToken(x, y, total);
    BoundedRange(x + "-" + y, a, b, total);
    OneToken(x + "-" + y, total);
    DistinctInterval(a - 1, Min(b, total));
    DedupOfDistinct(Interval(a - 1, Min(b, total)));
  }

  /** "a-b" with b < a is an invalid range. */
  lemma ReversedRange(a: nat, b: nat, total: nat)
    requires 1 <= b < a
    ensures PageRanges(Some(NatToString(a) + "-" + NatToString(b)), total)
            == Err(InvalidRange(NatToString(a) + "-" + NatToString(b)))
  {
    var x, y := NatToString(a), NatToString(b);
    NumberText(a);
    NumberText(b);
    RangeText(x, y);
    NumberedStart(a);
    NumberedEnd(b, total);
    DashToken(x, y, total);
    BoundedRange(x + "-" + y, a, b, total);
    OneToken(x + "-" + y, total);
  }

  /** A range token with an empty start. */
  lemma OpenStartToken(b: nat, total: nat)
    requires 1 <= b
    ensures TokenIndices("-" + NatToString(b), total) == Ok(Interval(0, Min(b, total)))
  {
    var y := NatToString(b);
    var t := "-" + y;
    assert TokenIndices(t, total) == RangeBetween(t, RangeStart(""), RangeEnd(y, total), total) by {
      assert "" + "-" + y == t;
      DashToken("", y, total);
    }
    assert RangeEnd(y, total) == Ok(b - 1) by { NumberedEnd(b, total); }
    BoundedRange(t, 1, b, total);
  }

  /** "-b" starts at the first page. */
  lemma OpenStartRange(b: nat, total: nat)
    requires 1 <= b
    ensures PageRanges(Some("-" + NatToString(b)), total) == Ok(Interval(0, Min(b, total)))
  {
    DistinctInterval(0, Min(b, total));
    OpenStartText(b);
    OpenStartToken(b, total);
    OneTokenSelects("-" + NatToString(b), total, Interval(0, Min(b, total)));
  }

  /** A range token with an empty end. */
  lemma OpenEndToken(a: nat, total: nat)
    requires 1 <= a
    ensures TokenIndices(NatToString(a) + "-", total)
            == if a > total then Err(InvalidRange(NatToString(a) + "-")) else Ok(Interval(a - 1, total))
  {
    var x := NatToString(a);
    var t := x + "-";
    assert TokenIndices(t, total) == RangeBetween(t, RangeStart(x), RangeEnd("", total), total) by {
      NumberText(a);
      assert x + "-" + "" == t;
      DashToken(x, "", total);
    }
    assert RangeStart(x) == Ok(a - 1) by { NumberedStart(a); }
    BoundedRange(t, a, total, total);
  }

  /** "a-" runs to the last page; it is an invalid range when `a` is past the last page. */
  lemma OpenEndRange(a: nat, total: nat)
    requires 1 <= a
    ensures PageRanges(Some(NatToString(a) + "-"), total)
            == if a <= total then Ok(Interval(a - 1, total)) else Err(InvalidRange(NatToString(a) + "-"))
  {
    DistinctInterval(a - 1, total);
    OpenEndText(a);
    OpenEndToken(a, total);
    if a <= total {
      OneTokenSelects(NatToString(a) + "-", total, Interval(a - 1, total));
    } else {
      OneToken(NatToString(a) + "-", total);
    }
  }

  /** A bare page number must name a page of the document. */
  lemma SinglePage(n: nat, total: nat)
    ensures PageRanges(Some(NatToString(n)), total)
            == if 1 <= n <= total then Ok([n - 1]) else Err(PageOutOfBounds(NatToString(n)))
  {
    NumberText(n);
    NumberStripped(n);
    PageToken(n, total);
    OneToken(NatToString(n), total);
    DedupOfDistinct([n - 1]);
  }

  /** Parts that are blank once stripped contribute nothing. */
  lemma {:induction false} BlankParts(parts: seq<string>, total: nat)
    requires forall k :: 0 <= k < |parts| ==> StripSpace(parts[k]) == []
    ensures RawIndices(parts, total) == Ok([])
    decreases |parts|
  {
    if parts != [] {
      var init := parts[..|parts| - 1];
      assert forall k :: 0 <= k < |init| ==> init[k] == parts[k];
      BlankParts(init, total);
    }
  }

  /** Blank parts are skipped, so a lone comma selects nothing (without failing). */
  lemma LoneComma(total: nat)
    ensures PageRanges(Some(","), total) == Ok([])
  {
    CommaSplit();
    assert StripSpace("") == "";
    BlankParts(["", ""], total);
  }

  lemma CommaSplit()
    ensures Split(",", ',') == ["", ""]
  {
    var s := ",";
    assert s[0] == ',';
    assert FirstIndex(s, ',') == 0;
    assert s[..0] == "" && s[1..] == "";
  }

  lemma DistinctInterval(lo: int, hi: int)
    ensures Distinct(Interval(lo, hi))
  {
  }

  lemma RangeText(x: string, y: string)
    requires x != [] && IsDigit(x[0]) && ',' !in x
    requires y != [] && IsDigit(y[|y| - 1]) && ',' !in y
    ensures var t := x + "-" + y; t != [] && ',' !in t && StripSpace(t) == t
  {
    var t := x + "-" + y;
    assert t[0] == x[0] && t[|t| - 1] == y[|y| - 1];
    assert !IsSpace(t[0]) && !IsSpace(t[|t| - 1]);
    StripSpaceUnchanged(t);
  }

  lemma OpenStartText(b: nat)
    ensures var t := "-" + NatToString(b); t != [] && ',' !in t && StripSpace(t) == t
  {
    var y := NatToString(b);
    NumberText(b);
    var t := "-" + y;
    assert t[|t| - 1] == y[|y| - 1];
    assert !IsSpace(t[0]) && !IsSpace(t[|t| - 1]);
    StripSpaceUnchanged(t);
  }

  lemma OpenEndText(a: nat)
    ensures var t := NatToString(a) + "-"; t != [] && ',' !in t && StripSpace(t) == t
  {
    var x := NatToString(a);
    NumberText(a);
    var t := x + "-";
    assert t[0] == x[0];
    assert !IsSpace(t[0]) && !IsSpace(t[|t| - 1]);
    StripSpaceUnchanged(t);
  }

  /** Two comma-separated tokens select the first token's positions followed by the second's,
      each position kept at its first occurrence. */
  lemma TwoTokens(x: string, y: string, total: nat)
    requires x != [] && ',' !in x && StripSpace(x) == x && TokenIndices(x, total).Ok?
    requires y != [] && ',' !in y && StripSpace(y) == y && TokenIndices(y, total).Ok?
    ensures PageRanges(Some(x + "," + y), total) == Ok(Dedup(TokenIndices(x, total).value + TokenIndices(y, total).value))
  {
    var parts := [x, y];
    assert Split(x + "," + y, ',') == parts by { SplitTwo(x, y); }
    assert parts[..1] == [x];
    OnePart(x, total);
  }

  lemma SplitTwo(x: string, y: string)
    requires ',' !in x && ',' !in y
    ensures Split(x + "," + y, ',') == [x, y]
  {
    var t := x + "," + y;
    assert t[|x|] == ',' && t[..|x|] == x && t[|x| + 1..] == y;
    FirstIndexUnique(t, ',', |x|);
  }

  /** "3,1-3" on a five-page document selects pages 3, 1 and 2: page 3 keeps its first place
      and its repeat inside "1-3" is dropped. */
  lemma MixedRangesExample(pages: string)
    requires pages == "3,1-3"
    ensures PageRanges(Some(pages), 5) == Ok([2, 0, 1])
  {
    var x, y := NatToString(3), NatToString(1) + "-" + NatToString(3);
    assert pages == x + "," + y by { MixedRangesText(); }
    assert x != [] && ',' !in x && StripSpace(x) == x && TokenIndices(x, 5) == Ok([2]) by { ThreeToken(); }
    assert y != [] && ',' !in y && StripSpace(y) == y && TokenIndices(y, 5) == Ok([0, 1, 2]) by { OneToThreeToken(); }
    ExampleParts(x, y);
  }

  lemma ExampleParts(x: string, y: string)
    requires x != [] && ',' !in x && StripSpace(x) == x && TokenIndices(x, 5) == Ok([2])
    requires y != [] && ',' !in y && StripSpace(y) == y && TokenIndices(y, 5) == Ok([0, 1, 2])
    ensures PageRanges(Some(x + "," + y), 5) == Ok([2, 0, 1])
  {
    TwoTokens(x, y, 5);
    DedupExample();
  }

  lemma ThreeToken()
    ensures var x := NatToString(3); x != [] && ',' !in x && StripSpace(x) == x && TokenIndices(x, 5) == Ok([2])
  {
    NumberText(3);
    NumberStripped(3);
    PageToken(3, 5);
  }

  lemma OneToThreeToken()
    ensures var y := NatToString(1) + "-" + NatToString(3);
            y != [] && ',' !in y && StripSpace(y) == y && TokenIndices(y, 5) == Ok([0, 1, 2])
  {
    OneToThreeParts(NatToString(1), NatToString(3));
  }

  lemma OneToThreeParts(x: string, y: string)
    requires x == NatToString(1) && y == NatToString(3)
    ensures var t := x + "-" + y; t != [] && ',' !in t && StripSpace(t) == t && TokenIndices(t, 5) == Ok([0, 1, 2])
  {
    NumberText(1);
    NumberText(3);
    RangeText(x, y);
    OneToThree(x, y);
  }

  lemma MixedRangesText()
    ensures NatToString(3) + "," + (NatToString(1) + "-" + NatToString(3)) == "3,1-3"
  {
    assert NatToString(3) == "3" && NatToString(1) == "1";
  }

  /** The token "1-3" on five pages. */
  lemma OneToThree(x: string, y: string)
    requires x == NatToString(1) && y == NatToString(3)
    ensures TokenIndices(x + "-" + y, 5) == Ok([0, 1, 2])
  {
    assert '-' !in x by { NumberText(1); }
    assert RangeStart(x) == Ok(0) by { NumberedStart(1); }
    assert RangeEnd(y, 5) == Ok(2) by { NumberedEnd(3, 5); }
    var t := x + "-" + y;
    assert TokenIndices(t, 5) == RangeBetween(t, Ok(0), Ok(2), 5) by { DashToken(x, y, 5); }
    assert RangeBetween(t, Ok(1 - 1), Ok(3 - 1), 5) == Ok(Interval(0, Min(3, 5))) by { BoundedRange(t, 1, 3, 5); }
    FirstThree();
  }

  lemma FirstThree()
    ensures Interval(0, 3) == [0, 1, 2]
  {
    var r := Interval(0, 3);
    assert |r| == 3 && r[0] == 0 && r[1] == 1 && r[2] == 2;
  }

  lemma DedupExample()
    ensures Dedup([2] + [0, 1, 2]) == [2, 0, 1]
  {
    var s := [2] + [0, 1, 2];
    assert s[..3] == [2, 0, 1] && s[3] == 2;
    assert [2, 0, 1][..2] == [2, 0] && [2, 0][..1] == [2] && [2][..0] == [];
  }
}
