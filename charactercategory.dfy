/** The code point → category table read from the character definition:
    a list of closed code-point ranges, each with a set of categories, the
    first range containing a code point deciding its categories. */
module CharacterCategories {
  import opened Wrappers
  import opened Texts
  import opened CategoryTypes

  /** A range `[low, high]`; `high == None` is the unbounded upper end of
      the catch-all range. */
  datatype Range = Range(low: int, high: Option<int>, categories: set<CategoryType>)

  /** Range.contains. */
  predicate Contains(r: Range, cp: int)
  {
    r.low <= cp && (r.high.None? || cp <= r.high.value)
  }

  /** The catch-all range `[0, ∞)` with DEFAULT, appended after reading. */
  const DEFAULT_RANGE: Range := Range(0, None, {DEFAULT})

  /** `set(CategoryType.DEFAULT)` iterates an enum member, which is not
      iterable: the fallback of get_category_types raises. */
  const NOT_ITERABLE: Error := TypeError("'CategoryType' object is not iterable")

  /** Range.containing_length: the index of the first character of `text`
      outside the range, or `|text|` when all are inside. */
  method ContainingLength(r: Range, text: string) returns (n: nat)
    ensures n <= |text|
    ensures forall i :: 0 <= i < n ==> Contains(r, text[i] as int)
    ensures n < |text| ==> !Contains(r, text[n] as int)
  {
    n := 0;
    while n < |text|
      invariant n <= |text|
      invariant forall i :: 0 <= i < n ==> Contains(r, text[i] as int)
    {
      var c := text[n] as int;
      if c < r.low || (r.high.Some? && c > r.high.value) {
        return;
      }
      n := n + 1;
    }
  }

  /** The categories of the first range from index `i` on that contains
      `cp`. */
  function FirstCategories(ranges: seq<Range>, cp: int, i: nat): (r: Result<set<CategoryType>>)
    requires i <= |ranges|
    ensures r.Ok? <==> exists k :: i <= k < |ranges| && Contains(ranges[k], cp)
    ensures r.Err? ==> r.error == NOT_ITERABLE
    ensures r.Ok? ==> exists k :: i <= k < |ranges| && Contains(ranges[k], cp)
                        && r.value == ranges[k].categories
                        && forall j :: i <= j < k ==> !Contains(ranges[j], cp)
    decreases |ranges| - i
  {
    if i == |ranges| then Err(NOT_ITERABLE)
    else if Contains(ranges[i], cp) then Ok(ranges[i].categories)
    else FirstCategories(ranges, cp, i + 1)
  }

  /** get_category_types over a whole range list. */
  function CategoriesOf(ranges: seq<Range>, cp: int): (r: Result<set<CategoryType>>)
  {
    FirstCategories(ranges, cp, 0)
  }

  /** A blank line or a comment line. */
  predicate IsSkipped(line: string)
  {
    IsBlank(line) || StartsWith(line, "#")
  }

  /** The categories named by the columns from `j` on, up to the first one
      that is empty or starts with `#`; an unknown name raises. */
  function ParseCategories(cols: seq<string>, j: nat, lineNo: nat): (r: Result<set<CategoryType>>)
    requires j <= |cols|
    ensures r.Ok? ==> forall t :: t in r.value ==> exists k :: j <= k < |cols| && Get(cols[k]) == Some(t)
    decreases |cols| - j
  {
    if j == |cols| || StartsWith(cols[j], "#") || cols[j] == "" then Ok({})
    else match Get(cols[j])
      case None => Err(AttributeError(cols[j] + " is invalid type at line " + NatToString(lineNo)))
      case Some(t) =>
        var rest :- ParseCategories(cols, j + 1, lineNo);
        Ok({t} + rest)
  }

  /** One line of the definition (number `lineNo`, from 0): None for a line
      that is skipped, the range it declares, or the error it raises. */
  function ParseLine(raw: string, lineNo: nat): (r: Result<Option<Range>>)
    ensures r.Ok? && r.value.Some? ==>
              r.value.value.high.Some? && r.value.value.low <= r.value.value.high.value
    ensures IsSkipped(RStrip(raw)) ==> r == Ok(None)
  {
    var line := RStrip(raw);
    if IsSkipped(line) then Ok(None)
    else
      var cols := SplitSpaces(line);
      if |cols| < 2 then Err(AttributeError("invalid format at line " + NatToString(lineNo)))
      else if !StartsWith(cols[0], "0x") then Ok(None)
      else
        var bounds := Split(cols[0], "..");
        var low :- ParseHex(bounds[0]);
        var high :- if |bounds| > 1 then ParseHex(bounds[1]) else Ok(low);
        if low > high then Err(AttributeError("invalid range at line " + NatToString(lineNo)))
        else
          var categories :- ParseCategories(cols, 1, lineNo);
          Ok(Some(Range(low, Some(high), categories)))
  }

  /** The ranges appended while reading the first `n` lines, and the error
      that stopped the reading, if any. */
  function Scan(lines: seq<string>, n: nat): (seq<Range>, Option<Error>)
    requires n <= |lines|
  {
    ScanWith(ParseLine, lines, n)
  }

  /** Scan, over any parser of single lines. */
  function ScanWith(parse: (string, nat) -> Result<Option<Range>>, lines: seq<string>, n: nat)
    : (seq<Range>, Option<Error>)
    requires n <= |lines|
  {
    if n == 0 then ([], None)
    else
      var (ranges, e) := ScanWith(parse, lines, n - 1);
      if e.Some? then (ranges, e)
      else match parse(lines[n - 1], n - 1)
        case Err(x) => (ranges, Some(x))
        case Ok(None) => (ranges, None)
        case Ok(Some(range)) => (ranges + [range], None)
  }

  /** Once a line fails, reading more lines changes neither the ranges nor
      the error. */
  lemma ScanStops(lines: seq<string>, k: nat, n: nat)
    requires k <= n <= |lines| && Scan(lines, k).1.Some?
    ensures Scan(lines, n) == Scan(lines, k)
  {
    ScanWithStops(ParseLine, lines, k, n);
  }

  lemma {:induction false} ScanWithStops(parse: (string, nat) -> Result<Option<Range>>, lines: seq<string>, k: nat, n: nat)
    requires k <= n <= |lines| && ScanWith(parse, lines, k).1.Some?
    ensures ScanWith(parse, lines, n) == ScanWith(parse, lines, k)
    decreases n
  {
    if n > k {
      ScanWithStops(parse, lines, k, n - 1);
    }
  }

  function Reverse<T>(s: seq<T>): (r: seq<T>)
    ensures |r| == |s|
    ensures forall i :: 0 <= i < |s| ==> r[i] == s[|s| - 1 - i]
  {
    if |s| == 0 then [] else Reverse(s[1..]) + [s[0]]
  }

  /** The list a successful read leaves: the ranges in reverse order of
      declaration, then the catch-all. */
  function ReadRanges(ranges: seq<Range>): seq<Range>
  {
    Reverse(ranges) + [DEFAULT_RANGE]
  }

  /** After reading, every code point from 0 up has categories: those of
      the range declared last among the ones containing it, or {DEFAULT}. */
  lemma LaterLinesWin(ranges: seq<Range>, cp: int)
    requires cp >= 0
    ensures CategoriesOf(ReadRanges(ranges), cp).Ok?
    ensures (forall k :: 0 <= k < |ranges| ==> !Contains(ranges[k], cp)) ==>
              CategoriesOf(ReadRanges(ranges), cp) == Ok({DEFAULT})
    ensures forall k :: 0 <= k < |ranges| && Contains(ranges[k], cp)
                        && (forall j :: k < j < |ranges| ==> !Contains(ranges[j], cp)) ==>
              CategoriesOf(ReadRanges(ranges), cp) == Ok(ranges[k].categories)
  {
    var list := ReadRanges(ranges);
    var n := |ranges|;
    assert list[n] == DEFAULT_RANGE;
    var r := CategoriesOf(list, cp);
    var i :| 0 <= i < |list| && Contains(list[i], cp) && r.value == list[i].categories
             && forall j :: 0 <= j < i ==> !Contains(list[j], cp);
    forall k | 0 <= k < n && Contains(ranges[k], cp) && (forall j :: k < j < n ==> !Contains(ranges[j], cp))
      ensures r == Ok(ranges[k].categories)
    {
      assert list[n - 1 - k] == ranges[k];
      if i < n {
        assert list[i] == ranges[n - 1 - i];
      }
    }
  }

  class CharacterCategory {
    var rangeList: seq<Range>

    constructor()
      ensures rangeList == []
    {
      rangeList := [];
    }

    /** get_category_types: the categories of the first range containing
        the code point. */
    method GetCategoryTypes(cp: int) returns (r: Result<set<CategoryType>>)
      ensures r == CategoriesOf(rangeList, cp)
    {
      var i := 0;
      while i < |rangeList|
        invariant i <= |rangeList|
        invariant FirstCategories(rangeList, cp, 0) == FirstCategories(rangeList, cp, i)
      {
        if Contains(rangeList[i], cp) {
          return Ok(rangeList[i].categories);
        }
        i := i + 1;
      }
      r := Err(NOT_ITERABLE);
    }

    /** read_character_definition over the lines of the file: each declared
        range is appended; on an error the ranges read so far stay appended;
        otherwise the list is reversed and the catch-all appended. */
    method ReadCharacterDefinition(lines: seq<string>) returns (r: Result<()>)
      modifies this
      ensures Scan(lines, |lines|).1.Some? ==>
                r == Err(Scan(lines, |lines|).1.value)
                && rangeList == old(rangeList) + Scan(lines, |lines|).0
      ensures Scan(lines, |lines|).1.None? ==>
                r.Ok? && rangeList == ReadRanges(old(rangeList) + Scan(lines, |lines|).0)
    {
      var i := 0;
      while i < |lines|
        invariant i <= |lines|
        invariant Scan(lines, i).1.None?
        invariant rangeList == old(rangeList) + Scan(lines, i).0
      {
        var e := ReadLineAt(lines, i, old(rangeList));
        if e.Some? {
          ScanStops(lines, i + 1, |lines|);
          return Err(e.value);
        }
        i := i + 1;
      }
      rangeList := Reverse(rangeList) + [DEFAULT_RANGE];
      r := Ok(());
    }

    /** One line of read_character_definition: its range, if any, is
        appended; its error, if any, is returned. */
    method ReadLineAt(lines: seq<string>, i: nat, ghost base: seq<Range>) returns (e: Option<Error>)
      requires i < |lines| && Scan(lines, i).1.None?
      requires rangeList == base + Scan(lines, i).0
      modifies this
      ensures e == Scan(lines, i + 1).1
      ensures rangeList == base + Scan(lines, i + 1).0
    {
      var parsed := ParseLine(lines[i], i);
      if parsed.Err? {
        return Some(parsed.error);
      }
      if parsed.value.Some? {
        rangeList := rangeList + [parsed.value.value];
      }
      e := None;
    }
  }

  /** A single code point `0xNNNN` gives a range with low == high. */
  lemma SingleCodePoint(raw: string, lineNo: nat)
    requires var line := RStrip(raw); !IsSkipped(line) && |SplitSpaces(line)| >= 2
    requires var c0 := SplitSpaces(RStrip(raw))[0]; StartsWith(c0, "0x") && |Split(c0, "..")| == 1
    requires ParseLine(raw, lineNo).Ok?
    ensures ParseLine(raw, lineNo).value.Some?
    ensures var range := ParseLine(raw, lineNo).value.value; range.high == Some(range.low)
  {
  }
}
