/** The analysed form of an input text: the edited text, its UTF-8 bytes,
    and per-byte tables mapping each byte to its character, to its position
    in the original text, and to the length of the category run it starts. */
module InputTexts {
  import opened Wrappers
  import opened Bytes
  import opened CategoryTypes

  datatype UTF8InputText = UTF8InputText(
    originalText: string,
    modifiedText: string,
    bytes: seq<byte>,
    offsets: seq<int>,
    byteIndexes: seq<nat>,
    charCategories: seq<set<CategoryType>>,
    continuities: seq<nat>)

  /** get_substring: IndexError for a negative begin, an end past the
      bytes, or begin > end; otherwise the characters between the
      characters of the two bytes. */
  function GetSubstring(t: UTF8InputText, begin: int, end: int): (r: Result<string>)
    ensures begin < 0 || end > |t.bytes| || begin > end ==> r.Err? && r.error.IndexError?
    ensures 0 <= begin <= end <= |t.bytes| && |t.byteIndexes| == |t.bytes| + 1
            && t.byteIndexes[begin] <= t.byteIndexes[end] <= |t.modifiedText| ==>
              r == Ok(t.modifiedText[t.byteIndexes[begin] .. t.byteIndexes[end]])
  {
    if begin < 0 then Err(IndexError("begin"))
    else if end > |t.bytes| then Err(IndexError("end"))
    else if begin > end then Err(IndexError("end - begin"))
    else
      var b :- PyIndex(t.byteIndexes, begin);
      var e :- PyIndex(t.byteIndexes, end);
      Ok(PySlice(t.modifiedText, b, e))
  }

  /** get_offset_text_length: the index of the character byte `index`
      belongs to. */
  function GetOffsetTextLength(t: UTF8InputText, index: int): (r: Result<nat>)
    ensures r.Ok? <==> -|t.byteIndexes| <= index < |t.byteIndexes|
    ensures 0 <= index < |t.byteIndexes| ==> r == Ok(t.byteIndexes[index])
  {
    PyIndex(t.byteIndexes, index)
  }

  /** is_char_alignment: `bytes[index] & 0xC0` is not `0x80`, that is, the
      byte's top two bits are not `10`, so it is no UTF-8 continuation byte
      (RFC 3629, section 3). */
  function IsCharAlignment(t: UTF8InputText, index: int): (r: Result<bool>)
    ensures r.Ok? <==> -|t.bytes| <= index < |t.bytes|
    ensures 0 <= index < |t.bytes| ==> r == Ok(!(0x80 <= t.bytes[index] < 0xC0))
  {
    var b :- PyIndex(t.bytes, index);
    Ok(b / 64 != 2)
  }

  /** get_original_index: the position in the original text of the byte
      `index`, with Python's reading of a negative index. */
  function GetOriginalIndex(t: UTF8InputText, index: int): (r: Result<int>)
    ensures r.Ok? <==> -|t.offsets| <= index < |t.offsets|
    ensures 0 <= index < |t.offsets| ==> r == Ok(t.offsets[index])
  {
    PyIndex(t.offsets, index)
  }

  /** get_char_category_continuous_length: the length in bytes of the
      category run starting at byte `index`. */
  function GetCharCategoryContinuousLength(t: UTF8InputText, index: int): (r: Result<nat>)
    ensures r.Ok? <==> -|t.continuities| <= index < |t.continuities|
    ensures 0 <= index < |t.continuities| ==> r == Ok(t.continuities[index])
  {
    PyIndex(t.continuities, index)
  }

  /** The categories common to the characters `b .. e - 1`, and always
      those of `b`. */
  function Meet(cats: seq<set<CategoryType>>, b: nat, e: nat): (r: set<CategoryType>)
    requires b < |cats| && e <= |cats|
    ensures forall x :: x in r <==> x in cats[b] && forall i :: b < i < e ==> x in cats[i]
    decreases e
  {
    if e <= b + 1 then cats[b] else Meet(cats, b, e - 1) * cats[e - 1]
  }

  /** get_char_category_types with only a begin: the categories of the
      character of byte `begin`. */
  function CharCategoryTypesAt(t: UTF8InputText, begin: int): (r: Result<set<CategoryType>>)
    ensures 0 <= begin < |t.byteIndexes| && t.byteIndexes[begin] < |t.charCategories| ==>
              r == Ok(t.charCategories[t.byteIndexes[begin]])
  {
    var b :- PyIndex(t.byteIndexes, begin);
    PyIndex(t.charCategories, b)
  }

  /** get_char_category_types with a range: no categories when the range
      runs past the category run starting at `begin`; otherwise the
      categories common to the characters of bytes `begin .. end`, where
      a character index past the table raises IndexError. */
  function CharCategoryTypesOver(t: UTF8InputText, begin: int, end: int): (r: Result<set<CategoryType>>)
    ensures 0 <= begin < |t.continuities| && begin + t.continuities[begin] < end ==> r == Ok({})
    ensures 0 <= begin < |t.continuities| && begin + t.continuities[begin] >= end
            && 0 <= begin < |t.byteIndexes| && 0 <= end < |t.byteIndexes|
            && t.byteIndexes[begin] < |t.charCategories| && t.byteIndexes[end] <= |t.charCategories| ==>
              r == Ok(Meet(t.charCategories, t.byteIndexes[begin], t.byteIndexes[end]))
  {
    var run :- PyIndex(t.continuities, begin);
    if begin + run < end then Ok({})
    else
      var b :- PyIndex(t.byteIndexes, begin);
      var e :- PyIndex(t.byteIndexes, end);
      var _ :- PyIndex(t.charCategories, b);
      if e > |t.charCategories| && e > b + 1 then Err(OUT_OF_RANGE)
      else Ok(Meet(t.charCategories, b, if e <= b + 1 then b + 1 else e))
  }

  method CharCategoryTypesIn(t: UTF8InputText, begin: int, end: int) returns (r: Result<set<CategoryType>>)
    ensures r == CharCategoryTypesOver(t, begin, end)
  {
    var run :- PyIndex(t.continuities, begin);
    if begin + run < end {
      return Ok({});
    }
    var b :- PyIndex(t.byteIndexes, begin);
    var e :- PyIndex(t.byteIndexes, end);
    var common :- PyIndex(t.charCategories, b);
    var i: nat := b + 1;
    while i < e
      invariant b < |t.charCategories|
      invariant b + 1 <= i
      invariant i <= e || i == b + 1
      invariant i <= |t.charCategories| && common == Meet(t.charCategories, b, i)
    {
      if i >= |t.charCategories| {
        return Err(OUT_OF_RANGE);
      }
      common := common * t.charCategories[i];
      i := i + 1;
    }
    r := Ok(common);
  }

  /** The first byte from `i` on whose character index reaches `target`,
      or the end of the bytes. */
  function RunEnd(t: UTF8InputText, i: nat, target: int): (e: nat)
    requires |t.byteIndexes| == |t.bytes| + 1
    ensures i <= e && (i <= |t.bytes| ==> e <= |t.bytes|)
    decreases |t.bytes| - i
  {
    if i >= |t.bytes| || t.byteIndexes[i] >= target then i else RunEnd(t, i + 1, target)
  }

  /** What get_code_points_offset_length computes. */
  function CodePointsOffsetLength(t: UTF8InputText, index: nat, n: int): (r: Result<nat>)
    requires |t.byteIndexes| == |t.bytes| + 1
    ensures r.Ok? <==> index <= |t.bytes|
    ensures r.Ok? ==> index + r.value <= |t.bytes|
  {
    var start :- PyIndex(t.byteIndexes, index);
    Ok(RunEnd(t, index, start + n) - index)
  }

  /** The bytes from `i` up to RunEnd all belong to characters before
      `target`, and the byte at RunEnd, if any, does not. */
  lemma {:induction false} RunEndIsFirstReach(t: UTF8InputText, i: nat, target: int)
    requires |t.byteIndexes| == |t.bytes| + 1
    ensures forall k :: i <= k < RunEnd(t, i, target) ==> t.byteIndexes[k] < target
    ensures RunEnd(t, i, target) < |t.bytes| ==> t.byteIndexes[RunEnd(t, i, target)] >= target
    decreases |t.bytes| - i
  {
    if i < |t.bytes| && t.byteIndexes[i] < target {
      RunEndIsFirstReach(t, i + 1, target);
    }
  }

  /** The length get_code_points_offset_length answers spans exactly the
      bytes of the `n` characters from the one of byte `index` (fewer at the
      end of the text), and it covers at least that character's first byte
      when `n` is positive. */
  lemma CodePointsOffsetLengthSpans(t: UTF8InputText, index: nat, n: int)
    requires |t.byteIndexes| == |t.bytes| + 1
    ensures CodePointsOffsetLength(t, index, n).Ok? <==> index <= |t.bytes|
    ensures index <= |t.bytes| ==>
              var len := CodePointsOffsetLength(t, index, n).value;
              index + len <= |t.bytes|
              && (forall k :: index <= k < index + len ==> t.byteIndexes[k] < t.byteIndexes[index] + n)
              && (index + len < |t.bytes| ==> t.byteIndexes[index + len] >= t.byteIndexes[index] + n)
              && (index < |t.bytes| && n >= 1 ==> len >= 1)
  {
    if index <= |t.bytes| {
      RunEndIsFirstReach(t, index, t.byteIndexes[index] + n);
    }
  }

  /** get_code_points_offset_length: the number of bytes from `index` up to
      the first byte whose character lies `n` characters on, or up to the
      end of the bytes. */
  method GetCodePointsOffsetLength(t: UTF8InputText, index: nat, n: int) returns (r: Result<nat>)
    requires |t.byteIndexes| == |t.bytes| + 1
    ensures r == CodePointsOffsetLength(t, index, n)
    ensures index > |t.bytes| ==> r.Err?
    ensures index <= |t.bytes| ==> r.Ok? && index + r.value <= |t.bytes|
    ensures index <= |t.bytes| ==>
              forall i :: index <= i < index + r.value ==> t.byteIndexes[i] < t.byteIndexes[index] + n
    ensures index <= |t.bytes| && index + r.value < |t.bytes| ==>
              t.byteIndexes[index + r.value] >= t.byteIndexes[index] + n
  {
    var start :- PyIndex(t.byteIndexes, index);
    var target := start + n;
    var length: nat := 0;
    var i := index;
    while i < |t.bytes|
      invariant index <= i <= |t.bytes| || i == index
      invariant length == i - index
      invariant forall k :: index <= k < i ==> t.byteIndexes[k] < target
      invariant RunEnd(t, i, target) == RunEnd(t, index, target)
    {
      if t.byteIndexes[i] >= target {
        return Ok(length);
      }
      length := length + 1;
      i := i + 1;
    }
    r := Ok(length);
  }
}
