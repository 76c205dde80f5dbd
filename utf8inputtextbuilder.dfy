/** The editable input text: plugins replace spans of the text, and a map
    from each character to its position in the original text is kept in
    step; build then derives the per-byte tables of the analysed text. */
module InputTextBuilders {
  import opened Wrappers
  import opened Bytes
  import opened Unicode
  import opened CategoryTypes
  import opened CharacterCategories
  import opened InputTexts

  /** utf8_byte_length: the UTF-8 length of a code point (RFC 3629,
      section 3), 0 outside `0 .. 0x10FFFF`. */
  function Utf8ByteLength(cp: int): (n: nat)
    ensures n <= 4
    ensures n == 0 <==> cp < 0 || cp > 0x10FFFF
  {
    if cp < 0 then 0
    else if cp <= 0x7F then 1
    else if cp <= 0x7FF then 2
    else if cp <= 0xFFFF then 3
    else if cp <= 0x10FFFF then 4
    else 0
  }

  /** For a character it is the length of its encoding. */
  lemma Utf8ByteLengthOfChar(c: char)
    ensures Utf8ByteLength(c as int) == |EncodeCharUtf8(c)|
  {
  }

  /** The UTF-8 encoding taken one character at a time from the end. */
  lemma EncodeUtf8Last(s: string)
    requires |s| > 0
    ensures EncodeUtf8(s) == EncodeUtf8(s[..|s| - 1]) + EncodeCharUtf8(s[|s| - 1])
  {
    var front := s[..|s| - 1];
    var last := [s[|s| - 1]];
    assert front + last == s;
    EncodeUtf8Append(front, last);
    assert last[1..] == [];
    assert EncodeUtf8(last) == EncodeCharUtf8(s[|s| - 1]) + EncodeUtf8([]);
  }

  /** `n` copies of `x`. */
  function Repeat<T>(n: nat, x: T): (r: seq<T>)
    ensures |r| == n && forall k :: 0 <= k < n ==> r[k] == x
  {
    seq(n, _ => x)
  }

  /** The old entries still after the run once `i` entries of a splice of
      `begin .. end` to `length` entries are written. */
  ghost function SpliceRest<T>(o: seq<T>, begin: nat, end: nat, length: nat, i: nat): seq<T>
    requires begin <= end <= |o| && i <= length
  {
    if end - begin > length then o[begin + i .. begin + length] + o[end..]
    else if begin + i <= end then o[begin + i..]
    else o[end..]
  }

  /** Writing inside the old span consumes one old entry; writing past it
      consumes none; at the end only the entries after the span are left. */
  lemma SpliceRestNext<T>(o: seq<T>, begin: nat, end: nat, length: nat, i: nat)
    requires begin <= end <= |o| && i < length
    ensures begin + i < end ==>
              |SpliceRest(o, begin, end, length, i)| > 0
              && SpliceRest(o, begin, end, length, i + 1) == SpliceRest(o, begin, end, length, i)[1..]
    ensures begin + i >= end ==> SpliceRest(o, begin, end, length, i + 1) == SpliceRest(o, begin, end, length, i)
  {
    if end - begin > length {
      assert (o[begin + i .. begin + length] + o[end..])[1..] == o[begin + i + 1 .. begin + length] + o[end..];
    } else if begin + i < end {
      assert o[begin + i..][1..] == o[begin + i + 1..];
    }
  }

  /** Once `length` entries are written, what follows is the old tail. */
  lemma SpliceRestDone<T>(o: seq<T>, begin: nat, end: nat, length: nat)
    requires begin <= end <= |o|
    ensures SpliceRest(o, begin, end, length, length) == o[end..]
  {
    if end - begin > length {
      assert o[begin + length .. begin + length] + o[end..] == o[end..];
    }
  }

  /** Overwriting the element just after a run of `x` extends the run. */
  lemma OverwriteNext<T>(p: seq<T>, i: nat, x: T, r: seq<T>)
    requires |r| > 0
    ensures (p + Repeat(i, x) + r)[|p| + i := x] == p + Repeat(i + 1, x) + r[1..]
  {
    var lhs := (p + Repeat(i, x) + r)[|p| + i := x];
    var rhs := p + Repeat(i + 1, x) + r[1..];
    assert |lhs| == |rhs|;
    forall k | 0 <= k < |lhs| ensures lhs[k] == rhs[k] {
    }
  }

  /** Inserting `x` just after a run of `x` extends the run. */
  lemma InsertNext<T>(p: seq<T>, i: nat, x: T, r: seq<T>)
    ensures var s := p + Repeat(i, x) + r;
            s[..|p| + i] + [x] + s[|p| + i..] == p + Repeat(i + 1, x) + r
  {
    var s := p + Repeat(i, x) + r;
    assert s[..|p| + i] == p + Repeat(i, x);
    assert s[|p| + i..] == r;
    assert Repeat(i, x) + [x] == Repeat(i + 1, x);
  }

  /** `vals[i]` repeated once per UTF-8 byte of character `i`, for every
      character of `text`. */
  function PerByte<T>(text: string, vals: seq<T>): (r: seq<T>)
    requires |vals| >= |text|
    decreases |text|
  {
    if |text| == 0 then []
    else
      var last := |text| - 1;
      PerByte(text[..last], vals) + Repeat(Utf8ByteLength(text[last] as int), vals[last])
  }

  /** One entry per byte of the encoding. */
  lemma {:induction false} PerByteLength<T>(text: string, vals: seq<T>)
    requires |vals| >= |text|
    ensures |PerByte(text, vals)| == |EncodeUtf8(text)|
    decreases |text|
  {
    if |text| > 0 {
      var last := |text| - 1;
      PerByteLength(text[..last], vals);
      EncodeUtf8Last(text);
      Utf8ByteLengthOfChar(text[last]);
    }
  }

  /** The indexes `0 .. n - 1`. */
  function Indexes(n: nat): (r: seq<nat>)
    ensures |r| == n && forall i :: 0 <= i < n ==> r[i] == i
  {
    seq(n, i => i)
  }

  /** The per-byte list and the encoding, each split before the last
      character. */
  lemma PerByteLast<T>(text: string, vals: seq<T>)
    requires |vals| >= |text| > 0
    ensures var last := |text| - 1;
            PerByte(text, vals) == PerByte(text[..last], vals) + Repeat(Utf8ByteLength(text[last] as int), vals[last])
            && |PerByte(text[..last], vals)| == |EncodeUtf8(text[..last])|
            && |EncodeUtf8(text)| == |EncodeUtf8(text[..last])| + Utf8ByteLength(text[last] as int)
  {
    var last := |text| - 1;
    PerByteLength(text[..last], vals);
    EncodeUtf8Last(text);
    Utf8ByteLengthOfChar(text[last]);
  }

  /** The character byte `j` of the encoding belongs to, found from the
      end of the text. */
  lemma {:induction false} OwnerOf<T>(text: string, vals: seq<T>, j: nat) returns (i: nat)
    requires |vals| >= |text| && j < |EncodeUtf8(text)|
    ensures |PerByte(text, vals)| == |EncodeUtf8(text)|
    ensures i < |text| && PerByte(text, vals)[j] == vals[i]
    ensures |EncodeUtf8(text[..i])| <= j < |EncodeUtf8(text[..i + 1])|
    decreases |text|
  {
    var last := |text| - 1;
    var front := text[..last];
    PerByteLast(text, vals);
    var tail := Repeat(Utf8ByteLength(text[last] as int), vals[last]);
    assert PerByte(text, vals) == PerByte(front, vals) + tail;
    if j < |EncodeUtf8(front)| {
      i := OwnerOf(front, vals, j);
      assert front[..i] == text[..i] && front[..i + 1] == text[..i + 1];
      assert PerByte(text, vals)[j] == PerByte(front, vals)[j];
    } else {
      i := last;
      assert PerByte(text, vals)[j] == tail[j - |EncodeUtf8(front)|];
      assert text[..last + 1] == text;
    }
  }

  /** Byte `j` of the encoding carries the value of the character it
      belongs to: the encoding of the characters before that one ends at or
      before `j`, and the encoding including it ends after `j`. */
  lemma PerByteOwner<T>(text: string, vals: seq<T>, j: nat)
    requires |vals| >= |text| && j < |EncodeUtf8(text)|
    ensures |PerByte(text, vals)| == |EncodeUtf8(text)|
    ensures exists i :: 0 <= i < |text| && PerByte(text, vals)[j] == vals[i]
              && |EncodeUtf8(text[..i])| <= j < |EncodeUtf8(text[..i + 1])|
  {
    var i := OwnerOf(text, vals, j);
  }

  /** The categories of every character of `text`, in order. */
  function CharCategories(ranges: seq<Range>, text: string): (r: Result<seq<set<CategoryType>>>)
    ensures r.Ok? ==> |r.value| == |text|
    decreases |text|
  {
    if |text| == 0 then Ok([])
    else
      var front :- CharCategories(ranges, text[..|text| - 1]);
      var last :- CategoriesOf(ranges, text[|text| - 1] as int);
      Ok(front + [last])
  }

  /** Character `i` gets the categories its code point has in the table;
      the lookup fails only when some character is in no range. */
  lemma {:induction false} CharCategoriesMeaning(ranges: seq<Range>, text: string)
    ensures CharCategories(ranges, text).Ok? ==>
              forall i :: 0 <= i < |text| ==> CategoriesOf(ranges, text[i] as int) == Ok(CharCategories(ranges, text).value[i])
    ensures (forall i :: 0 <= i < |text| ==> CategoriesOf(ranges, text[i] as int).Ok?) ==>
              CharCategories(ranges, text).Ok?
    decreases |text|
  {
    if |text| > 0 {
      var front := text[..|text| - 1];
      CharCategoriesMeaning(ranges, front);
      assert forall i :: 0 <= i < |front| ==> front[i] == text[i];
    }
  }

  /** get_char_category_continuous_length, searching from `l` (the source
      starts at 1): the first `l` at which the categories of
      `offset .. offset + l` have nothing in common, or the rest of the
      list. */
  function RunFrom(cats: seq<set<CategoryType>>, offset: nat, l: nat): (r: nat)
    requires offset < |cats| && 1 <= l
    ensures l <= r || r == |cats| - offset
    ensures 1 <= r <= |cats| - offset
    decreases |cats| - offset - l
  {
    if offset + l >= |cats| then |cats| - offset
    else if Meet(cats, offset, offset + l + 1) == {} then l
    else RunFrom(cats, offset, l + 1)
  }

  /** The categories of `offset .. offset + k` (k + 1 characters) share one. */
  predicate Shares(cats: seq<set<CategoryType>>, offset: nat, k: nat)
    requires offset + k < |cats|
  {
    Meet(cats, offset, offset + k + 1) != {}
  }

  lemma {:induction false} RunFromMaximal(cats: seq<set<CategoryType>>, offset: nat, l: nat)
    requires offset < |cats| && 1 <= l
    requires forall k :: 1 <= k < l && offset + k < |cats| ==> Shares(cats, offset, k)
    ensures var r := RunFrom(cats, offset, l);
            (forall k :: 1 <= k < r ==> Shares(cats, offset, k))
            && (offset + r < |cats| ==> Meet(cats, offset, offset + r + 1) == {})
    decreases |cats| - offset - l
  {
    if offset + l < |cats| && Meet(cats, offset, offset + l + 1) != {} {
      RunFromMaximal(cats, offset, l + 1);
    }
  }

  /** The run is at least one character long and maximal: every prefix up to it shares a category,
      and adding the next character leaves none. */
  lemma RunLengthMaximal(cats: seq<set<CategoryType>>, offset: nat)
    requires offset < |cats|
    ensures 1 <= RunFrom(cats, offset, 1) <= |cats| - offset
    ensures forall k :: 1 <= k < RunFrom(cats, offset, 1) ==> Shares(cats, offset, k)
    ensures offset + RunFrom(cats, offset, 1) < |cats| ==>
              Meet(cats, offset, offset + RunFrom(cats, offset, 1) + 1) == {}
  {
    RunFromMaximal(cats, offset, 1);
  }

  /** `[n, n - 1, …, 1]`. */
  function Countdown(n: nat): (r: seq<nat>)
    ensures |r| == n && forall k :: 0 <= k < n ==> r[k] == n - k
  {
    seq(n, k requires 0 <= k < n => n - k)
  }

  /** The UTF-8 byte count of `text[i .. j]`, summed one character at a time. */
  function SpanBytes(text: string, i: nat, j: nat): nat
    requires i <= j <= |text|
    decreases j
  {
    if j == i then 0 else SpanBytes(text, i, j - 1) + Utf8ByteLength(text[j - 1] as int)
  }

  /** The sum is the length of the span's encoding. */
  lemma {:induction false} SpanBytesEncoded(text: string, i: nat, j: nat)
    requires i <= j <= |text|
    ensures SpanBytes(text, i, j) == |EncodeUtf8(text[i..j])|
    decreases j
  {
    if j > i {
      SpanBytesEncoded(text, i, j - 1);
      var span := text[i..j];
      EncodeUtf8Last(span);
      assert span[..|span| - 1] == text[i..j - 1];
      assert span[|span| - 1] == text[j - 1];
      Utf8ByteLengthOfChar(text[j - 1]);
    }
  }

  /** The continuity list from character `i`: for each category run, the
      countdown from its byte length to 1. */
  function ContinuitiesFrom(text: string, cats: seq<set<CategoryType>>, i: nat): seq<nat>
    requires |cats| == |text| && i <= |text|
    decreases |text| - i
  {
    if i == |text| then []
    else
      var next := i + RunFrom(cats, i, 1);
      Countdown(SpanBytes(text, i, next)) + ContinuitiesFrom(text, cats, next)
  }

  /** The continuity list has one entry per byte of the text from `i`. */
  lemma {:induction false} ContinuitiesLength(text: string, cats: seq<set<CategoryType>>, i: nat)
    requires |cats| == |text| && i <= |text|
    ensures |ContinuitiesFrom(text, cats, i)| == |EncodeUtf8(text[i..])|
    decreases |text| - i
  {
    if i < |text| {
      var next := i + RunFrom(cats, i, 1);
      ContinuitiesLength(text, cats, next);
      SpanBytesEncoded(text, i, next);
      assert text[i..] == text[i..next] + text[next..];
      EncodeUtf8Append(text[i..next], text[next..]);
    }
  }

  /** get_char_category_continuous_length's loop. */
  method ContinuousLength(cats: seq<set<CategoryType>>, offset: nat) returns (length: nat)
    requires offset < |cats|
    ensures length == RunFrom(cats, offset, 1)
  {
    var common := cats[offset];
    length := 1;
    while length < |cats| - offset
      invariant 1 <= length <= |cats| - offset
      invariant common == Meet(cats, offset, offset + length)
      invariant RunFrom(cats, offset, 1) == RunFrom(cats, offset, length)
    {
      common := common * cats[offset + length];
      if common == {} {
        return;
      }
      length := length + 1;
    }
  }

  /** The byte count loop of get_char_category_continuities. */
  method SpanByteLength(text: string, i: nat, next: nat) returns (length: nat)
    requires i <= next <= |text|
    ensures length == SpanBytes(text, i, next)
  {
    length := 0;
    var j := i;
    while j < next
      invariant i <= j <= next
      invariant length == SpanBytes(text, i, j)
    {
      length := length + Utf8ByteLength(text[j] as int);
      j := j + 1;
    }
  }

  /** One step of the continuity list: the countdown of the run at `i`,
      then the list from the end of that run. */
  lemma ContinuitiesStep(text: string, cats: seq<set<CategoryType>>, i: nat)
    requires |cats| == |text| && i < |text|
    ensures i + RunFrom(cats, i, 1) <= |text|
    ensures ContinuitiesFrom(text, cats, i)
            == Countdown(SpanBytes(text, i, i + RunFrom(cats, i, 1)))
               + ContinuitiesFrom(text, cats, i + RunFrom(cats, i, 1))
  {
  }

  /** The body of get_char_category_continuities' loop for the run at
      `i`: its length in characters, and the countdown of its byte length. */
  method RunCountdown(text: string, cats: seq<set<CategoryType>>, i: nat) returns (run: nat, down: seq<nat>)
    requires |cats| == |text| && i < |text|
    ensures run == RunFrom(cats, i, 1)
    ensures down == Countdown(SpanBytes(text, i, i + run))
  {
    run := ContinuousLength(cats, i);
    var length := SpanByteLength(text, i, i + run);
    down := [];
    var k: nat := length;
    while k > 0
      invariant k <= length
      invariant down == Countdown(length)[..length - k]
    {
      assert Countdown(length)[..length - k + 1] == Countdown(length)[..length - k] + [k];
      down := down + [k];
      k := k - 1;
    }
    assert Countdown(length)[..length] == Countdown(length);
  }

  /** get_char_category_continuities. */
  method CharCategoryContinuities(text: string, cats: seq<set<CategoryType>>) returns (r: seq<nat>)
    requires |cats| == |text|
    ensures r == ContinuitiesFrom(text, cats, 0)
  {
    r := [];
    var i: nat := 0;
    while i < |cats|
      invariant i <= |cats|
      invariant r + ContinuitiesFrom(text, cats, i) == ContinuitiesFrom(text, cats, 0)
      decreases |cats| - i
    {
      var run, down := RunCountdown(text, cats, i);
      ContinuitiesStep(text, cats, i);
      assert (r + down) + ContinuitiesFrom(text, cats, i + run) == r + ContinuitiesFrom(text, cats, i);
      r := r + down;
      i := i + run;
    }
    assert ContinuitiesFrom(text, cats, i) == [];
    assert r + [] == r;
  }

  /** The analysed text's tables for `text` whose characters map to
      `textOffsets` in the original. */
  function BuiltText(original: string, text: string, textOffsets: seq<int>, cats: seq<set<CategoryType>>): UTF8InputText
    requires |textOffsets| == |text| + 1 && |cats| == |text|
  {
    UTF8InputText(original, text, EncodeUtf8(text),
      PerByte(text, textOffsets) + [textOffsets[|text|]],
      PerByte<nat>(text, Indexes(|text|)) + [|text|],
      cats,
      ContinuitiesFrom(text, cats, 0))
  }

  /** The built text has a byte index and an offset for every byte and one
      for the end. */
  lemma BuiltTextIndexed(original: string, text: string, textOffsets: seq<int>, cats: seq<set<CategoryType>>)
    requires |textOffsets| == |text| + 1 && |cats| == |text|
    ensures var t := BuiltText(original, text, textOffsets, cats);
            |t.byteIndexes| == |t.bytes| + 1 && |t.offsets| == |t.bytes| + 1
  {
    PerByteLength(text, textOffsets);
    PerByteLength<nat>(text, Indexes(|text|));
  }

  class UTF8InputTextBuilder {
    const originalText: string
    var modifiedText: string
    var textOffsets: seq<int>
    /** The character categories of the grammar. */
    const characterCategory: CharacterCategory

    /** The map has an entry per character and one for the end. */
    predicate Valid()
      reads this
    {
      |textOffsets| == |modifiedText| + 1
    }

    constructor(text: string, characterCategory: CharacterCategory)
      ensures Valid()
      ensures originalText == text && modifiedText == text && this.characterCategory == characterCategory
      ensures textOffsets == Indexes(|text| + 1)
    {
      originalText := text;
      modifiedText := text;
      textOffsets := Indexes(|text| + 1);
      this.characterCategory := characterCategory;
    }

    /** get_original_text: the text the builder was made with; replace
        never changes it. */
    function GetOriginalText(): (r: string)
      reads this
      ensures r == originalText
    {
      originalText
    }

    /** get_text: the text after the replacements so far, with one offset
        entry per character and one for the end. */
    function GetText(): (r: string)
      reads this
      ensures Valid() ==> |textOffsets| == |r| + 1
    {
      modifiedText
    }

    /** replace: IndexError for a begin that is negative or past the text or
        past the end, AttributeError for an empty span; otherwise the span
        (its end clamped to the text) becomes `s`, and every character of
        `s` maps to where the span began in the original. */
    method Replace(begin: int, end: int, s: string) returns (r: Result<()>)
      requires Valid()
      modifies this`modifiedText, this`textOffsets
      ensures Valid()
      ensures begin < 0 || begin > |old(modifiedText)| || begin > end ==>
                r.Err? && r.error.IndexError? && unchanged(this)
      ensures 0 <= begin <= |old(modifiedText)| && begin == end ==>
                r.Err? && r.error.AttributeError? && unchanged(this)
      ensures 0 <= begin <= |old(modifiedText)| && begin < end ==>
                var e := if end > |old(modifiedText)| then |old(modifiedText)| else end;
                r.Ok?
                && modifiedText == old(modifiedText)[..begin] + s + old(modifiedText)[e..]
                && textOffsets == old(textOffsets)[..begin] + Repeat(|s|, old(textOffsets)[begin])
                                  + old(textOffsets)[e..]
    {
      if begin < 0 {
        return Err(IndexError("begin"));
      }
      if begin > |modifiedText| {
        return Err(IndexError("begin > length"));
      }
      if begin > end {
        return Err(IndexError("begin > end"));
      }
      if begin == end {
        return Err(AttributeError("begin == end"));
      }
      var e: nat := if end > |modifiedText| then |modifiedText| else end;
      modifiedText := modifiedText[..begin] + s + modifiedText[e..];
      SpliceOffsets(begin, e, |s|);
      r := Ok(());
    }

    /** The offset-map part of replace: the entries of `begin .. end` are
        dropped past `length`, overwritten, and new ones inserted, all with
        the offset of `begin`. */
    method SpliceOffsets(begin: nat, end: nat, length: nat)
      requires begin <= end < |textOffsets|
      modifies this`textOffsets
      ensures textOffsets == old(textOffsets)[..begin] + Repeat(length, old(textOffsets)[begin])
                             + old(textOffsets)[end..]
    {
      ghost var o := textOffsets;
      var offset := textOffsets[begin];
      var dropped := end - begin > length;
      if dropped {
        textOffsets := textOffsets[..begin + length] + textOffsets[end..];
      }
      assert textOffsets == o[..begin] + Repeat(0, offset) + SpliceRest(o, begin, end, length, 0);
      var i := 0;
      while i < length
        invariant i <= length
        invariant textOffsets == o[..begin] + Repeat(i, offset) + SpliceRest(o, begin, end, length, i)
      {
        SpliceStep(begin, end, length, i, offset, o);
        i := i + 1;
      }
      SpliceRestDone(o, begin, end, length);
    }

    /** One pass of replace's offset loop: entry `begin + i` is overwritten
        while inside the old span and inserted past it. */
    method SpliceStep(begin: nat, end: nat, length: nat, i: nat, offset: int, ghost o: seq<int>)
      requires begin <= end <= |o| && i < length
      requires textOffsets == o[..begin] + Repeat(i, offset) + SpliceRest(o, begin, end, length, i)
      modifies this`textOffsets
      ensures textOffsets == o[..begin] + Repeat(i + 1, offset) + SpliceRest(o, begin, end, length, i + 1)
    {
      SpliceRestNext(o, begin, end, length, i);
      assert |o[..begin]| == begin;
      if begin + i < end {
        OverwriteNext(o[..begin], i, offset, SpliceRest(o, begin, end, length, i));
        textOffsets := textOffsets[begin + i := offset];
      } else {
        InsertNext(o[..begin], i, offset, SpliceRest(o, begin, end, length, i));
        textOffsets := textOffsets[..begin + i] + [offset] + textOffsets[begin + i..];
      }
    }

    /** build: the analysed text of the current text, or the error raised
        while looking up a character's categories. */
    method Build() returns (r: Result<UTF8InputText>)
      requires Valid()
      ensures CharCategories(characterCategory.rangeList, modifiedText).Err? ==> r.Err?
      ensures CharCategories(characterCategory.rangeList, modifiedText).Ok? ==>
                r == Ok(BuiltText(originalText, modifiedText, textOffsets,
                                  CharCategories(characterCategory.rangeList, modifiedText).value))
    {
      var text := modifiedText;
      var byteText := EncodeUtf8(text);
      var byteIndexes, offsets := SpreadPerByte(text, textOffsets);
      byteIndexes := byteIndexes + [|text|];
      offsets := offsets + [textOffsets[|textOffsets| - 1]];
      var cats :- CharCategoryTypes(text);
      var continuities := CharCategoryContinuities(text, cats);
      r := Ok(UTF8InputText(originalText, text, byteText, offsets, byteIndexes, cats, continuities));
    }

    /** get_char_category_types: the categories of each character. */
    method CharCategoryTypes(text: string) returns (r: Result<seq<set<CategoryType>>>)
      ensures r == CharCategories(characterCategory.rangeList, text)
    {
      var types: seq<set<CategoryType>> := [];
      var i := 0;
      while i < |text|
        invariant i <= |text|
        invariant CharCategories(characterCategory.rangeList, text[..i]) == Ok(types)
      {
        assert text[..i + 1][..i] == text[..i];
        var t := characterCategory.GetCategoryTypes(text[i] as int);
        if t.Err? {
          CharCategoriesFailAt(characterCategory.rangeList, text, i + 1, |text|);
          assert text[..|text|] == text;
          return Err(t.error);
        }
        types := types + [t.value];
        i := i + 1;
      }
      assert text[..i] == text;
      r := Ok(types);
    }
  }

  /** Once a character has no categories, every longer prefix fails too. */
  lemma {:induction false} CharCategoriesFailAt(ranges: seq<Range>, text: string, k: nat, n: nat)
    requires 0 < k <= n <= |text|
    requires CharCategories(ranges, text[..k - 1]).Ok? && CategoriesOf(ranges, text[k - 1] as int).Err?
    ensures CharCategories(ranges, text[..n]) == Err(CategoriesOf(ranges, text[k - 1] as int).error)
    decreases n
  {
    assert text[..n][..n - 1] == text[..n - 1];
    if n > k {
      CharCategoriesFailAt(ranges, text, k, n - 1);
    }
  }

  /** The loops of build filling the two per-byte tables. */
  method SpreadPerByte(text: string, textOffsets: seq<int>) returns (byteIndexes: seq<nat>, offsets: seq<int>)
    requires |textOffsets| >= |text|
    ensures byteIndexes == PerByte<nat>(text, Indexes(|text|))
    ensures offsets == PerByte(text, textOffsets)
  {
    byteIndexes, offsets := [], [];
    var i := 0;
    while i < |text|
      invariant i <= |text|
      invariant byteIndexes == PerByte<nat>(text[..i], Indexes(|text|))
      invariant offsets == PerByte(text[..i], textOffsets)
    {
      assert text[..i + 1][..i] == text[..i];
      var n := Utf8ByteLength(text[i] as int);
      var k := 0;
      ghost var b0, o0 := byteIndexes, offsets;
      while k < n
        invariant k <= n
        invariant byteIndexes == b0 + Repeat(k, i) && offsets == o0 + Repeat(k, textOffsets[i])
      {
        assert Repeat(k + 1, i) == Repeat(k, i) + [i];
        assert Repeat(k + 1, textOffsets[i]) == Repeat(k, textOffsets[i]) + [textOffsets[i]];
        byteIndexes := byteIndexes + [i];
        offsets := offsets + [textOffsets[i]];
        k := k + 1;
      }
      i := i + 1;
    }
    assert text[..i] == text;
  }
}
