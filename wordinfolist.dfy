/** The word-information block of a lexicon: a table of u32 record
    positions, one per word id, and variable-length records of
    length-prefixed UTF-16LE strings and i32 arrays. */
module WordInfoLists {
  import opened Wrappers
  import opened Bytes
  import opened Unicode

  /** Python's default recursion limit, which bounds the chain of
      dictionary-form hops `get_word_info` can follow. */
  const RECURSION_LIMIT: nat := 1000

  datatype WordInfo = WordInfo(
    surface: string,
    headWordLength: nat,
    posId: nat,
    normalizedForm: string,
    dictionaryFormWordId: int,
    dictionaryForm: string,
    readingForm: string,
    aUnitSplit: seq<int>,
    bUnitSplit: seq<int>,
    wordStructure: seq<int>)

  datatype WordInfoList = WordInfoList(bytes: seq<byte>, offset: nat, wordSize: nat)

  /** word_id_to_offset: the u32 at `offset + 4 * word_id`, taken through a
      slice, so a short slice decodes to a smaller number. */
  function WordIdToOffset(l: WordInfoList, wordId: int): (r: nat)
    ensures var i := l.offset + 4 * wordId;
            0 <= i && i + 4 <= |l.bytes| ==> r == DecodeUnsigned(l.bytes[i .. i + 4])
  {
    DecodeUnsigned(PySlice(l.bytes, l.offset + 4 * wordId, l.offset + 4 * wordId + 4))
  }

  /** buffer_to_string_length: one byte below 128; otherwise its low seven
      bits are the high byte of a 15-bit length whose low byte follows.
      `((b0 & 0x7F) << 8) | b1` is written as the equal `(b0 - 128) * 256 + b1`. */
  function StringLengthAt(buf: seq<byte>, pos: nat): (r: Result<(nat, nat)>)
    ensures r.Ok? <==> pos < |buf| && (buf[pos] >= 128 ==> pos + 1 < |buf|)
    ensures r.Ok? && buf[pos] < 128 ==> r.value == (buf[pos] as nat, pos + 1)
    ensures r.Ok? && buf[pos] >= 128 ==>
              r.value == ((buf[pos] as nat - 128) * 256 + buf[pos + 1] as nat, pos + 2)
    ensures r.Ok? ==> r.value.0 < 0x8000 && r.value.1 <= |buf|
  {
    var length :- ReadByteAt(buf, pos);
    if length < 128 then Ok((length as nat, pos + 1))
    else
      var low :- ReadByteAt(buf, pos + 1);
      Ok(((length as nat - 128) * 256 + low as nat, pos + 2))
  }

  /** buffer_to_string: the length, then twice that many bytes (fewer near
      the end) decoded as UTF-16LE. */
  function StringAt(buf: seq<byte>, pos: nat): (r: Result<(string, nat)>)
    ensures r.Ok? ==> StringLengthAt(buf, pos).Ok? && r.value.1 <= |buf|
    ensures r.Ok? ==>
              var (n, p) := StringLengthAt(buf, pos).value;
              p + 2 * n <= |buf| ==> r.value.1 == p + 2 * n && Ok(r.value.0) == DecodeUtf16Le(buf[p .. p + 2 * n])
  {
    var (n, p) :- StringLengthAt(buf, pos);
    var (bs, q) := Take(buf, p, 2 * n);
    var s :- DecodeUtf16Le(bs);
    Ok((s, q))
  }

  /** Two bytes read as an unsigned number (the part of speech id). */
  function U16At(buf: seq<byte>, pos: nat): (r: (nat, nat))
    requires pos <= |buf|
    ensures r.1 <= |buf|
    ensures pos + 2 <= |buf| ==> r == (DecodeUnsigned(buf[pos .. pos + 2]), pos + 2)
  {
    var (bs, q) := Take(buf, pos, 2);
    (DecodeUnsigned(bs), q)
  }

  /** Four bytes read as a signed number. */
  function I32At(buf: seq<byte>, pos: nat): (r: (int, nat))
    requires pos <= |buf|
    ensures r.1 <= |buf|
    ensures pos + 4 <= |buf| ==> r == (DecodeSigned(buf[pos .. pos + 4]), pos + 4)
  {
    var (bs, q) := Take(buf, pos, 4);
    (DecodeSigned(bs), q)
  }

  /** The first `k` i32 values of an array from `pos`, and the cursor after
      them. */
  function IntsAt(buf: seq<byte>, pos: nat, k: nat): (r: (seq<int>, nat))
    requires pos <= |buf|
    ensures |r.0| == k && pos <= r.1 <= |buf|
    ensures pos + 4 * k <= |buf| ==>
              r.1 == pos + 4 * k && forall i :: 0 <= i < k ==> r.0[i] == DecodeSigned(buf[pos + 4 * i .. pos + 4 * i + 4])
  {
    if k == 0 then ([], pos)
    else
      var (xs, p) := IntsAt(buf, pos, k - 1);
      var (x, q) := I32At(buf, p);
      (xs + [x], q)
  }

  /** buffer_to_int_array: a count byte, then that many i32 values. */
  function IntArrayAt(buf: seq<byte>, pos: nat): (r: Result<(seq<int>, nat)>)
    ensures r.Ok? <==> pos < |buf|
    ensures r.Ok? ==> |r.value.0| == buf[pos] as nat && r.value.1 <= |buf|
  {
    var length :- ReadByteAt(buf, pos);
    Ok(IntsAt(buf, pos + 1, length as nat))
  }

  /** The loop of buffer_to_int_array. */
  method ReadIntArray(buf: seq<byte>, pos: nat) returns (r: Result<(seq<int>, nat)>)
    ensures r == IntArrayAt(buf, pos)
  {
    var length :- ReadByteAt(buf, pos);
    var values: seq<int> := [];
    var cursor: nat := pos + 1;
    var i: nat := 0;
    while i < length as nat
      invariant i <= length as nat
      invariant IntsAt(buf, pos + 1, i) == (values, cursor)
    {
      var (bs, q) := Take(buf, cursor, 4);
      values := values + [DecodeSigned(bs)];
      cursor := q;
      i := i + 1;
    }
    r := Ok((values, cursor));
  }

  /** The record of `word_id` as get_word_info decodes it, before the
      dictionary-form hop: the dictionary form is still the surface, an
      empty normalized form is replaced by the surface, and an empty
      reading form is kept empty. */
  function EntryAtAsWritten(l: WordInfoList, wordId: int): (r: Result<WordInfo>)
    ensures r.Ok? ==> r.value.dictionaryForm == r.value.surface
    ensures r.Ok? ==> r.value.normalizedForm != "" || r.value.surface == ""
    ensures r.Ok? ==> r.value.headWordLength < 0x8000 && r.value.posId < 0x1_0000
    ensures r.Ok? ==> -0x8000_0000 <= r.value.dictionaryFormWordId < 0x8000_0000
    ensures r.Ok? ==> |r.value.aUnitSplit| < 256 && |r.value.bUnitSplit| < 256 && |r.value.wordStructure| < 256
  {
    var buf := l.bytes;
    var index := WordIdToOffset(l, wordId);
    if index > |buf| then Err(ValueError("seek out of range"))
    else
      var (surface, p1) :- StringAt(buf, index);
      var (headWordLength, p2) :- StringLengthAt(buf, p1);
      var (posId, p3) := U16At(buf, p2);
      var (normalized, p4) :- StringAt(buf, p3);
      var (dictionaryFormWordId, p5) := I32At(buf, p4);
      var (readingForm, p6) :- StringAt(buf, p5);
      var (aUnitSplit, p7) :- IntArrayAt(buf, p6);
      var (bUnitSplit, p8) :- IntArrayAt(buf, p7);
      var (wordStructure, _) :- IntArrayAt(buf, p8);
      Ok(WordInfo(surface, headWordLength, posId, if normalized == "" then surface else normalized,
                  dictionaryFormWordId, surface, readingForm, aUnitSplit, bUnitSplit, wordStructure))
  }

  /** The record as read once an empty reading form, too, stands for the
      surface: the writer stores "" for a reading equal to the surface, so
      the reader restores it the way it restores the normalized form. */
  function EntryAt(l: WordInfoList, wordId: int): (r: Result<WordInfo>)
    ensures r.Ok? <==> EntryAtAsWritten(l, wordId).Ok?
    ensures r.Ok? ==> r.value.readingForm != "" || r.value.surface == ""
    ensures r.Ok? ==> r.value.(readingForm := "") == EntryAtAsWritten(l, wordId).value.(readingForm := "")
    ensures r.Ok? && EntryAtAsWritten(l, wordId).value.readingForm != "" ==>
              r.value == EntryAtAsWritten(l, wordId).value
  {
    var e :- EntryAtAsWritten(l, wordId);
    Ok(if e.readingForm == "" then e.(readingForm := e.surface) else e)
  }

  const RECURSION_ERROR: Error := RecursionError("maximum recursion depth exceeded")

  /** Whether get_word_info follows the record's dictionary-form id. */
  predicate Hops(e: WordInfo, wordId: int)
  {
    e.dictionaryFormWordId >= 0 && e.dictionaryFormWordId != wordId
  }

  /** The dictionary-form hop of get_word_info with `depth` frames of
      recursion left, over any record decoder: the record, whose dictionary
      form is the surface of the record its dictionary-form id names when
      that id is not negative and not its own. */
  function ResolveHops(decode: int -> Result<WordInfo>, wordId: int, depth: nat): (r: Result<WordInfo>)
    ensures depth == 0 ==> r == Err(RECURSION_ERROR)
    decreases depth, 2
  {
    if depth == 0 then Err(RECURSION_ERROR)
    else ResolveFrame(decode, wordId, depth)
  }

  /** One frame of get_word_info: the record, then its hop. */
  function ResolveFrame(decode: int -> Result<WordInfo>, wordId: int, depth: nat): (r: Result<WordInfo>)
    requires depth > 0
    decreases depth, 1
  {
    var e :- decode(wordId);
    ResolveRecord(decode, wordId, e, depth)
  }

  /** The frame of get_word_info after its record `e` is decoded. */
  function ResolveRecord(decode: int -> Result<WordInfo>, wordId: int, e: WordInfo, depth: nat): (r: Result<WordInfo>)
    requires depth > 0
    decreases depth, 0
  {
    if Hops(e, wordId) then
      var target :- ResolveHops(decode, e.dictionaryFormWordId, depth - 1);
      Ok(e.(dictionaryForm := target.surface))
    else Ok(e)
  }

  /** The records of one word-information block, by word id. */
  function Decoder(l: WordInfoList): int -> Result<WordInfo>
  {
    wordId => EntryAt(l, wordId)
  }

  /** get_word_info, entered with the whole recursion limit available. */
  function GetWordInfo(l: WordInfoList, wordId: int): (r: Result<WordInfo>)
  {
    ResolveHops(Decoder(l), wordId, RECURSION_LIMIT)
  }

  /** The decoding part of get_word_info: the record field by field, its
      three arrays read with the loop of buffer_to_int_array. */
  method ReadEntry(l: WordInfoList, wordId: int) returns (r: Result<WordInfo>)
    ensures r == EntryAt(l, wordId)
  {
    var buf := l.bytes;
    var index := WordIdToOffset(l, wordId);
    if index > |buf| {
      return Err(ValueError("seek out of range"));
    }
    var surface :- StringAt(buf, index);
    var headWordLength :- StringLengthAt(buf, surface.1);
    var posId := U16At(buf, headWordLength.1);
    var normalized :- StringAt(buf, posId.1);
    var dictionaryFormWordId := I32At(buf, normalized.1);
    var readingForm :- StringAt(buf, dictionaryFormWordId.1);
    var aUnitSplit :- ReadIntArray(buf, readingForm.1);
    var bUnitSplit :- ReadIntArray(buf, aUnitSplit.1);
    var wordStructure :- ReadIntArray(buf, bUnitSplit.1);
    var e := WordInfo(surface.0, headWordLength.0, posId.0,
                      if normalized.0 == "" then surface.0 else normalized.0,
                      dictionaryFormWordId.0, surface.0, readingForm.0,
                      aUnitSplit.0, bUnitSplit.0, wordStructure.0);
    assert EntryAtAsWritten(l, wordId) == Ok(e);
    if e.readingForm == "" {
      e := e.(readingForm := e.surface);
    }
    r := Ok(e);
  }

  /** get_word_info: decodes the record with the loops above, then follows
      the dictionary-form id; the records met along the hop are decoded by
      the function the loops are proved against. */
  method ReadWordInfo(l: WordInfoList, wordId: int, depth: nat) returns (r: Result<WordInfo>)
    ensures r == ResolveHops(Decoder(l), wordId, depth)
  {
    if depth == 0 {
      return Err(RECURSION_ERROR);
    }
    assert ResolveHops(Decoder(l), wordId, depth) == ResolveFrame(Decoder(l), wordId, depth);
    var e :- ReadEntry(l, wordId);
    assert Decoder(l)(wordId) == Ok(e);
    r := ResolveRecord(Decoder(l), wordId, e, depth);
  }

  /** What get_word_info returns: the word's own record with, as dictionary
      form, its own surface when it does not hop and otherwise the surface
      of the record it names. */
  lemma {:induction false} ResolvedIsRecordWithDictionaryForm(decode: int -> Result<WordInfo>, wordId: int, depth: nat)
    requires ResolveHops(decode, wordId, depth).Ok?
    ensures decode(wordId).Ok?
    ensures var r := ResolveHops(decode, wordId, depth).value;
            r == decode(wordId).value.(dictionaryForm := r.dictionaryForm)
    ensures var r := ResolveHops(decode, wordId, depth).value;
            !Hops(decode(wordId).value, wordId) ==> r == decode(wordId).value
    ensures var r := ResolveHops(decode, wordId, depth).value;
            Hops(decode(wordId).value, wordId) ==>
              var target := decode(wordId).value.dictionaryFormWordId;
              decode(target).Ok? && r.dictionaryForm == decode(target).value.surface
    decreases depth
  {
    assert ResolveHops(decode, wordId, depth) == ResolveFrame(decode, wordId, depth);
    var e := decode(wordId).value;
    if Hops(e, wordId) {
      ResolvedIsRecordWithDictionaryForm(decode, e.dictionaryFormWordId, depth - 1);
    }
  }

  /** A record whose dictionary-form id is negative or its own is its own
      dictionary form, at any depth but 0. */
  lemma DictionaryFormOfBaseForm(decode: int -> Result<WordInfo>, wordId: int, depth: nat)
    requires depth > 0 && decode(wordId).Ok? && !Hops(decode(wordId).value, wordId)
    ensures ResolveHops(decode, wordId, depth) == decode(wordId)
  {
    assert ResolveHops(decode, wordId, depth) == ResolveFrame(decode, wordId, depth);
    assert ResolveFrame(decode, wordId, depth) == ResolveRecord(decode, wordId, decode(wordId).value, depth);
  }

  /** One hop to a base form: the dictionary form is that record's surface,
      and the record is otherwise the word's own. */
  lemma DictionaryFormOneHop(decode: int -> Result<WordInfo>, wordId: int, depth: nat)
    requires depth > 1 && decode(wordId).Ok? && Hops(decode(wordId).value, wordId)
    requires var b := decode(wordId).value.dictionaryFormWordId;
             decode(b).Ok? && !Hops(decode(b).value, b)
    ensures var b := decode(wordId).value.dictionaryFormWordId;
            ResolveHops(decode, wordId, depth)
            == Ok(decode(wordId).value.(dictionaryForm := decode(b).value.surface))
  {
    assert ResolveHops(decode, wordId, depth) == ResolveFrame(decode, wordId, depth);
    DictionaryFormOfBaseForm(decode, decode(wordId).value.dictionaryFormWordId, depth - 1);
  }

  /** Two records naming each other as dictionary form never finish: every
      depth runs out, so Python raises RecursionError. */
  lemma {:induction false} CycleExhaustsRecursion(decode: int -> Result<WordInfo>, a: int, b: int, depth: nat)
    requires a != b && a >= 0 && b >= 0
    requires decode(a).Ok? && decode(a).value.dictionaryFormWordId == b
    requires decode(b).Ok? && decode(b).value.dictionaryFormWordId == a
    ensures ResolveHops(decode, a, depth) == Err(RECURSION_ERROR)
    ensures ResolveHops(decode, b, depth) == Err(RECURSION_ERROR)
    decreases depth
  {
    if depth > 0 {
      assert ResolveHops(decode, a, depth) == ResolveFrame(decode, a, depth);
      assert ResolveHops(decode, b, depth) == ResolveFrame(decode, b, depth);
      CycleExhaustsRecursion(decode, a, b, depth - 1);
    }
  }
}
