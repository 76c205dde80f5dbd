/** The byte layout the dictionary writer produces: the typed integer
    fields, length-prefixed UTF-16LE strings, i32 arrays and whole
    word-information records, each with the lemma that the readers of the
    dictionary format decode it back. */
module DictionaryLayouts {
  import opened Wrappers
  import opened Bytes
  import opened Unicode
  import JTypedByteBuffers
  import WordInfoLists

  const BYTE_MAX_VALUE: nat := 127

  // ---- the string and array encoders ------------------------------------------

  /** The bytes of `write_int(x, typ)` with its default signedness. */
  function IntField(x: int, typ: string): (r: Result<seq<byte>>)
  {
    JTypedByteBuffers.IntBytes(x, typ, true)
  }

  // ---- placement of written bytes ---------------------------------------------

  /** `bytes` sits in `buf` from position `p`. */
  predicate IsAt(buf: seq<byte>, p: nat, bytes: seq<byte>)
  {
    p + |bytes| <= |buf| && buf[p .. p + |bytes|] == bytes
  }

  lemma IsAtMeans(buf: seq<byte>, p: nat, bytes: seq<byte>)
    ensures IsAt(buf, p, bytes) <==> p + |bytes| <= |buf| && buf[p .. p + |bytes|] == bytes
  {
  }

  lemma IsAtSplit(buf: seq<byte>, p: nat, x: seq<byte>, y: seq<byte>)
    requires IsAt(buf, p, x + y)
    ensures IsAt(buf, p, x) && IsAt(buf, p + |x|, y)
  {
    IsAtMeans(buf, p, x + y);
    IsAtMeans(buf, p, x);
    IsAtMeans(buf, p + |x|, y);
    assert buf[p .. p + |x|] == (x + y)[..|x|];
    assert buf[p + |x| .. p + |x| + |y|] == (x + y)[|x|..];
  }

  /** Bytes placed at `p` hold every prefix of themselves there too. */
  lemma IsAtPrefix(buf: seq<byte>, p: nat, x: seq<byte>, y: seq<byte>)
    requires IsAt(buf, p, x) && y <= x
    ensures IsAt(buf, p, y)
  {
    assert buf[p .. p + |y|] == buf[p .. p + |x|][..|y|];
  }

  /** The second of two pieces placed at `p` sits at `q`, right after the
      first. */
  lemma IsAtAfter(buf: seq<byte>, p: nat, x: seq<byte>, y: seq<byte>, q: nat)
    requires IsAt(buf, p, x + y) && q == p + |x|
    ensures IsAt(buf, q, y)
  {
    IsAtSplit(buf, p, x, y);
  }

  /** The first of three pieces placed at `p`. */
  lemma FirstAt(buf: seq<byte>, p: nat, x: seq<byte>, y: seq<byte>, z: seq<byte>)
    requires IsAt(buf, p, x + y + z)
    ensures IsAt(buf, p, x)
  {
    ThreeAt(buf, p, x, y, z);
  }

  /** The second of three pieces placed at `p`, at `q`. */
  lemma SecondAt(buf: seq<byte>, p: nat, x: seq<byte>, y: seq<byte>, z: seq<byte>, q: nat)
    requires IsAt(buf, p, x + y + z) && q == p + |x|
    ensures IsAt(buf, q, y)
  {
    ThreeAt(buf, p, x, y, z);
  }

  /** The third of three pieces placed at `p`, at `r`. */
  lemma ThirdAt(buf: seq<byte>, p: nat, x: seq<byte>, y: seq<byte>, z: seq<byte>, r: nat)
    requires IsAt(buf, p, x + y + z) && r == p + |x| + |y|
    ensures IsAt(buf, r, z)
  {
    ThreeAt(buf, p, x, y, z);
  }

  /** Three pieces laid one after another. */
  lemma ThreeAt(buf: seq<byte>, p: nat, x: seq<byte>, y: seq<byte>, z: seq<byte>)
    requires IsAt(buf, p, x + y + z)
    ensures IsAt(buf, p, x) && IsAt(buf, p + |x|, y) && IsAt(buf, p + |x| + |y|, z)
  {
    IsAtSplit(buf, p, x + y, z);
    IsAtSplit(buf, p, x, y);
  }

  /** 'int' and 'short' are the signed four- and two-byte layouts. */
  lemma IntFieldWidths(x: int)
    ensures IntField(x, "int") == ToBytes(x, 4, true)
    ensures IntField(x, "short") == ToBytes(x, 2, true)
  {
  }

  /** A signed 'int' field reads back through the reader's i32. */
  lemma I32FieldRoundTrip(x: int, buf: seq<byte>, p: nat) returns (r: nat)
    requires IntField(x, "int").Ok? && IsAt(buf, p, IntField(x, "int").value)
    ensures r == p + 4
    ensures p <= |buf| && WordInfoLists.I32At(buf, p) == (x, r)
  {
    r := p + 4;
    IsAtMeans(buf, p, IntField(x, "int").value);
    IntFieldWidths(x);
    ToBytesRoundTrip(x, 4, true);
  }

  /** A non-negative 'short' field reads back through the reader's
      unsigned two-byte read. */
  lemma U16FieldRoundTrip(x: nat, buf: seq<byte>, p: nat) returns (r: nat)
    requires IntField(x, "short").Ok? && IsAt(buf, p, IntField(x, "short").value)
    ensures r == p + 2
    ensures p <= |buf| && WordInfoLists.U16At(buf, p) == (x, r)
  {
    r := p + 2;
    IsAtMeans(buf, p, IntField(x, "short").value);
    IntFieldWidths(x);
    SignedReadUnsigned(x, 2);
  }

  /** `h | 0x80`, written arithmetically: bit 7 is added unless already set. */
  function WithBit7(h: nat): (r: nat)
    ensures r >= 0x80 && (h < 0x100 ==> r < 0x100)
    ensures h < 0x80 ==> r == h + 0x80
    ensures 0x80 <= h ==> r >= h
  {
    if (h / 0x80) % 2 == 1 then h else h + 0x80
  }

  /** write_stringlength: one byte up to 127; otherwise `(len >> 8) | 0x80`
      then `len & 0xFF`, each written as a 'byte', which fails (OverflowError)
      for a first byte over 255. */
  function StringLengthBytes(n: nat): (r: Result<seq<byte>>)
    ensures n <= BYTE_MAX_VALUE ==> r == Ok([n])
    ensures r.Ok? <==> n < 0x1_0000
    ensures BYTE_MAX_VALUE < n < 0x1_0000 ==> r == Ok([WithBit7(n / 256), n % 256])
  {
    if n <= BYTE_MAX_VALUE then
      ByteField(n)
    else
      var hi :- ByteField(WithBit7(n / 256));
      var lo := ByteField(n % 256).value;
      assert hi + lo == [WithBit7(n / 256), n % 256];
      Ok(hi + lo)
  }

  /** The bytes of `write_int(x, 'byte')`: one byte, OverflowError outside
      0..255. */
  function ByteField(x: int): (r: Result<seq<byte>>)
    ensures r.Ok? <==> 0 <= x < 256
    ensures r.Ok? ==> r.value == [x]
  {
    assert 0 <= x < 256 ==> EncodeUnsigned(x, 1) == [x % 256] + EncodeUnsigned(x / 256, 0);
    JTypedByteBuffers.IntBytes(x, "byte", true)
  }

  /** A length below 0x8000 reads back through the reader's length prefix. */
  lemma StringLengthRoundTrip(n: nat, buf: seq<byte>, p: nat) returns (r: nat)
    requires n < 0x8000 && IsAt(buf, p, StringLengthBytes(n).value)
    ensures r == p + |StringLengthBytes(n).value|
    ensures WordInfoLists.StringLengthAt(buf, p) == Ok((n, r))
  {
    r := p + |StringLengthBytes(n).value|;
    IsAtMeans(buf, p, StringLengthBytes(n).value);
    if n > BYTE_MAX_VALUE {
      assert buf[p] == StringLengthBytes(n).value[0];
      assert buf[p + 1] == StringLengthBytes(n).value[1];
    } else {
      assert buf[p] == StringLengthBytes(n).value[0];
    }
  }

  /** Lengths from 0x8000 to 0xFFFF are written without error, but bit 15
      is lost: the reader gets the length less 0x8000. */
  lemma LongLengthWraps(n: nat, buf: seq<byte>, p: nat)
    requires 0x8000 <= n < 0x1_0000
    requires p + 2 <= |buf| && buf[p .. p + 2] == StringLengthBytes(n).value
    ensures WordInfoLists.StringLengthAt(buf, p) == Ok((n - 0x8000, p + 2))
  {
    assert buf[p] == StringLengthBytes(n).value[0];
    assert buf[p + 1] == StringLengthBytes(n).value[1];
  }

  /** write_string: the number of UTF-16 code units (two for a character
      from U+10000), then the UTF-16LE bytes. */
  function StringBytes(s: string): (r: Result<seq<byte>>)
    ensures r.Ok? <==> Utf16Length(s) < 0x1_0000
  {
    var prefix :- StringLengthBytes(Utf16Length(s));
    Ok(prefix + EncodeUtf16Le(s))
  }

  /** A string of fewer than 0x8000 code units reads back whole. */
  lemma StringRoundTrip(s: string, buf: seq<byte>, p: nat) returns (r: nat)
    requires Utf16Length(s) < 0x8000 && IsAt(buf, p, StringBytes(s).value)
    ensures r == p + |StringBytes(s).value|
    ensures WordInfoLists.StringAt(buf, p) == Ok((s, r))
  {
    var n := Utf16Length(s);
    var prefix := StringLengthBytes(n).value;
    var enc := EncodeUtf16Le(s);
    assert StringBytes(s).value == prefix + enc;
    EncodeUtf16LeLength(s);
    IsAtPrefix(buf, p, prefix + enc, prefix);
    var q := StringLengthRoundTrip(n, buf, p);
    IsAtAfter(buf, p, prefix, enc, q);
    DecodeEncodeUtf16Le(s);
    r := StringAtParts(buf, p, n, q, s, enc);
  }

  lemma StringAtParts(buf: seq<byte>, p: nat, n: nat, q: nat, s: string, enc: seq<byte>) returns (r: nat)
    requires WordInfoLists.StringLengthAt(buf, p) == Ok((n, q))
    requires IsAt(buf, q, enc) && |enc| == 2 * n && DecodeUtf16Le(enc) == Ok(s)
    ensures r == q + 2 * n
    ensures WordInfoLists.StringAt(buf, p) == Ok((s, r))
  {
    IsAtMeans(buf, q, enc);
    r := q + 2 * n;
  }

  /** The i32 values of an int array, each written as a signed 'int'. */
  function IntsBytes(xs: seq<int>): (r: Result<seq<byte>>)
    ensures r.Ok? <==> forall i :: 0 <= i < |xs| ==> Fits(xs[i], 4, true)
    ensures r.Ok? ==> |r.value| == 4 * |xs|
  {
    if xs == [] then Ok([])
    else
      var init :- IntsBytes(xs[..|xs| - 1]);
      var last :- IntField(xs[|xs| - 1], "int");
      Ok(init + last)
  }

  /** write_intarray: the count as a 'byte', then the values. */
  function IntArrayBytes(xs: seq<int>): (r: Result<seq<byte>>)
    ensures r.Ok? <==> |xs| < 256 && forall i :: 0 <= i < |xs| ==> Fits(xs[i], 4, true)
    ensures r.Ok? ==> r.value == [|xs|] + IntsBytes(xs).value
  {
    var count :- ByteField(|xs|);
    var values :- IntsBytes(xs);
    Ok(count + values)
  }

  /** The values of an int array read back whole, each four bytes decoding
      signed to the value written. */
  lemma {:induction false} IntsReadBack(xs: seq<int>, buf: seq<byte>, q: nat) returns (r: nat)
    requires IntsBytes(xs).Ok? && IsAt(buf, q, IntsBytes(xs).value)
    ensures r == q + 4 * |xs|
    ensures WordInfoLists.IntsAt(buf, q, |xs|) == (xs, r)
  {
    if xs == [] {
      r := q;
    } else {
      var n := |xs| - 1;
      assert xs[..n] + [xs[n]] == xs;
      var init := IntsBytes(xs[..n]).value;
      var last := IntField(xs[n], "int").value;
      assert IntsBytes(xs).value == init + last;
      IsAtPrefix(buf, q, init + last, init);
      var r0 := IntsReadBack(xs[..n], buf, q);
      IsAtAfter(buf, q, init, last, r0);
      r := I32FieldRoundTrip(xs[n], buf, r0);
      IntsAtStep(buf, q, |xs|, xs[..n], r0, xs[n], r);
    }
  }

  /** The reader's i32 loop, one value further. */
  lemma IntsAtStep(buf: seq<byte>, q: nat, k: nat, init: seq<int>, p: nat, x: int, r: nat)
    requires 0 < k && q <= |buf| && WordInfoLists.IntsAt(buf, q, k - 1) == (init, p)
    requires p <= |buf| && WordInfoLists.I32At(buf, p) == (x, r)
    ensures WordInfoLists.IntsAt(buf, q, k) == (init + [x], r)
  {
  }

  /** An int array reads back whole. */
  lemma IntArrayRoundTrip(xs: seq<int>, buf: seq<byte>, p: nat) returns (r: nat)
    requires IntArrayBytes(xs).Ok? && IsAt(buf, p, IntArrayBytes(xs).value)
    ensures r == p + |IntArrayBytes(xs).value|
    ensures WordInfoLists.IntArrayAt(buf, p) == Ok((xs, r))
  {
    var values := IntsBytes(xs).value;
    IsAtSplit(buf, p, [|xs|], values);
    IsAtMeans(buf, p, [|xs|]);
    assert buf[p] == buf[p .. p + 1][0];
    r := IntsReadBack(xs, buf, p + 1);
    assert ReadByteAt(buf, p) == Ok(|xs|);
  }

  // ---- word-info records ------------------------------------------------------

  /** A split column as parse_splitinfo hands it to write_intarray: the ids,
      or the ValueError object it returns (rather than raises) for a word it
      cannot find. */
  datatype SplitInfo = Ids(ids: seq<int>) | NotFound

  /** write_intarray of a parsed split column: `len()` of the returned
      ValueError object raises TypeError. */
  function SplitBytes(sp: SplitInfo): (r: Result<seq<byte>>)
    ensures sp.NotFound? ==> r.Err? && r.error.TypeError?
    ensures sp.Ids? ==> r == IntArrayBytes(sp.ids)
  {
    match sp
    case Ids(ids) => IntArrayBytes(ids)
    case NotFound => Err(TypeError("object of type 'ValueError' has no len()"))
  }

  /** The first fields of a write_wordinfo record: surface, head length
      and part of speech. */
  function HeadBytes(surface: string, headWordLength: nat, posId: int): (r: Result<seq<byte>>)
  {
    var s :- StringBytes(surface);
    var length :- StringLengthBytes(headWordLength);
    var pos :- IntField(posId, "short");
    Ok(s + length + pos)
  }

  /** The next fields as stored: normalized form, dictionary-form id and
      reading form. */
  function FormsBytes(normalized: string, dictionaryFormWordId: int, reading: string): (r: Result<seq<byte>>)
  {
    var n :- StringBytes(normalized);
    var dict :- IntField(dictionaryFormWordId, "int");
    var r :- StringBytes(reading);
    Ok(n + dict + r)
  }

  /** The normalized or reading form as stored: "" when it equals the surface. */
  function Stored(form: string, surface: string): (r: string)
    ensures r == "" <==> form == surface || form == ""
  {
    if form == surface then "" else form
  }

  /** One record of write_wordinfo: the fields above, a normalized or
      reading form equal to the surface stored as "", then the A, B and C
      split arrays.  The split columns are parsed between the writes, so
      their errors come in that order too. */
  function RecordBytes(wi: WordInfoLists.WordInfo, a: Result<SplitInfo>, b: Result<SplitInfo>, c: Result<SplitInfo>)
    : (r: Result<seq<byte>>)
  {
    var head :- HeadBytes(wi.surface, wi.headWordLength, wi.posId);
    var forms :- FormsBytes(Stored(wi.normalizedForm, wi.surface), wi.dictionaryFormWordId,
                            Stored(wi.readingForm, wi.surface));
    var sa :- a;
    var aBytes :- SplitBytes(sa);
    var sb :- b;
    var bBytes :- SplitBytes(sb);
    var sc :- c;
    var cBytes :- SplitBytes(sc);
    Ok(head + (forms + (aBytes + bBytes + cBytes)))
  }

  /** The limits under which every field of a record reads back: strings
      under 0x8000 code units, a head length and part of speech under
      0x8000, split arrays the writer accepts. */
  predicate Storable(wi: WordInfoLists.WordInfo)
  {
    Utf16Length(wi.surface) < 0x8000
    && Utf16Length(Stored(wi.normalizedForm, wi.surface)) < 0x8000
    && Utf16Length(Stored(wi.readingForm, wi.surface)) < 0x8000
    && wi.headWordLength < 0x8000 && wi.posId < 0x8000
  }

  /** What get_word_info decodes from a stored record, before the
      dictionary-form hop: an empty normalized form comes back as the
      surface, the dictionary form is the surface, and a reading equal to
      the surface comes back empty. */
  function ReadBack(wi: WordInfoLists.WordInfo, a: seq<int>, b: seq<int>, c: seq<int>): WordInfoLists.WordInfo
  {
    WordInfoLists.WordInfo(
      wi.surface, wi.headWordLength, wi.posId,
      if wi.normalizedForm == "" then wi.surface else wi.normalizedForm,
      wi.dictionaryFormWordId, wi.surface, Stored(wi.readingForm, wi.surface), a, b, c)
  }

  /** The reader finds surface, head-word length and part of speech at
      `p`, with cursors p1, p2, p3 after each. */
  predicate HeadAt(buf: seq<byte>, p: nat, surface: string, headWordLength: nat, posId: nat, p1: nat, p2: nat, p3: nat)
  {
    WordInfoLists.StringAt(buf, p) == Ok((surface, p1))
    && WordInfoLists.StringLengthAt(buf, p1) == Ok((headWordLength, p2))
    && p2 <= |buf| && WordInfoLists.U16At(buf, p2) == (posId, p3)
  }

  /** The reader finds normalized form, dictionary-form id and reading form
      at `p`. */
  predicate FormsAt(buf: seq<byte>, p: nat, normalized: string, dictionaryFormWordId: int, reading: string,
                    p1: nat, p2: nat, p3: nat)
  {
    WordInfoLists.StringAt(buf, p) == Ok((normalized, p1))
    && p1 <= |buf| && WordInfoLists.I32At(buf, p1) == (dictionaryFormWordId, p2)
    && WordInfoLists.StringAt(buf, p2) == Ok((reading, p3))
  }

  /** The reader finds the three split arrays at `p`. */
  predicate SplitsAt(buf: seq<byte>, p: nat, a: seq<int>, b: seq<int>, c: seq<int>, p1: nat, p2: nat, p3: nat)
  {
    WordInfoLists.IntArrayAt(buf, p) == Ok((a, p1))
    && WordInfoLists.IntArrayAt(buf, p1) == Ok((b, p2))
    && WordInfoLists.IntArrayAt(buf, p2) == Ok((c, p3))
  }

  /** The surface, head-word length and part of speech read back. */
  lemma HeadReadBack(buf: seq<byte>, p: nat, surface: string, headWordLength: nat, posId: nat)
    returns (p1: nat, p2: nat, p3: nat)
    requires Utf16Length(surface) < 0x8000 && headWordLength < 0x8000 && posId < 0x8000
    requires HeadBytes(surface, headWordLength, posId).Ok?
    requires IsAt(buf, p, HeadBytes(surface, headWordLength, posId).value)
    ensures HeadAt(buf, p, surface, headWordLength, posId, p1, p2, p3)
    ensures p3 == p + |HeadBytes(surface, headWordLength, posId).value|
  {
    IntFieldWidths(posId);
    var f1, f2, f3 := StringBytes(surface).value, StringLengthBytes(headWordLength).value, IntField(posId, "short").value;
    assert HeadBytes(surface, headWordLength, posId).value == f1 + f2 + f3;
    FirstAt(buf, p, f1, f2, f3);
    p1 := StringRoundTrip(surface, buf, p);
    SecondAt(buf, p, f1, f2, f3, p1);
    p2 := StringLengthRoundTrip(headWordLength, buf, p1);
    ThirdAt(buf, p, f1, f2, f3, p2);
    p3 := U16FieldRoundTrip(posId, buf, p2);
  }

  /** The stored normalized form, dictionary-form id and stored reading
      form read back. */
  lemma FormsReadBack(buf: seq<byte>, p: nat, normalized: string, dictionaryFormWordId: int, reading: string)
    returns (p1: nat, p2: nat, p3: nat)
    requires Utf16Length(normalized) < 0x8000 && Utf16Length(reading) < 0x8000
    requires FormsBytes(normalized, dictionaryFormWordId, reading).Ok?
    requires IsAt(buf, p, FormsBytes(normalized, dictionaryFormWordId, reading).value)
    ensures FormsAt(buf, p, normalized, dictionaryFormWordId, reading, p1, p2, p3)
    ensures p3 == p + |FormsBytes(normalized, dictionaryFormWordId, reading).value|
  {
    IntFieldWidths(dictionaryFormWordId);
    var f1, f2, f3 := StringBytes(normalized).value, IntField(dictionaryFormWordId, "int").value, StringBytes(reading).value;
    assert FormsBytes(normalized, dictionaryFormWordId, reading).value == f1 + f2 + f3;
    FirstAt(buf, p, f1, f2, f3);
    p1 := StringRoundTrip(normalized, buf, p);
    SecondAt(buf, p, f1, f2, f3, p1);
    p2 := I32FieldRoundTrip(dictionaryFormWordId, buf, p1);
    ThirdAt(buf, p, f1, f2, f3, p2);
    p3 := StringRoundTrip(reading, buf, p2);
  }

  /** The three split arrays of a record read back one after another. */
  lemma SplitsReadBack(buf: seq<byte>, p: nat, a: seq<int>, b: seq<int>, c: seq<int>) returns (p1: nat, p2: nat, p3: nat)
    requires IntArrayBytes(a).Ok? && IntArrayBytes(b).Ok? && IntArrayBytes(c).Ok?
    requires IsAt(buf, p, IntArrayBytes(a).value + IntArrayBytes(b).value + IntArrayBytes(c).value)
    ensures SplitsAt(buf, p, a, b, c, p1, p2, p3)
  {
    var fa, fb, fc := IntArrayBytes(a).value, IntArrayBytes(b).value, IntArrayBytes(c).value;
    FirstAt(buf, p, fa, fb, fc);
    p1 := IntArrayRoundTrip(a, buf, p);
    SecondAt(buf, p, fa, fb, fc, p1);
    p2 := IntArrayRoundTrip(b, buf, p1);
    ThirdAt(buf, p, fa, fb, fc, p2);
    p3 := IntArrayRoundTrip(c, buf, p2);
  }

  /** The reader decodes a record at the position its offset table names as
      the fields the writer stored: everything as written, except that an
      empty normalized form comes back as the surface and a reading equal
      to the surface comes back empty. */
  lemma RecordReadBack(l: WordInfoLists.WordInfoList, wordId: int, wi: WordInfoLists.WordInfo,
                       a: seq<int>, b: seq<int>, c: seq<int>, p: nat)
    requires Storable(wi)
    requires RecordBytes(wi, Ok(Ids(a)), Ok(Ids(b)), Ok(Ids(c))).Ok?
    requires IsAt(l.bytes, p, RecordBytes(wi, Ok(Ids(a)), Ok(Ids(b)), Ok(Ids(c))).value)
    requires WordInfoLists.WordIdToOffset(l, wordId) == p
    ensures WordInfoLists.EntryAtAsWritten(l, wordId) == Ok(ReadBack(wi, a, b, c))
  {
    var nf, rf := Stored(wi.normalizedForm, wi.surface), Stored(wi.readingForm, wi.surface);
    var head, forms, splits := RecordBytesParts(wi, nf, rf, a, b, c);
    var p1, p2, p3, p4, p5, p6, p7, p8, p9 :=
      RecordFields(l.bytes, p, wi.surface, wi.headWordLength, wi.posId, nf, wi.dictionaryFormWordId, rf,
                   a, b, c, head, forms, splits);
    EntryFromFields(l, wordId, p, p1, p2, p3, p4, p5, p6, p7, p8, p9,
                    wi.surface, wi.headWordLength, wi.posId, nf, wi.dictionaryFormWordId, rf, a, b, c);
    StoredNormalizedReadsBack(wi.normalizedForm, wi.surface);
  }

  /** With the corrected reader a non-empty reading form comes back as it
      was written, also when the writer stored it as "" for being equal to
      the surface. */
  lemma RecordReadBackIntended(l: WordInfoLists.WordInfoList, wordId: int, wi: WordInfoLists.WordInfo,
                               a: seq<int>, b: seq<int>, c: seq<int>, p: nat)
    requires Storable(wi) && wi.readingForm != ""
    requires RecordBytes(wi, Ok(Ids(a)), Ok(Ids(b)), Ok(Ids(c))).Ok?
    requires IsAt(l.bytes, p, RecordBytes(wi, Ok(Ids(a)), Ok(Ids(b)), Ok(Ids(c))).value)
    requires WordInfoLists.WordIdToOffset(l, wordId) == p
    ensures WordInfoLists.EntryAt(l, wordId) == Ok(ReadBack(wi, a, b, c).(readingForm := wi.readingForm))
  {
    RecordReadBack(l, wordId, wi, a, b, c, p);
  }

  /** The nine fields of a stored record read back one after another. */
  lemma RecordFields(buf: seq<byte>, p: nat, surface: string, headWordLength: nat, posId: nat,
                     nf: string, dictionaryFormWordId: int, rf: string,
                     a: seq<int>, b: seq<int>, c: seq<int>, head: seq<byte>, forms: seq<byte>, splits: seq<byte>)
    returns (p1: nat, p2: nat, p3: nat, p4: nat, p5: nat, p6: nat, p7: nat, p8: nat, p9: nat)
    requires Utf16Length(surface) < 0x8000 && headWordLength < 0x8000 && posId < 0x8000
    requires Utf16Length(nf) < 0x8000 && Utf16Length(rf) < 0x8000
    requires HeadBytes(surface, headWordLength, posId) == Ok(head)
    requires FormsBytes(nf, dictionaryFormWordId, rf) == Ok(forms)
    requires IntArrayBytes(a).Ok? && IntArrayBytes(b).Ok? && IntArrayBytes(c).Ok?
    requires splits == IntArrayBytes(a).value + IntArrayBytes(b).value + IntArrayBytes(c).value
    requires IsAt(buf, p, head + (forms + splits))
    ensures p <= |buf|
    ensures HeadAt(buf, p, surface, headWordLength, posId, p1, p2, p3)
    ensures FormsAt(buf, p3, nf, dictionaryFormWordId, rf, p4, p5, p6)
    ensures SplitsAt(buf, p6, a, b, c, p7, p8, p9)
  {
    IsAtPrefix(buf, p, head + (forms + splits), head);
    p1, p2, p3 := HeadReadBack(buf, p, surface, headWordLength, posId);
    IsAtAfter(buf, p, head, forms + splits, p3);
    p4, p5, p6, p7, p8, p9 := TailFields(buf, p3, nf, dictionaryFormWordId, rf, a, b, c, forms, splits);
  }

  /** The forms and the split arrays after a record's head. */
  lemma TailFields(buf: seq<byte>, p: nat, nf: string, dictionaryFormWordId: int, rf: string,
                   a: seq<int>, b: seq<int>, c: seq<int>, forms: seq<byte>, splits: seq<byte>)
    returns (p4: nat, p5: nat, p6: nat, p7: nat, p8: nat, p9: nat)
    requires Utf16Length(nf) < 0x8000 && Utf16Length(rf) < 0x8000
    requires FormsBytes(nf, dictionaryFormWordId, rf) == Ok(forms)
    requires IntArrayBytes(a).Ok? && IntArrayBytes(b).Ok? && IntArrayBytes(c).Ok?
    requires splits == IntArrayBytes(a).value + IntArrayBytes(b).value + IntArrayBytes(c).value
    requires IsAt(buf, p, forms + splits)
    ensures FormsAt(buf, p, nf, dictionaryFormWordId, rf, p4, p5, p6)
    ensures SplitsAt(buf, p6, a, b, c, p7, p8, p9)
  {
    IsAtPrefix(buf, p, forms + splits, forms);
    p4, p5, p6 := FormsReadBack(buf, p, nf, dictionaryFormWordId, rf);
    IsAtAfter(buf, p, forms, splits, p6);
    p7, p8, p9 := SplitsReadBack(buf, p6, a, b, c);
  }

  /** A record is its head, its forms and its split arrays. */
  lemma RecordBytesParts(wi: WordInfoLists.WordInfo, nf: string, rf: string, a: seq<int>, b: seq<int>, c: seq<int>)
    returns (head: seq<byte>, forms: seq<byte>, splits: seq<byte>)
    requires nf == Stored(wi.normalizedForm, wi.surface) && rf == Stored(wi.readingForm, wi.surface)
    requires RecordBytes(wi, Ok(Ids(a)), Ok(Ids(b)), Ok(Ids(c))).Ok?
    ensures HeadBytes(wi.surface, wi.headWordLength, wi.posId) == Ok(head)
    ensures FormsBytes(nf, wi.dictionaryFormWordId, rf) == Ok(forms)
    ensures IntArrayBytes(a).Ok? && IntArrayBytes(b).Ok? && IntArrayBytes(c).Ok?
    ensures splits == IntArrayBytes(a).value + IntArrayBytes(b).value + IntArrayBytes(c).value
    ensures RecordBytes(wi, Ok(Ids(a)), Ok(Ids(b)), Ok(Ids(c))).value == head + (forms + splits)
  {
    head, forms := HeadBytes(wi.surface, wi.headWordLength, wi.posId).value, FormsBytes(nf, wi.dictionaryFormWordId, rf).value;
    var fa, fb, fc := IntArrayBytes(a).value, IntArrayBytes(b).value, IntArrayBytes(c).value;
    splits := fa + fb + fc;
  }

  /** Reading back the stored normalized form gives the surface exactly
      when the form was empty or the surface itself. */
  lemma StoredNormalizedReadsBack(form: string, surface: string)
    ensures (if Stored(form, surface) == "" then surface else Stored(form, surface))
            == (if form == "" then surface else form)
  {
  }

  /** EntryAtAsWritten from its nine field reads, at the cursors p0 .. p9. */
  lemma EntryFromFields(l: WordInfoLists.WordInfoList, wordId: int,
                        p0: nat, p1: nat, p2: nat, p3: nat, p4: nat, p5: nat, p6: nat, p7: nat, p8: nat, p9: nat,
                        surface: string, headWordLength: nat, posId: nat, normalized: string,
                        dictionaryFormWordId: int, reading: string, a: seq<int>, b: seq<int>, c: seq<int>)
    requires WordInfoLists.WordIdToOffset(l, wordId) == p0 && p0 <= |l.bytes|
    requires HeadAt(l.bytes, p0, surface, headWordLength, posId, p1, p2, p3)
    requires FormsAt(l.bytes, p3, normalized, dictionaryFormWordId, reading, p4, p5, p6)
    requires SplitsAt(l.bytes, p6, a, b, c, p7, p8, p9)
    ensures WordInfoLists.EntryAtAsWritten(l, wordId)
            == Ok(WordInfoLists.WordInfo(surface, headWordLength, posId, if normalized == "" then surface else normalized,
                                         dictionaryFormWordId, surface, reading, a, b, c))
  {
  }
}
