/** The blocks the dictionary writer emits, as byte sequences: the
    part-of-speech table and connection matrix of the grammar block, and
    the word-id table, word parameters and word-information area of the
    lexicon block, each with the lemma that the dictionary's readers decode
    it back to what was written. */
module DictionaryBlocks {
  import opened Wrappers
  import opened Bytes
  import opened Unicode
  import JTypedByteBuffers
  import Texts
  import Grammars
  import opened DictionaryLayouts

  // ---- the part-of-speech table -------------------------------------------------

  /** Strings one after another, each as write_string lays it out. */
  function StringsBytes(texts: seq<string>): (r: Result<seq<byte>>)
  {
    if texts == [] then Ok([])
    else
      var n := |texts| - 1;
      var init :- StringsBytes(texts[..n]);
      var last :- StringBytes(texts[n]);
      Ok(init + last)
  }

  /** The comma-separated fields of each table entry, in table order. */
  function PosStringsBytes(posList: seq<string>): (r: Result<seq<byte>>)
  {
    if posList == [] then Ok([])
    else
      var n := |posList| - 1;
      var init :- PosStringsBytes(posList[..n]);
      var last :- StringsBytes(Texts.Split(posList[n], ","));
      Ok(init + last)
  }

  /** convert_postable: the entry count as a 'short', then the fields of
      every entry. */
  function PosTableBytes(posList: seq<string>): (r: Result<seq<byte>>)
    ensures r.Ok? <==> |posList| < 0x8000 && PosStringsBytes(posList).Ok?
    ensures r.Ok? ==> r.value == IntField(|posList|, "short").value + PosStringsBytes(posList).value
  {
    var count :- IntField(|posList|, "short");
    var fields :- PosStringsBytes(posList);
    Ok(count + fields)
  }

  /** A field the grammar reader gets back: it reads a single length byte,
      and takes a leading U+FEFF or U+FFFE for a byte-order mark. */
  predicate ReadableField(s: string)
  {
    Utf16Length(s) <= BYTE_MAX_VALUE && (s == [] || (s[0] != '\U{FEFF}' && s[0] != '\U{FFFE}'))
  }

  /** A table entry the grammar reader gets back: six readable fields. */
  predicate ReadablePos(pos: string)
  {
    var fields := Texts.Split(pos, ",");
    |fields| == Grammars.POS_DEPTH && forall k :: 0 <= k < |fields| ==> ReadableField(fields[k])
  }

  /** The parts of speech the reader builds from the table entries. */
  function PosFields(posList: seq<string>): (r: seq<seq<string>>)
    ensures |r| == |posList|
  {
    seq(|posList|, k requires 0 <= k < |posList| => Texts.Split(posList[k], ","))
  }

  /** A readable field written by write_string comes back from the grammar
      reader, which moves on exactly past it. */
  lemma FieldReadBack(s: string, buf: seq<byte>, p: nat)
    requires ReadableField(s) && IsAt(buf, p, StringBytes(s).value)
    ensures Grammars.ReadPosString(buf, p) == Ok((s, Utf16Length(s)))
    ensures Grammars.NextOffset(p, Utf16Length(s)) == p + |StringBytes(s).value|
  {
    var n := Utf16Length(s);
    var e := EncodeUtf16Le(s);
    EncodeUtf16LeLength(s);
    assert StringBytes(s).value == [n] + e;
    IsAtSplit(buf, p, [n], e);
    assert buf[p] == buf[p .. p + 1][0];
    assert ReadByteAt(buf, p) == Ok(n);
    assert ReadAt(buf, p + 1, 2 * n) == Ok(e);
    DecodeBomEncodeUtf16Le(s);
  }

  /** Bytes that start a piece placed at `p`, after `before`, are placed
      right after `before`. */
  lemma IsAtMiddle(buf: seq<byte>, p: nat, whole: seq<byte>, prefix: seq<byte>, before: seq<byte>, piece: seq<byte>,
                    q: nat, next: nat)
    requires IsAt(buf, p, whole) && prefix <= whole && prefix == before + piece
    requires q == p + |before| && next == p + |prefix|
    ensures IsAt(buf, q, piece)
    ensures next == q + |piece|
  {
    IsAtPrefix(buf, p, whole, prefix);
    IsAtSplit(buf, p, before, piece);
  }

  /** The strings of a prefix of the list are laid out first. */
  lemma {:induction false} StringsBytesPrefix(texts: seq<string>, j: nat)
    requires j <= |texts| && StringsBytes(texts).Ok?
    ensures StringsBytes(texts[..j]).Ok? && StringsBytes(texts[..j]).value <= StringsBytes(texts).value
    decreases |texts|
  {
    if j < |texts| {
      var n := |texts| - 1;
      assert texts[..n][..j] == texts[..j];
      StringsBytesPrefix(texts[..n], j);
    } else {
      assert texts[..j] == texts;
    }
  }

  /** `read` finding `texts` one after another at the offsets `offs`. */
  lemma {:induction false} StringsFromSteps(read: nat -> Result<(string, nat)>, texts: seq<string>, offs: seq<nat>)
    requires |offs| == |texts| + 1
    requires forall k :: 0 <= k < |texts| ==>
               read(offs[k]).Ok? && read(offs[k]).value.0 == texts[k]
               && Grammars.NextOffset(offs[k], read(offs[k]).value.1) == offs[k + 1]
    ensures Grammars.StringsFrom(read, offs[0], |texts|) == Ok((texts, offs[|texts|]))
  {
    if texts != [] {
      var n := |texts| - 1;
      StringsFromSteps(read, texts[..n], offs[..n + 1]);
      assert texts[..n] + [texts[n]] == texts;
    }
  }

  /** Where the `k`-th of the strings starts, written from `p`. */
  function FieldOffset(texts: seq<string>, p: nat, k: nat): (r: nat)
    requires k <= |texts| && StringsBytes(texts).Ok?
    ensures StringsBytes(texts[..k]).Ok? && r == p + |StringsBytes(texts[..k]).value|
  {
    StringsBytesPrefix(texts, k);
    p + |StringsBytes(texts[..k]).value|
  }

  /** The `k`-th string follows the ones before it. */
  lemma FieldLayout(texts: seq<string>, k: nat)
    requires k < |texts| && StringsBytes(texts).Ok?
    ensures StringsBytes(texts[..k]).Ok? && StringBytes(texts[k]).Ok? && StringsBytes(texts[..k + 1]).Ok?
    ensures StringsBytes(texts[..k + 1]).value == StringsBytes(texts[..k]).value + StringBytes(texts[k]).value
    ensures StringsBytes(texts[..k + 1]).value <= StringsBytes(texts).value
  {
    StringsBytesPrefix(texts, k);
    StringsBytesPrefix(texts, k + 1);
    assert texts[..k + 1][..k] == texts[..k];
    assert texts[..k + 1][k] == texts[k];
  }

  /** The `k`-th of the strings written from `p` sits at its offset `q`,
      and the next one starts right after it, at `next`. */
  lemma FieldAt(buf: seq<byte>, texts: seq<string>, p: nat, k: nat, q: nat, next: nat)
    requires k < |texts| && StringsBytes(texts).Ok? && IsAt(buf, p, StringsBytes(texts).value)
    requires q == FieldOffset(texts, p, k) && next == FieldOffset(texts, p, k + 1)
    ensures StringBytes(texts[k]).Ok? && IsAt(buf, q, StringBytes(texts[k]).value)
    ensures next == q + |StringBytes(texts[k]).value|
  {
    FieldLayout(texts, k);
    var before := StringsBytes(texts[..k]).value;
    var field := StringBytes(texts[k]).value;
    IsAtMiddle(buf, p, StringsBytes(texts).value, StringsBytes(texts[..k + 1]).value, before, field, q, next);
  }

  /** The `k`-th of readable fields written from `p` reads back where it
      was written, at `q`, and the reader moves on to the next one, at
      `next`. */
  lemma FieldStep(buf: seq<byte>, texts: seq<string>, p: nat, k: nat, q: nat, next: nat)
    requires k < |texts| && ReadableField(texts[k])
    requires StringsBytes(texts).Ok? && IsAt(buf, p, StringsBytes(texts).value)
    requires q == FieldOffset(texts, p, k) && next == FieldOffset(texts, p, k + 1)
    ensures Grammars.ReadPosString(buf, q) == Ok((texts[k], Utf16Length(texts[k])))
    ensures Grammars.NextOffset(q, Utf16Length(texts[k])) == next
  {
    FieldAt(buf, texts, p, k, q, next);
    FieldReadBack(texts[k], buf, q);
  }

  /** Readable fields written one after another come back in order. */
  lemma FieldsReadBack(buf: seq<byte>, texts: seq<string>, p: nat, e: nat)
    requires forall k :: 0 <= k < |texts| ==> ReadableField(texts[k])
    requires StringsBytes(texts).Ok? && IsAt(buf, p, StringsBytes(texts).value)
    requires e == p + |StringsBytes(texts).value|
    ensures Grammars.PosPrefix(buf, p, |texts|) == Ok((texts, e))
  {
    FieldsFrom(buf, texts, p, e);
    PosPrefixFrom(buf, texts, p, e);
  }

  lemma FieldsFrom(buf: seq<byte>, texts: seq<string>, p: nat, e: nat)
    requires forall k :: 0 <= k < |texts| ==> ReadableField(texts[k])
    requires StringsBytes(texts).Ok? && IsAt(buf, p, StringsBytes(texts).value)
    requires e == p + |StringsBytes(texts).value|
    ensures Grammars.StringsFrom((off: nat) => Grammars.ReadPosString(buf, off), p, |texts|) == Ok((texts, e))
  {
    var read := (off: nat) => Grammars.ReadPosString(buf, off);
    var offs := seq(|texts| + 1, k requires 0 <= k <= |texts| => FieldOffset(texts, p, k));
    forall k | 0 <= k < |texts|
      ensures read(offs[k]).Ok? && read(offs[k]).value.0 == texts[k]
              && Grammars.NextOffset(offs[k], read(offs[k]).value.1) == offs[k + 1]
    {
      FieldStep(buf, texts, p, k, offs[k], offs[k + 1]);
    }
    assert texts[..0] == [] && offs[0] == p;
    assert texts[..|texts|] == texts;
    assert offs[|texts|] == e;
    StringsFromSteps(read, texts, offs);
  }

  lemma PosPrefixFrom(buf: seq<byte>, texts: seq<string>, p: nat, e: nat)
    requires Grammars.StringsFrom((off: nat) => Grammars.ReadPosString(buf, off), p, |texts|) == Ok((texts, e))
    ensures Grammars.PosPrefix(buf, p, |texts|) == Ok((texts, e))
  {
  }

  /** The entries of a prefix of the table are laid out first. */
  lemma {:induction false} PosStringsBytesPrefix(posList: seq<string>, j: nat)
    requires j <= |posList| && PosStringsBytes(posList).Ok?
    ensures PosStringsBytes(posList[..j]).Ok? && PosStringsBytes(posList[..j]).value <= PosStringsBytes(posList).value
    decreases |posList|
  {
    if j < |posList| {
      var n := |posList| - 1;
      assert posList[..n][..j] == posList[..j];
      PosStringsBytesPrefix(posList[..n], j);
    } else {
      assert posList[..j] == posList;
    }
  }

  /** `read` finding `groups` one after another at the offsets `offs`. */
  lemma {:induction false} ListFromSteps(read: nat -> Result<(seq<string>, nat)>, depth: nat,
                                         groups: seq<seq<string>>, offs: seq<nat>)
    requires forall off: nat :: read(off).Ok? ==> |read(off).value.0| == depth && read(off).value.1 >= off
    requires |offs| == |groups| + 1
    requires forall k :: 0 <= k < |groups| ==> read(offs[k]) == Ok((groups[k], offs[k + 1]))
    ensures Grammars.ListFrom(read, depth, offs[0], |groups|) == Ok((groups, offs[|groups|]))
  {
    if groups != [] {
      var n := |groups| - 1;
      ListFromSteps(read, depth, groups[..n], offs[..n + 1]);
      assert groups[..n] + [groups[n]] == groups;
    }
  }

  /** Where the `k`-th table entry starts, written from `p`. */
  function PosOffset(posList: seq<string>, p: nat, k: nat): (r: nat)
    requires k <= |posList| && PosStringsBytes(posList).Ok?
    ensures PosStringsBytes(posList[..k]).Ok? && r == p + |PosStringsBytes(posList[..k]).value|
  {
    PosStringsBytesPrefix(posList, k);
    p + |PosStringsBytes(posList[..k]).value|
  }

  /** The `k`-th table entry follows the ones before it. */
  lemma PosLayout(posList: seq<string>, k: nat)
    requires k < |posList| && PosStringsBytes(posList).Ok?
    ensures PosStringsBytes(posList[..k]).Ok? && StringsBytes(Texts.Split(posList[k], ",")).Ok?
    ensures PosStringsBytes(posList[..k + 1]).Ok?
    ensures PosStringsBytes(posList[..k + 1]).value
            == PosStringsBytes(posList[..k]).value + StringsBytes(Texts.Split(posList[k], ",")).value
    ensures PosStringsBytes(posList[..k + 1]).value <= PosStringsBytes(posList).value
  {
    PosStringsBytesPrefix(posList, k);
    PosStringsBytesPrefix(posList, k + 1);
    assert posList[..k + 1][..k] == posList[..k];
    assert posList[..k + 1][k] == posList[k];
  }

  /** The fields of the `k`-th table entry written from `p` sit at its
      offset `q`, and the next entry starts right after them, at `next`. */
  lemma PosAt(buf: seq<byte>, posList: seq<string>, p: nat, k: nat, q: nat, next: nat)
    requires k < |posList| && PosStringsBytes(posList).Ok? && IsAt(buf, p, PosStringsBytes(posList).value)
    requires q == PosOffset(posList, p, k) && next == PosOffset(posList, p, k + 1)
    ensures StringsBytes(Texts.Split(posList[k], ",")).Ok?
    ensures IsAt(buf, q, StringsBytes(Texts.Split(posList[k], ",")).value)
    ensures next == q + |StringsBytes(Texts.Split(posList[k], ",")).value|
  {
    PosLayout(posList, k);
    var before := PosStringsBytes(posList[..k]).value;
    var field := StringsBytes(Texts.Split(posList[k], ",")).value;
    IsAtMiddle(buf, p, PosStringsBytes(posList).value, PosStringsBytes(posList[..k + 1]).value, before, field, q, next);
  }

  /** The `k`-th readable entry written from `p` reads back as its fields
      where it was written, at `q`, and the reader moves on to the next
      one, at `next`. */
  lemma PosStep(buf: seq<byte>, posList: seq<string>, p: nat, k: nat, q: nat, next: nat, depth: nat)
    requires k < |posList| && ReadablePos(posList[k]) && depth == Grammars.POS_DEPTH
    requires PosStringsBytes(posList).Ok? && IsAt(buf, p, PosStringsBytes(posList).value)
    requires q == PosOffset(posList, p, k) && next == PosOffset(posList, p, k + 1)
    ensures Grammars.PosPrefix(buf, q, depth) == Ok((Texts.Split(posList[k], ","), next))
  {
    PosAt(buf, posList, p, k, q, next);
    var fields := Texts.Split(posList[k], ",");
    assert |fields| == depth;
    assert forall j :: 0 <= j < |fields| ==> ReadableField(fields[j]);
    FieldsReadBack(buf, fields, q, next);
  }

  /** Readable entries written one after another come back as their
      fields. */
  lemma PosListReadBack(buf: seq<byte>, posList: seq<string>, p: nat, e: nat)
    requires forall k :: 0 <= k < |posList| ==> ReadablePos(posList[k])
    requires PosStringsBytes(posList).Ok? && IsAt(buf, p, PosStringsBytes(posList).value)
    requires e == p + |PosStringsBytes(posList).value|
    ensures Grammars.PosListPrefix(buf, p, |posList|) == Ok((PosFields(posList), e))
  {
    PosListFrom(buf, posList, p, e);
    PosListPrefixFrom(buf, PosFields(posList), p, e);
  }

  lemma PosListFrom(buf: seq<byte>, posList: seq<string>, p: nat, e: nat)
    requires forall k :: 0 <= k < |posList| ==> ReadablePos(posList[k])
    requires PosStringsBytes(posList).Ok? && IsAt(buf, p, PosStringsBytes(posList).value)
    requires e == p + |PosStringsBytes(posList).value|
    ensures Grammars.ListFrom((off: nat) => Grammars.PosPrefix(buf, off, Grammars.POS_DEPTH), Grammars.POS_DEPTH,
                              p, |posList|) == Ok((PosFields(posList), e))
  {
    var read := (off: nat) => Grammars.PosPrefix(buf, off, Grammars.POS_DEPTH);
    var offs := seq(|posList| + 1, k requires 0 <= k <= |posList| => PosOffset(posList, p, k));
    var groups := PosFields(posList);
    forall k | 0 <= k < |posList|
      ensures read(offs[k]) == Ok((groups[k], offs[k + 1]))
    {
      PosStep(buf, posList, p, k, offs[k], offs[k + 1], Grammars.POS_DEPTH);
    }
    assert posList[..0] == [] && offs[0] == p;
    assert posList[..|posList|] == posList;
    assert offs[|posList|] == e;
    ListFromSteps(read, Grammars.POS_DEPTH, groups, offs);
  }

  lemma PosListPrefixFrom(buf: seq<byte>, groups: seq<seq<string>>, p: nat, e: nat)
    requires Grammars.ListFrom((off: nat) => Grammars.PosPrefix(buf, off, Grammars.POS_DEPTH), Grammars.POS_DEPTH,
                               p, |groups|) == Ok((groups, e))
    ensures Grammars.PosListPrefix(buf, p, |groups|) == Ok((groups, e))
  {
  }

  // ---- the grammar block --------------------------------------------------------

  /** A 'short' field reads back through the reader's signed two-byte read. */
  lemma ShortReadBack(x: int, buf: seq<byte>, p: nat)
    requires IntField(x, "short").Ok? && IsAt(buf, p, IntField(x, "short").value)
    ensures ReadSigned(buf, p, 2) == Ok(x)
  {
    IntFieldWidths(x);
    ToBytesRoundTrip(x, 2, true);
    assert buf[p .. p + 2] == IntField(x, "short").value;
  }

  /** The part-of-speech table as convert_postable writes it reads back as
      the fields of its entries, and the table ends where its bytes end. */
  lemma PosTableReadBack(buf: seq<byte>, posList: seq<string>, p: nat, e: nat)
    requires forall k :: 0 <= k < |posList| ==> ReadablePos(posList[k])
    requires PosTableBytes(posList).Ok? && IsAt(buf, p, PosTableBytes(posList).value)
    requires e == p + |PosTableBytes(posList).value|
    ensures ReadSigned(buf, p, 2) == Ok(|posList|)
    ensures Grammars.PosListPrefix(buf, p + 2, |posList|) == Ok((PosFields(posList), e))
  {
    var count := IntField(|posList|, "short").value;
    var fields := PosStringsBytes(posList).value;
    PosTableSplit(buf, posList, p, p + 2);
    ShortReadBack(|posList|, buf, p);
    PosListReadBack(buf, posList, p + 2, e);
  }

  lemma PosTableSplit(buf: seq<byte>, posList: seq<string>, p: nat, q: nat)
    requires PosTableBytes(posList).Ok? && IsAt(buf, p, PosTableBytes(posList).value)
    requires q == p + 2
    ensures IntField(|posList|, "short").Ok? && IsAt(buf, p, IntField(|posList|, "short").value)
    ensures PosStringsBytes(posList).Ok? && IsAt(buf, q, PosStringsBytes(posList).value)
    ensures |PosTableBytes(posList).value| == 2 + |PosStringsBytes(posList).value|
  {
    IntFieldWidths(|posList|);
    var count := IntField(|posList|, "short").value;
    var fields := PosStringsBytes(posList).value;
    IsAtPrefix(buf, p, count + fields, count);
    IsAtAfter(buf, p, count, fields, q);
  }

  /** The grammar block without its matrix: the part-of-speech table, then
      the left and right id sizes as 'short's. */
  function GrammarHead(posList: seq<string>, leftIdSize: int, rightIdSize: int): (r: Result<seq<byte>>)
    ensures r.Ok? <==> PosTableBytes(posList).Ok? && IntField(leftIdSize, "short").Ok?
                       && IntField(rightIdSize, "short").Ok?
    ensures r.Ok? ==> r.value == PosTableBytes(posList).value + IntField(leftIdSize, "short").value
                                 + IntField(rightIdSize, "short").value
  {
    var table :- PosTableBytes(posList);
    var left :- IntField(leftIdSize, "short");
    var right :- IntField(rightIdSize, "short");
    Ok(table + left + right)
  }

  /** A grammar block written from readable entries parses back: the same
      parts of speech split into their fields, the same id sizes, and the
      matrix starting right after the head. */
  lemma GrammarReadBack(buf: seq<byte>, offset: nat, posList: seq<string>, leftIdSize: int, rightIdSize: int)
    requires forall k :: 0 <= k < |posList| ==> ReadablePos(posList[k])
    requires GrammarHead(posList, leftIdSize, rightIdSize).Ok?
    requires IsAt(buf, offset, GrammarHead(posList, leftIdSize, rightIdSize).value)
    ensures Grammars.ParseGrammar(buf, offset).Ok?
    ensures var g := Grammars.ParseGrammar(buf, offset).value;
            g.posList == PosFields(posList) && g.leftIdSize == leftIdSize && g.rightIdSize == rightIdSize
            && g.connectTableOffset == offset + |GrammarHead(posList, leftIdSize, rightIdSize).value|
  {
    var q: nat := offset + |PosTableBytes(posList).value|;
    GrammarHeadSplit(buf, offset, posList, leftIdSize, rightIdSize, q);
    PosTableReadBack(buf, posList, offset, q);
    ParseGrammarSteps(buf, offset, |posList|, PosFields(posList), q);
    IdSizesReadBack(buf, offset, PosFields(posList), q, leftIdSize, rightIdSize);
  }

  lemma GrammarHeadSplit(buf: seq<byte>, offset: nat, posList: seq<string>, leftIdSize: int, rightIdSize: int, q: nat)
    requires GrammarHead(posList, leftIdSize, rightIdSize).Ok?
    requires IsAt(buf, offset, GrammarHead(posList, leftIdSize, rightIdSize).value)
    requires q == offset + |PosTableBytes(posList).value|
    ensures PosTableBytes(posList).Ok? && IsAt(buf, offset, PosTableBytes(posList).value)
    ensures IntField(leftIdSize, "short").Ok? && IsAt(buf, q, IntField(leftIdSize, "short").value)
    ensures IntField(rightIdSize, "short").Ok? && IsAt(buf, q + 2, IntField(rightIdSize, "short").value)
    ensures |GrammarHead(posList, leftIdSize, rightIdSize).value| == |PosTableBytes(posList).value| + 4
  {
    IntFieldWidths(leftIdSize);
    IntFieldWidths(rightIdSize);
    var table := PosTableBytes(posList).value;
    var left := IntField(leftIdSize, "short").value;
    var right := IntField(rightIdSize, "short").value;
    IsAtSplit(buf, offset, table + left, right);
    IsAtAfter(buf, offset, table + left, right, q + 2);
    IsAtSplit(buf, offset, table, left);
    IsAtAfter(buf, offset, table, left, q);
  }

  /** ParseGrammar once its count and its table are read. */
  lemma ParseGrammarSteps(buf: seq<byte>, offset: nat, count: nat, posList: seq<seq<string>>, off: nat)
    requires ReadSigned(buf, offset, 2) == Ok(count)
    requires Grammars.PosListPrefix(buf, offset + 2, count) == Ok((posList, off))
    ensures off >= offset && Grammars.ParseGrammar(buf, offset) == Grammars.ReadIdSizes(buf, offset, posList, off)
  {
  }

  lemma IdSizesReadBack(buf: seq<byte>, offset: nat, posList: seq<seq<string>>, off: nat,
                        leftIdSize: int, rightIdSize: int)
    requires off >= offset
    requires IntField(leftIdSize, "short").Ok? && IsAt(buf, off, IntField(leftIdSize, "short").value)
    requires IntField(rightIdSize, "short").Ok? && IsAt(buf, off + 2, IntField(rightIdSize, "short").value)
    ensures Grammars.ReadIdSizes(buf, offset, posList, off).Ok?
    ensures var g := Grammars.ReadIdSizes(buf, offset, posList, off).value;
            g.posList == posList && g.leftIdSize == leftIdSize && g.rightIdSize == rightIdSize
            && g.connectTableOffset == off + 4
  {
    ShortReadBack(leftIdSize, buf, off);
    ShortReadBack(rightIdSize, buf, off + 2);
  }

  // ---- the connection matrix ----------------------------------------------------

  /** `[int(x) for x in cols]`: the first column that is not an integer
      fails the whole list. */
  function ParseInts(cols: seq<string>): (r: Result<seq<int>>)
    ensures r.Ok? ==> |r.value| == |cols|
    ensures r.Ok? ==> forall k :: 0 <= k < |cols| ==> Texts.ParseInt(cols[k]) == Ok(r.value[k])
    ensures r.Err? ==> r.error.ValueError?
  {
    if cols == [] then Ok([])
    else
      var n := |cols| - 1;
      var init :- ParseInts(cols[..n]);
      var last :- Texts.ParseInt(cols[n]);
      Ok(init + [last])
  }

  /** The header line: `lsize, rsize = [int(x) for x in header.split()]`
      on the stripped line, a blank one being refused first. */
  function MatrixHeader(header: string): (r: Result<(int, int)>)
    ensures Texts.IsBlank(Texts.Strip(header)) ==> r == Err(ValueError("invalid format at line 0"))
    ensures r.Ok? ==> var cols := Texts.SplitSpaces(Texts.Strip(header));
                      |cols| == 2 && Texts.ParseInt(cols[0]) == Ok(r.value.0) && Texts.ParseInt(cols[1]) == Ok(r.value.1)
  {
    var h := Texts.Strip(header);
    if Texts.IsBlank(h) then Err(ValueError("invalid format at line 0"))
    else
      var sizes :- ParseInts(Texts.SplitSpaces(h));
      if |sizes| < 2 then Err(ValueError("not enough values to unpack (expected 2)"))
      else if |sizes| > 2 then Err(ValueError("too many values to unpack (expected 2)"))
      else Ok((sizes[0], sizes[1]))
  }

  /** What one matrix line asks for: nothing (a blank or '#' line, or one
      with fewer than three columns, which is only warned about), or the
      cost of the cell (left, right). */
  datatype MatrixLine = Skip | Cell(left: int, right: int, cost: int)

  function MatrixLineOf(line: string): (r: Result<MatrixLine>)
    ensures var s := Texts.Strip(line);
            (Texts.IsBlank(s) || Texts.StartsWith(s, "#")) ==> r == Ok(Skip)
    ensures r.Ok? && r.value.Cell? ==>
              var cols := Texts.SplitSpaces(Texts.Strip(line));
              |cols| == 3 && Texts.ParseInt(cols[0]) == Ok(r.value.left)
              && Texts.ParseInt(cols[1]) == Ok(r.value.right) && Texts.ParseInt(cols[2]) == Ok(r.value.cost)
  {
    var s := Texts.Strip(line);
    if Texts.IsBlank(s) || Texts.StartsWith(s, "#") then Ok(Skip)
    else
      var cols := Texts.SplitSpaces(s);
      if |cols| < 3 then Ok(Skip)
      else
        var xs :- ParseInts(cols);
        if |xs| > 3 then Err(ValueError("too many values to unpack (expected 3)"))
        else Ok(Cell(xs[0], xs[1], xs[2]))
  }

  /** The byte a cell's cost goes to: `2 * (l + lsize * r)`. */
  function CellPosition(lsize: int, left: int, right: int): (r: int)
    ensures r % 2 == 0
  {
    var cell := left + lsize * right;
    2 * cell
  }

  /** One line's write into the matrix buffer, whose cursor stays at 0:
      seek to the cell (a negative position fails the seek), write the cost
      as a 'short'. */
  function WriteCell(m: seq<byte>, lsize: int, c: MatrixLine): (r: Result<seq<byte>>)
    ensures c.Skip? ==> r == Ok(m)
    ensures c.Cell? && CellPosition(lsize, c.left, c.right) < 0 ==> r == Err(ValueError("negative seek value"))
    ensures r.Ok? && |m| % 2 == 0 ==> |r.value| % 2 == 0
    ensures r.Ok? && c.Cell? ==>
              var p := CellPosition(lsize, c.left, c.right);
              p >= 0 && IntField(c.cost, "short").Ok?
              && r.value == JTypedByteBuffers.Overwrite(m, p, IntField(c.cost, "short").value)
  {
    match c
    case Skip => Ok(m)
    case Cell(l, r, cost) =>
      var p := CellPosition(lsize, l, r);
      if p < 0 then Err(ValueError("negative seek value"))
      else
        var bs :- IntField(cost, "short");
        IntFieldWidths(cost);
        Ok(JTypedByteBuffers.Overwrite(m, p, bs))
  }

  /** The matrix buffer after the given lines, each parsed and written in
      turn; the first line that fails stops the conversion. */
  function MatrixFrom(lsize: int, lines: seq<string>): (r: Result<seq<byte>>)
    ensures r.Ok? ==> |r.value| % 2 == 0
  {
    CellsFrom(MatrixLineOf, lsize, lines)
  }

  /** The same over any line parser. */
  function CellsFrom(parse: string -> Result<MatrixLine>, lsize: int, lines: seq<string>): (r: Result<seq<byte>>)
    ensures r.Ok? ==> |r.value| % 2 == 0
  {
    if lines == [] then Ok([])
    else
      var n := |lines| - 1;
      var m :- CellsFrom(parse, lsize, lines[..n]);
      var c :- parse(lines[n]);
      WriteCell(m, lsize, c)
  }

  /** The cost the last line writing at byte `p` wrote there, 0 when no
      line did. */
  function LastCostAt(lsize: int, lines: seq<string>, p: int): int
  {
    LastCostWith(MatrixLineOf, lsize, lines, p)
  }

  function LastCostWith(parse: string -> Result<MatrixLine>, lsize: int, lines: seq<string>, p: int): int
  {
    if lines == [] then 0
    else
      var n := |lines| - 1;
      var c := parse(lines[n]);
      if c.Ok? && c.value.Cell? && CellPosition(lsize, c.value.left, c.value.right) == p then c.value.cost
      else LastCostWith(parse, lsize, lines[..n], p)
  }

  /** No line wrote at or past the end of the matrix buffer. */
  lemma {:induction false} NothingPastEnd(parse: string -> Result<MatrixLine>, lsize: int, lines: seq<string>, p: int)
    requires CellsFrom(parse, lsize, lines).Ok? && p >= |CellsFrom(parse, lsize, lines).value|
    ensures LastCostWith(parse, lsize, lines, p) == 0
  {
    if lines != [] {
      var n := |lines| - 1;
      NothingPastEnd(parse, lsize, lines[..n], p);
    }
  }

  /** Every even cell of the converted matrix holds the cost the last line
      for it wrote, and 0 when no line wrote it: a later line for the same
      cell overrides an earlier one, and cells are never torn, since every
      write is two bytes at an even position. */
  lemma MatrixCellHolds(lsize: int, lines: seq<string>, p: nat)
    requires MatrixFrom(lsize, lines).Ok?
    requires p % 2 == 0 && p + 2 <= |MatrixFrom(lsize, lines).value|
    ensures DecodeSigned(MatrixFrom(lsize, lines).value[p .. p + 2]) == LastCostAt(lsize, lines, p)
  {
    CellHolds(MatrixLineOf, lsize, lines, p);
  }

  lemma {:induction false} CellHolds(parse: string -> Result<MatrixLine>, lsize: int, lines: seq<string>, p: nat)
    requires CellsFrom(parse, lsize, lines).Ok?
    requires p % 2 == 0 && p + 2 <= |CellsFrom(parse, lsize, lines).value|
    ensures DecodeSigned(CellsFrom(parse, lsize, lines).value[p .. p + 2]) == LastCostWith(parse, lsize, lines, p)
    decreases |lines|
  {
    var init := lines[..|lines| - 1];
    var c := parse(lines[|lines| - 1]).value;
    CellsFromLast(parse, lsize, lines, init, c, p);
    var m := CellsFrom(parse, lsize, init).value;
    if c.Cell? && CellPosition(lsize, c.left, c.right) == p {
      CellWritten(m, lsize, c);
    } else {
      CellUntouched(m, lsize, c, p);
      if p + 2 <= |m| {
        CellHolds(parse, lsize, init, p);
      } else {
        EvenPast(p, |m|);
        NothingPastEnd(parse, lsize, init, p);
        assert DecodeUnsigned([0, 0]) == 0;
      }
    }
  }

  /** An even position less than two before an even end is at or past it. */
  lemma EvenPast(p: int, e: int)
    requires p % 2 == 0 && e % 2 == 0 && p + 2 > e
    ensures p >= e
  {
  }

  /** The matrix after the lines is the one after all but the last, with
      the last line's write; and the cost last written at `p` is the last
      line's when it writes there, and otherwise the earlier lines'. */
  lemma CellsFromLast(parse: string -> Result<MatrixLine>, lsize: int, lines: seq<string>, init: seq<string>,
                      c: MatrixLine, p: int)
    requires CellsFrom(parse, lsize, lines).Ok? && lines != []
    requires init == lines[..|lines| - 1] && parse(lines[|lines| - 1]) == Ok(c)
    ensures CellsFrom(parse, lsize, init).Ok? && |CellsFrom(parse, lsize, init).value| % 2 == 0
    ensures WriteCell(CellsFrom(parse, lsize, init).value, lsize, c) == CellsFrom(parse, lsize, lines)
    ensures LastCostWith(parse, lsize, lines, p)
            == if c.Cell? && CellPosition(lsize, c.left, c.right) == p then c.cost
               else LastCostWith(parse, lsize, init, p)
  {
  }

  /** The written cell decodes to the cost. */
  lemma CellWritten(m: seq<byte>, lsize: int, c: MatrixLine)
    requires c.Cell? && WriteCell(m, lsize, c).Ok?
    ensures var p := CellPosition(lsize, c.left, c.right);
            p >= 0 && p + 2 <= |WriteCell(m, lsize, c).value|
            && DecodeSigned(WriteCell(m, lsize, c).value[p .. p + 2]) == c.cost
  {
    IntFieldWidths(c.cost);
    ToBytesRoundTrip(c.cost, 2, true);
  }

  /** A write to another even cell leaves cell `p` as it was, zero bytes
      past the old end. */
  lemma CellUntouched(m: seq<byte>, lsize: int, c: MatrixLine, p: nat)
    requires |m| % 2 == 0 && p % 2 == 0 && WriteCell(m, lsize, c).Ok?
    requires !(c.Cell? && CellPosition(lsize, c.left, c.right) == p)
    requires p + 2 <= |WriteCell(m, lsize, c).value|
    ensures p + 2 <= |m| ==> WriteCell(m, lsize, c).value[p .. p + 2] == m[p .. p + 2]
    ensures p + 2 > |m| ==> WriteCell(m, lsize, c).value[p .. p + 2] == [0, 0]
  {
    if c.Cell? {
      var q := CellPosition(lsize, c.left, c.right);
      IntFieldWidths(c.cost);
      var bs := IntField(c.cost, "short").value;
      assert |bs| == 2;
      assert WriteCell(m, lsize, c).value == JTypedByteBuffers.Overwrite(m, q, bs);
      OverwriteOtherCell(m, q, bs, p);
    }
  }

  /** Two bytes written at another even position leave the two at `p`. */
  lemma OverwriteOtherCell(m: seq<byte>, q: nat, bs: seq<byte>, p: nat)
    requires |m| % 2 == 0 && p % 2 == 0 && q % 2 == 0 && q != p && |bs| == 2
    requires p + 2 <= |JTypedByteBuffers.Overwrite(m, q, bs)|
    ensures p + 2 <= |m| ==> JTypedByteBuffers.Overwrite(m, q, bs)[p .. p + 2] == m[p .. p + 2]
    ensures p + 2 > |m| ==> JTypedByteBuffers.Overwrite(m, q, bs)[p .. p + 2] == [0, 0]
  {
    var r := JTypedByteBuffers.Overwrite(m, q, bs);
    assert p + 2 <= q || q + 2 <= p;
    assert p + 2 > |m| ==> p >= |m|;
    assert r[p] == (if p < |m| then m[p] else 0);
    assert r[p + 1] == (if p + 1 < |m| then m[p + 1] else 0);
  }

  // ---- the whole grammar block --------------------------------------------------

  /** The first line of a matrix file; an empty file reads as "". */
  function HeaderLine(lines: seq<string>): (r: string)
    ensures |lines| > 0 ==> r == lines[0]
  {
    if lines == [] then "" else lines[0]
  }

  /** The lines after a matrix file's header. */
  function Body(lines: seq<string>): (r: seq<string>)
    ensures |lines| > 0 ==> r == lines[1..]
  {
    if lines == [] then [] else lines[1..]
  }

  /** write_grammar: the part-of-speech table; then, without a matrix
      file, two zero 'short's; with one, the block convert_matrix writes. */
  function GrammarBytes(posList: seq<string>, matrix: Option<seq<string>>): (r: Result<seq<byte>>)
  {
    match matrix
    case None => GrammarHead(posList, 0, 0)
    case Some(lines) => MatrixGrammarBytes(posList, HeaderLine(lines), Body(lines))
  }

  /** The table is written before the header is read, so its errors come
      first; then the header's sizes as two 'short's and the converted
      matrix. */
  function MatrixGrammarBytes(posList: seq<string>, header: string, body: seq<string>): (r: Result<seq<byte>>)
  {
    var _ :- PosTableBytes(posList);
    var sizes :- MatrixHeader(header);
    var head :- GrammarHead(posList, sizes.0, sizes.1);
    var m :- MatrixFrom(sizes.0, body);
    Ok(head + m)
  }

  /** Without a matrix file the block is the table and two zero 'short's. */
  lemma GrammarBytesWithoutMatrix(posList: seq<string>)
    ensures GrammarBytes(posList, None).Ok? <==> PosTableBytes(posList).Ok?
    ensures GrammarBytes(posList, None).Ok? ==>
              GrammarBytes(posList, None).value == PosTableBytes(posList).value + [0, 0, 0, 0]
  {
    IntFieldWidths(0);
    assert EncodeUnsigned(0, 0) == [];
    assert EncodeUnsigned(0, 1) == [0];
    assert EncodeUnsigned(0, 2) == [0, 0];
  }

  /** An empty matrix file is refused: its header is blank. */
  lemma EmptyMatrixRefused(posList: seq<string>)
    ensures GrammarBytes(posList, Some([])).Err?
  {
    EmptyHeaderRefused();
  }

  /** An empty matrix file has a blank header. */
  lemma EmptyHeaderRefused()
    ensures MatrixHeader("") == Err(ValueError("invalid format at line 0"))
  {
    assert Texts.Strip("") == "";
  }

  /** The cost of cell (left, right) read from a grammar whose matrix is
      the converted one: the last cost the matrix file gave that cell, 0
      when it gave none. */
  lemma ConnectCostReadBack(g: Grammars.Grammar, lines: seq<string>, left: int, right: int)
    requires MatrixFrom(g.leftIdSize, lines).Ok?
    requires IsAt(g.bytes, g.connectTableOffset, MatrixFrom(g.leftIdSize, lines).value)
    requires 0 <= CellPosition(g.leftIdSize, left, right)
    requires CellPosition(g.leftIdSize, left, right) + 2 <= |MatrixFrom(g.leftIdSize, lines).value|
    ensures Grammars.GetConnectCost(g, left, right)
            == Ok(LastCostAt(g.leftIdSize, lines, CellPosition(g.leftIdSize, left, right)))
  {
    var m := MatrixFrom(g.leftIdSize, lines).value;
    var p := CellPosition(g.leftIdSize, left, right);
    CellAt(g, m, left, right, p);
    MatrixCellHolds(g.leftIdSize, lines, p);
  }

  /** The grammar reads cell (left, right) at the matrix's CellPosition. */
  lemma CellAt(g: Grammars.Grammar, m: seq<byte>, left: int, right: int, p: nat)
    requires IsAt(g.bytes, g.connectTableOffset, m)
    requires p == CellPosition(g.leftIdSize, left, right) && p + 2 <= |m|
    ensures p % 2 == 0
    ensures Grammars.GetConnectCost(g, left, right) == Ok(DecodeSigned(m[p .. p + 2]))
  {
    CellPositionInGrammar(g, left, right, p);
    SliceOfPlaced(g.bytes, g.connectTableOffset, m, p, 2);
  }

  lemma CellPositionInGrammar(g: Grammars.Grammar, left: int, right: int, p: int)
    requires p == CellPosition(g.leftIdSize, left, right)
    ensures p % 2 == 0
    ensures Grammars.ConnectCostPosition(g, left, right) == g.connectTableOffset + p
  {
  }

  lemma SliceOfPlaced(buf: seq<byte>, c: nat, m: seq<byte>, p: nat, k: nat)
    requires IsAt(buf, c, m) && p + k <= |m|
    ensures c + p + k <= |buf| && buf[c + p .. c + p + k] == m[p .. p + k]
  {
    assert m[..p + k] == m[..p] + m[p .. p + k];
    IsAtMiddle(buf, c, m, m[..p + k], m[..p], m[p .. p + k], c + p, c + p + k);
  }

  lemma MatrixGrammarParts(posList: seq<string>, header: string, body: seq<string>)
    requires MatrixGrammarBytes(posList, header, body).Ok?
    ensures MatrixHeader(header).Ok?
    ensures var sizes := MatrixHeader(header).value;
            GrammarHead(posList, sizes.0, sizes.1).Ok? && MatrixFrom(sizes.0, body).Ok?
            && MatrixGrammarBytes(posList, header, body).value
               == GrammarHead(posList, sizes.0, sizes.1).value + MatrixFrom(sizes.0, body).value
  {
  }

  /** A grammar block written with a matrix file parses back: the parts of
      speech split into their fields, the header's id sizes, and the
      converted matrix where the grammar reads its connection costs (so
      ConnectCostReadBack gives each cell the cost the file last gave it). */
  lemma GrammarBlockReadBack(buf: seq<byte>, offset: nat, posList: seq<string>, header: string, body: seq<string>)
    requires forall k :: 0 <= k < |posList| ==> ReadablePos(posList[k])
    requires MatrixGrammarBytes(posList, header, body).Ok?
    requires IsAt(buf, offset, MatrixGrammarBytes(posList, header, body).value)
    ensures MatrixHeader(header).Ok? && MatrixFrom(MatrixHeader(header).value.0, body).Ok?
    ensures Grammars.ParseGrammar(buf, offset).Ok?
    ensures var g := Grammars.ParseGrammar(buf, offset).value;
            g.posList == PosFields(posList)
            && (g.leftIdSize, g.rightIdSize) == MatrixHeader(header).value
            && IsAt(buf, g.connectTableOffset, MatrixFrom(g.leftIdSize, body).value)
  {
    MatrixGrammarParts(posList, header, body);
    var sizes := MatrixHeader(header).value;
    var head := GrammarHead(posList, sizes.0, sizes.1).value;
    var m := MatrixFrom(sizes.0, body).value;
    IsAtPrefix(buf, offset, head + m, head);
    GrammarReadBack(buf, offset, posList, sizes.0, sizes.1);
    var g := Grammars.ParseGrammar(buf, offset).value;
    IsAtAfter(buf, offset, head, m, g.connectTableOffset);
  }
}
