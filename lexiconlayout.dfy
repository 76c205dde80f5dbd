/** The lexicon block write_lexicon and write_wordinfo produce, as byte
    sequences: the trie (its units given), the word-id table the trie
    values point into, the word parameters and the word-information area;
    and, for each, that the dictionary readers get back what was written. */
module LexiconLayouts {
  import opened Wrappers
  import opened Bytes
  import opened DictionaryLayouts
  import JTypedByteBuffers
  import WordIdTables
  import WordParameterLists
  import WordInfoLists
  import Lexicons

  /** Bytes placed inside a block keep their place once the block is placed. */
  lemma IsAtWithin(buf: seq<byte>, o: nat, block: seq<byte>, p: nat, piece: seq<byte>)
    requires IsAt(buf, o, block) && IsAt(block, p, piece)
    ensures IsAt(buf, o + p, piece)
  {
    forall i | 0 <= i < |piece|
      ensures buf[o + p .. o + p + |piece|][i] == piece[i]
    {
      assert buf[o .. o + |block|][p + i] == block[p .. p + |piece|][i];
    }
  }

  /** Bytes placed in a block stay placed when more bytes follow it. */
  lemma IsAtExtend(block: seq<byte>, more: seq<byte>, p: nat, piece: seq<byte>)
    requires IsAt(block, p, piece)
    ensures IsAt(block + more, p, piece)
  {
    assert (block + more)[p .. p + |piece|] == block[p .. p + |piece|];
  }

  // ---- the values of an int array, read as u32 --------------------------------

  /** The four bytes of the i-th value of a placed int array. */
  lemma {:induction false} IntsPlacedAt(xs: seq<int>, buf: seq<byte>, q: nat, i: nat, at: nat)
    requires IntsBytes(xs).Ok? && IsAt(buf, q, IntsBytes(xs).value) && i < |xs|
    requires at == q + 4 * i
    ensures Fits(xs[i], 4, true) && IsAt(buf, at, ToBytes(xs[i], 4, true).value)
  {
    var n := |xs| - 1;
    var init := IntsBytes(xs[..n]).value;
    var last := IntField(xs[n], "int").value;
    assert IntsBytes(xs).value == init + last;
    if i < n {
      IsAtPrefix(buf, q, init + last, init);
      IntsPlacedAt(xs[..n], buf, q, i, at);
    } else {
      IntFieldWidths(xs[n]);
      assert |init| == 4 * n;
      IsAtAfter(buf, q, init, last, at);
    }
  }

  /** Non-negative values written as signed 'int's read back as the u32s
      the word-id table unpacks. */
  lemma U32sReadBack(xs: seq<nat>, buf: seq<byte>, q: nat)
    requires IntsBytes(xs).Ok? && IsAt(buf, q, IntsBytes(xs).value)
    ensures UnpackU32s(buf, q, |xs|).Ok? && UnpackU32s(buf, q, |xs|).value == xs
  {
    var ys := UnpackU32s(buf, q, |xs|).value;
    forall i | 0 <= i < |xs|
      ensures ys[i] == xs[i]
    {
      IntsPlacedAt(xs, buf, q, i, q + 4 * i);
      PlacedU32(buf, q + 4 * i, xs[i]);
    }
  }

  /** A non-negative 'int' reads back as a u32. */
  lemma PlacedU32(buf: seq<byte>, p: nat, x: nat)
    requires Fits(x, 4, true) && IsAt(buf, p, ToBytes(x, 4, true).value)
    ensures p + 4 <= |buf| && DecodeUnsigned(buf[p .. p + 4]) == x
  {
    SignedReadUnsigned(x, 4);
  }

  // ---- the word-id table ------------------------------------------------------

  /** The word-id table write_lexicon fills, key by key in trie-key order:
      for each key its id count as a 'byte' and its ids as 'int's, and the
      position in the table where that entry starts, which is the value the
      trie stores for the key. */
  function WordIdTableOf(idLists: seq<seq<nat>>): (r: Result<(seq<byte>, seq<nat>)>)
    ensures r.Ok? ==> |r.value.1| == |idLists|
  {
    if idLists == [] then Ok(([], []))
    else
      var n := |idLists| - 1;
      var front :- WordIdTableOf(idLists[..n]);
      var entry :- IntArrayBytes(idLists[n]);
      Ok((front.0 + entry, front.1 + [|front.0|]))
  }

  /** The table accepts exactly lists of fewer than 256 ids that fit an 'int'. */
  lemma {:induction false} WordIdTableAccepts(idLists: seq<seq<nat>>)
    ensures WordIdTableOf(idLists).Ok? <==>
              forall k :: 0 <= k < |idLists| ==> IntArrayBytes(idLists[k]).Ok?
  {
    if idLists != [] {
      var n := |idLists| - 1;
      WordIdTableAccepts(idLists[..n]);
      assert forall k :: 0 <= k < n ==> idLists[..n][k] == idLists[k];
    }
  }

  /** The entry of key k sits, in a placed table, at the value stored for k. */
  lemma {:induction false} WordIdTableEntry(idLists: seq<seq<nat>>, buf: seq<byte>, o: nat, k: nat, at: nat)
    requires WordIdTableOf(idLists).Ok? && k < |idLists|
    requires IsAt(buf, o, WordIdTableOf(idLists).value.0)
    requires at == o + WordIdTableOf(idLists).value.1[k]
    ensures IntArrayBytes(idLists[k]).Ok?
    ensures IsAt(buf, at, IntArrayBytes(idLists[k]).value)
  {
    var n := |idLists| - 1;
    var front := WordIdTableOf(idLists[..n]).value;
    var entry := IntArrayBytes(idLists[n]).value;
    assert WordIdTableOf(idLists).value == (front.0 + entry, front.1 + [|front.0|]);
    if k < n {
      IsAtPrefix(buf, o, front.0 + entry, front.0);
      assert idLists[..n][k] == idLists[k];
      WordIdTableEntry(idLists[..n], buf, o, k, at);
    } else {
      IsAtAfter(buf, o, front.0, entry, at);
    }
  }

  /** A table reader over a buffer holding the table reads each key's ids
      back from the value the trie stores for it. */
  lemma WordIdTableGet(t: WordIdTables.WordIdTable, idLists: seq<seq<nat>>, k: nat)
    requires WordIdTableOf(idLists).Ok? && k < |idLists|
    requires IsAt(t.bytes, t.offset, WordIdTableOf(idLists).value.0)
    ensures WordIdTables.Get(t, WordIdTableOf(idLists).value.1[k]) == Ok(idLists[k])
  {
    var v := WordIdTableOf(idLists).value.1[k];
    WordIdTableEntry(idLists, t.bytes, t.offset, k, t.offset + v);
    EntryGet(t, v, idLists[k], t.offset + v);
  }

  /** One entry of the table read back. */
  lemma EntryGet(t: WordIdTables.WordIdTable, index: nat, ids: seq<nat>, p: nat)
    requires p == t.offset + index
    requires IntArrayBytes(ids).Ok? && IsAt(t.bytes, p, IntArrayBytes(ids).value)
    ensures WordIdTables.Get(t, index) == Ok(ids)
  {
    var values := IntsBytes(ids).value;
    IsAtAfter(t.bytes, p, [|ids|], values, p + 1);
    LeadingByte(t.bytes, p, |ids|, values);
    U32sReadBack(ids, t.bytes, p + 1);
    GetFrom(t, index, p, |ids|);
  }

  /** The first of bytes placed at `p` is at `p`. */
  lemma LeadingByte(buf: seq<byte>, p: nat, b: byte, rest: seq<byte>)
    requires IsAt(buf, p, [b] + rest)
    ensures p < |buf| && buf[p] == b
  {
    assert buf[p] == buf[p .. p + 1 + |rest|][0];
  }

  /** The table reader unpacks the count of ids the entry's first byte gives. */
  lemma GetFrom(t: WordIdTables.WordIdTable, index: nat, p: nat, n: nat)
    requires p == t.offset + index && p < |t.bytes| && t.bytes[p] as nat == n
    ensures WordIdTables.Get(t, index) == UnpackU32s(t.bytes, p + 1, n)
  {
  }

  // ---- the word parameters --------------------------------------------------------

  /** One word's parameters: left id, right id and cost, each a 'short'. */
  function ParamBytes(p: seq<int>): (r: Result<seq<byte>>)
    requires |p| == 3
    ensures r.Ok? <==> Fits(p[0], 2, true) && Fits(p[1], 2, true) && Fits(p[2], 2, true)
    ensures r.Ok? ==> r.value == ToBytes(p[0], 2, true).value + ToBytes(p[1], 2, true).value
                                 + ToBytes(p[2], 2, true).value
  {
    IntFieldWidths(p[0]);
    IntFieldWidths(p[1]);
    IntFieldWidths(p[2]);
    var left :- IntField(p[0], "short");
    var right :- IntField(p[1], "short");
    var cost :- IntField(p[2], "short");
    Ok(left + right + cost)
  }

  /** Every entry holds its three parameters. */
  predicate Triples(ps: seq<seq<int>>)
  {
    forall w :: 0 <= w < |ps| ==> |ps[w]| == 3
  }

  /** The parameter records of the entries, in entry order. */
  function ParamsFrom(ps: seq<seq<int>>): (r: Result<seq<byte>>)
    requires Triples(ps)
    ensures r.Ok? ==> |r.value| == 6 * |ps|
  {
    if ps == [] then Ok([])
    else
      var n := |ps| - 1;
      var init :- ParamsFrom(ps[..n]);
      var last :- ParamBytes(ps[n]);
      Ok(init + last)
  }

  /** The word-parameters block: the entry count as an 'int', then the records. */
  function ParamsBytes(ps: seq<seq<int>>): (r: Result<seq<byte>>)
    requires Triples(ps)
    ensures r.Ok? <==> IntField(|ps|, "int").Ok? && ParamsFrom(ps).Ok?
    ensures r.Ok? ==> r.value == IntField(|ps|, "int").value + ParamsFrom(ps).value
  {
    var count :- IntField(|ps|, "int");
    var records :- ParamsFrom(ps);
    Ok(count + records)
  }

  /** The record of word w sits 6 * w bytes into the placed records. */
  lemma {:induction false} ParamsPlacedAt(ps: seq<seq<int>>, buf: seq<byte>, q: nat, w: nat)
    requires Triples(ps) && ParamsFrom(ps).Ok? && IsAt(buf, q, ParamsFrom(ps).value) && w < |ps|
    ensures ParamBytes(ps[w]).Ok? && IsAt(buf, q + 6 * w, ParamBytes(ps[w]).value)
  {
    var n := |ps| - 1;
    var init := ParamsFrom(ps[..n]).value;
    var last := ParamBytes(ps[n]).value;
    assert ParamsFrom(ps).value == init + last;
    IsAtSplit(buf, q, init, last);
    if w < n {
      assert ps[..n][w] == ps[w];
      ParamsPlacedAt(ps[..n], buf, q, w);
    }
  }

  /** A signed 'short' read back unsigned: its value modulo 2^16. */
  lemma PlacedU16(buf: seq<byte>, p: nat, x: int)
    requires Fits(x, 2, true) && IsAt(buf, p, ToBytes(x, 2, true).value)
    ensures p + 2 <= |buf| && DecodeUnsigned(buf[p .. p + 2]) == x % 0x10000
  {
    SignedReadUnsigned(x, 2);
    assert Pow256(2) == 0x10000;
  }

  /** A signed 'short' read back signed. */
  lemma PlacedI16(buf: seq<byte>, p: nat, x: int)
    requires Fits(x, 2, true) && IsAt(buf, p, ToBytes(x, 2, true).value)
    ensures p + 2 <= |buf| && DecodeSigned(buf[p .. p + 2]) == x
  {
    ToBytesRoundTrip(x, 2, true);
  }

  /** The parameter reader gives each word its left and right ids modulo
      2^16 (they are read unsigned, so -1 reads back as 65535) and its cost
      as written. */
  lemma ParamsGet(l: WordParameterLists.WordParameterList, ps: seq<seq<int>>, w: nat)
    requires Triples(ps) && ParamsFrom(ps).Ok? && IsAt(l.bytes, l.offset, ParamsFrom(ps).value) && w < |ps|
    ensures WordParameterLists.GetLeftId(l, w) == Ok(ps[w][0] % 0x10000)
    ensures WordParameterLists.GetRightId(l, w) == Ok(ps[w][1] % 0x10000)
    ensures WordParameterLists.GetCost(l, w) == Ok(ps[w][2])
  {
    ParamsPlacedAt(ps, l.bytes, l.offset, w);
    RecordGet(l, w, ps[w][0], ps[w][1], ps[w][2]);
  }

  /** The three fields of one placed record read back. */
  lemma RecordGet(l: WordParameterLists.WordParameterList, w: nat, left: int, right: int, cost: int)
    requires Fits(left, 2, true) && Fits(right, 2, true) && Fits(cost, 2, true)
    requires IsAt(l.bytes, l.offset + 6 * w,
                  ToBytes(left, 2, true).value + ToBytes(right, 2, true).value + ToBytes(cost, 2, true).value)
    ensures WordParameterLists.GetLeftId(l, w) == Ok(left % 0x10000)
    ensures WordParameterLists.GetRightId(l, w) == Ok(right % 0x10000)
    ensures WordParameterLists.GetCost(l, w) == Ok(cost)
  {
    var at := l.offset + 6 * w;
    ThreeAt(l.bytes, at, ToBytes(left, 2, true).value, ToBytes(right, 2, true).value, ToBytes(cost, 2, true).value);
    PlacedU16(l.bytes, at, left);
    PlacedU16(l.bytes, at + 2, right);
    PlacedI16(l.bytes, at + 4, cost);
  }

  // ---- the trie and the whole lexicon block -------------------------------------------

  /** `trie.byte_array()`: each unit of the double array as a little-endian u32. */
  function UnitsBytes(units: seq<nat>): (r: seq<byte>)
    requires forall i :: 0 <= i < |units| ==> units[i] < Pow256(4)
    ensures |r| == 4 * |units|
  {
    if units == [] then []
    else
      var n := |units| - 1;
      UnitsBytes(units[..n]) + EncodeUnsigned(units[n], 4)
  }

  lemma {:induction false} UnitsPlacedAt(units: seq<nat>, buf: seq<byte>, q: nat, i: nat)
    requires forall j :: 0 <= j < |units| ==> units[j] < Pow256(4)
    requires IsAt(buf, q, UnitsBytes(units)) && i < |units|
    ensures q + 4 * i + 4 <= |buf| && DecodeUnsigned(buf[q + 4 * i .. q + 4 * i + 4]) == units[i]
  {
    var n := |units| - 1;
    IsAtSplit(buf, q, UnitsBytes(units[..n]), EncodeUnsigned(units[n], 4));
    if i < n {
      UnitsPlacedAt(units[..n], buf, q, i);
    } else {
      DecodeEncodeUnsigned(units[n], 4);
    }
  }

  /** The trie units read back as the u32s the lexicon unpacks. */
  lemma UnitsReadBack(units: seq<nat>, buf: seq<byte>, q: nat)
    requires forall j :: 0 <= j < |units| ==> units[j] < Pow256(4)
    requires IsAt(buf, q, UnitsBytes(units))
    ensures UnpackU32s(buf, q, |units|).Ok? && UnpackU32s(buf, q, |units|).value == units
  {
    var ys := UnpackU32s(buf, q, |units|).value;
    forall i | 0 <= i < |units|
      ensures ys[i] == units[i]
    {
      UnitsPlacedAt(units, buf, q, i);
    }
  }

  /** write_lexicon: the word-id table is filled first (so its errors come
      first); then the trie's unit count and units, the table's byte count
      and bytes, and the word-parameters block.  The trie units are given:
      the double array built over the keys and the table positions is not
      part of this model. */
  function LexiconBytes(units: seq<nat>, idLists: seq<seq<nat>>, ps: seq<seq<int>>): (r: Result<seq<byte>>)
    requires forall i :: 0 <= i < |units| ==> units[i] < Pow256(4)
    requires Triples(ps)
  {
    var tv :- WordIdTableOf(idLists);
    var trieSize :- IntField(|units|, "int");
    var tableSize :- IntField(|tv.0|, "int");
    var params :- ParamsBytes(ps);
    Ok(trieSize + UnitsBytes(units) + tableSize + tv.0 + params)
  }

  /** A lexicon block, written: the pieces in order. */
  lemma LexiconParts(units: seq<nat>, idLists: seq<seq<nat>>, ps: seq<seq<int>>)
    requires forall i :: 0 <= i < |units| ==> units[i] < Pow256(4)
    requires Triples(ps) && LexiconBytes(units, idLists, ps).Ok?
    ensures WordIdTableOf(idLists).Ok? && ParamsFrom(ps).Ok?
    ensures Fits(|units|, 4, true) && Fits(|WordIdTableOf(idLists).value.0|, 4, true) && Fits(|ps|, 4, true)
    ensures LexiconBytes(units, idLists, ps).value
            == ToBytes(|units|, 4, true).value + UnitsBytes(units)
               + (ToBytes(|WordIdTableOf(idLists).value.0|, 4, true).value + WordIdTableOf(idLists).value.0)
               + (ToBytes(|ps|, 4, true).value + ParamsFrom(ps).value)
  {
    IntFieldWidths(|units|);
    IntFieldWidths(|WordIdTableOf(idLists).value.0|);
    IntFieldWidths(|ps|);
    var table := WordIdTableOf(idLists).value.0;
    Regroup(ToBytes(|units|, 4, true).value, UnitsBytes(units), ToBytes(|table|, 4, true).value, table,
            ToBytes(|ps|, 4, true).value + ParamsFrom(ps).value);
  }

  /** The pieces of a block, grouped as the readers take them. */
  lemma Regroup(a: seq<byte>, b: seq<byte>, c: seq<byte>, d: seq<byte>, e: seq<byte>)
    ensures a + b + c + d + e == a + b + (c + d) + e
  {
  }

  /** The lexicon reader over a written lexicon block: the same trie units,
      the word-id table and the parameter list where they were written,
      and the word information starting right after the block with one
      word per entry. */
  lemma LexiconReadBack(buf: seq<byte>, o: nat, units: seq<nat>, idLists: seq<seq<nat>>, ps: seq<seq<int>>)
    requires forall i :: 0 <= i < |units| ==> units[i] < Pow256(4)
    requires Triples(ps) && LexiconBytes(units, idLists, ps).Ok?
    requires IsAt(buf, o, LexiconBytes(units, idLists, ps).value)
    ensures WordIdTableOf(idLists).Ok? && ParamsFrom(ps).Ok? && Lexicons.ReadBlocks(buf, o).Ok?
    ensures Lexicons.ReadBlocks(buf, o).value.units == units
    ensures Lexicons.ReadBlocks(buf, o).value.wordIdTable.offset == o + 8 + 4 * |units|
    ensures Lexicons.ReadBlocks(buf, o).value.wordParams.offset == o + 12 + 4 * |units| + |WordIdTableOf(idLists).value.0|
    ensures Lexicons.ReadBlocks(buf, o).value.wordParams.size == |ps|
    ensures Lexicons.ReadBlocks(buf, o).value.wordInfos.offset == o + |LexiconBytes(units, idLists, ps).value|
    ensures Lexicons.ReadBlocks(buf, o).value.wordInfos.wordSize == |ps|
  {
    LexiconParts(units, idLists, ps);
    var table := WordIdTableOf(idLists).value.0;
    var t := o + 4 + 4 * |units|;
    var q := t + 4 + |table|;
    PiecesRead(buf, o, units, table, ParamsFrom(ps).value, |ps|, t, q);
    ReadBlocksSteps(buf, o, units, t, |table|, q, |ps|);
  }

  /** In a written lexicon block the word-id table sits right behind its
      count, at t, and the parameter records right behind theirs, at q. */
  lemma LexiconPlaced(buf: seq<byte>, o: nat, units: seq<nat>, idLists: seq<seq<nat>>, ps: seq<seq<int>>,
                      t: nat, q: nat)
    requires forall i :: 0 <= i < |units| ==> units[i] < Pow256(4)
    requires Triples(ps) && LexiconBytes(units, idLists, ps).Ok?
    requires IsAt(buf, o, LexiconBytes(units, idLists, ps).value)
    requires WordIdTableOf(idLists).Ok?
    requires t == o + 8 + 4 * |units| && q == t + 4 + |WordIdTableOf(idLists).value.0|
    ensures ParamsFrom(ps).Ok?
    ensures IsAt(buf, t, WordIdTableOf(idLists).value.0)
    ensures IsAt(buf, q, ParamsFrom(ps).value)
  {
    LexiconParts(units, idLists, ps);
    SixAt(buf, o, ToBytes(|units|, 4, true).value, UnitsBytes(units),
          ToBytes(|WordIdTableOf(idLists).value.0|, 4, true).value, WordIdTableOf(idLists).value.0,
          ToBytes(|ps|, 4, true).value, ParamsFrom(ps).value, t, q);
  }

  /** Two pieces, each behind a header, after a first pair of pieces. */
  lemma SixAt(buf: seq<byte>, p: nat, a: seq<byte>, b: seq<byte>, c: seq<byte>, d: seq<byte>,
              e: seq<byte>, f: seq<byte>, t: nat, q: nat)
    requires IsAt(buf, p, a + b + (c + d) + (e + f))
    requires t == p + |a| + |b| + |c| && q == t + |d| + |e|
    ensures IsAt(buf, t, d)
    ensures IsAt(buf, q, f)
  {
    ThreeAt(buf, p, a + b, c + d, e + f);
    IsAtSplit(buf, p + |a + b|, c, d);
    IsAtSplit(buf, p + |a + b| + |c + d|, e, f);
  }

  /** The same placement, under another name for the position. */
  lemma IsAtMoved(buf: seq<byte>, p: nat, p': nat, bytes: seq<byte>)
    requires IsAt(buf, p, bytes) && p == p'
    ensures IsAt(buf, p', bytes)
  {
  }

  /** The three pieces of a lexicon block, each behind its count. */
  lemma PiecesRead(buf: seq<byte>, o: nat, units: seq<nat>, table: seq<byte>, records: seq<byte>, n: nat,
                   t: nat, q: nat)
    requires t == o + 4 + 4 * |units| && q == t + 4 + |table|
    requires forall i :: 0 <= i < |units| ==> units[i] < Pow256(4)
    requires Fits(|units|, 4, true) && Fits(|table|, 4, true) && Fits(n, 4, true)
    requires IsAt(buf, o, ToBytes(|units|, 4, true).value + UnitsBytes(units)
                          + (ToBytes(|table|, 4, true).value + table) + (ToBytes(n, 4, true).value + records))
    ensures o + 4 <= |buf| && DecodeUnsigned(buf[o .. o + 4]) == |units|
    ensures UnpackU32s(buf, o + 4, |units|) == Ok(units)
    ensures t + 4 <= |buf| && DecodeUnsigned(buf[t .. t + 4]) == |table| && IsAt(buf, t + 4, table)
    ensures q + 4 <= |buf| && DecodeUnsigned(buf[q .. q + 4]) == n && IsAt(buf, q + 4, records)
  {
    var trieBytes := ToBytes(|units|, 4, true).value + UnitsBytes(units);
    var tableBytes := ToBytes(|table|, 4, true).value + table;
    var paramBytes := ToBytes(n, 4, true).value + records;
    ThreeAt(buf, o, trieBytes, tableBytes, paramBytes);
    BlockRead(buf, o, |units|, UnitsBytes(units));
    UnitsReadBack(units, buf, o + 4);
    BlockRead(buf, t, |table|, table);
    BlockRead(buf, q, n, records);
  }

  /** A block written after a count as an 'int': the count reads back and
      the block follows it. */
  lemma BlockRead(buf: seq<byte>, o: nat, n: nat, block: seq<byte>)
    requires Fits(n, 4, true) && IsAt(buf, o, ToBytes(n, 4, true).value + block)
    ensures o + 4 <= |buf| && DecodeUnsigned(buf[o .. o + 4]) == n && IsAt(buf, o + 4, block)
  {
    IsAtSplit(buf, o, ToBytes(n, 4, true).value, block);
    PlacedU32(buf, o, n);
  }

  /** ReadBlocks, step by step, over the counts read back. */
  lemma ReadBlocksSteps(buf: seq<byte>, o: nat, units: seq<nat>, t: nat, tableSize: nat, q: nat, n: nat)
    requires o + 4 <= |buf| && DecodeUnsigned(buf[o .. o + 4]) == |units|
    requires UnpackU32s(buf, o + 4, |units|) == Ok(units)
    requires t == o + 4 + 4 * |units| && t + 4 <= |buf| && DecodeUnsigned(buf[t .. t + 4]) == tableSize
    requires q == t + 4 + tableSize && q + 4 <= |buf| && DecodeUnsigned(buf[q .. q + 4]) == n
    ensures Lexicons.ReadBlocks(buf, o).Ok?
    ensures var b := Lexicons.ReadBlocks(buf, o).value;
            b.units == units && b.wordIdTable.offset == t + 4 && b.wordParams.offset == q + 4
            && b.wordParams.size == n && b.wordInfos.offset == q + 4 + 6 * n && b.wordInfos.wordSize == n
  {
    assert ReadUnsigned(buf, o, 4) == Ok(|units|);
    ReadBlocksFrom(buf, o, |units|, units, t);
    var table := WordIdTables.WordIdTable(buf, tableSize, t + 4);
    var params := WordParameterLists.WordParameterList(buf, n, q + 4);
    assert WordIdTables.NewWordIdTable(buf, t) == Ok(table);
    assert WordParameterLists.NewWordParameterList(buf, q) == Ok(params);
    ReadTablesFrom(buf, t, units, |units|, table, q, params);
  }

  /** ReadBlocks once its count and its units are read. */
  lemma ReadBlocksFrom(buf: seq<byte>, o: nat, size: nat, units: seq<nat>, t: nat)
    requires ReadUnsigned(buf, o, 4) == Ok(size) && o + 4 <= |buf|
    requires UnpackU32s(buf, o + 4, size) == Ok(units)
    requires t == o + 4 + 4 * size
    ensures Lexicons.ReadBlocks(buf, o) == Lexicons.ReadTables(buf, t, units, size)
  {
    ReadCountFrom(buf, o, size);
    ReadUnitsFrom(buf, o, size, units, t);
  }

  lemma ReadCountFrom(buf: seq<byte>, o: nat, size: nat)
    requires ReadUnsigned(buf, o, 4) == Ok(size)
    ensures Lexicons.ReadBlocks(buf, o) == Lexicons.ReadUnits(buf, o, size)
  {
  }

  lemma ReadUnitsFrom(buf: seq<byte>, o: nat, size: nat, units: seq<nat>, t: nat)
    requires o + 4 <= |buf| && UnpackU32s(buf, o + 4, size) == Ok(units)
    requires t == o + 4 + 4 * size
    ensures Lexicons.ReadUnits(buf, o, size) == Lexicons.ReadTables(buf, t, units, size)
  {
  }

  /** ReadTables once the table and the parameters are read. */
  lemma ReadTablesFrom(buf: seq<byte>, t: nat, units: seq<nat>, size: nat, table: WordIdTables.WordIdTable,
                       q: nat, params: WordParameterLists.WordParameterList)
    requires WordIdTables.NewWordIdTable(buf, t) == Ok(table)
    requires q == t + WordIdTables.StorageSize(table) && WordParameterLists.NewWordParameterList(buf, q) == Ok(params)
    ensures Lexicons.ReadTables(buf, t, units, size)
            == Ok(Lexicons.LexiconBlocks(units, size, table, params,
                    WordInfoLists.WordInfoList(buf, q + WordParameterLists.StorageSize(params),
                                               WordParameterLists.GetSize(params))))
  {
  }

  // ---- the word-information area ----------------------------------------------

  /** Where write_wordinfo puts its first record, as written: from the
      stream position `mark` it seeks to `mark * 4 + len(entries)`. */
  function WordInfoStart(mark: nat, n: nat): nat
  {
    mark * 4 + n
  }

  /** Where the first record evidently belongs: right after the n four-byte
      record positions written at `mark`. */
  function WordInfoStartIntended(mark: nat, n: nat): nat
  {
    mark + 4 * n
  }

  /** The records write_wordinfo writes from stream position `start`, given
      each entry's record bytes (or the error writing it raises) in entry
      order: the position of each record, written as an 'int' (four signed
      bytes) into the position table before the record itself, and the
      records one after another. */
  function AreaFrom(start: nat, recs: seq<Result<seq<byte>>>): (r: Result<(seq<nat>, seq<byte>)>)
    ensures r.Ok? ==> |r.value.0| == |recs|
  {
    if recs == [] then Ok(([], []))
    else
      var n := |recs| - 1;
      var front :- AreaFrom(start, recs[..n]);
      var _ :- ToBytes(start + |front.1|, 4, true);
      var rec :- recs[n];
      Ok((front.0 + [start + |front.1|], front.1 + rec))
  }

  /** In a written area every record was written, its position fits an
      'int', and the record sits at that position once the area is placed
      at `start`. */
  lemma {:induction false} AreaEntry(start: nat, recs: seq<Result<seq<byte>>>, buf: seq<byte>, k: nat)
    requires AreaFrom(start, recs).Ok? && k < |recs|
    requires IsAt(buf, start, AreaFrom(start, recs).value.1)
    ensures recs[k].Ok? && Fits(AreaFrom(start, recs).value.0[k], 4, true)
    ensures IsAt(buf, AreaFrom(start, recs).value.0[k], recs[k].value)
  {
    var n := |recs| - 1;
    var front := AreaFrom(start, recs[..n]).value;
    var rec := recs[n].value;
    assert AreaFrom(start, recs).value == (front.0 + [start + |front.1|], front.1 + rec);
    IsAtSplit(buf, start, front.1, rec);
    if k < n {
      AreaEntry(start, recs[..n], buf, k);
    }
  }

  /** The record positions of a written area fit the 'int's of the
      position table. */
  lemma AreaPositionsFit(start: nat, recs: seq<Result<seq<byte>>>)
    requires AreaFrom(start, recs).Ok?
    ensures IntsBytes(AreaFrom(start, recs).value.0).Ok?
  {
    var area := AreaFrom(start, recs).value;
    var buf := seq(start, _ => 0) + area.1;
    assert IsAt(buf, start, area.1) by {
      assert buf[start .. start + |area.1|] == area.1;
    }
    forall k | 0 <= k < |recs|
      ensures Fits(area.0[k], 4, true)
    {
      AreaEntry(start, recs, buf, k);
    }
  }

  /** write_wordinfo's two writes on a stream of `out`: the records from
      `start`, then the position table at the old end; in between, the
      seek past the end leaves zero bytes. */
  lemma AreaWritten(out: seq<byte>, table: seq<byte>, start: nat, body: seq<byte>)
    requires start >= |out| + |table| && body != []
    ensures JTypedByteBuffers.Written(JTypedByteBuffers.Written(out, start, body), |out|, table)
            == out + table + seq(start - |out| - |table|, _ => 0) + body
  {
    var mid := JTypedByteBuffers.Overwrite(out, start, body);
    var r := JTypedByteBuffers.Overwrite(mid, |out|, table);
    var e := out + table + seq(start - |out| - |table|, _ => 0) + body;
    assert |r| == |e|;
    forall i | 0 <= i < |r|
      ensures r[i] == e[i]
    {
      if i < |out| {
      } else if i < |out| + |table| {
        assert r[|out| .. |out| + |table|][i - |out|] == table[i - |out|];
      } else if i < start {
      } else {
        assert mid[start .. start + |body|][i - start] == body[i - start];
      }
    }
    if table == [] {
      assert r == mid;
    }
  }

  /** As written, the records start 3 * (mark - n) bytes after the end of
      the position table, and that gap is left as zero bytes. */
  lemma AreaLayoutAsWritten(out: seq<byte>, recs: seq<Result<seq<byte>>>, start: nat)
    requires start == WordInfoStart(|out|, |recs|) && |out| >= |recs|
    requires AreaFrom(start, recs).Ok? && AreaFrom(start, recs).value.1 != []
    ensures IntsBytes(AreaFrom(start, recs).value.0).Ok?
    ensures JTypedByteBuffers.Written(JTypedByteBuffers.Written(out, start, AreaFrom(start, recs).value.1),
                                      |out|, IntsBytes(AreaFrom(start, recs).value.0).value)
            == out + IntsBytes(AreaFrom(start, recs).value.0).value
               + seq(3 * (|out| - |recs|), _ => 0) + AreaFrom(start, recs).value.1
  {
    AreaPositionsFit(start, recs);
    AreaWritten(out, IntsBytes(AreaFrom(start, recs).value.0).value, start, AreaFrom(start, recs).value.1);
  }

  /** With the records starting after the position table, the table is
      followed directly by the records. */
  lemma AreaLayoutIntended(out: seq<byte>, recs: seq<Result<seq<byte>>>, start: nat)
    requires start == WordInfoStartIntended(|out|, |recs|)
    requires AreaFrom(start, recs).Ok?
    ensures IntsBytes(AreaFrom(start, recs).value.0).Ok?
    ensures JTypedByteBuffers.Written(JTypedByteBuffers.Written(out, start, AreaFrom(start, recs).value.1),
                                      |out|, IntsBytes(AreaFrom(start, recs).value.0).value)
            == out + IntsBytes(AreaFrom(start, recs).value.0).value + AreaFrom(start, recs).value.1
  {
    AreaPositionsFit(start, recs);
    var table := IntsBytes(AreaFrom(start, recs).value.0).value;
    var body := AreaFrom(start, recs).value.1;
    if body == [] {
      JTypedByteBuffers.WrittenAtEnd(out, table);
      assert out + table + body == out + table;
    } else {
      AreaWritten(out, table, start, body);
      assert seq(start - |out| - |table|, _ => 0) == [];
      assert out + table + [] == out + table;
    }
  }

  /** With the position table at `mark` and the records at `start`, the
      word-information reader finds each entry's record at the position the
      table gives for it. */
  lemma AreaReadBack(buf: seq<byte>, mark: nat, start: nat, recs: seq<Result<seq<byte>>>, k: nat)
    requires AreaFrom(start, recs).Ok? && k < |recs|
    requires IntsBytes(AreaFrom(start, recs).value.0).Ok?
    requires IsAt(buf, mark, IntsBytes(AreaFrom(start, recs).value.0).value)
    requires IsAt(buf, start, AreaFrom(start, recs).value.1)
    ensures recs[k].Ok?
    ensures WordInfoLists.WordIdToOffset(WordInfoLists.WordInfoList(buf, mark, |recs|), k)
            == AreaFrom(start, recs).value.0[k]
    ensures IsAt(buf, AreaFrom(start, recs).value.0[k], recs[k].value)
  {
    var offs := AreaFrom(start, recs).value.0;
    AreaEntry(start, recs, buf, k);
    var at := mark + 4 * k;
    IntsPlacedAt(offs, buf, mark, k, at);
    PlacedU32(buf, at, offs[k]);
    OffsetRead(buf, mark, |recs|, k, at);
  }

  /** word_id_to_offset reads the four bytes at `at`. */
  lemma OffsetRead(buf: seq<byte>, mark: nat, n: nat, k: nat, at: nat)
    requires at == mark + 4 * k && at + 4 <= |buf|
    ensures WordInfoLists.WordIdToOffset(WordInfoLists.WordInfoList(buf, mark, n), k) == DecodeUnsigned(buf[at .. at + 4])
  {
  }

  /** A record written into the area decodes, through its entry's position,
      as the fields written (see DictionaryLayouts.RecordReadBack). */
  lemma AreaRecordReadBack(buf: seq<byte>, mark: nat, start: nat, recs: seq<Result<seq<byte>>>, k: nat,
                           wi: WordInfoLists.WordInfo, a: seq<int>, b: seq<int>, c: seq<int>)
    requires AreaFrom(start, recs).Ok? && k < |recs|
    requires IntsBytes(AreaFrom(start, recs).value.0).Ok?
    requires IsAt(buf, mark, IntsBytes(AreaFrom(start, recs).value.0).value)
    requires IsAt(buf, start, AreaFrom(start, recs).value.1)
    requires Storable(wi) && recs[k] == RecordBytes(wi, Ok(Ids(a)), Ok(Ids(b)), Ok(Ids(c)))
    ensures WordInfoLists.EntryAtAsWritten(WordInfoLists.WordInfoList(buf, mark, |recs|), k)
            == Ok(ReadBack(wi, a, b, c))
  {
    AreaReadBack(buf, mark, start, recs, k);
    RecordReadBack(WordInfoLists.WordInfoList(buf, mark, |recs|), k, wi, a, b, c, AreaFrom(start, recs).value.0[k]);
  }
}
