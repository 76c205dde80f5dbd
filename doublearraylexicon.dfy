/** A lexicon block of a dictionary: the trie over UTF-8 headwords, the
    word-id table its values point into, the word parameters and the word
    information records. */
module Lexicons {
  import opened Wrappers
  import opened Bytes
  import opened DoubleArrays
  import opened WordIdTables
  import opened WordParameterLists
  import opened WordInfoLists

  /** The blocks of a lexicon as laid out from `offset`. */
  datatype LexiconBlocks = LexiconBlocks(
    units: seq<nat>,
    size: nat,
    wordIdTable: WordIdTable,
    wordParams: WordParameterList,
    wordInfos: WordInfoList)

  /** The lexicon's blocks, one after the other: a u32 unit count, that many
      u32 trie units, the word-id table, the word parameters and the word
      information, which holds as many words as the parameters. */
  function ReadBlocks(buf: seq<byte>, offset: nat): (r: Result<LexiconBlocks>)
    ensures r.Ok? ==> |r.value.units| == r.value.size && offset + 4 + 4 * r.value.size <= |buf|
    ensures r.Ok? ==> r.value.wordIdTable.bytes == buf && r.value.wordParams.bytes == buf
                      && r.value.wordInfos.bytes == buf
    ensures r.Ok? ==> r.value.wordIdTable.offset == offset + 4 + 4 * r.value.size + 4
    ensures r.Ok? ==> r.value.wordParams.offset == r.value.wordIdTable.offset + r.value.wordIdTable.size + 4
    ensures r.Ok? ==> r.value.wordInfos.offset == r.value.wordParams.offset + ELEMENT_SIZE * r.value.wordParams.size
                      && r.value.wordInfos.wordSize == r.value.wordParams.size
  {
    var size :- ReadUnsigned(buf, offset, 4);
    ReadUnits(buf, offset, size)
  }

  /** The blocks after the unit count `size` read at `offset`: the units,
      then the tables. */
  function ReadUnits(buf: seq<byte>, offset: nat, size: nat): (r: Result<LexiconBlocks>)
  {
    if offset + 4 > |buf| then Err(ValueError("seek out of range"))
    else
      var units :- UnpackU32s(buf, offset + 4, size);
      ReadTables(buf, offset + 4 + 4 * size, units, size)
  }

  /** The blocks after the trie units: the word-id table from
      `tableOffset`, the word parameters right after it, and the word
      information right after those. */
  function ReadTables(buf: seq<byte>, tableOffset: nat, units: seq<nat>, size: nat): (r: Result<LexiconBlocks>)
    ensures r.Ok? ==> r.value.units == units && r.value.size == size
    ensures r.Ok? ==> r.value.wordIdTable.bytes == buf && r.value.wordParams.bytes == buf
                      && r.value.wordInfos.bytes == buf
    ensures r.Ok? ==> r.value.wordIdTable.offset == tableOffset + 4
    ensures r.Ok? ==> r.value.wordParams.offset == r.value.wordIdTable.offset + r.value.wordIdTable.size + 4
    ensures r.Ok? ==> r.value.wordInfos.offset == r.value.wordParams.offset + ELEMENT_SIZE * r.value.wordParams.size
                      && r.value.wordInfos.wordSize == r.value.wordParams.size
  {
    var table :- NewWordIdTable(buf, tableOffset);
    var paramsOffset := tableOffset + WordIdTables.StorageSize(table);
    var params :- NewWordParameterList(buf, paramsOffset);
    var infosOffset := paramsOffset + WordParameterLists.StorageSize(params);
    Ok(LexiconBlocks(units, size, table, params, WordInfoList(buf, infosOffset, GetSize(params))))
  }

  /** `(word_id, end)` for every id of the table entry `value`, in table
      order. */
  function WithEnd(ids: seq<nat>, end: nat): (r: seq<(nat, nat)>)
    ensures |r| == |ids|
    ensures forall i :: 0 <= i < |ids| ==> r[i] == (ids[i], end)
  {
    seq(|ids|, i requires 0 <= i < |ids| => (ids[i], end))
  }

  /** The word ids of the first `k` trie hits, each paired with its hit's
      end, in trie order and then table order. */
  function ExpandHits(table: WordIdTable, hits: seq<(nat, nat)>, k: nat): (r: Result<seq<(nat, nat)>>)
    requires k <= |hits|
  {
    if k == 0 then Ok([])
    else
      var front :- ExpandHits(table, hits, k - 1);
      var ids :- Get(table, hits[k - 1].0);
      Ok(front + WithEnd(ids, hits[k - 1].1))
  }

  /** Every pair of the expansion carries the end of one of the hits, and
      the ends never decrease when the hits' ends increase. */
  lemma {:induction false} ExpandHitsEnds(table: WordIdTable, hits: seq<(nat, nat)>, k: nat, lo: nat, hi: nat)
    requires k <= |hits| && EndsIncreaseWithin(hits, lo, hi) && ExpandHits(table, hits, k).Ok?
    ensures var out := ExpandHits(table, hits, k).value;
            (forall j :: 0 <= j < |out| ==> lo < out[j].1 <= hi)
            && (forall j, j' :: 0 <= j < j' < |out| ==> out[j].1 <= out[j'].1)
            && (k > 0 ==> forall j :: 0 <= j < |out| ==> out[j].1 <= hits[k - 1].1)
  {
    if k > 0 {
      ExpandHitsEnds(table, hits, k - 1, lo, hi);
      var front := ExpandHits(table, hits, k - 1).value;
      var ids := Get(table, hits[k - 1].0).value;
      var out := ExpandHits(table, hits, k).value;
      assert out == front + WithEnd(ids, hits[k - 1].1);
      if k > 1 {
        assert hits[k - 2].1 < hits[k - 1].1;
      }
      forall j | 0 <= j < |out|
        ensures lo < out[j].1 <= hits[k - 1].1
      {
        if j >= |front| {
          assert out[j] == WithEnd(ids, hits[k - 1].1)[j - |front|];
        }
      }
    }
  }

  /** The word ids of the table entry a trie hit points to, for each hit of
      common_prefix_search from `offset`. */
  function LookupResult(units: seq<nat>, table: WordIdTable, text: seq<byte>, offset: nat): (r: Result<seq<(nat, nat)>>)
  {
    if |units| == 0 then Err(OUT_OF_RANGE)
    else
      var hits :- PrefixHits(units, text, offset, Base(units, 0));
      ExpandHits(table, hits, |hits|)
  }

  /** A lookup gives `(word_id, end)` pairs whose ends are absolute byte
      positions past `offset`, in non-decreasing order. */
  lemma LookupEnds(units: seq<nat>, table: WordIdTable, text: seq<byte>, offset: nat)
    requires LookupResult(units, table, text, offset).Ok?
    ensures var out := LookupResult(units, table, text, offset).value;
            (forall j :: 0 <= j < |out| ==> offset < out[j].1 <= |text|)
            && (forall j, j' :: 0 <= j < j' < |out| ==> out[j].1 <= out[j'].1)
  {
    var hits := PrefixHits(units, text, offset, Base(units, 0)).value;
    PrefixSearchMeaning(units, text, offset);
    ExpandHitsEnds(table, hits, |hits|, offset, |text|);
  }

  class DoubleArrayLexicon {
    const trie: DoubleArray
    const wordIdTable: WordIdTable
    const wordParams: WordParameterList
    const wordInfos: WordInfoList
    const size: nat

    constructor(trie: DoubleArray, blocks: LexiconBlocks)
      ensures this.trie == trie && size == blocks.size && wordIdTable == blocks.wordIdTable
      ensures wordParams == blocks.wordParams && wordInfos == blocks.wordInfos
    {
      this.trie := trie;
      size := blocks.size;
      wordIdTable := blocks.wordIdTable;
      wordParams := blocks.wordParams;
      wordInfos := blocks.wordInfos;
    }

    /** The lexicon in `buf` at `offset`, its trie a fresh DoubleArray over
        the units read there. */
    static method Open(buf: seq<byte>, offset: nat) returns (r: Result<DoubleArrayLexicon>)
      ensures r.Ok? <==> ReadBlocks(buf, offset).Ok?
      ensures r.Ok? ==> fresh(r.value) && fresh(r.value.trie)
      ensures r.Ok? ==> var b := ReadBlocks(buf, offset).value;
                        r.value.trie.units == b.units && r.value.trie.size == b.size
                        && r.value.size == b.size && r.value.wordIdTable == b.wordIdTable
                        && r.value.wordParams == b.wordParams && r.value.wordInfos == b.wordInfos
    {
      var blocks :- ReadBlocks(buf, offset);
      var trie := new DoubleArray();
      trie.SetArray(blocks.units, blocks.size);
      var lexicon := new DoubleArrayLexicon(trie, blocks);
      r := Ok(lexicon);
    }

    /** lookup: every trie hit expanded into its word ids, each with the
        hit's end byte. */
    method Lookup(text: seq<byte>, offset: nat) returns (r: Result<seq<(nat, nat)>>)
      ensures |trie.units| == 0 ==> r.Err?
      ensures |trie.units| > 0 ==> r == LookupResult(trie.units, wordIdTable, text, offset)
    {
      var hits :- trie.CommonPrefixSearch(text, offset);
      var l: seq<(nat, nat)> := [];
      var k := 0;
      while k < |hits|
        invariant 0 <= k <= |hits|
        invariant ExpandHits(wordIdTable, hits, k) == Ok(l)
      {
        var wordIds := Get(wordIdTable, hits[k].0);
        if wordIds.Err? {
          ExpandFailsAt(wordIdTable, hits, k + 1, |hits|);
          return Err(wordIds.error);
        }
        l := AppendWithEnd(l, wordIds.value, hits[k].1);
        k := k + 1;
      }
      r := Ok(l);
    }

    /** get_left_id: the unsigned 16-bit left id of the word's parameters. */
    function GetLeftId(wordId: nat): (r: Result<nat>)
      ensures r == WordParameterLists.GetLeftId(wordParams, wordId)
      ensures r.Ok? ==> r.value < 0x10000
    {
      WordParameterLists.GetLeftId(wordParams, wordId)
    }

    /** get_right_id: the unsigned 16-bit right id of the word's parameters. */
    function GetRightId(wordId: nat): (r: Result<nat>)
      ensures r == WordParameterLists.GetRightId(wordParams, wordId)
      ensures r.Ok? ==> r.value < 0x10000
    {
      WordParameterLists.GetRightId(wordParams, wordId)
    }

    /** get_cost: the signed 16-bit cost of the word's parameters. */
    function GetCost(wordId: nat): (r: Result<int>)
      ensures r == WordParameterLists.GetCost(wordParams, wordId)
      ensures r.Ok? ==> -0x8000 <= r.value < 0x8000
    {
      WordParameterLists.GetCost(wordParams, wordId)
    }

    method GetWordInfo(wordId: nat) returns (r: Result<WordInfo>)
      ensures r == WordInfoLists.GetWordInfo(wordInfos, wordId)
    {
      r := ReadWordInfo(wordInfos, wordId, RECURSION_LIMIT);
    }
  }

  /** The inner loop of lookup: each id of one table entry appended with
      the hit's end. */
  method AppendWithEnd(l: seq<(nat, nat)>, wordIds: seq<nat>, length: nat) returns (r: seq<(nat, nat)>)
    ensures r == l + WithEnd(wordIds, length)
  {
    r := l;
    var i := 0;
    while i < |wordIds|
      invariant 0 <= i <= |wordIds|
      invariant r == l + WithEnd(wordIds[..i], length)
    {
      assert WithEnd(wordIds[..i + 1], length) == WithEnd(wordIds[..i], length) + [(wordIds[i], length)];
      r := r + [(wordIds[i], length)];
      i := i + 1;
    }
    assert wordIds[..i] == wordIds;
  }

  /** Once an entry fails to read, every longer expansion fails with its error. */
  lemma {:induction false} ExpandFailsAt(table: WordIdTable, hits: seq<(nat, nat)>, k: nat, n: nat)
    requires 0 < k <= n <= |hits|
    requires ExpandHits(table, hits, k - 1).Ok? && Get(table, hits[k - 1].0).Err?
    ensures ExpandHits(table, hits, n) == Err(Get(table, hits[k - 1].0).error)
    decreases n
  {
    if n > k {
      ExpandFailsAt(table, hits, k, n - 1);
    }
  }
}
