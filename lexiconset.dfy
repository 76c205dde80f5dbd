/** The set of lexicons a tokenizer looks words up in: the system lexicon
    first, user lexicons after it.  A word id carries its dictionary's
    number in the bits above bit 28. */
module LexiconSets {
  import opened Wrappers
  import opened Bytes
  import opened NatBits
  import opened DoubleArrays
  import opened WordParameterLists
  import opened WordInfoLists
  import opened Lexicons

  /** 2^28: one dictionary's range of word ids. */
  const WORD_ID_RANGE: nat := 0x1000_0000
  const MAX_WORD_ID: nat := 0x0FFF_FFFF
  const MAX_DICTIONARY_ID: nat := 0xF

  /** The dictionary number of a word id: a shift right by 28, which floors,
      so a negative id gives a negative number. */
  function GetDictionaryId(wordId: int): (d: int)
    ensures wordId >= 0 ==> d >= 0
    ensures wordId < 0 ==> d < 0
    ensures d * WORD_ID_RANGE <= wordId < (d + 1) * WORD_ID_RANGE
  {
    wordId / WORD_ID_RANGE
  }

  /** The word's number inside its dictionary: the low 28 bits, which for
      a negative id are those of its two's complement. */
  function GetWordId(wordId: int): (w: nat)
    ensures w <= MAX_WORD_ID
    ensures wordId == GetDictionaryId(wordId) * WORD_ID_RANGE + w
  {
    wordId % WORD_ID_RANGE
  }

  lemma Pow2Of28()
    ensures Pow2(28) == WORD_ID_RANGE
  {
    assert Pow2(7) == 0x80;
    assert Pow2(14) == 0x4000;
    assert Pow2(21) == 0x20_0000;
  }

  /** On a non-negative id the mask of get_word_id is the bitwise and. */
  lemma GetWordIdIsMask(wordId: nat)
    ensures GetWordId(wordId) == And(wordId, MAX_WORD_ID)
  {
    Pow2Of28();
    AndLowMask(wordId, 28);
  }

  /** build_word_id: AttributeError for a word number over 28 bits, then
      for a dictionary number over 4 bits; otherwise the dictionary number
      shifted left by 28 or-ed with the word number. */
  function BuildWordId(dictId: nat, wordId: nat): (r: Result<nat>)
    ensures r.Ok? <==> wordId <= MAX_WORD_ID && dictId <= MAX_DICTIONARY_ID
    ensures wordId > MAX_WORD_ID ==> r == Err(AttributeError("word ID is too large: "))
    ensures wordId <= MAX_WORD_ID && dictId > MAX_DICTIONARY_ID ==>
              r == Err(AttributeError("dictionary ID is too large: "))
    ensures r.Ok? ==> r.value < 0x1_0000_0000
  {
    if wordId > MAX_WORD_ID then Err(AttributeError("word ID is too large: "))
    else if dictId > MAX_DICTIONARY_ID then Err(AttributeError("dictionary ID is too large: "))
    else
      BuildWordIdValue(dictId, wordId);
      Ok(Or(Shl(dictId, 28), wordId))
  }

  /** The or of build_word_id is an addition of disjoint bit ranges. */
  lemma BuildWordIdValue(dictId: nat, wordId: nat)
    requires wordId <= MAX_WORD_ID
    ensures Or(Shl(dictId, 28), wordId) == dictId * WORD_ID_RANGE + wordId
  {
    Pow2Of28();
    ShlIsMul(dictId, 28);
    OrLowBits(dictId, 28, wordId);
  }

  /** A built id splits back into its dictionary and word numbers. */
  lemma SplitBuiltWordId(dictId: nat, wordId: nat)
    requires BuildWordId(dictId, wordId).Ok?
    ensures GetDictionaryId(BuildWordId(dictId, wordId).value) == dictId
    ensures GetWordId(BuildWordId(dictId, wordId).value) == wordId
  {
    BuildWordIdValue(dictId, wordId);
    var x := BuildWordId(dictId, wordId).value;
    DivModUnique(x, WORD_ID_RANGE, dictId, wordId);
  }

  /** Every 32-bit id is the build of its own two parts. */
  lemma BuildSplitWordId(x: nat)
    requires x < 0x1_0000_0000
    ensures BuildWordId(GetDictionaryId(x), GetWordId(x)) == Ok(x)
  {
    BuildWordIdValue(GetDictionaryId(x), GetWordId(x));
  }

  class LexiconSet {
    const lexicons: seq<DoubleArrayLexicon>

    /** A set holding the system lexicon alone. */
    constructor(systemLexicon: DoubleArrayLexicon)
      ensures lexicons == [systemLexicon]
    {
      lexicons := [systemLexicon];
    }

    /** add: a Python list has no `contains` method, so every call raises
        AttributeError before anything is appended; the set therefore never
        grows past the system lexicon. */
    function Add(lexicon: DoubleArrayLexicon): (r: Result<()>)
      ensures r.Err? && r.error.AttributeError?
    {
      Err(AttributeError("'list' object has no attribute 'contains'"))
    }

    /** lookup: with one lexicon, that lexicon's lookup; with any other
        count, the `Itr` class is called with arguments its constructor does
        not take. */
    method Lookup(text: seq<byte>, offset: nat) returns (r: Result<seq<(nat, nat)>>)
      ensures |lexicons| != 1 ==> r == Err(TypeError("Itr() takes no arguments"))
      ensures |lexicons| == 1 && |lexicons[0].trie.units| == 0 ==> r.Err?
      ensures |lexicons| == 1 && |lexicons[0].trie.units| > 0 ==>
                r == LookupResult(lexicons[0].trie.units, lexicons[0].wordIdTable, text, offset)
    {
      if |lexicons| == 1 {
        r := lexicons[0].Lookup(text, offset);
      } else {
        r := Err(TypeError("Itr() takes no arguments"));
      }
    }

    /** The lexicon a word id's dictionary number selects (a Python index,
        so a negative number counts from the end) and the word number to
        ask it for. */
    function Route(wordId: int): (r: Result<(DoubleArrayLexicon, nat)>)
      ensures r.Ok? <==> -|lexicons| <= GetDictionaryId(wordId) < |lexicons|
      ensures r.Err? ==> r.error == OUT_OF_RANGE
      ensures r.Ok? ==> r.value.0 in lexicons && r.value.1 <= MAX_WORD_ID
      ensures 0 <= wordId < WORD_ID_RANGE && |lexicons| > 0 ==> r == Ok((lexicons[0], wordId as nat))
    {
      var lexicon :- PyIndex(lexicons, GetDictionaryId(wordId));
      Ok((lexicon, GetWordId(wordId)))
    }

    function GetLeftId(wordId: int): (r: Result<nat>)
      ensures Route(wordId).Err? ==> r.Err?
      ensures Route(wordId).Ok? ==>
                r == Route(wordId).value.0.GetLeftId(Route(wordId).value.1)
    {
      var (lexicon, w) :- Route(wordId);
      lexicon.GetLeftId(w)
    }

    function GetRightId(wordId: int): (r: Result<nat>)
      ensures Route(wordId).Err? ==> r.Err?
      ensures Route(wordId).Ok? ==>
                r == Route(wordId).value.0.GetRightId(Route(wordId).value.1)
    {
      var (lexicon, w) :- Route(wordId);
      lexicon.GetRightId(w)
    }

    function GetCost(wordId: int): (r: Result<int>)
      ensures Route(wordId).Err? ==> r.Err?
      ensures Route(wordId).Ok? ==>
                r == Route(wordId).value.0.GetCost(Route(wordId).value.1)
    {
      var (lexicon, w) :- Route(wordId);
      lexicon.GetCost(w)
    }

    /** The word info get_word_info returns for a word id. */
    function WordInfoAt(wordId: int): (r: Result<WordInfo>)
      ensures Route(wordId).Err? ==> r == Err(OUT_OF_RANGE)
      ensures Route(wordId).Ok? ==>
                r == WordInfoLists.GetWordInfo(Route(wordId).value.0.wordInfos, Route(wordId).value.1)
    {
      var (lexicon, w) :- Route(wordId);
      WordInfoLists.GetWordInfo(lexicon.wordInfos, w)
    }

    method GetWordInfo(wordId: int) returns (r: Result<WordInfo>)
      ensures Route(wordId).Err? ==> r == Err(OUT_OF_RANGE)
      ensures Route(wordId).Ok? ==>
                r == WordInfoLists.GetWordInfo(Route(wordId).value.0.wordInfos, Route(wordId).value.1)
      ensures r == WordInfoAt(wordId)
    {
      var route :- Route(wordId);
      r := route.0.GetWordInfo(route.1);
    }
  }

  /** A negative id routes to the last lexicon, at the top of its range:
      -1 asks the last lexicon for word 0x0FFFFFFF. */
  lemma MinusOneRoutesToLast(s: LexiconSet)
    requires |s.lexicons| > 0
    ensures s.Route(-1) == Ok((s.lexicons[|s.lexicons| - 1], MAX_WORD_ID))
  {
  }
}
