/** The overrides of the user-dictionary builder: part-of-speech ids come
    from the system grammar, word ids of the user's own entries carry the
    user flag bit 28, and word-id checks look at the system lexicon for
    ids without that bit.  The builder itself (entries, trie keys, writers)
    is DictionaryBuilders.DictionaryBuilder in its UserDictionary kind. */
module UserDictionaryBuilders {
  import opened Wrappers
  import Grammars
  import LexiconSets

  /** `1 << 28`, the bit that marks a word id of the user dictionary. */
  const USER_ID_FLAG: nat := 0x1000_0000

  /** `x | (1 << 28)` on a non-negative x: the bit is added unless set. */
  function WithUserFlag(x: nat): (r: nat)
    ensures r >= USER_ID_FLAG
    ensures x < USER_ID_FLAG ==> r == x + USER_ID_FLAG
    ensures (x / USER_ID_FLAG) % 2 == 1 ==> r == x
  {
    if (x / USER_ID_FLAG) % 2 == 1 then x else x + USER_ID_FLAG
  }

  /** A flagged local id is the word id of dictionary 1 with the local
      number, as the lexicon set splits ids. */
  lemma FlaggedIdSplits(local: nat)
    requires local < USER_ID_FLAG
    ensures LexiconSets.GetDictionaryId(WithUserFlag(local)) == 1
    ensures LexiconSets.GetWordId(WithUserFlag(local)) == local
  {
  }

  // ---- get_posid ----------------------------------------------------------------

  /** get_posid as written: the grammar's `get_part_of_speech_id`, which
      raises ValueError for a part of speech it lacks instead of returning
      a negative number, so the fallback to a new local id never runs. */
  function GetPosId(g: Grammars.Grammar, strs: seq<string>): (r: Result<nat>)
  {
    Grammars.GetPartOfSpeechId(g, strs)
  }

  /** As written, a user row may only use a part of speech the system
      grammar already has; every other one is rejected. */
  lemma GetPosIdNeverFallsBack(g: Grammars.Grammar, strs: seq<string>)
    ensures GetPosId(g, strs).Ok? <==> strs in g.posList
    ensures GetPosId(g, strs).Ok? ==> GetPosId(g, strs).value < Grammars.GetPartOfSpeechSize(g)
    ensures strs !in g.posList ==> GetPosId(g, strs).Err? && GetPosId(g, strs).error.ValueError?
  {
  }

  /** get_posid as evidently intended: a grammar part of speech keeps its
      id; any other one gets its local table id after the grammar's. */
  function GetPosIdIntended(g: Grammars.Grammar, strs: seq<string>, localId: nat): (r: nat)
  {
    match Grammars.GetPartOfSpeechId(g, strs)
    case Ok(id) => id
    case Err(_) => localId + Grammars.GetPartOfSpeechSize(g)
  }

  /** With the intended fallback the two id ranges do not meet: grammar
      parts of speech keep ids below the grammar's size, new ones get ids
      from it on, distinct for distinct local ids. */
  lemma IntendedPosIdsSeparate(g: Grammars.Grammar, strs: seq<string>, localId: nat)
    ensures strs in g.posList ==> GetPosIdIntended(g, strs, localId) < Grammars.GetPartOfSpeechSize(g)
                                  && g.posList[GetPosIdIntended(g, strs, localId)] == strs
    ensures strs !in g.posList ==>
              GetPosIdIntended(g, strs, localId) - Grammars.GetPartOfSpeechSize(g) == localId
  {
  }

  // ---- get_wordid ---------------------------------------------------------------

  /** get_wordid as written, given the base builder's local search result:
      a local match is flagged; otherwise the call goes to
      `system_lexicon.get_word_id1`. The system lexicon is a LexiconSet,
      which does not define that method; this model takes it that its base
      class lexicon.Lexicon, which is not part of the model, does not
      either, so the call raises AttributeError. */
  function GetWordId(localMatch: int): (r: Result<int>)
  {
    if localMatch >= 0 then Ok(WithUserFlag(localMatch))
    else Err(AttributeError("'LexiconSet' object has no attribute 'get_word_id1'"))
  }

  /** As written, a local match comes back as a dictionary-1 id, and a word
      the user dictionary lacks always raises AttributeError. */
  lemma GetWordIdAsWritten(localMatch: int)
    ensures 0 <= localMatch < USER_ID_FLAG ==>
              GetWordId(localMatch).Ok? && LexiconSets.GetDictionaryId(GetWordId(localMatch).value) == 1
              && LexiconSets.GetWordId(GetWordId(localMatch).value) == localMatch
    ensures localMatch < 0 ==> GetWordId(localMatch).Err? && GetWordId(localMatch).error.AttributeError?
  {
    if 0 <= localMatch < USER_ID_FLAG {
      FlaggedIdSplits(localMatch);
    }
  }

  /** get_wordid as evidently intended: the system lexicon's id (or -1)
      for a word the user dictionary lacks. */
  function GetWordIdIntended(localMatch: int, systemMatch: int): (r: int)
  {
    if localMatch >= 0 then WithUserFlag(localMatch) else systemMatch
  }

  /** The intended lookup never raises and keeps the two dictionaries'
      ids apart: local words are flagged, system words are not. */
  lemma IntendedWordIdsSeparate(localMatch: int, systemMatch: int)
    requires systemMatch < USER_ID_FLAG
    ensures localMatch >= 0 ==> GetWordIdIntended(localMatch, systemMatch) >= USER_ID_FLAG
    ensures localMatch < 0 ==> GetWordIdIntended(localMatch, systemMatch) < USER_ID_FLAG
  {
  }

  // ---- check_wordid -------------------------------------------------------------

  /** check_wordid as written: a flagged id is checked, masked, against the
      local entries ('invalid word ID'); a negative one is rejected
      ('invalid word id'); any other is compared with what
      `system_lexicon.size()` gives, `sizeCall`.  That call raises for both
      lexicons the builder can be handed: a DoubleArrayLexicon's `size` is
      an int attribute (TypeError), and a LexiconSet, which the command
      line passes, defines no `size` of its own; whether its base class
      lexicon.Lexicon does is outside this model, so the call's outcome is
      a parameter. */
  function CheckWordId(wid: int, localSize: nat, sizeCall: Result<nat>): (r: Result<()>)
  {
    if wid >= USER_ID_FLAG then
      if wid % USER_ID_FLAG >= localSize then Err(ValueError("invalid word ID")) else Ok(())
    else if wid < 0 then Err(ValueError("invalid word id"))
    else match sizeCall
      case Err(e) => Err(e)
      case Ok(n) => if wid >= n then Err(ValueError("invalid word id")) else Ok(())
  }

  /** When `size()` raises, as it does for a DoubleArrayLexicon and, unless
      lexicon.Lexicon supplies it, for a LexiconSet, only flagged ids can
      pass, exactly when their local number names a local entry, and every
      unflagged non-negative id raises the call's error.  When it answers,
      the check is the intended one. */
  lemma CheckWordIdAsWritten(wid: int, localSize: nat, sizeCall: Result<nat>)
    ensures sizeCall.Err? ==>
              (CheckWordId(wid, localSize, sizeCall).Ok? <==> wid >= USER_ID_FLAG && wid % USER_ID_FLAG < localSize)
    ensures sizeCall.Err? && 0 <= wid < USER_ID_FLAG ==> CheckWordId(wid, localSize, sizeCall) == Err(sizeCall.error)
    ensures sizeCall.Ok? ==> CheckWordId(wid, localSize, sizeCall) == CheckWordIdIntended(wid, localSize, sizeCall.value)
  {
  }

  /** check_wordid as evidently intended: an unflagged id must name a word
      of the system lexicon. */
  function CheckWordIdIntended(wid: int, localSize: nat, systemSize: nat): (r: Result<()>)
  {
    if wid >= USER_ID_FLAG then
      if wid % USER_ID_FLAG >= localSize then Err(ValueError("invalid word ID")) else Ok(())
    else if wid < 0 || wid >= systemSize then Err(ValueError("invalid word id"))
    else Ok(())
  }

  /** The intended check accepts exactly the ids of a local or a system
      word, and its errors are all ValueError. */
  lemma IntendedCheckAccepts(wid: int, localSize: nat, systemSize: nat)
    ensures CheckWordIdIntended(wid, localSize, systemSize).Ok? <==>
              (wid >= USER_ID_FLAG && wid % USER_ID_FLAG < localSize) || (0 <= wid < systemSize && wid < USER_ID_FLAG)
    ensures CheckWordIdIntended(wid, localSize, systemSize).Err? ==>
              CheckWordIdIntended(wid, localSize, systemSize).error.ValueError?
  {
  }
}
