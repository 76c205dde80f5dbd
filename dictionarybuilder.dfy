/** The dictionary writer: parses lexicon rows into word entries, collects
    the trie keys and the part-of-speech table, and serialises the grammar
    and lexicon blocks the readers of the dictionary format decode. */
module DictionaryBuilders {
  import opened Wrappers
  import opened Bytes
  import opened Unicode
  import JTypedByteBuffers
  import WordInfoLists
  import WordIdTables
  import WordParameterLists
  import Grammars
  import opened DictionaryLayouts
  import DictionaryBlocks
  import LexiconLayouts
  import Texts
  import UserDictionaryBuilders

  const COLS_NUM: nat := 18
  /** The most split units a row may name (the largest Java byte). */
  const ARRAY_MAX_LENGTH: nat := 127
  /** The longest string a row may hold (the largest Java short). */
  const STRING_MAX_LENGTH: nat := 32767
  /** The flag bit of a user-dictionary word id. */
  const USER_ID_FLAG: nat := 0x1000_0000

  // ---- the part-of-speech table -------------------------------------------------

  /** The first index of `s` in `table` (`list.index`). */
  function IndexIn(table: seq<string>, s: string): (r: nat)
    requires s in table
    ensures r < |table| && table[r] == s
    ensures forall k :: 0 <= k < r ==> table[k] != s
  {
    if table[0] == s then 0 else 1 + IndexIn(table[1..], s)
  }

  /** PosTable.get_id on the table's contents: the id, and the table after. */
  function PosTableId(table: seq<string>, s: string): (r: (nat, seq<string>))
  {
    if s in table then (IndexIn(table, s), table) else (|table|, table + [s])
  }

  predicate Distinct(table: seq<string>)
  {
    forall i, j :: 0 <= i < j < |table| ==> table[i] != table[j]
  }

  /** get_id hands out dense ids in first-seen order: a known string keeps
      its index, a new one is appended and gets the old length; the table
      stays free of repeats. */
  lemma PosTableIdDense(table: seq<string>, s: string)
    requires Distinct(table)
    ensures var (id, t) := PosTableId(table, s);
            id < |t| && t[id] == s && Distinct(t)
            && (s in table ==> t == table && id < |table|)
            && (s !in table ==> t == table + [s] && id == |table|)
  {
  }

  class PosTable {
    var table: seq<string>

    constructor()
      ensures table == []
    {
      table := [];
    }

    /** get_id: the index of `s`, appending it first when it is new. */
    method GetId(s: string) returns (id: nat)
      modifies this
      ensures (id, table) == PosTableId(old(table), s)
    {
      if s in table {
        id := IndexIn(table, s);
      } else {
        id := |table|;
        table := table + [s];
      }
    }

    function GetList(): seq<string>
      reads this
    {
      table
    }
  }

  // ---- lexicon rows -------------------------------------------------------------

  /** Which builder runs: the system one, or the user one over the system
      grammar, with what its system lexicon's `size()` call gives. */
  datatype Kind = SystemDictionary | UserDictionary(grammar: Grammars.Grammar, systemSize: Result<nat>)

  /** A parsed row: the headword the trie is keyed by (None for a row whose
      left id is "-1"), left id, right id and cost, the word information
      (its split arrays still empty) and the three split columns as text. */
  datatype WordEntry = WordEntry(
    headword: Option<string>,
    parameters: seq<int>,
    wordInfo: WordInfoLists.WordInfo,
    aSplit: string,
    bSplit: string,
    cSplit: string)

  /** The trie key of an entry: its headword in UTF-8. */
  function KeyOf(e: WordEntry): (r: Option<seq<byte>>)
  {
    if e.headword.Some? then Some(EncodeUtf8(e.headword.value)) else None
  }

  /** __is_length_valid: the headword's UTF-8 bytes, and the characters of
      the surface, reading and normalized columns, within 32767. */
  predicate IsLengthValid(cols: seq<string>)
    requires |cols| == COLS_NUM
  {
    |EncodeUtf8(cols[0])| <= STRING_MAX_LENGTH
    && |cols[4]| <= STRING_MAX_LENGTH && |cols[11]| <= STRING_MAX_LENGTH && |cols[12]| <= STRING_MAX_LENGTH
  }

  /** check_splitinfo_format: at most 127 '/'-separated units. */
  function CheckSplitInfoFormat(s: string): (r: Result<()>)
  {
    if |Texts.Split(s, "/")| > ARRAY_MAX_LENGTH then Err(ValueError("too many units")) else Ok(())
  }

  /** `[int(cols[i]) for i in [1, 2, 3]]`. */
  function Parameters(cols: seq<string>): (r: Result<seq<int>>)
    requires |cols| == COLS_NUM
    ensures r.Ok? ==> |r.value| == 3
  {
    var left :- Texts.ParseInt(cols[1]);
    var right :- Texts.ParseInt(cols[2]);
    var cost :- Texts.ParseInt(cols[3]);
    Ok([left, right, cost])
  }

  /** get_posid: the system builder numbers the comma-joined part of speech
      in its own table; the user builder asks the system grammar. */
  function PosIdOf(kind: Kind, table: seq<string>, strs: seq<string>): (r: (Result<nat>, seq<string>))
  {
    match kind
    case SystemDictionary =>
      var (id, t) := PosTableId(table, Texts.Join(strs, ","));
      (Ok(id), t)
    case UserDictionary(g, _) => (UserDictionaryBuilders.GetPosId(g, strs), table)
  }

  /** The tail of parse_line after the part of speech: the split-format
      checks, the 'A' rule, and the word information. */
  function EntryOf(cols: seq<string>, params: seq<int>, posId: nat): (r: Result<WordEntry>)
    requires |cols| == COLS_NUM
  {
    var _ :- CheckSplitInfoFormat(cols[15]);
    var _ :- CheckSplitInfoFormat(cols[16]);
    var _ :- CheckSplitInfoFormat(cols[17]);
    if cols[14] == "A" && !(cols[15] == "*" && cols[16] == "*") then Err(ValueError("invalid splitting"))
    else
      var dictionaryFormWordId :- if cols[13] == "*" then Ok(-1) else Texts.ParseInt(cols[13]);
      var info := WordInfoLists.WordInfo(cols[4], |EncodeUtf8(cols[0])|, posId, cols[12], dictionaryFormWordId,
                                         "", cols[11], [], [], []);
      Ok(WordEntry(if cols[1] != "-1" then Some(cols[0]) else None, params, info, cols[15], cols[16], cols[17]))
  }

  /** parse_line on a row of columns (escapes already expanded), with the
      part-of-speech table it may extend. */
  function ParseRow(kind: Kind, table: seq<string>, cols: seq<string>): (r: (Result<WordEntry>, seq<string>))
  {
    if |cols| != COLS_NUM then (Err(ValueError("invalid format")), table)
    else if !IsLengthValid(cols) then (Err(ValueError("string is too long")), table)
    else if cols[0] == "" then (Err(ValueError("headword is empty")), table)
    else match Parameters(cols)
      case Err(e) => (Err(e), table)
      case Ok(params) =>
        var (pos, t) := PosIdOf(kind, table, cols[5..11]);
        match pos
        case Err(e) => (Err(e), t)
        case Ok(posId) => (EntryOf(cols, params, posId), t)
  }

  /** The rows parse_line rejects: a wrong column count, an over-long
      column, an empty headword, then unparsable numbers, an unknown part
      of speech (user builder), too many split units, an 'A' row with A or
      B splits, an unparsable dictionary-form id. */
  lemma ParseRowAccepts(kind: Kind, table: seq<string>, cols: seq<string>)
    ensures |cols| != COLS_NUM ==> ParseRow(kind, table, cols) == (Err(ValueError("invalid format")), table)
    ensures |cols| == COLS_NUM && !IsLengthValid(cols) ==>
              ParseRow(kind, table, cols) == (Err(ValueError("string is too long")), table)
    ensures |cols| == COLS_NUM && IsLengthValid(cols) && cols[0] == "" ==>
              ParseRow(kind, table, cols) == (Err(ValueError("headword is empty")), table)
    ensures ParseRow(kind, table, cols).0.Ok? <==>
              |cols| == COLS_NUM && IsLengthValid(cols) && cols[0] != "" && Parameters(cols).Ok?
              && PosIdOf(kind, table, cols[5..11]).0.Ok?
              && |Texts.Split(cols[15], "/")| <= ARRAY_MAX_LENGTH
              && |Texts.Split(cols[16], "/")| <= ARRAY_MAX_LENGTH
              && |Texts.Split(cols[17], "/")| <= ARRAY_MAX_LENGTH
              && (cols[14] == "A" ==> cols[15] == "*" && cols[16] == "*")
              && (cols[13] == "*" || Texts.ParseInt(cols[13]).Ok?)
  {
  }

  /** The column mapping of an accepted row: headword 0 (kept for the trie
      unless column 1 is "-1"), parameters 1-3, surface 4, part of speech
      5-10, reading 11, normalized form 12, dictionary-form id 13 ('*' is
      -1), split columns 15-17, and the head length in UTF-8 bytes. */
  lemma ParseRowColumns(kind: Kind, table: seq<string>, cols: seq<string>)
    requires ParseRow(kind, table, cols).0.Ok?
    ensures |cols| == COLS_NUM
    ensures var e := ParseRow(kind, table, cols).0.value;
            && e.headword == (if cols[1] != "-1" then Some(cols[0]) else None)
            && e.parameters == Parameters(cols).value
            && e.wordInfo.surface == cols[4]
            && e.wordInfo.headWordLength == |EncodeUtf8(cols[0])|
            && e.wordInfo.posId == PosIdOf(kind, table, cols[5..11]).0.value
            && e.wordInfo.readingForm == cols[11]
            && e.wordInfo.normalizedForm == cols[12]
            && e.wordInfo.dictionaryFormWordId == (if cols[13] == "*" then -1 else Texts.ParseInt(cols[13]).value)
            && e.wordInfo.dictionaryForm == ""
            && e.aSplit == cols[15] && e.bSplit == cols[16] && e.cSplit == cols[17]
    ensures ParseRow(kind, table, cols).1 == PosIdOf(kind, table, cols[5..11]).1
  {
  }

  /** Parsing changes the part-of-speech table only for the system builder,
      only by appending the row's joined part of speech when it is new, and
      only once the row got as far as its part of speech. */
  lemma ParseRowTable(kind: Kind, table: seq<string>, cols: seq<string>)
    requires Distinct(table)
    ensures var t := ParseRow(kind, table, cols).1;
            Distinct(t) && (t == table || (kind.SystemDictionary? && |cols| == COLS_NUM
                                           && t == table + [Texts.Join(cols[5..11], ",")]))
  {
    if |cols| == COLS_NUM && kind.SystemDictionary? {
      PosTableIdDense(table, Texts.Join(cols[5..11], ","));
    }
  }

  // ---- trie keys ------------------------------------------------------------------

  /** The order of SortedDict over byte strings: lexicographic by unsigned
      byte, a proper prefix first. */
  predicate Below(a: seq<byte>, b: seq<byte>)
  {
    if a == [] then b != []
    else if b == [] then false
    else a[0] < b[0] || (a[0] == b[0] && Below(a[1..], b[1..]))
  }

  lemma {:induction false} BelowIrreflexive(a: seq<byte>)
    ensures !Below(a, a)
  {
    if a != [] {
      BelowIrreflexive(a[1..]);
    }
  }

  lemma {:induction false} BelowTotal(a: seq<byte>, b: seq<byte>)
    ensures a == b || Below(a, b) || Below(b, a)
  {
    if a != [] && b != [] && a[0] == b[0] {
      BelowTotal(a[1..], b[1..]);
      if a[1..] == b[1..] {
        assert a == [a[0]] + a[1..] && b == [b[0]] + b[1..];
      }
    }
  }

  lemma {:induction false} BelowTransitive(a: seq<byte>, b: seq<byte>, c: seq<byte>)
    requires Below(a, b) && Below(b, c)
    ensures Below(a, c)
  {
    if a != [] && a[0] == b[0] && b[0] == c[0] {
      BelowTransitive(a[1..], b[1..], c[1..]);
    }
  }

  lemma {:induction false} BelowAsymmetric(a: seq<byte>, b: seq<byte>)
    requires Below(a, b)
    ensures !Below(b, a)
  {
    if a != [] && a[0] == b[0] {
      BelowAsymmetric(a[1..], b[1..]);
    }
  }

  /** SortedDict items: keys in strictly ascending order. */
  predicate SortedKeys(t: seq<(seq<byte>, seq<nat>)>)
  {
    forall i, j :: 0 <= i < j < |t| ==> Below(t[i].0, t[j].0)
  }

  /** `trie_keys[key]`, None for a missing key. */
  function Lookup(t: seq<(seq<byte>, seq<nat>)>, key: seq<byte>): (r: Option<seq<nat>>)
  {
    if t == [] then None
    else if t[0].0 == key then Some(t[0].1)
    else Lookup(t[1..], key)
  }

  /** add_to_trie on the SortedDict's items: `id` is appended to the key's
      list, a new key being placed where the order puts it. */
  function Inserted(t: seq<(seq<byte>, seq<nat>)>, key: seq<byte>, id: nat): (r: seq<(seq<byte>, seq<nat>)>)
  {
    if t == [] then [(key, [id])]
    else if t[0].0 == key then [(key, t[0].1 + [id])] + t[1..]
    else if Below(key, t[0].0) then [(key, [id])] + t
    else [t[0]] + Inserted(t[1..], key, id)
  }

  /** Inserting keeps the keys sorted, and every key other than the one
      inserted under keeps what it had. */
  lemma {:induction false} InsertedKeepsOrder(t: seq<(seq<byte>, seq<nat>)>, key: seq<byte>, id: nat)
    requires SortedKeys(t)
    ensures SortedKeys(Inserted(t, key, id))
    ensures forall k :: Lookup(Inserted(t, key, id), k) ==
              if k == key then Some((if Lookup(t, key).Some? then Lookup(t, key).value else []) + [id])
              else Lookup(t, k)
    ensures forall i :: 0 <= i < |Inserted(t, key, id)| ==>
              Inserted(t, key, id)[i].0 == key || exists j :: 0 <= j < |t| && t[j].0 == Inserted(t, key, id)[i].0
  {
    if t == [] {
    } else if t[0].0 == key {
      SortedTail(t);
      LookupSorted(t[1..], key, t[0].0);
    } else if Below(key, t[0].0) {
      forall j | 0 <= j < |t| ensures Below(key, t[j].0) {
        if j > 0 { BelowTransitive(key, t[0].0, t[j].0); }
      }
      LookupSorted(t, key, key);
      var r := Inserted(t, key, id);
      assert r[0] == (key, [id]) && r[1..] == t;
      assert [] + [id] == [id];
      forall k ensures Lookup(r, k) == if k == key then Some([id]) else Lookup(t, k) {
      }
    } else {
      SortedTail(t);
      InsertedKeepsOrder(t[1..], key, id);
      InsertedPastHead(t, key, id);
    }
  }

  /** InsertedKeepsOrder when the key goes after the first key: what
      inserting into the rest keeps, inserting into the whole keeps. */
  lemma InsertedPastHead(t: seq<(seq<byte>, seq<nat>)>, key: seq<byte>, id: nat)
    requires SortedKeys(t) && t != [] && t[0].0 != key && !Below(key, t[0].0)
    requires SortedKeys(Inserted(t[1..], key, id))
    requires forall k :: Lookup(Inserted(t[1..], key, id), k) ==
               if k == key then Some((if Lookup(t[1..], key).Some? then Lookup(t[1..], key).value else []) + [id])
               else Lookup(t[1..], k)
    requires forall i :: 0 <= i < |Inserted(t[1..], key, id)| ==>
               Inserted(t[1..], key, id)[i].0 == key
               || exists j :: 0 <= j < |t[1..]| && t[1..][j].0 == Inserted(t[1..], key, id)[i].0
    ensures SortedKeys(Inserted(t, key, id))
    ensures forall k :: Lookup(Inserted(t, key, id), k) ==
              if k == key then Some((if Lookup(t, key).Some? then Lookup(t, key).value else []) + [id])
              else Lookup(t, k)
    ensures forall i :: 0 <= i < |Inserted(t, key, id)| ==>
              Inserted(t, key, id)[i].0 == key || exists j :: 0 <= j < |t| && t[j].0 == Inserted(t, key, id)[i].0
  {
    var r := Inserted(t, key, id);
    BelowTotal(key, t[0].0);
    assert r == [t[0]] + Inserted(t[1..], key, id);
    forall j | 0 < j < |r| ensures Below(t[0].0, r[j].0) {
      var s := Inserted(t[1..], key, id);
      assert r[j] == s[j - 1];
      if s[j - 1].0 != key {
        var m :| 0 <= m < |t[1..]| && t[1..][m].0 == s[j - 1].0;
        assert t[m + 1].0 == s[j - 1].0;
      }
    }
    forall i | 0 <= i < |r| && r[i].0 != key
      ensures exists j :: 0 <= j < |t| && t[j].0 == r[i].0
    {
      if i == 0 {
        assert t[0].0 == r[0].0;
      } else {
        var s := Inserted(t[1..], key, id);
        assert r[i] == s[i - 1];
        var m :| 0 <= m < |t[1..]| && t[1..][m].0 == s[i - 1].0;
        assert t[m + 1].0 == r[i].0;
      }
    }
  }

  lemma SortedTail(t: seq<(seq<byte>, seq<nat>)>)
    requires SortedKeys(t) && t != []
    ensures SortedKeys(t[1..])
  {
    forall i, j | 0 <= i < j < |t[1..]| ensures Below(t[1..][i].0, t[1..][j].0) {
      assert t[1..][i] == t[i + 1] && t[1..][j] == t[j + 1];
    }
  }

  /** A key below every key of a sorted list is not in it. */
  lemma {:induction false} LookupSorted(t: seq<(seq<byte>, seq<nat>)>, key: seq<byte>, low: seq<byte>)
    requires forall j :: 0 <= j < |t| ==> Below(low, t[j].0)
    requires key == low
    ensures Lookup(t, key) == None
  {
    if t != [] {
      BelowIrreflexive(key);
      LookupSorted(t[1..], key, low);
    }
  }

  // ---- the trie keys against the entries ------------------------------------------

  /** A missing id list is an empty one. */
  function IdList(o: Option<seq<nat>>): seq<nat>
  {
    if o.Some? then o.value else []
  }

  /** The ids of the entries keyed by `key`, in row order; None when no
      entry has that key. */
  function IdsOf(entries: seq<WordEntry>, key: seq<byte>): (r: Option<seq<nat>>)
  {
    if entries == [] then None
    else
      var n := |entries| - 1;
      var prev := IdsOf(entries[..n], key);
      if KeyOf(entries[n]) == Some(key) then Some(IdList(prev) + [n]) else prev
  }

  /** A key's list holds exactly the entries with that key, in ascending
      order, and a listed key has at least one id. */
  lemma {:induction false} IdsOfMeans(entries: seq<WordEntry>, key: seq<byte>)
    ensures IdsOf(entries, key).Some? ==> IdsOf(entries, key).value != []
    ensures forall i: nat :: i in IdList(IdsOf(entries, key)) <==> i < |entries| && KeyOf(entries[i]) == Some(key)
    ensures forall a, b :: 0 <= a < b < |IdList(IdsOf(entries, key))| ==>
              IdList(IdsOf(entries, key))[a] < IdList(IdsOf(entries, key))[b]
  {
    if entries != [] {
      var n := |entries| - 1;
      IdsOfMeans(entries[..n], key);
      var prev := IdList(IdsOf(entries[..n], key));
      assert forall i: nat :: i < n ==> entries[..n][i] == entries[i];
      assert forall i :: i in prev ==> i < n;
      var l := IdList(IdsOf(entries, key));
      if KeyOf(entries[n]) == Some(key) {
        assert l == prev + [n];
        forall a, b | 0 <= a < b < |l| ensures l[a] < l[b] {
          if b == |l| - 1 { assert l[a] in prev; }
        }
      }
    }
  }

  /** The SortedDict of trie keys matches the entries: keys ascending, and
      each holding the ids of the entries with that headword, in row order. */
  ghost predicate TrieMatches(t: seq<(seq<byte>, seq<nat>)>, entries: seq<WordEntry>)
  {
    SortedKeys(t) && forall k :: Lookup(t, k) == IdsOf(entries, k)
  }

  /** The trie keys once `e` is added as the next entry: add_to_trie under
      its key when it has a headword. */
  function TrieAfter(t: seq<(seq<byte>, seq<nat>)>, entries: seq<WordEntry>, e: WordEntry)
    : seq<(seq<byte>, seq<nat>)>
  {
    if e.headword.Some? then Inserted(t, EncodeUtf8(e.headword.value), |entries|) else t
  }

  /** Adding an entry the way build_lexicon does keeps the trie keys in
      step with the entries. */
  lemma AddEntryKeepsTrie(t: seq<(seq<byte>, seq<nat>)>, entries: seq<WordEntry>, e: WordEntry)
    requires TrieMatches(t, entries)
    ensures TrieMatches(TrieAfter(t, entries, e), entries + [e])
  {
    var es := entries + [e];
    assert es[..|entries|] == entries;
    if e.headword.Some? {
      InsertedKeepsOrder(t, EncodeUtf8(e.headword.value), |entries|);
    }
    forall k ensures Lookup(TrieAfter(t, entries, e), k) == IdsOf(es, k) {
      assert IdsOf(es, k) == if KeyOf(e) == Some(k) then Some(IdList(IdsOf(entries, k)) + [|entries|])
                             else IdsOf(entries, k);
    }
  }

  // ---- build_lexicon --------------------------------------------------------------

  /** build_lexicon over rows already split into columns: each row is
      parsed and appended in turn; the first row that fails stops it with
      that error, the entries before it staying in place.  Gives the
      outcome, the entries and the part-of-speech table. */
  function BuildRows(kind: Kind, table: seq<string>, entries: seq<WordEntry>, rows: seq<seq<string>>)
    : (r: (Result<()>, seq<WordEntry>, seq<string>))
  {
    if rows == [] then (Ok(()), entries, table)
    else
      var (r0, es, t) := BuildRows(kind, table, entries, rows[..|rows| - 1]);
      if r0.Err? then (r0, es, t)
      else
        var (e, t1) := ParseRow(kind, t, rows[|rows| - 1]);
        match e
        case Err(err) => (Err(err), es, t1)
        case Ok(entry) => (Ok(()), es + [entry], t1)
  }

  /** Building appends one entry per row: all of them when every row parses,
      fewer otherwise; the entries already there stay, and the table keeps
      free of repeats. */
  lemma {:induction false} BuildRowsGrows(kind: Kind, table: seq<string>, entries: seq<WordEntry>,
                                          rows: seq<seq<string>>)
    requires Distinct(table)
    ensures var (r, es, t) := BuildRows(kind, table, entries, rows);
            && |entries| <= |es| <= |entries| + |rows| && es[..|entries|] == entries && Distinct(t)
            && (r.Ok? <==> |es| == |entries| + |rows|)
  {
    if rows != [] {
      var n := |rows| - 1;
      BuildRowsGrows(kind, table, entries, rows[..n]);
      var (r0, es, t) := BuildRows(kind, table, entries, rows[..n]);
      if r0.Ok? {
        ParseRowTable(kind, t, rows[n]);
        var (e, t1) := ParseRow(kind, t, rows[n]);
        if e.Ok? {
          assert (es + [e.value])[..|entries|] == es[..|entries|];
        }
      }
    }
  }

  /** Every entry built from accepted rows has a parsed row behind it: the
      i-th new entry is what parse_line made of row i with the table as it
      was then. */
  lemma {:induction false} BuildRowsEntries(kind: Kind, table: seq<string>, entries: seq<WordEntry>,
                                            rows: seq<seq<string>>, i: nat)
    requires i < |rows| && BuildRows(kind, table, entries, rows).0.Ok?
    ensures var (_, es, _) := BuildRows(kind, table, entries, rows);
            var t := BuildRows(kind, table, entries, rows[..i]).2;
            |entries| + i < |es| && ParseRow(kind, t, rows[i]) == (Ok(es[|entries| + i]), BuildRows(kind, table, entries, rows[..i + 1]).2)
  {
    var n := |rows| - 1;
    var (r0, es0, t0) := BuildRows(kind, table, entries, rows[..n]);
    var (e, t1) := ParseRow(kind, t0, rows[n]);
    assert r0.Ok? && e.Ok?;
    var es := es0 + [e.value];
    assert BuildRows(kind, table, entries, rows) == (Ok(()), es, t1);
    BuildRowsLength(kind, table, entries, rows[..n]);
    if i < n {
      assert rows[..n][..i] == rows[..i];
      assert rows[..n][..i + 1] == rows[..i + 1];
      BuildRowsEntries(kind, table, entries, rows[..n], i);
      assert es[|entries| + i] == es0[|entries| + i];
    } else {
      assert rows[..i] == rows[..n];
      assert rows[..i + 1] == rows;
    }
  }

  lemma {:induction false} BuildRowsLength(kind: Kind, table: seq<string>, entries: seq<WordEntry>,
                                           rows: seq<seq<string>>)
    ensures var (r, es, _) := BuildRows(kind, table, entries, rows);
            r.Ok? ==> |es| == |entries| + |rows|
  {
    if rows != [] {
      BuildRowsLength(kind, table, entries, rows[..|rows| - 1]);
    }
  }

  // ---- the builder ----------------------------------------------------------------

  /** DictionaryBuilder (and, in its UserDictionary kind, the user-dictionary
      builder): the parsed entries, the trie keys, the part-of-speech table
      and the byte buffer the writers fill. */
  class DictionaryBuilder {
    const kind: Kind
    var entries: seq<WordEntry>
    var trieKeys: seq<(seq<byte>, seq<nat>)>
    const posTable: PosTable
    const byteBuffer: JTypedByteBuffers.JTypedByteBuffer

    ghost predicate Valid()
      reads this, posTable
    {
      TrieMatches(trieKeys, entries) && Distinct(posTable.table) && LexiconLayouts.Triples(ParamsOf(entries))
    }

    constructor(kind: Kind)
      ensures this.kind == kind && entries == [] && trieKeys == [] && posTable.table == []
      ensures byteBuffer.bytes == [] && byteBuffer.position == 0
      ensures fresh(posTable) && fresh(byteBuffer)
      ensures Valid()
    {
      this.kind := kind;
      entries := [];
      trieKeys := [];
      posTable := new PosTable();
      byteBuffer := new JTypedByteBuffers.JTypedByteBuffer();
    }

    /** get_posid, through the table (system builder) or the system
        grammar (user builder). */
    method GetPosId(strs: seq<string>) returns (r: Result<nat>)
      modifies posTable
      ensures (r, posTable.table) == PosIdOf(kind, old(posTable.table), strs)
    {
      match kind
      case SystemDictionary =>
        var id := posTable.GetId(Texts.Join(strs, ","));
        r := Ok(id);
      case UserDictionary(g, _) =>
        r := UserDictionaryBuilders.GetPosId(g, strs);
    }

    /** parse_line. */
    method ParseLine(cols: seq<string>) returns (r: Result<WordEntry>)
      modifies posTable
      ensures (r, posTable.table) == ParseRow(kind, old(posTable.table), cols)
    {
      if |cols| != COLS_NUM {
        return Err(ValueError("invalid format"));
      }
      if !IsLengthValid(cols) {
        return Err(ValueError("string is too long"));
      }
      if cols[0] == "" {
        return Err(ValueError("headword is empty"));
      }
      var params := Parameters(cols);
      if params.Err? {
        return Err(params.error);
      }
      var posId := GetPosId(cols[5..11]);
      if posId.Err? {
        return Err(posId.error);
      }
      r := EntryOf(cols, params.value, posId.value);
    }

    /** add_to_trie: `wordId` appended to the list of the headword's UTF-8
        key, the key created in its sorted place when new. */
    method AddToTrie(headword: string, wordId: nat)
      modifies this`trieKeys
      ensures trieKeys == Inserted(old(trieKeys), EncodeUtf8(headword), wordId)
    {
      trieKeys := Inserted(trieKeys, EncodeUtf8(headword), wordId);
    }

    /** build_lexicon over the rows of one lexicon file. */
    method BuildLexicon(rows: seq<seq<string>>) returns (r: Result<()>)
      requires Valid()
      modifies this, posTable
      ensures Valid()
      ensures (r, entries, posTable.table) == BuildRows(kind, old(posTable.table), old(entries), rows)
    {
      var i := 0;
      while i < |rows|
        invariant 0 <= i <= |rows|
        invariant Valid()
        invariant (Ok(()), entries, posTable.table) == BuildRows(kind, old(posTable.table), old(entries), rows[..i])
      {
        ghost var t := posTable.table;
        var e := ParseLine(rows[i]);
        assert rows[..i + 1][..i] == rows[..i];
        ParseRowTable(kind, t, rows[i]);
        if e.Err? {
          r := Err(e.error);
          assert BuildRows(kind, old(posTable.table), old(entries), rows[..i + 1]) == (r, entries, posTable.table);
          BuildRowsStops(kind, old(posTable.table), old(entries), rows, i + 1);
          return;
        }
        ParseRowColumns(kind, t, rows[i]);
        AddEntryKeepsTrie(trieKeys, entries, e.value);
        if e.value.headword.Some? {
          AddToTrie(e.value.headword.value, |entries|);
        }
        entries := entries + [e.value];
        i := i + 1;
      }
      assert rows[..i] == rows;
      r := Ok(());
    }

    /** get_wordid of the base builder: the loop over the entries. */
    method GetLocalWordId(headword: string, posId: nat, reading: string) returns (id: int)
      ensures id == FirstMatch(entries, headword, posId, reading)
    {
      var i := 0;
      while i < |entries|
        invariant 0 <= i <= |entries|
        invariant forall k :: 0 <= k < i ==> !Matches(entries[k], headword, posId, reading)
      {
        if Matches(entries[i], headword, posId, reading) {
          return i;
        }
        i := i + 1;
      }
      return -1;
    }

    /** get_wordid, with the user builder's override. */
    method GetWordId(headword: string, posId: nat, reading: string) returns (r: Result<int>)
      ensures r == WordIdOf(kind, entries, headword, posId, reading)
    {
      var local := GetLocalWordId(headword, posId, reading);
      match kind
      case SystemDictionary =>
        r := Ok(local);
      case UserDictionary(_, _) =>
        r := UserDictionaryBuilders.GetWordId(local);
    }

    /** word_to_id; it may add the reference's part of speech to the table. */
    method WordToId(text: string) returns (r: Result<int>)
      modifies posTable
      ensures (r, posTable.table) == WordToIdOf(kind, old(posTable.table), entries, text)
    {
      var cols := Texts.Split(text, ",");
      if |cols| < 8 {
        return Err(ValueError("too few columns"));
      }
      var pos := GetPosId(cols[1..7]);
      if pos.Err? {
        return Err(pos.error);
      }
      r := GetWordId(cols[0], pos.value, cols[7]);
    }

    /** parse_splitinfo. */
    method ParseSplitInfo(info: string) returns (r: Result<SplitInfo>)
      modifies posTable
      ensures (r, posTable.table) == SplitInfoOf(kind, old(posTable.table), entries, info)
    {
      if info == "*" {
        return Ok(Ids([]));
      }
      var words := Texts.Split(info, "/");
      if |words| > ARRAY_MAX_LENGTH {
        return Err(ValueError("too many units"));
      }
      var ids: seq<int> := [];
      var i := 0;
      while i < |words|
        invariant 0 <= i <= |words|
        invariant SplitWordsFrom(kind, posTable.table, entries, words, i, ids)
                  == SplitInfoOf(kind, old(posTable.table), entries, info)
      {
        if IsId(words[i]) {
          var id := ParseIdOf(kind, |entries|, words[i]);
          if id.Err? {
            return Err(id.error);
          }
          ids := ids + [id.value];
        } else {
          var id := WordToId(words[i]);
          if id.Err? {
            return Err(id.error);
          }
          if id.value < 0 {
            return Ok(NotFound);
          }
          ids := ids + [id.value];
        }
        i := i + 1;
      }
      r := Ok(Ids(ids));
    }

    // ---- the writers ------------------------------------------------------------

    /** The byte buffer's cursor is at its end, as every writer leaves it
        after clearing it. */
    predicate Appending()
      reads byteBuffer
    {
      byteBuffer.position == |byteBuffer.bytes|
    }

    /** write_stringlength, into the byte buffer. */
    method WriteStringLength(n: nat) returns (r: Result<()>)
      requires Appending()
      modifies byteBuffer
      ensures Appending()
      ensures StringLengthBytes(n).Err? ==>
                r == Err(StringLengthBytes(n).error) && byteBuffer.bytes == old(byteBuffer.bytes)
      ensures StringLengthBytes(n).Ok? ==>
                r.Ok? && byteBuffer.bytes == old(byteBuffer.bytes) + StringLengthBytes(n).value
    {
      ghost var b0 := byteBuffer.bytes;
      if n <= BYTE_MAX_VALUE {
        r := byteBuffer.WriteInt(n, "byte", true);
        JTypedByteBuffers.WrittenAtEnd(b0, [n]);
      } else {
        r := byteBuffer.WriteInt(WithBit7(n / 256), "byte", true);
        if r.Err? {
          return;
        }
        JTypedByteBuffers.WrittenAtEnd(b0, [WithBit7(n / 256)]);
        ghost var b1 := byteBuffer.bytes;
        r := byteBuffer.WriteInt(n % 256, "byte", true);
        JTypedByteBuffers.WrittenAtEnd(b1, [n % 256]);
      }
    }

    /** write_string's counting loop: two UTF-16 units for a character
        from U+10000, one for any other. */
    static method Utf16Count(text: string) returns (length: nat)
      ensures length == Utf16Length(text)
    {
      length := 0;
      var i := 0;
      while i < |text|
        invariant 0 <= i <= |text| && length == Utf16Length(text[..i])
      {
        Utf16LengthAppend(text[..i], [text[i]]);
        assert text[..i + 1] == text[..i] + [text[i]];
        if 0x10000 <= text[i] as int <= 0x10FFFF {
          length := length + 2;
        } else {
          length := length + 1;
        }
        i := i + 1;
      }
      assert text[..i] == text;
    }

    /** write_string: the loop counts two UTF-16 units for a character from
        U+10000, one for any other; then the length and the UTF-16LE text. */
    method WriteString(text: string) returns (r: Result<()>)
      requires Appending()
      modifies byteBuffer
      ensures Appending()
      ensures StringBytes(text).Err? ==> r == Err(StringBytes(text).error)
      ensures StringBytes(text).Ok? ==>
                r.Ok? && byteBuffer.bytes == old(byteBuffer.bytes) + StringBytes(text).value
    {
      var length := Utf16Count(text);
      r := WriteStringLength(length);
      if r.Err? {
        return;
      }
      ghost var b1 := byteBuffer.bytes;
      byteBuffer.WriteStr(text);
      EncodeUtf16LeLength(text);
      JTypedByteBuffers.WrittenAtEndAfter(old(byteBuffer.bytes), StringLengthBytes(length).value, b1,
                                          EncodeUtf16Le(text), byteBuffer.bytes);
    }

    /** The strings of one table entry, each by write_string. */
    method WriteStrings(texts: seq<string>) returns (r: Result<()>)
      requires Appending()
      modifies byteBuffer
      ensures Appending()
      ensures DictionaryBlocks.StringsBytes(texts).Err? ==> r == Err(OVERFLOW)
      ensures DictionaryBlocks.StringsBytes(texts).Ok? ==>
                r.Ok? && byteBuffer.bytes == old(byteBuffer.bytes) + DictionaryBlocks.StringsBytes(texts).value
    {
      r := Ok(());
      var i := 0;
      while i < |texts|
        invariant 0 <= i <= |texts| && Appending() && r.Ok?
        invariant DictionaryBlocks.StringsBytes(texts[..i]).Ok?
        invariant byteBuffer.bytes == old(byteBuffer.bytes) + DictionaryBlocks.StringsBytes(texts[..i]).value
      {
        r := WriteStringAt(texts, i, old(byteBuffer.bytes));
        if r.Err? {
          return;
        }
        i := i + 1;
      }
      assert texts[..i] == texts;
    }

    /** One pass of WriteStrings' loop. */
    method WriteStringAt(texts: seq<string>, i: nat, ghost b: seq<byte>) returns (r: Result<()>)
      requires Appending() && i < |texts| && DictionaryBlocks.StringsBytes(texts[..i]).Ok?
      requires byteBuffer.bytes == b + DictionaryBlocks.StringsBytes(texts[..i]).value
      modifies byteBuffer
      ensures Appending()
      ensures r.Err? ==> r == Err(OVERFLOW) && DictionaryBlocks.StringsBytes(texts).Err?
      ensures r.Ok? ==> DictionaryBlocks.StringsBytes(texts[..i + 1]).Ok?
                        && byteBuffer.bytes == b + DictionaryBlocks.StringsBytes(texts[..i + 1]).value
    {
      StringsBytesSnoc(texts, i);
      ghost var front := DictionaryBlocks.StringsBytes(texts[..i]).value;
      r := WriteString(texts[i]);
      if r.Err? {
        StringBytesError(texts[i]);
        if DictionaryBlocks.StringsBytes(texts).Ok? {
          DictionaryBlocks.StringsBytesPrefix(texts, i + 1);
        }
      } else {
        AppendAssoc(b, front, StringBytes(texts[i]).value);
      }
    }

    /** convert_postable: the entry count as a 'short', then the
        comma-separated fields of every entry. */
    method ConvertPosTable(posList: seq<string>) returns (r: Result<()>)
      requires Appending()
      modifies byteBuffer
      ensures Appending()
      ensures DictionaryBlocks.PosTableBytes(posList).Err? ==> r == Err(OVERFLOW)
      ensures DictionaryBlocks.PosTableBytes(posList).Ok? ==>
                r.Ok? && byteBuffer.bytes == old(byteBuffer.bytes) + DictionaryBlocks.PosTableBytes(posList).value
    {
      ghost var b0 := byteBuffer.bytes;
      IntFieldWidths(|posList|);
      r := byteBuffer.WriteInt(|posList|, "short", true);
      if r.Err? {
        return;
      }
      JTypedByteBuffers.WrittenAtEnd(b0, IntField(|posList|, "short").value);
      ghost var b1 := byteBuffer.bytes;
      var k := 0;
      while k < |posList|
        invariant 0 <= k <= |posList| && Appending() && r.Ok?
        invariant DictionaryBlocks.PosStringsBytes(posList[..k]).Ok?
        invariant byteBuffer.bytes == b1 + DictionaryBlocks.PosStringsBytes(posList[..k]).value
      {
        r := WritePosEntry(posList, k, b1);
        if r.Err? {
          return;
        }
        k := k + 1;
      }
      assert posList[..k] == posList;
      AppendAssoc(b0, IntField(|posList|, "short").value, DictionaryBlocks.PosStringsBytes(posList).value);
    }

    /** One pass of convert_postable's loop: the fields of entry k. */
    method WritePosEntry(posList: seq<string>, k: nat, ghost b: seq<byte>) returns (r: Result<()>)
      requires Appending() && k < |posList| && DictionaryBlocks.PosStringsBytes(posList[..k]).Ok?
      requires byteBuffer.bytes == b + DictionaryBlocks.PosStringsBytes(posList[..k]).value
      modifies byteBuffer
      ensures Appending()
      ensures r.Err? ==> r == Err(OVERFLOW) && DictionaryBlocks.PosStringsBytes(posList).Err?
      ensures r.Ok? ==> DictionaryBlocks.PosStringsBytes(posList[..k + 1]).Ok?
                        && byteBuffer.bytes == b + DictionaryBlocks.PosStringsBytes(posList[..k + 1]).value
    {
      PosStringsBytesSnoc(posList, k);
      ghost var front := DictionaryBlocks.PosStringsBytes(posList[..k]).value;
      r := WriteStrings(Texts.Split(posList[k], ","));
      if r.Err? {
        if DictionaryBlocks.PosStringsBytes(posList).Ok? {
          DictionaryBlocks.PosStringsBytesPrefix(posList, k + 1);
        }
      } else {
        AppendAssoc(b, front, DictionaryBlocks.StringsBytes(Texts.Split(posList[k], ",")).value);
      }
    }

    /** `byte_buffer.seek(0)`, `out.write(byte_buffer.read())`,
        `byte_buffer.clear()`: the byte buffer's bytes go to `out` at its
        cursor, and the buffer is emptied. */
    method FlushTo(out: JTypedByteBuffers.JTypedByteBuffer)
      requires out != byteBuffer
      modifies byteBuffer, out
      ensures out.bytes == JTypedByteBuffers.Written(old(out.bytes), old(out.position), old(byteBuffer.bytes))
      ensures out.position == old(out.position) + |old(byteBuffer.bytes)|
      ensures old(out.position) == |old(out.bytes)| ==>
                out.bytes == old(out.bytes) + old(byteBuffer.bytes) && out.position == |out.bytes|
      ensures byteBuffer.bytes == [] && byteBuffer.position == 0
    {
      byteBuffer.Seek(0);
      var data := byteBuffer.Read();
      assert data == old(byteBuffer.bytes);
      JTypedByteBuffers.WrittenAtEnd(out.bytes, data);
      out.Write(data);
      byteBuffer.Clear();
    }

    /** write_grammar: the part-of-speech table, then two zero 'short's
        without a matrix file, or convert_matrix's sizes and matrix with
        one; the byte buffer is written to `out` and cleared after each. */
    method WriteGrammar(out: JTypedByteBuffers.JTypedByteBuffer, matrix: Option<seq<string>>) returns (r: Result<()>)
      requires byteBuffer.bytes == [] && byteBuffer.position == 0
      requires out != byteBuffer && out.position == |out.bytes|
      modifies byteBuffer, out
      ensures DictionaryBlocks.GrammarBytes(posTable.table, matrix).Err? ==>
                r == Err(DictionaryBlocks.GrammarBytes(posTable.table, matrix).error)
      ensures DictionaryBlocks.GrammarBytes(posTable.table, matrix).Ok? ==>
                r.Ok? && out.bytes == old(out.bytes) + DictionaryBlocks.GrammarBytes(posTable.table, matrix).value
                && out.position == |out.bytes| && byteBuffer.bytes == [] && byteBuffer.position == 0
    {
      ghost var o := out.bytes;
      var posList := posTable.GetList();
      PosTableBytesError(posList);
      r := ConvertPosTable(posList);
      if r.Err? {
        return;
      }
      ghost var table := DictionaryBlocks.PosTableBytes(posList).value;
      assert byteBuffer.bytes == table by {
        assert [] + table == table;
      }
      FlushTo(out);
      match matrix
      case None =>
        DictionaryBlocks.GrammarBytesWithoutMatrix(posList);
        WriteZeroSizes(out);
        AppendAssoc(o, table, [0, 0, 0, 0]);
      case Some(lines) =>
        var header, body := DictionaryBlocks.HeaderLine(lines), DictionaryBlocks.Body(lines);
        MatrixGrammarFromParts(posList, header, body);
        r := WriteMatrix(out, header, body);
        if r.Ok? {
          ghost var cm := ConvertedMatrix(header, body).value;
          AppendAssoc(o, table, cm.0 + cm.1);
          AppendAssoc(table, cm.0, cm.1);
        }
    }

    /** write_grammar without a matrix file: two zero 'short's. */
    method WriteZeroSizes(out: JTypedByteBuffers.JTypedByteBuffer)
      requires byteBuffer.bytes == [] && byteBuffer.position == 0
      requires out != byteBuffer && out.position == |out.bytes|
      modifies byteBuffer, out
      ensures out.bytes == old(out.bytes) + [0, 0, 0, 0] && out.position == |out.bytes|
      ensures byteBuffer.bytes == [] && byteBuffer.position == 0
    {
      ZeroShort();
      var r := byteBuffer.WriteInt(0, "short", true);
      r := byteBuffer.WriteInt(0, "short", true);
      assert byteBuffer.bytes == [0, 0, 0, 0];
      FlushTo(out);
    }

    /** write_grammar with a matrix file: convert_matrix, the sizes it put
        in the byte buffer, then the matrix from its cursor at 0. */
    method WriteMatrix(out: JTypedByteBuffers.JTypedByteBuffer, header: string, body: seq<string>) returns (r: Result<()>)
      requires byteBuffer.bytes == [] && byteBuffer.position == 0
      requires out != byteBuffer && out.position == |out.bytes|
      modifies byteBuffer, out
      ensures ConvertedMatrix(header, body).Err? ==> r == Err(ConvertedMatrix(header, body).error)
      ensures ConvertedMatrix(header, body).Ok? ==>
                r.Ok? && out.bytes == old(out.bytes) + (ConvertedMatrix(header, body).value.0
                                                        + ConvertedMatrix(header, body).value.1)
                && out.position == |out.bytes| && byteBuffer.bytes == [] && byteBuffer.position == 0
    {
      ghost var o := out.bytes;
      var m := ConvertMatrix(header, body);
      if m.Err? {
        return Err(m.error);
      }
      ghost var cm := ConvertedMatrix(header, body).value;
      assert byteBuffer.bytes == cm.0 by {
        assert [] + cm.0 == cm.0;
      }
      FlushTo(out);
      assert out.bytes == o + cm.0;
      var data := m.value.Read();
      assert data == cm.1 by {
        assert cm.1[0..] == cm.1;
      }
      JTypedByteBuffers.WrittenAtEnd(out.bytes, data);
      out.Write(data);
      AppendAssoc(o, cm.0, cm.1);
      r := Ok(());
    }

    // ---- write_lexicon ----------------------------------------------------------

    /** write_lexicon's first loop: for each trie key, in key order, the
        table's current size (the value the trie is built with for that
        key), then the key's ids by write_intarray into a table buffer of
        its own. */
    method BuildWordIdTable() returns (r: Result<(JTypedByteBuffers.JTypedByteBuffer, seq<nat>)>)
      ensures LexiconLayouts.WordIdTableOf(TrieIds(trieKeys)).Err? ==>
                r.Err? && r.error == LexiconLayouts.WordIdTableOf(TrieIds(trieKeys)).error
      ensures LexiconLayouts.WordIdTableOf(TrieIds(trieKeys)).Ok? ==>
                r.Ok? && fresh(r.value.0)
                && r.value.0.bytes == LexiconLayouts.WordIdTableOf(TrieIds(trieKeys)).value.0
                && r.value.0.position == |r.value.0.bytes|
                && r.value.1 == LexiconLayouts.WordIdTableOf(TrieIds(trieKeys)).value.1
    {
      ghost var idLists := TrieIds(trieKeys);
      var table := new JTypedByteBuffers.JTypedByteBuffer();
      var vals: seq<nat> := [];
      var k := 0;
      assert idLists[..0] == [];
      while k < |trieKeys|
        invariant 0 <= k <= |trieKeys| && fresh(table)
        invariant table.position == |table.bytes|
        invariant LexiconLayouts.WordIdTableOf(idLists[..k]) == Ok((table.bytes, vals))
      {
        WordIdTableSnoc(idLists, k);
        vals := vals + [table.Tell()];
        var w := WriteIntArray(table, trieKeys[k].1);
        if w.Err? {
          WordIdTableStops(idLists, k + 1);
          return Err(w.error);
        }
        k := k + 1;
      }
      assert idLists[..k] == idLists;
      r := Ok((table, vals));
    }

    /** write_lexicon, given the units of the double array trie.build makes
        over the trie keys and the positions BuildWordIdTable gives: the
        table, then the trie build, whose progress function raises for some
        key counts, then the unit count and the units, the table's size and
        bytes, and the word parameters. */
    method WriteLexicon(out: JTypedByteBuffers.JTypedByteBuffer, units: seq<nat>) returns (r: Result<()>)
      requires Valid()
      requires forall i :: 0 <= i < |units| ==> units[i] < Pow256(4)
      requires out != byteBuffer && out.position == |out.bytes|
      modifies byteBuffer, out
      ensures LexiconLayouts.WordIdTableOf(TrieIds(trieKeys)).Ok? && ProgressRaises(|trieKeys|) ==>
                r == Err(LOGGER_NOT_CALLABLE) && out.bytes == old(out.bytes)
      ensures LexiconOutcome(units, TrieIds(trieKeys), ParamsOf(entries), |trieKeys|).Err? ==>
                r == Err(LexiconOutcome(units, TrieIds(trieKeys), ParamsOf(entries), |trieKeys|).error)
      ensures LexiconOutcome(units, TrieIds(trieKeys), ParamsOf(entries), |trieKeys|).Ok? ==>
                r.Ok? && out.bytes + byteBuffer.bytes
                         == old(out.bytes) + LexiconLayouts.LexiconBytes(units, TrieIds(trieKeys), ParamsOf(entries)).value
                && out.position == |out.bytes| && byteBuffer.position == |byteBuffer.bytes|
                && (entries != [] ==> byteBuffer.bytes == [])
                && (entries == [] ==> byteBuffer.bytes == ToBytes(0, 4, true).value)
    {
      ghost var o := out.bytes;
      ghost var ids := TrieIds(trieKeys);
      ghost var ps := ParamsOf(entries);
      LexiconSteps(units, ids, ps);
      var t := BuildWordIdTable();
      if t.Err? {
        return Err(t.error);
      }
      if ProgressRaises(|trieKeys|) {
        return Err(LOGGER_NOT_CALLABLE);
      }
      var table := t.value.0;
      ghost var tb := table.bytes;
      r := WriteTrieAndTable(out, units, table);
      if r.Err? {
        return;
      }
      ghost var mid := out.bytes;
      ParamsBytesError(ps);
      r := WriteParams(out);
      if r.Ok? {
        AppendAssoc5(o, ToBytes(|units|, 4, true).value, LexiconLayouts.UnitsBytes(units),
                     ToBytes(|tb|, 4, true).value, tb, LexiconLayouts.ParamsBytes(ps).value);
      }
    }

    /** The trie and word-id table part of write_lexicon. */
    method WriteTrieAndTable(out: JTypedByteBuffers.JTypedByteBuffer, units: seq<nat>,
                             table: JTypedByteBuffers.JTypedByteBuffer) returns (r: Result<()>)
      requires forall i :: 0 <= i < |units| ==> units[i] < Pow256(4)
      requires out != byteBuffer && table != out && table != byteBuffer
      requires out.position == |out.bytes| && table.position == |table.bytes|
      modifies byteBuffer, out, table
      ensures !Fits(|units|, 4, true) || !Fits(|old(table.bytes)|, 4, true) <==> r.Err?
      ensures r.Err? ==> r == Err(OVERFLOW)
      ensures r.Ok? ==>
                out.bytes == old(out.bytes) + ToBytes(|units|, 4, true).value + LexiconLayouts.UnitsBytes(units)
                             + ToBytes(|old(table.bytes)|, 4, true).value + old(table.bytes)
                && out.position == |out.bytes| && byteBuffer.bytes == [] && byteBuffer.position == 0
    {
      byteBuffer.Clear();
      r := WriteUnitsPart(out, units);
      if r.Err? {
        return;
      }
      r := WriteTablePart(out, table);
    }

    /** The trie half of write_lexicon: the unit count as an 'int', then
        the units. */
    method WriteUnitsPart(out: JTypedByteBuffers.JTypedByteBuffer, units: seq<nat>) returns (r: Result<()>)
      requires forall i :: 0 <= i < |units| ==> units[i] < Pow256(4)
      requires out != byteBuffer && out.position == |out.bytes| && byteBuffer.bytes == [] && byteBuffer.position == 0
      modifies byteBuffer, out
      ensures !Fits(|units|, 4, true) <==> r.Err?
      ensures r.Err? ==> r == Err(OVERFLOW)
      ensures r.Ok? ==>
                out.bytes == old(out.bytes) + ToBytes(|units|, 4, true).value + LexiconLayouts.UnitsBytes(units)
                && out.position == |out.bytes| && byteBuffer.bytes == [] && byteBuffer.position == 0
    {
      IntFieldWidths(|units|);
      r := byteBuffer.WriteInt(|units|, "int", true);
      if r.Err? {
        return;
      }
      assert byteBuffer.bytes == ToBytes(|units|, 4, true).value by {
        JTypedByteBuffers.WrittenAtEnd([], ToBytes(|units|, 4, true).value);
        assert [] + ToBytes(|units|, 4, true).value == ToBytes(|units|, 4, true).value;
      }
      FlushTo(out);
      JTypedByteBuffers.WrittenAtEnd(out.bytes, LexiconLayouts.UnitsBytes(units));
      out.Write(LexiconLayouts.UnitsBytes(units));
    }

    /** The table half of write_lexicon: the table's length as an 'int',
        then the table, read back from its start. */
    method WriteTablePart(out: JTypedByteBuffers.JTypedByteBuffer, table: JTypedByteBuffers.JTypedByteBuffer)
      returns (r: Result<()>)
      requires out != byteBuffer && table != out && table != byteBuffer
      requires out.position == |out.bytes| && table.position == |table.bytes|
      requires byteBuffer.bytes == [] && byteBuffer.position == 0
      modifies byteBuffer, out, table
      ensures !Fits(|old(table.bytes)|, 4, true) <==> r.Err?
      ensures r.Err? ==> r == Err(OVERFLOW)
      ensures r.Ok? ==>
                out.bytes == old(out.bytes) + ToBytes(|old(table.bytes)|, 4, true).value + old(table.bytes)
                && out.position == |out.bytes| && byteBuffer.bytes == [] && byteBuffer.position == 0
    {
      ghost var tb := table.bytes;
      IntFieldWidths(|tb|);
      r := byteBuffer.WriteInt(table.Tell(), "int", true);
      if r.Err? {
        return;
      }
      assert byteBuffer.bytes == ToBytes(|tb|, 4, true).value by {
        JTypedByteBuffers.WrittenAtEnd([], ToBytes(|tb|, 4, true).value);
        assert [] + ToBytes(|tb|, 4, true).value == ToBytes(|tb|, 4, true).value;
      }
      FlushTo(out);
      table.Seek(0);
      var data := table.Read();
      assert data == tb by {
        assert tb[0..] == tb;
      }
      JTypedByteBuffers.WrittenAtEnd(out.bytes, data);
      out.Write(data);
    }

    /** The word-parameter part of write_lexicon: the entry count as an
        'int', then each entry's three 'short's, the byte buffer written out
        after each entry, so that with no entries the count stays behind in
        the byte buffer. */
    method WriteParams(out: JTypedByteBuffers.JTypedByteBuffer) returns (r: Result<()>)
      requires Valid()
      requires byteBuffer.bytes == [] && byteBuffer.position == 0
      requires out != byteBuffer && out.position == |out.bytes|
      modifies byteBuffer, out
      ensures LexiconLayouts.ParamsBytes(ParamsOf(entries)).Err? ==> r == Err(OVERFLOW)
      ensures LexiconLayouts.ParamsBytes(ParamsOf(entries)).Ok? ==>
                r.Ok? && out.bytes + byteBuffer.bytes
                         == old(out.bytes) + LexiconLayouts.ParamsBytes(ParamsOf(entries)).value
                && out.position == |out.bytes| && byteBuffer.position == |byteBuffer.bytes|
                && (entries != [] ==> byteBuffer.bytes == [])
                && (entries == [] ==> byteBuffer.bytes == ToBytes(0, 4, true).value)
    {
      ghost var o := out.bytes;
      ghost var ps := ParamsOf(entries);
      IntFieldWidths(|entries|);
      r := byteBuffer.WriteInt(|entries|, "int", true);
      if r.Err? {
        return;
      }
      ghost var count := ToBytes(|entries|, 4, true).value;
      assert byteBuffer.bytes == count by {
        JTypedByteBuffers.WrittenAtEnd([], count);
        assert [] + count == count;
      }
      assert ps[..0] == [];
      assert o + count + [] == o + count;
      var w := 0;
      while w < |entries|
        invariant 0 <= w <= |entries| && r.Ok?
        invariant out.position == |out.bytes| && byteBuffer.position == |byteBuffer.bytes|
        invariant LexiconLayouts.Triples(ps[..w]) && LexiconLayouts.ParamsFrom(ps[..w]).Ok?
        invariant out.bytes + byteBuffer.bytes == o + count + LexiconLayouts.ParamsFrom(ps[..w]).value
        invariant w == 0 ==> byteBuffer.bytes == count
        invariant w > 0 ==> byteBuffer.bytes == []
      {
        var w' := w + 1;
        r := WriteParamEntry(out, w, w', o + count);
        if r.Err? {
          return;
        }
        w := w';
      }
      assert ps[..w] == ps;
      AppendAssoc(o, count, LexiconLayouts.ParamsFrom(ps).value);
    }

    /** One pass of the parameter loop: the entry's three 'short's, then
        the byte buffer (holding the count too on the first pass) to `out`. */
    method WriteParamEntry(out: JTypedByteBuffers.JTypedByteBuffer, w: nat, w': nat, ghost b: seq<byte>)
      returns (r: Result<()>)
      requires Valid() && w < |entries| && w' == w + 1
      requires out != byteBuffer && out.position == |out.bytes| && byteBuffer.position == |byteBuffer.bytes|
      requires LexiconLayouts.Triples(ParamsOf(entries)[..w]) && LexiconLayouts.ParamsFrom(ParamsOf(entries)[..w]).Ok?
      requires out.bytes + byteBuffer.bytes == b + LexiconLayouts.ParamsFrom(ParamsOf(entries)[..w]).value
      modifies byteBuffer, out
      ensures r.Err? ==> r == Err(OVERFLOW) && LexiconLayouts.ParamsBytes(ParamsOf(entries)).Err?
      ensures r.Ok? ==> LexiconLayouts.Triples(ParamsOf(entries)[..w'])
                        && LexiconLayouts.ParamsFrom(ParamsOf(entries)[..w']).Ok?
                        && out.bytes == b + LexiconLayouts.ParamsFrom(ParamsOf(entries)[..w']).value
                        && out.position == |out.bytes| && byteBuffer.bytes == [] && byteBuffer.position == 0
    {
      ghost var ps := ParamsOf(entries);
      ghost var front := LexiconLayouts.ParamsFrom(ps[..w]).value;
      ParamsFromSnoc(ps, w);
      ghost var o := out.bytes;
      ghost var bb := byteBuffer.bytes;
      r := WriteShorts(entries[w].parameters);
      if r.Err? {
        ParamsFromStops(ps, w + 1);
        return;
      }
      FlushTo(out);
      ghost var rec := LexiconLayouts.ParamBytes(ps[w]).value;
      AppendAssoc(o, bb, rec);
      AppendAssoc(b, front, rec);
    }

    /** An entry's left id, right id and cost, each by write_int 'short'. */
    method WriteShorts(p: seq<int>) returns (r: Result<()>)
      requires |p| == 3 && Appending()
      modifies byteBuffer
      ensures Appending()
      ensures LexiconLayouts.ParamBytes(p).Err? ==> r == Err(OVERFLOW)
      ensures LexiconLayouts.ParamBytes(p).Ok? ==>
                r.Ok? && byteBuffer.bytes == old(byteBuffer.bytes) + LexiconLayouts.ParamBytes(p).value
    {
      ghost var b0 := byteBuffer.bytes;
      IntFieldWidths(p[0]);
      IntFieldWidths(p[1]);
      IntFieldWidths(p[2]);
      r := byteBuffer.WriteInt(p[0], "short", true);
      if r.Err? {
        return;
      }
      JTypedByteBuffers.WrittenAtEnd(b0, ToBytes(p[0], 2, true).value);
      ghost var b1 := byteBuffer.bytes;
      r := byteBuffer.WriteInt(p[1], "short", true);
      if r.Err? {
        return;
      }
      JTypedByteBuffers.WrittenAtEnd(b1, ToBytes(p[1], 2, true).value);
      ghost var b2 := byteBuffer.bytes;
      r := byteBuffer.WriteInt(p[2], "short", true);
      if r.Err? {
        return;
      }
      JTypedByteBuffers.WrittenAtEnd(b2, ToBytes(p[2], 2, true).value);
      AppendAssoc3(b0, ToBytes(p[0], 2, true).value, ToBytes(p[1], 2, true).value, ToBytes(p[2], 2, true).value);
    }

    // ---- write_wordinfo ----------------------------------------------------------

    /** write_wordinfo: from the stream position `mark` it seeks to
        `mark * 4 + len(entries)` and writes there each entry's record
        (noting the stream position before each in a position table), the
        byte buffer written out after each record; then it writes the
        position table at `mark`. */
    method WriteWordInfo(out: JTypedByteBuffers.JTypedByteBuffer) returns (r: Result<()>)
      requires out != byteBuffer && Appending() && (entries != [] ==> byteBuffer.bytes == [])
      modifies byteBuffer, out, posTable
      ensures WordInfoArea(kind, old(posTable.table), entries, old(out.position)).Err? ==>
                r == Err(WordInfoArea(kind, old(posTable.table), entries, old(out.position)).error)
      ensures WordInfoArea(kind, old(posTable.table), entries, old(out.position)).Ok? ==>
                var area := WordInfoArea(kind, old(posTable.table), entries, old(out.position)).value;
                && r.Ok? && IntsBytes(area.0).Ok?
                && out.bytes == JTypedByteBuffers.Written(
                                  JTypedByteBuffers.Written(old(out.bytes),
                                                            LexiconLayouts.WordInfoStart(old(out.position), |entries|),
                                                            area.1),
                                  old(out.position), IntsBytes(area.0).value)
                && out.position == old(out.position) + 4 * |entries|
                && posTable.table == RecordsFrom(StepOf(kind, entries), old(posTable.table), entries).1
    {
      var mark := out.Tell();
      ghost var o := out.bytes;
      ghost var t0 := posTable.table;
      ghost var step := StepOf(kind, entries);
      ghost var start := LexiconLayouts.WordInfoStart(mark, |entries|);
      out.Seek(mark * 4 + |entries|);
      var offsets := new JTypedByteBuffers.JTypedByteBuffer();
      assert entries[..0] == [];
      var w := 0;
      while w < |entries|
        invariant 0 <= w <= |entries| && fresh(offsets)
        invariant entries != [] ==> byteBuffer.bytes == [] && byteBuffer.position == 0
        invariant Placed(out, offsets, w, t0, start, o)
      {
        r := WriteWordInfoAt(out, offsets, w, t0, start, o);
        if r.Err? {
          return;
        }
        w := w + 1;
      }
      assert entries[..w] == entries;
      out.Seek(mark);
      offsets.Seek(0);
      var data := offsets.Read();
      assert data == offsets.bytes by {
        assert offsets.bytes[0..] == offsets.bytes;
      }
      out.Write(data);
      r := Ok(());
    }

    /** The state write_wordinfo's loop keeps after the first w entries
        (see PlacedState), with the position table's cursor at its end. */
    ghost predicate Placed(out: JTypedByteBuffers.JTypedByteBuffer, offsets: JTypedByteBuffers.JTypedByteBuffer,
                           w: nat, t0: seq<string>, start: nat, o: seq<byte>)
      reads this, posTable, out, offsets
    {
      && offsets.position == |offsets.bytes|
      && PlacedState(StepOf(kind, entries), entries, posTable.table, out.bytes, out.position, offsets.bytes, w, t0, start, o)
    }

    /** One pass of write_wordinfo's loop: the stream position into the
        position table, the record into the byte buffer, the byte buffer to
        the stream. */
    method WriteWordInfoAt(out: JTypedByteBuffers.JTypedByteBuffer, offsets: JTypedByteBuffers.JTypedByteBuffer,
                           w: nat, ghost t0: seq<string>, ghost start: nat, ghost o: seq<byte>)
      returns (r: Result<()>)
      requires w < |entries| && out != byteBuffer && offsets != byteBuffer && offsets != out
      requires byteBuffer.bytes == [] && byteBuffer.position == 0
      requires Placed(out, offsets, w, t0, start, o)
      modifies byteBuffer, out, offsets, posTable
      ensures r.Err? ==> AreaUpTo(StepOf(kind, entries), t0, entries, start, |entries|).Err?
                         && r == Err(AreaUpTo(StepOf(kind, entries), t0, entries, start, |entries|).error)
      ensures r.Ok? ==> byteBuffer.bytes == [] && byteBuffer.position == 0 && Placed(out, offsets, w + 1, t0, start, o)
    {
      ghost var es := entries;
      ghost var step := StepOf(kind, es);
      ghost var table := posTable.table;
      ghost var x := EntryRecord(kind, table, es, es[w]);
      assert step(table, es[w]) == x;
      ghost var ob := out.bytes;
      ghost var offb := offsets.bytes;
      var pos := out.Tell();
      r := WritePosition(offsets, pos);
      if r.Err? {
        PlacedFails(step, es, table, ob, pos, offb, w, t0, start, o, x);
        return;
      }
      r := WriteRecordTo(out, entries[w]);
      if r.Err? {
        PlacedFails(step, es, table, ob, pos, offb, w, t0, start, o, x);
        return;
      }
      PlacedNext(step, es, table, ob, pos, offb, w, t0, start, o, x,
                 posTable.table, out.bytes, out.position, offsets.bytes, w + 1);
    }

    method WriteRecordTo(out: JTypedByteBuffers.JTypedByteBuffer, e: WordEntry) returns (r: Result<()>)
      requires out != byteBuffer && byteBuffer.bytes == [] && byteBuffer.position == 0
      modifies byteBuffer, out, posTable
      ensures EntryRecord(kind, old(posTable.table), entries, e).0.Err? ==>
                r == Err(EntryRecord(kind, old(posTable.table), entries, e).0.error)
      ensures EntryRecord(kind, old(posTable.table), entries, e).0.Ok? ==>
                r.Ok? && byteBuffer.bytes == [] && byteBuffer.position == 0
                && out.bytes == JTypedByteBuffers.Written(old(out.bytes), old(out.position),
                                                          EntryRecord(kind, old(posTable.table), entries, e).0.value)
                && out.position == old(out.position) + |EntryRecord(kind, old(posTable.table), entries, e).0.value|
                && posTable.table == EntryRecord(kind, old(posTable.table), entries, e).1
    {
      r := WriteRecord(e);
      if r.Err? {
        return;
      }
      assert byteBuffer.bytes == EntryRecord(kind, old(posTable.table), entries, e).0.value by {
        assert [] + byteBuffer.bytes == byteBuffer.bytes;
      }
      FlushTo(out);
    }

    /** The fields and split arrays of one entry's record, into the byte
        buffer; the split columns are parsed just before their arrays are
        written. */
    method WriteRecord(e: WordEntry) returns (r: Result<()>)
      requires Appending()
      modifies byteBuffer, posTable
      ensures Appending()
      ensures EntryRecord(kind, old(posTable.table), entries, e).0.Err? ==>
                r == Err(EntryRecord(kind, old(posTable.table), entries, e).0.error)
      ensures EntryRecord(kind, old(posTable.table), entries, e).0.Ok? ==>
                r.Ok? && byteBuffer.bytes == old(byteBuffer.bytes) + EntryRecord(kind, old(posTable.table), entries, e).0.value
                && posTable.table == EntryRecord(kind, old(posTable.table), entries, e).1
    {
      ghost var b0 := byteBuffer.bytes;
      ghost var t0 := posTable.table;
      var wi := e.wordInfo;
      ghost var (a, t1) := SplitInfoOf(kind, t0, entries, e.aSplit);
      ghost var (b, t2) := SplitInfoOf(kind, t1, entries, e.bSplit);
      ghost var (c, t3) := SplitInfoOf(kind, t2, entries, e.cSplit);
      assert EntryRecord(kind, t0, entries, e) == (RecordBytes(wi, a, b, c), t3);
      RecordSteps(wi, a, b, c);
      r := WriteHead(wi);
      if r.Err? {
        return;
      }
      ghost var head := HeadBytes(wi.surface, wi.headWordLength, wi.posId).value;
      r := WriteForms(Stored(wi.normalizedForm, wi.surface), wi.dictionaryFormWordId, Stored(wi.readingForm, wi.surface));
      if r.Err? {
        return;
      }
      ghost var forms := FormsBytes(Stored(wi.normalizedForm, wi.surface), wi.dictionaryFormWordId,
                                    Stored(wi.readingForm, wi.surface)).value;
      AppendAssoc(b0, head, forms);
      r := WriteSplits(e, b0, head + forms, a, b, c);
    }

    /** The three split arrays of a record, each column parsed just before
        its array is written. */
    method WriteSplits(e: WordEntry, ghost b0: seq<byte>, ghost front: seq<byte>,
                       ghost a: Result<SplitInfo>, ghost b: Result<SplitInfo>, ghost c: Result<SplitInfo>)
      returns (r: Result<()>)
      requires Appending() && byteBuffer.bytes == b0 + front
      requires a == SplitInfoOf(kind, posTable.table, entries, e.aSplit).0
      requires b == SplitInfoOf(kind, SplitInfoOf(kind, posTable.table, entries, e.aSplit).1, entries, e.bSplit).0
      requires c == SplitInfoOf(kind, SplitInfoOf(kind, SplitInfoOf(kind, posTable.table, entries, e.aSplit).1,
                                                  entries, e.bSplit).1, entries, e.cSplit).0
      modifies byteBuffer, posTable
      ensures Appending()
      ensures SplitsAfter(front, a, b, c).Err? ==> r == Err(SplitsAfter(front, a, b, c).error)
      ensures SplitsAfter(front, a, b, c).Ok? ==>
                r.Ok? && byteBuffer.bytes == b0 + SplitsAfter(front, a, b, c).value
                && posTable.table == SplitInfoOf(kind, SplitInfoOf(kind, SplitInfoOf(kind, old(posTable.table), entries,
                                                 e.aSplit).1, entries, e.bSplit).1, entries, e.cSplit).1
    {
      var sa := ParseSplitInfo(e.aSplit);
      if sa.Err? {
        return Err(sa.error);
      }
      r := WriteSplit(sa.value);
      if r.Err? {
        return;
      }
      ghost var x := SplitBytes(sa.value).value;
      AppendAssoc(b0, front, x);
      SplitAfterStep(front, a, b, c);
      var sb := ParseSplitInfo(e.bSplit);
      if sb.Err? {
        return Err(sb.error);
      }
      r := WriteSplit(sb.value);
      if r.Err? {
        return;
      }
      ghost var y := SplitBytes(sb.value).value;
      AppendAssoc(b0, front + x, y);
      SplitAfterStep2(front + x, b, c);
      var sc := ParseSplitInfo(e.cSplit);
      if sc.Err? {
        return Err(sc.error);
      }
      r := WriteSplit(sc.value);
      if r.Err? {
        return;
      }
      ghost var z := SplitBytes(sc.value).value;
      AppendAssoc(b0, front + x + y, z);
    }

    /** write_intarray of a parsed split column: a column parse_splitinfo
        returned the ValueError object for has no len(). */
    method WriteSplit(sp: SplitInfo) returns (r: Result<()>)
      requires Appending()
      modifies byteBuffer
      ensures Appending()
      ensures SplitBytes(sp).Err? ==> r == Err(SplitBytes(sp).error)
      ensures SplitBytes(sp).Ok? ==> r.Ok? && byteBuffer.bytes == old(byteBuffer.bytes) + SplitBytes(sp).value
    {
      match sp
      case NotFound =>
        r := Err(TypeError("object of type 'ValueError' has no len()"));
      case Ids(ids) =>
        r := WriteIntArray(byteBuffer, ids);
    }

    /** The surface, the head length and the part of speech of a record. */
    method WriteHead(wi: WordInfoLists.WordInfo) returns (r: Result<()>)
      requires Appending()
      modifies byteBuffer
      ensures Appending()
      ensures HeadBytes(wi.surface, wi.headWordLength, wi.posId).Err? ==>
                r == Err(HeadBytes(wi.surface, wi.headWordLength, wi.posId).error)
      ensures HeadBytes(wi.surface, wi.headWordLength, wi.posId).Ok? ==>
                r.Ok? && byteBuffer.bytes == old(byteBuffer.bytes) + HeadBytes(wi.surface, wi.headWordLength, wi.posId).value
    {
      ghost var b0 := byteBuffer.bytes;
      r := WriteString(wi.surface);
      if r.Err? {
        return;
      }
      r := WriteStringLength(wi.headWordLength);
      if r.Err? {
        return;
      }
      ghost var b2 := byteBuffer.bytes;
      r := byteBuffer.WriteInt(wi.posId, "short", true);
      if r.Err? {
        return;
      }
      IntFieldWidths(wi.posId);
      JTypedByteBuffers.WrittenAtEnd(b2, ToBytes(wi.posId, 2, true).value);
      AppendAssoc3(b0, StringBytes(wi.surface).value, StringLengthBytes(wi.headWordLength).value,
                   ToBytes(wi.posId, 2, true).value);
    }

    /** The normalized form, the dictionary-form word id and the reading
        form of a record, as stored. */
    method WriteForms(normalized: string, dictionaryFormWordId: int, reading: string) returns (r: Result<()>)
      requires Appending()
      modifies byteBuffer
      ensures Appending()
      ensures FormsBytes(normalized, dictionaryFormWordId, reading).Err? ==>
                r == Err(FormsBytes(normalized, dictionaryFormWordId, reading).error)
      ensures FormsBytes(normalized, dictionaryFormWordId, reading).Ok? ==>
                r.Ok? && byteBuffer.bytes == old(byteBuffer.bytes) + FormsBytes(normalized, dictionaryFormWordId, reading).value
    {
      ghost var b0 := byteBuffer.bytes;
      r := WriteString(normalized);
      if r.Err? {
        return;
      }
      ghost var b1 := byteBuffer.bytes;
      r := byteBuffer.WriteInt(dictionaryFormWordId, "int", true);
      if r.Err? {
        return;
      }
      IntFieldWidths(dictionaryFormWordId);
      JTypedByteBuffers.WrittenAtEnd(b1, ToBytes(dictionaryFormWordId, 4, true).value);
      r := WriteString(reading);
      if r.Err? {
        return;
      }
      AppendAssoc3(b0, StringBytes(normalized).value, ToBytes(dictionaryFormWordId, 4, true).value,
                   StringBytes(reading).value);
    }

    /** convert_matrix: the header's sizes as two 'short's into the byte
        buffer, then a new buffer holding the cells the other lines give,
        its cursor back at 0. */
    method ConvertMatrix(header: string, body: seq<string>) returns (r: Result<JTypedByteBuffers.JTypedByteBuffer>)
      requires Appending()
      modifies byteBuffer
      ensures Appending()
      ensures ConvertedMatrix(header, body).Err? ==> r.Err? && r.error == ConvertedMatrix(header, body).error
      ensures ConvertedMatrix(header, body).Ok? ==>
                r.Ok? && fresh(r.value) && r.value.position == 0
                && r.value.bytes == ConvertedMatrix(header, body).value.1
                && byteBuffer.bytes == old(byteBuffer.bytes) + ConvertedMatrix(header, body).value.0
    {
      var sizes := DictionaryBlocks.MatrixHeader(header);
      if sizes.Err? {
        return Err(sizes.error);
      }
      var lsize := sizes.value.0;
      var rsize := sizes.value.1;
      IntFieldWidths(lsize);
      IntFieldWidths(rsize);
      ghost var b0 := byteBuffer.bytes;
      var w := byteBuffer.WriteInt(lsize, "short", true);
      if w.Err? {
        return Err(w.error);
      }
      JTypedByteBuffers.WrittenAtEnd(b0, IntField(lsize, "short").value);
      ghost var b1 := byteBuffer.bytes;
      w := byteBuffer.WriteInt(rsize, "short", true);
      if w.Err? {
        return Err(w.error);
      }
      JTypedByteBuffers.WrittenAtEnd(b1, IntField(rsize, "short").value);
      AppendAssoc(b0, IntField(lsize, "short").value, IntField(rsize, "short").value);
      var matrix := new JTypedByteBuffers.JTypedByteBuffer();
      w := FillMatrix(matrix, lsize, body);
      if w.Err? {
        return Err(w.error);
      }
      r := Ok(matrix);
    }

    /** convert_matrix's loop: each line after the header, in order. */
    method FillMatrix(m: JTypedByteBuffers.JTypedByteBuffer, lsize: int, body: seq<string>) returns (r: Result<()>)
      requires m.bytes == [] && m.position == 0
      modifies m
      ensures DictionaryBlocks.MatrixFrom(lsize, body).Err? ==> r == Err(DictionaryBlocks.MatrixFrom(lsize, body).error)
      ensures DictionaryBlocks.MatrixFrom(lsize, body).Ok? ==>
                r.Ok? && m.bytes == DictionaryBlocks.MatrixFrom(lsize, body).value && m.position == 0
    {
      r := Ok(());
      var i := 0;
      assert body[..0] == [];
      while i < |body|
        invariant 0 <= i <= |body| && m.position == 0 && r.Ok?
        invariant DictionaryBlocks.MatrixFrom(lsize, body[..i]) == Ok(m.bytes)
      {
        var i' := i + 1;
        r := FillLine(m, lsize, body, i, i');
        if r.Err? {
          CellsFromStops(DictionaryBlocks.MatrixLineOf, lsize, body, i');
          return;
        }
        i := i';
      }
      assert body[..i] == body;
    }

    /** One line of convert_matrix: skipped, or its cost written as a
        'short' at the cell's position, the cursor put back. */
    method FillLine(m: JTypedByteBuffers.JTypedByteBuffer, lsize: int, body: seq<string>, i: nat, i': nat)
      returns (r: Result<()>)
      requires i < |body| && m.position == 0 && i' == i + 1
      requires DictionaryBlocks.MatrixFrom(lsize, body[..i]) == Ok(m.bytes)
      modifies m
      ensures r.Err? ==> DictionaryBlocks.MatrixFrom(lsize, body[..i']) == Err(r.error)
      ensures r.Ok? ==> DictionaryBlocks.MatrixFrom(lsize, body[..i']) == Ok(m.bytes) && m.position == 0
    {
      CellsFromSnoc(DictionaryBlocks.MatrixLineOf, lsize, body, i);
      var c := DictionaryBlocks.MatrixLineOf(body[i]);
      if c.Err? {
        return Err(c.error);
      }
      if c.value.Skip? {
        r := Ok(());
      } else {
        r := WriteCellAt(m, lsize, c.value);
      }
    }

    /** A cell's write: seek to its position (a negative one fails), write
        the cost as a 'short', seek back to where the cursor was. */
    method WriteCellAt(m: JTypedByteBuffers.JTypedByteBuffer, lsize: int, c: DictionaryBlocks.MatrixLine)
      returns (r: Result<()>)
      requires c.Cell? && m.position == 0
      modifies m
      ensures DictionaryBlocks.WriteCell(old(m.bytes), lsize, c).Err? ==>
                r == Err(DictionaryBlocks.WriteCell(old(m.bytes), lsize, c).error)
      ensures DictionaryBlocks.WriteCell(old(m.bytes), lsize, c).Ok? ==>
                r.Ok? && m.bytes == DictionaryBlocks.WriteCell(old(m.bytes), lsize, c).value && m.position == 0
    {
      var pos := m.Tell();
      var p := DictionaryBlocks.CellPosition(lsize, c.left, c.right);
      if p < 0 {
        return Err(ValueError("negative seek value"));
      }
      IntFieldWidths(c.cost);
      m.Seek(p);
      r := m.WriteInt(c.cost, "short", true);
      if r.Err? {
        return;
      }
      m.Seek(pos);
    }
  }

  // ---- int arrays ---------------------------------------------------------------

  /** write_intarray into `buf` (the builder's byte buffer, or the word-id
      table write_lexicon fills the same way): the count as a 'byte', then
      each value as an 'int'. */
  method WriteIntArray(buf: JTypedByteBuffers.JTypedByteBuffer, xs: seq<int>) returns (r: Result<()>)
    requires buf.position == |buf.bytes|
    modifies buf
    ensures buf.position == |buf.bytes|
    ensures IntArrayBytes(xs).Err? ==> r == Err(IntArrayBytes(xs).error)
    ensures IntArrayBytes(xs).Ok? ==> r.Ok? && buf.bytes == old(buf.bytes) + IntArrayBytes(xs).value
  {
    ghost var b0 := buf.bytes;
    r := buf.WriteInt(|xs|, "byte", true);
    if r.Err? {
      return;
    }
    JTypedByteBuffers.WrittenAtEnd(b0, [|xs|]);
    IntsBytesError(xs);
    r := WriteInts(buf, xs);
  }

  /** The values of write_intarray's loop. */
  method WriteInts(buf: JTypedByteBuffers.JTypedByteBuffer, xs: seq<int>) returns (r: Result<()>)
    requires buf.position == |buf.bytes|
    modifies buf
    ensures buf.position == |buf.bytes|
    ensures IntsBytes(xs).Err? ==> r == Err(OVERFLOW)
    ensures IntsBytes(xs).Ok? ==> r.Ok? && buf.bytes == old(buf.bytes) + IntsBytes(xs).value
  {
    r := Ok(());
    var i := 0;
    while i < |xs|
      invariant 0 <= i <= |xs| && buf.position == |buf.bytes| && r.Ok?
      invariant IntsBytes(xs[..i]).Ok? && buf.bytes == old(buf.bytes) + IntsBytes(xs[..i]).value
    {
      ghost var b1, i0 := buf.bytes, i;
      ghost var a := IntsBytes(xs[..i]).value;
      IntsBytesSnoc(xs, i);
      r := buf.WriteInt(xs[i], "int", true);
      if r.Err? {
        return;
      }
      i := i + 1;
      ghost var c := ToBytes(xs[i0], 4, true).value;
      IntsSnoc(xs, i0, i, a, c);
      JTypedByteBuffers.WrittenAtEndAfter(old(buf.bytes), a, b1, c, buf.bytes);
    }
    assert xs[..i] == xs;
  }

  /** The bytes of one more value follow those of the values before it. */
  lemma IntsSnoc(xs: seq<int>, i: nat, i': nat, a: seq<byte>, c: seq<byte>)
    requires i < |xs| && IntsBytes(xs[..i]) == Ok(a) && ToBytes(xs[i], 4, true) == Ok(c) && i' == i + 1
    ensures i' <= |xs| && IntsBytes(xs[..i']) == Ok(a + c)
  {
    var ys := xs[..i'];
    assert ys[..|ys| - 1] == xs[..i] && ys[|ys| - 1] == xs[i];
    IntFieldWidths(xs[i]);
  }

  /** write_int of a record's stream position into the position table. */
  method WritePosition(buf: JTypedByteBuffers.JTypedByteBuffer, pos: nat) returns (r: Result<()>)
    requires buf.position == |buf.bytes|
    modifies buf
    ensures r.Err? <==> !Fits(pos, 4, true)
    ensures r.Err? ==> r == Err(OVERFLOW)
    ensures r.Ok? ==> buf.position == |buf.bytes| && buf.bytes == old(buf.bytes) + ToBytes(pos, 4, true).value
  {
    ghost var b0 := buf.bytes;
    IntFieldWidths(pos);
    r := buf.WriteInt(pos, "int", true);
    if r.Err? {
      return;
    }
    JTypedByteBuffers.WrittenAtEnd(b0, ToBytes(pos, 4, true).value);
  }

  /** The error every failed int, string or table write raises. */
  const OVERFLOW: Error := OverflowError("int too big to convert")

  lemma StringBytesError(s: string)
    ensures StringBytes(s).Err? ==> StringBytes(s).error == OVERFLOW
  {
  }

  lemma AppendAssoc(a: seq<byte>, b: seq<byte>, c: seq<byte>)
    ensures a + b + c == a + (b + c)
  {
  }

  /** `write_int(0, 'short')` writes two zero bytes. */
  lemma ZeroShort()
    ensures JTypedByteBuffers.IntBytes(0, "short", true) == Ok([0, 0])
  {
    IntFieldWidths(0);
    assert EncodeUnsigned(0, 0) == [];
    assert EncodeUnsigned(0, 1) == [0];
    assert EncodeUnsigned(0, 2) == [0, 0];
  }

  /** Every failure of the table writers is the same OverflowError. */
  lemma PosTableBytesError(posList: seq<string>)
    ensures DictionaryBlocks.PosTableBytes(posList).Err? ==> DictionaryBlocks.PosTableBytes(posList).error == OVERFLOW
  {
    IntFieldWidths(|posList|);
    PosStringsBytesError(posList);
  }

  lemma {:induction false} PosStringsBytesError(posList: seq<string>)
    ensures DictionaryBlocks.PosStringsBytes(posList).Err? ==>
              DictionaryBlocks.PosStringsBytes(posList).error == OVERFLOW
  {
    if posList != [] {
      var n := |posList| - 1;
      PosStringsBytesError(posList[..n]);
      StringsBytesError(Texts.Split(posList[n], ","));
    }
  }

  lemma {:induction false} StringsBytesError(texts: seq<string>)
    ensures DictionaryBlocks.StringsBytes(texts).Err? ==> DictionaryBlocks.StringsBytes(texts).error == OVERFLOW
  {
    if texts != [] {
      var n := |texts| - 1;
      StringsBytesError(texts[..n]);
      StringBytesError(texts[n]);
    }
  }

  // ---- the lexicon block -----------------------------------------------------------

  /** The id lists of the trie keys, in key order. */
  function TrieIds(t: seq<(seq<byte>, seq<nat>)>): (r: seq<seq<nat>>)
    ensures |r| == |t| && forall k :: 0 <= k < |t| ==> r[k] == t[k].1
  {
    seq(|t|, k requires 0 <= k < |t| => t[k].1)
  }

  /** The parameters of the entries, in entry order. */
  function ParamsOf(entries: seq<WordEntry>): (r: seq<seq<int>>)
    ensures |r| == |entries| && forall w :: 0 <= w < |entries| ==> r[w] == entries[w].parameters
  {
    seq(|entries|, w requires 0 <= w < |entries| => entries[w].parameters)
  }

  lemma AppendAssoc3(a: seq<byte>, b: seq<byte>, c: seq<byte>, d: seq<byte>)
    ensures a + b + c + d == a + (b + c + d)
  {
  }

  lemma AppendAssoc5(o: seq<byte>, a: seq<byte>, b: seq<byte>, c: seq<byte>, d: seq<byte>, e: seq<byte>)
    ensures o + a + b + c + d + e == o + (a + b + c + d + e)
  {
    AppendAssoc3(o, a, b, c);
    AppendAssoc3(o + (a + b + c), d, e, []);
    assert o + a + b + c + d + e == o + (a + b + c) + (d + e);
    assert a + b + c + d + e == (a + b + c) + (d + e);
  }

  /** One more key's ids after a table that was written. */
  lemma WordIdTableSnoc(idLists: seq<seq<nat>>, k: nat)
    requires k < |idLists| && LexiconLayouts.WordIdTableOf(idLists[..k]).Ok?
    ensures IntArrayBytes(idLists[k]).Err? ==>
              LexiconLayouts.WordIdTableOf(idLists[..k + 1]) == Err(IntArrayBytes(idLists[k]).error)
    ensures IntArrayBytes(idLists[k]).Ok? ==>
              LexiconLayouts.WordIdTableOf(idLists[..k + 1])
              == Ok((LexiconLayouts.WordIdTableOf(idLists[..k]).value.0 + IntArrayBytes(idLists[k]).value,
                     LexiconLayouts.WordIdTableOf(idLists[..k]).value.1
                     + [|LexiconLayouts.WordIdTableOf(idLists[..k]).value.0|]))
  {
    assert idLists[..k + 1][..k] == idLists[..k];
  }

  /** Once a key's ids fail, the later keys change nothing. */
  lemma {:induction false} WordIdTableStops(idLists: seq<seq<nat>>, j: nat)
    requires j <= |idLists| && LexiconLayouts.WordIdTableOf(idLists[..j]).Err?
    ensures LexiconLayouts.WordIdTableOf(idLists) == LexiconLayouts.WordIdTableOf(idLists[..j])
  {
    if j < |idLists| {
      var n := |idLists| - 1;
      assert idLists[..n][..j] == idLists[..j];
      WordIdTableStops(idLists[..n], j);
    } else {
      assert idLists[..j] == idLists;
    }
  }

  /** One more entry's parameters after records that were written. */
  lemma ParamsFromSnoc(ps: seq<seq<int>>, w: nat)
    requires LexiconLayouts.Triples(ps) && w < |ps|
    requires LexiconLayouts.Triples(ps[..w]) && LexiconLayouts.ParamsFrom(ps[..w]).Ok?
    ensures LexiconLayouts.Triples(ps[..w + 1])
    ensures LexiconLayouts.ParamBytes(ps[w]).Err? ==> LexiconLayouts.ParamsFrom(ps[..w + 1]).Err?
    ensures LexiconLayouts.ParamBytes(ps[w]).Ok? ==>
              LexiconLayouts.ParamsFrom(ps[..w + 1])
              == Ok(LexiconLayouts.ParamsFrom(ps[..w]).value + LexiconLayouts.ParamBytes(ps[w]).value)
  {
    assert ps[..w + 1][..w] == ps[..w];
  }

  /** Once an entry's parameters fail, the whole block fails. */
  lemma {:induction false} ParamsFromStops(ps: seq<seq<int>>, j: nat)
    requires LexiconLayouts.Triples(ps) && j <= |ps|
    requires LexiconLayouts.Triples(ps[..j]) && LexiconLayouts.ParamsFrom(ps[..j]).Err?
    ensures LexiconLayouts.ParamsBytes(ps).Err?
  {
    ParamsFromStopsAt(ps, j);
  }

  lemma {:induction false} ParamsFromStopsAt(ps: seq<seq<int>>, j: nat)
    requires LexiconLayouts.Triples(ps) && j <= |ps|
    requires LexiconLayouts.Triples(ps[..j]) && LexiconLayouts.ParamsFrom(ps[..j]).Err?
    ensures LexiconLayouts.ParamsFrom(ps).Err?
  {
    if j < |ps| {
      var n := |ps| - 1;
      assert ps[..n][..j] == ps[..j];
      ParamsFromStopsAt(ps[..n], j);
    } else {
      assert ps[..j] == ps;
    }
  }

  /** Every failure of the parameter writers is the same OverflowError. */
  lemma ParamsBytesError(ps: seq<seq<int>>)
    requires LexiconLayouts.Triples(ps)
    ensures LexiconLayouts.ParamsBytes(ps).Err? ==> LexiconLayouts.ParamsBytes(ps).error == OVERFLOW
  {
    IntFieldWidths(|ps|);
    ParamsFromError(ps);
  }

  lemma {:induction false} ParamsFromError(ps: seq<seq<int>>)
    requires LexiconLayouts.Triples(ps)
    ensures LexiconLayouts.ParamsFrom(ps).Err? ==> LexiconLayouts.ParamsFrom(ps).error == OVERFLOW
  {
    if ps != [] {
      var n := |ps| - 1;
      ParamsFromError(ps[..n]);
      IntFieldWidths(ps[n][0]);
      IntFieldWidths(ps[n][1]);
      IntFieldWidths(ps[n][2]);
    }
  }

  /** What `self.logger('.')` raises: the builder's logger is a
      logging.Logger, which cannot be called. */
  const LOGGER_NOT_CALLABLE: Error := TypeError("'Logger' object is not callable")

  /** progress_func's test `n % (s / 10 + 1) == 0`. The divisor is the float
      (s + 10) / 10; when s + 10 is a multiple of 5 it is q / 2 with
      q = (s + 10) / 5, held exactly, and the test is `2 * n % q == 0`. For
      every other s the divisor is no binary fraction, and the float
      remainder is taken as never 0. */
  predicate ProgressDot(n: nat, s: nat)
  {
    (s + 10) % 5 == 0 && (2 * n) % ((s + 10) / 5) == 0
  }

  /** Whether one of the calls progress_func(m, s), m from n up to s - 1,
      reaches `self.logger('.')`. */
  predicate ProgressRaisesFrom(n: nat, s: nat)
    decreases s - n
  {
    n < s && (ProgressDot(n, s) || ProgressRaisesFrom(n + 1, s))
  }

  /** Whether building the trie over k keys raises: build_dawg calls
      progress_func(i + 1, k + 1) after inserting key i. */
  predicate ProgressRaises(k: nat)
  {
    ProgressRaisesFrom(1, k + 1)
  }

  lemma {:induction false} DotReached(n: nat, m: nat, s: nat)
    requires n <= m < s && ProgressDot(m, s)
    ensures ProgressRaisesFrom(n, s)
    decreases m - n
  {
    if n < m {
      DotReached(n + 1, m, s);
    }
  }

  lemma {:induction false} DotNeedsFive(n: nat, s: nat)
    requires ProgressRaisesFrom(n, s)
    ensures (s + 10) % 5 == 0
    decreases s - n
  {
    if !ProgressDot(n, s) {
      DotNeedsFive(n + 1, s);
    }
  }

  /** The trie build of write_lexicon raises TypeError exactly when the
      number of keys is 4 more than a multiple of 5: then the call
      ((k + 11) / 5, k + 1) divides evenly, and for no other count does any
      call. */
  lemma ProgressRaisesExactly(k: nat)
    ensures ProgressRaises(k) <==> k % 5 == 4
  {
    if k % 5 == 4 {
      var q := (k + 11) / 5;
      assert (2 * q) % q == 0;
      DotReached(1, q, k + 1);
    }
    if ProgressRaises(k) {
      DotNeedsFive(1, k + 1);
    }
  }

  /** write_lexicon's outcome: the table's errors, then the progress
      function's TypeError, then the block's own outcome. */
  function LexiconOutcome(units: seq<nat>, idLists: seq<seq<nat>>, ps: seq<seq<int>>, k: nat): (r: Result<seq<byte>>)
    requires forall i :: 0 <= i < |units| ==> units[i] < Pow256(4)
    requires LexiconLayouts.Triples(ps)
  {
    if LexiconLayouts.WordIdTableOf(idLists).Ok? && ProgressRaises(k) then Err(LOGGER_NOT_CALLABLE)
    else LexiconLayouts.LexiconBytes(units, idLists, ps)
  }

  /** write_lexicon's outcome, step by step: the table's errors first, then
      an unit count or table size too big for an 'int', then the
      parameters' errors; written, the pieces in order. */
  lemma LexiconSteps(units: seq<nat>, idLists: seq<seq<nat>>, ps: seq<seq<int>>)
    requires forall i :: 0 <= i < |units| ==> units[i] < Pow256(4)
    requires LexiconLayouts.Triples(ps)
    ensures LexiconLayouts.WordIdTableOf(idLists).Err? ==>
              LexiconLayouts.LexiconBytes(units, idLists, ps) == Err(LexiconLayouts.WordIdTableOf(idLists).error)
    ensures LexiconLayouts.WordIdTableOf(idLists).Ok? ==>
              ((!Fits(|units|, 4, true) || !Fits(|LexiconLayouts.WordIdTableOf(idLists).value.0|, 4, true)) ==>
                 LexiconLayouts.LexiconBytes(units, idLists, ps) == Err(OVERFLOW))
    ensures LexiconLayouts.WordIdTableOf(idLists).Ok? && Fits(|units|, 4, true)
            && Fits(|LexiconLayouts.WordIdTableOf(idLists).value.0|, 4, true) ==>
              (LexiconLayouts.ParamsBytes(ps).Err? ==>
                 LexiconLayouts.LexiconBytes(units, idLists, ps) == Err(LexiconLayouts.ParamsBytes(ps).error))
              && (LexiconLayouts.ParamsBytes(ps).Ok? ==>
                    LexiconLayouts.LexiconBytes(units, idLists, ps)
                    == Ok(ToBytes(|units|, 4, true).value + LexiconLayouts.UnitsBytes(units)
                          + ToBytes(|LexiconLayouts.WordIdTableOf(idLists).value.0|, 4, true).value
                          + LexiconLayouts.WordIdTableOf(idLists).value.0 + LexiconLayouts.ParamsBytes(ps).value))
  {
    IntFieldWidths(|units|);
    if LexiconLayouts.WordIdTableOf(idLists).Ok? {
      IntFieldWidths(|LexiconLayouts.WordIdTableOf(idLists).value.0|);
    }
  }

  // ---- the word-information block -----------------------------------------------

  /** The record write_wordinfo writes for entry `e`, and the part-of-speech
      table after parse_splitinfo has resolved its three split columns in
      turn (a reference's part of speech can join the table). */
  function EntryRecord(kind: Kind, table: seq<string>, entries: seq<WordEntry>, e: WordEntry)
    : (Result<seq<byte>>, seq<string>)
  {
    var (a, t1) := SplitInfoOf(kind, table, entries, e.aSplit);
    var (b, t2) := SplitInfoOf(kind, t1, entries, e.bSplit);
    var (c, t3) := SplitInfoOf(kind, t2, entries, e.cSplit);
    (RecordBytes(e.wordInfo, a, b, c), t3)
  }

  /** How write_wordinfo's loop turns one entry into its record, given the
      table so far: EntryRecord, for the builder's kind and entries. */
  type RecordStep = (seq<string>, WordEntry) -> (Result<seq<byte>>, seq<string>)

  function StepOf(kind: Kind, entries: seq<WordEntry>): (r: RecordStep)
  {
    (t, e) => EntryRecord(kind, t, entries, e)
  }

  /** The records of `es` in order, the table threaded from one to the next. */
  function RecordsFrom(step: RecordStep, table: seq<string>, es: seq<WordEntry>)
    : (r: (seq<Result<seq<byte>>>, seq<string>))
    ensures |r.0| == |es|
  {
    if es == [] then ([], table)
    else
      var n := |es| - 1;
      var (front, t) := RecordsFrom(step, table, es[..n]);
      var (rec, t2) := step(t, es[n]);
      (front + [rec], t2)
  }

  /** The word-information area write_wordinfo writes for the first w
      entries when the records start at `start`. */
  function AreaUpTo(step: RecordStep, table: seq<string>, entries: seq<WordEntry>, start: nat, w: nat)
    : Result<(seq<nat>, seq<byte>)>
    requires w <= |entries|
  {
    LexiconLayouts.AreaFrom(start, RecordsFrom(step, table, entries[..w]).0)
  }

  /** The records of a prefix are a prefix of the records. */
  lemma {:induction false} RecordsPrefix(step: RecordStep, table: seq<string>, es: seq<WordEntry>, j: nat)
    requires j <= |es|
    ensures RecordsFrom(step, table, es[..j]).0 == RecordsFrom(step, table, es).0[..j]
  {
    if j < |es| {
      var n := |es| - 1;
      assert es[..n][..j] == es[..j];
      RecordsPrefix(step, table, es[..n], j);
    } else {
      assert es[..j] == es;
    }
  }

  /** One more entry's record, `rec`, after w written ones. */
  lemma AreaSnoc(step: RecordStep, table: seq<string>, entries: seq<WordEntry>, start: nat, w: nat,
                 rec: Result<seq<byte>>, t: seq<string>, w': nat, front: (seq<nat>, seq<byte>), pos: nat)
    requires w < |entries| && w' == w + 1 && AreaUpTo(step, table, entries, start, w) == Ok(front)
    requires step(RecordsFrom(step, table, entries[..w]).1, entries[w]) == (rec, t)
    requires pos == start + |front.1|
    ensures w' <= |entries| && RecordsFrom(step, table, entries[..w']).1 == t
    ensures !Fits(pos, 4, true) ==> AreaUpTo(step, table, entries, start, w') == Err(ToBytes(pos, 4, true).error)
    ensures Fits(pos, 4, true) && rec.Err? ==> AreaUpTo(step, table, entries, start, w') == Err(rec.error)
    ensures Fits(pos, 4, true) && rec.Ok? ==>
              AreaUpTo(step, table, entries, start, w') == Ok((front.0 + [pos], front.1 + rec.value))
  {
    var es := entries[..w'];
    assert es[..w] == entries[..w];
    var recs := RecordsFrom(step, table, es).0;
    assert recs[..w] == RecordsFrom(step, table, entries[..w]).0 && recs[w] == rec;
  }

  /** write_wordinfo's loop after the first w entries, whose records start
      at `start` on a stream that held `o`: `table` is the part-of-speech
      table parse_splitinfo has threaded through their split columns, the
      position table `offb` holds their record positions, the stream `ob`
      holds their records from `start` on, and its cursor `op` is after
      them. */
  ghost predicate PlacedState(step: RecordStep, entries: seq<WordEntry>, table: seq<string>, ob: seq<byte>, op: nat,
                              offb: seq<byte>, w: nat, t0: seq<string>, start: nat, o: seq<byte>)
  {
    && w <= |entries|
    && table == RecordsFrom(step, t0, entries[..w]).1
    && AreaUpTo(step, t0, entries, start, w).Ok?
    && IntsBytes(AreaUpTo(step, t0, entries, start, w).value.0) == Ok(offb)
    && ob == JTypedByteBuffers.Written(o, start, AreaUpTo(step, t0, entries, start, w).value.1)
    && op == start + |AreaUpTo(step, t0, entries, start, w).value.1|
  }

  /** One more record placed: its position appended to the position table,
      the record written at the cursor. */
  lemma PlacedNext(step: RecordStep, entries: seq<WordEntry>, table: seq<string>, ob: seq<byte>, op: nat,
                   offb: seq<byte>, w: nat, t0: seq<string>, start: nat, o: seq<byte>,
                   x: (Result<seq<byte>>, seq<string>),
                   table': seq<string>, ob': seq<byte>, op': nat, offb': seq<byte>, w': nat)
    requires PlacedState(step, entries, table, ob, op, offb, w, t0, start, o) && w < |entries|
    requires x == step(table, entries[w]) && x.0.Ok? && Fits(op, 4, true)
    requires table' == x.1 && ob' == JTypedByteBuffers.Written(ob, op, x.0.value) && op' == op + |x.0.value|
    requires offb' == offb + ToBytes(op, 4, true).value && w' == w + 1
    ensures PlacedState(step, entries, table', ob', op', offb', w', t0, start, o)
  {
    var area := AreaUpTo(step, t0, entries, start, w).value;
    var ps, bs := area.0 + [op], area.1 + x.0.value;
    PlacedArea(step, entries, table, w, t0, start, x, area, op, ps, bs, w');
    JTypedByteBuffers.WrittenTwice(o, start, area.1, x.0.value);
    PlacedOffsets(area.0, offb, op, ps, offb');
  }

  /** The area of one more entry: its position and its record appended. */
  lemma PlacedArea(step: RecordStep, entries: seq<WordEntry>, table: seq<string>, w: nat, t0: seq<string>,
                   start: nat, x: (Result<seq<byte>>, seq<string>), area: (seq<nat>, seq<byte>), op: nat,
                   ps: seq<nat>, bs: seq<byte>, w': nat)
    requires w < |entries| && table == RecordsFrom(step, t0, entries[..w]).1
    requires AreaUpTo(step, t0, entries, start, w) == Ok(area) && op == start + |area.1|
    requires x == step(table, entries[w]) && x.0.Ok? && Fits(op, 4, true)
    requires ps == area.0 + [op] && bs == area.1 + x.0.value && w' == w + 1
    ensures w' <= |entries| && RecordsFrom(step, t0, entries[..w']).1 == x.1
    ensures AreaUpTo(step, t0, entries, start, w') == Ok((ps, bs))
  {
    AreaSnoc(step, t0, entries, start, w, x.0, x.1, w', area, op);
  }

  /** The position table of one more entry: its position's four bytes
      appended. */
  lemma PlacedOffsets(xs: seq<nat>, offb: seq<byte>, op: nat, ps: seq<nat>, offb': seq<byte>)
    requires IntsBytes(xs) == Ok(offb) && Fits(op, 4, true)
    requires ps == xs + [op] && offb' == offb + ToBytes(op, 4, true).value
    ensures IntsBytes(ps) == Ok(offb')
  {
    assert ps[..|xs|] == xs && ps[..|xs| + 1] == ps;
    IntsBytesSnoc(ps, |xs|);
  }

  /** A position too big for an 'int', or a record that fails, fails the
      whole area with that error. */
  lemma PlacedFails(step: RecordStep, entries: seq<WordEntry>, table: seq<string>, ob: seq<byte>, op: nat,
                    offb: seq<byte>, w: nat, t0: seq<string>, start: nat, o: seq<byte>,
                    x: (Result<seq<byte>>, seq<string>))
    requires PlacedState(step, entries, table, ob, op, offb, w, t0, start, o) && w < |entries|
    requires x == step(table, entries[w]) && (!Fits(op, 4, true) || x.0.Err?)
    ensures AreaUpTo(step, t0, entries, start, |entries|).Err?
    ensures !Fits(op, 4, true) ==>
              AreaUpTo(step, t0, entries, start, |entries|).error == OVERFLOW
    ensures Fits(op, 4, true) ==>
              AreaUpTo(step, t0, entries, start, |entries|).error == x.0.error
  {
    var w' := w + 1;
    AreaSnoc(step, t0, entries, start, w, x.0, x.1, w', AreaUpTo(step, t0, entries, start, w).value, op);
    IntFieldWidths(op);
    AreaUpToStops(step, t0, entries, start, w');
  }

  /** Once an entry's position or record fails, the whole area fails the same way. */
  lemma {:induction false} AreaStops(start: nat, recs: seq<Result<seq<byte>>>, j: nat)
    requires j <= |recs| && LexiconLayouts.AreaFrom(start, recs[..j]).Err?
    ensures LexiconLayouts.AreaFrom(start, recs) == LexiconLayouts.AreaFrom(start, recs[..j])
  {
    if j < |recs| {
      var n := |recs| - 1;
      assert recs[..n][..j] == recs[..j];
      AreaStops(start, recs[..n], j);
    } else {
      assert recs[..j] == recs;
    }
  }

  /** The area of every entry fails as the area of the first j does, once that fails. */
  lemma AreaUpToStops(step: RecordStep, table: seq<string>, entries: seq<WordEntry>, start: nat, j: nat)
    requires j <= |entries| && AreaUpTo(step, table, entries, start, j).Err?
    ensures AreaUpTo(step, table, entries, start, |entries|) == AreaUpTo(step, table, entries, start, j)
  {
    RecordsPrefix(step, table, entries, j);
    assert entries[..|entries|] == entries;
    AreaStops(start, RecordsFrom(step, table, entries).0, j);
  }

  /** The word-information area of a builder's entries, for a stream at
      position `mark`. */
  function WordInfoArea(kind: Kind, table: seq<string>, entries: seq<WordEntry>, mark: nat)
    : Result<(seq<nat>, seq<byte>)>
  {
    AreaUpTo(StepOf(kind, entries), table, entries, LexiconLayouts.WordInfoStart(mark, |entries|), |entries|)
  }

  /** The record's outcome field by field: the first failing write gives
      the error; written, the fields in order. */
  lemma RecordSteps(wi: WordInfoLists.WordInfo, a: Result<SplitInfo>, b: Result<SplitInfo>, c: Result<SplitInfo>)
    ensures HeadBytes(wi.surface, wi.headWordLength, wi.posId).Err? ==>
              RecordBytes(wi, a, b, c) == Err(HeadBytes(wi.surface, wi.headWordLength, wi.posId).error)
    ensures HeadBytes(wi.surface, wi.headWordLength, wi.posId).Ok? ==>
              var forms := FormsBytes(Stored(wi.normalizedForm, wi.surface), wi.dictionaryFormWordId,
                                      Stored(wi.readingForm, wi.surface));
              (forms.Err? ==> RecordBytes(wi, a, b, c) == Err(forms.error))
              && (forms.Ok? ==> RecordBytes(wi, a, b, c)
                                == SplitsAfter(HeadBytes(wi.surface, wi.headWordLength, wi.posId).value + forms.value,
                                               a, b, c))
  {
    var head := HeadBytes(wi.surface, wi.headWordLength, wi.posId);
    var forms := FormsBytes(Stored(wi.normalizedForm, wi.surface), wi.dictionaryFormWordId,
                            Stored(wi.readingForm, wi.surface));
    if head.Ok? && forms.Ok? && a.Ok? && SplitBytes(a.value).Ok? && b.Ok? && SplitBytes(b.value).Ok?
       && c.Ok? && SplitBytes(c.value).Ok? {
      var x := SplitBytes(a.value).value;
      var y := SplitBytes(b.value).value;
      var z := SplitBytes(c.value).value;
      assert head.value + (forms.value + (x + y + z)) == head.value + forms.value + (x + y + z);
    }
  }

  /** The split arrays after the written fields `front`, in order. */
  function SplitsAfter(front: seq<byte>, a: Result<SplitInfo>, b: Result<SplitInfo>, c: Result<SplitInfo>)
    : (r: Result<seq<byte>>)
  {
    var sa :- a;
    var aBytes :- SplitBytes(sa);
    var sb :- b;
    var bBytes :- SplitBytes(sb);
    var sc :- c;
    var cBytes :- SplitBytes(sc);
    Ok(front + (aBytes + bBytes + cBytes))
  }

  /** A split array after the bytes written so far. */
  lemma SplitAfterStep(front: seq<byte>, a: Result<SplitInfo>, b: Result<SplitInfo>, c: Result<SplitInfo>)
    requires a.Ok? && SplitBytes(a.value).Ok?
    ensures SplitsAfter(front, a, b, c) == SplitsAfter2(front + SplitBytes(a.value).value, b, c)
  {
    var x := SplitBytes(a.value).value;
    if b.Ok? && SplitBytes(b.value).Ok? && c.Ok? && SplitBytes(c.value).Ok? {
      var y := SplitBytes(b.value).value;
      var z := SplitBytes(c.value).value;
      assert front + (x + y + z) == front + x + (y + z);
    }
  }

  function SplitsAfter2(front: seq<byte>, b: Result<SplitInfo>, c: Result<SplitInfo>): (r: Result<seq<byte>>)
  {
    var sb :- b;
    var bBytes :- SplitBytes(sb);
    var sc :- c;
    var cBytes :- SplitBytes(sc);
    Ok(front + (bBytes + cBytes))
  }

  lemma SplitAfterStep2(front: seq<byte>, b: Result<SplitInfo>, c: Result<SplitInfo>)
    requires b.Ok? && SplitBytes(b.value).Ok?
    ensures c.Err? ==> SplitsAfter2(front, b, c) == Err(c.error)
    ensures c.Ok? && SplitBytes(c.value).Err? ==> SplitsAfter2(front, b, c) == Err(SplitBytes(c.value).error)
    ensures c.Ok? && SplitBytes(c.value).Ok? ==>
              SplitsAfter2(front, b, c) == Ok(front + SplitBytes(b.value).value + SplitBytes(c.value).value)
  {
    if c.Ok? && SplitBytes(c.value).Ok? {
      var y := SplitBytes(b.value).value;
      var z := SplitBytes(c.value).value;
      assert front + (y + z) == front + y + z;
    }
  }

  /** What convert_matrix produces from a matrix file's header and other
      lines: the header's sizes as two 'short's, for the byte buffer, and
      the converted matrix. */
  function ConvertedMatrix(header: string, body: seq<string>): (r: Result<(seq<byte>, seq<byte>)>)
  {
    var sizes :- DictionaryBlocks.MatrixHeader(header);
    var left :- IntField(sizes.0, "short");
    var right :- IntField(sizes.1, "short");
    var m :- DictionaryBlocks.MatrixFrom(sizes.0, body);
    Ok((left + right, m))
  }

  /** After a table that was written, the grammar block with a matrix file
      is the table followed by what convert_matrix produces, and fails as
      convert_matrix fails. */
  lemma MatrixGrammarFromParts(posList: seq<string>, header: string, body: seq<string>)
    requires DictionaryBlocks.PosTableBytes(posList).Ok?
    ensures DictionaryBlocks.MatrixGrammarBytes(posList, header, body).Ok? <==> ConvertedMatrix(header, body).Ok?
    ensures ConvertedMatrix(header, body).Err? ==>
              DictionaryBlocks.MatrixGrammarBytes(posList, header, body).error == ConvertedMatrix(header, body).error
    ensures ConvertedMatrix(header, body).Ok? ==>
              DictionaryBlocks.MatrixGrammarBytes(posList, header, body).value
              == DictionaryBlocks.PosTableBytes(posList).value + ConvertedMatrix(header, body).value.0
                 + ConvertedMatrix(header, body).value.1
  {
    var sizes := DictionaryBlocks.MatrixHeader(header);
    if sizes.Ok? {
      MatrixGrammarSized(posList, header, body, DictionaryBlocks.PosTableBytes(posList).value,
                         sizes.value.0, sizes.value.1);
    }
  }

  /** MatrixGrammarFromParts once the header gave the two sizes. */
  lemma MatrixGrammarSized(posList: seq<string>, header: string, body: seq<string>, table: seq<byte>, l: int, r: int)
    requires DictionaryBlocks.PosTableBytes(posList) == Ok(table) && DictionaryBlocks.MatrixHeader(header) == Ok((l, r))
    ensures DictionaryBlocks.MatrixGrammarBytes(posList, header, body).Ok? <==> ConvertedMatrix(header, body).Ok?
    ensures ConvertedMatrix(header, body).Err? ==>
              DictionaryBlocks.MatrixGrammarBytes(posList, header, body).error == ConvertedMatrix(header, body).error
    ensures ConvertedMatrix(header, body).Ok? ==>
              DictionaryBlocks.MatrixGrammarBytes(posList, header, body).value
              == table + ConvertedMatrix(header, body).value.0 + ConvertedMatrix(header, body).value.1
  {
    if IntField(l, "short").Ok? && IntField(r, "short").Ok? {
      MatrixGrammarFields(posList, header, body, table, l, r, IntField(l, "short").value, IntField(r, "short").value);
    }
  }

  /** MatrixGrammarFromParts once both sizes fit a 'short'. */
  lemma MatrixGrammarFields(posList: seq<string>, header: string, body: seq<string>, table: seq<byte>, l: int, r: int,
                            left: seq<byte>, right: seq<byte>)
    requires DictionaryBlocks.PosTableBytes(posList) == Ok(table) && DictionaryBlocks.MatrixHeader(header) == Ok((l, r))
    requires IntField(l, "short") == Ok(left) && IntField(r, "short") == Ok(right)
    ensures DictionaryBlocks.MatrixGrammarBytes(posList, header, body).Ok? <==> ConvertedMatrix(header, body).Ok?
    ensures ConvertedMatrix(header, body).Err? ==>
              DictionaryBlocks.MatrixGrammarBytes(posList, header, body).error == ConvertedMatrix(header, body).error
    ensures ConvertedMatrix(header, body).Ok? ==>
              DictionaryBlocks.MatrixGrammarBytes(posList, header, body).value
              == table + ConvertedMatrix(header, body).value.0 + ConvertedMatrix(header, body).value.1
  {
    var m := DictionaryBlocks.MatrixFrom(l, body);
    assert DictionaryBlocks.GrammarHead(posList, l, r) == Ok(table + left + right);
    if m.Ok? {
      assert ConvertedMatrix(header, body) == Ok((left + right, m.value));
      assert DictionaryBlocks.MatrixGrammarBytes(posList, header, body) == Ok(table + left + right + m.value);
      AppendAssoc(table, left, right);
    } else {
      assert ConvertedMatrix(header, body) == Err(m.error);
      assert DictionaryBlocks.MatrixGrammarBytes(posList, header, body) == Err(m.error);
    }
  }

  /** One more matrix line after lines that converted. */
  lemma CellsFromSnoc(parse: string -> Result<DictionaryBlocks.MatrixLine>, lsize: int, lines: seq<string>, i: nat)
    requires i < |lines| && DictionaryBlocks.CellsFrom(parse, lsize, lines[..i]).Ok?
    ensures parse(lines[i]).Err? ==>
              DictionaryBlocks.CellsFrom(parse, lsize, lines[..i + 1]) == Err(parse(lines[i]).error)
    ensures parse(lines[i]).Ok? ==>
              DictionaryBlocks.CellsFrom(parse, lsize, lines[..i + 1])
              == DictionaryBlocks.WriteCell(DictionaryBlocks.CellsFrom(parse, lsize, lines[..i]).value, lsize,
                                            parse(lines[i]).value)
  {
    assert lines[..i + 1][..i] == lines[..i];
  }

  /** Once a matrix line fails, the later lines change nothing. */
  lemma {:induction false} CellsFromStops(parse: string -> Result<DictionaryBlocks.MatrixLine>, lsize: int,
                                          lines: seq<string>, j: nat)
    requires j <= |lines| && DictionaryBlocks.CellsFrom(parse, lsize, lines[..j]).Err?
    ensures DictionaryBlocks.CellsFrom(parse, lsize, lines) == DictionaryBlocks.CellsFrom(parse, lsize, lines[..j])
  {
    if j < |lines| {
      var n := |lines| - 1;
      assert lines[..n][..j] == lines[..j];
      CellsFromStops(parse, lsize, lines[..n], j);
    } else {
      assert lines[..j] == lines;
    }
  }

  /** One more string after strings that were written. */
  lemma StringsBytesSnoc(texts: seq<string>, i: nat)
    requires i < |texts| && DictionaryBlocks.StringsBytes(texts[..i]).Ok?
    ensures DictionaryBlocks.StringsBytes(texts[..i + 1]).Ok? <==> StringBytes(texts[i]).Ok?
    ensures DictionaryBlocks.StringsBytes(texts[..i + 1]).Ok? ==>
              DictionaryBlocks.StringsBytes(texts[..i + 1]).value
              == DictionaryBlocks.StringsBytes(texts[..i]).value + StringBytes(texts[i]).value
  {
    assert texts[..i + 1][..i] == texts[..i];
  }

  /** One more table entry after entries that were written. */
  lemma PosStringsBytesSnoc(posList: seq<string>, k: nat)
    requires k < |posList| && DictionaryBlocks.PosStringsBytes(posList[..k]).Ok?
    ensures DictionaryBlocks.PosStringsBytes(posList[..k + 1]).Ok?
            <==> DictionaryBlocks.StringsBytes(Texts.Split(posList[k], ",")).Ok?
    ensures DictionaryBlocks.PosStringsBytes(posList[..k + 1]).Ok? ==>
              DictionaryBlocks.PosStringsBytes(posList[..k + 1]).value
              == DictionaryBlocks.PosStringsBytes(posList[..k]).value
                 + DictionaryBlocks.StringsBytes(Texts.Split(posList[k], ",")).value
  {
    assert posList[..k + 1][..k] == posList[..k];
  }

  /** One more value of an int array whose front was written. */
  lemma IntsBytesSnoc(xs: seq<int>, i: nat)
    requires i < |xs| && IntsBytes(xs[..i]).Ok?
    ensures JTypedByteBuffers.IntBytes(xs[i], "int", true) == ToBytes(xs[i], 4, true)
    ensures IntsBytes(xs[..i + 1]).Ok? <==> Fits(xs[i], 4, true)
    ensures IntsBytes(xs[..i + 1]).Ok? ==>
              IntsBytes(xs[..i + 1]).value == IntsBytes(xs[..i]).value + ToBytes(xs[i], 4, true).value
    ensures !Fits(xs[i], 4, true) ==> IntsBytes(xs).Err?
  {
    assert xs[..i + 1][..i] == xs[..i];
    IntFieldWidths(xs[i]);
  }

  /** Every failure of the int writers is the same OverflowError. */
  lemma {:induction false} IntsBytesError(xs: seq<int>)
    ensures IntsBytes(xs).Err? ==> IntsBytes(xs).error == OverflowError("int too big to convert")
  {
    if xs != [] {
      IntsBytesError(xs[..|xs| - 1]);
      IntFieldWidths(xs[|xs| - 1]);
    }
  }

  /** Once a row fails, the later rows change nothing. */
  lemma {:induction false} BuildRowsStops(kind: Kind, table: seq<string>, entries: seq<WordEntry>,
                                          rows: seq<seq<string>>, i: nat)
    requires i <= |rows| && BuildRows(kind, table, entries, rows[..i]).0.Err?
    ensures BuildRows(kind, table, entries, rows) == BuildRows(kind, table, entries, rows[..i])
  {
    if i < |rows| {
      assert rows[..|rows| - 1][..i] == rows[..i];
      BuildRowsStops(kind, table, entries, rows[..|rows| - 1], i);
    } else {
      assert rows[..i] == rows;
    }
  }

  // ---- word ids ---------------------------------------------------------------------

  /** An entry get_wordid accepts: same surface, part of speech and reading. */
  predicate Matches(e: WordEntry, headword: string, posId: nat, reading: string)
  {
    e.wordInfo.surface == headword && e.wordInfo.posId == posId && e.wordInfo.readingForm == reading
  }

  /** The first entry that matches, or -1 when none does. */
  function FirstMatch(entries: seq<WordEntry>, headword: string, posId: nat, reading: string): (r: int)
    ensures -1 <= r < |entries|
    ensures r >= 0 ==> Matches(entries[r], headword, posId, reading)
    ensures forall k :: 0 <= k < |entries| && (r < 0 || k < r) ==> !Matches(entries[k], headword, posId, reading)
  {
    if entries == [] then -1
    else if Matches(entries[0], headword, posId, reading) then 0
    else
      var r := FirstMatch(entries[1..], headword, posId, reading);
      if r < 0 then -1 else r + 1
  }

  /** get_wordid: the local index (system builder), or the user builder's
      flagged id or error. */
  function WordIdOf(kind: Kind, entries: seq<WordEntry>, headword: string, posId: nat, reading: string)
    : (r: Result<int>)
  {
    var local := FirstMatch(entries, headword, posId, reading);
    match kind
    case SystemDictionary => Ok(local)
    case UserDictionary(_, _) => UserDictionaryBuilders.GetWordId(local)
  }

  /** check_wordid against `size` local entries: the system builder accepts
      exactly the ids of its entries; the user builder follows its override. */
  function CheckWordIdOf(kind: Kind, wid: int, size: nat): (r: Result<()>)
  {
    match kind
    case SystemDictionary => if wid < 0 || wid >= size then Err(ValueError("invalid word ID")) else Ok(())
    case UserDictionary(_, sizeCall) => UserDictionaryBuilders.CheckWordId(wid, size, sizeCall)
  }

  /** The ids check_wordid lets through: an entry's index for the system
      builder; for the user builder a flagged id whose low 28 bits index an
      entry, or an unflagged one below the system lexicon's size when its
      `size()` call answers (when the call raises, no unflagged id passes). */
  lemma CheckWordIdAccepts(kind: Kind, wid: int, size: nat)
    ensures kind.SystemDictionary? ==> (CheckWordIdOf(kind, wid, size).Ok? <==> 0 <= wid < size)
    ensures kind.UserDictionary? ==>
              (CheckWordIdOf(kind, wid, size).Ok? <==>
                 (wid >= USER_ID_FLAG && wid % USER_ID_FLAG < size)
                 || (0 <= wid < USER_ID_FLAG && kind.systemSize.Ok? && wid < kind.systemSize.value))
    ensures CheckWordIdOf(kind, wid, size).Err?
            && (kind.SystemDictionary? || wid < 0 || wid >= USER_ID_FLAG || kind.systemSize.Ok?) ==>
              CheckWordIdOf(kind, wid, size).error.ValueError?
  {
    if kind.UserDictionary? {
      UserDictionaryBuilders.CheckWordIdAsWritten(wid, size, kind.systemSize);
      if kind.systemSize.Ok? {
        UserDictionaryBuilders.IntendedCheckAccepts(wid, size, kind.systemSize.value);
      }
    }
  }

  // ---- split columns ----------------------------------------------------------------

  predicate IsDigit(c: char)
  {
    '0' <= c <= '9'
  }

  /** __is_id: the text starts with a digit, optionally after a 'U'. The
      digits are ASCII; `\d` in Python's `re` also matches other Unicode
      decimal digits. */
  predicate IsId(text: string)
  {
    |text| > 0 && (IsDigit(text[0]) || (text[0] == 'U' && |text| > 1 && IsDigit(text[1])))
  }

  /** `int()` of a text that starts with a digit is never negative. */
  lemma ParseIntOfDigits(s: string)
    requires |s| > 0 && IsDigit(s[0]) && Texts.ParseInt(s).Ok?
    ensures Texts.ParseInt(s).value >= 0
  {
    assert !Texts.StartsWith(s, "-");
  }

  /** The number after a 'U': flagged with bit 28 in a user dictionary. */
  function UserPrefixedId(kind: Kind, digits: string): (r: Result<int>)
    requires |digits| > 0 && IsDigit(digits[0])
  {
    var n :- Texts.ParseInt(digits);
    ParseIntOfDigits(digits);
    Ok(if kind.UserDictionary? then UserDictionaryBuilders.WithUserFlag(n) else n)
  }

  /** parse_id, then check_wordid on the id it made. */
  function ParseIdOf(kind: Kind, size: nat, text: string): (r: Result<int>)
    requires IsId(text)
  {
    var id :- if text[0] == 'U' then UserPrefixedId(kind, text[1..]) else Texts.ParseInt(text);
    var _ :- CheckWordIdOf(kind, id, size);
    Ok(id)
  }

  /** A printed index parses back to itself when it names an entry, and
      'U' before it adds the user flag in a user dictionary. */
  lemma ParseIdOfPrinted(kind: Kind, size: nat, n: nat)
    ensures IsId(Texts.IntToString(n)) && IsId("U" + Texts.IntToString(n))
    ensures kind.SystemDictionary? ==>
              ParseIdOf(kind, size, Texts.IntToString(n)) == (if n < size then Ok(n) else Err(ValueError("invalid word ID")))
              && ParseIdOf(kind, size, "U" + Texts.IntToString(n)) == ParseIdOf(kind, size, Texts.IntToString(n))
    ensures kind.UserDictionary? && n < USER_ID_FLAG ==>
              ParseIdOf(kind, size, "U" + Texts.IntToString(n))
              == (if n < size then Ok(n + USER_ID_FLAG) else Err(ValueError("invalid word ID")))
  {
    var s := Texts.IntToString(n);
    assert s[0] in s;
    Texts.ParseIntToString(n);
    assert ("U" + s)[1..] == s;
    if kind.UserDictionary? {
      CheckWordIdAccepts(kind, n + USER_ID_FLAG, size);
    }
  }

  /** word_to_id: a reference `headword,pos1..pos6,reading[,...]` resolved
      through get_posid and get_wordid (escapes are not expanded here). */
  function WordToIdOf(kind: Kind, table: seq<string>, entries: seq<WordEntry>, text: string)
    : (r: (Result<int>, seq<string>))
  {
    var cols := Texts.Split(text, ",");
    if |cols| < 8 then (Err(ValueError("too few columns")), table)
    else
      var (pos, t) := PosIdOf(kind, table, cols[1..7]);
      match pos
      case Err(e) => (Err(e), t)
      case Ok(posId) => (WordIdOf(kind, entries, cols[0], posId, cols[7]), t)
  }

  /** The units of a split column from `words[i]` on, after `ids`: an id
      text through parse_id, a reference through word_to_id; a reference
      that finds nothing ends the column with the ValueError object. */
  function SplitWordsFrom(kind: Kind, table: seq<string>, entries: seq<WordEntry>, words: seq<string>,
                          i: nat, ids: seq<int>): (r: (Result<SplitInfo>, seq<string>))
    requires i <= |words|
    decreases |words| - i
  {
    if i == |words| then (Ok(Ids(ids)), table)
    else if IsId(words[i]) then
      match ParseIdOf(kind, |entries|, words[i])
      case Err(e) => (Err(e), table)
      case Ok(id) => SplitWordsFrom(kind, table, entries, words, i + 1, ids + [id])
    else
      var (w, t) := WordToIdOf(kind, table, entries, words[i]);
      match w
      case Err(e) => (Err(e), t)
      case Ok(id) => if id < 0 then (Ok(NotFound), t) else SplitWordsFrom(kind, t, entries, words, i + 1, ids + [id])
  }

  /** parse_splitinfo: '*' is no units; more than 127 units raise. */
  function SplitInfoOf(kind: Kind, table: seq<string>, entries: seq<WordEntry>, info: string)
    : (r: (Result<SplitInfo>, seq<string>))
  {
    if info == "*" then (Ok(Ids([])), table)
    else
      var words := Texts.Split(info, "/");
      if |words| > ARRAY_MAX_LENGTH then (Err(ValueError("too many units")), table)
      else SplitWordsFrom(kind, table, entries, words, 0, [])
  }

  /** An id check_wordid accepts. */
  predicate ValidId(kind: Kind, id: int, size: nat)
  {
    CheckWordIdOf(kind, id, size).Ok?
  }

  /** Every id a split column yields passes check_wordid: ids written out
      are checked by parse_id, and a reference resolves to an entry. */
  lemma {:induction false} SplitWordsValid(kind: Kind, table: seq<string>, entries: seq<WordEntry>,
                                           words: seq<string>, i: nat, ids: seq<int>)
    requires i <= |words|
    requires kind.UserDictionary? ==> |entries| <= USER_ID_FLAG
    requires forall k :: 0 <= k < |ids| ==> ValidId(kind, ids[k], |entries|)
    ensures var r := SplitWordsFrom(kind, table, entries, words, i, ids).0;
            r.Ok? && r.value.Ids? ==>
              |r.value.ids| == |ids| + |words| - i
              && forall k :: 0 <= k < |r.value.ids| ==> ValidId(kind, r.value.ids[k], |entries|)
    decreases |words| - i
  {
    if i < |words| {
      if IsId(words[i]) {
        var p := ParseIdOf(kind, |entries|, words[i]);
        if p.Ok? {
          SplitWordsValid(kind, table, entries, words, i + 1, ids + [p.value]);
        }
      } else {
        var (w, t) := WordToIdOf(kind, table, entries, words[i]);
        if w.Ok? && w.value >= 0 {
          var cols := Texts.Split(words[i], ",");
          var (pos, _) := PosIdOf(kind, table, cols[1..7]);
          var local := FirstMatch(entries, cols[0], pos.value, cols[7]);
          if kind.UserDictionary? {
            UserDictionaryBuilders.GetWordIdAsWritten(local);
            CheckWordIdAccepts(kind, w.value, |entries|);
          }
          assert ValidId(kind, w.value, |entries|);
          SplitWordsValid(kind, t, entries, words, i + 1, ids + [w.value]);
        }
      }
    }
  }

  /** A column of printed entry indexes reads back as those indexes. */
  lemma {:induction false} PrintedSplitsParse(table: seq<string>, entries: seq<WordEntry>, words: seq<string>,
                                              i: nat, ids: seq<int>, ns: seq<nat>)
    requires i <= |words| == |ns|
    requires forall k :: 0 <= k < |ns| ==> ns[k] < |entries| && words[k] == Texts.IntToString(ns[k])
    requires ids == ns[..i]
    ensures SplitWordsFrom(SystemDictionary, table, entries, words, i, ids) == (Ok(Ids(ns)), table)
    decreases |words| - i
  {
    if i == |words| {
      assert ids == ns;
    } else {
      var ids' := ns[..i + 1];
      assert ids' == ids + [ns[i]];
      PrintedSplitStep(table, entries, words, i, ids, ns[i], ids');
      PrintedSplitsParse(table, entries, words, i + 1, ids', ns);
    }
  }

  /** One printed index of a split column reads back as itself. */
  lemma PrintedSplitStep(table: seq<string>, entries: seq<WordEntry>, words: seq<string>, i: nat, ids: seq<int>,
                         n: nat, ids': seq<int>)
    requires i < |words| && n < |entries| && words[i] == Texts.IntToString(n) && ids' == ids + [n]
    ensures SplitWordsFrom(SystemDictionary, table, entries, words, i, ids)
            == SplitWordsFrom(SystemDictionary, table, entries, words, i + 1, ids')
  {
    ParseIdOfPrinted(SystemDictionary, |entries|, n);
  }
}
