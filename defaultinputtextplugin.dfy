/** The default input-text plugin: replacement rules applied longest match
    first, then lower-casing and NFKC normalisation (Unicode Standard Annex
    #15, section 1.2) of every other character, written into the input
    text builder so that the map to the original text follows. */
module DefaultInputTextPlugins {
  import opened Wrappers
  import opened Texts
  import opened InputTextBuilders

  /** The rules read from the rewrite definition. */
  datatype RewriteRules = RewriteRules(
    ignoreNormalizeSet: set<string>,
    keyLengths: map<char, nat>,
    replaceCharMap: map<string, string>)

  const NO_RULES := RewriteRules({}, map[], map[])

  /** `str.lower` and `unicodedata.normalize("NFKC", _)`, which the model
      takes as given. */
  datatype CaseMaps = CaseMaps(lower: char -> string, nfkc: string -> string)

  /** `key_lengths[c]` is the length of the longest replacement key that
      starts with `c`, and only starting characters of keys have an entry. */
  predicate KeyLengthsExact(rules: RewriteRules)
  {
    (forall k :: k in rules.replaceCharMap ==>
       |k| >= 1 && k[0] in rules.keyLengths && |k| <= rules.keyLengths[k[0]])
    && (forall c :: c in rules.keyLengths ==>
          exists k :: k in rules.replaceCharMap && |k| >= 1 && k[0] == c && |k| == rules.keyLengths[c])
  }

  /** Adds the replacement `key -> value`, raising `key_lengths[key[0]]`
      to `|key|` when that is longer. */
  function AddReplacement(rules: RewriteRules, key: string, value: string): (r: RewriteRules)
    requires |key| >= 1
    ensures r.replaceCharMap == rules.replaceCharMap[key := value]
    ensures r.ignoreNormalizeSet == rules.ignoreNormalizeSet
  {
    var known := if key[0] in rules.keyLengths then rules.keyLengths[key[0]] else 0;
    var lengths := if known < |key| then rules.keyLengths[key[0] := |key|] else rules.keyLengths;
    RewriteRules(rules.ignoreNormalizeSet, lengths, rules.replaceCharMap[key := value])
  }

  lemma AddReplacementKeepsExact(rules: RewriteRules, key: string, value: string)
    requires |key| >= 1 && KeyLengthsExact(rules)
    ensures KeyLengthsExact(AddReplacement(rules, key, value))
  {
    var r := AddReplacement(rules, key, value);
    var known := if key[0] in rules.keyLengths then rules.keyLengths[key[0]] else 0;
    forall c | c in r.keyLengths
      ensures exists k :: k in r.replaceCharMap && |k| >= 1 && k[0] == c && |k| == r.keyLengths[c]
    {
      if c == key[0] && known < |key| {
        assert key in r.replaceCharMap;
      } else {
        var k :| k in rules.replaceCharMap && |k| >= 1 && k[0] == c && |k| == rules.keyLengths[c];
        assert k in r.replaceCharMap;
      }
    }
  }

  /** The shape of one line of the rewrite definition: blank or comment,
      one column, two columns, or some other number of columns. */
  datatype RewriteLine = Skip | OneColumn(key: string) | TwoColumns(key: string, value: string) | OtherColumns

  function ParseRewriteLine(raw: string): (r: RewriteLine)
  {
    var line := Strip(raw);
    if line == "" || StartsWith(line, "#") then Skip
    else
      var cols := SplitSpaces(line);
      if |cols| == 1 then OneColumn(cols[0])
      else if |cols| == 2 then TwoColumns(cols[0], cols[1])
      else OtherColumns
  }

  function NotCharacter(key: string, lineNo: nat): (r: Error)
  {
    RuntimeError(key + " is not character at line " + NatToString(lineNo))
  }

  function AlreadyDefined(key: string, lineNo: nat): (r: Error)
  {
    RuntimeError(key + " is already defined at line " + NatToString(lineNo))
  }

  function InvalidFormat(lineNo: nat): (r: Error)
  {
    RuntimeError("invalid format at line " + NatToString(lineNo))
  }

  /** What one line of the rewrite definition (numbered from 0) does to the
      rules: a blank or comment line nothing, one column a character exempt
      from normalisation, two columns a replacement; anything else, a
      longer exempt entry or a key defined twice is a RuntimeError. */
  function ReadLine(rules: RewriteRules, line: RewriteLine, lineNo: nat): (r: Result<RewriteRules>)
  {
    if line.Skip? then Ok(rules)
    else if line.OneColumn? then
      if |line.key| != 1 then Err(NotCharacter(line.key, lineNo))
      else Ok(rules.(ignoreNormalizeSet := rules.ignoreNormalizeSet + {line.key}))
    else if line.TwoColumns? then
      if line.key in rules.replaceCharMap then Err(AlreadyDefined(line.key, lineNo))
      else if |line.key| == 0 then Err(OUT_OF_RANGE)
      else Ok(AddReplacement(rules, line.key, line.value))
    else Err(InvalidFormat(lineNo))
  }

  /** Reading a line keeps `key_lengths` exact. */
  lemma ReadLineKeepsExact(rules: RewriteRules, line: RewriteLine, lineNo: nat)
    requires KeyLengthsExact(rules) && ReadLine(rules, line, lineNo).Ok?
    ensures KeyLengthsExact(ReadLine(rules, line, lineNo).value)
  {
    match line
    case TwoColumns(key, value) => AddReplacementKeepsExact(rules, key, value);
    case _ =>
  }

  /** The shapes of the lines of a rewrite definition. */
  function ParseRewriteLines(lines: seq<string>): (r: seq<RewriteLine>)
    ensures |r| == |lines|
    ensures forall i :: 0 <= i < |lines| ==> r[i] == ParseRewriteLine(lines[i])
  {
    if lines == [] then [] else [ParseRewriteLine(lines[0])] + ParseRewriteLines(lines[1..])
  }

  /** The rules after the first `n` lines, and the error that stopped the
      reading, if any. */
  function ReadLines(rules: RewriteRules, lines: seq<RewriteLine>, n: nat): (RewriteRules, Option<Error>)
    requires n <= |lines|
  {
    if n == 0 then (rules, None)
    else
      var prev := ReadLines(rules, lines, n - 1);
      if prev.1.Some? then prev
      else
        var next := ReadLine(prev.0, lines[n - 1], n - 1);
        if next.Err? then (prev.0, Some(next.error)) else (next.value, None)
  }

  /** Reading from empty rules leaves `key_lengths` exact, error or not. */
  lemma {:induction false} ReadLinesKeepExact(rules: RewriteRules, lines: seq<RewriteLine>, n: nat)
    requires n <= |lines| && KeyLengthsExact(rules)
    ensures KeyLengthsExact(ReadLines(rules, lines, n).0)
  {
    if n > 0 {
      ReadLinesKeepExact(rules, lines, n - 1);
      var prev := ReadLines(rules, lines, n - 1);
      if prev.1.None? && ReadLine(prev.0, lines[n - 1], n - 1).Ok? {
        ReadLineKeepsExact(prev.0, lines[n - 1], n - 1);
      }
    }
  }

  /** Once a line fails, later lines are not read. */
  lemma {:induction false} ReadLinesStops(rules: RewriteRules, lines: seq<RewriteLine>, k: nat, n: nat)
    requires k <= n <= |lines| && ReadLines(rules, lines, k).1.Some?
    ensures ReadLines(rules, lines, n) == ReadLines(rules, lines, k)
    decreases n
  {
    if n > k {
      ReadLinesStops(rules, lines, k, n - 1);
      var prev := ReadLines(rules, lines, n - 1);
      assert prev.1.Some?;
      assert ReadLines(rules, lines, n) == prev;
    }
  }

  /** `text[i .. i + l]` has a non-empty replacement. */
  predicate Replaces(rules: RewriteRules, text: string, i: nat, l: nat)
    requires i + l <= |text|
  {
    text[i .. i + l] in rules.replaceCharMap && rules.replaceCharMap[text[i .. i + l]] != ""
  }

  /** The longest `l` from `l0` down to 1 whose `text[i .. i + l]` has a
      non-empty replacement, or 0. */
  function LongestMatch(rules: RewriteRules, text: string, i: nat, l0: nat): (l: nat)
    requires i + l0 <= |text|
    ensures l <= l0
    ensures l > 0 ==> Replaces(rules, text, i, l)
    ensures forall m :: l < m <= l0 ==> !Replaces(rules, text, i, m)
  {
    if l0 == 0 then 0
    else if Replaces(rules, text, i, l0) then l0
    else LongestMatch(rules, text, i, l0 - 1)
  }

  /** What rewrite does at character `i`: how many characters it consumes,
      what it writes for them, and whether it calls replace. */
  datatype Chunk = Chunk(length: nat, out: string, replaced: bool)

  function ChunkAt(rules: RewriteRules, maps: CaseMaps, text: string, i: nat): (c: Chunk)
    requires i < |text|
    ensures 1 <= c.length && i + c.length <= |text|
    ensures !c.replaced ==> c.out == text[i .. i + c.length]
  {
    var original := text[i];
    var keyLength := if original in rules.keyLengths then rules.keyLengths[original] else 0;
    var maxLength := if keyLength < |text| - i then keyLength else |text| - i;
    var l := LongestMatch(rules, text, i, maxLength);
    if l > 0 then Chunk(l, rules.replaceCharMap[text[i .. i + l]], true)
    else
      var lower := maps.lower(original);
      var replace := if lower in rules.ignoreNormalizeSet then lower else maps.nfkc(lower);
      if replace == [original] then Chunk(1, [original], false)
      else Chunk(1, replace, true)
  }

  /** The chunk rewrite takes at each position of `text`. */
  function Decider(rules: RewriteRules, maps: CaseMaps, text: string): nat -> Chunk
  {
    (i: nat) => if i < |text| then ChunkAt(rules, maps, text, i) else Chunk(1, "", false)
  }

  /** Every chunk inside the text is non-empty and ends inside the text. */
  ghost predicate Chunking(d: nat -> Chunk, text: string)
  {
    forall i: nat :: i < |text| ==> 1 <= d(i).length && i + d(i).length <= |text|
  }

  lemma DeciderChunks(rules: RewriteRules, maps: CaseMaps, text: string)
    ensures Chunking(Decider(rules, maps, text), text)
  {
  }

  /** The text written for `text[i..]`, chunk after chunk. */
  function Rewritten(d: nat -> Chunk, text: string, i: nat): string
    requires i <= |text| && Chunking(d, text)
    decreases |text| - i
  {
    if i == |text| then ""
    else d(i).out + Rewritten(d, text, i + d(i).length)
  }

  /** The offsets of what the chunk `c` at `i` writes: a replaced chunk maps
      all it writes to the offset of its first character, an unchanged one
      keeps its own. */
  function ChunkOffsets(c: Chunk, offsets: seq<int>, i: nat): (r: seq<int>)
    requires i < |offsets| && i + c.length <= |offsets|
  {
    if c.replaced then Repeat(|c.out|, offsets[i]) else offsets[i .. i + c.length]
  }

  /** The original-text offsets of what is written for `text[i..]`. */
  function RewrittenOffsets(d: nat -> Chunk, text: string, offsets: seq<int>, i: nat): (r: seq<int>)
    requires i <= |text| <= |offsets| && Chunking(d, text)
    decreases |text| - i
  {
    if i == |text| then []
    else ChunkOffsets(d(i), offsets, i) + RewrittenOffsets(d, text, offsets, i + d(i).length)
  }

  /** The decider, known only by its chunks. */
  lemma PointwiseDecider(rules: RewriteRules, maps: CaseMaps, text: string) returns (d: nat -> Chunk)
    ensures Chunking(d, text)
    ensures forall j: nat :: j < |text| ==> d(j) == ChunkAt(rules, maps, text, j)
  {
    d := Decider(rules, maps, text);
  }

  /** Two deciders that agree on every position give the same rewrite. */
  lemma {:induction false} SameRewrite(d: nat -> Chunk, e: nat -> Chunk, text: string, offsets: seq<int>, i: nat)
    requires i <= |text| <= |offsets| && Chunking(d, text) && Chunking(e, text)
    requires forall j: nat :: j < |text| ==> d(j) == e(j)
    ensures Rewritten(d, text, i) == Rewritten(e, text, i)
    ensures RewrittenOffsets(d, text, offsets, i) == RewrittenOffsets(e, text, offsets, i)
    decreases |text| - i
  {
    if i < |text| {
      SameRewrite(d, e, text, offsets, i + d(i).length);
    }
  }

  /** The text rewrite makes of `text`. */
  function RewriteText(rules: RewriteRules, maps: CaseMaps, text: string): string
  {
    DeciderChunks(rules, maps, text);
    Rewritten(Decider(rules, maps, text), text, 0)
  }

  /** The map to the original text after the rewrite of `text`, one entry
      per character written. */
  function RewriteOffsets(rules: RewriteRules, maps: CaseMaps, text: string, offsets: seq<int>): seq<int>
    requires |text| <= |offsets|
  {
    DeciderChunks(rules, maps, text);
    RewrittenOffsets(Decider(rules, maps, text), text, offsets, 0)
  }

  /** The part of the rewrite written so far, followed by the rewrite of
      the rest of the text from `i`, is the rewrite of the whole text. */
  ghost predicate RewriteProgress(d: nat -> Chunk, text: string, offsets: seq<int>, i: nat,
                                  doneText: string, doneOffsets: seq<int>)
  {
    i <= |text| && |offsets| == |text| + 1 && Chunking(d, text)
    && doneText + Rewritten(d, text, i) == Rewritten(d, text, 0)
    && doneOffsets + RewrittenOffsets(d, text, offsets, i) == RewrittenOffsets(d, text, offsets, 0)
  }

  /** One chunk of the rewrite moves from the rest of the text to the part
      already written. */
  lemma Advance(d: nat -> Chunk, text: string, offsets: seq<int>, i: nat, doneText: string, doneOffsets: seq<int>,
                i': nat, doneText': string, doneOffsets': seq<int>)
    requires i < |text| && RewriteProgress(d, text, offsets, i, doneText, doneOffsets)
    requires i' == i + d(i).length && doneText' == doneText + d(i).out
    requires doneOffsets' == doneOffsets + ChunkOffsets(d(i), offsets, i)
    ensures RewriteProgress(d, text, offsets, i', doneText', doneOffsets')
  {
    var c := d(i);
    Associative(doneText, c.out, Rewritten(d, text, i + c.length));
    Associative(doneOffsets, ChunkOffsets(c, offsets, i), RewrittenOffsets(d, text, offsets, i + c.length));
  }

  lemma Start(d: nat -> Chunk, text: string, offsets: seq<int>)
    requires |offsets| == |text| + 1 && Chunking(d, text)
    ensures RewriteProgress(d, text, offsets, 0, "", [])
  {
    assert "" + Rewritten(d, text, 0) == Rewritten(d, text, 0);
    assert [] + RewrittenOffsets(d, text, offsets, 0) == RewrittenOffsets(d, text, offsets, 0);
  }

  /** At the end of the text the part written is the whole rewrite. */
  lemma Finish(d: nat -> Chunk, text: string, offsets: seq<int>, doneText: string, doneOffsets: seq<int>)
    requires RewriteProgress(d, text, offsets, |text|, doneText, doneOffsets)
    ensures doneText == Rewritten(d, text, 0)
    ensures doneOffsets == RewrittenOffsets(d, text, offsets, 0)
  {
    assert doneText + [] == doneText;
    assert doneOffsets + [] == doneOffsets;
  }

  /** Replacing `k` elements at the seam between `done` and `rest`. */
  lemma SpliceAt<T>(done: seq<T>, rest: seq<T>, k: nat, out: seq<T>)
    requires k <= |rest|
    ensures (done + rest)[..|done|] + out + (done + rest)[|done| + k..] == done + out + rest[k..]
  {
    assert (done + rest)[..|done|] == done;
    assert (done + rest)[|done| + k..] == rest[k..];
  }

  lemma Associative<T>(a: seq<T>, b: seq<T>, c: seq<T>)
    ensures a + (b + c) == (a + b) + c
  {
  }

  lemma SplitAt<T>(s: seq<T>, i: nat, k: nat)
    requires i + k <= |s|
    ensures s[i..] == s[i .. i + k] + s[i + k..]
  {
  }

  /** Without rules, a text whose characters all normalise to themselves is
      left as it is, and so is its offset map. */
  lemma {:induction false} RewriteIdentity(maps: CaseMaps, text: string, offsets: seq<int>, i: nat)
    requires i <= |text| <= |offsets|
    requires forall k :: i <= k < |text| ==> maps.nfkc(maps.lower(text[k])) == [text[k]]
    ensures Chunking(Decider(NO_RULES, maps, text), text)
    ensures Rewritten(Decider(NO_RULES, maps, text), text, i) == text[i..]
    ensures RewrittenOffsets(Decider(NO_RULES, maps, text), text, offsets, i) == offsets[i .. |text|]
    decreases |text| - i
  {
    DeciderChunks(NO_RULES, maps, text);
    if i < |text| {
      var d := Decider(NO_RULES, maps, text);
      assert d(i) == Chunk(1, [text[i]], false);
      RewriteIdentity(maps, text, offsets, i + 1);
      assert text[i..] == [text[i]] + text[i + 1..];
      assert offsets[i .. |text|] == offsets[i .. i + 1] + offsets[i + 1 .. |text|];
    }
  }

  class DefaultInputTextPlugin {
    var ignoreNormalizeSet: set<string>
    var keyLengths: map<char, nat>
    var replaceCharMap: map<string, string>
    const maps: CaseMaps

    constructor(maps: CaseMaps)
      ensures Rules() == NO_RULES && this.maps == maps
    {
      ignoreNormalizeSet := {};
      keyLengths := map[];
      replaceCharMap := map[];
      this.maps := maps;
    }

    function Rules(): (r: RewriteRules)
      reads this
    {
      RewriteRules(ignoreNormalizeSet, keyLengths, replaceCharMap)
    }

    /** read_rewrite_lists over the lines of the file: each line adds to
        the rules; on an error the lines before it have taken effect. */
    method ReadRewriteLists(lines: seq<string>) returns (r: Result<()>)
      modifies this
      ensures Rules() == ReadLines(old(Rules()), ParseRewriteLines(lines), |lines|).0
      ensures r.Err? <==> ReadLines(old(Rules()), ParseRewriteLines(lines), |lines|).1.Some?
      ensures r.Err? ==> r.error == ReadLines(old(Rules()), ParseRewriteLines(lines), |lines|).1.value
    {
      var parsed := ParseRewriteLines(lines);
      r := ReadParsedLines(parsed);
    }

    /** The loop of read_rewrite_lists, over the lines already split into
        columns. */
    method ReadParsedLines(lines: seq<RewriteLine>) returns (r: Result<()>)
      modifies this
      ensures Rules() == ReadLines(old(Rules()), lines, |lines|).0
      ensures r.Err? <==> ReadLines(old(Rules()), lines, |lines|).1.Some?
      ensures r.Err? ==> r.error == ReadLines(old(Rules()), lines, |lines|).1.value
    {
      var i := 0;
      while i < |lines|
        invariant i <= |lines|
        invariant ReadLines(old(Rules()), lines, i) == (Rules(), None)
      {
        var next := ReadLine(Rules(), lines[i], i);
        if next.Err? {
          ReadLinesStops(old(Rules()), lines, i + 1, |lines|);
          return Err(next.error);
        }
        ignoreNormalizeSet, keyLengths, replaceCharMap :=
          next.value.ignoreNormalizeSet, next.value.keyLengths, next.value.replaceCharMap;
        i := i + 1;
      }
      r := Ok(());
    }

    /** The loop over candidate lengths, longest first. */
    method FindReplacement(text: string, i: nat, maxLength: nat) returns (l: nat)
      requires i + maxLength <= |text|
      ensures l == LongestMatch(Rules(), text, i, maxLength)
    {
      l := maxLength;
      while l > 0
        invariant l <= maxLength
        invariant LongestMatch(Rules(), text, i, maxLength) == LongestMatch(Rules(), text, i, l)
      {
        var key := text[i .. i + l];
        if key in replaceCharMap && replaceCharMap[key] != "" {
          return;
        }
        l := l - 1;
      }
    }

    /** The decision rewrite takes at character `i`. */
    method Decide(text: string, i: nat) returns (c: Chunk)
      requires i < |text|
      ensures c == ChunkAt(Rules(), maps, text, i)
    {
      var original := text[i];
      var keyLength := if original in keyLengths then keyLengths[original] else 0;
      var maxLength := if keyLength < |text| - i then keyLength else |text| - i;
      var l := FindReplacement(text, i, maxLength);
      if l > 0 {
        return Chunk(l, replaceCharMap[text[i .. i + l]], true);
      }
      var lower := maps.lower(original);
      var replace;
      if lower in ignoreNormalizeSet {
        replace := lower;
      } else {
        replace := maps.nfkc(lower);
      }
      if replace == [original] {
        c := Chunk(1, [original], false);
      } else {
        c := Chunk(1, replace, true);
      }
    }

    /** Writes the chunk `c` at character `i` into the builder: replace is
        called only when the chunk changes the text. */
    method WriteChunk(builder: UTF8InputTextBuilder, text: string, i: nat, offset: int, c: Chunk,
                      ghost offsets0: seq<int>, ghost doneText: string, ghost doneOffsets: seq<int>, ghost own: seq<int>)
      requires builder.Valid()
      requires i < |text| && |offsets0| == |text| + 1 && 1 <= c.length && i + c.length <= |text|
      requires builder.modifiedText == doneText + text[i..]
      requires builder.textOffsets == doneOffsets + offsets0[i..]
      requires |doneText| == |doneOffsets| == i + offset
      requires !c.replaced ==> c.out == text[i .. i + c.length] && own == offsets0[i .. i + c.length]
      requires c.replaced ==> own == Repeat(|c.out|, offsets0[i])
      modifies builder`modifiedText, builder`textOffsets
      ensures builder.Valid()
      ensures builder.modifiedText == doneText + c.out + text[i + c.length..]
      ensures builder.textOffsets == doneOffsets + own + offsets0[i + c.length..]
    {
      if c.replaced {
        ReplaceChunk(builder, text, i, offset, c, offsets0, doneText, doneOffsets);
      } else {
        SplitAt(text, i, c.length);
        SplitAt(offsets0, i, c.length);
      }
    }

    /** The replace call of a chunk that changes the text. */
    method ReplaceChunk(builder: UTF8InputTextBuilder, text: string, i: nat, offset: int, c: Chunk,
                        ghost offsets0: seq<int>, ghost doneText: string, ghost doneOffsets: seq<int>)
      requires builder.Valid()
      requires i < |text| && |offsets0| == |text| + 1 && 1 <= c.length && i + c.length <= |text|
      requires builder.modifiedText == doneText + text[i..]
      requires builder.textOffsets == doneOffsets + offsets0[i..]
      requires |doneText| == |doneOffsets| == i + offset
      modifies builder`modifiedText, builder`textOffsets
      ensures builder.Valid()
      ensures builder.modifiedText == doneText + c.out + text[i + c.length..]
      ensures builder.textOffsets == doneOffsets + Repeat(|c.out|, offsets0[i]) + offsets0[i + c.length..]
    {
      assert (doneOffsets + offsets0[i..])[i + offset] == offsets0[i];
      var r := builder.Replace(i + offset, i + c.length + offset, c.out);
      SpliceAt(doneText, text[i..], c.length, c.out);
      SpliceAt(doneOffsets, offsets0[i..], c.length, Repeat(|c.out|, offsets0[i]));
      assert text[i..][c.length..] == text[i + c.length..];
      assert offsets0[i..][c.length..] == offsets0[i + c.length..];
    }

    /** rewrite: the builder's text becomes the rewritten text, and its map
        to the original follows each replacement. */
    method Rewrite(builder: UTF8InputTextBuilder)
      requires builder.Valid()
      modifies builder`modifiedText, builder`textOffsets
      ensures builder.Valid()
      ensures builder.modifiedText == RewriteText(Rules(), maps, old(builder.modifiedText))
      ensures builder.textOffsets ==
                RewriteOffsets(Rules(), maps, old(builder.modifiedText), old(builder.textOffsets))
                + [old(builder.textOffsets)[|old(builder.modifiedText)|]]
    {
      var text := builder.modifiedText;
      ghost var offsets0 := builder.textOffsets;
      ghost var d := PointwiseDecider(Rules(), maps, text);
      RewriteLoop(builder, text, d);
      DeciderChunks(Rules(), maps, text);
      SameRewrite(d, Decider(Rules(), maps, text), text, offsets0, 0);
    }

    /** The loop of rewrite, against any decider that agrees with the
        rules at every position. */
    method RewriteLoop(builder: UTF8InputTextBuilder, text: string, ghost d: nat -> Chunk)
      requires builder.Valid() && builder.modifiedText == text
      requires Chunking(d, text)
      requires forall j: nat :: j < |text| ==> d(j) == ChunkAt(Rules(), maps, text, j)
      modifies builder`modifiedText, builder`textOffsets
      ensures builder.Valid()
      ensures builder.modifiedText == Rewritten(d, text, 0)
      ensures builder.textOffsets ==
                RewrittenOffsets(d, text, old(builder.textOffsets), 0) + [old(builder.textOffsets)[|text|]]
    {
      ghost var offsets0 := builder.textOffsets;
      ghost var doneText: string := "";
      ghost var doneOffsets: seq<int> := [];
      Start(d, text, offsets0);
      var offset: int := 0;
      var i: nat := 0;
      while i < |text|
        invariant i <= |text| && |offsets0| == |text| + 1
        invariant builder.Valid()
        invariant builder.modifiedText == doneText + text[i..]
        invariant builder.textOffsets == doneOffsets + offsets0[i..]
        invariant |doneText| == |doneOffsets| == i + offset
        invariant RewriteProgress(d, text, offsets0, i, doneText, doneOffsets)
        decreases |text| - i
      {
        var c;
        c, doneText, doneOffsets := RewriteStep(builder, text, i, offset, d, offsets0, doneText, doneOffsets);
        offset := offset + |c.out| - c.length;
        i := i + c.length;
      }
      Finish(d, text, offsets0, doneText, doneOffsets);
      assert offsets0[i..] == [offsets0[|text|]];
    }

    /** One pass of the loop of rewrite: decides the chunk at character `i`
        and writes it into the builder. */
    method RewriteStep(builder: UTF8InputTextBuilder, text: string, i: nat, offset: int, ghost d: nat -> Chunk,
                       ghost offsets0: seq<int>, ghost doneText: string, ghost doneOffsets: seq<int>)
      returns (c: Chunk, ghost doneText': string, ghost doneOffsets': seq<int>)
      requires i < |text| && |offsets0| == |text| + 1
      requires d(i) == ChunkAt(Rules(), maps, text, i)
      requires builder.Valid()
      requires builder.modifiedText == doneText + text[i..]
      requires builder.textOffsets == doneOffsets + offsets0[i..]
      requires |doneText| == |doneOffsets| == i + offset
      requires RewriteProgress(d, text, offsets0, i, doneText, doneOffsets)
      modifies builder`modifiedText, builder`textOffsets
      ensures c.length >= 1 && i + c.length <= |text|
      ensures builder.Valid()
      ensures builder.modifiedText == doneText' + text[i + c.length..]
      ensures builder.textOffsets == doneOffsets' + offsets0[i + c.length..]
      ensures |doneText'| == |doneOffsets'| == i + c.length + (offset + |c.out| - c.length)
      ensures RewriteProgress(d, text, offsets0, i + c.length, doneText', doneOffsets')
    {
      c := Decide(text, i);
      assert c == d(i);
      ghost var own := ChunkOffsets(c, offsets0, i);
      WriteChunk(builder, text, i, offset, c, offsets0, doneText, doneOffsets, own);
      doneText' := doneText + c.out;
      doneOffsets' := doneOffsets + own;
      Advance(d, text, offsets0, i, doneText, doneOffsets, i + c.length, doneText', doneOffsets');
    }
  }

}
