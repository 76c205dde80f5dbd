/** The result of tokenizing: a list of morphemes over the nodes of the
    best path, and the morphemes themselves, which answer through the list
    at their index.  The two source modules import each other, so both
    classes live in this one module. */
module MorphemeLists {
  import opened Wrappers
  import opened Grammars
  import opened InputTexts
  import opened WordInfoLists
  import opened LexiconSets
  import opened LatticeNodes
  import opened SplitModes

  // ---- split nodes -------------------------------------------------------------

  /** The head word length of a word, as its word info gives it. */
  function HeadLength(lexicon: LexiconSet, wid: int): (r: Result<nat>)
    ensures InfoOf(lexicon, wid, None).Ok? ==> r == Ok(InfoOf(lexicon, wid, None).value.headWordLength)
    ensures InfoOf(lexicon, wid, None).Err? ==> r == Err(InfoOf(lexicon, wid, None).error)
  {
    var info :- InfoOf(lexicon, wid, None);
    Ok(info.headWordLength)
  }

  /** Head word lengths by word id, or the error reading one raises. */
  type Heads = int -> Result<nat>

  /** The end of the last span, or `begin` when there is none. */
  function EndOf(spans: seq<(int, int)>, begin: int): int
  {
    if spans == [] then begin else spans[|spans| - 1].1
  }

  /** The spans of the words `wids` placed one after another from `begin`,
      each as long as `head` says; the first word whose head cannot be
      read stops the placing with its error. */
  function Spans(head: Heads, wids: seq<int>, begin: int): (r: Result<seq<(int, int)>>)
    ensures r.Ok? ==> |r.value| == |wids|
  {
    if wids == [] then Ok([])
    else
      var front :- Spans(head, wids[..|wids| - 1], begin);
      var h :- head(wids[|wids| - 1]);
      var b := EndOf(front, begin);
      Ok(front + [(b, b + h)])
  }

  /** The head word lengths of the lexicon's words. */
  function HeadsOf(lexicon: LexiconSet): (r: Heads)
  {
    w => HeadLength(lexicon, w)
  }

  /** The spans of the nodes split makes of the words `wids` from `begin`. */
  function SplitSpans(lexicon: LexiconSet, wids: seq<int>, begin: int): (r: Result<seq<(int, int)>>)
  {
    Spans(HeadsOf(lexicon), wids, begin)
  }

  /** The sum of the heads, taken from the first word on. */
  function Total(head: Heads, wids: seq<int>): (r: Result<nat>)
  {
    if wids == [] then Ok(0)
    else
      var h :- head(wids[0]);
      var rest :- Total(head, wids[1..]);
      Ok(h + rest)
  }

  /** `k` is the first word whose head cannot be read. */
  predicate FailsFirst(head: Heads, wids: seq<int>, k: nat)
  {
    k < |wids| && head(wids[k]).Err?
    && forall j :: 0 <= j < k ==> head(wids[j]).Ok?
  }

  /** The placing succeeds exactly when every head can be read. */
  lemma {:induction false} SpansOk(head: Heads, wids: seq<int>, begin: int)
    ensures Spans(head, wids, begin).Ok? <==> forall k :: 0 <= k < |wids| ==> head(wids[k]).Ok?
    decreases |wids|
  {
    if wids != [] {
      var n := |wids| - 1;
      SpansOk(head, wids[..n], begin);
      assert forall k :: 0 <= k < n ==> wids[..n][k] == wids[k];
    }
  }

  /** A failing placing fails with the error of the first head that
      cannot be read. */
  lemma {:induction false} SpansFailFirst(head: Heads, wids: seq<int>, begin: int, k: nat)
    requires FailsFirst(head, wids, k)
    ensures Spans(head, wids, begin) == Err(head(wids[k]).error)
    decreases |wids|
  {
    var n := |wids| - 1;
    assert forall j :: 0 <= j < n ==> wids[..n][j] == wids[j];
    if k < n {
      assert FailsFirst(head, wids[..n], k);
      SpansFailFirst(head, wids[..n], begin, k);
    } else {
      SpansOk(head, wids[..n], begin);
    }
  }

  /** The spans tile the text from `begin`: the first starts at `begin`,
      each further one where the one before it ends, and each is as long
      as its word's head. */
  lemma {:induction false} SpansTile(head: Heads, wids: seq<int>, begin: int)
    requires Spans(head, wids, begin).Ok?
    ensures var spans := Spans(head, wids, begin).value;
            && (|wids| > 0 ==> spans[0].0 == begin)
            && (forall k :: 0 < k < |wids| ==> spans[k].0 == spans[k - 1].1)
            && forall k :: 0 <= k < |wids| ==> head(wids[k]).Ok? && spans[k].1 == spans[k].0 + head(wids[k]).value
    decreases |wids|
  {
    if wids != [] {
      var n := |wids| - 1;
      SpansTile(head, wids[..n], begin);
      assert forall j :: 0 <= j < n ==> wids[..n][j] == wids[j];
    }
  }

  lemma {:induction false} TotalSnoc(head: Heads, wids: seq<int>, w: int)
    requires Total(head, wids).Ok? && head(w).Ok?
    ensures Total(head, wids + [w]) == Ok(Total(head, wids).value + head(w).value)
    decreases |wids|
  {
    if wids != [] {
      assert (wids + [w])[1..] == wids[1..] + [w];
      TotalSnoc(head, wids[1..], w);
    }
  }

  /** The spans cover exactly `begin .. begin + Total`: the last ends the
      sum of the heads after `begin`. */
  lemma {:induction false} SpansCover(head: Heads, wids: seq<int>, begin: int)
    requires Spans(head, wids, begin).Ok?
    ensures Total(head, wids).Ok?
    ensures EndOf(Spans(head, wids, begin).value, begin) == begin + Total(head, wids).value
    decreases |wids|
  {
    if wids != [] {
      var n := |wids| - 1;
      SpansCover(head, wids[..n], begin);
      assert wids[..n] + [wids[n]] == wids;
      TotalSnoc(head, wids[..n], wids[n]);
    }
  }

  /** One more word placed after the first `i`: its span starts where the
      spans end and is as long as its head. */
  lemma SpansStep(head: Heads, wids: seq<int>, begin: int, i: nat, spans: seq<(int, int)>, b: int, e: int)
    requires i < |wids| && Spans(head, wids[..i], begin) == Ok(spans) && head(wids[i]).Ok?
    requires b == EndOf(spans, begin) && e == b + head(wids[i]).value
    ensures Spans(head, wids[..i + 1], begin) == Ok(spans + [(b, e)])
  {
    assert wids[..i + 1][..i] == wids[..i];
  }

  /** One word of a split read after the first `i` whose word info can be
      read adds the span from where the spans end, as long as its head. */
  lemma SplitStep(lexicon: LexiconSet, wids: seq<int>, begin: int, i: nat, spans: seq<(int, int)>,
                  info: WordInfo, b: int, e: int)
    requires i < |wids| && SplitSpans(lexicon, wids[..i], begin) == Ok(spans)
    requires InfoOf(lexicon, wids[i], None) == Ok(info)
    requires b == EndOf(spans, begin) && e == b + info.headWordLength
    ensures SplitSpans(lexicon, wids[..i + 1], begin) == Ok(spans + [(b, e)])
    ensures e == EndOf(spans + [(b, e)], begin)
  {
    var head := HeadsOf(lexicon);
    assert head(wids[i]) == HeadLength(lexicon, wids[i]);
    SpansStep(head, wids, begin, i, spans, b, e);
  }

  /** One word whose word info cannot be read stops the whole split with
      its error. */
  lemma SplitStop(lexicon: LexiconSet, wids: seq<int>, begin: int, i: nat, spans: seq<(int, int)>, e: Error)
    requires i < |wids| && SplitSpans(lexicon, wids[..i], begin) == Ok(spans)
    requires InfoOf(lexicon, wids[i], None) == Err(e)
    ensures SplitSpans(lexicon, wids, begin) == Err(e)
  {
    var head := HeadsOf(lexicon);
    assert head(wids[i]) == HeadLength(lexicon, wids[i]);
    assert wids[..i + 1][..i] == wids[..i];
    SpansStop(head, wids, begin, i + 1);
  }

  /** A placing whose first `j` words fail fails the same way for all of them. */
  lemma {:induction false} SpansStop(head: Heads, wids: seq<int>, begin: int, j: nat)
    requires j <= |wids| && Spans(head, wids[..j], begin).Err?
    ensures Spans(head, wids, begin) == Spans(head, wids[..j], begin)
    decreases |wids|
  {
    if j < |wids| {
      var n := |wids| - 1;
      assert wids[..n][..j] == wids[..j];
      SpansStop(head, wids[..n], begin, j);
    } else {
      assert wids[..j] == wids;
    }
  }

  /** `nodes` are the split nodes of `wids` over `spans`. */
  ghost predicate SplitOf(nodes: seq<LatticeNode>, lexicon: LexiconSet, wids: seq<int>, spans: seq<(int, int)>)
    reads nodes
  {
    |nodes| == |wids| == |spans|
    && forall k :: 0 <= k < |nodes| ==>
         nodes[k].wordId == wids[k] && nodes[k].lexicon == lexicon
         && nodes[k].hasParameter && nodes[k].leftId == 0 && nodes[k].rightId == 0 && nodes[k].cost == 0
         && !nodes[k].isOov && nodes[k].extraWordInfo.None?
         && nodes[k].begin == spans[k].0 && nodes[k].end == spans[k].1
  }

  lemma SplitOfSnoc(nodes: seq<LatticeNode>, n: LatticeNode, lexicon: LexiconSet, wids: seq<int>, i: nat, spans: seq<(int, int)>)
    requires i < |wids| && SplitOf(nodes, lexicon, wids[..i], spans)
    requires n.wordId == wids[i] && n.lexicon == lexicon
    requires n.hasParameter && n.leftId == 0 && n.rightId == 0 && n.cost == 0
    requires !n.isOov && n.extraWordInfo.None?
    ensures SplitOf(nodes + [n], lexicon, wids[..i + 1], spans + [(n.begin, n.end)])
  {
    assert forall k :: 0 <= k < i ==> wids[..i + 1][k] == wids[..i][k];
  }

  /** A new node for the word `wid` at `offset`, ending after its head
      when its word info can be read. */
  method PlaceWord(lexicon: LexiconSet, wid: int, offset: int) returns (n: LatticeNode, info: Result<WordInfo>)
    ensures fresh(n) && info == InfoOf(lexicon, wid, None)
    ensures n.wordId == wid && n.lexicon == lexicon
    ensures n.hasParameter && n.leftId == 0 && n.rightId == 0 && n.cost == 0
    ensures !n.isOov && n.extraWordInfo.None? && n.begin == offset
    ensures info.Ok? ==> n.end == offset + info.value.headWordLength
  {
    n := new LatticeNode.ForWord(lexicon, 0, 0, 0, wid);
    n.begin := offset;
    info := n.GetWordInfo();
    if info.Ok? {
      n.end := offset + info.value.headWordLength;
    }
  }

  /** The split nodes: one new node per word, with zero connection
      parameters, placed one after another from `begin` by the head word
      lengths of their word infos. */
  method SplitNodes(lexicon: LexiconSet, wids: seq<int>, begin: int) returns (r: Result<seq<LatticeNode>>)
    ensures SplitSpans(lexicon, wids, begin).Err? ==> r == Err(SplitSpans(lexicon, wids, begin).error)
    ensures SplitSpans(lexicon, wids, begin).Ok? ==> r.Ok? && SplitOf(r.value, lexicon, wids, SplitSpans(lexicon, wids, begin).value)
    ensures r.Ok? ==> (forall k :: 0 <= k < |r.value| ==> fresh(r.value[k]))
                      && forall j, k :: 0 <= j < k < |r.value| ==> r.value[j] != r.value[k]
  {
    var nodes: seq<LatticeNode> := [];
    ghost var spans: seq<(int, int)> := [];
    var offset := begin;
    var i := 0;
    while i < |wids|
      invariant i <= |wids| && |nodes| == i
      invariant SplitSpans(lexicon, wids[..i], begin) == Ok(spans)
      invariant offset == EndOf(spans, begin)
      invariant SplitOf(nodes, lexicon, wids[..i], spans)
      invariant forall k :: 0 <= k < i ==> fresh(nodes[k])
      invariant forall j, k :: 0 <= j < k < i ==> nodes[j] != nodes[k]
    {
      var n, info := PlaceWord(lexicon, wids[i], offset);
      if info.Err? {
        SplitStop(lexicon, wids, begin, i, spans, info.error);
        return Err(info.error);
      }
      SplitStep(lexicon, wids, begin, i, spans, info.value, offset, n.end);
      SplitOfSnoc(nodes, n, lexicon, wids, i, spans);
      offset := n.end;
      spans := spans + [(n.begin, n.end)];
      nodes := nodes + [n];
      i := i + 1;
    }
    assert wids[..i] == wids;
    r := Ok(nodes);
  }

  /** The word ids a split mode takes from a word info: the A or B units;
      mode C takes none. */
  function SplitIds(mode: SplitMode, wi: WordInfo): seq<int>
  {
    match mode
    case A => wi.aUnitSplit
    case B => wi.bUnitSplit
    case C => []
  }

  /** What split returns: the one-element Python list holding the morpheme
      itself, or a new morpheme list. */
  datatype SplitResult = Single(morpheme: Morpheme) | Many(list: MorphemeList)

  // ---- MorphemeList --------------------------------------------------------------

  class MorphemeList {
    const inputText: UTF8InputText
    const grammar: Grammar
    const lexicon: LexiconSet
    const path: seq<LatticeNode>

    constructor(inputText: UTF8InputText, grammar: Grammar, lexicon: LexiconSet, path: seq<LatticeNode>)
      ensures this.inputText == inputText && this.grammar == grammar
      ensures this.lexicon == lexicon && this.path == path
    {
      this.inputText := inputText;
      this.grammar := grammar;
      this.lexicon := lexicon;
      this.path := path;
    }

    /** __getitem__: a new morpheme at `index`, which is not checked until
        the morpheme is asked something. */
    method Get(index: int) returns (m: Morpheme)
      ensures fresh(m) && m.list == this && m.index == index && m.wordInfo.None?
    {
      m := new Morpheme(this, index);
    }

    /** __len__ and __iter__: a new morpheme for every node of the path,
        at the indexes 0, 1, ... in order. */
    method Morphemes() returns (ms: seq<Morpheme>)
      ensures |ms| == |path|
      ensures forall i :: 0 <= i < |ms| ==> fresh(ms[i]) && ms[i].list == this && ms[i].index == i && ms[i].wordInfo.None?
    {
      ms := [];
      var i := 0;
      while i < |path|
        invariant i <= |path| && |ms| == i
        invariant forall k :: 0 <= k < i ==> fresh(ms[k]) && ms[k].list == this && ms[k].index == k && ms[k].wordInfo.None?
      {
        var m := Get(i);
        ms := ms + [m];
        i := i + 1;
      }
    }

    /** get_begin: the node's begin mapped to the original text. */
    function GetBegin(index: int): (r: Result<int>)
      reads path
      ensures 0 <= index < |path| && 0 <= path[index].begin < |inputText.offsets| ==>
                r == Ok(inputText.offsets[path[index].begin])
      ensures !(-|path| <= index < |path|) ==> r == Err(OUT_OF_RANGE)
    {
      var n :- PyIndex(path, index);
      GetOriginalIndex(inputText, n.begin)
    }

    /** get_end: the node's end mapped to the original text. */
    function GetEnd(index: int): (r: Result<int>)
      reads path
      ensures 0 <= index < |path| && 0 <= path[index].end < |inputText.offsets| ==>
                r == Ok(inputText.offsets[path[index].end])
      ensures !(-|path| <= index < |path|) ==> r == Err(OUT_OF_RANGE)
    {
      var n :- PyIndex(path, index);
      GetOriginalIndex(inputText, n.end)
    }

    /** get_surface: the original text between the mapped begin and end. */
    function GetSurface(index: int): (r: Result<string>)
      reads path
      ensures GetBegin(index).Err? ==> r == Err(GetBegin(index).error)
      ensures GetBegin(index).Ok? && GetEnd(index).Err? ==> r == Err(GetEnd(index).error)
      ensures GetBegin(index).Ok? && GetEnd(index).Ok?
              && 0 <= GetBegin(index).value <= GetEnd(index).value <= |inputText.originalText| ==>
                r == Ok(inputText.originalText[GetBegin(index).value .. GetEnd(index).value])
    {
      var begin :- GetBegin(index);
      var end :- GetEnd(index);
      Ok(PySlice(inputText.originalText, begin, end))
    }

    function GetWordInfo(index: int): (r: Result<WordInfo>)
      reads path
      ensures 0 <= index < |path| ==> r == path[index].WordInfo()
      ensures !(-|path| <= index < |path|) ==> r == Err(OUT_OF_RANGE)
    {
      var n :- PyIndex(path, index);
      n.WordInfo()
    }

    /** split: mode C, or fewer than two split words, gives the morpheme
        itself; otherwise a new list of the split nodes, placed from the
        node's begin. */
    method Split(mode: SplitMode, index: int, wi: WordInfo) returns (r: Result<SplitResult>)
      ensures |SplitIds(mode, wi)| <= 1 ==>
                r.Ok? && r.value.Single? && fresh(r.value.morpheme)
                && r.value.morpheme.list == this && r.value.morpheme.index == index
      ensures |SplitIds(mode, wi)| > 1 && !(-|path| <= index < |path|) ==> r == Err(OUT_OF_RANGE)
      ensures |SplitIds(mode, wi)| > 1 && 0 <= index < |path| ==>
                var spans := SplitSpans(lexicon, SplitIds(mode, wi), path[index].begin);
                (spans.Err? ==> r == Err(spans.error))
                && (spans.Ok? ==> r.Ok? && r.value.Many? && fresh(r.value.list)
                                  && r.value.list.inputText == inputText && r.value.list.grammar == grammar
                                  && r.value.list.lexicon == lexicon
                                  && SplitOf(r.value.list.path, lexicon, SplitIds(mode, wi), spans.value))
    {
      var wordIds: seq<int>;
      if mode == A {
        wordIds := wi.aUnitSplit;
      } else if mode == B {
        wordIds := wi.bUnitSplit;
      } else {
        var m := Get(index);
        return Ok(Single(m));
      }
      if |wordIds| == 0 || |wordIds| == 1 {
        var m := Get(index);
        return Ok(Single(m));
      }
      var node :- PyIndex(path, index);
      var nodes :- SplitNodes(lexicon, wordIds, node.begin);
      var l := new MorphemeList(inputText, grammar, lexicon, nodes);
      r := Ok(Many(l));
    }

    function IsOov(index: int): (r: Result<bool>)
      reads path
      ensures 0 <= index < |path| ==> r == Ok(path[index].isOov)
      ensures !(-|path| <= index < |path|) ==> r == Err(OUT_OF_RANGE)
    {
      var n :- PyIndex(path, index);
      Ok(n.isOov)
    }

    /** get_internal_cost: the own cost (get_path_cost) of the last node
        minus that of the first; IndexError on an empty path. */
    function GetInternalCost(): (r: Result<int>)
      reads path
      ensures path == [] ==> r == Err(OUT_OF_RANGE)
      ensures path != [] && path[0].hasParameter && path[|path| - 1].hasParameter ==>
                r == Ok(path[|path| - 1].cost - path[0].cost)
      ensures path != [] && !path[|path| - 1].hasParameter ==> r.Err? && r.error.AttributeError?
    {
      if path == [] then Err(OUT_OF_RANGE)
      else
        var c1 :- path[|path| - 1].GetPathCost();
        var c0 :- path[0].GetPathCost();
        Ok(c1 - c0)
    }

    /** Along a path whose nodes meet, mapped to offsets that only grow,
        the surfaces of two neighbouring morphemes make up the original
        text from the first's begin to the second's end. */
    lemma SurfacesMeet(k: nat)
      requires k + 1 < |path| && path[k].end == path[k + 1].begin
      requires 0 <= path[k].begin < |inputText.offsets| && 0 <= path[k].end < |inputText.offsets|
      requires 0 <= path[k + 1].end < |inputText.offsets|
      requires 0 <= inputText.offsets[path[k].begin] <= inputText.offsets[path[k].end]
               <= inputText.offsets[path[k + 1].end] <= |inputText.originalText|
      ensures GetSurface(k).Ok? && GetSurface(k + 1).Ok?
      ensures GetSurface(k).value + GetSurface(k + 1).value
              == inputText.originalText[inputText.offsets[path[k].begin] .. inputText.offsets[path[k + 1].end]]
    {
      var t := inputText.originalText;
      var a, b, c := inputText.offsets[path[k].begin], inputText.offsets[path[k].end], inputText.offsets[path[k + 1].end];
      assert t[a..b] + t[b..c] == t[a..c];
    }
  }

  // ---- Morpheme ------------------------------------------------------------------

  class Morpheme {
    /** The word info, fetched from the list on first use. */
    var wordInfo: Option<WordInfo>
    const list: MorphemeList
    const index: int

    constructor(list: MorphemeList, index: int)
      ensures this.list == list && this.index == index && wordInfo.None?
    {
      wordInfo := None;
      this.list := list;
      this.index := index;
    }

    /** begin: where the node starts in the original text. */
    function Begin(): (r: Result<int>)
      reads list.path
      ensures 0 <= index < |list.path| && 0 <= list.path[index].begin < |list.inputText.offsets| ==>
                r == Ok(list.inputText.offsets[list.path[index].begin])
      ensures !(-|list.path| <= index < |list.path|) ==> r == Err(OUT_OF_RANGE)
    {
      list.GetBegin(index)
    }

    /** end: where the node ends in the original text. */
    function End(): (r: Result<int>)
      reads list.path
      ensures 0 <= index < |list.path| && 0 <= list.path[index].end < |list.inputText.offsets| ==>
                r == Ok(list.inputText.offsets[list.path[index].end])
      ensures !(-|list.path| <= index < |list.path|) ==> r == Err(OUT_OF_RANGE)
    {
      list.GetEnd(index)
    }

    /** surface: the original text between the morpheme's begin and end. */
    function Surface(): (r: Result<string>)
      reads list.path
      ensures Begin().Err? ==> r == Err(Begin().error)
      ensures Begin().Ok? && End().Err? ==> r == Err(End().error)
      ensures Begin().Ok? && End().Ok? && 0 <= Begin().value <= End().value <= |list.inputText.originalText| ==>
                r == Ok(list.inputText.originalText[Begin().value .. End().value])
    {
      list.GetSurface(index)
    }

    /** get_word_info: the cached word info, or the list's, which is then
        cached; a failed fetch caches nothing. */
    method GetWordInfo() returns (r: Result<WordInfo>)
      modifies this`wordInfo
      ensures old(wordInfo).Some? ==> r == Ok(old(wordInfo).value) && wordInfo == old(wordInfo)
      ensures old(wordInfo).None? ==> r == list.GetWordInfo(index)
      ensures r.Ok? ==> wordInfo == Some(r.value)
      ensures r.Err? ==> wordInfo.None?
    {
      if wordInfo.None? {
        var wi := list.GetWordInfo(index);
        if wi.Err? {
          return wi;
        }
        wordInfo := Some(wi.value);
      }
      r := Ok(wordInfo.value);
    }

    /** The word info this morpheme answers with: the cached one, else the
        list's. */
    ghost function Info(): (r: Result<WordInfo>)
      reads this, list.path
      ensures wordInfo.Some? ==> r == Ok(wordInfo.value)
      ensures wordInfo.None? && 0 <= index < |list.path| ==> r == list.path[index].WordInfo()
      ensures wordInfo.None? && !(-|list.path| <= index < |list.path|) ==> r == Err(OUT_OF_RANGE)
    {
      if wordInfo.Some? then Ok(wordInfo.value) else list.GetWordInfo(index)
    }

    /** part_of_speech: the grammar's part of speech of the word info's id. */
    method PartOfSpeech() returns (r: Result<seq<string>>)
      modifies this`wordInfo
      ensures old(Info()).Err? ==> r == Err(old(Info()).error)
      ensures old(Info()).Ok? ==> r == GetPartOfSpeechString(list.grammar, old(Info()).value.posId)
    {
      var wi :- GetWordInfo();
      r := GetPartOfSpeechString(list.grammar, wi.posId);
    }

    method PartOfSpeechId() returns (r: Result<nat>)
      modifies this`wordInfo
      ensures old(Info()).Err? ==> r == Err(old(Info()).error)
      ensures old(Info()).Ok? ==> r == Ok(old(Info()).value.posId)
    {
      var wi :- GetWordInfo();
      r := Ok(wi.posId);
    }

    method DictionaryForm() returns (r: Result<string>)
      modifies this`wordInfo
      ensures old(Info()).Err? ==> r == Err(old(Info()).error)
      ensures old(Info()).Ok? ==> r == Ok(old(Info()).value.dictionaryForm)
    {
      var wi :- GetWordInfo();
      r := Ok(wi.dictionaryForm);
    }

    method NormalizedForm() returns (r: Result<string>)
      modifies this`wordInfo
      ensures old(Info()).Err? ==> r == Err(old(Info()).error)
      ensures old(Info()).Ok? ==> r == Ok(old(Info()).value.normalizedForm)
    {
      var wi :- GetWordInfo();
      r := Ok(wi.normalizedForm);
    }

    method ReadingForm() returns (r: Result<string>)
      modifies this`wordInfo
      ensures old(Info()).Err? ==> r == Err(old(Info()).error)
      ensures old(Info()).Ok? ==> r == Ok(old(Info()).value.readingForm)
    {
      var wi :- GetWordInfo();
      r := Ok(wi.readingForm);
    }

    /** split: the list's split of this morpheme with its (cached) word info. */
    method Split(mode: SplitMode) returns (r: Result<SplitResult>)
      modifies this`wordInfo
      ensures old(Info()).Err? ==> r == Err(old(Info()).error)
      ensures old(Info()).Ok? && |SplitIds(mode, old(Info()).value)| <= 1 ==>
                r.Ok? && r.value.Single? && r.value.morpheme.list == list && r.value.morpheme.index == index
      ensures old(Info()).Ok? && |SplitIds(mode, old(Info()).value)| > 1 && 0 <= index < |list.path| ==>
                var spans := SplitSpans(list.lexicon, SplitIds(mode, old(Info()).value), list.path[index].begin);
                (spans.Err? ==> r == Err(spans.error))
                && (spans.Ok? ==> r.Ok? && r.value.Many?
                                  && SplitOf(r.value.list.path, list.lexicon, SplitIds(mode, old(Info()).value), spans.value))
    {
      var wi :- GetWordInfo();
      r := list.Split(mode, index, wi);
    }

    /** is_oov: whether the node was made for an unknown word. */
    function IsOov(): (r: Result<bool>)
      reads list.path
      ensures 0 <= index < |list.path| ==> r == Ok(list.path[index].isOov)
      ensures !(-|list.path| <= index < |list.path|) ==> r == Err(OUT_OF_RANGE)
    {
      list.IsOov(index)
    }

    function WordId(): (r: Result<int>)
      reads list.path
      ensures 0 <= index < |list.path| ==> r == Ok(list.path[index].wordId)
    {
      var n :- PyIndex(list.path, index);
      Ok(n.wordId)
    }

    /** dictionary_id: the node's word id shifted right by 28, so -1 for a
        node made by a plugin (word id -1). */
    function DictionaryId(): (r: Result<int>)
      reads list.path
      ensures 0 <= index < |list.path| && list.path[index].wordId >= 0 ==>
                r.Ok? && r.value >= 0
                && r.value * WORD_ID_RANGE <= list.path[index].wordId < (r.value + 1) * WORD_ID_RANGE
      ensures 0 <= index < |list.path| && list.path[index].wordId == -1 ==> r == Ok(-1)
      ensures !(-|list.path| <= index < |list.path|) ==> r == Err(OUT_OF_RANGE)
    {
      var n :- PyIndex(list.path, index);
      Ok(n.GetDictionaryId())
    }
  }
}
