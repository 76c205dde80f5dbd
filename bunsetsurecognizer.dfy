/** The bunsetu helpers of `ginza/bunsetu_recognizer.py`: reading the stored
    bunsetu heads and BI labels back for a span, the bounds and the phrase of
    one bunsetu, the recogniser that marks the heads and labels the
    document, and `add_head_dep_suffix`. */
module BunsetuRecognizers {
  import opened Wrappers
  import opened Docs

  const BUNSETU_HEAD_SUFFIX: string := "_bunsetu"

  const PHRASE_RELATIONS: seq<string> := ["compound", "nummod", "nmod"]

  const POS_PHRASE_MAP: map<string, string> := map[
    "NOUN" := "NP", "NUM" := "NP", "PRON" := "NP", "PROPN" := "NP",
    "VERB" := "VP", "ADJ" := "ADJP", "ADV" := "ADVP", "CCONJ" := "CCONJP"]

  /** What a helper is asked about: the document itself, or a span
      `doc[start:end]` of it. */
  datatype SpanRef = WholeDoc | Span(start: nat, end: nat)

  // ---------------------------------------------------------------------
  // Reading the stored lists back

  /** `[i - start for i in heads if start <= i < end]`. */
  function Reindex(heads: seq<nat>, start: nat, end: nat): (r: seq<nat>)
    ensures |r| <= |heads|
  {
    if heads == [] then []
    else
      var rest := Reindex(heads[1..], start, end);
      if start <= heads[0] < end then [heads[0] - start] + rest else rest
  }

  /** The re-indexed list holds exactly the heads inside the span, shifted
      down by its start. */
  lemma {:induction false} ReindexMembers(heads: seq<nat>, start: nat, end: nat)
    ensures forall k :: 0 <= k < |Reindex(heads, start, end)| ==>
      Reindex(heads, start, end)[k] + start in heads && Reindex(heads, start, end)[k] + start < end
    ensures forall h :: h in heads && start <= h < end ==> h - start in Reindex(heads, start, end)
  {
    ReindexSound(heads, start, end);
    ReindexComplete(heads, start, end);
  }

  /** Every re-indexed head comes from a head inside the span. */
  lemma {:induction false} ReindexSound(heads: seq<nat>, start: nat, end: nat)
    ensures forall k :: 0 <= k < |Reindex(heads, start, end)| ==>
      Reindex(heads, start, end)[k] + start in heads && Reindex(heads, start, end)[k] + start < end
  {
    if heads != [] {
      var tail := heads[1..];
      var rest := Reindex(tail, start, end);
      var r := Reindex(heads, start, end);
      ReindexSound(tail, start, end);
      forall k | 0 <= k < |r| ensures r[k] + start in heads && r[k] + start < end {
        if start <= heads[0] < end {
          if k == 0 {
            assert r[0] + start == heads[0];
          } else {
            assert r[k] == rest[k - 1];
            assert rest[k - 1] + start in tail;
          }
        } else {
          assert r[k] == rest[k];
          assert rest[k] + start in tail;
        }
      }
    }
  }

  /** Every head inside the span appears, re-indexed. */
  lemma {:induction false} ReindexComplete(heads: seq<nat>, start: nat, end: nat)
    ensures forall h :: h in heads && start <= h < end ==> h - start in Reindex(heads, start, end)
  {
    if heads != [] {
      var tail := heads[1..];
      var rest := Reindex(tail, start, end);
      var r := Reindex(heads, start, end);
      ReindexComplete(tail, start, end);
      assert heads == [heads[0]] + tail;
      forall h | h in heads && start <= h < end ensures h - start in r {
        if h == heads[0] {
          assert r[0] == h - start;
        } else {
          assert h in tail;
          assert h - start in rest;
          assert start <= heads[0] < end ==> r == [heads[0] - start] + rest;
        }
      }
    }
  }

  /** `bunsetu_heads(span)`: nothing stored gives None, the document gives
      the stored list, and a span the heads inside it counted from its
      start. */
  function BunsetuHeads(stored: Option<seq<nat>>, span: SpanRef): (r: Option<seq<nat>>)
    ensures r.None? <==> stored.None?
    ensures span.WholeDoc? ==> r == stored
    ensures span.Span? && r.Some? ==>
      (forall k :: 0 <= k < |r.value| ==> span.start <= r.value[k] + span.start < span.end) &&
      (forall h :: h in stored.value && span.start <= h < span.end ==> h - span.start in r.value)
  {
    if stored.None? || span.WholeDoc? then stored
    else
      ReindexMembers(stored.value, span.start, span.end);
      Some(Reindex(stored.value, span.start, span.end))
  }

  /** `bunsetu_bi_labels(span)`: the stored list, or its slice for a span. */
  function BunsetuBiLabels(stored: Option<seq<BI>>, span: SpanRef): (r: Option<seq<BI>>)
    ensures r.None? <==> stored.None?
    ensures span.WholeDoc? ==> r == stored
    ensures span.Span? && stored.Some? && span.start <= span.end <= |stored.value| ==>
      r == Some(stored.value[span.start..span.end])
  {
    if stored.None? || span.WholeDoc? then stored
    else Some(PySlice(stored.value, span.start, span.end))
  }

  // ---------------------------------------------------------------------
  // Bounds of one bunsetu

  const NOT_SUBSCRIPTABLE: Error := TypeError("'NoneType' object is not subscriptable")

  /** `bunsetu_bounds(token)`: begin is the last B label at or before the
      head token (looking down to index 1, else 0) and end the first B label
      after it (else the document length).  The labels are read from the
      stored list, which raises when it is missing or too short. */
  method BunsetuBounds(stored: Option<seq<BI>>, docLen: nat, head: nat) returns (r: Result<(nat, nat)>)
    requires head < docLen
    ensures stored.Some? && |stored.value| >= docLen ==> r.Ok?
    ensures r.Err? ==> stored.None? || |stored.value| < docLen
    ensures r.Ok? ==> 0 <= r.value.0 <= head < r.value.1 <= docLen
    ensures r.Ok? && stored.Some? ==>
      && (r.value.0 > 0 ==> r.value.0 < |stored.value| && stored.value[r.value.0] == B)
      && (r.value.0 < head ==> head < |stored.value|)
      && (forall k :: r.value.0 < k <= head ==> stored.value[k] != B)
      && (r.value.1 < docLen ==> r.value.1 < |stored.value| && stored.value[r.value.1] == B)
      && (head + 1 < r.value.1 ==> r.value.1 <= |stored.value|)
      && (forall k :: head < k < r.value.1 ==> stored.value[k] != B)
  {
    if stored.None? {
      if head > 0 || head + 1 < docLen {
        return Err(NOT_SUBSCRIPTABLE);
      }
      return Ok((0, docLen));
    }
    var bi := stored.value;
    var begin: nat := head;
    while begin > 0 && begin < |bi| && bi[begin] != B
      invariant begin <= head && (begin < head ==> head < |bi|)
      invariant forall k :: begin < k <= head ==> bi[k] != B
    {
      begin := begin - 1;
    }
    if begin >= |bi| {
      return Err(OUT_OF_RANGE);
    }
    var end: nat := head + 1;
    while end < docLen && end < |bi| && bi[end] != B
      invariant head < end <= docLen && (head + 1 < end ==> end <= |bi|)
      invariant forall k :: head < k < end ==> bi[k] != B
    {
      end := end + 1;
    }
    if end < docLen && end >= |bi| {
      return Err(OUT_OF_RANGE);
    }
    return Ok((begin, end));
  }

  // ---------------------------------------------------------------------
  // The phrase of one bunsetu head

  /** `_yield(token, result)` from token x: each child (a token whose head is
      x, other than x itself) that is not a bunsetu head and hangs on x by
      one of the phrase relations is walked first, then x is appended.  The
      walk is bounded by `fuel` nested calls; running out is the
      RecursionError a cyclic head structure would raise. */
  function Yield(doc: seq<Token>, heads: Option<seq<nat>>, rels: seq<string>, x: nat, fuel: nat): (r: Result<seq<nat>>)
    requires WellFormed(doc) && x < |doc|
    ensures r.Ok? ==> |r.value| > 0 && r.value[|r.value| - 1] == x
    ensures r.Ok? ==> forall k :: 0 <= k < |r.value| ==> r.value[k] < |doc|
    decreases fuel, 0
  {
    if fuel == 0 then Err(RecursionError("maximum recursion depth exceeded"))
    else
      var inner :- YieldChildren(doc, heads, rels, x, 0, fuel - 1);
      Ok(inner + [x])
  }

  /** The children loop of `_yield`, from token k on. */
  function YieldChildren(doc: seq<Token>, heads: Option<seq<nat>>, rels: seq<string>, x: nat, k: nat, fuel: nat): (r: Result<seq<nat>>)
    requires WellFormed(doc) && x < |doc|
    ensures r.Ok? ==> forall j :: 0 <= j < |r.value| ==> r.value[j] < |doc|
    decreases fuel, 1, |doc| - k
  {
    if k >= |doc| then Ok([])
    else
      var t := doc[k];
      var here :-
        if t.head != x || t.i == x then Ok([])
        else if heads.None? then Err(TypeError("argument of type 'NoneType' is not iterable"))
        else if t.i !in heads.value && t.dep in rels then Yield(doc, heads, rels, k, fuel)
        else Ok([]);
      var rest :- YieldChildren(doc, heads, rels, x, k + 1, fuel);
      Ok(here + rest)
  }

  function MinOf(s: seq<nat>): (m: nat)
    requires |s| > 0
    ensures m in s && forall k :: 0 <= k < |s| ==> m <= s[k]
  {
    if |s| == 1 then s[0]
    else var m := MinOf(s[1..]); if s[0] <= m then s[0] else m
  }

  function MaxOf(s: seq<nat>): (m: nat)
    requires |s| > 0
    ensures m in s && forall k :: 0 <= k < |s| ==> s[k] <= m
  {
    if |s| == 1 then s[0]
    else var m := MaxOf(s[1..]); if s[0] >= m then s[0] else m
  }

  /** `bunsetu_phrase(token)`: the span from the lowest to one past the
      highest token the walk collects, which always includes the head token
      itself, and the phrase type mapped from the head's part of speech. */
  function BunsetuPhrase(doc: seq<Token>, heads: Option<seq<nat>>, x: nat, rels: seq<string>): (r: Result<(nat, nat, Option<string>)>)
    requires WellFormed(doc) && x < |doc|
    ensures r.Ok? ==> r.value.0 <= x < r.value.1 <= |doc|
    ensures r.Ok? ==> r.value.2 == (if doc[x].pos in POS_PHRASE_MAP then Some(POS_PHRASE_MAP[doc[x].pos]) else None)
  {
    var tokens :- Yield(doc, heads, rels, x, |doc|);
    assert x in tokens;
    var phrase := if doc[x].pos in POS_PHRASE_MAP then Some(POS_PHRASE_MAP[doc[x].pos]) else None;
    Ok((MinOf(tokens), MaxOf(tokens) + 1, phrase))
  }

  // ---------------------------------------------------------------------
  // The recogniser

  /** A dependency label that marks its token as a bunsetu head. */
  predicate MarksHead(dep: string)
  {
    dep == "ROOT" || EndsWith(dep, BUNSETU_HEAD_SUFFIX)
  }

  /** The token with its `_bunsetu` suffix removed (a plain ROOT keeps its
      label). */
  function Stripped(t: Token): (s: Token)
    ensures s.i == t.i && s.head == t.head && s.pos == t.pos && s.posDetail == t.posDetail
    ensures t.dep != "ROOT" && EndsWith(t.dep, BUNSETU_HEAD_SUFFIX) ==>
      s.dep + BUNSETU_HEAD_SUFFIX == t.dep
    ensures t.dep == "ROOT" || !EndsWith(t.dep, BUNSETU_HEAD_SUFFIX) ==> s == t
  {
    if t.dep != "ROOT" && EndsWith(t.dep, BUNSETU_HEAD_SUFFIX) then
      t.(dep := t.dep[..|t.dep| - |BUNSETU_HEAD_SUFFIX|])
    else t
  }

  /** The first loop of `__call__`: mark the heads and strip their suffixes. */
  method MarkHeads(tokens: seq<Token>) returns (heads: seq<bool>, stripped: seq<Token>)
    ensures |heads| == |tokens| == |stripped|
    ensures forall k :: 0 <= k < |tokens| ==> heads[k] == MarksHead(tokens[k].dep)
    ensures forall k :: 0 <= k < |tokens| ==> stripped[k] == Stripped(tokens[k])
  {
    heads := seq(|tokens|, _ => false);
    stripped := tokens;
    var k := 0;
    while k < |tokens|
      invariant k <= |tokens| && |heads| == |tokens| == |stripped|
      invariant forall j :: 0 <= j < k ==> heads[j] == MarksHead(tokens[j].dep)
      invariant forall j :: 0 <= j < k ==> stripped[j] == Stripped(tokens[j])
      invariant forall j :: k <= j < |tokens| ==> !heads[j] && stripped[j] == tokens[j]
    {
      var t := tokens[k];
      if t.dep == "ROOT" {
        heads := heads[k := true];
      } else if EndsWith(t.dep, BUNSETU_HEAD_SUFFIX) {
        heads := heads[k := true];
        stripped := stripped[k := t.(dep := t.dep[..|t.dep| - |BUNSETU_HEAD_SUFFIX|])];
      }
      k := k + 1;
    }
  }

  /** What the recovery loop guarantees for a head token k: its own head is
      marked too, unless that head lies to its left and is punctuation. */
  predicate HeadCovered(tokens: seq<Token>, heads: seq<bool>, k: nat)
    requires WellFormed(tokens) && |heads| == |tokens| && k < |tokens|
  {
    heads[tokens[k].head] ||
    (tokens[k].head < k && tokens[tokens[k].head].pos == "PUNCT")
  }

  /** One walk of the recovery loop, from the head token k up through heads
      to its left that are not marked yet. */
  method WalkUp(tokens: seq<Token>, heads0: seq<bool>, k: nat) returns (heads: seq<bool>)
    requires WellFormed(tokens) && |heads0| == |tokens| && k < |tokens|
    ensures |heads| == |tokens|
    ensures forall j :: 0 <= j < |tokens| ==> heads0[j] ==> heads[j]
    ensures HeadCovered(tokens, heads, k)
  {
    heads := heads0;
    var t: nat := k;
    while tokens[t].head < t && !heads[tokens[t].head]
      invariant t < |tokens| && |heads| == |tokens|
      invariant forall j :: 0 <= j < |tokens| ==> heads0[j] ==> heads[j]
      invariant t != k ==> HeadCovered(tokens, heads, k)
      decreases t
    {
      var h := tokens[t].head;
      heads := heads[h := tokens[h].pos != "PUNCT"];
      t := h;
    }
    heads := heads[tokens[t].head := true];
  }

  /** The recovery loop of `__call__`: marks only grow, and every token
      marked before the loop ends with its head covered. */
  method RecoverSubtrees(tokens: seq<Token>, heads0: seq<bool>) returns (heads: seq<bool>)
    requires WellFormed(tokens) && |heads0| == |tokens|
    ensures |heads| == |tokens|
    ensures forall j :: 0 <= j < |tokens| ==> heads0[j] ==> heads[j]
    ensures forall j :: 0 <= j < |tokens| ==> heads0[j] ==> HeadCovered(tokens, heads, j)
  {
    heads := heads0;
    var k := 0;
    while k < |tokens|
      invariant k <= |tokens| && |heads| == |tokens|
      invariant forall j :: 0 <= j < |tokens| ==> heads0[j] ==> heads[j]
      invariant forall j :: 0 <= j < k ==> heads0[j] ==> HeadCovered(tokens, heads, j)
    {
      if heads[k] {
        var before := heads;
        heads := WalkUp(tokens, heads, k);
        forall j | 0 <= j < k && heads0[j]
          ensures HeadCovered(tokens, heads, j)
        {
          assert HeadCovered(tokens, before, j);
        }
      }
      k := k + 1;
    }
  }

  /** The indexes of the marked tokens, in order. */
  function MarkedIndexes(heads: seq<bool>, k: nat): (r: seq<nat>)
    requires k <= |heads|
    ensures forall j :: 0 <= j < |r| ==> k <= r[j] < |heads| && heads[r[j]]
    ensures forall j :: k <= j < |heads| && heads[j] ==> j in r
    ensures forall a, b :: 0 <= a < b < |r| ==> r[a] < r[b]
    decreases |heads| - k
  {
    if k == |heads| then []
    else if heads[k] then [k] + MarkedIndexes(heads, k + 1)
    else MarkedIndexes(heads, k + 1)
  }

  /** Where the bunsetu of the j-th head begins: 0 for the first, and one
      past the right edge of the previous head's bunsetu for the others. */
  function NextBegin(headList: seq<nat>, rightEdge: nat -> nat, j: nat): nat
    requires j < |headList|
  {
    if j == 0 then 0 else rightEdge(headList[j - 1]) + 1
  }

  /** The labelling loop of `__call__`: all I, with a B at each bunsetu
      begin that lies inside the document.  `rightEdge(h)` stands for the
      index of the last token of head h's bunsetu, which the source finds by
      walking `t.rights` and `right_edge`. */
  method LabelBunsetu(n: nat, headList: seq<nat>, rightEdge: nat -> nat) returns (bi: seq<BI>)
    ensures |bi| == n
    ensures forall k :: 0 <= k < n ==>
      (bi[k] == B <==> exists j :: 0 <= j < |headList| && NextBegin(headList, rightEdge, j) == k)
  {
    bi := seq(n, _ => I);
    var nextBegin := 0;
    var j := 0;
    while j < |headList|
      invariant j <= |headList| && |bi| == n
      invariant nextBegin == if j < |headList| then NextBegin(headList, rightEdge, j) else nextBegin
      invariant j > 0 ==> nextBegin == rightEdge(headList[j - 1]) + 1
      invariant j == 0 ==> nextBegin == 0
      invariant forall k :: 0 <= k < n ==>
        (bi[k] == B <==> exists i :: 0 <= i < j && NextBegin(headList, rightEdge, i) == k)
    {
      if nextBegin < n {
        bi := bi[nextBegin := B];
      }
      assert NextBegin(headList, rightEdge, j) == nextBegin;
      nextBegin := rightEdge(headList[j]) + 1;
      j := j + 1;
    }
  }

  /** `BunsetuRecognizer.__call__(doc)`: strips the head suffixes from the
      labels and stores the list of bunsetu heads, in order, and the BI
      labels.  The heads are the tokens marked by their labels, plus those
      the recovery loop adds; each token marked by its label ends with its
      own head marked, unless that head is punctuation to its left. */
  method Recognize(doc: Doc, rightEdge: nat -> nat) returns (heads: seq<bool>)
    requires WellFormed(doc.tokens)
    modifies doc
    ensures |heads| == |doc.tokens| == |old(doc.tokens)|
    ensures WellFormed(doc.tokens)
    ensures forall k :: 0 <= k < |heads| ==> doc.tokens[k] == Stripped(old(doc.tokens)[k])
    ensures forall k :: 0 <= k < |heads| ==> MarksHead(old(doc.tokens)[k].dep) ==>
      heads[k] && HeadCovered(doc.tokens, heads, k)
    ensures doc.bunsetuHeads == Some(MarkedIndexes(heads, 0))
    ensures doc.bunsetuBiLabels.Some? && |doc.bunsetuBiLabels.value| == |heads|
    ensures forall k :: 0 <= k < |heads| ==>
      (doc.bunsetuBiLabels.value[k] == B <==>
        exists j :: 0 <= j < |MarkedIndexes(heads, 0)| && NextBegin(MarkedIndexes(heads, 0), rightEdge, j) == k)
    ensures doc.clauses == old(doc.clauses) && doc.bunsetuBiLabel == old(doc.bunsetuBiLabel)
    ensures doc.bunsetuPositionType == old(doc.bunsetuPositionType)
  {
    var marked, stripped := MarkHeads(doc.tokens);
    assert WellFormed(stripped);
    heads := RecoverSubtrees(stripped, marked);
    var headList := MarkedIndexes(heads, 0);
    var bi := LabelBunsetu(|stripped|, headList, rightEdge);
    doc.tokens := stripped;
    doc.bunsetuHeads := Some(headList);
    doc.bunsetuBiLabels := Some(bi);
  }

  // ---------------------------------------------------------------------
  // add_head_dep_suffix

  function AsciiLower(c: char): char
  {
    if 'A' <= c <= 'Z' then (c as int + 32) as char else c
  }

  /** `dep.lower() == "root"`: only the ASCII letters lower-case to r, o
      and t, so this is a four-letter case-insensitive match. */
  predicate LowersToRoot(dep: string)
  {
    |dep| == 4 && AsciiLower(dep[0]) == 'r' && AsciiLower(dep[1]) == 'o' &&
    AsciiLower(dep[2]) == 'o' && AsciiLower(dep[3]) == 't'
  }

  /** The token of `doc[start:end]` that receives the suffix: scanning from
      k, the first token whose head lies outside the span, unless a root
      label comes first. */
  function SuffixTarget(tokens: seq<Token>, start: nat, end: nat, k: nat): (r: Option<nat>)
    requires start <= k <= end <= |tokens|
    ensures r.Some? ==>
      && k <= r.value < end
      && (tokens[r.value].head < start || end - 1 < tokens[r.value].head)
      && !LowersToRoot(tokens[r.value].dep)
    ensures r.Some? ==> forall j :: k <= j < r.value ==>
      !LowersToRoot(tokens[j].dep) && start <= tokens[j].head <= end - 1
    ensures r.None? ==> forall j :: k <= j < end ==>
      (exists i :: k <= i <= j && LowersToRoot(tokens[i].dep)) ||
      start <= tokens[j].head <= end - 1
    decreases end - k
  {
    if k == end then None
    else if LowersToRoot(tokens[k].dep) then None
    else if tokens[k].head < start || end - 1 < tokens[k].head then Some(k)
    else SuffixTarget(tokens, start, end, k + 1)
  }

  /** `add_head_dep_suffix(doc[start:end], suffix)`: with a non-empty suffix,
      appends it to the label of the SuffixTarget token, if any; nothing
      else changes. */
  method AddHeadDepSuffix(doc: Doc, start: nat, end: nat, suffix: string)
    requires start <= end <= |doc.tokens|
    modifies doc
    ensures suffix == "" ==> doc.tokens == old(doc.tokens)
    ensures suffix != "" ==>
      var target := SuffixTarget(old(doc.tokens), start, end, start);
      doc.tokens == if target.Some? then
        old(doc.tokens)[target.value := old(doc.tokens)[target.value].(dep := old(doc.tokens)[target.value].dep + suffix)]
      else old(doc.tokens)
    ensures doc.bunsetuHeads == old(doc.bunsetuHeads) && doc.bunsetuBiLabels == old(doc.bunsetuBiLabels)
    ensures doc.clauses == old(doc.clauses) && doc.bunsetuBiLabel == old(doc.bunsetuBiLabel)
    ensures doc.bunsetuPositionType == old(doc.bunsetuPositionType)
  {
    if suffix == "" {
      return;
    }
    var tokens := doc.tokens;
    var k := start;
    while k < end
      invariant start <= k <= end
      invariant SuffixTarget(tokens, start, end, k) == SuffixTarget(tokens, start, end, start)
    {
      var t := tokens[k];
      if LowersToRoot(t.dep) {
        return;
      }
      if t.head < start || end - 1 < t.head {
        doc.tokens := tokens[k := t.(dep := t.dep + suffix)];
        return;
      }
      k := k + 1;
    }
  }
}
