/** The MeCab-style OOV provider: the character definition (char.def)
    says, per character category, whether unknown words are always tried
    (invoke), whether the whole run of the category is one candidate
    (group) and up to how many characters shorter candidates run; the
    unknown-word definition (unk.def) gives each category its connection
    parameters and part of speech. */
module MeCabOovPlugins {
  import opened Wrappers
  import opened Texts
  import opened Grammars
  import opened CategoryTypes
  import opened InputTexts
  import opened LatticeNodes

  datatype CategoryInfo = CategoryInfo(categoryType: CategoryType, isInvoke: bool, isGroup: bool, length: int)

  datatype Oov = Oov(leftId: int, rightId: int, cost: int, posId: nat)

  /** A parsed line of char.def: nothing to do, or the definition of a
      category under its name, with the info its other columns give or the
      error reading them raises (raised only once the category is known
      not to be defined already). */
  datatype CharDefLine = Ignored | Defines(categoryType: CategoryType, name: string, info: Result<CategoryInfo>)

  function InvalidFormat(lineNo: nat): (r: Error)
  {
    RuntimeError("invalid format at line " + NatToString(lineNo))
  }

  function InvalidType(name: string, lineNo: nat): (r: Error)
  {
    RuntimeError("`" + name + "` is invalid type at line " + NatToString(lineNo))
  }

  function AlreadyDefined(name: string, lineNo: nat): (r: Error)
  {
    RuntimeError("`" + name + "` is already defined at line " + NatToString(lineNo))
  }

  function Undefined(name: string, lineNo: nat): (r: Error)
  {
    RuntimeError("`" + name + "` is undefined at line " + NatToString(lineNo))
  }

  /** A char.def line: blank lines, comments and code-point lines (`0x…`)
      are ignored; fewer than two columns or an unknown category name is a
      RuntimeError. `getattr(CategoryType, name)` is read as the member
      lookup CategoryTypes.Get: a name of another class attribute (`get`,
      `get_id`, a dunder name) is taken as unknown here, where Python would
      return that attribute. */
  function ParseCharDefLine(line: string, lineNo: nat): (r: Result<CharDefLine>)
    ensures r.Ok? && r.value.Defines? && r.value.info.Ok? ==> r.value.info.value.categoryType == r.value.categoryType
  {
    var l := Strip(line);
    if |l| == 0 || StartsWith(l, "#") then Ok(Ignored)
    else
      var cols := SplitSpaces(l);
      if |cols| < 2 then Err(InvalidFormat(lineNo))
      else if StartsWith(cols[0], "0x") then Ok(Ignored)
      else match Get(cols[0])
        case None => Err(InvalidType(cols[0], lineNo))
        case Some(ty) => Ok(Defines(ty, cols[0], CategoryInfoOf(ty, cols)))
  }

  /** The category info of a definition line: invoke and group are every
      flag but "0"; a missing third or fourth column is an IndexError and a
      length that is no integer a ValueError. */
  function CategoryInfoOf(ty: CategoryType, cols: seq<string>): (r: Result<CategoryInfo>)
    ensures r.Ok? ==> r.value.categoryType == ty
  {
    var invoke :- PyIndex(cols, 1);
    var group :- PyIndex(cols, 2);
    var lengthText :- PyIndex(cols, 3);
    var length :- ParseInt(lengthText);
    Ok(CategoryInfo(ty, invoke != "0", group != "0", length))
  }

  /** The lines of char.def, each parsed on its own; line `j` is numbered
      `j + 1` in messages. */
  function ParsedCharDef(lines: seq<string>): (ps: seq<Result<CharDefLine>>)
    ensures |ps| == |lines|
    ensures forall j :: 0 <= j < |lines| ==> ps[j] == ParseCharDefLine(lines[j], j + 1)
  {
    seq(|lines|, j requires 0 <= j < |lines| => ParseCharDefLine(lines[j], j + 1))
  }

  /** Whether parsed line `j` defines `ty`. */
  predicate DefinesAt(ps: seq<Result<CharDefLine>>, j: nat, ty: CategoryType)
    requires j < |ps|
  {
    ps[j].Ok? && ps[j].value.Defines? && ps[j].value.categoryType == ty
  }

  /** The categories after reading the parsed lines `ps[i..]` into
      `categories`: the first failing line raises, and a category defined
      twice is a RuntimeError. */
  function DefinedCategories(categories: map<CategoryType, CategoryInfo>, ps: seq<Result<CharDefLine>>, i: nat)
    : Result<map<CategoryType, CategoryInfo>>
    requires i <= |ps|
    decreases |ps| - i
  {
    if i == |ps| then Ok(categories)
    else
      var parsed :- ps[i];
      match parsed
      case Ignored => DefinedCategories(categories, ps, i + 1)
      case Defines(ty, name, info) =>
        if ty in categories then Err(AlreadyDefined(name, i + 1))
        else
          var info :- info;
          DefinedCategories(categories[ty := info], ps, i + 1)
  }

  /** What read_character_property leaves in `categories` after reading
      `lines` into it. */
  function CharacterProperty(categories: map<CategoryType, CategoryInfo>, lines: seq<string>)
    : Result<map<CategoryType, CategoryInfo>>
  {
    DefinedCategories(categories, ParsedCharDef(lines), 0)
  }

  /** A successful read keeps the categories it started from, adds exactly
      the categories the lines define, each from its defining line, and no
      category is defined twice or was defined before. */
  lemma {:induction false} DefinedCategoriesOnce(categories: map<CategoryType, CategoryInfo>, ps: seq<Result<CharDefLine>>, i: nat)
    requires i <= |ps|
    ensures DefinedCategories(categories, ps, i).Ok? ==>
              var r := DefinedCategories(categories, ps, i).value;
              (forall ty :: ty in categories ==> ty in r && r[ty] == categories[ty])
              && (forall ty :: ty in r ==> ty in categories || exists j :: i <= j < |ps| && DefinesAt(ps, j, ty))
              && (forall j, ty :: i <= j < |ps| && DefinesAt(ps, j, ty) ==>
                    ty !in categories && ty in r && Ok(r[ty]) == ps[j].value.info)
              && (forall j, k, ty :: i <= j < k < |ps| && DefinesAt(ps, j, ty) ==> !DefinesAt(ps, k, ty))
    decreases |ps| - i
  {
    if i < |ps| && DefinedCategories(categories, ps, i).Ok? {
      match ps[i].value
      case Ignored =>
        DefinedCategoriesOnce(categories, ps, i + 1);
      case Defines(ty, _, info) =>
        DefinedCategoriesOnce(categories[ty := info.value], ps, i + 1);
        assert DefinesAt(ps, i, ty);
    }
  }

  /** Keys and infos agree: every category read is filed under its own
      type, which is what provide_oov relies on when it looks up the OOVs
      of `info.type_`. */
  lemma CharacterPropertyKeyedByType(categories: map<CategoryType, CategoryInfo>, lines: seq<string>)
    requires forall ty :: ty in categories ==> categories[ty].categoryType == ty
    ensures CharacterProperty(categories, lines).Ok? ==>
              var r := CharacterProperty(categories, lines).value;
              forall ty :: ty in r ==> r[ty].categoryType == ty
  {
    var ps := ParsedCharDef(lines);
    DefinedCategoriesOnce(categories, ps, 0);
    if CharacterProperty(categories, lines).Ok? {
      var r := CharacterProperty(categories, lines).value;
      forall ty | ty in r ensures r[ty].categoryType == ty {
        if ty !in categories {
          var j :| 0 <= j < |ps| && DefinesAt(ps, j, ty);
          assert Ok(r[ty]) == ps[j].value.info;
        }
      }
    }
  }

  /** An unk.def line: nothing for a blank line, else the category and its
      OOV. Fewer than ten comma-separated columns, an unknown category or
      one char.def does not define is a RuntimeError; ids and cost that
      are no integers and a part of speech the grammar lacks are
      ValueErrors. The category name is looked up with CategoryTypes.Get,
      as in ParseCharDefLine. */
  function ParseUnkDefLine(line: string, lineNo: nat, categories: map<CategoryType, CategoryInfo>, grammar: Grammar)
    : (r: Result<Option<(CategoryType, Oov)>>)
    ensures r.Ok? && r.value.Some? ==>
              r.value.value.0 in categories
              && r.value.value.1.posId < |grammar.posList|
              && var cols := Split(Strip(line), ",");
                 |cols| >= 10 && grammar.posList[r.value.value.1.posId] == cols[4..10]
  {
    var l := Strip(line);
    if |l| == 0 then Ok(None)
    else
      var cols := Split(l, ",");
      if |cols| < 10 then Err(InvalidFormat(lineNo))
      else match Get(cols[0])
        case None => Err(InvalidType(cols[0], lineNo))
        case Some(ty) =>
          if ty !in categories then Err(Undefined(cols[0], lineNo))
          else
            var oov :- OovOf(cols, grammar);
            Ok(Some((ty, oov)))
  }

  /** The OOV of an unk.def line's columns: left id, right id and cost, and
      the part of speech of columns 4 to 9. */
  function OovOf(cols: seq<string>, grammar: Grammar): (r: Result<Oov>)
    requires |cols| >= 10
    ensures r.Ok? ==> r.value.posId < |grammar.posList| && grammar.posList[r.value.posId] == cols[4..10]
  {
    var leftId :- ParseInt(cols[1]);
    var rightId :- ParseInt(cols[2]);
    var cost :- ParseInt(cols[3]);
    var posId :- GetPartOfSpeechId(grammar, cols[4..10]);
    Ok(Oov(leftId, rightId, cost, posId))
  }

  /** `oov_list[ty]` of the defaultdict: no entry reads as the empty list. */
  function OovsOf(oovList: map<CategoryType, seq<Oov>>, ty: CategoryType): seq<Oov>
  {
    if ty in oovList then oovList[ty] else []
  }

  /** The lines of unk.def, each parsed on its own. */
  function ParsedUnkDef(lines: seq<string>, categories: map<CategoryType, CategoryInfo>, grammar: Grammar)
    : seq<Result<Option<(CategoryType, Oov)>>>
  {
    seq(|lines|, j requires 0 <= j < |lines| => ParseUnkDefLine(lines[j], j + 1, categories, grammar))
  }

  /** Line `j` of unk.def, counted from 1, is parsed on its own. */
  lemma ParsedUnkDefLine(lines: seq<string>, categories: map<CategoryType, CategoryInfo>, grammar: Grammar, j: nat)
    requires j < |lines|
    ensures |ParsedUnkDef(lines, categories, grammar)| == |lines|
    ensures ParsedUnkDef(lines, categories, grammar)[j] == ParseUnkDefLine(lines[j], j + 1, categories, grammar)
  {
  }

  /** One line of AppendedOovs: an error stops the read, a blank line
      changes nothing, an OOV is appended to its category's list. */
  lemma AppendedOovsStep(oovList: map<CategoryType, seq<Oov>>, ps: seq<Result<Option<(CategoryType, Oov)>>>, i: nat)
    requires i < |ps|
    ensures ps[i].Err? ==> AppendedOovs(oovList, ps, i) == Err(ps[i].error)
    ensures ps[i] == Ok(None) ==> AppendedOovs(oovList, ps, i) == AppendedOovs(oovList, ps, i + 1)
    ensures ps[i].Ok? && ps[i].value.Some? ==>
              var (ty, oov) := ps[i].value.value;
              AppendedOovs(oovList, ps, i) == AppendedOovs(oovList[ty := OovsOf(oovList, ty) + [oov]], ps, i + 1)
  {
  }

  /** The OOV lists after reading the parsed lines `ps[i..]`: the first
      failing line raises, each other line's OOV is appended to its
      category's list. */
  function AppendedOovs(oovList: map<CategoryType, seq<Oov>>, ps: seq<Result<Option<(CategoryType, Oov)>>>, i: nat)
    : Result<map<CategoryType, seq<Oov>>>
    requires i <= |ps|
    decreases |ps| - i
  {
    if i == |ps| then Ok(oovList)
    else
      var parsed :- ps[i];
      match parsed
      case None => AppendedOovs(oovList, ps, i + 1)
      case Some((ty, oov)) => AppendedOovs(oovList[ty := OovsOf(oovList, ty) + [oov]], ps, i + 1)
  }

  /** What read_oov leaves in `oov_list` after reading `lines` into it. */
  function ReadOovList(oovList: map<CategoryType, seq<Oov>>, lines: seq<string>,
                       categories: map<CategoryType, CategoryInfo>, grammar: Grammar)
    : Result<map<CategoryType, seq<Oov>>>
  {
    AppendedOovs(oovList, ParsedUnkDef(lines, categories, grammar), 0)
  }

  /** The OOVs the parsed lines `ps[i..]` give category `ty`, in order. */
  function GivenTo(ps: seq<Result<Option<(CategoryType, Oov)>>>, i: nat, ty: CategoryType): seq<Oov>
    requires i <= |ps|
    decreases |ps| - i
  {
    if i == |ps| then []
    else
      var here := if ps[i].Ok? && ps[i].value.Some? && ps[i].value.value.0 == ty then [ps[i].value.value.1] else [];
      here + GivenTo(ps, i + 1, ty)
  }

  /** A successful read appends to each category's list exactly the OOVs
      the lines give it, in line order, and lists a category exactly when
      it was listed before or some line gives it an OOV. */
  lemma {:induction false} AppendedOovsFromLines(oovList: map<CategoryType, seq<Oov>>,
                                                 ps: seq<Result<Option<(CategoryType, Oov)>>>, i: nat)
    requires i <= |ps|
    ensures AppendedOovs(oovList, ps, i).Ok? ==>
              var r := AppendedOovs(oovList, ps, i).value;
              (forall ty :: OovsOf(r, ty) == OovsOf(oovList, ty) + GivenTo(ps, i, ty))
              && (forall ty :: ty in r <==> ty in oovList || GivenTo(ps, i, ty) != [])
    decreases |ps| - i
  {
    if i < |ps| && AppendedOovs(oovList, ps, i).Ok? {
      var r := AppendedOovs(oovList, ps, i).value;
      match ps[i].value
      case None =>
        AppendedOovsFromLines(oovList, ps, i + 1);
        assert AppendedOovs(oovList, ps, i) == AppendedOovs(oovList, ps, i + 1);
        forall ty | true
          ensures GivenTo(ps, i, ty) == GivenTo(ps, i + 1, ty)
        {
        }
      case Some((ty, oov)) =>
        var next := oovList[ty := OovsOf(oovList, ty) + [oov]];
        AppendedOovsFromLines(next, ps, i + 1);
        assert AppendedOovs(oovList, ps, i) == AppendedOovs(next, ps, i + 1);
        forall ty' | true
          ensures OovsOf(r, ty') == OovsOf(oovList, ty') + GivenTo(ps, i, ty')
          ensures ty' in r <==> ty' in oovList || GivenTo(ps, i, ty') != []
        {
          OovGiven(oovList, next, ps, i, ty, oov, ty', r);
        }
    }
  }

  /** A line that gives `ty` an OOV adds it to `ty`'s list alone. */
  lemma OovGiven(oovList: map<CategoryType, seq<Oov>>, next: map<CategoryType, seq<Oov>>,
                 ps: seq<Result<Option<(CategoryType, Oov)>>>, i: nat, ty: CategoryType, oov: Oov,
                 ty': CategoryType, r: map<CategoryType, seq<Oov>>)
    requires i < |ps| && ps[i] == Ok(Some((ty, oov))) && next == oovList[ty := OovsOf(oovList, ty) + [oov]]
    requires OovsOf(r, ty') == OovsOf(next, ty') + GivenTo(ps, i + 1, ty')
    requires ty' in r <==> ty' in next || GivenTo(ps, i + 1, ty') != []
    ensures OovsOf(r, ty') == OovsOf(oovList, ty') + GivenTo(ps, i, ty')
    ensures ty' in r <==> ty' in oovList || GivenTo(ps, i, ty') != []
  {
    var later := GivenTo(ps, i + 1, ty');
    if ty' == ty {
      assert GivenTo(ps, i, ty') == [oov] + later;
      assert OovsOf(next, ty') + later == OovsOf(oovList, ty') + ([oov] + later);
    } else {
      assert GivenTo(ps, i, ty') == later;
      assert OovsOf(next, ty') == OovsOf(oovList, ty');
    }
  }

  /** Every parsed line names a category char.def defines and a part of
      speech of the grammar. */
  predicate Checked(ps: seq<Result<Option<(CategoryType, Oov)>>>, categories: map<CategoryType, CategoryInfo>,
                    grammar: Grammar)
  {
    forall j :: 0 <= j < |ps| && ps[j].Ok? && ps[j].value.Some? ==>
      ps[j].value.value.0 in categories && ps[j].value.value.1.posId < |grammar.posList|
  }

  /** Every OOV checked lines give a category is for a category char.def
      defines, with a part of speech of the grammar. */
  lemma {:induction false} GivenToChecked(ps: seq<Result<Option<(CategoryType, Oov)>>>,
                                          categories: map<CategoryType, CategoryInfo>, grammar: Grammar,
                                          i: nat, ty: CategoryType)
    requires i <= |ps| && Checked(ps, categories, grammar)
    ensures GivenTo(ps, i, ty) != [] ==> ty in categories
    ensures forall k :: 0 <= k < |GivenTo(ps, i, ty)| ==> GivenTo(ps, i, ty)[k].posId < |grammar.posList|
    decreases |ps| - i
  {
    if i < |ps| {
      GivenToChecked(ps, categories, grammar, i + 1, ty);
    }
  }

  /** After a successful read_oov every listed category is one char.def
      defines and every OOV's part of speech is in the grammar. */
  lemma ReadOovListChecked(oovList: map<CategoryType, seq<Oov>>, lines: seq<string>,
                           categories: map<CategoryType, CategoryInfo>, grammar: Grammar)
    requires forall ty :: ty in oovList ==> ty in categories
    requires forall ty, k :: ty in oovList && 0 <= k < |oovList[ty]| ==> oovList[ty][k].posId < |grammar.posList|
    ensures ReadOovList(oovList, lines, categories, grammar).Ok? ==>
              var r := ReadOovList(oovList, lines, categories, grammar).value;
              (forall ty :: ty in r ==> ty in categories)
              && (forall ty, k :: ty in r && 0 <= k < |r[ty]| ==> r[ty][k].posId < |grammar.posList|)
  {
    var ps := ParsedUnkDef(lines, categories, grammar);
    assert Checked(ps, categories, grammar);
    AppendedOovsFromLines(oovList, ps, 0);
    var r := ReadOovList(oovList, lines, categories, grammar);
    if r.Ok? {
      forall ty | ty in r.value
        ensures ty in categories
        ensures forall k :: 0 <= k < |r.value[ty]| ==> r.value[ty][k].posId < |grammar.posList|
      {
        GivenToChecked(ps, categories, grammar, 0, ty);
        assert r.value[ty] == OovsOf(r.value, ty) == OovsOf(oovList, ty) + GivenTo(ps, 0, ty);
      }
    }
  }

  /** A candidate unknown word: its surface, its length in bytes and the
      OOV it is offered with. */
  datatype OovWord = OovWord(surface: string, length: nat, oov: Oov)

  /** One candidate per OOV of the category, in list order. */
  function WordsOf(surface: string, length: nat, oovs: seq<Oov>): (ws: seq<OovWord>)
    ensures |ws| == |oovs|
    ensures forall k :: 0 <= k < |ws| ==> ws[k] == OovWord(surface, length, oovs[k])
  {
    seq(|oovs|, k requires 0 <= k < |oovs| => OovWord(surface, length, oovs[k]))
  }

  /** The candidates of `i .. maxLength` characters, stopping at the first
      length past `limit` bytes. */
  function SubLengthWords(t: UTF8InputText, offset: nat, i: nat, maxLength: int, limit: int, oovs: seq<Oov>)
    : Result<seq<OovWord>>
    requires |t.byteIndexes| == |t.bytes| + 1
    decreases maxLength - i
  {
    if i > maxLength then Ok([])
    else
      var sub :- CodePointsOffsetLength(t, offset, i);
      if sub > limit then Ok([])
      else
        var s :- GetSubstring(t, offset, offset + sub);
        var rest :- SubLengthWords(t, offset, i + 1, maxLength, limit, oovs);
        Ok(WordsOf(s, sub, oovs) + rest)
  }

  /** Whether the category offers candidates here at all. */
  predicate Offers(info: CategoryInfo, hasOtherWords: bool)
  {
    info.isInvoke || !hasOtherWords
  }

  /** The candidates of one category over a run of `length` bytes: the
      whole run when the category groups, then the shorter ones. Once the
      whole run was offered with at least one OOV, the bound on the shorter
      ones drops to -1 and none is offered. */
  function TypeWords(t: UTF8InputText, offset: nat, length: nat, info: CategoryInfo, oovs: seq<Oov>, hasOtherWords: bool)
    : Result<seq<OovWord>>
    requires |t.byteIndexes| == |t.bytes| + 1
  {
    var grouped := info.isGroup && Offers(info, hasOtherWords);
    var group :- if grouped then GroupWords(t, offset, length, oovs) else Ok([]);
    var limit := if grouped && |oovs| > 0 then -1 else length;
    var subs :- if Offers(info, hasOtherWords) then SubLengthWords(t, offset, 1, info.length, limit, oovs) else Ok([]);
    Ok(group + subs)
  }

  function GroupWords(t: UTF8InputText, offset: nat, length: nat, oovs: seq<Oov>): (r: Result<seq<OovWord>>)
  {
    var s :- GetSubstring(t, offset, offset + length);
    Ok(WordsOf(s, length, oovs))
  }

  /** The candidates of category `ty`: none unless both files define it. */
  function CategoryWords(t: UTF8InputText, offset: nat, length: nat, ty: CategoryType,
                         categories: map<CategoryType, CategoryInfo>, oovList: map<CategoryType, seq<Oov>>,
                         hasOtherWords: bool)
    : Result<seq<OovWord>>
    requires |t.byteIndexes| == |t.bytes| + 1
  {
    if ty !in categories then Ok([])
    else
      var info := categories[ty];
      if info.categoryType !in oovList then Ok([])
      else TypeWords(t, offset, length, info, oovList[info.categoryType], hasOtherWords)
  }

  /** The candidates of the categories in `order`, category by category,
      given the candidates `cw` of each; the error of the first category
      that fails. */
  function CandidatesBy(order: seq<CategoryType>, cw: CategoryType -> Result<seq<OovWord>>): (r: Result<seq<OovWord>>)
  {
    if order == [] then Ok([])
    else
      var ws :- CandidatesBy(order[..|order| - 1], cw);
      var more :- cw(order[|order| - 1]);
      Ok(ws + more)
  }

  /** The candidates of each category at `offset`. */
  function CategoryWordsOf(t: UTF8InputText, offset: nat, length: nat,
                           categories: map<CategoryType, CategoryInfo>, oovList: map<CategoryType, seq<Oov>>,
                           hasOtherWords: bool)
    : CategoryType -> Result<seq<OovWord>>
    requires |t.byteIndexes| == |t.bytes| + 1
  {
    ty => CategoryWords(t, offset, length, ty, categories, oovList, hasOtherWords)
  }

  /** The candidates of the categories in `order`, category by category. */
  function CandidateWords(t: UTF8InputText, offset: nat, length: nat, order: seq<CategoryType>,
                          categories: map<CategoryType, CategoryInfo>, oovList: map<CategoryType, seq<Oov>>,
                          hasOtherWords: bool)
    : Result<seq<OovWord>>
    requires |t.byteIndexes| == |t.bytes| + 1
  {
    CandidatesBy(order, CategoryWordsOf(t, offset, length, categories, oovList, hasOtherWords))
  }

  /** `order` lists the members of `s`, each once. */
  predicate Lists(order: seq<CategoryType>, s: set<CategoryType>)
  {
    (forall ty :: ty in order <==> ty in s)
    && (forall j, k :: 0 <= j < k < |order| ==> order[j] != order[k])
  }

  /** What provide_oov offers at `offset` when it visits the categories of
      the character there in `order`: nothing where no category run starts;
      a byte past the text is an IndexError. */
  function ProvidedWords(t: UTF8InputText, offset: nat, order: seq<CategoryType>,
                         categories: map<CategoryType, CategoryInfo>, oovList: map<CategoryType, seq<Oov>>,
                         hasOtherWords: bool)
    : Result<seq<OovWord>>
    requires |t.byteIndexes| == |t.bytes| + 1
  {
    var length :- GetCharCategoryContinuousLength(t, offset);
    if length > 0 then
      var _ :- CharCategoryTypesAt(t, offset);
      CandidateWords(t, offset, length, order, categories, oovList, hasOtherWords)
    else Ok([])
  }

  /** A candidate over the start of the run: no longer than the run, its
      surface the text of its bytes, and at least one byte inside the text. */
  predicate WithinRun(t: UTF8InputText, offset: nat, length: int, w: OovWord)
  {
    w.length <= length && GetSubstring(t, offset, offset + w.length) == Ok(w.surface)
    && (offset < |t.bytes| ==> w.length >= 1)
  }

  /** The shorter candidates fit under `limit`, and each carries one of the
      category's OOVs. */
  lemma {:induction false} SubLengthWordsWithin(t: UTF8InputText, offset: nat, i: nat, maxLength: int, limit: int,
                                                oovs: seq<Oov>)
    requires |t.byteIndexes| == |t.bytes| + 1 && i >= 1
    ensures var r := SubLengthWords(t, offset, i, maxLength, limit, oovs);
            r.Ok? ==> forall w :: w in r.value ==> WithinRun(t, offset, limit, w) && w.oov in oovs
    decreases maxLength - i
  {
    if i <= maxLength {
      var subR := CodePointsOffsetLength(t, offset, i);
      if subR.Ok? && subR.value <= limit {
        var sub := subR.value;
        var sR := GetSubstring(t, offset, offset + sub);
        var restR := SubLengthWords(t, offset, i + 1, maxLength, limit, oovs);
        if sR.Ok? && restR.Ok? {
          var head := WordsOf(sR.value, sub, oovs);
          assert SubLengthWords(t, offset, i, maxLength, limit, oovs) == Ok(head + restR.value);
          HeadWordsWithin(t, offset, i, limit, oovs);
          SubLengthWordsWithin(t, offset, i + 1, maxLength, limit, oovs);
          ConcatWithin(t, offset, limit, oovs, head, restR.value);
        }
      }
    }
  }

  /** Two lists of candidates within the run make one. */
  lemma ConcatWithin(t: UTF8InputText, offset: nat, limit: int, oovs: seq<Oov>, a: seq<OovWord>, b: seq<OovWord>)
    requires forall w :: w in a ==> WithinRun(t, offset, limit, w) && w.oov in oovs
    requires forall w :: w in b ==> WithinRun(t, offset, limit, w) && w.oov in oovs
    ensures forall w :: w in a + b ==> WithinRun(t, offset, limit, w) && w.oov in oovs
  {
    forall w | w in a + b
      ensures WithinRun(t, offset, limit, w) && w.oov in oovs
    {
      if w !in a {
        assert w in b;
      }
    }
  }

  /** The candidates of `i` characters lie within the run when they fit
      under `limit`. */
  lemma HeadWordsWithin(t: UTF8InputText, offset: nat, i: nat, limit: int, oovs: seq<Oov>)
    requires |t.byteIndexes| == |t.bytes| + 1 && i >= 1
    requires CodePointsOffsetLength(t, offset, i).Ok?
    requires CodePointsOffsetLength(t, offset, i).value <= limit
    requires GetSubstring(t, offset, offset + CodePointsOffsetLength(t, offset, i).value).Ok?
    ensures var sub := CodePointsOffsetLength(t, offset, i).value;
            var s := GetSubstring(t, offset, offset + sub).value;
            forall w :: w in WordsOf(s, sub, oovs) ==> WithinRun(t, offset, limit, w) && w.oov in oovs
  {
    CodePointsOffsetLengthSpans(t, offset, i);
  }

  /** The candidates of one category lie within the run and carry the
      category's OOVs. */
  lemma TypeWordsWithin(t: UTF8InputText, offset: nat, length: nat, info: CategoryInfo, oovs: seq<Oov>,
                        hasOtherWords: bool)
    requires |t.byteIndexes| == |t.bytes| + 1 && length > 0
    ensures var r := TypeWords(t, offset, length, info, oovs, hasOtherWords);
            r.Ok? ==> forall w :: w in r.value ==> WithinRun(t, offset, length, w) && w.oov in oovs
  {
    var grouped := info.isGroup && Offers(info, hasOtherWords);
    var limit := if grouped && |oovs| > 0 then -1 else length;
    SubLengthWordsWithin(t, offset, 1, info.length, limit, oovs);
  }

  /** Where dictionary words start here and a category is not invoked,
      it offers nothing. */
  lemma {:induction false} UninvokedCategoriesYield(t: UTF8InputText, offset: nat, length: nat,
                                                    order: seq<CategoryType>,
                                                    categories: map<CategoryType, CategoryInfo>,
                                                    oovList: map<CategoryType, seq<Oov>>)
    requires |t.byteIndexes| == |t.bytes| + 1
    requires forall ty :: ty in order && ty in categories ==> !categories[ty].isInvoke
    ensures CandidateWords(t, offset, length, order, categories, oovList, true) == Ok([])
  {
    if order != [] {
      UninvokedCategoriesYield(t, offset, length, order[..|order| - 1], categories, oovList);
      var ty := order[|order| - 1];
      var none: seq<OovWord> := [];
      assert none + none == none;
      assert CategoryWords(t, offset, length, ty, categories, oovList, true) == Ok(none);
    }
  }

  /** Every candidate provide_oov offers lies within the run of the
      character category at `offset` and carries an OOV that unk.def gives
      one of the categories of that character. */
  lemma {:induction false} CandidateWordsWithin(t: UTF8InputText, offset: nat, length: nat, order: seq<CategoryType>,
                                                categories: map<CategoryType, CategoryInfo>,
                                                oovList: map<CategoryType, seq<Oov>>, hasOtherWords: bool)
    requires |t.byteIndexes| == |t.bytes| + 1 && length > 0
    ensures var r := CandidateWords(t, offset, length, order, categories, oovList, hasOtherWords);
            r.Ok? ==> forall w :: w in r.value ==>
                        WithinRun(t, offset, length, w)
                        && exists ty :: ty in order && ty in categories
                                        && w.oov in OovsOf(oovList, categories[ty].categoryType)
  {
    var r := CandidateWords(t, offset, length, order, categories, oovList, hasOtherWords);
    if order != [] && r.Ok? {
      var init := order[..|order| - 1];
      var ty := order[|order| - 1];
      CandidateWordsWithin(t, offset, length, init, categories, oovList, hasOtherWords);
      var before := CandidateWords(t, offset, length, init, categories, oovList, hasOtherWords).value;
      var more := CategoryWords(t, offset, length, ty, categories, oovList, hasOtherWords).value;
      if ty in categories && categories[ty].categoryType in oovList {
        TypeWordsWithin(t, offset, length, categories[ty], oovList[categories[ty].categoryType], hasOtherWords);
      }
      forall w | w in r.value
        ensures WithinRun(t, offset, length, w)
        ensures exists u :: u in order && u in categories && w.oov in OovsOf(oovList, categories[u].categoryType)
      {
        if w in before {
          var u :| u in init && u in categories && w.oov in OovsOf(oovList, categories[u].categoryType);
          assert u in order;
        } else {
          assert w in more;
          assert ty in order;
        }
      }
    }
  }

  /** provide_oov offers nothing where no category run starts, and
      otherwise only candidates within the run at `offset`. */
  lemma ProvidedWordsWithinRun(t: UTF8InputText, offset: nat, order: seq<CategoryType>,
                               categories: map<CategoryType, CategoryInfo>,
                               oovList: map<CategoryType, seq<Oov>>, hasOtherWords: bool)
    requires |t.byteIndexes| == |t.bytes| + 1
    ensures offset < |t.continuities| && t.continuities[offset] == 0 ==>
              ProvidedWords(t, offset, order, categories, oovList, hasOtherWords) == Ok([])
    ensures var r := ProvidedWords(t, offset, order, categories, oovList, hasOtherWords);
            r.Ok? && r.value != [] ==>
              offset < |t.continuities|
              && forall w :: w in r.value ==>
                   WithinRun(t, offset, t.continuities[offset], w)
                   && exists ty :: ty in order && ty in categories
                                   && w.oov in OovsOf(oovList, categories[ty].categoryType)
  {
    if offset < |t.continuities| && t.continuities[offset] > 0 {
      CandidateWordsWithin(t, offset, t.continuities[offset], order, categories, oovList, hasOtherWords);
    }
  }

  /** The quirk of provide_oov: once a grouping category offered its whole
      run with at least one OOV, no shorter candidate of it follows, not
      even one shorter than the run. */
  lemma GroupSuppressesSubLengths(t: UTF8InputText, offset: nat, length: nat, info: CategoryInfo, oovs: seq<Oov>,
                                  hasOtherWords: bool)
    requires |t.byteIndexes| == |t.bytes| + 1
    requires info.isGroup && Offers(info, hasOtherWords) && |oovs| > 0
    requires GetSubstring(t, offset, offset + length).Ok?
    ensures TypeWords(t, offset, length, info, oovs, hasOtherWords)
            == Ok(WordsOf(GetSubstring(t, offset, offset + length).value, length, oovs))
  {
    var s := GetSubstring(t, offset, offset + length).value;
    assert SubLengthWords(t, offset, 1, info.length, -1, oovs) == Ok([]);
    assert WordsOf(s, length, oovs) + [] == WordsOf(s, length, oovs);
  }

  /** The nodes stand for the candidates, one for one. */
  predicate Built(ns: seq<LatticeNode>, ws: seq<OovWord>)
    reads ns
  {
    |ns| == |ws|
    && forall k :: 0 <= k < |ns| ==>
         Unplaced(ns[k])
         && IsOovNode(ns[k], ws[k].oov.leftId, ws[k].oov.rightId, ws[k].oov.cost,
                      OovWordInfo(ws[k].surface, ws[k].length, ws[k].oov.posId))
  }

  /** get_oov_node: a new OOV node with the OOV's parameters over the
      candidate `text` of `length` bytes. */
  method GetOovNode(text: string, oov: Oov, length: nat) returns (n: LatticeNode)
    ensures fresh(n) && Unplaced(n)
    ensures IsOovNode(n, oov.leftId, oov.rightId, oov.cost, OovWordInfo(text, length, oov.posId))
  {
    n := NewOovNode(oov.leftId, oov.rightId, oov.cost, OovWordInfo(text, length, oov.posId));
  }

  /** get_oov_node for each OOV of a category. */
  method NodesFor(surface: string, length: nat, oovs: seq<Oov>) returns (ns: seq<LatticeNode>)
    ensures Built(ns, WordsOf(surface, length, oovs))
    ensures forall k :: 0 <= k < |ns| ==> fresh(ns[k])
    ensures forall j, k :: 0 <= j < k < |ns| ==> ns[j] != ns[k]
  {
    ns := [];
    for k := 0 to |oovs|
      invariant Built(ns, WordsOf(surface, length, oovs[..k]))
      invariant forall k :: 0 <= k < |ns| ==> fresh(ns[k])
      invariant forall i, j :: 0 <= i < j < |ns| ==> ns[i] != ns[j]
    {
      var n := GetOovNode(surface, oovs[k], length);
      ns := ns + [n];
    }
    assert oovs[..|oovs|] == oovs;
  }

  /** `r` is the nodes of candidates `w`, or the same error. */
  predicate Matches(r: Result<seq<LatticeNode>>, w: Result<seq<OovWord>>)
    reads if r.Ok? then r.value else []
  {
    (r.Ok? <==> w.Ok?) && (r.Err? ==> r.error == w.error) && (r.Ok? ==> Built(r.value, w.value))
  }

  lemma BuiltAppend(a: seq<LatticeNode>, wa: seq<OovWord>, b: seq<LatticeNode>, wb: seq<OovWord>)
    requires Built(a, wa) && Built(b, wb)
    ensures Built(a + b, wa + wb)
  {
    forall k | 0 <= k < |a + b|
      ensures Unplaced((a + b)[k])
      ensures IsOovNode((a + b)[k], (wa + wb)[k].oov.leftId, (wa + wb)[k].oov.rightId, (wa + wb)[k].oov.cost,
                        OovWordInfo((wa + wb)[k].surface, (wa + wb)[k].length, (wa + wb)[k].oov.posId))
    {
      if k >= |a| {
        assert (a + b)[k] == b[k - |a|] && (wa + wb)[k] == wb[k - |a|];
      }
    }
  }

  /** Two lists without repeats and without common nodes make one. */
  /** No node appears twice. */
  predicate Distinct(ns: seq<LatticeNode>)
  {
    forall j, k :: 0 <= j < k < |ns| ==> ns[j] != ns[k]
  }

  lemma DistinctAppend(a: seq<LatticeNode>, b: seq<LatticeNode>)
    requires forall j, k :: 0 <= j < k < |a| ==> a[j] != a[k]
    requires forall j, k :: 0 <= j < k < |b| ==> b[j] != b[k]
    requires forall n :: n in b ==> n !in a
    ensures forall j, k :: 0 <= j < k < |a + b| ==> (a + b)[j] != (a + b)[k]
  {
    forall j, k | 0 <= j < k < |a + b| ensures (a + b)[j] != (a + b)[k] {
      if k >= |a| && j < |a| {
        assert (a + b)[k] in b;
      }
    }
  }

  /** `ws` followed by the candidates of `r`, or the error of `r`. */
  function Prepend(ws: seq<OovWord>, r: Result<seq<OovWord>>): (x: Result<seq<OovWord>>)
  {
    if r.Ok? then Ok(ws + r.value) else r
  }

  lemma PrependTwice(a: seq<OovWord>, b: seq<OovWord>, r: Result<seq<OovWord>>)
    ensures Prepend(a, Prepend(b, r)) == Prepend(a + b, r)
  {
    if r.Ok? {
      assert a + (b + r.value) == (a + b) + r.value;
    }
  }

  /** One turn of the loop over the lengths: stop past `limit`, else the
      nodes of the candidates of `i` characters, appended to `nodes`. */
  method SubLengthStep(t: UTF8InputText, offset: nat, i: nat, maxLength: int, limit: int, oovs: seq<Oov>,
                       nodes: seq<LatticeNode>, ghost words: seq<OovWord>)
    returns (r: Result<Option<seq<LatticeNode>>>, ghost ws: seq<OovWord>)
    requires |t.byteIndexes| == |t.bytes| + 1 && i <= maxLength
    requires Built(nodes, words) && Distinct(nodes)
    ensures r.Err? ==> SubLengthWords(t, offset, i, maxLength, limit, oovs) == Err(r.error)
    ensures r == Ok(None) ==> SubLengthWords(t, offset, i, maxLength, limit, oovs) == Ok([])
    ensures r.Ok? && r.value.Some? ==>
              SubLengthWords(t, offset, i, maxLength, limit, oovs)
              == Prepend(ws, SubLengthWords(t, offset, i + 1, maxLength, limit, oovs))
              && Built(r.value.value, words + ws) && Distinct(r.value.value)
              && |nodes| <= |r.value.value| && r.value.value[..|nodes|] == nodes
              && forall k :: |nodes| <= k < |r.value.value| ==> fresh(r.value.value[k])
  {
    ws := [];
    var sub :- GetCodePointsOffsetLength(t, offset, i);
    if sub > limit {
      return Ok(None), [];
    }
    var s := GetSubstring(t, offset, offset + sub).value;
    var more := NodesFor(s, sub, oovs);
    ws := WordsOf(s, sub, oovs);
    BuiltAppend(nodes, words, more, ws);
    DistinctAppend(nodes, more);
    assert (nodes + more)[..|nodes|] == nodes;
    r := Ok(Some(nodes + more));
  }

  /** SubLengthStep with the candidates gathered so far carried along. */
  method SubLengthTurn(t: UTF8InputText, offset: nat, i: nat, maxLength: int, limit: int, oovs: seq<Oov>,
                       nodes: seq<LatticeNode>, ghost words: seq<OovWord>, ghost all: Result<seq<OovWord>>)
    returns (r: Result<Option<seq<LatticeNode>>>, ghost words': seq<OovWord>)
    requires |t.byteIndexes| == |t.bytes| + 1 && i <= maxLength
    requires Built(nodes, words) && Distinct(nodes)
    requires all == Prepend(words, SubLengthWords(t, offset, i, maxLength, limit, oovs))
    ensures r.Err? ==> all == Err(r.error)
    ensures r == Ok(None) ==> all == Ok(words)
    ensures r.Ok? && r.value.Some? ==>
              all == Prepend(words', SubLengthWords(t, offset, i + 1, maxLength, limit, oovs))
              && Built(r.value.value, words') && Distinct(r.value.value)
              && |nodes| <= |r.value.value| && r.value.value[..|nodes|] == nodes
              && forall k :: |nodes| <= k < |r.value.value| ==> fresh(r.value.value[k])
  {
    ghost var ws;
    r, ws := SubLengthStep(t, offset, i, maxLength, limit, oovs, nodes, words);
    words' := words + ws;
    if r == Ok(None) {
      assert words + [] == words;
    } else if r.Ok? {
      PrependTwice(words, ws, SubLengthWords(t, offset, i + 1, maxLength, limit, oovs));
    }
  }

  /** The loop over the lengths 1 .. maxLength of provide_oov. */
  method SubLengthNodes(t: UTF8InputText, offset: nat, maxLength: int, limit: int, oovs: seq<Oov>)
    returns (r: Result<seq<LatticeNode>>)
    requires |t.byteIndexes| == |t.bytes| + 1
    ensures Matches(r, SubLengthWords(t, offset, 1, maxLength, limit, oovs))
    ensures r.Ok? ==> (forall k :: 0 <= k < |r.value| ==> fresh(r.value[k])) && Distinct(r.value)
  {
    var nodes: seq<LatticeNode> := [];
    ghost var words: seq<OovWord> := [];
    var i: nat := 1;
    ghost var all := SubLengthWords(t, offset, 1, maxLength, limit, oovs);
    assert all.Ok? ==> [] + all.value == all.value;
    while i <= maxLength
      invariant 1 <= i
      invariant Built(nodes, words) && Distinct(nodes)
      invariant forall k :: 0 <= k < |nodes| ==> fresh(nodes[k])
      invariant all == Prepend(words, SubLengthWords(t, offset, i, maxLength, limit, oovs))
      decreases maxLength - i
    {
      ghost var words';
      var step;
      step, words' := SubLengthTurn(t, offset, i, maxLength, limit, oovs, nodes, words, all);
      if step.Err? {
        return Err(step.error);
      }
      if step.value.None? {
        break;
      }
      var next := step.value.value;
      forall k | 0 <= k < |nodes| ensures fresh(next[k]) {
        assert next[k] == next[..|nodes|][k];
      }
      nodes, words := next, words';
      i := i + 1;
    }
    if i > maxLength {
      SubLengthDone(t, offset, i, maxLength, limit, oovs, words, all);
    }
    r := Ok(nodes);
  }

  lemma SubLengthDone(t: UTF8InputText, offset: nat, i: nat, maxLength: int, limit: int, oovs: seq<Oov>,
                      words: seq<OovWord>, all: Result<seq<OovWord>>)
    requires |t.byteIndexes| == |t.bytes| + 1
    requires i > maxLength && all == Prepend(words, SubLengthWords(t, offset, i, maxLength, limit, oovs))
    ensures all == Ok(words)
  {
    assert words + [] == words;
  }

  /** The candidates of one category: the whole run when it groups, then
      the shorter lengths. */
  method TypeNodes(t: UTF8InputText, offset: nat, length: nat, info: CategoryInfo, oovs: seq<Oov>, hasOtherWords: bool)
    returns (r: Result<seq<LatticeNode>>)
    requires |t.byteIndexes| == |t.bytes| + 1
    ensures Matches(r, TypeWords(t, offset, length, info, oovs, hasOtherWords))
    ensures r.Ok? ==> (forall k :: 0 <= k < |r.value| ==> fresh(r.value[k]))
                      && forall j, k :: 0 <= j < k < |r.value| ==> r.value[j] != r.value[k]
  {
    var nodes: seq<LatticeNode> := [];
    ghost var words: seq<OovWord> := [];
    var llength: int := length;
    if info.isGroup && (info.isInvoke || !hasOtherWords) {
      var s :- GetSubstring(t, offset, offset + length);
      nodes := NodesFor(s, length, oovs);
      words := WordsOf(s, length, oovs);
      if |oovs| > 0 {
        llength := -1;
      }
    }
    if info.isInvoke || !hasOtherWords {
      var more :- SubLengthNodes(t, offset, info.length, llength, oovs);
      BuiltAppend(nodes, words, more, SubLengthWords(t, offset, 1, info.length, llength, oovs).value);
      DistinctAppend(nodes, more);
      nodes := nodes + more;
    }
    r := Ok(nodes);
  }

  /** The candidates of the category `ty` of the character at `offset`. */
  method CategoryNodes(t: UTF8InputText, offset: nat, length: nat, ty: CategoryType,
                       categories: map<CategoryType, CategoryInfo>, oovList: map<CategoryType, seq<Oov>>,
                       hasOtherWords: bool)
    returns (r: Result<seq<LatticeNode>>)
    requires |t.byteIndexes| == |t.bytes| + 1
    ensures Matches(r, CategoryWords(t, offset, length, ty, categories, oovList, hasOtherWords))
    ensures r.Ok? ==> (forall k :: 0 <= k < |r.value| ==> fresh(r.value[k]))
                      && forall j, k :: 0 <= j < k < |r.value| ==> r.value[j] != r.value[k]
  {
    if ty !in categories {
      return Ok([]);
    }
    var info := categories[ty];
    if info.categoryType !in oovList {
      return Ok([]);
    }
    r := TypeNodes(t, offset, length, info, oovList[info.categoryType], hasOtherWords);
  }

  /** Some listing of a set. */
  ghost function Listing(s: set<CategoryType>): (order: seq<CategoryType>)
    ensures Lists(order, s)
    decreases s
  {
    if s == {} then []
    else
      var x :| x in s;
      Listing(s - {x}) + [x]
  }

  /** Once the categories visited first fail, visiting more changes
      nothing. */
  lemma {:induction false} CandidatesFailOn(visited: seq<CategoryType>, more: seq<CategoryType>,
                                            cw: CategoryType -> Result<seq<OovWord>>)
    requires CandidatesBy(visited, cw).Err?
    ensures CandidatesBy(visited + more, cw) == CandidatesBy(visited, cw)
    decreases |more|
  {
    if more == [] {
      assert visited + more == visited;
    } else {
      CandidatesFailOn(visited, more[..|more| - 1], cw);
      assert (visited + more)[..|visited + more| - 1] == visited + more[..|more| - 1];
    }
  }

  /** The loop of provide_oov over the categories `types` of the
      character, in the order a set iterates, reported as `order`. */
  method CandidateNodes(t: UTF8InputText, offset: nat, length: nat, types: set<CategoryType>,
                        categories: map<CategoryType, CategoryInfo>, oovList: map<CategoryType, seq<Oov>>,
                        hasOtherWords: bool)
    returns (r: Result<seq<LatticeNode>>, ghost order: seq<CategoryType>)
    requires |t.byteIndexes| == |t.bytes| + 1
    ensures Lists(order, types)
    ensures Matches(r, CandidateWords(t, offset, length, order, categories, oovList, hasOtherWords))
    ensures r.Ok? ==> (forall k :: 0 <= k < |r.value| ==> fresh(r.value[k]))
                      && forall j, k :: 0 <= j < k < |r.value| ==> r.value[j] != r.value[k]
  {
    ghost var cw := CategoryWordsOf(t, offset, length, categories, oovList, hasOtherWords);
    var remaining := types;
    var nodes: seq<LatticeNode> := [];
    ghost var words: seq<OovWord> := [];
    ghost var visited: seq<CategoryType> := [];
    while remaining != {}
      invariant remaining <= types
      invariant Lists(visited, types - remaining)
      invariant CandidatesBy(visited, cw) == Ok(words)
      invariant Built(nodes, words)
      invariant forall k :: 0 <= k < |nodes| ==> fresh(nodes[k])
      invariant forall j, k :: 0 <= j < k < |nodes| ==> nodes[j] != nodes[k]
      decreases remaining
    {
      var ty :| ty in remaining;
      var more := CategoryNodes(t, offset, length, ty, categories, oovList, hasOtherWords);
      if more.Err? {
        ghost var rest := Listing(remaining - {ty});
        VisitFails(visited, ty, rest, types, remaining, cw);
        return Err(more.error), visited + [ty] + rest;
      }
      ghost var found := CategoryWords(t, offset, length, ty, categories, oovList, hasOtherWords).value;
      VisitSucceeds(visited, ty, types, remaining, cw);
      BuiltAppend(nodes, words, more.value, found);
      DistinctAppend(nodes, more.value);
      nodes, words, visited := nodes + more.value, words + found, visited + [ty];
      remaining := remaining - {ty};
    }
    assert types - remaining == types;
    return Ok(nodes), visited;
  }

  /** A category that fails after the ones visited fails every order
      that visits it next. */
  lemma VisitFails(visited: seq<CategoryType>, ty: CategoryType, rest: seq<CategoryType>,
                   types: set<CategoryType>, remaining: set<CategoryType>, cw: CategoryType -> Result<seq<OovWord>>)
    requires remaining <= types && ty in remaining
    requires Lists(visited, types - remaining) && Lists(rest, remaining - {ty})
    requires CandidatesBy(visited, cw).Ok? && cw(ty).Err?
    ensures Lists(visited + [ty] + rest, types)
    ensures CandidatesBy(visited + [ty] + rest, cw) == Err(cw(ty).error)
  {
    assert (visited + [ty])[..|visited|] == visited;
    assert CandidatesBy(visited + [ty], cw) == Err(cw(ty).error);
    CandidatesFailOn(visited + [ty], rest, cw);
    ListsRest(visited, ty, rest, types, remaining);
  }

  lemma ListsRest(visited: seq<CategoryType>, ty: CategoryType, rest: seq<CategoryType>,
                  types: set<CategoryType>, remaining: set<CategoryType>)
    requires remaining <= types && ty in remaining
    requires Lists(visited, types - remaining) && Lists(rest, remaining - {ty})
    ensures Lists(visited + [ty] + rest, types)
  {
    ListsExtended(visited, ty, rest, types - remaining, remaining - {ty});
    assert types - remaining + {ty} + (remaining - {ty}) == types;
  }

  /** A category that succeeds after the ones visited adds its candidates. */
  lemma VisitSucceeds(visited: seq<CategoryType>, ty: CategoryType, types: set<CategoryType>,
                      remaining: set<CategoryType>, cw: CategoryType -> Result<seq<OovWord>>)
    requires remaining <= types && ty in remaining
    requires Lists(visited, types - remaining)
    requires CandidatesBy(visited, cw).Ok? && cw(ty).Ok?
    ensures Lists(visited + [ty], types - (remaining - {ty}))
    ensures CandidatesBy(visited + [ty], cw) == Ok(CandidatesBy(visited, cw).value + cw(ty).value)
  {
    assert (visited + [ty])[..|visited|] == visited;
    ListsVisit(visited, ty, types, remaining);
  }

  lemma ListsVisit(visited: seq<CategoryType>, ty: CategoryType, types: set<CategoryType>, remaining: set<CategoryType>)
    requires remaining <= types && ty in remaining && Lists(visited, types - remaining)
    ensures Lists(visited + [ty], types - (remaining - {ty}))
  {
    ListsSnoc(visited, ty, types - remaining);
    assert types - remaining + {ty} == types - (remaining - {ty});
  }

  /** One more category, not visited before, extends a listing. */
  lemma ListsSnoc(visited: seq<CategoryType>, ty: CategoryType, done: set<CategoryType>)
    requires Lists(visited, done) && ty !in done
    ensures Lists(visited + [ty], done + {ty})
  {
    var all := visited + [ty];
    forall u ensures u in all <==> u in done + {ty} {
      assert u in all <==> u in visited || u == ty;
    }
    forall j, k | 0 <= j < k < |all| ensures all[j] != all[k] {
      if k == |visited| {
        assert all[j] in visited;
      } else {
        assert all[j] == visited[j] && all[k] == visited[k];
      }
    }
  }

  class MeCabOovPlugin {
    var categories: map<CategoryType, CategoryInfo>
    var oovList: map<CategoryType, seq<Oov>>

    constructor()
      ensures categories == map[] && oovList == map[]
    {
      categories := map[];
      oovList := map[];
    }

    /** read_character_property over the lines of char.def. */
    method ReadCharacterProperty(lines: seq<string>) returns (r: Result<()>)
      modifies this`categories
      ensures var expected := CharacterProperty(old(categories), lines);
              (r.Ok? <==> expected.Ok?) && (r.Err? ==> r.error == expected.error)
              && (r.Ok? ==> categories == expected.value)
    {
      ghost var ps := ParsedCharDef(lines);
      var i := 0;
      while i < |lines|
        invariant i <= |lines|
        invariant DefinedCategories(old(categories), ps, 0) == DefinedCategories(categories, ps, i)
      {
        var parsed :- ParseCharDefLine(lines[i], i + 1);
        match parsed {
          case Ignored =>
          case Defines(ty, name, info) =>
            if ty in categories {
              return Err(AlreadyDefined(name, i + 1));
            }
            var value :- info;
            categories := categories[ty := value];
        }
        i := i + 1;
      }
      r := Ok(());
    }

    /** read_oov over the lines of unk.def. */
    method ReadOov(lines: seq<string>, grammar: Grammar) returns (r: Result<()>)
      modifies this`oovList
      ensures var expected := ReadOovList(old(oovList), lines, categories, grammar);
              (r.Ok? <==> expected.Ok?) && (r.Err? ==> r.error == expected.error)
              && (r.Ok? ==> oovList == expected.value)
    {
      ghost var ps := ParsedUnkDef(lines, categories, grammar);
      ghost var expected := AppendedOovs(oovList, ps, 0);
      var i := 0;
      while i < |lines|
        invariant i <= |lines| == |ps|
        invariant expected == AppendedOovs(oovList, ps, i)
      {
        ParsedUnkDefLine(lines, categories, grammar, i);
        AppendedOovsStep(oovList, ps, i);
        var parsed :- ParseUnkDefLine(lines[i], i + 1, categories, grammar);
        if parsed.Some? {
          var (ty, oov) := parsed.value;
          oovList := oovList[ty := OovsOf(oovList, ty) + [oov]];
        }
        i := i + 1;
      }
      r := Ok(());
    }

    /** set_up with the contents of char.def and unk.def: the categories,
        then the OOVs of the categories. */
    method SetUp(grammar: Grammar, charDef: seq<string>, unkDef: seq<string>) returns (r: Result<()>)
      modifies this
      ensures var cats := CharacterProperty(old(categories), charDef);
              (cats.Err? ==> r == Err(cats.error))
              && (cats.Ok? ==> categories == cats.value
                               && var oovs := ReadOovList(old(oovList), unkDef, cats.value, grammar);
                                  (r.Ok? <==> oovs.Ok?) && (r.Err? ==> r.error == oovs.error)
                                  && (r.Ok? ==> oovList == oovs.value))
    {
      var _ :- ReadCharacterProperty(charDef);
      r := ReadOov(unkDef, grammar);
    }

    /** provide_oov: the candidates of every category of the character at
        `offset`, visited in `order`, the iteration order of a set. */
    method ProvideOov(t: UTF8InputText, offset: nat, hasOtherWords: bool)
      returns (r: Result<seq<LatticeNode>>, ghost order: seq<CategoryType>)
      requires |t.byteIndexes| == |t.bytes| + 1
      ensures CharCategoryTypesAt(t, offset).Ok? ==> Lists(order, CharCategoryTypesAt(t, offset).value)
      ensures Matches(r, ProvidedWords(t, offset, order, categories, oovList, hasOtherWords))
      ensures r.Ok? ==> (forall k :: 0 <= k < |r.value| ==> fresh(r.value[k]))
                        && forall j, k :: 0 <= j < k < |r.value| ==> r.value[j] != r.value[k]
    {
      ghost var typesAt := CharCategoryTypesAt(t, offset);
      order := if typesAt.Ok? then Listing(typesAt.value) else [];
      var length :- GetCharCategoryContinuousLength(t, offset);
      if length == 0 {
        return Ok([]), order;
      }
      var types :- CharCategoryTypesAt(t, offset);
      r, order := CandidateNodes(t, offset, length, types, categories, oovList, hasOtherWords);
    }

    /** get_oov: the candidates of provide_oov, placed at `offset` and
        ending their own length later. */
    method GetOov(t: UTF8InputText, offset: nat, hasOtherWords: bool)
      returns (r: Result<seq<LatticeNode>>, ghost order: seq<CategoryType>)
      requires |t.byteIndexes| == |t.bytes| + 1
      ensures CharCategoryTypesAt(t, offset).Ok? ==> Lists(order, CharCategoryTypesAt(t, offset).value)
      ensures var expected := ProvidedWords(t, offset, order, categories, oovList, hasOtherWords);
              (r.Ok? <==> expected.Ok?) && (r.Err? ==> r.error == expected.error)
              && (r.Ok? ==> |r.value| == |expected.value|
                            && forall k :: 0 <= k < |r.value| ==>
                                 var w := expected.value[k];
                                 IsOovNode(r.value[k], w.oov.leftId, w.oov.rightId, w.oov.cost,
                                           OovWordInfo(w.surface, w.length, w.oov.posId))
                                 && r.value[k].begin == offset && r.value[k].end == offset + w.length
                                 && !r.value[k].isConnectedToBos && r.value[k].bestPreviousNode == null)
      ensures r.Ok? ==> (forall k :: 0 <= k < |r.value| ==> fresh(r.value[k]))
                        && forall j, k :: 0 <= j < k < |r.value| ==> r.value[j] != r.value[k]
    {
      var nodes;
      nodes, order := ProvideOov(t, offset, hasOtherWords);
      if nodes.Err? {
        return Err(nodes.error), order;
      }
      var placed := PlaceNodes(nodes.value, offset);
      r := Ok(nodes.value);
    }
  }

  /** Visiting `ty` after `visited`, then `rest`, lists all three when
      they list disjoint sets. */
  lemma ListsExtended(visited: seq<CategoryType>, ty: CategoryType, rest: seq<CategoryType>,
                      done: set<CategoryType>, left: set<CategoryType>)
    requires Lists(visited, done) && Lists(rest, left)
    requires ty !in done && ty !in left && done !! left
    ensures Lists(visited + [ty] + rest, done + {ty} + left)
  {
    var all := visited + [ty] + rest;
    forall j, k | 0 <= j < k < |all| ensures all[j] != all[k] {
      if j < |visited| && k == |visited| {
        assert all[j] in visited;
      } else if j < |visited| && k > |visited| {
        assert all[j] in visited && all[k] in rest;
      } else if j == |visited| && k > |visited| {
        assert all[k] in rest;
      } else if j > |visited| {
        assert all[j] == rest[j - |visited| - 1] && all[k] == rest[k - |visited| - 1];
      }
    }
  }
}
