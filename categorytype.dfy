/** The character categories of the character definition, each a distinct
    bit flag. */
module CategoryTypes {
  import opened Wrappers
  import opened NatBits

  datatype CategoryType =
    | DEFAULT | SPACE | KANJI | SYMBOL | NUMERIC | ALPHA | HIRAGANA | KATAKANA
    | KANJINUMERIC | GREEK | CYRILLIC | USER1 | USER2 | USER3 | USER4 | NOOOVBOW

  /** The flag's bit position, in declaration order. */
  function Position(t: CategoryType): (k: nat)
    ensures k < 16
  {
    match t
    case DEFAULT => 0 case SPACE => 1 case KANJI => 2 case SYMBOL => 3
    case NUMERIC => 4 case ALPHA => 5 case HIRAGANA => 6 case KATAKANA => 7
    case KANJINUMERIC => 8 case GREEK => 9 case CYRILLIC => 10 case USER1 => 11
    case USER2 => 12 case USER3 => 13 case USER4 => 14 case NOOOVBOW => 15
  }

  /** The member's value: 1 shifted left by its position. */
  function Value(t: CategoryType): (v: nat)
  {
    Pow2(Position(t))
  }

  /** Each member has its own bit position. */
  lemma PositionsDistinct(t: CategoryType, u: CategoryType)
    ensures Position(t) == Position(u) <==> t == u
  {
  }

  /** The values are powers of two from 1 to 1 << 15, one bit each, so no
      two members share a value. */
  lemma ValuesAreFlags(t: CategoryType, u: CategoryType)
    ensures 1 <= Value(t) <= 0x8000
    ensures Value(t) == Value(u) <==> t == u
  {
    PositionsDistinct(t, u);
    Pow2Bit(Position(t), Position(t));
    Pow2Bit(Position(u), Position(t));
    Pow2Mono(Position(t), 15);
    Pow2Of15();
  }

  lemma Pow2Of15()
    ensures Pow2(15) == 0x8000
  {
    assert Pow2(5) == 32;
    assert Pow2(10) == 1024;
  }

  /** DEFAULT is 1 and NOOOVBOW is 1 << 15. */
  lemma FirstAndLastValues()
    ensures Value(DEFAULT) == 1 && Value(NOOOVBOW) == 0x8000
  {
    Pow2Of15();
  }

  lemma {:induction false} Pow2Mono(j: nat, k: nat)
    requires j <= k
    ensures Pow2(j) <= Pow2(k)
    decreases k
  {
    if j < k {
      Pow2Mono(j, k - 1);
    }
  }

  function Name(t: CategoryType): string
  {
    match t
    case DEFAULT => "DEFAULT" case SPACE => "SPACE" case KANJI => "KANJI"
    case SYMBOL => "SYMBOL" case NUMERIC => "NUMERIC" case ALPHA => "ALPHA"
    case HIRAGANA => "HIRAGANA" case KATAKANA => "KATAKANA"
    case KANJINUMERIC => "KANJINUMERIC" case GREEK => "GREEK"
    case CYRILLIC => "CYRILLIC" case USER1 => "USER1" case USER2 => "USER2"
    case USER3 => "USER3" case USER4 => "USER4" case NOOOVBOW => "NOOOVBOW"
  }

  /** get: the member with exactly that name, or None (the KeyError of the
      enum lookup is caught). */
  function Get(name: string): (r: Option<CategoryType>)
    ensures r.Some? ==> Name(r.value) == name
  {
    if name == "DEFAULT" then Some(DEFAULT)
    else if name == "SPACE" then Some(SPACE)
    else if name == "KANJI" then Some(KANJI)
    else if name == "SYMBOL" then Some(SYMBOL)
    else if name == "NUMERIC" then Some(NUMERIC)
    else if name == "ALPHA" then Some(ALPHA)
    else if name == "HIRAGANA" then Some(HIRAGANA)
    else if name == "KATAKANA" then Some(KATAKANA)
    else if name == "KANJINUMERIC" then Some(KANJINUMERIC)
    else if name == "GREEK" then Some(GREEK)
    else if name == "CYRILLIC" then Some(CYRILLIC)
    else if name == "USER1" then Some(USER1)
    else if name == "USER2" then Some(USER2)
    else if name == "USER3" then Some(USER3)
    else if name == "USER4" then Some(USER4)
    else if name == "NOOOVBOW" then Some(NOOOVBOW)
    else None
  }

  /** Every member is found under its own name, so get returns None
      exactly for the strings that name no member. */
  lemma GetName(t: CategoryType)
    ensures Get(Name(t)) == Some(t)
  {
  }

  /** The members in declaration order, the order `values()` yields them. */
  const MEMBERS: seq<CategoryType> :=
    [DEFAULT, SPACE, KANJI, SYMBOL, NUMERIC, ALPHA, HIRAGANA, KATAKANA,
     KANJINUMERIC, GREEK, CYRILLIC, USER1, USER2, USER3, USER4, NOOOVBOW]

  lemma MemberAtPosition(t: CategoryType)
    ensures |MEMBERS| == 16 && MEMBERS[Position(t)] == t
  {
  }

  /** The AttributeError of reading an attribute an Enum member or the Enum
      class does not have. */
  const NO_ATTRIBUTE: Error := AttributeError("CategoryType has no such attribute")

  /** get_id: an Enum member has `value` and `name` but no `id`, so every
      call raises AttributeError. */
  function GetId(t: CategoryType): (r: Result<nat>)
    ensures r.Err? && r.error.AttributeError?
  {
    Err(NO_ATTRIBUTE)
  }

  /** get_type as written: its loop starts by calling `CategoryType.values()`,
      which an Enum class does not have, so every call raises AttributeError
      before any member is compared (see Findings). */
  function GetType(id: int): (r: Result<Option<CategoryType>>)
    ensures r.Err? && r.error.AttributeError?
  {
    Err(NO_ATTRIBUTE)
  }

  /** get_type fails even for the value of a member. */
  lemma GetTypeNeverFinds(t: CategoryType)
    ensures GetType(Value(t)) != Ok(Some(t))
  {
  }

  /** The scan get_type evidently intends, from the k-th member on, comparing
      values by equality. */
  function TypeFrom(id: int, k: nat): (r: Option<CategoryType>)
    requires k <= |MEMBERS|
    decreases |MEMBERS| - k
    ensures r.Some? ==> Value(r.value) == id
    ensures r.None? ==> forall j :: k <= j < |MEMBERS| ==> Value(MEMBERS[j]) != id
  {
    if k == |MEMBERS| then None
    else if Value(MEMBERS[k]) == id then Some(MEMBERS[k])
    else TypeFrom(id, k + 1)
  }

  /** The intended get_type: the first member, in declaration order, whose
      value is the given id, or None. */
  function IntendedGetType(id: int): (r: Option<CategoryType>)
    ensures r.Some? ==> Value(r.value) == id
    ensures r.None? ==> forall t :: Value(t) != id
  {
    var r := TypeFrom(id, 0);
    if r.None? then
      assert forall t :: Value(t) != id by {
        forall t ensures Value(t) != id {
          MemberAtPosition(t);
        }
      }
      r
    else r
  }

  lemma {:induction false} TypeFromFinds(t: CategoryType, k: nat)
    requires k <= Position(t)
    ensures TypeFrom(Value(t), k) == Some(t)
    decreases Position(t) - k
  {
    MemberAtPosition(t);
    if k < Position(t) {
      MemberAtPosition(MEMBERS[k]);
      ValuesAreFlags(MEMBERS[k], t);
      TypeFromFinds(t, k + 1);
    }
  }

  /** The intended get_type finds every member by its value, so it returns
      None exactly for the ids that are no member's value. */
  lemma GetTypeFinds(t: CategoryType)
    ensures IntendedGetType(Value(t)) == Some(t)
  {
    TypeFromFinds(t, 0);
  }
}
