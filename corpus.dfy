/** The full-width / half-width character maps of `ja_ginza/corpus.py`:
    the printable ASCII block U+0021..U+007E and its full-width twin
    U+FF01..U+FF5E, and the three per-character translations built on them. */
module Corpus {

  /** Distance between an ASCII character and its full-width form
      (`ord('！') - ord('!')`). */
  const FULL_WIDTH_SHIFT: int := 0xFEE0

  predicate IsHalf(c: char) { '!' <= c <= '~' }

  predicate IsFull(c: char) { '！' <= c <= '～' }

  /** HALF_FULL_MAP: every character from `!` to `~` to its full-width form. */
  const HalfFullMap: map<char, char> :=
    map c: char | '!' <= c <= '~' :: (c as int + FULL_WIDTH_SHIFT) as char

  /** FULL_HALF_MAP, the comprehension `{v: k for k, v in HALF_FULL_MAP.items()}`,
      written out as the shift back down; FullHalfMapInverts proves it is
      exactly that inversion. */
  const FullHalfMap: map<char, char> :=
    map f: char | '！' <= f <= '～' :: (f as int - FULL_WIDTH_SHIFT) as char

  /** TURN_FULL_HALF_MAP: FULL_HALF_MAP updated with HALF_FULL_MAP. */
  const TurnFullHalfMap: map<char, char> := FullHalfMap + HalfFullMap

  /** `''.join([m[c] if c in m else c for c in s])`. */
  function Translate(m: map<char, char>, s: string): (r: string)
    ensures |r| == |s|
    ensures forall i :: 0 <= i < |s| ==> r[i] == (if s[i] in m then m[s[i]] else s[i])
  {
    seq(|s|, i requires 0 <= i < |s| => if s[i] in m then m[s[i]] else s[i])
  }

  /** to_full: the half-width characters become full-width (ToFullChanges). */
  function ToFull(s: string): (r: string)
    ensures |r| == |s|
  {
    Translate(HalfFullMap, s)
  }

  /** to_half: the full-width characters become half-width (ToHalfChanges). */
  function ToHalf(s: string): (r: string)
    ensures |r| == |s|
  {
    Translate(FullHalfMap, s)
  }

  /** turn_full_half: each width swapped for the other (TurnFullHalfInvolution). */
  function TurnFullHalf(s: string): (r: string)
    ensures |r| == |s|
  {
    Translate(TurnFullHalfMap, s)
  }

  /** HALF_FULL_MAP maps exactly the characters `!`..`~`, each to the code
      point 0xFEE0 above it. */
  lemma HalfFullMapShifts(c: char)
    ensures c in HalfFullMap <==> IsHalf(c)
    ensures c in HalfFullMap ==> HalfFullMap[c] as int == c as int + FULL_WIDTH_SHIFT
    ensures c in HalfFullMap ==> IsFull(HalfFullMap[c])
  {
  }

  /** FULL_HALF_MAP is defined exactly on `！`..`～` and undoes HALF_FULL_MAP
      in both directions. */
  lemma FullHalfMapInverts(c: char)
    ensures c in FullHalfMap <==> IsFull(c)
    ensures c in HalfFullMap ==> FullHalfMap[HalfFullMap[c]] == c
    ensures c in FullHalfMap ==> FullHalfMap[c] in HalfFullMap && HalfFullMap[FullHalfMap[c]] == c
  {
    if c in HalfFullMap {
      var f := HalfFullMap[c];
      assert f as int == c as int + FULL_WIDTH_SHIFT;
      assert f in FullHalfMap;
    }
  }

  /** The two key sets are disjoint, so the turn map sends every half-width
      character to its full form and every full-width one to its half form. */
  lemma TurnMapSwaps(c: char)
    ensures c in TurnFullHalfMap <==> IsHalf(c) || IsFull(c)
    ensures IsHalf(c) ==> TurnFullHalfMap[c] == HalfFullMap[c]
    ensures IsFull(c) ==> TurnFullHalfMap[c] == FullHalfMap[c]
  {
    FullHalfMapInverts(c);
  }

  /** to_full changes exactly the half-width characters. */
  lemma ToFullChanges(s: string)
    ensures |ToFull(s)| == |s|
    ensures forall i :: 0 <= i < |s| ==>
      (ToFull(s)[i] != s[i] <==> IsHalf(s[i])) &&
      (IsHalf(s[i]) ==> ToFull(s)[i] as int == s[i] as int + FULL_WIDTH_SHIFT)
  {
    forall i | 0 <= i < |s| {
      HalfFullMapShifts(s[i]);
    }
  }

  /** to_half changes exactly the full-width characters. */
  lemma ToHalfChanges(s: string)
    ensures |ToHalf(s)| == |s|
    ensures forall i :: 0 <= i < |s| ==>
      (ToHalf(s)[i] != s[i] <==> IsFull(s[i])) &&
      (IsFull(s[i]) ==> ToHalf(s)[i] as int == s[i] as int - FULL_WIDTH_SHIFT)
  {
    forall i | 0 <= i < |s|
      ensures (ToHalf(s)[i] != s[i] <==> IsFull(s[i])) &&
        (IsFull(s[i]) ==> ToHalf(s)[i] as int == s[i] as int - FULL_WIDTH_SHIFT)
    {
      FullHalfMapInverts(s[i]);
      if IsFull(s[i]) {
        HalfFullMapShifts(ToHalf(s)[i]);
      }
    }
  }

  /** Widening first does not change the halved result. */
  lemma ToHalfAfterToFull(s: string)
    ensures ToHalf(ToFull(s)) == ToHalf(s)
  {
    forall i | 0 <= i < |s|
      ensures ToHalf(ToFull(s))[i] == ToHalf(s)[i]
    {
      HalfFullMapShifts(s[i]);
      FullHalfMapInverts(s[i]);
    }
  }

  /** A text with no full-width character comes back from to_half unchanged,
      and it also survives to_full followed by to_half. */
  lemma ToHalfKeepsHalfText(s: string)
    requires forall i :: 0 <= i < |s| ==> !IsFull(s[i])
    ensures ToHalf(s) == s
    ensures ToHalf(ToFull(s)) == s
  {
    ToHalfChanges(s);
    ToHalfAfterToFull(s);
  }

  /** turn_full_half is an involution. */
  lemma TurnFullHalfInvolution(s: string)
    ensures TurnFullHalf(TurnFullHalf(s)) == s
  {
    forall i | 0 <= i < |s|
      ensures TurnFullHalf(TurnFullHalf(s))[i] == s[i]
    {
      var c := s[i];
      TurnMapSwaps(c);
      HalfFullMapShifts(c);
      FullHalfMapInverts(c);
      if c in TurnFullHalfMap {
        var d := TurnFullHalfMap[c];
        TurnMapSwaps(d);
        HalfFullMapShifts(d);
        FullHalfMapInverts(d);
      }
    }
  }
}
