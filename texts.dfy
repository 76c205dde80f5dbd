/** The string operations the dictionary and plugin parsers rely on:
    Python's `str` methods and the `re` patterns `\s*`, `\s+` and `#`,
    restricted to ASCII whitespace and ASCII digits. Python's own versions
    also take the other Unicode whitespace (U+00A0, U+3000, ...) and, in
    `int()`, Unicode decimal digits, surrounding whitespace and `_`
    separators; this model does not. */
module Texts {
  import opened Wrappers

  /** The six ASCII whitespace characters. Python's `str.isspace` and `\s`
      match these and also the non-ASCII Unicode whitespace, which this
      predicate leaves out. */
  predicate IsSpace(c: char)
  {
    c == ' ' || c == '\t' || c == '\n' || c == '\r' || c == '\U{B}' || c == '\U{C}'
  }

  predicate StartsWith(s: string, prefix: string)
  {
    |prefix| <= |s| && s[..|prefix|] == prefix
  }

  /** `re.fullmatch(r"\s*", s)`. */
  predicate IsBlank(s: string)
  {
    forall i :: 0 <= i < |s| ==> IsSpace(s[i])
  }

  /** `s.rstrip()`: the trailing whitespace removed. */
  function RStrip(s: string): (r: string)
    ensures r <= s
    ensures |r| > 0 ==> !IsSpace(r[|r| - 1])
    ensures forall i :: |r| <= i < |s| ==> IsSpace(s[i])
  {
    if |s| > 0 && IsSpace(s[|s| - 1]) then RStrip(s[..|s| - 1]) else s
  }

  /** `s.lstrip()`: the leading whitespace removed. */
  function LStrip(s: string): (r: string)
    ensures |r| <= |s| && r == s[|s| - |r|..]
    ensures |r| > 0 ==> !IsSpace(r[0])
    ensures forall i :: 0 <= i < |s| - |r| ==> IsSpace(s[i])
  {
    if |s| > 0 && IsSpace(s[0]) then LStrip(s[1..]) else s
  }

  /** `s.strip()`. */
  function Strip(s: string): string
  {
    LStrip(RStrip(s))
  }

  /** The index of the first whitespace character at or after `i`, or `|s|`. */
  function NextSpace(s: string, i: nat): (j: nat)
    requires i <= |s|
    ensures i <= j <= |s|
    ensures forall k :: i <= k < j ==> !IsSpace(s[k])
    ensures j < |s| ==> IsSpace(s[j])
    decreases |s| - i
  {
    if i == |s| || IsSpace(s[i]) then i else NextSpace(s, i + 1)
  }

  /** The end of the whitespace run that starts at `i`. */
  function SpaceRunEnd(s: string, i: nat): (j: nat)
    requires i <= |s|
    ensures i <= j <= |s|
    ensures forall k :: i <= k < j ==> IsSpace(s[k])
    ensures j < |s| ==> !IsSpace(s[j])
    decreases |s| - i
  {
    if i == |s| || !IsSpace(s[i]) then i else SpaceRunEnd(s, i + 1)
  }

  /** `re.split(r"\s+", s)`: the pieces between maximal runs of whitespace;
      a leading run gives an empty first piece, a trailing run an empty
      last piece, and the empty string gives `[""]`. */
  function SplitSpaces(s: string): (r: seq<string>)
    ensures |r| >= 1
    ensures forall k :: 0 <= k < |r| ==> forall c :: c in r[k] ==> !IsSpace(c)
    ensures forall k :: 0 < k < |r| - 1 ==> |r[k]| > 0
    ensures (forall c :: c in s ==> !IsSpace(c)) ==> r == [s]
    decreases |s|
  {
    var i := NextSpace(s, 0);
    if i == |s| then
      assert forall c :: c in s ==> !IsSpace(c) by {
        forall c | c in s ensures !IsSpace(c) {
          var k :| 0 <= k < |s| && s[k] == c;
        }
      }
      [s]
    else
      var j := SpaceRunEnd(s, i);
      var rest := SplitSpaces(s[j..]);
      assert forall c :: c in s[..i] ==> !IsSpace(c) by {
        forall c | c in s[..i] ensures !IsSpace(c) {
          var k :| 0 <= k < i && s[..i][k] == c;
        }
      }
      assert j < |s| ==> |rest[0]| > 0 by {
        if j < |s| {
          assert s[j..][0] == s[j];
          assert NextSpace(s[j..], 0) > 0;
        }
      }
      [s[..i]] + rest
  }

  /** Whether `sep` occurs in `s` at `i`. */
  predicate OccursAt(s: string, sep: string, i: nat)
  {
    i + |sep| <= |s| && s[i .. i + |sep|] == sep
  }

  /** `s.split(sep)` for a non-empty separator: the pieces between the
      leftmost non-overlapping occurrences of `sep`. */
  function Split(s: string, sep: string): (r: seq<string>)
    requires |sep| > 0
    ensures |r| >= 1
    decreases |s|, 1
  {
    SplitFrom(s, sep, 0)
  }

  function SplitFrom(s: string, sep: string, i: nat): (r: seq<string>)
    requires |sep| > 0 && i <= |s|
    ensures |r| >= 1
    decreases |s|, 0, |s| - i
  {
    if i + |sep| > |s| then [s]
    else if OccursAt(s, sep, i) then [s[..i]] + Split(s[i + |sep|..], sep)
    else SplitFrom(s, sep, i + 1)
  }

  /** `sep.join(parts)`. */
  function Join(parts: seq<string>, sep: string): string
  {
    if |parts| == 0 then ""
    else if |parts| == 1 then parts[0]
    else parts[0] + sep + Join(parts[1..], sep)
  }

  /** Joining the pieces of a split with its separator gives back the text. */
  lemma {:induction false} JoinSplit(s: string, sep: string)
    requires |sep| > 0
    ensures Join(Split(s, sep), sep) == s
    decreases |s|, 1
  {
    JoinSplitFrom(s, sep, 0);
  }

  lemma {:induction false} JoinSplitFrom(s: string, sep: string, i: nat)
    requires |sep| > 0 && i <= |s|
    ensures Join(SplitFrom(s, sep, i), sep) == s
    decreases |s|, 0, |s| - i
  {
    if i + |sep| > |s| {
    } else if OccursAt(s, sep, i) {
      var rest := Split(s[i + |sep|..], sep);
      JoinSplit(s[i + |sep|..], sep);
      assert SplitFrom(s, sep, i) == [s[..i]] + rest;
      assert s == s[..i] + sep + s[i + |sep|..];
    } else {
      JoinSplitFrom(s, sep, i + 1);
    }
  }

  function HexDigit(c: char): (r: Option<nat>)
  {
    if '0' <= c <= '9' then Some(c as nat - '0' as nat)
    else if 'a' <= c <= 'f' then Some(c as nat - 'a' as nat + 10)
    else if 'A' <= c <= 'F' then Some(c as nat - 'A' as nat + 10)
    else None
  }

  /** The value of a string of digits in `base` (10 or 16), most
      significant first; None when a character is not such a digit. */
  function DigitsValue(s: string, base: nat): (r: Option<nat>)
    requires base == 10 || base == 16
  {
    if |s| == 0 then Some(0)
    else
      match (DigitsValue(s[..|s| - 1], base), HexDigit(s[|s| - 1]))
      case (Some(v), Some(d)) => if d < base then Some(v * base + d) else None
      case _ => None
  }

  /** `int(s, 16)` restricted to ASCII: an optional `0x` or `0X` prefix,
      then at least one hexadecimal digit. Python also accepts surrounding
      whitespace, a sign and `_` separators. */
  function ParseHex(s: string): (r: Result<nat>)
    ensures r.Err? ==> r.error.ValueError?
  {
    var digits := if StartsWith(s, "0x") || StartsWith(s, "0X") then s[2..] else s;
    if |digits| == 0 then Err(ValueError("invalid literal for int() with base 16"))
    else match DigitsValue(digits, 16)
      case Some(v) => Ok(v)
      case None => Err(ValueError("invalid literal for int() with base 16"))
  }

  /** `int(s)` restricted to ASCII: an optional sign, then at least one
      decimal digit. Python also accepts surrounding whitespace, `_`
      separators and non-ASCII decimal digits. */
  function ParseInt(s: string): (r: Result<int>)
    ensures r.Err? ==> r.error.ValueError?
  {
    var negative := StartsWith(s, "-");
    var digits := if StartsWith(s, "-") || StartsWith(s, "+") then s[1..] else s;
    if |digits| == 0 then Err(ValueError("invalid literal for int() with base 10"))
    else match DigitsValue(digits, 10)
      case Some(v) => var n: int := if negative then 0 - v as int else v; Ok(n)
      case None => Err(ValueError("invalid literal for int() with base 10"))
  }

  /** `str(n)` for a natural number. */
  function NatToString(n: nat): (r: string)
    ensures |r| >= 1
    ensures forall c :: c in r ==> '0' <= c <= '9'
  {
    if n < 10 then [('0' as nat + n) as char]
    else NatToString(n / 10) + [('0' as nat + n % 10) as char]
  }

  /** `str(n)` for any integer. */
  function IntToString(n: int): (r: string)
  {
    if n < 0 then "-" + NatToString(-n) else NatToString(n)
  }

  lemma {:induction false} DigitsOfNatToString(n: nat)
    ensures DigitsValue(NatToString(n), 10) == Some(n)
  {
    var s := NatToString(n);
    if n >= 10 {
      DigitsOfNatToString(n / 10);
      assert s[..|s| - 1] == NatToString(n / 10);
    }
  }

  /** Printing an integer and parsing it back gives the integer. */
  lemma ParseIntToString(n: int)
    ensures ParseInt(IntToString(n)) == Ok(n)
  {
    if n < 0 {
      DigitsOfNatToString(-n);
      assert IntToString(n)[1..] == NatToString(-n);
    } else {
      DigitsOfNatToString(n);
      var s := NatToString(n);
      assert !StartsWith(s, "-") && !StartsWith(s, "+") by {
        assert s[0] in s;
      }
    }
  }
}
