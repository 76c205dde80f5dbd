/** The character encodings the dictionary format and the input text use:
    UTF-8 (RFC 3629, section 3) and UTF-16 (RFC 2781, section 2.1).
    A Dafny `char` is a Unicode scalar value, so every string here is
    well formed and has an encoding. */
module Unicode {
  import opened Wrappers
  import opened Bytes
  import opened NatBits

  // ---- UTF-8 ------------------------------------------------------------------

  function EncodeCharUtf8(c: char): (r: seq<byte>)
    ensures 1 <= |r| <= 4
  {
    var cp := c as int;
    if cp < 0x80 then [cp]
    else if cp < 0x800 then [0xC0 + cp / 64, 0x80 + cp % 64]
    else if cp < 0x10000 then [0xE0 + cp / 4096, 0x80 + (cp / 64) % 64, 0x80 + cp % 64]
    else [0xF0 + cp / 262144, 0x80 + (cp / 4096) % 64, 0x80 + (cp / 64) % 64, 0x80 + cp % 64]
  }

  function EncodeUtf8(s: string): (r: seq<byte>)
    ensures |r| >= |s|
  {
    if s == [] then [] else EncodeCharUtf8(s[0]) + EncodeUtf8(s[1..])
  }

  /** A UTF-8 continuation byte has the form 10xxxxxx. */
  predicate IsContinuation(b: byte) { 0x80 <= b < 0xC0 }

  /** The first byte of an encoded character starts it; the others continue it. */
  lemma EncodeCharShape(c: char)
    ensures !IsContinuation(EncodeCharUtf8(c)[0])
    ensures forall i :: 1 <= i < |EncodeCharUtf8(c)| ==> IsContinuation(EncodeCharUtf8(c)[i])
  {
  }

  lemma {:induction false} EncodeUtf8Append(s: string, t: string)
    ensures EncodeUtf8(s + t) == EncodeUtf8(s) + EncodeUtf8(t)
  {
    if s == [] {
      assert s + t == t;
    } else {
      assert (s + t)[1..] == s[1..] + t;
      EncodeUtf8Append(s[1..], t);
    }
  }

  /** Decodes the character at the head of `bs`, with the number of bytes it took. */
  function DecodeCharUtf8(bs: seq<byte>): (r: Option<(char, nat)>)
    ensures r.Some? ==> 1 <= r.value.1 <= |bs|
  {
    if bs == [] then None
    else
      var b0 := bs[0] as int;
      if b0 < 0x80 then Some((b0 as char, 1))
      else if 0xC2 <= b0 < 0xE0 && |bs| >= 2 && IsContinuation(bs[1]) then
        Some((((b0 - 0xC0) * 64 + (bs[1] as int - 0x80)) as char, 2))
      else if 0xE0 <= b0 < 0xF0 && |bs| >= 3 && IsContinuation(bs[1]) && IsContinuation(bs[2]) then
        var cp := (b0 - 0xE0) * 4096 + (bs[1] as int - 0x80) * 64 + (bs[2] as int - 0x80);
        if cp < 0x800 || 0xD800 <= cp < 0xE000 then None else Some((cp as char, 3))
      else if 0xF0 <= b0 < 0xF5 && |bs| >= 4 && IsContinuation(bs[1]) && IsContinuation(bs[2]) && IsContinuation(bs[3]) then
        var cp := (b0 - 0xF0) * 262144 + (bs[1] as int - 0x80) * 4096 + (bs[2] as int - 0x80) * 64 + (bs[3] as int - 0x80);
        if cp < 0x10000 || cp > 0x10FFFF then None else Some((cp as char, 4))
      else None
  }

  /** `bytes.decode('utf-8')` with strict error handling. */
  function DecodeUtf8(bs: seq<byte>): (r: Result<string>)
    decreases |bs|
  {
    if bs == [] then Ok("")
    else match DecodeCharUtf8(bs)
      case None => Err(UnicodeDecodeError("invalid utf-8"))
      case Some((c, n)) =>
        var rest :- DecodeUtf8(bs[n..]);
        Ok([c] + rest)
  }

  lemma DecodeCharUtf8Encode(c: char, rest: seq<byte>)
    ensures DecodeCharUtf8(EncodeCharUtf8(c) + rest) == Some((c, |EncodeCharUtf8(c)|))
  {
    var cp := c as int;
    if cp >= 0x10000 {
      DecodeFourBytes(c, rest);
    } else if cp >= 0x800 {
      DecodeThreeBytes(c, rest);
    }
  }

  lemma DecodeThreeBytes(c: char, rest: seq<byte>)
    requires 0x800 <= c as int < 0x10000
    ensures DecodeCharUtf8(EncodeCharUtf8(c) + rest) == Some((c, 3))
  {
    var cp := c as int;
    var a, b, d := cp / 4096, (cp / 64) % 64, cp % 64;
    ThreeDigits(cp);
    var bs := EncodeCharUtf8(c) + rest;
    assert bs[0] == 0xE0 + a && bs[1] == 0x80 + b && bs[2] == 0x80 + d;
  }

  lemma ThreeDigits(cp: int)
    requires 0 <= cp
    ensures cp == (cp / 4096) * 4096 + ((cp / 64) % 64) * 64 + cp % 64
  {
  }

  lemma DecodeFourBytes(c: char, rest: seq<byte>)
    requires 0x10000 <= c as int
    ensures DecodeCharUtf8(EncodeCharUtf8(c) + rest) == Some((c, 4))
  {
    var cp := c as int;
    var a, b, d2, d := cp / 262144, (cp / 4096) % 64, (cp / 64) % 64, cp % 64;
    FourDigits(cp);
    var bs := EncodeCharUtf8(c) + rest;
    assert bs[0] == 0xF0 + a && bs[1] == 0x80 + b && bs[2] == 0x80 + d2 && bs[3] == 0x80 + d;
  }

  lemma FourDigits(cp: int)
    requires 0 <= cp
    ensures cp == (cp / 262144) * 262144 + ((cp / 4096) % 64) * 4096 + ((cp / 64) % 64) * 64 + cp % 64
  {
    var q, r := cp / 262144, cp % 262144;
    DivModUnique(cp, 4096, 64 * q + r / 4096, r % 4096);
    DivModUnique(cp / 4096, 64, q, r / 4096);
    DivModUnique(cp, 64, 4096 * q + r / 64, r % 64);
    DivModUnique(cp / 64, 64, 64 * q + (r / 64) / 64, (r / 64) % 64);
    ThreeDigits(r);
  }



  /** Decoding the UTF-8 encoding of a string gives the string back. */
  lemma {:induction false} DecodeEncodeUtf8(s: string)
    ensures DecodeUtf8(EncodeUtf8(s)) == Ok(s)
  {
    if s != [] {
      var e := EncodeCharUtf8(s[0]);
      DecodeCharUtf8Encode(s[0], EncodeUtf8(s[1..]));
      assert (e + EncodeUtf8(s[1..]))[|e|..] == EncodeUtf8(s[1..]);
      DecodeEncodeUtf8(s[1..]);
      assert s == [s[0]] + s[1..];
    }
  }

  // ---- UTF-16 -----------------------------------------------------------------

  /** The UTF-16 code units of one character: a surrogate pair above U+FFFF. */
  function Utf16Units(c: char): (r: seq<nat>)
    ensures |r| == (if c as int >= 0x10000 then 2 else 1)
    ensures forall u :: u in r ==> u < 0x10000
  {
    var cp := c as int;
    if cp < 0x10000 then [cp]
    else [0xD800 + (cp - 0x10000) / 1024, 0xDC00 + (cp - 0x10000) % 1024]
  }

  /** The number of UTF-16 code units of a string. */
  function Utf16Length(s: string): nat
  {
    if s == [] then 0 else |Utf16Units(s[0])| + Utf16Length(s[1..])
  }

  function UnitBytes(u: nat, littleEndian: bool): seq<byte>
    requires u < 0x10000
  {
    if littleEndian then [u % 256, u / 256] else [u / 256, u % 256]
  }

  function EncodeCharUtf16(c: char, littleEndian: bool): (r: seq<byte>)
    ensures |r| == 2 * |Utf16Units(c)|
  {
    var us := Utf16Units(c);
    if |us| == 1 then UnitBytes(us[0], littleEndian)
    else UnitBytes(us[0], littleEndian) + UnitBytes(us[1], littleEndian)
  }

  /** `text.encode('utf-16-le')`. */
  function EncodeUtf16Le(s: string): (r: seq<byte>)
  {
    if s == [] then [] else EncodeCharUtf16(s[0], true) + EncodeUtf16Le(s[1..])
  }

  lemma {:induction false} EncodeUtf16LeLength(s: string)
    ensures |EncodeUtf16Le(s)| == 2 * Utf16Length(s)
  {
    if s != [] { EncodeUtf16LeLength(s[1..]); }
  }

  lemma {:induction false} Utf16LengthAppend(s: string, t: string)
    ensures Utf16Length(s + t) == Utf16Length(s) + Utf16Length(t)
  {
    if s == [] {
      assert s + t == t;
    } else {
      assert (s + t)[1..] == s[1..] + t;
      Utf16LengthAppend(s[1..], t);
    }
  }

  lemma {:induction false} EncodeUtf16LeAppend(s: string, t: string)
    ensures EncodeUtf16Le(s + t) == EncodeUtf16Le(s) + EncodeUtf16Le(t)
  {
    if s == [] {
      assert s + t == t;
    } else {
      assert (s + t)[1..] == s[1..] + t;
      EncodeUtf16LeAppend(s[1..], t);
    }
  }

  function UnitAt(bs: seq<byte>, i: nat, littleEndian: bool): nat
    requires i + 2 <= |bs|
  {
    if littleEndian then bs[i] as nat + 256 * bs[i + 1] as nat else 256 * bs[i] as nat + bs[i + 1] as nat
  }

  /** Decodes UTF-16 bytes in the given byte order, strictly: an odd byte count,
      an unpaired surrogate or a low surrogate first is an error. */
  function DecodeUtf16(bs: seq<byte>, littleEndian: bool): (r: Result<string>)
    decreases |bs|
  {
    if bs == [] then Ok("")
    else if |bs| < 2 then Err(UnicodeDecodeError("truncated data"))
    else
      var u := UnitAt(bs, 0, littleEndian);
      if u < 0xD800 || u >= 0xE000 then
        var rest :- DecodeUtf16(bs[2..], littleEndian);
        Ok([u as char] + rest)
      else if u >= 0xDC00 then Err(UnicodeDecodeError("illegal encoding"))
      else if |bs| < 4 then Err(UnicodeDecodeError("unexpected end of data"))
      else
        var w := UnitAt(bs, 2, littleEndian);
        if w < 0xDC00 || w >= 0xE000 then Err(UnicodeDecodeError("illegal UTF-16 surrogate"))
        else
          var rest :- DecodeUtf16(bs[4..], littleEndian);
          Ok([(0x10000 + (u - 0xD800) * 1024 + (w - 0xDC00)) as char] + rest)
  }

  /** `bytes.decode('utf-16-le')`. */
  function DecodeUtf16Le(bs: seq<byte>): (r: Result<string>)
  {
    DecodeUtf16(bs, true)
  }

  /** `bytes.decode('utf-16')`: a leading byte-order mark selects the byte order
      and is dropped; without one the host order is used, little-endian here. */
  function DecodeUtf16Bom(bs: seq<byte>): (r: Result<string>)
  {
    if |bs| >= 2 && bs[0] == 0xFF && bs[1] == 0xFE then DecodeUtf16(bs[2..], true)
    else if |bs| >= 2 && bs[0] == 0xFE && bs[1] == 0xFF then DecodeUtf16(bs[2..], false)
    else DecodeUtf16(bs, true)
  }

  lemma {:induction false} DecodeEncodeUtf16Le(s: string)
    ensures DecodeUtf16Le(EncodeUtf16Le(s)) == Ok(s)
  {
    if s != [] {
      var c := s[0];
      var cp := c as int;
      var e := EncodeCharUtf16(c, true);
      var tail := EncodeUtf16Le(s[1..]);
      var bs := e + tail;
      assert bs[|e|..] == tail;
      DecodeEncodeUtf16Le(s[1..]);
      if cp >= 0x10000 {
        var hi := 0xD800 + (cp - 0x10000) / 1024;
        var lo := 0xDC00 + (cp - 0x10000) % 1024;
        assert UnitAt(bs, 0, true) == hi;
        assert UnitAt(bs, 2, true) == lo;
        assert 0x10000 + (hi - 0xD800) * 1024 + (lo - 0xDC00) == cp;
      } else {
        assert UnitAt(bs, 0, true) == cp;
      }
      assert s == [c] + s[1..];
    }
  }

  /** The BOM-sniffing decoder gives back any string whose first character
      is not U+FEFF or U+FFFE (those two are read as byte-order marks). */
  lemma DecodeBomEncodeUtf16Le(s: string)
    requires s == [] || (s[0] != '﻿' && s[0] != '￾')
    ensures DecodeUtf16Bom(EncodeUtf16Le(s)) == Ok(s)
  {
    DecodeEncodeUtf16Le(s);
    if s != [] {
      var e := EncodeUtf16Le(s);
      assert e[..2] == EncodeCharUtf16(s[0], true)[..2];
      assert !(e[0] == 0xFF && e[1] == 0xFE);
      assert !(e[0] == 0xFE && e[1] == 0xFF);
    }
  }

  /** A string that starts with U+FEFF loses it when read back with the
      BOM-sniffing decoder. */
  lemma DecodeBomDropsLeadingMark(s: string)
    ensures DecodeUtf16Bom(EncodeUtf16Le("﻿" + s)) == Ok(s)
  {
    var t := "﻿" + s;
    assert t[1..] == s;
    assert EncodeUtf16Le(t) == [0xFF, 0xFE] + EncodeUtf16Le(s);
    assert EncodeUtf16Le(t)[2..] == EncodeUtf16Le(s);
    DecodeEncodeUtf16Le(s);
  }
}
