/** Little-endian integer codecs and the read primitives of a memory-mapped
    buffer (seek, read, read_byte), as the dictionary readers use them. */
module Bytes {
  import opened Wrappers

  type byte = x: nat | x < 256

  /** 256 to the power n: the number of values an n-byte field can hold. */
  function Pow256(n: nat): (r: int)
    ensures r >= 1
  {
    if n == 0 then 1 else 256 * Pow256(n - 1)
  }

  /** `int.from_bytes(bs, 'little')`. */
  function DecodeUnsigned(bs: seq<byte>): (r: nat)
    ensures r < Pow256(|bs|)
  {
    if bs == [] then 0 else bs[0] + 256 * DecodeUnsigned(bs[1..])
  }

  /** `x.to_bytes(n, 'little')` for a value that fits. */
  function EncodeUnsigned(x: nat, n: nat): (r: seq<byte>)
    requires x < Pow256(n)
    ensures |r| == n
  {
    if n == 0 then [] else [x % 256] + EncodeUnsigned(x / 256, n - 1)
  }

  lemma {:induction false} DecodeEncodeUnsigned(x: nat, n: nat)
    requires x < Pow256(n)
    ensures DecodeUnsigned(EncodeUnsigned(x, n)) == x
  {
    if n > 0 {
      DecodeEncodeUnsigned(x / 256, n - 1);
      assert EncodeUnsigned(x, n)[1..] == EncodeUnsigned(x / 256, n - 1);
    }
  }

  lemma {:induction false} EncodeDecodeUnsigned(bs: seq<byte>)
    ensures EncodeUnsigned(DecodeUnsigned(bs), |bs|) == bs
  {
    if bs != [] {
      EncodeDecodeUnsigned(bs[1..]);
      assert DecodeUnsigned(bs) % 256 == bs[0];
      assert DecodeUnsigned(bs) / 256 == DecodeUnsigned(bs[1..]);
    }
  }

  /** `int.from_bytes(bs, 'little', signed=True)`: two's complement. */
  function DecodeSigned(bs: seq<byte>): (r: int)
    ensures bs != [] ==> -Pow256(|bs|) / 2 <= r < Pow256(|bs|) / 2
    ensures bs == [] ==> r == 0
  {
    var u := DecodeUnsigned(bs);
    if bs != [] && u >= Pow256(|bs|) / 2 then u - Pow256(|bs|) else u
  }

  /** Whether `x.to_bytes(n, 'little', signed=s)` succeeds. */
  predicate Fits(x: int, n: nat, signed: bool)
  {
    if signed then n > 0 && -(Pow256(n) / 2) <= x < Pow256(n) / 2
    else 0 <= x < Pow256(n)
  }

  /** `x.to_bytes(n, 'little', signed=s)`; OverflowError when the value does not fit. */
  function ToBytes(x: int, n: nat, signed: bool): (r: Result<seq<byte>>)
    ensures r.Ok? <==> Fits(x, n, signed)
    ensures r.Ok? ==> |r.value| == n
  {
    if !Fits(x, n, signed) then Err(OverflowError("int too big to convert"))
    else if x >= 0 then Ok(EncodeUnsigned(x, n))
    else Ok(EncodeUnsigned(x + Pow256(n), n))
  }

  lemma Pow256Even(n: nat)
    requires n > 0
    ensures Pow256(n) % 2 == 0
  {
    var h := 128 * Pow256(n - 1);
    assert Pow256(n) == 2 * h;
  }

  /** What was written signed reads back signed, what was written unsigned
      reads back unsigned. */
  lemma ToBytesRoundTrip(x: int, n: nat, signed: bool)
    requires Fits(x, n, signed)
    ensures signed ==> DecodeSigned(ToBytes(x, n, signed).value) == x
    ensures !signed ==> DecodeUnsigned(ToBytes(x, n, signed).value) == x
  {
    if x >= 0 {
      DecodeEncodeUnsigned(x, n);
    } else {
      DecodeEncodeUnsigned(x + Pow256(n), n);
      Pow256Even(n);
    }
  }

  /** A value written signed and read back unsigned: `-1` as a short reads 65535. */
  lemma SignedReadUnsigned(x: int, n: nat)
    requires Fits(x, n, true)
    ensures DecodeUnsigned(ToBytes(x, n, true).value) == if x < 0 then x + Pow256(n) else x
  {
    if x >= 0 {
      DecodeEncodeUnsigned(x, n);
    } else {
      DecodeEncodeUnsigned(x + Pow256(n), n);
    }
  }

  // ---- reads from a memory-mapped buffer ------------------------------------

  /** `seek(pos)` then `read(n)`: seeking past the end raises ValueError, reading
      near the end returns the bytes that remain. */
  function ReadAt(buf: seq<byte>, pos: nat, n: nat): (r: Result<seq<byte>>)
    ensures r.Ok? <==> pos <= |buf|
    ensures r.Ok? ==> |r.value| <= n && pos + |r.value| <= |buf| && r.value == buf[pos .. pos + |r.value|]
    ensures r.Ok? && pos + n <= |buf| ==> r.value == buf[pos .. pos + n]
  {
    if pos > |buf| then Err(ValueError("seek out of range"))
    else if pos + n <= |buf| then Ok(buf[pos .. pos + n])
    else Ok(buf[pos..])
  }

  /** `read(n)` with the cursor at `pos` (never past the end): the bytes
      read, fewer near the end, and the cursor after them. */
  function Take(buf: seq<byte>, pos: nat, n: nat): (r: (seq<byte>, nat))
    requires pos <= |buf|
    ensures r.1 == pos + |r.0| && r.1 <= |buf| && |r.0| <= n && r.0 == buf[pos .. r.1]
    ensures pos + n <= |buf| ==> |r.0| == n
  {
    if pos + n <= |buf| then (buf[pos .. pos + n], pos + n) else (buf[pos..], |buf|)
  }

  /** `read_byte()` at `pos`; ValueError at the end of the buffer. */
  function ReadByteAt(buf: seq<byte>, pos: nat): (r: Result<byte>)
    ensures r.Ok? <==> pos < |buf|
    ensures r.Ok? ==> r.value == buf[pos]
  {
    if pos < |buf| then Ok(buf[pos]) else Err(ValueError("read byte out of range"))
  }

  /** `seek(pos)` and `int.from_bytes(read(n), 'little')`. */
  function ReadUnsigned(buf: seq<byte>, pos: nat, n: nat): (r: Result<nat>)
    ensures r.Ok? <==> pos <= |buf|
    ensures r.Ok? ==> r.value < Pow256(n)
  {
    var bs :- ReadAt(buf, pos, n);
    Pow256Mono(|bs|, n);
    Ok(DecodeUnsigned(bs))
  }

  /** `seek(pos)` and `int.from_bytes(read(n), 'little', signed=True)`. */
  function ReadSigned(buf: seq<byte>, pos: nat, n: nat): (r: Result<int>)
    ensures r.Ok? <==> pos <= |buf|
  {
    var bs :- ReadAt(buf, pos, n);
    Ok(DecodeSigned(bs))
  }

  /** `struct.unpack_from('<I', buf, pos)`: struct.error when fewer than four
      bytes remain. */
  function UnpackU32(buf: seq<byte>, pos: nat): (r: Result<nat>)
    ensures r.Ok? <==> pos + 4 <= |buf|
    ensures r.Ok? ==> r.value == DecodeUnsigned(buf[pos .. pos + 4]) && r.value < Pow256(4)
  {
    if pos + 4 <= |buf| then Ok(DecodeUnsigned(buf[pos .. pos + 4]))
    else Err(StructError("unpack_from requires a buffer of at least 4 bytes"))
  }

  /** `struct.unpack_from('<nI', buf, pos)`: n little-endian u32 values. */
  function UnpackU32s(buf: seq<byte>, pos: nat, n: nat): (r: Result<seq<nat>>)
    ensures r.Ok? <==> pos + 4 * n <= |buf|
    ensures r.Ok? ==> |r.value| == n
    ensures r.Ok? ==> forall i :: 0 <= i < n ==> r.value[i] == DecodeUnsigned(buf[pos + 4 * i .. pos + 4 * i + 4])
    decreases n
  {
    if pos + 4 * n > |buf| then Err(StructError("unpack_from requires a larger buffer"))
    else if n == 0 then Ok([])
    else
      var rest := UnpackU32s(buf, pos + 4, n - 1).value;
      Ok([DecodeUnsigned(buf[pos .. pos + 4])] + rest)
  }

  lemma {:induction false} Pow256Mono(a: nat, b: nat)
    requires a <= b
    ensures Pow256(a) <= Pow256(b)
  {
    if a < b { Pow256Mono(a, b - 1); }
  }

  /** Reading back an unsigned field written at `|pre|` in the middle of a buffer. */
  lemma ReadUnsignedWritten(pre: seq<byte>, x: nat, n: nat, post: seq<byte>)
    requires x < Pow256(n)
    ensures ReadUnsigned(pre + EncodeUnsigned(x, n) + post, |pre|, n) == Ok(x)
  {
    var buf := pre + EncodeUnsigned(x, n) + post;
    assert buf[|pre| .. |pre| + n] == EncodeUnsigned(x, n);
    DecodeEncodeUnsigned(x, n);
  }

  /** Reading back a signed field written at `|pre|`. */
  lemma ReadSignedWritten(pre: seq<byte>, x: int, n: nat, post: seq<byte>)
    requires Fits(x, n, true)
    ensures ReadSigned(pre + ToBytes(x, n, true).value + post, |pre|, n) == Ok(x)
  {
    var buf := pre + ToBytes(x, n, true).value + post;
    assert buf[|pre| .. |pre| + n] == ToBytes(x, n, true).value;
    ToBytesRoundTrip(x, n, true);
  }
}
