/** The byte buffer the dictionary writers fill: an in-memory stream with a
    cursor, written through typed little-endian integers and UTF-16LE text. */
module JTypedByteBuffers {
  import opened Wrappers
  import opened Bytes
  import opened Unicode

  function Max(a: nat, b: nat): nat
  {
    if a < b then b else a
  }

  /** A stream write of `data` at `pos`: a cursor past the end pads with
      zero bytes first, bytes under the data are replaced, the stream grows
      when the data runs past its end. */
  function Overwrite(buf: seq<byte>, pos: nat, data: seq<byte>): (r: seq<byte>)
    ensures |r| == Max(|buf|, pos + |data|)
    ensures r[pos .. pos + |data|] == data
    ensures forall i :: 0 <= i < |r| && !(pos <= i < pos + |data|) ==>
              r[i] == if i < |buf| then buf[i] else 0
  {
    var padded := if pos <= |buf| then buf else buf + seq(pos - |buf|, _ => 0);
    var r := padded[..pos] + data + (if pos + |data| < |padded| then padded[pos + |data|..] else []);
    assert r[pos .. pos + |data|] == data;
    r
  }

  /** A write with the cursor at the end appends. */
  lemma OverwriteAtEnd(buf: seq<byte>, data: seq<byte>)
    ensures Overwrite(buf, |buf|, data) == buf + data
  {
    var r := Overwrite(buf, |buf|, data);
    assert forall i :: 0 <= i < |r| ==> r[i] == (buf + data)[i] by {
      forall i | 0 <= i < |r|
        ensures r[i] == (buf + data)[i]
      {
        if i >= |buf| {
          assert r[|buf| .. |buf| + |data|][i - |buf|] == data[i - |buf|];
        }
      }
    }
  }

  /** What a stream write leaves: an empty write changes nothing, even
      with the cursor past the end; any other is an Overwrite. */
  function Written(buf: seq<byte>, pos: nat, data: seq<byte>): (r: seq<byte>)
    ensures data == [] ==> r == buf
    ensures data != [] ==> r == Overwrite(buf, pos, data)
  {
    if data == [] then buf else Overwrite(buf, pos, data)
  }

  /** Two writes, the second where the first ended, are one write of both. */
  lemma WrittenTwice(buf: seq<byte>, pos: nat, a: seq<byte>, b: seq<byte>)
    ensures Written(Written(buf, pos, a), pos + |a|, b) == Written(buf, pos, a + b)
  {
    if a == [] {
      assert a + b == b;
    } else if b == [] {
      assert a + b == a;
    } else {
      var m := Overwrite(buf, pos, a);
      var r := Overwrite(m, pos + |a|, b);
      var e := Overwrite(buf, pos, a + b);
      forall i | 0 <= i < |r|
        ensures r[i] == e[i]
      {
        OverwriteTwiceAt(buf, pos, a, b, m, r, e, i);
      }
      assert r == e;
    }
  }

  /** WrittenTwice at one index. */
  lemma OverwriteTwiceAt(buf: seq<byte>, pos: nat, a: seq<byte>, b: seq<byte>, m: seq<byte>, r: seq<byte>,
                         e: seq<byte>, i: nat)
    requires m == Overwrite(buf, pos, a) && r == Overwrite(m, pos + |a|, b) && e == Overwrite(buf, pos, a + b)
    requires i < |r|
    ensures i < |e| && r[i] == e[i]
  {
    if pos <= i < pos + |a| {
      assert m[pos .. pos + |a|][i - pos] == a[i - pos];
      assert e[pos .. pos + |a| + |b|][i - pos] == (a + b)[i - pos];
    } else if pos + |a| <= i < pos + |a| + |b| {
      assert r[pos + |a| .. pos + |a| + |b|][i - pos - |a|] == b[i - pos - |a|];
      assert e[pos .. pos + |a| + |b|][i - pos] == (a + b)[i - pos];
    }
  }

  /** Data written at the end of a buffer that already holds `a` after
      `base` follows them. */
  lemma WrittenAtEndAfter(base: seq<byte>, a: seq<byte>, buf: seq<byte>, data: seq<byte>, buf': seq<byte>)
    requires buf == base + a && buf' == Written(buf, |buf|, data)
    ensures buf' == base + (a + data)
  {
    WrittenAtEnd(buf, data);
    assert buf' == (base + a) + data;
  }

  /** A write with the cursor at the end appends, empty or not. */
  lemma WrittenAtEnd(buf: seq<byte>, data: seq<byte>)
    ensures Written(buf, |buf|, data) == buf + data
  {
    if data != [] {
      OverwriteAtEnd(buf, data);
    } else {
      assert buf + data == buf;
    }
  }

  /** The byte count and signedness `write_int` uses for a type name:
      'byte' 1 and 'char' 2 bytes, always unsigned; 'int' 4, 'short' 2 and
      'long' 8 bytes with the requested signedness; nothing for any other
      name. */
  function IntLayout(typ: string, signed: bool): (r: Option<(nat, bool)>)
  {
    if typ == "byte" then Some((1, false))
    else if typ == "int" then Some((4, signed))
    else if typ == "char" then Some((2, false))
    else if typ == "short" then Some((2, signed))
    else if typ == "long" then Some((8, signed))
    else None
  }

  /** `int.from_bytes` with the given signedness. */
  function Decode(bs: seq<byte>, signed: bool): int
  {
    if signed then DecodeSigned(bs) else DecodeUnsigned(bs)
  }

  /** The bytes `write_int` produces, or the error it raises: ValueError for
      an unknown type name, OverflowError for a value outside the width. */
  function IntBytes(x: int, typ: string, signed: bool): (r: Result<seq<byte>>)
    ensures IntLayout(typ, signed).None? ==> r == Err(ValueError(typ + " is invalid type"))
    ensures IntLayout(typ, signed).Some? ==>
              var (n, s) := IntLayout(typ, signed).value;
              (r.Ok? <==> Fits(x, n, s)) && (r.Ok? ==> |r.value| == n && Decode(r.value, s) == x)
  {
    match IntLayout(typ, signed)
    case None => Err(ValueError(typ + " is invalid type"))
    case Some((n, s)) =>
      var bs :- ToBytes(x, n, s);
      ToBytesRoundTrip(x, n, s);
      Ok(bs)
  }

  /** 'byte' and 'char' ignore the signedness asked for: a negative value
      fails even when `signed` is true. */
  lemma UnsignedTypes(x: int, signed: bool)
    ensures IntBytes(x, "byte", signed) == IntBytes(x, "byte", false)
    ensures IntBytes(x, "char", signed) == IntBytes(x, "char", false)
    ensures x < 0 ==> IntBytes(x, "byte", signed).Err? && IntBytes(x, "char", signed).Err?
  {
  }

  class JTypedByteBuffer {
    var bytes: seq<byte>
    var position: nat

    constructor()
      ensures bytes == [] && position == 0
    {
      bytes := [];
      position := 0;
    }

    /** The stream's `write`. */
    method Write(data: seq<byte>)
      modifies this
      ensures bytes == Written(old(bytes), old(position), data)
      ensures position == old(position) + |data|
    {
      if data != [] {
        bytes := Overwrite(bytes, position, data);
        position := position + |data|;
      }
    }

    /** The stream's `seek`: the cursor moves, the bytes stay. */
    method Seek(pos: nat)
      modifies this`position
      ensures position == pos
    {
      position := pos;
    }

    /** The stream's `tell`: the cursor, where the next write lands. */
    function Tell(): (r: nat)
      reads this
      ensures r == position
    {
      position
    }

    /** The stream's `getvalue`: every byte written, whatever the cursor. */
    function GetValue(): (r: seq<byte>)
      reads this
      ensures r == bytes
    {
      bytes
    }

    /** The stream's `read()`: everything from the cursor to the end; a
        cursor past the end reads nothing and stays. */
    method Read() returns (data: seq<byte>)
      modifies this`position
      ensures old(position) <= |bytes| ==> data == bytes[old(position)..] && position == |bytes|
      ensures old(position) > |bytes| ==> data == [] && position == old(position)
    {
      if position <= |bytes| {
        data := bytes[position..];
        position := |bytes|;
      } else {
        data := [];
      }
    }

    /** write_int: the value in the type's width, little-endian. */
    method WriteInt(x: int, typ: string, signed: bool) returns (r: Result<()>)
      modifies this
      ensures IntBytes(x, typ, signed).Err? ==>
                r == Err(IntBytes(x, typ, signed).error) && bytes == old(bytes) && position == old(position)
      ensures IntBytes(x, typ, signed).Ok? ==>
                r.Ok? && bytes == Written(old(bytes), old(position), IntBytes(x, typ, signed).value)
                && position == old(position) + |IntBytes(x, typ, signed).value|
    {
      var bs :- IntBytes(x, typ, signed);
      Write(bs);
      r := Ok(());
    }

    /** write_str: the text's UTF-16LE code units, with no length prefix. */
    method WriteStr(text: string)
      modifies this
      ensures bytes == Written(old(bytes), old(position), EncodeUtf16Le(text))
      ensures position == old(position) + 2 * Utf16Length(text)
    {
      EncodeUtf16LeLength(text);
      Write(EncodeUtf16Le(text));
    }

    /** clear: back to an empty stream with the cursor at 0. */
    method Clear()
      modifies this
      ensures bytes == [] && position == 0
    {
      position := 0;
      bytes := [];
    }
  }
}
