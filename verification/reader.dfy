/** The byte cursor (class wz::Reader in include/wz/Reader.hpp and
    src/Reader.cpp): an immutable buffer, the archive's keystream and a
    mutable cursor that every read advances. Each composite read is proved
    equal to the corresponding decoding function of module Codec. */
module WzReader {
  import opened WzBase
  import opened Codec

  /** A two-byte little-endian read is the 16-bit word at that position. */
  lemma WordRead(data: seq<byte>, q: nat)
    requires q + 2 <= |data|
    ensures LE(data[q..q + 2]) == data[q] as int + 256 * data[q + 1] as int
    ensures LE(data[q..q + 2]) < 0x10000
    ensures LE(data[q..q + 2]) as bv16 == Word(data, q)
  {
    var s := data[q..q + 2];
    assert s[1..][1..] == [];
    assert LE(s[1..]) == s[1] as int;
  }

  /** Incrementing a u8 register wraps at 256. */
  lemma WrapStep8(a: nat)
    ensures (a % 0x100 + 1) % 0x100 == (a + 1) % 0x100
  {
  }

  /** Incrementing a u16 register wraps at 65536. */
  lemma WrapStep16(a: nat)
    ensures (a % 0x10000 + 1) % 0x10000 == (a + 1) % 0x10000
  {
  }

  /** The body of the narrow loop: the byte read, XORed with the u8 mask
      register and the key byte, widened to a code unit. */
  function NarrowDecipher(b: byte, mask: nat, k: byte): bv16
    requires mask < 0x100
  {
    Extend(Bits(b) ^ (mask as bv8) ^ Bits(k))
  }

  /** The body of the wide loop: the u16 read, XORed with the u16 mask
      register and the key word. */
  function WideDecipher(w: nat, mask: nat, kw: bv16): bv16
    requires w < 0x10000 && mask < 0x10000
  {
    (w as bv16) ^ (mask as bv16) ^ kw
  }

  /** One step of the wide loop computes unit i. */
  lemma WideStep(data: seq<byte>, key: KeyStream, q: nat, i: nat, mask: nat)
    requires q + 2 * i + 2 <= |data| && mask == (0xAAAA + i) % 0x10000
    ensures LE(data[q + 2 * i..q + 2 * i + 2]) < 0x10000
    ensures WideDecipher(LE(data[q + 2 * i..q + 2 * i + 2]), mask, KeyWord(key, i)) == WideUnit(data, key, q, i)
  {
    WordRead(data, q + 2 * i);
  }

  /** One step of the narrow loop computes unit n. */
  lemma NarrowStep(data: seq<byte>, key: KeyStream, q: nat, n: nat, mask: nat)
    requires q + n < |data| && mask == (0xAA + n) % 0x100
    ensures NarrowDecipher(data[q + n], mask, key(n)) == NarrowUnit(data, key, q, n)
  {
  }

  /** The narrow string of n+1 bytes extends the one of n bytes by unit n. */
  lemma NarrowUnitsSnoc(data: seq<byte>, key: KeyStream, q: nat, n: nat)
    requires q + n + 1 <= |data|
    ensures NarrowUnits(data, key, q, n + 1) == NarrowUnits(data, key, q, n) + [NarrowUnit(data, key, q, n)]
  {
  }

  /** The wide string of n+1 units extends the one of n units by unit n. */
  lemma WideUnitsSnoc(data: seq<byte>, key: KeyStream, q: nat, n: nat)
    requires q + 2 * n + 2 <= |data|
    ensures WideUnits(data, key, q, n + 1) == WideUnits(data, key, q, n) + [WideUnit(data, key, q, n)]
  {
  }

  class Reader {
    /** The mapped archive bytes; never written. */
    const data: seq<byte>
    /** The archive's keystream. */
    const key: KeyStream
    /** The offset of the next byte to read. */
    var cursor: nat

    /** A fresh reader starts at offset 0. */
    constructor (data: seq<byte>, key: KeyStream)
      ensures this.data == data && this.key == key && cursor == 0
    {
      this.data := data;
      this.key := key;
      cursor := 0;
    }

    /** skip: moves the cursor forward without reading. */
    method Skip(n: nat)
      modifies this
      ensures cursor == old(cursor) + n
    {
      cursor := cursor + n;
    }

    /** set_position. */
    method SetPosition(p: nat)
      modifies this
      ensures cursor == p
    {
      cursor := p;
    }

    /** get_position: the value last stored by SetPosition or reached by reads and skips. */
    method GetPosition() returns (p: nat)
      ensures p == cursor
    {
      p := cursor;
    }

    /** size(): the length of the mapped buffer. */
    method Size() returns (n: nat)
      ensures n == |data|
    {
      n := |data|;
    }

    /** read_byte: the byte at the cursor; the cursor advances by one. */
    method ReadByte() returns (b: byte)
      requires cursor < |data|
      modifies this
      ensures b == data[old(cursor)] && cursor == old(cursor) + 1
    {
      b := data[cursor];
      cursor := cursor + 1;
    }

    /** read<T> for a T of n bytes: the little-endian value of the n bytes at
        the cursor; the cursor advances by exactly n. */
    method Read(n: nat) returns (v: nat)
      requires cursor + n <= |data|
      modifies this
      ensures Fixed(data, old(cursor), n) == Ok(Decoded(v, cursor))
    {
      v := LE(data[cursor..cursor + n]);
      cursor := cursor + n;
    }

    /** read<i32>. */
    method ReadI32() returns (v: int)
      requires cursor + 4 <= |data|
      modifies this
      ensures FixedI32(data, old(cursor)) == Ok(Decoded(v, cursor))
    {
      var u := Read(4);
      assert Pow256(4) == TWO32;
      v := I32(u);
    }

    /** read_i16. */
    method ReadI16() returns (v: int)
      requires cursor + 2 <= |data|
      modifies this
      ensures -0x8000 <= v < 0x8000
      ensures v % 0x10000 == LE(data[old(cursor)..old(cursor) + 2]) && cursor == old(cursor) + 2
    {
      var u := Read(2);
      assert Pow256(2) == 0x10000;
      v := if u < 0x8000 then u else u as int - 0x10000;
    }

    /** read_string(len): len bytes, each widened to a code unit. */
    method ReadFixedString(len: nat) returns (r: Result<WzString>)
      modifies this
      ensures r == ValueOf(FixedString(data, old(cursor), len))
      ensures r.Ok? ==> cursor == FixedString(data, old(cursor), len).value.next
    {
      if cursor + len > |data| {
        return Err(OutOfRange);
      }
      ghost var start := cursor;
      var s: WzString := [];
      var i := 0;
      while i < len
        invariant 0 <= i <= len && cursor == start + i && |s| == i
        invariant forall j :: 0 <= j < i ==> s[j] == Unit(data[start + j])
      {
        var b := ReadByte();
        s := s + [Unit(b)];
        i := i + 1;
      }
      assert s == Widen(data[start..start + len]);
      r := Ok(s);
    }

    /** read_string(): bytes up to a zero terminator, which is consumed and
        dropped; each byte is read as a signed char. */
    method ReadZeroTerminated() returns (r: Result<WzString>)
      modifies this
      ensures r == ValueOf(ZeroTerminated(data, old(cursor)))
      ensures r.Ok? ==> cursor == ZeroTerminated(data, old(cursor)).value.next
    {
      ghost var start := cursor;
      var s: WzString := [];
      while true
        invariant start <= cursor && cursor == start + |s|
        invariant |s| > 0 ==> cursor <= |data| && s == Chars(data[start..cursor])
        invariant forall k :: start <= k < cursor ==> data[k] != 0
        decreases |data| - cursor
      {
        if cursor >= |data| {
          ZeroTerminatedStopsAtFirstZero(data, start);
          return Err(OutOfRange);
        }
        var b := ReadByte();
        if b == 0 {
          break;
        }
        assert data[start..cursor] == data[start..cursor - 1] + [b];
        CharsSnoc(data[start..cursor - 1], b);
        s := s + [CharUnit(b)];
      }
      ZeroTerminatedAt(data, start, cursor - 1);
      r := Ok(s);
    }

    /** read_compressed_int: one i8; only when it is -128 an i32 follows. */
    method ReadCompressedInt() returns (r: Result<int>)
      modifies this
      ensures r == ValueOf(CompressedInt(data, old(cursor)))
      ensures r.Ok? ==> cursor == CompressedInt(data, old(cursor)).value.next
    {
      if cursor >= |data| {
        return Err(OutOfRange);
      }
      var b := ReadByte();
      var v := I8(b);
      if v == -128 {
        if cursor + 4 > |data| {
          return Err(OutOfRange);
        }
        var w := ReadI32();
        return Ok(w);
      }
      return Ok(v);
    }

    /** The wide loop: len 16-bit units, each XORed with the running mask and
        the key word for its index. */
    method ReadWideUnits(len: nat) returns (s: WzString)
      requires cursor + 2 * len <= |data|
      modifies this
      ensures s == WideUnits(data, key, old(cursor), len)
      ensures cursor == old(cursor) + 2 * len
    {
      ghost var q := cursor;
      var mask: nat := 0xAAAA;  // the u16 mask register, its wrap written out
      s := [];
      var i := 0;
      while i < len
        invariant 0 <= i <= len && cursor == q + 2 * i && |s| == i
        invariant mask == (0xAAAA + i) % 0x10000
        invariant s == WideUnits(data, key, q, i)
      {
        WideStep(data, key, q, i, mask);
        var w := Read(2);
        var unit := WideDecipher(w, mask, KeyWord(key, i));
        WideUnitsSnoc(data, key, q, i);
        s := s + [unit];
        WrapStep16(0xAAAA + i);
        mask := (mask + 1) % 0x10000;
        i := i + 1;
      }
    }

    /** The narrow loop: len bytes, each XORed with the running mask and the
        key byte for its index, then zero-extended. */
    method ReadNarrowUnits(len: nat) returns (s: WzString)
      requires cursor + len <= |data|
      modifies this
      ensures s == NarrowUnits(data, key, old(cursor), len)
      ensures cursor == old(cursor) + len
    {
      ghost var q := cursor;
      var mask: nat := 0xAA;  // the u8 mask register, its wrap written out
      s := [];
      var n := 0;
      while n < len
        invariant 0 <= n <= len && cursor == q + n && |s| == n
        invariant mask == (0xAA + n) % 0x100
        invariant s == NarrowUnits(data, key, q, n)
      {
        var b := ReadByte();
        var unit := NarrowDecipher(b, mask, key(n));
        NarrowStep(data, key, q, n, mask);
        NarrowUnitsSnoc(data, key, q, n);
        s := s + [unit];
        WrapStep8(0xAA + n);
        mask := (mask + 1) % 0x100;
        n := n + 1;
      }
    }

    /** read_wz_string: a signed length prefix, an optional i32 length, then
        the enciphered payload. */
    method ReadWzString() returns (r: Result<WzString>)
      modifies this
      ensures r == ValueOf(CipherString(data, key, old(cursor)))
      ensures r.Ok? ==> cursor == CipherString(data, key, old(cursor)).value.next
    {
      if cursor >= |data| {
        return Err(OutOfRange);
      }
      var b := ReadByte();
      var len8 := I8(b);
      if len8 == 0 {
        return Ok([]);
      }
      var len: int;
      if len8 == 127 || len8 == -128 {
        if cursor + 4 > |data| {
          return Err(OutOfRange);
        }
        len := ReadI32();
      } else {
        len := if len8 > 0 then len8 else -len8;
      }
      if len <= 0 {
        return Ok([]);
      }
      if len8 > 0 {
        if cursor + 2 * len > |data| {
          return Err(OutOfRange);
        }
        var s := ReadWideUnits(len);
        r := Ok(s);
      } else {
        if cursor + len > |data| {
          return Err(OutOfRange);
        }
        var s := ReadNarrowUnits(len);
        r := Ok(s);
      }
    }

    /** read_wz_string_from_offset(offset): the cipher string at offset; the
        cursor is saved and restored around the read. */
    method ReadWzStringFromOffset(offset: nat) returns (r: Result<WzString>)
      modifies this
      ensures r == StringAt(data, key, offset)
      ensures cursor == old(cursor)
    {
      var prev := GetPosition();
      SetPosition(offset);
      r := ReadWzString();
      SetPosition(prev);
    }

    /** read_wz_string_from_offset<T>(offset, out): the width-byte value at
        offset and the cipher string right after it; the cursor is restored. */
    method ReadFromOffset(offset: nat, width: nat) returns (r: Result<(nat, WzString)>)
      modifies this
      ensures cursor == old(cursor)
      ensures r.Ok? <==> Fixed(data, offset, width).Ok? && CipherString(data, key, offset + width).Ok?
      ensures r.Ok? ==> (r.value.0 == Fixed(data, offset, width).value.value &&
                         r.value.1 == CipherString(data, key, offset + width).value.value)
    {
      var prev := GetPosition();
      SetPosition(offset);
      if cursor + width > |data| {
        SetPosition(prev);
        return Err(OutOfRange);
      }
      var v := Read(width);
      var s := ReadWzString();
      SetPosition(prev);
      match s
      case Ok(str) => r := Ok((v, str));
      case Err(e) => r := Err(e);
    }

    /** read_string_block(base): tag 0/0x73 inline, tag 1/0x1B a u32 delta
        from base to a shared copy; any other tag is malformed data. */
    method ReadStringBlock(base: nat) returns (r: Result<WzString>)
      modifies this
      ensures r == ValueOf(StringBlock(data, key, old(cursor), base))
      ensures r.Ok? ==> cursor == StringBlock(data, key, old(cursor), base).value.next
    {
      if cursor >= |data| {
        return Err(OutOfRange);
      }
      var tag := ReadByte();
      if IsInlineTag(tag) {
        r := ReadWzString();
      } else if IsOffsetTag(tag) {
        if cursor + 4 > |data| {
          return Err(OutOfRange);
        }
        var delta := Read(4);
        r := ReadWzStringFromOffset(base + delta);
      } else {
        r := Err(MalformedData);
      }
    }

    /** is_wz_image: tag 0x73, the string "Property", then a u16 of 0. */
    method IsWzImage() returns (r: Result<bool>)
      modifies this
      ensures r == ValueOf(WzImageProbe(data, key, old(cursor)))
      ensures r.Ok? ==> cursor == WzImageProbe(data, key, old(cursor)).value.next
    {
      if cursor >= |data| {
        return Err(OutOfRange);
      }
      var tag := Read(1);
      if tag != 0x73 {
        return Ok(false);
      }
      var name := ReadWzString();
      if name.Err? {
        return Err(name.error);
      }
      if name.value != PropertyName() {
        return Ok(false);
      }
      if cursor + 2 > |data| {
        return Err(OutOfRange);
      }
      var zero := Read(2);
      return Ok(zero == 0);
    }
  }
}
