/** The byte-level decoding rules of the reader (src/Reader.cpp,
    include/wz/Reader.hpp), as functions of the buffer, the keystream and a
    cursor position. Each returns the decoded value and the position where
    the cursor ends. The Reader class in WzReader is proved against them. */
module Codec {
  import opened WzBase

  /** A string literal as UTF-16 code units (all literals here are ASCII). */
  function Utf16(s: string): (w: WzString)
    requires forall i :: 0 <= i < |s| ==> s[i] as int < 0x10000
    ensures |w| == |s|
  {
    seq(|s|, i requires 0 <= i < |s| && s[i] as int < 0x10000 => s[i] as int as bv16)
  }

  // ---------------------------------------------------------------------
  // Fixed-width reads (read<T>)
  // ---------------------------------------------------------------------

  /** read<T> for a T of n bytes: the little-endian value at p. */
  function Fixed(data: seq<byte>, p: nat, n: nat): (r: Result<Decoded<nat>>)
    ensures r.Ok? <==> p + n <= |data|
    ensures r.Ok? ==> r.value.next == p + n && r.value.value < Pow256(n)
    ensures r.Err? ==> r.error == OutOfRange
  {
    if p + n <= |data| then
      LEBound(data[p..p + n]);
      Ok(Decoded(LE(data[p..p + n]), p + n))
    else Err(OutOfRange)
  }

  /** read<i32>. */
  function FixedI32(data: seq<byte>, p: nat): (r: Result<Decoded<int>>)
    ensures r.Ok? <==> p + 4 <= |data|
    ensures r.Ok? ==> r.value.next == p + 4 && IsI32(r.value.value)
    ensures r.Err? ==> r.error == OutOfRange
  {
    var u :- Fixed(data, p, 4);
    assert Pow256(4) == TWO32;
    Ok(Decoded(I32(u.value), u.next))
  }

  // ---------------------------------------------------------------------
  // Compressed int (read_compressed_int)
  // ---------------------------------------------------------------------

  /** One signed byte; the value -128 escapes to a following i32. */
  function CompressedInt(data: seq<byte>, p: nat): (r: Result<Decoded<int>>)
    ensures r.Ok? <==> p < |data| && (I8(data[p]) == -128 ==> p + 5 <= |data|)
    ensures r.Ok? ==> IsI32(r.value.value)
    ensures r.Ok? ==> (r.value.next == p + 1 <==> I8(data[p]) != -128)
    ensures r.Ok? ==> (r.value.next == p + 5 <==> I8(data[p]) == -128)
    ensures r.Err? ==> r.error == OutOfRange
  {
    if p >= |data| then Err(OutOfRange)
    else if I8(data[p]) != -128 then Ok(Decoded(I8(data[p]), p + 1))
    else FixedI32(data, p + 1)
  }

  /** The encoding the writer of an archive uses for a compressed int. */
  function EncodeCompressedInt(v: int): (s: seq<byte>)
    requires IsI32(v)
    ensures |s| == 1 <==> -127 <= v <= 127
    ensures |s| == 1 || |s| == 5
  {
    if -127 <= v <= 127 then [(v % 256) as byte]
    else [0x80] + LEBytes(v % TWO32, 4)
  }

  /** Every i32 has an encoding that decodes back to itself, wherever it
      sits in the buffer, and the cursor ends just after it. */
  lemma CompressedIntRoundTrip(pre: seq<byte>, v: int, post: seq<byte>)
    requires IsI32(v)
    ensures CompressedInt(pre + EncodeCompressedInt(v) + post, |pre|)
            == Ok(Decoded(v, |pre| + |EncodeCompressedInt(v)|))
  {
    var e := EncodeCompressedInt(v);
    var data := pre + e + post;
    var p := |pre|;
    assert data[p] == e[0];
    if !(-127 <= v <= 127) {
      assert data[p + 1..p + 5] == LEBytes(v % TWO32, 4);
      assert Pow256(4) == TWO32;
      LEBytesRoundTrip(v % TWO32, 4);
      I32OfPattern(v);
    }
  }

  // ---------------------------------------------------------------------
  // Plain strings (read_string(), read_string(len))
  // ---------------------------------------------------------------------

  /** A byte zero-extended to one UTF-16 code unit. */
  function Unit(b: byte): bv16 { b as bv16 }

  /** The bits of a byte. */
  function Bits(b: byte): bv8 { b as bv8 }

  /** The byte holding the bits x. */
  function ByteOf(x: bv8): (b: byte)
    ensures Bits(b) == x
  {
    x as int as byte
  }

  /** Eight bits zero-extended to sixteen. */
  function Extend(x: bv8): bv16 { x as bv16 }

  /** Each byte widened to one UTF-16 code unit. */
  function Widen(s: seq<byte>): (w: WzString)
    ensures |w| == |s|
  {
    seq(|s|, i requires 0 <= i < |s| => Unit(s[i]))
  }

  /** A byte read as a char and pushed into a UTF-16 string: char is signed
      on the targets the library builds for, so bytes 0x80..0xFF are
      sign-extended to the code units 0xFF80..0xFFFF. */
  function CharUnit(b: byte): bv16
  {
    if b < 0x80 then Unit(b) else Unit(b) | 0xFF00
  }

  /** Each byte read as a char, widened to one code unit. */
  function Chars(s: seq<byte>): (w: WzString)
    ensures |w| == |s|
  {
    seq(|s|, i requires 0 <= i < |s| => CharUnit(s[i]))
  }

  /** read_string(len): exactly len bytes, no terminator semantics. */
  function FixedString(data: seq<byte>, p: nat, len: nat): (r: Result<Decoded<WzString>>)
    ensures r.Ok? <==> p + len <= |data|
    ensures r.Ok? ==> |r.value.value| == len && r.value.next == p + len
    ensures r.Ok? ==> forall i :: 0 <= i < len ==> r.value.value[i] == Unit(data[p + i])
    ensures r.Err? ==> r.error == OutOfRange
  {
    if p + len <= |data| then Ok(Decoded(Widen(data[p..p + len]), p + len)) else Err(OutOfRange)
  }

  /** read_string(): the bytes up to the first zero byte, which is consumed
      but not included. Without a terminator the read runs off the buffer. */
  function ZeroTerminated(data: seq<byte>, p: nat): (r: Result<Decoded<WzString>>)
    decreases |data| - p
    ensures r.Ok? ==> r.value.next == p + |r.value.value| + 1 <= |data|
    ensures r.Err? ==> r.error == OutOfRange
  {
    if p >= |data| then Err(OutOfRange)
    else if data[p] == 0 then Ok(Decoded([], p + 1))
    else
      match ZeroTerminated(data, p + 1)
      case Ok(rest) => Ok(Decoded([CharUnit(data[p])] + rest.value, rest.next))
      case Err(e) => Err(e)
  }

  /** read_string() fails exactly when no zero byte follows p. */
  lemma {:induction false} ZeroTerminatedFails(data: seq<byte>, p: nat)
    decreases |data| - p
    ensures ZeroTerminated(data, p).Err? <==> forall j :: p <= j < |data| ==> data[j] != 0
  {
    if p < |data| && data[p] != 0 {
      ZeroTerminatedFails(data, p + 1);
    }
  }

  /** On success the terminator is the first zero byte at or after p, and it is consumed. */
  lemma {:induction false} ZeroTerminatedTerminator(data: seq<byte>, p: nat)
    decreases |data| - p
    ensures var r := ZeroTerminated(data, p);
            r.Ok? ==> r.value.next <= |data| && data[r.value.next - 1] == 0 &&
                      forall j :: p <= j < r.value.next - 1 ==> data[j] != 0
  {
    var r := ZeroTerminated(data, p);
    if p < |data| && data[p] != 0 {
      var rest := ZeroTerminated(data, p + 1);
      ZeroTerminatedTerminator(data, p + 1);
      if rest.Ok? {
        assert r.Ok? && r.value.next == rest.value.next;
        forall j | p <= j < r.value.next - 1
          ensures data[j] != 0
        {
          if j > p {
            assert p + 1 <= j < rest.value.next - 1;
          }
        }
      }
    } else if p < |data| {
      assert r == Ok(Decoded([], p + 1));
    }
  }

  lemma CharsCons(b: byte, s: seq<byte>)
    ensures Chars([b] + s) == [CharUnit(b)] + Chars(s)
  {
    var t := [b] + s;
    forall i | 0 <= i < |t|
      ensures Chars(t)[i] == ([CharUnit(b)] + Chars(s))[i]
    {
      if i > 0 {
        assert t[i] == s[i - 1];
      }
    }
  }

  lemma CharsSnoc(s: seq<byte>, b: byte)
    ensures Chars(s + [b]) == Chars(s) + [CharUnit(b)]
  {
    var t := s + [b];
    forall i | 0 <= i < |t|
      ensures Chars(t)[i] == (Chars(s) + [CharUnit(b)])[i]
    {
      if i < |s| {
        assert t[i] == s[i];
      }
    }
  }

  /** On success the result is the bytes before the terminator, read as chars. */
  lemma {:induction false} ZeroTerminatedUnits(data: seq<byte>, p: nat)
    decreases |data| - p
    ensures var r := ZeroTerminated(data, p);
            r.Ok? ==> r.value.value == Chars(data[p..r.value.next - 1])
  {
    if p < |data| && data[p] != 0 {
      ZeroTerminatedUnits(data, p + 1);
      var rest := ZeroTerminated(data, p + 1);
      if rest.Ok? {
        var n := rest.value.next;
        assert data[p..n - 1] == [data[p]] + data[p + 1..n - 1];
        CharsCons(data[p], data[p + 1..n - 1]);
      }
    }
  }

  /** With z the first zero byte at or after p, read_string() returns the
      bytes in between, read as chars, and resumes after the terminator. */
  lemma ZeroTerminatedAt(data: seq<byte>, p: nat, z: nat)
    requires p <= z < |data| && data[z] == 0
    requires forall k :: p <= k < z ==> data[k] != 0
    ensures ZeroTerminated(data, p) == Ok(Decoded(Chars(data[p..z]), z + 1))
  {
    ZeroTerminatedFails(data, p);
    ZeroTerminatedTerminator(data, p);
    ZeroTerminatedUnits(data, p);
  }

  /** read_string() stops at the first zero byte: every byte before it is
      nonzero and appears read as chars in the result, the terminator is consumed;
      it fails exactly when no zero byte follows p. */
  lemma ZeroTerminatedStopsAtFirstZero(data: seq<byte>, p: nat)
    ensures var r := ZeroTerminated(data, p);
            (r.Err? <==> forall j :: p <= j < |data| ==> data[j] != 0) &&
            (r.Ok? ==> r.value.next <= |data| && data[r.value.next - 1] == 0 &&
                       (forall j :: p <= j < r.value.next - 1 ==> data[j] != 0) &&
                       r.value.value == Chars(data[p..r.value.next - 1]))
  {
    ZeroTerminatedFails(data, p);
    ZeroTerminatedTerminator(data, p);
    ZeroTerminatedUnits(data, p);
  }

  /** A high byte comes back sign-extended: the bytes E9 00 read as the one
      code unit 0xFFE9, not 0x00E9. */
  lemma ZeroTerminatedHighByte()
    ensures ZeroTerminated([0xE9, 0x00], 0) == Ok(Decoded([0xFFE9], 2))
  {
    var data: seq<byte> := [0xE9, 0x00];
    assert ZeroTerminated(data, 1) == Ok(Decoded([], 2));
    assert CharUnit(0xE9) == 0xFFE9;
    assert ZeroTerminated(data, 0) == Ok(Decoded([CharUnit(0xE9)] + [], 2));
    assert [CharUnit(0xE9)] + [] == [0xFFE9];
  }

  // ---------------------------------------------------------------------
  // The string cipher (read_wz_string)
  // ---------------------------------------------------------------------

  /** The wide mask after i units: 0xAAAA incremented i times, wrapping at 16 bits. */
  function WideMask(i: nat): bv16 { ((0xAAAA + i) % 0x10000) as bv16 }

  /** The narrow mask after i bytes: 0xAA incremented i times, wrapping at 8 bits. */
  function NarrowMask(i: nat): bv8 { ((0xAA + i) % 0x100) as bv8 }

  /** The little-endian 16-bit word at q. */
  function Word(data: seq<byte>, q: nat): bv16
    requires q + 2 <= |data|
  {
    (data[q] as int + 256 * data[q + 1] as int) as bv16
  }

  /** The keystream word for unit i: keystream bytes 2i and 2i+1, little-endian. */
  function KeyWord(key: KeyStream, i: nat): bv16
  {
    (key(2 * i) as int + 256 * key(2 * i + 1) as int) as bv16
  }

  /** The per-unit wide transform: XOR with the running mask and the key word. */
  function WideXor(u: bv16, i: nat, key: KeyStream): bv16
  {
    u ^ WideMask(i) ^ KeyWord(key, i)
  }

  /** The per-byte narrow transform: XOR with the running mask and the key byte. */
  function NarrowXor(b: bv8, i: nat, key: KeyStream): bv8
  {
    b ^ NarrowMask(i) ^ Bits(key(i))
  }

  /** Unit i of a wide string whose payload starts at p. */
  function WideUnit(data: seq<byte>, key: KeyStream, p: nat, i: nat): bv16
    requires p + 2 * i + 2 <= |data|
  {
    WideXor(Word(data, p + 2 * i), i, key)
  }

  /** Unit i of a narrow string whose payload starts at p, zero-extended. */
  function NarrowUnit(data: seq<byte>, key: KeyStream, p: nat, i: nat): bv16
    requires p + i < |data|
  {
    Extend(NarrowXor(Bits(data[p + i]), i, key))
  }

  function WideUnits(data: seq<byte>, key: KeyStream, p: nat, len: nat): (w: WzString)
    requires p + 2 * len <= |data|
    ensures |w| == len
  {
    seq(len, i requires 0 <= i < len => WideUnit(data, key, p, i))
  }

  function NarrowUnits(data: seq<byte>, key: KeyStream, p: nat, len: nat): (w: WzString)
    requires p + len <= |data|
    ensures |w| == len
  {
    seq(len, i requires 0 <= i < len => NarrowUnit(data, key, p, i))
  }

  /** A positive length prefix selects 16-bit units, a negative one bytes. */
  predicate IsWide(len8: byte) { I8(len8) > 0 }

  /** The prefixes 127 and -128 escape to a following i32 length. */
  predicate IsEscaped(len8: byte) { I8(len8) == 127 || I8(len8) == -128 }

  /** Where the payload starts after the prefix at p. */
  function PayloadStart(len8: byte, p: nat): nat
  {
    p + 1 + (if IsEscaped(len8) then 4 else 0)
  }

  /** read_wz_string: the length-prefixed, XOR-enciphered string at p. */
  function CipherString(data: seq<byte>, key: KeyStream, p: nat): (r: Result<Decoded<WzString>>)
    ensures r.Ok? ==> p < |data| && r.value.next <= |data|
    ensures r.Ok? ==> r.value.next == PayloadStart(data[p], p)
                        + (if IsWide(data[p]) then 2 else 1) * |r.value.value|
                      || (r.value.value == [] && r.value.next == p + 1 && data[p] == 0)
    ensures p < |data| && data[p] == 0 ==> r == Ok(Decoded([], p + 1))
    ensures r.Ok? && IsWide(data[p]) ==> forall i :: 0 <= i < |r.value.value| ==>
              r.value.value[i] == WideUnit(data, key, PayloadStart(data[p], p), i)
    ensures r.Ok? && !IsWide(data[p]) ==> forall i :: 0 <= i < |r.value.value| ==>
              r.value.value[i] == NarrowUnit(data, key, PayloadStart(data[p], p), i)
    ensures r.Err? ==> r.error == OutOfRange
  {
    if p >= |data| then Err(OutOfRange)
    else
      var len8 := I8(data[p]);
      if len8 == 0 then Ok(Decoded([], p + 1))
      else
        var len :- if IsEscaped(data[p]) then FixedI32(data, p + 1) else Ok(Decoded(if len8 > 0 then len8 else -len8, p + 1));
        var q := len.next;
        if len.value <= 0 then Ok(Decoded([], q))
        else if len8 > 0 then
          if q + 2 * len.value <= |data| then Ok(Decoded(WideUnits(data, key, q, len.value), q + 2 * len.value))
          else Err(OutOfRange)
        else
          if q + len.value <= |data| then Ok(Decoded(NarrowUnits(data, key, q, len.value), q + len.value))
          else Err(OutOfRange)
  }

  /** A length that is zero or negative after the i32 escape gives the
      empty string, after consuming the prefix and the i32. */
  lemma CipherStringEscapedEmpty(data: seq<byte>, key: KeyStream, p: nat)
    requires p + 5 <= |data| && IsEscaped(data[p])
    requires FixedI32(data, p + 1).value.value <= 0
    ensures CipherString(data, key, p) == Ok(Decoded([], p + 5))
  {
    assert Pow256(4) == TWO32;
    LEBound(data[p + 1..p + 5]);
  }

  /** After the escape 127, the i32 that follows is the number of 16-bit
      units, which start right after it. */
  lemma CipherStringEscapedWide(data: seq<byte>, key: KeyStream, p: nat)
    requires p + 5 <= |data| && I8(data[p]) == 127
    requires FixedI32(data, p + 1).value.value > 0
    ensures var len := FixedI32(data, p + 1).value.value;
            CipherString(data, key, p)
            == if p + 5 + 2 * len <= |data| then Ok(Decoded(WideUnits(data, key, p + 5, len), p + 5 + 2 * len))
               else Err(OutOfRange)
  {
  }

  /** After the escape -128, the i32 that follows is the number of bytes,
      which start right after it. */
  lemma CipherStringEscapedNarrow(data: seq<byte>, key: KeyStream, p: nat)
    requires p + 5 <= |data| && I8(data[p]) == -128
    requires FixedI32(data, p + 1).value.value > 0
    ensures var len := FixedI32(data, p + 1).value.value;
            CipherString(data, key, p)
            == if p + 5 + len <= |data| then Ok(Decoded(NarrowUnits(data, key, p + 5, len), p + 5 + len))
               else Err(OutOfRange)
  {
  }

  /** A short wide prefix (1..126) is followed directly by its units, or
      the read fails when they do not fit. */
  lemma CipherStringShortWide(data: seq<byte>, key: KeyStream, p: nat)
    requires p < |data| && 1 <= I8(data[p]) <= 126
    ensures var len := I8(data[p]);
            CipherString(data, key, p)
            == if p + 1 + 2 * len <= |data| then Ok(Decoded(WideUnits(data, key, p + 1, len), p + 1 + 2 * len))
               else Err(OutOfRange)
  {
  }

  /** A short narrow prefix (-127..-1) is followed directly by its bytes,
      or the read fails when they do not fit. */
  lemma CipherStringShortNarrow(data: seq<byte>, key: KeyStream, p: nat)
    requires p < |data| && -127 <= I8(data[p]) <= -1
    ensures var len := -I8(data[p]);
            CipherString(data, key, p)
            == if p + 1 + len <= |data| then Ok(Decoded(NarrowUnits(data, key, p + 1, len), p + 1 + len))
               else Err(OutOfRange)
  {
  }

  function Lo(w: bv16): byte { (w as int % 256) as byte }
  function Hi(w: bv16): byte { (w as int / 256) as byte }

  /** The ciphertext a writer stores for a wide string. */
  function WideCipher(plain: WzString, key: KeyStream): (c: seq<byte>)
    ensures |c| == 2 * |plain|
  {
    seq(2 * |plain|, k requires 0 <= k < 2 * |plain| =>
      if k % 2 == 0 then Lo(WideXor(plain[k / 2], k / 2, key)) else Hi(WideXor(plain[k / 2], k / 2, key)))
  }

  /** The ciphertext a writer stores for a narrow (one byte per unit) string. */
  function NarrowCipher(plain: seq<byte>, key: KeyStream): (c: seq<byte>)
    ensures |c| == |plain|
  {
    seq(|plain|, i requires 0 <= i < |plain| => ByteOf(NarrowXor(Bits(plain[i]), i, key)))
  }

  lemma WordOfBytes(c: bv16)
    ensures ((Lo(c) as int) + 256 * (Hi(c) as int)) as bv16 == c
  {
  }

  lemma UnitOfByte(b: byte)
    ensures Extend(Bits(b)) == Unit(b)
  {
  }

  /** Each transform is its own inverse. */
  lemma WideXorTwice(u: bv16, i: nat, key: KeyStream)
    ensures WideXor(WideXor(u, i, key), i, key) == u
  {
  }

  lemma NarrowXorTwice(b: bv8, i: nat, key: KeyStream)
    ensures NarrowXor(NarrowXor(b, i, key), i, key) == b
  {
  }

  /** Unit i is stored as its low byte, then its high byte. */
  lemma WideCipherBytes(plain: WzString, key: KeyStream, i: nat)
    requires i < |plain|
    ensures WideCipher(plain, key)[2 * i] == Lo(WideXor(plain[i], i, key))
    ensures WideCipher(plain, key)[2 * i + 1] == Hi(WideXor(plain[i], i, key))
  {
    assert (2 * i) / 2 == i && (2 * i + 1) / 2 == i && (2 * i) % 2 == 0 && (2 * i + 1) % 2 == 1;
  }

  /** The word stored for unit i is the enciphered unit. */
  lemma WideCipherAt(plain: WzString, key: KeyStream, i: nat)
    requires i < |plain|
    ensures Word(WideCipher(plain, key), 2 * i) == WideXor(plain[i], i, key)
  {
    WideCipherBytes(plain, key, i);
    WordOfBytes(WideXor(plain[i], i, key));
  }

  lemma WordAfterPrefix(pre: seq<byte>, c: seq<byte>, post: seq<byte>, q: nat)
    requires q + 2 <= |c|
    ensures Word(pre + c + post, |pre| + q) == Word(c, q)
  {
    var data := pre + c + post;
    assert data[|pre| + q] == c[q] && data[|pre| + q + 1] == c[q + 1];
  }

  /** The wide payload stored after any prefix deciphers to the plaintext. */
  lemma WideUnitsOfCipher(pre: seq<byte>, plain: WzString, key: KeyStream, post: seq<byte>)
    ensures WideUnits(pre + WideCipher(plain, key) + post, key, |pre|, |plain|) == plain
  {
    var c := WideCipher(plain, key);
    var w := WideUnits(pre + c + post, key, |pre|, |plain|);
    forall i | 0 <= i < |plain|
      ensures w[i] == plain[i]
    {
      WordAfterPrefix(pre, c, post, 2 * i);
      WideCipherAt(plain, key, i);
      WideXorTwice(plain[i], i, key);
    }
  }

  /** The length prefix a writer stores for a wide string of n units: n
      itself below 127, otherwise the escape 127 and n as an i32. */
  function WidePrefix(n: nat): (s: seq<byte>)
    requires 1 <= n < 0x8000_0000
    ensures |s| == if n < 127 then 1 else 5
  {
    if n < 127 then [n as byte] else [127 as byte] + LEBytes(n, 4)
  }

  /** The length prefix a writer stores for a narrow string of n bytes: -n
      up to 127, otherwise the escape -128 and n as an i32. */
  function NarrowPrefix(n: nat): (s: seq<byte>)
    requires 1 <= n < 0x8000_0000
    ensures |s| == if n <= 127 then 1 else 5
  {
    if n <= 127 then [(256 - n) as byte] else [128 as byte] + LEBytes(n, 4)
  }

  /** The i32 after an escape byte e, stored by a writer as LEBytes(n, 4), reads back as n. */
  lemma EscapedLength(e: byte, n: nat, rest: seq<byte>)
    requires 1 <= n < 0x8000_0000
    ensures FixedI32([e] + LEBytes(n, 4) + rest, 1) == Ok(Decoded(n, 5))
  {
    var data := [e] + LEBytes(n, 4) + rest;
    assert data[1..5] == LEBytes(n, 4);
    assert Pow256(4) == TWO32;
    LEBytesRoundTrip(n, 4);
  }

  /** Wide strings of any length up to 2^31 - 1 round-trip through the
      cipher: the per-unit transform is an XOR with a fixed mask and key
      word, and the escaped prefix carries lengths from 127 on. */
  lemma {:induction false} WideRoundTrip(plain: WzString, key: KeyStream, post: seq<byte>)
    requires 1 <= |plain| < 0x8000_0000
    ensures var pre := WidePrefix(|plain|);
            CipherString(pre + WideCipher(plain, key) + post, key, 0)
            == Ok(Decoded(plain, |pre| + 2 * |plain|))
  {
    var n := |plain|;
    var pre := WidePrefix(n);
    var c := WideCipher(plain, key);
    var data := pre + c + post;
    if n < 127 {
      assert data[0] as int == n && I8(data[0]) == n;
      CipherStringShortWide(data, key, 0);
    } else {
      assert data == [127 as byte] + LEBytes(n, 4) + (c + post);
      EscapedLength(127 as byte, n, c + post);
      CipherStringEscapedWide(data, key, 0);
    }
    WideUnitsOfCipher(pre, plain, key, post);
  }

  /** Deciphering an enciphered byte gives it back, zero-extended. */
  lemma NarrowByteRoundTrip(b: byte, i: nat, key: KeyStream)
    ensures Extend(NarrowXor(Bits(ByteOf(NarrowXor(Bits(b), i, key))), i, key)) == Unit(b)
  {
    NarrowXorTwice(Bits(b), i, key);
    UnitOfByte(b);
  }

  /** Deciphering the stored byte i gives back byte i, zero-extended. */
  lemma NarrowCipherAt(plain: seq<byte>, key: KeyStream, i: nat)
    requires i < |plain|
    ensures Extend(NarrowXor(Bits(NarrowCipher(plain, key)[i]), i, key)) == Unit(plain[i])
  {
    assert NarrowCipher(plain, key)[i] == ByteOf(NarrowXor(Bits(plain[i]), i, key));
    NarrowByteRoundTrip(plain[i], i, key);
  }

  lemma NarrowUnitOfCipher(pre: seq<byte>, plain: seq<byte>, key: KeyStream, post: seq<byte>, i: nat)
    requires i < |plain|
    ensures NarrowUnit(pre + NarrowCipher(plain, key) + post, key, |pre|, i) == Widen(plain)[i]
  {
    var c := NarrowCipher(plain, key);
    var data := pre + c + post;
    assert data[|pre| + i] == c[i];
    NarrowCipherAt(plain, key, i);
  }

  /** The narrow payload stored after any prefix deciphers to the plaintext. */
  lemma NarrowUnitsOfCipher(pre: seq<byte>, plain: seq<byte>, key: KeyStream, post: seq<byte>)
    ensures NarrowUnits(pre + NarrowCipher(plain, key) + post, key, |pre|, |plain|) == Widen(plain)
  {
    var w := NarrowUnits(pre + NarrowCipher(plain, key) + post, key, |pre|, |plain|);
    forall i | 0 <= i < |plain|
      ensures w[i] == Widen(plain)[i]
    {
      NarrowUnitOfCipher(pre, plain, key, post, i);
    }
  }

  /** Narrow strings of any length up to 2^31 - 1 round-trip through the
      cipher; each decoded unit is the zero-extended plaintext byte, and
      the escaped prefix carries lengths from 128 on. */
  lemma {:induction false} NarrowRoundTrip(plain: seq<byte>, key: KeyStream, post: seq<byte>)
    requires 1 <= |plain| < 0x8000_0000
    ensures var pre := NarrowPrefix(|plain|);
            CipherString(pre + NarrowCipher(plain, key) + post, key, 0)
            == Ok(Decoded(Widen(plain), |pre| + |plain|))
  {
    var n := |plain|;
    var pre := NarrowPrefix(n);
    var c := NarrowCipher(plain, key);
    var data := pre + c + post;
    if n <= 127 {
      assert data[0] == (256 - n) as byte && I8(data[0]) == -n;
      CipherStringShortNarrow(data, key, 0);
    } else {
      assert data == [128 as byte] + LEBytes(n, 4) + (c + post);
      EscapedLength(128 as byte, n, c + post);
      CipherStringEscapedNarrow(data, key, 0);
    }
    NarrowUnitsOfCipher(pre, plain, key, post);
  }

  // ---------------------------------------------------------------------
  // String blocks (read_string_block, read_wz_string_from_offset)
  // ---------------------------------------------------------------------

  predicate IsInlineTag(tag: byte) { tag == 0 || tag == 0x73 }
  predicate IsOffsetTag(tag: byte) { tag == 1 || tag == 0x1B }

  /** read_wz_string_from_offset: the cipher string at `offset`; only the
      value, the cursor is restored by the caller. */
  function StringAt(data: seq<byte>, key: KeyStream, offset: nat): Result<WzString>
  {
    ValueOf(CipherString(data, key, offset))
  }

  /** read_string_block: a tag, then an inline cipher string or a u32 delta
      from `base` to a shared copy of the string. */
  function StringBlock(data: seq<byte>, key: KeyStream, p: nat, base: nat): (r: Result<Decoded<WzString>>)
    ensures r.Ok? ==> p < |data| && (IsInlineTag(data[p]) || IsOffsetTag(data[p]))
    ensures p < |data| && !IsInlineTag(data[p]) && !IsOffsetTag(data[p]) ==> r == Err(MalformedData)
    ensures p < |data| && IsInlineTag(data[p]) ==> r == CipherString(data, key, p + 1)
    ensures p + 5 <= |data| && IsOffsetTag(data[p]) ==>
              (r.Ok? <==> StringAt(data, key, base + LE(data[p + 1..p + 5])).Ok?)
    ensures r.Ok? && IsOffsetTag(data[p]) ==>
              p + 5 <= |data| && r.value.next == p + 5 &&
              Ok(r.value.value) == StringAt(data, key, base + LE(data[p + 1..p + 5]))
  {
    if p >= |data| then Err(OutOfRange)
    else if IsInlineTag(data[p]) then CipherString(data, key, p + 1)
    else if IsOffsetTag(data[p]) then
      var delta :- Fixed(data, p + 1, 4);
      var s :- StringAt(data, key, base + delta.value);
      Ok(Decoded(s, delta.next))
    else Err(MalformedData)
  }

  /** Deduplication: two offset blocks that point at the same target decode
      to the same string. */
  lemma StringBlockSharedTarget(data: seq<byte>, key: KeyStream, p1: nat, base1: nat, p2: nat, base2: nat)
    requires p1 + 5 <= |data| && p2 + 5 <= |data|
    requires IsOffsetTag(data[p1]) && IsOffsetTag(data[p2])
    requires base1 + LE(data[p1 + 1..p1 + 5]) == base2 + LE(data[p2 + 1..p2 + 5])
    ensures StringBlock(data, key, p1, base1).Ok? <==> StringBlock(data, key, p2, base2).Ok?
    ensures StringBlock(data, key, p1, base1).Ok? ==>
              StringBlock(data, key, p1, base1).value.value == StringBlock(data, key, p2, base2).value.value
  {
    var s := StringAt(data, key, base1 + LE(data[p1 + 1..p1 + 5]));
    var b1 := StringBlock(data, key, p1, base1);
    var b2 := StringBlock(data, key, p2, base2);
    assert s == StringAt(data, key, base2 + LE(data[p2 + 1..p2 + 5]));
    assert b1.Ok? <==> s.Ok?;
    assert b2.Ok? <==> s.Ok?;
    if b1.Ok? {
      assert Ok(b1.value.value) == s == Ok(b2.value.value);
    }
  }

  // ---------------------------------------------------------------------
  // The image probe (is_wz_image)
  // ---------------------------------------------------------------------

  /** The class name that opens every image: "Property". */
  function PropertyName(): WzString { Utf16("Property") }

  /** is_wz_image: tag 0x73, the cipher string "Property", then a u16 of 0.
      It stops at the first mismatch, having consumed what it read. */
  function WzImageProbe(data: seq<byte>, key: KeyStream, p: nat): (r: Result<Decoded<bool>>)
    ensures r.Ok? ==> p < |data| && r.value.next > p
    ensures r.Ok? ==> (r.value.value <==>
              data[p] == 0x73 &&
              CipherString(data, key, p + 1).Ok? &&
              CipherString(data, key, p + 1).value.value == PropertyName() &&
              Fixed(data, CipherString(data, key, p + 1).value.next, 2) == Ok(Decoded(0, r.value.next)))
  {
    var tag :- Fixed(data, p, 1);
    if tag.value != 0x73 then Ok(Decoded(false, tag.next))
    else
      var name :- CipherString(data, key, tag.next);
      if name.value != PropertyName() then Ok(Decoded(false, name.next))
      else
        var zero :- Fixed(data, name.next, 2);
        Ok(Decoded(zero.value == 0, zero.next))
  }
}
