/** What a property list decodes to, as pure functions of the archive bytes:
    the entry-tag dispatch of parse_property_list, the extended classes of
    parse_extended_prop and the fixed-layout Canvas and Sound headers
    (src/Node.cpp). The parser in module PropertyParser is proved to follow
    these step by step. The fuel d bounds how deeply extended properties
    may nest; past it decoding stops with TooDeep. */
module PropSpec {
  import opened WzBase
  import opened Codec
  import opened WzNode

  const TWO64: int := 0x1_0000_0000_0000_0000

  /** set_position(offset + delta) computed in 64-bit size_t arithmetic:
      a negative sum wraps to a position far past any buffer. */
  function Seek(offset: nat, delta: int): (r: nat)
    ensures 0 <= offset + delta < TWO64 ==> r == offset + delta
    ensures -TWO64 <= offset + delta < 0 ==> r == TWO64 + offset + delta
  {
    (offset + delta) % TWO64
  }

  /** C++ integer division, which truncates toward zero. */
  function TruncDiv(a: int, b: int): (q: int)
    requires b > 0
    ensures a >= 0 ==> q == a / b
    ensures a < 0 ==> q == -((-a) / b)
  {
    if a >= 0 then a / b else -((-a) / b)
  }

  /** The pixel-buffer size a canvas of this format needs once inflated,
      computed in 32-bit int arithmetic; unknown format sums leave it unset. */
  function UncompressedSize(width: int, height: int, formatSum: int): (r: Option<int>)
  {
    if formatSum == 1 then Some(Wrap32(width * height * 2))         // Format8bpp
    else if formatSum == 2 then Some(Wrap32(width * height * 4))    // Format32bppArgb
    else if formatSum == 513 then Some(Wrap32(width * height * 2))  // Format16bppRgb565
    else if formatSum == 517 then Some(TruncDiv(Wrap32(width * height), 128))
    else None
  }

  /** The four known format sums and nothing else give a size. */
  lemma UncompressedSizeKnown(width: int, height: int, formatSum: int)
    ensures UncompressedSize(width, height, formatSum).Some?
            <==> formatSum in {1, 2, 513, 517}
    ensures formatSum == 1 || formatSum == 513 ==>
              UncompressedSize(width, height, formatSum) == Some(Wrap32(2 * width * height))
    ensures formatSum == 2 ==> UncompressedSize(width, height, formatSum) == Some(Wrap32(4 * width * height))
    ensures formatSum == 517 ==> UncompressedSize(width, height, formatSum) == Some(TruncDiv(Wrap32(width * height), 128))
    ensures IsI32(4 * width * height) && formatSum in {1, 2, 513} ==>
              UncompressedSize(width, height, formatSum) == Some((if formatSum == 2 then 4 else 2) * width * height)
  {
    if formatSum == 1 || formatSum == 513 {
      assert width * height * 2 == 2 * width * height;
      if IsI32(4 * width * height) {
        assert IsI32(2 * width * height);
      }
    } else if formatSum == 2 {
      assert width * height * 4 == 4 * width * height;
    }
  }

  /** A 2 by 3 canvas: 12 bytes at 8 bpp or RGB565, 24 at 32 bpp, and the
      517 format rounds 6/128 down to 0. */
  lemma UncompressedSizeExample()
    ensures UncompressedSize(2, 3, 1) == Some(12)
    ensures UncompressedSize(2, 3, 2) == Some(24)
    ensures UncompressedSize(2, 3, 513) == Some(12)
    ensures UncompressedSize(2, 3, 517) == Some(0)
    ensures UncompressedSize(2, 3, 3) == None
    ensures UncompressedSize(-300, 1, 517) == Some(-2)
    ensures UncompressedSize(0x8000, 0x8000, 2) == Some(0)
    ensures UncompressedSize(0x8000, 0x8000, 1) == Some(-0x8000_0000)
  {
  }

  lemma FixedByte(data: seq<byte>, q: nat)
    requires q < |data|
    ensures Fixed(data, q, 1) == Ok(Decoded(data[q] as nat, q + 1))
  {
    assert data[q..q + 1][1..] == [];
  }

  /** Not the zlib stream magic in either byte order. */
  predicate EncryptedMagic(magic: nat)
  {
    magic != 0x9C78 && magic != 0xDA78
  }

  /** The start of parse_canvas_property at p: width, height and format as
      compressed ints, then the format2 byte. */
  function CanvasFormatAt(data: seq<byte>, p: nat): (r: Result<Decoded<(int, int, int, nat)>>)
    ensures r.Err? ==> r.error == OutOfRange
  {
    var w :- CompressedInt(data, p);
    var h :- CompressedInt(data, w.next);
    var f :- CompressedInt(data, h.next);
    var f2 :- Fixed(data, f.next, 1);
    Ok(Decoded((w.value, h.value, f.value, f2.value), f2.next))
  }

  /** parse_canvas_property at p: the format fields, 4 skipped bytes, the
      i32 blob length, one skipped byte; the payload starts there with a
      2-byte magic, and the cursor then jumps to offset + size, size being
      the blob length less one. */
  function CanvasHeaderAt(data: seq<byte>, p: nat): (r: Result<Decoded<CanvasHeader>>)
    ensures r.Err? ==> r.error == OutOfRange
  {
    var fmt :- CanvasFormatAt(data, p);
    var blob :- FixedI32(data, fmt.next + 4);
    var offset := blob.next + 1;
    var magic :- Fixed(data, offset, 2);
    var c := CanvasFields(fmt.value, blob.value, offset, magic.value);
    Ok(Decoded(c, Seek(offset, c.size)))
  }

  /** The header parse_canvas_property fills in from the format fields, the
      i32 blob length, the payload offset and the 2-byte magic. */
  function CanvasFields(fmt: (int, int, int, nat), blob: int, offset: nat, magic: nat): (c: CanvasHeader)
    ensures IsI32(c.size)
  {
    CanvasHeader(fmt.0, fmt.1, fmt.2, fmt.3, Wrap32(blob - 1), offset,
                 EncryptedMagic(magic), UncompressedSize(fmt.0, fmt.1, fmt.2 + fmt.3))
  }

  /** parse_sound_property at p: one skipped byte, the compressed-int size
      and length, 56 skipped bytes, the i32 frequency, 22 skipped bytes;
      the payload starts there and the cursor jumps past its size. */
  function SoundHeaderAt(data: seq<byte>, p: nat): (r: Result<Decoded<SoundHeader>>)
    ensures r.Err? ==> r.error == OutOfRange
  {
    var size :- CompressedInt(data, p + 1);
    var length :- CompressedInt(data, size.next);
    var freq :- FixedI32(data, length.next + 56);
    var offset := freq.next + 22;
    Ok(Decoded(SoundHeader(size.value, length.value, freq.value, offset), Seek(offset, size.value)))
  }

  /** The extended class names parse_extended_prop understands. */
  const PropertyClass: WzString := Utf16("Property")
  const CanvasClass: WzString := Utf16("Canvas")
  const VectorClass: WzString := Utf16("Shape2D#Vector2D")
  const ConvexClass: WzString := Utf16("Shape2D#Convex2D")
  const SoundClass: WzString := Utf16("Sound_DX8")
  const UolClass: WzString := Utf16("UOL")

  /** The layout a class name selects, tried in the order of
      parse_extended_prop's comparisons; any other name is unknown. */
  datatype Layout =
    | SubPropertyLayout | CanvasLayout | VectorLayout | ConvexLayout
    | SoundLayout | UolLayout | UnknownLayout

  function LayoutOf(cls: WzString): Layout
  {
    if cls == PropertyClass then SubPropertyLayout
    else if cls == CanvasClass then CanvasLayout
    else if cls == VectorClass then VectorLayout
    else if cls == ConvexClass then ConvexLayout
    else if cls == SoundClass then SoundLayout
    else if cls == UolClass then UolLayout
    else UnknownLayout
  }

  /** Each of the six class names selects its own layout, and every other
      name selects none. */
  lemma LayoutOfNames(cls: WzString)
    ensures LayoutOf(cls) == SubPropertyLayout <==> cls == PropertyClass
    ensures LayoutOf(cls) == CanvasLayout <==> cls == CanvasClass
    ensures LayoutOf(cls) == VectorLayout <==> cls == VectorClass
    ensures LayoutOf(cls) == ConvexLayout <==> cls == ConvexClass
    ensures LayoutOf(cls) == SoundLayout <==> cls == SoundClass
    ensures LayoutOf(cls) == UolLayout <==> cls == UolClass
    ensures LayoutOf(cls) == UnknownLayout <==>
            cls !in {PropertyClass, CanvasClass, VectorClass, ConvexClass, SoundClass, UolClass}
  {
    assert VectorClass[8] != ConvexClass[8];
  }

  /** How many entries produced no node. */
  function Dropped(os: seq<Option<Entry>>): (n: nat)
    ensures n <= |os|
  {
    if os == [] then 0 else Dropped(os[..|os| - 1]) + (if os[|os| - 1].None? then 1 else 0)
  }

  /** The entries that produced a node (tag 4 with an unknown sub-tag
      produces none), in order. */
  function Present(os: seq<Option<Entry>>): (es: seq<Entry>)
    ensures |es| <= |os|
    decreases |os|
  {
    if os == [] then [] else Present(os[..|os| - 1]) + Listed(os[|os| - 1])
  }

  function Listed(o: Option<Entry>): (es: seq<Entry>)
    ensures |es| == if o.Some? then 1 else 0
  {
    if o.Some? then [o.value] else []
  }

  /** Every entry produces a node except the dropped ones. */
  lemma {:induction false} PresentLength(os: seq<Option<Entry>>)
    ensures |Present(os)| == |os| - Dropped(os)
    decreases |os|
  {
    if os != [] {
      PresentLength(os[..|os| - 1]);
    }
  }

  /** A result with acc put in front of its value. */
  function Prefixed<T>(acc: seq<T>, r: Result<Decoded<seq<T>>>): (r': Result<Decoded<seq<T>>>)
    ensures r'.Ok? <==> r.Ok?
    ensures r'.Ok? ==> r'.value.value == acc + r.value.value && r'.value.next == r.value.next
    ensures r'.Err? ==> r'.error == r.error
  {
    match r
    case Ok(x) => Ok(Decoded(acc + x.value, x.next))
    case Err(e) => Err(e)
  }

  /** parse_property_list at p: a compressed-int count, then that many
      entries; the list is the nodes they produced. */
  function DecodeList(data: seq<byte>, key: KeyStream, base: nat, d: nat, p: nat)
    : (r: Result<Decoded<seq<Entry>>>)
    ensures r.Ok? ==> CompressedInt(data, p).Ok? &&
                      |r.value.value| <= if CompressedInt(data, p).value.value < 0 then 0 else CompressedInt(data, p).value.value
    decreases d, 4
  {
    var n :- CompressedInt(data, p);
    var os :- DecodeEntries(data, key, base, d, n.next, n.value);
    Ok(Decoded(Present(os.value), os.next))
  }

  /** A list of count entries holds one node per entry, less the entries
      that were dropped (tag 4 with an unknown sub-tag). */
  lemma ListLength(data: seq<byte>, key: KeyStream, base: nat, d: nat, p: nat)
    ensures var r := DecodeList(data, key, base, d, p);
            r.Ok? ==> var n := CompressedInt(data, p);
                      n.Ok? && var os := DecodeEntries(data, key, base, d, n.value.next, n.value.value);
                      os.Ok? && |r.value.value| == (if n.value.value < 0 then 0 else n.value.value) - Dropped(os.value.value)
  {
    var n := CompressedInt(data, p);
    if n.Ok? {
      var os := DecodeEntries(data, key, base, d, n.value.next, n.value.value);
      if os.Ok? {
        PresentLength(os.value.value);
      }
    }
  }

  /** count entries (none when count <= 0), one after the other. */
  function DecodeEntries(data: seq<byte>, key: KeyStream, base: nat, d: nat, p: nat, count: int)
    : (r: Result<Decoded<seq<Option<Entry>>>>)
    ensures r.Ok? ==> |r.value.value| == if count < 0 then 0 else count
    decreases d, 3, if count < 0 then 0 else count
  {
    if count <= 0 then Ok(Decoded([], p))
    else
      var e :- DecodeEntry(data, key, base, d, p);
      var rest :- DecodeEntries(data, key, base, d, e.next, count - 1);
      Ok(Decoded([e.value] + rest.value, rest.next))
  }

  /** The position of an entry's tag byte: just after its name. */
  function TagPos(data: seq<byte>, key: KeyStream, base: nat, p: nat): Option<nat>
  {
    var name := StringBlock(data, key, p, base);
    if name.Ok? && name.value.next < |data| then Some(name.value.next) else None
  }

  /** One entry of a property list: its name as a string block, a type
      tag, then the tag's payload. Tag 9 ends where its u32 length says. */
  function DecodeEntry(data: seq<byte>, key: KeyStream, base: nat, d: nat, p: nat)
    : (r: Result<Decoded<Option<Entry>>>)
    ensures r.Ok? && r.value.value.None? ==>
              TagPos(data, key, base, p).Some? && data[TagPos(data, key, base, p).value] == 4
    decreases d, 2
  {
    var name :- StringBlock(data, key, p, base);
    var tag :- Fixed(data, name.next, 1);
    FixedByte(data, name.next);
    if tag.value == 9 then DecodeWrapped(data, key, base, d, name.value, tag.next)
    else DecodeValue(data, key, base, name.value, tag.value, tag.next)
  }

  /** The payload of a tag 9 entry named nm at q: a u32 length, then an
      extended property; the entry ends where the length says, wherever
      the property itself stopped. */
  function DecodeWrapped(data: seq<byte>, key: KeyStream, base: nat, d: nat, nm: WzString, q: nat)
    : (r: Result<Decoded<Option<Entry>>>)
    ensures r.Ok? ==> r.value.value.Some? && r.value.value.value.name == nm
    decreases d, 1
  {
    var len :- Fixed(data, q, 4);
    var e :- DecodeExtended(data, key, base, d, nm, len.next);
    Ok(Decoded(Some(e.value), len.next + len.value))
  }

  /** The payload of an entry with any tag but 9, named nm, at q. */
  function DecodeValue(data: seq<byte>, key: KeyStream, base: nat, nm: WzString, tag: nat, q: nat)
    : (r: Result<Decoded<Option<Entry>>>)
    ensures r.Ok? ==> tag in {0, 2, 3, 4, 5, 8, 0x0B}
    ensures tag !in {0, 2, 3, 4, 5, 8, 9, 0x0B} ==> r == Err(MalformedData)
    ensures r.Ok? && r.value.value.Some? ==> r.value.value.value.name == nm
    ensures r.Ok? && tag != 4 ==> r.value.value.Some?
    ensures r.Ok? && r.value.value.None? ==> r.value.next == q + 1
  {
    if tag == 0 then Ok(Decoded(Some(Entry(nm, Null, NoValue, [])), q))
    else if tag == 2 || tag == 0x0B then
      var v :- Fixed(data, q, 2);
      Ok(Decoded(Some(Entry(nm, UnsignedShort, UShortValue(v.value), [])), v.next))
    else if tag == 3 then
      var v :- CompressedInt(data, q);
      Ok(Decoded(Some(Entry(nm, Int, IntValue(v.value), [])), v.next))
    else if tag == 4 then
      var sub :- Fixed(data, q, 1);
      if sub.value == 0x80 then
        var v :- Fixed(data, sub.next, 4);
        Ok(Decoded(Some(Entry(nm, Float, FloatBits(v.value), [])), v.next))
      else if sub.value == 0 then Ok(Decoded(Some(Entry(nm, Float, FloatBits(0), [])), sub.next))
      else Ok(Decoded(None, sub.next))
    else if tag == 5 then
      var v :- Fixed(data, q, 8);
      Ok(Decoded(Some(Entry(nm, Double, DoubleBits(v.value), [])), v.next))
    else if tag == 8 then
      var s :- StringBlock(data, key, q, base);
      Ok(Decoded(Some(Entry(nm, String, StringValue(s.value), [])), s.next))
    else Err(MalformedData)
  }

  /** parse_extended_prop: a class name as a string block, then that
      class's layout at the position after it. Every class yields one entry
      under the given name; the classes that nest further properties get
      the fuel d - 1. */
  function DecodeExtended(data: seq<byte>, key: KeyStream, base: nat, d: nat, name: WzString, p: nat)
    : (r: Result<Decoded<Entry>>)
    ensures r.Ok? ==> r.value.value.name == name
    ensures d == 0 ==> r == Err(TooDeep)
    decreases d, 0
  {
    if d == 0 then Err(TooDeep)
    else
      var cls :- StringBlock(data, key, p, base);
      DecodeLayout(LayoutOf(cls.value), data, key, base, d - 1, name, cls.next)
  }

  /** parse_extended_prop fails when its class name cannot be read, with
      that read's error, and on a class name it does not know. */
  lemma ExtendedClassErrors(data: seq<byte>, key: KeyStream, base: nat, d: nat, name: WzString, p: nat)
    requires d > 0
    ensures var cls := StringBlock(data, key, p, base);
            var r := DecodeExtended(data, key, base, d, name, p);
            (cls.Err? ==> r == Err(cls.error)) &&
            (cls.Ok? && LayoutOf(cls.value.value) == UnknownLayout ==> r == Err(MalformedData))
  {
  }

  /** The branches of parse_extended_prop: the layout a class name selects,
      read at q; an unknown class is malformed data. */
  function DecodeLayout(layout: Layout, data: seq<byte>, key: KeyStream, base: nat, d: nat, name: WzString, q: nat)
    : (r: Result<Decoded<Entry>>)
    ensures r.Ok? ==> r.value.value.name == name
    ensures layout == UnknownLayout ==> r == Err(MalformedData)
    decreases d, 7
  {
    match layout
    case SubPropertyLayout => DecodeSubProperty(data, key, base, d, name, q)
    case CanvasLayout => DecodeCanvas(data, key, base, d, name, q)
    case VectorLayout => DecodeVector(data, name, q)
    case ConvexLayout => DecodeConvex(data, key, base, d, name, q)
    case SoundLayout => DecodeSound(data, name, q)
    case UolLayout => DecodeUol(data, key, base, name, q)
    case UnknownLayout => Err(MalformedData)
  }

  /** "Shape2D#Vector2D": two compressed ints, x then y. */
  function DecodeVector(data: seq<byte>, name: WzString, q: nat): (r: Result<Decoded<Entry>>)
    ensures r.Ok? ==> r.value.value.name == name && r.value.value.kind == Vector2D && r.value.value.children == []
  {
    var x :- CompressedInt(data, q);
    var y :- CompressedInt(data, x.next);
    Ok(Decoded(Entry(name, Vector2D, VectorValue(x.value, y.value), []), y.next))
  }

  /** "Sound_DX8": the sound header. */
  function DecodeSound(data: seq<byte>, name: WzString, q: nat): (r: Result<Decoded<Entry>>)
    ensures r.Ok? ==> r.value.value.name == name && r.value.value.kind == Sound && r.value.value.children == []
  {
    var s :- SoundHeaderAt(data, q);
    Ok(Decoded(Entry(name, Sound, SoundValue(s.value), []), s.next))
  }

  /** "UOL": one skipped byte, then the link path as a string block. */
  function DecodeUol(data: seq<byte>, key: KeyStream, base: nat, name: WzString, q: nat): (r: Result<Decoded<Entry>>)
    ensures r.Ok? ==> r.value.value.name == name && r.value.value.kind == UOL && r.value.value.children == []
  {
    var s :- StringBlock(data, key, q + 1, base);
    Ok(Decoded(Entry(name, UOL, UolValue(s.value), []), s.next))
  }

  /** A "Shape2D#Convex2D" at q: the count, then that many points. */
  lemma ConvexParts(data: seq<byte>, key: KeyStream, base: nat, d: nat, name: WzString, q: nat)
    ensures var s := DecodeConvex(data, key, base, d, name, q);
            var m := CompressedInt(data, q);
            (m.Err? ==> s == Err(m.error)) &&
            (m.Ok? ==> var it := ConvexItems(data, key, base, d, name, m.value.next, m.value.value);
                       (it.Err? ==> s == Err(it.error)) &&
                       (it.Ok? ==> s == Ok(Decoded(Entry(name, Convex2D, NoValue, it.value.value), it.value.next))))
  {
  }

  /** What is left of a list of count entries at p, put after the
      entries acc already read. */
  function EntriesAfter(acc: seq<Option<Entry>>, data: seq<byte>, key: KeyStream, base: nat, d: nat, p: nat, count: int)
    : Result<Decoded<seq<Option<Entry>>>>
  {
    Prefixed(acc, DecodeEntries(data, key, base, d, p, count))
  }

  /** What is left of count convex points at p, put after the points acc
      already read. */
  function ConvexAfter(acc: seq<Entry>, data: seq<byte>, key: KeyStream, base: nat, d: nat, name: WzString, p: nat, count: int)
    : Result<Decoded<seq<Entry>>>
  {
    Prefixed(acc, ConvexItems(data, key, base, d, name, p, count))
  }

  /** A "Canvas" at q: the children part, then the header. */
  lemma CanvasParts(data: seq<byte>, key: KeyStream, base: nat, d: nat, name: WzString, q: nat)
    ensures var s := DecodeCanvas(data, key, base, d, name, q);
            var kids := CanvasChildren(data, key, base, d, q);
            (kids.Err? ==> s == Err(kids.error)) &&
            (kids.Ok? ==> var c := CanvasHeaderAt(data, kids.value.next);
                          (c.Err? ==> s == Err(c.error)) &&
                          (c.Ok? ==> s == Ok(Decoded(Entry(name, Canvas, CanvasValue(c.value.value), kids.value.value),
                                                     c.value.next))))
  {
  }

  /** No entries left to read: the empty list, where it started. */
  lemma EntriesNone(data: seq<byte>, key: KeyStream, base: nat, d: nat, p: nat, count: int)
    requires count <= 0
    ensures DecodeEntries(data, key, base, d, p, count) == Ok(Decoded([], p))
  {
  }

  lemma ConvexNone(data: seq<byte>, key: KeyStream, base: nat, d: nat, name: WzString, p: nat, count: int)
    requires count <= 0
    ensures ConvexItems(data, key, base, d, name, p, count) == Ok(Decoded([], p))
  {
  }

  /** "Property": two reserved bytes, then a nested property list. */
  function DecodeSubProperty(data: seq<byte>, key: KeyStream, base: nat, d: nat, name: WzString, q: nat)
    : (r: Result<Decoded<Entry>>)
    ensures r.Ok? ==> r.value.value.name == name && r.value.value.kind == SubProperty
    decreases d, 5
  {
    var kids :- DecodeList(data, key, base, d, q + 2);
    Ok(Decoded(Entry(name, SubProperty, NoValue, kids.value), kids.next))
  }

  /** "Canvas": one skipped byte, a flag byte, and only when the flag is 1
      two reserved bytes and a nested property list; then the canvas header. */
  function DecodeCanvas(data: seq<byte>, key: KeyStream, base: nat, d: nat, name: WzString, q: nat)
    : (r: Result<Decoded<Entry>>)
    ensures r.Ok? ==> r.value.value.name == name && r.value.value.kind == Canvas
    decreases d, 6
  {
    var kids :- CanvasChildren(data, key, base, d, q);
    var c :- CanvasHeaderAt(data, kids.next);
    Ok(Decoded(Entry(name, Canvas, CanvasValue(c.value), kids.value), c.next))
  }

  /** The part of a "Canvas" before its header: one skipped byte, a flag
      byte, and only when the flag is 1 two reserved bytes and a nested
      property list. */
  function CanvasChildren(data: seq<byte>, key: KeyStream, base: nat, d: nat, q: nat)
    : (r: Result<Decoded<seq<Entry>>>)
    decreases d, 5
  {
    var flag :- Fixed(data, q + 1, 1);
    if flag.value == 1 then DecodeList(data, key, base, d, flag.next + 2)
    else Ok(Decoded([], flag.next))
  }

  /** "Shape2D#Convex2D": a compressed-int count M, then M extended
      properties appended to the convex node. */
  function DecodeConvex(data: seq<byte>, key: KeyStream, base: nat, d: nat, name: WzString, q: nat)
    : (r: Result<Decoded<Entry>>)
    ensures r.Ok? ==> r.value.value.name == name && r.value.value.kind == Convex2D
    decreases d, 5
  {
    var m :- CompressedInt(data, q);
    var items :- ConvexItems(data, key, base, d, name, m.next, m.value);
    Ok(Decoded(Entry(name, Convex2D, NoValue, items.value), items.next))
  }

  /** The points of a Convex2D: count extended properties, each appended
      to the convex node under the convex node's own name. */
  function ConvexItems(data: seq<byte>, key: KeyStream, base: nat, d: nat, name: WzString, p: nat, count: int)
    : (r: Result<Decoded<seq<Entry>>>)
    ensures r.Ok? ==> |r.value.value| == if count < 0 then 0 else count
    decreases d, 1, if count < 0 then 0 else count
  {
    if count <= 0 then Ok(Decoded([], p))
    else
      var e :- DecodeExtended(data, key, base, d, name, p);
      var rest :- ConvexItems(data, key, base, d, name, e.next, count - 1);
      Ok(Decoded([e.value] + rest.value, rest.next))
  }

  /** Every entry of es is named name. */
  predicate AllNamed(es: seq<Entry>, name: WzString)
  {
    forall i :: 0 <= i < |es| ==> es[i].name == name
  }

  lemma AllNamedCons(e: Entry, rest: seq<Entry>, name: WzString)
    requires e.name == name && AllNamed(rest, name)
    ensures AllNamed([e] + rest, name)
  {
    forall i | 0 <= i < |[e] + rest|
      ensures ([e] + rest)[i].name == name
    {
      if i > 0 {
        assert ([e] + rest)[i] == rest[i - 1];
      }
    }
  }

  /** Every point of a Convex2D carries the convex node's own name. */
  lemma {:induction false} ConvexItemsNamed(data: seq<byte>, key: KeyStream, base: nat, d: nat, name: WzString,
                                            p: nat, count: int)
    decreases if count < 0 then 0 else count
    ensures var r := ConvexItems(data, key, base, d, name, p, count);
            r.Ok? ==> AllNamed(r.value.value, name)
  {
    var r := ConvexItems(data, key, base, d, name, p, count);
    if count <= 0 {
      assert r.value.value == [];
    } else {
      var e := DecodeExtended(data, key, base, d, name, p);
      if e.Ok? {
        var rest := ConvexItems(data, key, base, d, name, e.value.next, count - 1);
        ConvexItemsNamed(data, key, base, d, name, e.value.next, count - 1);
        if rest.Ok? {
          assert r == Ok(Decoded([e.value.value] + rest.value.value, rest.value.next));
          assert e.value.value.name == name;
          assert AllNamed(rest.value.value, name);
          AllNamedCons(e.value.value, rest.value.value, name);
        }
      }
    }
  }

  /** The entry type tags parse_property_list knows. */
  const EntryTags: set<byte> := {0, 2, 3, 4, 5, 8, 9, 0x0B}

  /** An entry decodes only under a known tag, and any other tag byte is
      MalformedData (the assert(0) of the default branch). */
  lemma EntryTagsKnown(data: seq<byte>, key: KeyStream, base: nat, d: nat, p: nat)
    ensures var r := DecodeEntry(data, key, base, d, p);
            var t := TagPos(data, key, base, p);
            (r.Ok? ==> t.Some? && data[t.value] in EntryTags) &&
            (t.Some? && data[t.value] !in EntryTags ==> r == Err(MalformedData))
  {
    var name := StringBlock(data, key, p, base);
    if name.Ok? && name.value.next < |data| {
      FixedByte(data, name.value.next);
    }
  }

  /** The node an entry produces is named by the entry's string block. */
  lemma EntryNamed(data: seq<byte>, key: KeyStream, base: nat, d: nat, p: nat)
    ensures var r := DecodeEntry(data, key, base, d, p);
            r.Ok? && r.value.value.Some? ==>
              StringBlock(data, key, p, base).Ok? &&
              r.value.value.value.name == StringBlock(data, key, p, base).value.value
  {
    var name := StringBlock(data, key, p, base);
    if name.Ok? && name.value.next < |data| {
      FixedByte(data, name.value.next);
    }
  }

  /** Tag 4 produces a node only for sub-tags 0x80 and 0; any other
      sub-tag is consumed and nothing is appended. */
  lemma EntryFloatDropped(data: seq<byte>, key: KeyStream, base: nat, d: nat, p: nat)
    requires TagPos(data, key, base, p).Some?
    requires var t := TagPos(data, key, base, p).value; data[t] == 4
    ensures var t := TagPos(data, key, base, p).value;
            var r := DecodeEntry(data, key, base, d, p);
            (r.Ok? && r.value.value.None? <==> t + 1 < |data| && data[t + 1] !in {0, 0x80}) &&
            (r.Ok? && r.value.value.None? ==> r.value.next == t + 2)
  {
    var t := TagPos(data, key, base, p).value;
    FixedByte(data, t);
    if t + 1 < |data| {
      FixedByte(data, t + 1);
    }
  }

  /** Tag 4 with sub-tag 0x80 is a float whose four bytes follow. */
  lemma EntryFloatBits(data: seq<byte>, key: KeyStream, base: nat, d: nat, p: nat)
    requires TagPos(data, key, base, p).Some?
    requires var t := TagPos(data, key, base, p).value;
             data[t] == 4 && t + 6 <= |data| && data[t + 1] == 0x80
    ensures var t := TagPos(data, key, base, p).value;
            DecodeEntry(data, key, base, d, p)
            == Ok(Decoded(Some(Entry(StringBlock(data, key, p, base).value.value, Float,
                                     FloatBits(LE(data[t + 2..t + 6])), [])), t + 6))
  {
    var t := TagPos(data, key, base, p).value;
    FixedByte(data, t);
    FixedByte(data, t + 1);
  }

  /** Tag 4 with sub-tag 0 is the float 0.0 and reads no value bytes. */
  lemma EntryFloatZero(data: seq<byte>, key: KeyStream, base: nat, d: nat, p: nat)
    requires TagPos(data, key, base, p).Some?
    requires var t := TagPos(data, key, base, p).value;
             data[t] == 4 && t + 1 < |data| && data[t + 1] == 0
    ensures var t := TagPos(data, key, base, p).value;
            DecodeEntry(data, key, base, d, p)
            == Ok(Decoded(Some(Entry(StringBlock(data, key, p, base).value.value, Float, FloatBits(0), [])), t + 2))
  {
    var t := TagPos(data, key, base, p).value;
    FixedByte(data, t);
    FixedByte(data, t + 1);
  }

  /** Tag 9 ends exactly at the position after its u32 length plus that
      length, however far the extended property itself read. */
  lemma EntryExtendedResync(data: seq<byte>, key: KeyStream, base: nat, d: nat, p: nat)
    requires StringBlock(data, key, p, base).Ok?
    requires var t := StringBlock(data, key, p, base).value.next; t + 5 <= |data| && data[t] == 9
    ensures var name := StringBlock(data, key, p, base).value;
            var r := DecodeEntry(data, key, base, d, p);
            var e := DecodeExtended(data, key, base, d, name.value, name.next + 5);
            (r.Ok? <==> e.Ok?) &&
            (r.Ok? ==> r.value == Decoded(Some(e.value.value), name.next + 5 + LE(data[name.next + 1..name.next + 5])))
  {
    var name := StringBlock(data, key, p, base);
    var t := name.value.next;
    FixedByte(data, t);
    assert Fixed(data, t + 1, 4) == Ok(Decoded(LE(data[t + 1..t + 5]), t + 5));
  }

  /** The format fields in terms of the bytes: width, height and format
      are three compressed ints in a row and format2 is the byte after
      them; the read succeeds exactly when all four are there. */
  lemma CanvasFormatLayout(data: seq<byte>, p: nat)
    ensures var r := CanvasFormatAt(data, p);
            var w := CompressedInt(data, p);
            r.Ok? <==> (w.Ok? && var h := CompressedInt(data, w.value.next);
                        h.Ok? && var f := CompressedInt(data, h.value.next);
                        f.Ok? && f.value.next < |data|)
    ensures var r := CanvasFormatAt(data, p);
            r.Ok? ==> var w := CompressedInt(data, p);
                      var h := CompressedInt(data, w.value.next);
                      var f := CompressedInt(data, h.value.next);
                      r.value == Decoded((w.value.value, h.value.value, f.value.value, data[f.value.next] as nat),
                                         f.value.next + 1)
  {
    var w := CompressedInt(data, p);
    if w.Ok? {
      var h := CompressedInt(data, w.value.next);
      if h.Ok? {
        var f := CompressedInt(data, h.value.next);
        if f.Ok? && f.value.next < |data| {
          FixedByte(data, f.value.next);
        }
      }
    }
  }

  /** What the canvas header fields are in terms of the bytes: the format
      fields come first, 4 bytes are skipped, the blob length comes next
      and one more byte is skipped before the payload; the magic at the
      payload offset decides encryption, and the cursor lands at
      offset + size. */
  lemma CanvasHeaderLayout(data: seq<byte>, p: nat)
    ensures var r := CanvasHeaderAt(data, p);
            r.Ok? ==> var c := r.value.value;
              var w := CompressedInt(data, p);
              w.Ok? && var h := CompressedInt(data, w.value.next);
              h.Ok? && var f := CompressedInt(data, h.value.next);
              f.Ok? && f.value.next < |data| &&
              c.width == w.value.value && c.height == h.value.value &&
              c.format == f.value.value && c.format2 == data[f.value.next] as nat &&
              c.offset == f.value.next + 10 &&
              p + 13 <= c.offset && c.offset + 2 <= |data| &&
              c.size == Wrap32(FixedI32(data, c.offset - 5).value.value - 1) &&
              (c.isEncrypted <==> EncryptedMagic(LE(data[c.offset..c.offset + 2]))) &&
              c.uncompressedSize == UncompressedSize(c.width, c.height, c.format + c.format2) &&
              r.value.next == Seek(c.offset, c.size)
  {
    CanvasFormatLayout(data, p);
  }

  /** A 2x3 8 bpp canvas with blob length 11 and the zlib magic: the payload
      starts at byte 13, holds 10 bytes, is not encrypted and inflates to 12. */
  lemma CanvasHeaderExample(payload: seq<byte>)
    ensures CanvasHeaderAt([2, 3, 1, 0, 0, 0, 0, 0, 11, 0, 0, 0, 0, 0x78, 0x9C] + payload, 0)
            == Ok(Decoded(CanvasHeader(2, 3, 1, 0, 10, 13, false, Some(12)), 23))
  {
    var data: seq<byte> := [2, 3, 1, 0, 0, 0, 0, 0, 11, 0, 0, 0, 0, 0x78, 0x9C] + payload;
    assert CompressedInt(data, 0) == Ok(Decoded(2, 1));
    assert CompressedInt(data, 1) == Ok(Decoded(3, 2));
    assert CompressedInt(data, 2) == Ok(Decoded(1, 3));
    FixedByte(data, 3);
    assert data[8..12] == [11, 0, 0, 0];
    assert LE([0, 0, 0]) == 0 by {
      assert LE([0]) == 0 + 256 * LE([]);
      assert LE([0, 0]) == 0 + 256 * LE([0]);
    }
    assert LE([11, 0, 0, 0]) == 11 + 256 * LE([0, 0, 0]);
    assert FixedI32(data, 8) == Ok(Decoded(11, 12));
    assert data[13..15] == [0x78, 0x9C];
    assert LE([0x9C]) == 0x9C + 256 * LE([]);
    assert LE([0x78, 0x9C]) == 0x78 + 256 * LE([0x9C]);
    assert Fixed(data, 13, 2) == Ok(Decoded(0x9C78, 15));
  }

  /** Where the sound payload starts: one skipped byte, the two compressed
      ints (1 or 5 bytes each), 56 bytes, the 4-byte frequency, 22 bytes. */
  lemma SoundHeaderLayout(data: seq<byte>, p: nat)
    ensures var r := SoundHeaderAt(data, p);
            r.Ok? ==> var s := r.value.value;
              var sz := CompressedInt(data, p + 1);
              sz.Ok? && var ln := CompressedInt(data, sz.value.next);
              ln.Ok? &&
              s.size == sz.value.value && s.length == ln.value.value &&
              s.offset == ln.value.next + 82 &&
              s.offset - p in {85, 89, 93} && s.offset <= |data| + 22 &&
              s.frequency == FixedI32(data, s.offset - 26).value.value &&
              r.value.next == Seek(s.offset, s.size)
  {
  }

  /** With one-byte size and length the payload starts 85 bytes in. */
  lemma SoundHeaderShort(data: seq<byte>, p: nat)
    requires p + 85 <= |data|
    requires I8(data[p + 1]) != -128 && I8(data[p + 2]) != -128
    ensures SoundHeaderAt(data, p).Ok?
    ensures SoundHeaderAt(data, p).value.value.offset == p + 85
    ensures SoundHeaderAt(data, p).value.value.size == I8(data[p + 1])
    ensures SoundHeaderAt(data, p).value.value.length == I8(data[p + 2])
  {
  }
}
