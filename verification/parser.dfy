/** The property parser of class wz::Node (src/Node.cpp): parse_property_list,
    parse_extended_prop, parse_canvas_property and parse_sound_property,
    working on a Reader and appending freshly created nodes to a target.
    Each method is proved to do what the matching decoding function of
    module PropSpec says: it fails exactly when that function fails, with
    the same error, and otherwise leaves the cursor where the function
    ends and appends nodes whose kinds, payloads, names, parents, paths and
    own children are the entries that function decodes. */
module PropertyParser {
  import opened WzBase
  import opened Codec
  import opened WzReader
  import opened WzNode
  import opened PropSpec

  /** A parse result agrees with a decoding result: both succeed, or both
      fail with the same error. */
  predicate Agrees<A, B>(r: Result<A>, s: Result<Decoded<B>>)
  {
    r.Ok? == s.Ok? && (r.Err? ==> r.error == s.error)
  }

  /** The fields of a node the parser never changes on the target. */
  ghost function Own(n: Node): (WzString, Node?, Payload, Node?, nat)
    reads n
  {
    (n.path, n.parent, n.payload, n.link, n.imageOffset)
  }

  /** read<T> of n bytes, failing instead of reading past the buffer. */
  method ReadFixed(rd: Reader, n: nat) returns (r: Result<nat>)
    modifies rd
    ensures r == ValueOf(Fixed(rd.data, old(rd.cursor), n))
    ensures r.Ok? ==> rd.cursor == Fixed(rd.data, old(rd.cursor), n).value.next
  {
    if rd.cursor + n > |rd.data| {
      return Err(OutOfRange);
    }
    var v := rd.Read(n);
    return Ok(v);
  }

  /** read<i32>, failing instead of reading past the buffer. */
  method ReadFixedI32(rd: Reader) returns (r: Result<int>)
    modifies rd
    ensures r == ValueOf(FixedI32(rd.data, old(rd.cursor)))
    ensures r.Ok? ==> rd.cursor == FixedI32(rd.data, old(rd.cursor)).value.next
  {
    if rd.cursor + 4 > |rd.data| {
      return Err(OutOfRange);
    }
    var v := rd.ReadI32();
    return Ok(v);
  }

  /** The first four reads of parse_canvas_property. */
  method ReadCanvasFormat(rd: Reader) returns (r: Result<(int, int, int, nat)>)
    modifies rd
    ensures r == ValueOf(CanvasFormatAt(rd.data, old(rd.cursor)))
    ensures r.Ok? ==> rd.cursor == CanvasFormatAt(rd.data, old(rd.cursor)).value.next
  {
    var width :- rd.ReadCompressedInt();
    var height :- rd.ReadCompressedInt();
    var format :- rd.ReadCompressedInt();
    var format2 :- ReadFixed(rd, 1);
    return Ok((width, height, format, format2));
  }

  /** parse_canvas_property: the canvas header at the cursor; the cursor
      ends at offset + size, wrapped as size_t. */
  method ParseCanvasProperty(rd: Reader) returns (r: Result<CanvasHeader>)
    modifies rd
    ensures r == ValueOf(CanvasHeaderAt(rd.data, old(rd.cursor)))
    ensures r.Ok? ==> rd.cursor == CanvasHeaderAt(rd.data, old(rd.cursor)).value.next
  {
    ghost var p := rd.cursor;
    var fmt :- ReadCanvasFormat(rd);
    ghost var f := rd.cursor;
    assert CanvasFormatAt(rd.data, p) == Ok(Decoded(fmt, f));
    rd.Skip(4);
    var blob :- ReadFixedI32(rd);
    assert FixedI32(rd.data, f + 4) == Ok(Decoded(blob, rd.cursor));
    rd.Skip(1);
    var offset := rd.GetPosition();
    var magic :- ReadFixed(rd, 2);
    assert Fixed(rd.data, offset, 2).Ok? && Fixed(rd.data, offset, 2).value.value == magic;
    var canvas := CanvasFields(fmt, blob, offset, magic);
    rd.SetPosition(Seek(offset, canvas.size));
    ghost var h := CanvasHeaderAt(rd.data, p);
    assert h.Ok? && h.value.value == canvas;
    assert h.value.next == rd.cursor;
    return Ok(canvas);
  }

  /** parse_sound_property: the sound header at the cursor; the cursor
      ends at offset + size, wrapped as size_t. */
  method ParseSoundProperty(rd: Reader) returns (r: Result<SoundHeader>)
    modifies rd
    ensures r == ValueOf(SoundHeaderAt(rd.data, old(rd.cursor)))
    ensures r.Ok? ==> rd.cursor == SoundHeaderAt(rd.data, old(rd.cursor)).value.next
  {
    ghost var p := rd.cursor;
    rd.Skip(1);
    var size :- rd.ReadCompressedInt();
    var length :- rd.ReadCompressedInt();
    var pos := rd.GetPosition();
    rd.SetPosition(pos + 56);
    var frequency :- ReadFixedI32(rd);
    pos := rd.GetPosition();
    rd.SetPosition(pos + 22);
    var offset := rd.GetPosition();
    rd.SetPosition(Seek(offset, size));
    assert SoundHeaderAt(rd.data, p) == Ok(Decoded(SoundHeader(size, length, frequency, offset), rd.cursor));
    return Ok(SoundHeader(size, length, frequency, offset));
  }

  /** new Property(kind, value) with its path set: a fresh leaf built for
      the entry (name, kind, payload) with no children. */
  method NewLeaf(name: WzString, kind: Kind, payload: Payload, path: WzString) returns (n: Node)
    ensures fresh(n) && n.path == path && Built(n, Entry(name, kind, payload, []), {})
  {
    n := new Node(kind);
    n.payload := payload;
    n.path := path;
  }

  // ---------------------------------------------------------------------
  // One step of the decoding folds
  // ---------------------------------------------------------------------

  /** The entries of a list after acc: one more entry, then the rest. */
  lemma EntriesStep(data: seq<byte>, key: KeyStream, base: nat, d: nat, p: nat, count: int,
                    acc: seq<Option<Entry>>)
    requires count > 0
    ensures var e := DecodeEntry(data, key, base, d, p);
            (e.Err? ==> EntriesAfter(acc, data, key, base, d, p, count) == Err(e.error)) &&
            (e.Ok? ==> EntriesAfter(acc, data, key, base, d, p, count)
                       == EntriesAfter(acc + [e.value.value], data, key, base, d, e.value.next, count - 1))
  {
    var e := DecodeEntry(data, key, base, d, p);
    if e.Ok? {
      var rest := DecodeEntries(data, key, base, d, e.value.next, count - 1);
      if rest.Ok? {
        assert acc + ([e.value.value] + rest.value.value) == (acc + [e.value.value]) + rest.value.value;
      }
    }
  }

  /** The points of a convex shape after acc: one more, then the rest. */
  lemma ConvexStep(data: seq<byte>, key: KeyStream, base: nat, d: nat, name: WzString, p: nat, count: int,
                   acc: seq<Entry>)
    requires count > 0
    ensures var e := DecodeExtended(data, key, base, d, name, p);
            (e.Err? ==> ConvexAfter(acc, data, key, base, d, name, p, count) == Err(e.error)) &&
            (e.Ok? ==> ConvexAfter(acc, data, key, base, d, name, p, count)
                       == ConvexAfter(acc + [e.value.value], data, key, base, d, name, e.value.next, count - 1))
  {
    var e := DecodeExtended(data, key, base, d, name, p);
    if e.Ok? {
      var rest := ConvexItems(data, key, base, d, name, e.value.next, count - 1);
      if rest.Ok? {
        assert acc + ([e.value.value] + rest.value.value) == (acc + [e.value.value]) + rest.value.value;
      }
    }
  }

  lemma PrefixedNil<T>(r: Result<Decoded<seq<T>>>)
    ensures Prefixed([], r) == r
  {
    if r.Ok? {
      assert [] + r.value.value == r.value.value;
    }
  }

  /** Nothing left to decode: acc is the whole result. */
  lemma PrefixedDone<T>(acc: seq<T>, p: nat)
    ensures Prefixed(acc, Ok(Decoded([], p))) == Ok(Decoded(acc, p))
  {
    assert acc + [] == acc;
  }

  lemma PresentSnoc(os: seq<Option<Entry>>, o: Option<Entry>)
    ensures Present(os + [o]) == Present(os) + Listed(o)
  {
    assert (os + [o])[..|os|] == os;
  }

  // ---------------------------------------------------------------------
  // The property tree
  // ---------------------------------------------------------------------

  /** target.appendChild(name, n) for a node n built for the entry e:
      the appends since L0, described by es, stay described, now followed
      by e. */
  method AppendBuilt(target: Node, name: WzString, n: Node, ghost e: Entry, ghost X: set<Node>,
                     ghost L0: seq<(WzString, Node)>, ghost es: seq<Entry>, ghost U: set<Node>)
    requires |L0| <= |target.log| && target.log[..|L0|] == L0
    requires target.Grouped() && ListMirrors(target, target.path, target.log[|L0|..], es, U)
    requires Built(n, e, X) && e.name == name && n.path == target.path + Slash + name
    requires target != n && target !in U && target !in X && n !in U
    modifies target, n
    ensures target.Grouped() && Own(target) == old(Own(target))
    ensures |L0| <= |target.log| && target.log[..|L0|] == L0
    ensures ListMirrors(target, target.path, target.log[|L0|..], es + [e], U + ({n} + X))
  {
    ghost var added := target.log[|L0|..];
    target.AppendChild(name, n);
    AppendedMirrors(target, n, e, X);
    ListMirrorsConcat(target, target.path, added, es, U, [(name, n)], [e], {n} + X);
    assert target.log[|L0|..] == added + [(name, n)];
  }

  /** parse_property_list(target, base): a compressed-int count, then that
      many entries, each producing node appended to target under its name. */
  method ParsePropertyList(rd: Reader, target: Node, base: nat, d: nat) returns (r: Result<()>, ghost U: set<Node>)
    requires target.Grouped()
    modifies rd, target
    decreases d, 6
    ensures target.Grouped() && fresh(U) && Own(target) == old(Own(target))
    ensures |old(target.log)| <= |target.log| && target.log[..|old(target.log)|] == old(target.log)
    ensures var s := DecodeList(rd.data, rd.key, base, d, old(rd.cursor));
            Agrees(r, s) &&
            (r.Ok? ==> rd.cursor == s.value.next &&
                       ListMirrors(target, target.path, target.log[|old(target.log)|..], s.value.value, U))
  {
    U := {};
    var count := rd.ReadCompressedInt();
    if count.Err? {
      r := Err(count.error);
      return;
    }
    r, U := ReadEntries(rd, target, base, d, count.value);
  }

  /** The loop of parse_property_list: n entries, in order. */
  method ReadEntries(rd: Reader, target: Node, base: nat, d: nat, n: int) returns (r: Result<()>, ghost U: set<Node>)
    requires target.Grouped()
    modifies rd, target
    decreases d, 5
    ensures target.Grouped() && fresh(U) && Own(target) == old(Own(target))
    ensures |old(target.log)| <= |target.log| && target.log[..|old(target.log)|] == old(target.log)
    ensures var s := DecodeEntries(rd.data, rd.key, base, d, old(rd.cursor), n);
            Agrees(r, s) &&
            (r.Ok? ==> rd.cursor == s.value.next &&
                       ListMirrors(target, target.path, target.log[|old(target.log)|..], Present(s.value.value), U))
  {
    U := {};
    ghost var L0 := target.log;
    ghost var acc: seq<Option<Entry>> := [];
    ghost var left := n;
    PrefixedNil(DecodeEntries(rd.data, rd.key, base, d, rd.cursor, n));
    ghost var whole := EntriesAfter([], rd.data, rd.key, base, d, rd.cursor, n);
    assert target.log[|L0|..] == [];
    var i := 0;
    while i < n
      invariant left == n - i
      invariant target.Grouped() && fresh(U) && Own(target) == old(Own(target))
      invariant |L0| <= |target.log| && target.log[..|L0|] == L0
      invariant whole == EntriesAfter(acc, rd.data, rd.key, base, d, rd.cursor, left)
      invariant ListMirrors(target, target.path, target.log[|L0|..], Present(acc), U)
      decreases left
    {
      var k;
      ghost var o, N;
      k, o, N := ReadListedEntry(rd, target, base, d, left, acc, L0, U);
      if k.Err? {
        r := Err(k.error);
        return;
      }
      acc := acc + [o];
      U := U + N;
      left := left - 1;
      i := i + 1;
    }
    EntriesNone(rd.data, rd.key, base, d, rd.cursor, left);
    PrefixedDone(acc, rd.cursor);
    r := Ok(());
  }

  /** One turn of parse_property_list's loop: the entry o at the cursor,
      and its node, if any, appended to target after the appends since L0,
      which the entries acc describe. */
  method ReadListedEntry(rd: Reader, target: Node, base: nat, d: nat, ghost left: int,
                         ghost acc: seq<Option<Entry>>, ghost L0: seq<(WzString, Node)>, ghost U: set<Node>)
    returns (r: Result<()>, ghost o: Option<Entry>, ghost N: set<Node>)
    requires left > 0 && target !in U
    requires |L0| <= |target.log| && target.log[..|L0|] == L0
    requires target.Grouped() && ListMirrors(target, target.path, target.log[|L0|..], Present(acc), U)
    modifies rd, target
    decreases d, 4
    ensures var s := EntriesAfter(acc, rd.data, rd.key, base, d, old(rd.cursor), left);
            (r.Err? ==> s == Err(r.error)) &&
            (r.Ok? ==> s == EntriesAfter(acc + [o], rd.data, rd.key, base, d, rd.cursor, left - 1))
    ensures target.Grouped() && Own(target) == old(Own(target)) && fresh(N)
    ensures |L0| <= |target.log| && target.log[..|L0|] == L0
    ensures r.Ok? ==> ListMirrors(target, target.path, target.log[|L0|..], Present(acc + [o]), U + N)
  {
    N := {};
    o := None;
    ghost var c := rd.cursor;
    var e, nm;
    ghost var W;
    e, nm, W := ReadEntry(rd, base, d, target.path);
    EntriesStep(rd.data, rd.key, base, d, c, left, acc);
    if e.Err? {
      r := Err(e.error);
      return;
    }
    o := DecodeEntry(rd.data, rd.key, base, d, c).value.value;
    PresentSnoc(acc, o);
    if e.value.Some? {
      var node := e.value.value;
      AppendBuilt(target, nm, node, o.value, W, L0, Present(acc), U);
      N := {node} + W;
    } else {
      assert Present(acc) + Listed(o) == Present(acc) && U + N == U;
    }
    r := Ok(());
  }

  /** One entry of parse_property_list: the name, the type tag and the
      node the tag's payload makes, with the path parentPath/name. For tag
      9 the cursor is put back at the end the u32 length announces
      whenever the extended property stopped elsewhere. */
  method ReadEntry(rd: Reader, base: nat, d: nat, parentPath: WzString)
    returns (r: Result<Option<Node>>, name: WzString, ghost W: set<Node>)
    modifies rd
    decreases d, 3
    ensures var s := DecodeEntry(rd.data, rd.key, base, d, old(rd.cursor));
            Agrees(r, s) &&
            (r.Ok? ==> rd.cursor == s.value.next && (r.value.Some? <==> s.value.value.Some?) &&
                       (r.value.Some? ==> fresh({r.value.value} + W) && s.value.value.value.name == name &&
                                          r.value.value.path == parentPath + Slash + name &&
                                          Built(r.value.value, s.value.value.value, W)))
  {
    W := {};
    name := [];
    var nm := rd.ReadStringBlock(base);
    if nm.Err? {
      r := Err(nm.error);
      return;
    }
    name := nm.value;
    var tag := ReadFixed(rd, 1);
    if tag.Err? {
      r := Err(tag.error);
      return;
    }
    if tag.value == 9 {
      r, W := ReadWrapped(rd, base, d, name, parentPath + Slash + name);
    } else {
      r := ReadValue(rd, base, name, tag.value, parentPath + Slash + name);
    }
  }

  /** Tag 9: the u32 length, then the extended property; the cursor is put
      back at the end the length announces whenever the property stopped
      elsewhere. */
  method ReadWrapped(rd: Reader, base: nat, d: nat, name: WzString, path: WzString)
    returns (r: Result<Option<Node>>, ghost W: set<Node>)
    modifies rd
    decreases d, 2
    ensures var s := DecodeWrapped(rd.data, rd.key, base, d, name, old(rd.cursor));
            Agrees(r, s) &&
            (r.Ok? ==> rd.cursor == s.value.next && r.value.Some? &&
                       fresh({r.value.value} + W) && r.value.value.path == path &&
                       Built(r.value.value, s.value.value.value, W))
  {
    W := {};
    ghost var q := rd.cursor;
    ghost var f := Fixed(rd.data, q, 4);
    var len := ReadFixed(rd, 4);
    if len.Err? {
      r := Err(len.error);
      return;
    }
    var pos := rd.GetPosition();
    var eob := pos + len.value;
    ghost var e := DecodeExtended(rd.data, rd.key, base, d, name, pos);
    assert f == Ok(Decoded(len.value, pos));
    var x;
    x, W := ReadExtended(rd, base, d, name, path);
    if x.Err? {
      r := Err(x.error);
      return;
    }
    assert DecodeWrapped(rd.data, rd.key, base, d, name, q) == Ok(Decoded(Some(e.value.value), eob));
    var now := rd.GetPosition();
    if now != eob {
      rd.SetPosition(eob);
    }
    r := Ok(Some(x.value));
  }

  /** The cases of parse_property_list's switch other than 9: one leaf
      per tag, none for a float with an unknown sub-tag, and an error for
      an unknown tag. */
  method ReadValue(rd: Reader, base: nat, nm: WzString, tag: nat, path: WzString) returns (r: Result<Option<Node>>)
    modifies rd
    ensures var s := DecodeValue(rd.data, rd.key, base, nm, tag, old(rd.cursor));
            Agrees(r, s) &&
            (r.Ok? ==> rd.cursor == s.value.next && (r.value.Some? <==> s.value.value.Some?) &&
                       (r.value.Some? ==> fresh(r.value.value) && r.value.value.path == path &&
                                          Built(r.value.value, s.value.value.value, {})))
  {
    if tag == 0 {
      var n := NewLeaf(nm, Null, NoValue, path);
      return Ok(Some(n));
    } else if tag == 2 || tag == 0x0B {
      var v :- ReadFixed(rd, 2);
      var n := NewLeaf(nm, UnsignedShort, UShortValue(v), path);
      return Ok(Some(n));
    } else if tag == 3 {
      var v :- rd.ReadCompressedInt();
      var n := NewLeaf(nm, Int, IntValue(v), path);
      return Ok(Some(n));
    } else if tag == 4 {
      var sub :- ReadFixed(rd, 1);
      if sub == 0x80 {
        var v :- ReadFixed(rd, 4);
        var n := NewLeaf(nm, Float, FloatBits(v), path);
        return Ok(Some(n));
      } else if sub == 0 {
        var n := NewLeaf(nm, Float, FloatBits(0), path);
        return Ok(Some(n));
      }
      return Ok(None);
    } else if tag == 5 {
      var v :- ReadFixed(rd, 8);
      var n := NewLeaf(nm, Double, DoubleBits(v), path);
      return Ok(Some(n));
    } else if tag == 8 {
      var v :- rd.ReadStringBlock(base);
      var n := NewLeaf(nm, String, StringValue(v), path);
      return Ok(Some(n));
    }
    return Err(MalformedData);
  }

  /** parse_extended_prop(name, ..): the class name, then one node of that
      class, named name and with the given path. */
  method ReadExtended(rd: Reader, base: nat, d: nat, name: WzString, path: WzString)
    returns (r: Result<Node>, ghost W: set<Node>)
    modifies rd
    decreases d, 1
    ensures var s := DecodeExtended(rd.data, rd.key, base, d, name, old(rd.cursor));
            Agrees(r, s) &&
            (r.Ok? ==> rd.cursor == s.value.next && fresh({r.value} + W) && r.value.path == path &&
                       Built(r.value, s.value.value, W))
  {
    W := {};
    if d == 0 {
      r := Err(TooDeep);
      return;
    }
    var cls := rd.ReadStringBlock(base);
    if cls.Err? {
      r := Err(cls.error);
      return;
    }
    r, W := ReadLayout(rd, base, d - 1, name, path, LayoutOf(cls.value));
  }

  /** The branches of parse_extended_prop: the node of the given layout,
      read at the cursor. */
  method ReadLayout(rd: Reader, base: nat, d: nat, name: WzString, path: WzString, layout: Layout)
    returns (r: Result<Node>, ghost W: set<Node>)
    modifies rd
    decreases d, 9
    ensures var s := DecodeLayout(layout, rd.data, rd.key, base, d, name, old(rd.cursor));
            Agrees(r, s) &&
            (r.Ok? ==> rd.cursor == s.value.next && fresh({r.value} + W) && r.value.path == path &&
                       Built(r.value, s.value.value, W))
  {
    W := {};
    match layout
    case SubPropertyLayout =>
      r, W := ReadSubProperty(rd, base, d, name, path);
    case CanvasLayout =>
      r, W := ReadCanvas(rd, base, d, name, path);
    case VectorLayout =>
      r := ReadVector(rd, name, path);
    case ConvexLayout =>
      r, W := ReadConvex(rd, base, d, name, path);
    case SoundLayout =>
      r := ReadSound(rd, name, path);
    case UolLayout =>
      r := ReadUol(rd, base, name, path);
    case UnknownLayout =>
      r := Err(MalformedData);
  }

  /** "Shape2D#Vector2D": two compressed ints, x then y. */
  method ReadVector(rd: Reader, name: WzString, path: WzString) returns (r: Result<Node>)
    modifies rd
    ensures var s := DecodeVector(rd.data, name, old(rd.cursor));
            Agrees(r, s) &&
            (r.Ok? ==> rd.cursor == s.value.next && fresh(r.value) && r.value.path == path &&
                       Built(r.value, s.value.value, {}))
  {
    var x :- rd.ReadCompressedInt();
    var y :- rd.ReadCompressedInt();
    var n := NewLeaf(name, Vector2D, VectorValue(x, y), path);
    return Ok(n);
  }

  /** "Sound_DX8": the sound header. */
  method ReadSound(rd: Reader, name: WzString, path: WzString) returns (r: Result<Node>)
    modifies rd
    ensures var s := DecodeSound(rd.data, name, old(rd.cursor));
            Agrees(r, s) &&
            (r.Ok? ==> rd.cursor == s.value.next && fresh(r.value) && r.value.path == path &&
                       Built(r.value, s.value.value, {}))
  {
    var sound :- ParseSoundProperty(rd);
    var n := NewLeaf(name, Sound, SoundValue(sound), path);
    return Ok(n);
  }

  /** "UOL": one skipped byte, then the link as a string block. */
  method ReadUol(rd: Reader, base: nat, name: WzString, path: WzString) returns (r: Result<Node>)
    modifies rd
    ensures var s := DecodeUol(rd.data, rd.key, base, name, old(rd.cursor));
            Agrees(r, s) &&
            (r.Ok? ==> rd.cursor == s.value.next && fresh(r.value) && r.value.path == path &&
                       Built(r.value, s.value.value, {}))
  {
    rd.Skip(1);
    var uol :- rd.ReadStringBlock(base);
    var n := NewLeaf(name, UOL, UolValue(uol), path);
    return Ok(n);
  }

  /** "Property": a SubProperty node whose children are the nested list. */
  method ReadSubProperty(rd: Reader, base: nat, d: nat, name: WzString, path: WzString)
    returns (r: Result<Node>, ghost W: set<Node>)
    modifies rd
    decreases d, 7
    ensures var s := DecodeSubProperty(rd.data, rd.key, base, d, name, old(rd.cursor));
            Agrees(r, s) &&
            (r.Ok? ==> rd.cursor == s.value.next && fresh({r.value} + W) && r.value.path == path &&
                       Built(r.value, s.value.value, W))
  {
    var prop := new Node(SubProperty);
    prop.path := path;
    rd.Skip(2);
    var k;
    k, W := ParsePropertyList(rd, prop, base, d);
    if k.Err? {
      r := Err(k.error);
      return;
    }
    assert prop.log[0..] == prop.log;
    r := Ok(prop);
  }

  /** "Canvas": a Canvas node, with the nested list as its children when
      the flag byte is 1, holding the canvas header that follows. */
  method ReadCanvas(rd: Reader, base: nat, d: nat, name: WzString, path: WzString)
    returns (r: Result<Node>, ghost W: set<Node>)
    modifies rd
    decreases d, 8
    ensures var s := DecodeCanvas(rd.data, rd.key, base, d, name, old(rd.cursor));
            Agrees(r, s) &&
            (r.Ok? ==> rd.cursor == s.value.next && fresh({r.value} + W) && r.value.path == path &&
                       Built(r.value, s.value.value, W))
  {
    CanvasParts(rd.data, rd.key, base, d, name, rd.cursor);
    ghost var kids := CanvasChildren(rd.data, rd.key, base, d, rd.cursor);
    var prop := new Node(Canvas);
    prop.path := path;
    var k;
    k, W := ReadCanvasChildren(rd, prop, base, d);
    if k.Err? {
      r := Err(k.error);
      return;
    }
    ghost var h := CanvasHeaderAt(rd.data, rd.cursor);
    var c := ParseCanvasProperty(rd);
    if c.Err? {
      r := Err(c.error);
      return;
    }
    ghost var entry := Entry(name, Canvas, CanvasValue(c.value), kids.value.value);
    assert DecodeCanvas(rd.data, rd.key, base, d, name, old(rd.cursor)) == Ok(Decoded(entry, h.value.next));
    prop.payload := CanvasValue(c.value);
    r := Ok(prop);
  }

  /** The Canvas case up to its header: the flag byte and, when it is 1,
      the nested list appended to prop. */
  method ReadCanvasChildren(rd: Reader, prop: Node, base: nat, d: nat) returns (r: Result<()>, ghost W: set<Node>)
    requires prop.Grouped() && prop.log == []
    modifies rd, prop
    decreases d, 7
    ensures prop.Grouped() && fresh(W) && Own(prop) == old(Own(prop))
    ensures var s := CanvasChildren(rd.data, rd.key, base, d, old(rd.cursor));
            Agrees(r, s) &&
            (r.Ok? ==> rd.cursor == s.value.next && ListMirrors(prop, prop.path, prop.log, s.value.value, W))
  {
    W := {};
    rd.Skip(1);
    var flag := ReadFixed(rd, 1);
    if flag.Err? {
      r := Err(flag.error);
      return;
    }
    if flag.value == 1 {
      rd.Skip(2);
      r, W := ParsePropertyList(rd, prop, base, d);
      assert prop.log[0..] == prop.log;
    } else {
      r := Ok(());
    }
  }

  /** "Shape2D#Convex2D": a Convex2D node and, as its children, the count
      extended properties that follow, each appended under the convex
      node's own name. */
  method ReadConvex(rd: Reader, base: nat, d: nat, name: WzString, path: WzString)
    returns (r: Result<Node>, ghost W: set<Node>)
    modifies rd
    decreases d, 4
    ensures var s := DecodeConvex(rd.data, rd.key, base, d, name, old(rd.cursor));
            Agrees(r, s) &&
            (r.Ok? ==> rd.cursor == s.value.next && fresh({r.value} + W) && r.value.path == path &&
                       Built(r.value, s.value.value, W))
  {
    ConvexParts(rd.data, rd.key, base, d, name, rd.cursor);
    W := {};
    var count := rd.ReadCompressedInt();
    if count.Err? {
      r := Err(count.error);
      return;
    }
    var prop := new Node(Convex2D);
    prop.path := path;
    var k;
    k, W := ReadConvexItems(rd, prop, base, d, name, count.value);
    if k.Err? {
      r := Err(k.error);
      return;
    }
    assert prop.log[0..] == prop.log;
    r := Ok(prop);
  }

  /** The loop of the Convex2D case: n extended properties, each appended
      to prop under name. */
  method ReadConvexItems(rd: Reader, prop: Node, base: nat, d: nat, name: WzString, n: int)
    returns (r: Result<()>, ghost W: set<Node>)
    requires prop.Grouped()
    modifies rd, prop
    decreases d, 3
    ensures fresh(W) && prop.Grouped() && Own(prop) == old(Own(prop))
    ensures |old(prop.log)| <= |prop.log| && prop.log[..|old(prop.log)|] == old(prop.log)
    ensures var s := ConvexItems(rd.data, rd.key, base, d, name, old(rd.cursor), n);
            Agrees(r, s) &&
            (r.Ok? ==> rd.cursor == s.value.next &&
                       ListMirrors(prop, prop.path, prop.log[|old(prop.log)|..], s.value.value, W))
  {
    W := {};
    ghost var L0 := prop.log;
    ghost var acc: seq<Entry> := [];
    ghost var left := n;
    PrefixedNil(ConvexItems(rd.data, rd.key, base, d, name, rd.cursor, n));
    ghost var whole := ConvexAfter([], rd.data, rd.key, base, d, name, rd.cursor, n);
    assert prop.log[|L0|..] == [];
    var i := 0;
    while i < n
      invariant left == n - i
      invariant fresh(W) && Own(prop) == old(Own(prop))
      invariant ConvexSoFar(prop, L0, acc, W, whole, rd.data, rd.key, base, d, name, rd.cursor, left)
      decreases left
    {
      var k;
      ghost var e, N;
      k, e, N := ReadConvexItem(rd, prop, base, d, name, left, acc, L0, W, whole);
      if k.Err? {
        r := Err(k.error);
        return;
      }
      acc := acc + [e];
      W := W + N;
      left := left - 1;
      i := i + 1;
    }
    ConvexNone(rd.data, rd.key, base, d, name, rd.cursor, left);
    PrefixedDone(acc, rd.cursor);
    r := Ok(());
  }

  /** The state of the Convex2D loop: the appends since L0 are the points
      acc, and whole is acc followed by the left points still to read at p. */
  ghost predicate ConvexSoFar(prop: Node, L0: seq<(WzString, Node)>, acc: seq<Entry>, U: set<Node>,
                              whole: Result<Decoded<seq<Entry>>>, data: seq<byte>, key: KeyStream,
                              base: nat, d: nat, name: WzString, p: nat, left: int)
    reads prop, U
  {
    prop.Grouped() && |L0| <= |prop.log| && prop.log[..|L0|] == L0 &&
    ListMirrors(prop, prop.path, prop.log[|L0|..], acc, U) &&
    whole == ConvexAfter(acc, data, key, base, d, name, p, left)
  }

  /** One turn of the Convex2D loop: the extended property e at the
      cursor, its node appended to prop under name. */
  method ReadConvexItem(rd: Reader, prop: Node, base: nat, d: nat, name: WzString, ghost left: int,
                        ghost acc: seq<Entry>, ghost L0: seq<(WzString, Node)>, ghost U: set<Node>,
                        ghost whole: Result<Decoded<seq<Entry>>>)
    returns (r: Result<()>, ghost e: Entry, ghost N: set<Node>)
    requires left > 0 && prop !in U
    requires ConvexSoFar(prop, L0, acc, U, whole, rd.data, rd.key, base, d, name, rd.cursor, left)
    modifies rd, prop
    decreases d, 2
    ensures Own(prop) == old(Own(prop)) && fresh(N)
    ensures prop.Grouped() && |L0| <= |prop.log| && prop.log[..|L0|] == L0
    ensures r.Err? ==> whole == Err(r.error)
    ensures r.Ok? ==> ConvexSoFar(prop, L0, acc + [e], U + N, whole, rd.data, rd.key, base, d, name, rd.cursor, left - 1)
  {
    N := {};
    e := Entry(name, NotSet, NoValue, []);
    ghost var c := rd.cursor;
    var x;
    ghost var X;
    x, X := ReadExtended(rd, base, d, name, prop.path + Slash + name);
    ConvexStep(rd.data, rd.key, base, d, name, c, left, acc);
    if x.Err? {
      r := Err(x.error);
      return;
    }
    e := DecodeExtended(rd.data, rd.key, base, d, name, c).value.value;
    AppendBuilt(prop, name, x.value, e, X, L0, acc, U);
    N := {x.value} + X;
    r := Ok(());
  }
}
