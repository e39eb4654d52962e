/** The property tree (class wz::Node in src/Node.cpp): node kinds, payloads,
    the name-to-children map and how appending a child changes it. */
module WzNode {
  import opened WzBase

  /** wz::Type: what a node holds. */
  datatype Kind =
    | NotSet | Null | Int | UnsignedShort | Float | Double | String
    | SubProperty | Canvas | Vector2D | Convex2D | Sound | UOL
    | Property | Directory | Image

  /** The decoded header of a Canvas property (WzCanvas). The pixel payload
      itself stays in the archive at [offset, offset + size). */
  datatype CanvasHeader = CanvasHeader(
    width: int, height: int, format: int, format2: nat,
    size: int, offset: nat, isEncrypted: bool,
    uncompressedSize: Option<int>)

  /** The decoded header of a Sound_DX8 property (WzSound). */
  datatype SoundHeader = SoundHeader(size: int, length: int, frequency: int, offset: nat)

  /** The value a node carries. Floating-point values are kept as their raw
      little-endian bit patterns. */
  datatype Payload =
    | NoValue
    | UShortValue(u16: nat)
    | IntValue(i32: int)
    | FloatBits(f32: nat)
    | DoubleBits(f64: nat)
    | StringValue(str: WzString)
    | CanvasValue(canvas: CanvasHeader)
    | SoundValue(sound: SoundHeader)
    | VectorValue(x: int, y: int)
    | UolValue(uol: WzString)

  /** A decoded property as a value: what the parser appends to a node,
      with the properties nested under it in append order. */
  datatype Entry = Entry(name: WzString, kind: Kind, payload: Payload, children: seq<Entry>)

  /** The separator between path components. */
  const Slash: WzString := [0x2F]

  type Children = map<WzString, seq<Node>>

  /** children[name].push_back(n). */
  function Append(m: Children, name: WzString, n: Node): Children
  {
    m[name := (if name in m then m[name] else []) + [n]]
  }

  /** n goes after any same-named siblings, a new name gets [n], and every
      other name keeps its sequence. */
  lemma AppendSpec(m: Children, name: WzString, n: Node)
    ensures Append(m, name, n).Keys == m.Keys + {name}
    ensures name in m ==> Append(m, name, n)[name] == m[name] + [n]
    ensures name !in m ==> Append(m, name, n)[name] == [n]
    ensures forall other :: other in m && other != name ==> Append(m, name, n)[other] == m[other]
  {
  }

  /** The first child of that name, or null when the name is absent. */
  function FirstChild(m: Children, name: WzString): (r: Node?)
    ensures r == null <==> name !in m || |m[name]| == 0
    ensures r != null ==> r == m[name][0]
  {
    if name in m && |m[name]| > 0 then m[name][0] else null
  }

  /** Appending a further sibling never changes which node a name looks up,
      and the first append under a name makes that node the one found. */
  lemma AppendKeepsFirstChild(m: Children, name: WzString, n: Node, other: WzString)
    requires forall k :: k in m ==> |m[k]| > 0
    ensures FirstChild(Append(m, name, n), other)
            == if other == name && name !in m then n else FirstChild(m, other)
  {
  }

  /** The children map that a sequence of appendChild calls builds. */
  function Group(log: seq<(WzString, Node)>): (m: Children)
    decreases |log|
  {
    if log == [] then map[]
    else Append(Group(log[..|log| - 1]), log[|log| - 1].0, log[|log| - 1].1)
  }

  /** The nodes appended under one name, in append order. */
  function Named(log: seq<(WzString, Node)>, name: WzString): (s: seq<Node>)
    ensures |s| <= |log|
    decreases |log|
  {
    if log == [] then []
    else Named(log[..|log| - 1], name) + (if log[|log| - 1].0 == name then [log[|log| - 1].1] else [])
  }

  /** Every name of the map was appended at least once, and its sequence
      lists exactly the nodes appended under it, oldest first. */
  lemma {:induction false} GroupIsNamed(log: seq<(WzString, Node)>, name: WzString)
    decreases |log|
    ensures name in Group(log) <==> |Named(log, name)| > 0
    ensures name in Group(log) ==> Group(log)[name] == Named(log, name)
  {
    if log != [] {
      GroupIsNamed(log[..|log| - 1], name);
    }
  }

  /** Every sequence in a grouped map is non-empty. */
  lemma {:induction false} GroupNonEmpty(log: seq<(WzString, Node)>)
    decreases |log|
    ensures forall k :: k in Group(log) ==> |Group(log)[k]| > 0
  {
    if log != [] {
      GroupNonEmpty(log[..|log| - 1]);
    }
  }

  /** A node of the tree. kind never changes after construction; the
      ghost log records the appendChild calls made on this node. */
  class Node {
    const kind: Kind
    var payload: Payload
    var path: WzString
    var parent: Node?
    var children: Children
    ghost var log: seq<(WzString, Node)>
    /** What get_uol resolves a UOL node to (null when it resolves to nothing). */
    var link: Node?
    /** Where an Image node's data starts in the archive. */
    var imageOffset: nat

    /** A node with no parent, no children, an empty path and no value. */
    constructor (kind: Kind)
      ensures this.kind == kind && payload == NoValue && path == [] && parent == null
      ensures children == map[] && log == [] && link == null && imageOffset == 0
    {
      this.kind := kind;
      payload := NoValue;
      path := [];
      parent := null;
      children := map[];
      log := [];
      link := null;
      imageOffset := 0;
    }

    /** The children map is the grouping of the append history. */
    ghost predicate Grouped()
      reads this
    {
      children == Group(log)
    }

    /** appendChild: n goes last among the children named name, becomes a
        child of this node and takes the path this.path/name. */
    method AppendChild(name: WzString, n: Node)
      modifies this, n
      ensures children == Append(old(children), name, n)
      ensures log == old(log) + [(name, n)]
      ensures old(Grouped()) ==> Grouped()
      ensures n.parent == this && n.path == old(path) + Slash + name
      ensures n != this ==> path == old(path) && parent == old(parent)
      ensures payload == old(payload) && link == old(link) && imageOffset == old(imageOffset)
      ensures n.payload == old(n.payload) && n.link == old(n.link) && n.imageOffset == old(n.imageOffset)
      ensures n != this ==> n.children == old(n.children) && n.log == old(n.log)
    {
      ghost var before := log;
      children := Append(children, name, n);
      log := log + [(name, n)];
      assert log[..|log| - 1] == before;
      n.parent := this;
      n.path := path + Slash + name;
    }

    /** get_child: the first child appended under name, or null. */
    function GetChild(name: WzString): (r: Node?)
      reads this
      ensures Grouped() ==> (r == null <==> |Named(log, name)| == 0)
      ensures Grouped() && r != null ==> r == Named(log, name)[0]
    {
      GroupIsNamed(log, name);
      FirstChild(children, name)
    }
  }

  /** The node n and everything below it, all inside U, hold exactly what
      the entry e describes: kind, payload, and per child the name it was
      appended under, its parent and its path. */
  ghost predicate Mirrors(n: Node, e: Entry, U: set<Node>)
    reads U
    decreases e, 1
  {
    n in U && n.kind == e.kind && n.payload == e.payload && n.Grouped() &&
    ListMirrors(n, n.path, n.log, e.children, U)
  }

  /** The append history log of owner, whose path is ownerPath, holds the
      entries es in order. */
  ghost predicate ListMirrors(owner: Node, ownerPath: WzString, log: seq<(WzString, Node)>,
                              es: seq<Entry>, U: set<Node>)
    reads U
    decreases es, 0
  {
    |log| == |es| &&
    forall i :: 0 <= i < |log| ==>
      log[i].0 == es[i].name && log[i].1 in U &&
      log[i].1.parent == owner && log[i].1.path == ownerPath + Slash + es[i].name &&
      Mirrors(log[i].1, es[i], U)
  }

  /** Adding nodes to the set a description is checked against keeps it true. */
  lemma {:induction false} MirrorsGrow(n: Node, e: Entry, U: set<Node>, V: set<Node>)
    requires U <= V && Mirrors(n, e, U)
    decreases e, 1
    ensures Mirrors(n, e, V)
  {
    ListMirrorsGrow(n, n.path, n.log, e.children, U, V);
  }

  lemma {:induction false} ListMirrorsGrow(owner: Node, ownerPath: WzString, log: seq<(WzString, Node)>,
                                           es: seq<Entry>, U: set<Node>, V: set<Node>)
    requires U <= V && ListMirrors(owner, ownerPath, log, es, U)
    decreases es, 0
    ensures ListMirrors(owner, ownerPath, log, es, V)
  {
    forall i | 0 <= i < |log|
      ensures Mirrors(log[i].1, es[i], V)
    {
      MirrorsGrow(log[i].1, es[i], U, V);
    }
  }

  /** Two stretches of appends, each described by its entries, together
      are described by both lists of entries. */
  lemma ListMirrorsConcat(owner: Node, ownerPath: WzString,
                          log1: seq<(WzString, Node)>, es1: seq<Entry>, U: set<Node>,
                          log2: seq<(WzString, Node)>, es2: seq<Entry>, V: set<Node>)
    requires ListMirrors(owner, ownerPath, log1, es1, U)
    requires ListMirrors(owner, ownerPath, log2, es2, V)
    ensures ListMirrors(owner, ownerPath, log1 + log2, es1 + es2, U + V)
  {
    ListMirrorsGrow(owner, ownerPath, log1, es1, U, U + V);
    ListMirrorsGrow(owner, ownerPath, log2, es2, V, U + V);
    var log := log1 + log2;
    var es := es1 + es2;
    forall i | 0 <= i < |log|
      ensures log[i].0 == es[i].name && log[i].1 in U + V &&
              log[i].1.parent == owner && log[i].1.path == ownerPath + Slash + es[i].name &&
              Mirrors(log[i].1, es[i], U + V)
    {
      if i < |log1| {
        assert log[i] == log1[i] && es[i] == es1[i];
      } else {
        assert log[i] == log2[i - |log1|] && es[i] == es2[i - |log1|];
      }
    }
  }

  /** A node built for the entry e: its kind and payload are e's, its
      children map groups its appends, and those appends, all nodes of W
      (which does not contain n), are described by e's children. */
  ghost predicate Built(n: Node, e: Entry, W: set<Node>)
    reads {n} + W
  {
    n !in W && n.kind == e.kind && n.payload == e.payload && n.Grouped() &&
    ListMirrors(n, n.path, n.log, e.children, W)
  }

  /** Appending a built node under its entry's name to owner makes that one
      append described by that one entry. */
  lemma AppendedMirrors(owner: Node, n: Node, e: Entry, W: set<Node>)
    requires Built(n, e, W) && n.parent == owner && n.path == owner.path + Slash + e.name
    ensures ListMirrors(owner, owner.path, [(e.name, n)], [e], {n} + W)
  {
    ListMirrorsGrow(n, n.path, n.log, e.children, W, {n} + W);
  }
}
