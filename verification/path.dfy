/** Path resolution over the property tree (find_from_path and operator[]
    in src/Node.cpp): the path is split on '/', each component moves to
    the parent ("..") or to the first child of that name, a UOL child is
    replaced by its target once, and an Image node is replaced by its
    parsed contents through a cache keyed by path. */
module PathResolver {
  import opened WzBase
  import opened Codec
  import opened WzReader
  import opened WzNode
  import opened PropSpec
  import opened PropertyParser

  /** The path separator '/'. */
  const Delimiter: bv16 := 0x2F

  /** The component that moves to the parent. */
  const DotDot: WzString := [0x2E, 0x2E]

  // ---------------------------------------------------------------------
  // Splitting
  // ---------------------------------------------------------------------

  /** path.find(u"/", from): the first separator at or after from, or None
      for npos. */
  function Find(path: WzString, from: nat): (r: Option<nat>)
    ensures r.Some? ==> from <= r.value < |path| && path[r.value] == Delimiter
    ensures r.Some? ==> forall k :: from <= k < r.value ==> path[k] != Delimiter
    ensures r.None? ==> forall k :: from <= k < |path| ==> path[k] != Delimiter
    decreases |path| - from
  {
    if from >= |path| then None
    else if path[from] == Delimiter then Some(from)
    else Find(path, from + 1)
  }

  /** The components of a path: the text before the first separator, then
      the components of the rest; a path without separator is one
      component. Empty components are kept. */
  function Split(path: WzString): (parts: seq<WzString>)
    ensures |parts| >= 1
    decreases |path|
  {
    match Find(path, 0)
    case None => [path]
    case Some(i) => [path[..i]] + Split(path[i + 1..])
  }

  /** The number of separators in a path. */
  function Separators(path: WzString): nat
  {
    if path == [] then 0
    else (if path[0] == Delimiter then 1 else 0) + Separators(path[1..])
  }

  /** The components joined back with '/' between them. */
  function Join(parts: seq<WzString>): WzString
    requires |parts| >= 1
  {
    if |parts| == 1 then parts[0] else parts[0] + Slash + Join(parts[1..])
  }

  /** A component holds no separator. */
  predicate NoSeparator(s: WzString)
  {
    forall k :: 0 <= k < |s| ==> s[k] != Delimiter
  }

  /** Looking from 0 in a suffix finds what looking from its start finds
      in the whole path, shifted. */
  lemma {:induction false} FindShift(path: WzString, from: nat)
    requires from <= |path|
    decreases |path| - from
    ensures Find(path, from).None? <==> Find(path[from..], 0).None?
    ensures Find(path, from).Some? ==> Find(path[from..], 0) == Some(Find(path, from).value - from)
  {
    var f := Find(path, from);
    var g := Find(path[from..], 0);
    if f.Some? {
      assert path[from..][f.value - from] == Delimiter;
      assert g.Some? && g.value <= f.value - from;
      assert path[g.value + from] == path[from..][g.value];
    }
  }

  /** A path with no separator splits into itself. */
  lemma SplitWhole(path: WzString)
    requires NoSeparator(path)
    ensures Split(path) == [path]
  {
  }

  /** Splitting yields one component more than there are separators. */
  lemma {:induction false} SplitCount(path: WzString)
    decreases |path|
    ensures |Split(path)| == Separators(path) + 1
  {
    match Find(path, 0)
    case None =>
      SeparatorsNone(path);
    case Some(i) =>
      SplitCount(path[i + 1..]);
      SeparatorsAt(path, i);
  }

  /** Without separators there is nothing to count. */
  lemma {:induction false} SeparatorsNone(path: WzString)
    requires NoSeparator(path)
    ensures Separators(path) == 0
  {
    if path != [] {
      assert path[1..][0..] == path[1..];
      assert NoSeparator(path[1..]) by {
        forall k | 0 <= k < |path[1..]| ensures path[1..][k] != Delimiter {
          assert path[1..][k] == path[k + 1];
        }
      }
      SeparatorsNone(path[1..]);
    }
  }

  /** Counting separators across the first one at i. */
  lemma {:induction false} SeparatorsAt(path: WzString, i: nat)
    requires i < |path| && path[i] == Delimiter && NoSeparator(path[..i])
    ensures Separators(path) == 1 + Separators(path[i + 1..])
  {
    if i == 0 {
      assert path[1..] == path[i + 1..];
    } else {
      var t := path[1..][..i - 1];
      assert NoSeparator(t) by {
        forall k | 0 <= k < |t| ensures t[k] != Delimiter {
          assert t[k] == path[..i][k + 1];
        }
      }
      assert path[0] == path[..i][0];
      SeparatorsAt(path[1..], i - 1);
      assert path[1..][i - 1 + 1..] == path[i + 1..];
    }
  }

  /** Joining the components of a path with '/' gives the path back. */
  lemma {:induction false} SplitJoin(path: WzString)
    decreases |path|
    ensures Join(Split(path)) == path
  {
    match Find(path, 0)
    case None =>
    case Some(i) =>
      SplitJoin(path[i + 1..]);
      var parts := Split(path);
      assert parts[1..] == Split(path[i + 1..]);
      assert Slash == [path[i]];
      assert path == path[..i] + [path[i]] + path[i + 1..];
  }

  /** No component holds a separator. */
  lemma {:induction false} SplitNoSeparator(path: WzString)
    decreases |path|
    ensures forall j :: 0 <= j < |Split(path)| ==> NoSeparator(Split(path)[j])
  {
    match Find(path, 0)
    case None =>
    case Some(i) =>
      SplitNoSeparator(path[i + 1..]);
      var parts := Split(path);
      forall j | 0 <= j < |parts| ensures NoSeparator(parts[j]) {
        if j == 0 {
          assert forall k :: 0 <= k < i ==> path[..i][k] == path[k];
        } else {
          assert parts[j] == Split(path[i + 1..])[j - 1];
        }
      }
  }

  /** Splitting a join of separator-free components gives them back. */
  lemma {:induction false} JoinSplit(parts: seq<WzString>)
    requires |parts| >= 1 && forall j :: 0 <= j < |parts| ==> NoSeparator(parts[j])
    decreases |parts|
    ensures Split(Join(parts)) == parts
  {
    if |parts| == 1 {
      SplitWhole(parts[0]);
    } else {
      var head := parts[0];
      var rest := Join(parts[1..]);
      var path := head + Slash + rest;
      assert path[|head|] == Delimiter;
      assert forall k :: 0 <= k < |head| ==> path[k] == head[k];
      assert Find(path, 0) == Some(|head|) by {
        var f := Find(path, 0);
        assert f.Some? && f.value <= |head|;
      }
      assert path[..|head|] == head;
      assert path[|head| + 1..] == rest;
      JoinSplit(parts[1..]);
    }
  }

  /** The components from start on, when a separator is found at or after
      start: the text up to it, then the components after it. */
  lemma SplitFrom(path: WzString, start: nat)
    requires start <= |path|
    ensures Find(path, start).Some? ==>
              var e := Find(path, start).value;
              Split(path[start..]) == [path[start..e]] + Split(path[e + 1..])
    ensures Find(path, start).None? ==> Split(path[start..]) == [path[start..]]
  {
    FindShift(path, start);
    var s := path[start..];
    if Find(path, start).Some? {
      var e := Find(path, start).value;
      assert s[..e - start] == path[start..e];
      assert s[e - start + 1..] == path[e + 1..];
    }
  }

  /** The invariant of the splitting loop: the components cut so far, then
      the components of the rest, are the components of the path. */
  predicate SplitSoFar(path: WzString, start: nat, parts: seq<WzString>)
    requires start <= |path|
  {
    parts + Split(path[start..]) == Split(path)
  }

  /** One cut of the splitting loop keeps SplitSoFar. */
  lemma SplitAdvance(path: WzString, start: nat, e: nat, parts: seq<WzString>)
    requires start <= |path| && Find(path, start) == Some(e)
    requires SplitSoFar(path, start, parts)
    ensures e + 1 <= |path| && SplitSoFar(path, e + 1, parts + [path[start..e]])
  {
    SplitFrom(path, start);
    assert Split(path[start..]) == [path[start..e]] + Split(path[e + 1..]);
    assert parts + ([path[start..e]] + Split(path[e + 1..])) == (parts + [path[start..e]]) + Split(path[e + 1..]);
  }

  /** Once no separator is left, the rest of the path is the last component. */
  lemma SplitLast(path: WzString, start: nat, parts: seq<WzString>)
    requires start <= |path| && Find(path, start).None?
    requires SplitSoFar(path, start, parts)
    ensures parts + [path[start..]] == Split(path)
  {
    SplitFrom(path, start);
  }

  /** The splitting loop of find_from_path: components are cut at every
      separator found from the current start, and the text after the last
      separator is the final component. */
  method SplitPath(path: WzString) returns (parts: seq<WzString>)
    ensures parts == Split(path)
  {
    parts := [];
    var start := 0;
    var end := Find(path, 0);
    assert path[0..] == path;
    while end.Some?
      invariant start <= |path| && end == Find(path, start)
      invariant SplitSoFar(path, start, parts)
      decreases |path| - start
    {
      var e := end.value;
      SplitAdvance(path, start, e, parts);
      parts := parts + [path[start..e]];
      start := e + 1;
      end := Find(path, start);
    }
    SplitLast(path, start, parts);
    parts := parts + [path[start..]];
  }

  // ---------------------------------------------------------------------
  // One component
  // ---------------------------------------------------------------------

  /** The nodes one component reads: the node, its first child of that
      name and that child's link target. */
  function Frame(node: Node, part: WzString): set<object>
    reads node, node.GetChild(part)
  {
    var c := node.GetChild(part);
    {node} + (if c == null then {} else {c} + (if c.link == null then {} else {c.link}))
  }

  /** Where one component leads before the Image cache: ".." goes to the
      parent, any other name to the first child of that name, replaced by
      its target when it is a UOL node (one hop: the target is not
      resolved further). */
  function Lookup(node: Node, part: WzString): (r: Result<Node>)
    reads Frame(node, part)
    ensures part == DotDot ==> (r.Ok? <==> node.parent != null) && (r.Ok? ==> r.value == node.parent)
    ensures part == DotDot && r.Err? ==> r.error == InvalidPath
    ensures part != DotDot && node.Grouped() ==>
              (r == Err(NodeNotFound) <==> |Named(node.log, part)| == 0)
    ensures part != DotDot && node.Grouped() && |Named(node.log, part)| > 0 ==>
              var c := Named(node.log, part)[0];
              (c.kind != UOL ==> r == Ok(c)) &&
              (c.kind == UOL ==> r == (if c.link == null then Err(DanglingLink) else Ok(c.link)))
  {
    if part == DotDot then
      if node.parent == null then Err(InvalidPath) else Ok(node.parent)
    else
      var c := node.GetChild(part);
      if c == null then Err(NodeNotFound)
      else if c.kind != UOL then Ok(c)
      else if c.link == null then Err(DanglingLink)
      else Ok(c.link)
  }

  /** Whether the Image cache applies after this component: a name (not
      "..") that led to an Image node. */
  predicate OpensImage(node: Node, part: WzString)
    reads Frame(node, part)
  {
    part != DotDot && Lookup(node, part).Ok? && Lookup(node, part).value.kind == Image
  }

  /** The function-static img_map of find_from_path: nodes by path. */
  class ImageCache {
    var entries: map<WzString, Node>

    /** The cache starts empty. */
    constructor ()
      ensures entries == map[]
    {
      entries := map[];
    }

    /** Every node is stored under its own path, as img_map[node->path] =
        node inserts it. */
    ghost predicate Keyed()
      reads this, entries.Values
    {
      forall k :: k in entries ==> entries[k].path == k
    }
  }

  /** What Directory::parse_image reads at offset: the "Property" probe,
      then a property list whose string blocks are relative to offset. */
  function ImageAt(data: seq<byte>, key: KeyStream, offset: nat, d: nat): (r: Result<Decoded<seq<Entry>>>)
    ensures WzImageProbe(data, key, offset).Ok? && !WzImageProbe(data, key, offset).value.value ==>
              r == Err(MalformedData)
    ensures r.Ok? ==> WzImageProbe(data, key, offset).Ok? && WzImageProbe(data, key, offset).value.value
  {
    var probe :- WzImageProbe(data, key, offset);
    if !probe.value then Err(MalformedData)
    else DecodeList(data, key, offset, d, probe.next)
  }

  /** Directory::parse_image is not part of this model; this stand-in seeks
      to the directory entry's offset, probes for an image and parses its
      property list into image. */
  method ParseImage(rd: Reader, dir: Node, image: Node, d: nat) returns (r: Result<()>, ghost U: set<Node>)
    requires image.Grouped() && image.log == []
    modifies rd, image
    ensures image.Grouped() && fresh(U) && Own(image) == old(Own(image))
    ensures var s := ImageAt(rd.data, rd.key, dir.imageOffset, d);
            Agrees(r, s) && (r.Ok? ==> ListMirrors(image, image.path, image.log, s.value.value, U))
  {
    U := {};
    rd.SetPosition(dir.imageOffset);
    var probe := rd.IsWzImage();
    if probe.Err? {
      r := Err(probe.error);
      return;
    }
    if !probe.value {
      r := Err(MalformedData);
      return;
    }
    r, U := ParsePropertyList(rd, image, dir.imageOffset, d);
    assert image.log[|old(image.log)|..] == image.log;
  }

  /** The Image branch of find_from_path: a node whose path is cached is
      replaced by the cached node without parsing; otherwise a new node is
      parsed from the directory entry and inserted under the new node's own
      path, which is empty, not under the path it was looked up by. The
      outcome of parse_image is not inspected. */
  method OpenImage(dir: Node, cache: ImageCache, rd: Reader, d: nat)
    returns (n: Node, ghost parsed: Result<()>, ghost U: set<Node>)
    requires cache.Keyed()
    modifies cache, rd
    ensures cache.Keyed()
    ensures dir.path in old(cache.entries) ==>
              n == old(cache.entries)[dir.path] && n.path == dir.path &&
              cache.entries == old(cache.entries) && rd.cursor == old(rd.cursor)
    ensures dir.path !in old(cache.entries) ==>
              fresh(n) && fresh(U) && n.kind == NotSet && n.path == [] && n.parent == null &&
              cache.entries == old(cache.entries)[[] := n] &&
              (dir.path != [] ==> dir.path !in cache.entries) &&
              var s := ImageAt(rd.data, rd.key, dir.imageOffset, d);
              Agrees(parsed, s) && (parsed.Ok? ==> n.Grouped() && ListMirrors(n, n.path, n.log, s.value.value, U))
  {
    U := {};
    parsed := Ok(());
    if dir.path in cache.entries {
      n := cache.entries[dir.path];
      return;
    }
    var image := new Node(NotSet);
    parsed, U := ParseImage(rd, dir, image, d);
    n := image;
    cache.entries := cache.entries[n.path := n];
  }

  /** One component of find_from_path: the lookup, then the Image cache
      when the lookup led to an Image node. */
  method Step(node: Node, part: WzString, cache: ImageCache, rd: Reader, d: nat)
    returns (r: Result<Node>, ghost parsed: Result<()>, ghost U: set<Node>)
    requires cache.Keyed()
    modifies cache, rd
    ensures cache.Keyed()
    ensures var l := Lookup(node, part);
            (l.Err? ==> r == l) &&
            (l.Ok? ==> r.Ok?) &&
            (l.Ok? && !OpensImage(node, part) ==> r == l && cache.entries == old(cache.entries) && rd.cursor == old(rd.cursor)) &&
            (OpensImage(node, part) && l.value.path in old(cache.entries) ==>
               r == Ok(old(cache.entries)[l.value.path]) && cache.entries == old(cache.entries) &&
               rd.cursor == old(rd.cursor)) &&
            (OpensImage(node, part) && l.value.path !in old(cache.entries) ==>
               fresh(r.value) && fresh(U) && r.value.kind == NotSet && r.value.path == [] &&
               cache.entries == old(cache.entries)[[] := r.value] &&
               var s := ImageAt(rd.data, rd.key, l.value.imageOffset, d);
               Agrees(parsed, s) &&
               (parsed.Ok? ==> r.value.Grouped() && ListMirrors(r.value, r.value.path, r.value.log, s.value.value, U)))
  {
    r := Lookup(node, part);
    parsed, U := Ok(()), {};
    if r.Ok? && part != DotDot && r.value.kind == Image {
      var n;
      n, parsed, U := OpenImage(r.value, cache, rd, d);
      r := Ok(n);
    }
  }

  /** One component taken: the lookup succeeded, and unless it opened an
      Image node it led exactly where the lookup says. */
  ghost predicate Went(from: Node, part: WzString, to: Node)
    reads Frame(from, part)
  {
    Lookup(from, part).Ok? && (!OpensImage(from, part) ==> to == Lookup(from, part).value)
  }

  /** find_from_path / operator[]: the nodes visited, one per component,
      from start; a failing component ends the walk with its lookup's
      error. */
  method FindFromPath(start: Node, path: WzString, cache: ImageCache, rd: Reader, d: nat)
    returns (r: Result<Node>, ghost trail: seq<Node>)
    requires cache.Keyed()
    modifies cache, rd
    ensures cache.Keyed()
    ensures var parts := Split(path);
            1 <= |trail| <= |parts| + 1 && trail[0] == start &&
            (forall j :: 0 <= j < |trail| - 1 ==> Went(trail[j], parts[j], trail[j + 1])) &&
            (r.Ok? ==> |trail| == |parts| + 1 && r.value == trail[|parts|]) &&
            (r.Err? ==> |trail| <= |parts| && Lookup(trail[|trail| - 1], parts[|trail| - 1]) == Err(r.error))
  {
    var parts := SplitPath(path);
    var node := start;
    trail := [start];
    var i := 0;
    while i < |parts|
      invariant 0 <= i <= |parts| && |trail| == i + 1 && trail[0] == start && trail[i] == node
      invariant cache.Keyed()
      invariant forall j :: 0 <= j < i ==> Went(trail[j], parts[j], trail[j + 1])
    {
      var next, longer := Advance(trail, node, parts[i], parts, cache, rd, d);
      if next.Err? {
        return Err(next.error), trail;
      }
      node := next.value;
      trail := longer;
      i := i + 1;
    }
    r := Ok(node);
  }

  /** One turn of find_from_path's loop: the component part is taken from
      node, the last node of trail; the components taken before stay taken,
      and on success trail grows by the node reached. */
  method Advance(ghost trail: seq<Node>, node: Node, part: WzString, ghost parts: seq<WzString>,
                 cache: ImageCache, rd: Reader, d: nat)
    returns (r: Result<Node>, ghost longer: seq<Node>)
    requires 1 <= |trail| <= |parts| && trail[|trail| - 1] == node && part == parts[|trail| - 1]
    requires cache.Keyed()
    requires forall j :: 0 <= j < |trail| - 1 ==> Went(trail[j], parts[j], trail[j + 1])
    modifies cache, rd
    ensures cache.Keyed()
    ensures forall j :: 0 <= j < |trail| - 1 ==> Went(trail[j], parts[j], trail[j + 1])
    ensures r.Ok? ==> longer == trail + [r.value] && Went(node, part, r.value)
    ensures r.Ok? ==> forall j :: 0 <= j < |longer| - 1 ==> Went(longer[j], parts[j], longer[j + 1])
    ensures r.Err? ==> Lookup(node, part) == Err(r.error)
  {
    ghost var parsed, U;
    r, parsed, U := Step(node, part, cache, rd, d);
    longer := trail;
    if r.Ok? {
      longer := trail + [r.value];
      forall j | 0 <= j < |longer| - 1 ensures Went(longer[j], parts[j], longer[j + 1]) {
        if j < |trail| - 1 {
          assert longer[j] == trail[j] && longer[j + 1] == trail[j + 1];
        }
      }
    }
  }
}
