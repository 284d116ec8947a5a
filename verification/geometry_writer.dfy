/**
 * Writing a Geometry out as a node tree: the layer-element blocks, the
 * synthetic material channel and its relocation, the per-polygon material
 * indices, and the channel bookkeeping around them.
 */
module GeometryWriter {
  import opened Wrappers
  import opened Values
  import opened Tree
  import opened Seqs
  import opened PolygonCodec
  import opened EdgeDerivation
  import opened Channels
  import opened Scene
  import opened Geometries
  import opened LayerGroups

  // ---------------------------------------------------------------------
  // MoveMaterials
  // ---------------------------------------------------------------------

  predicate IsMaterialElement(n: Node) {
    n.name == ElementName(Material)
  }

  /** The first material element in `a[lo..hi]`, if any. */
  function FirstMaterial(a: seq<Node>, lo: int, hi: int): (r: Option<nat>)
    requires 0 <= lo && hi <= |a|
    ensures r.Some? ==> lo <= r.value < hi && IsMaterialElement(a[r.value])
    ensures r.Some? ==> forall k :: lo <= k < r.value ==> !IsMaterialElement(a[k])
    ensures r.None? <==> forall k :: lo <= k < hi ==> !IsMaterialElement(a[k])
    decreases hi - lo
  {
    if lo >= hi then None
    else if IsMaterialElement(a[lo]) then Some(lo)
    else FirstMaterial(a, lo + 1, hi)
  }

  /**
   * `MoveMaterials(array, start, count)`: the first material element found
   * in `[start, start + count - 1)` is carried to slot `start + count - 1`,
   * the elements after it moving one place left. Nothing else changes.
   */
  function MoveMaterials(a: seq<Node>, start: nat, count: nat): (r: seq<Node>)
    requires start + count <= |a|
    ensures |r| == |a|
    ensures forall k :: 0 <= k < start || start + count <= k < |a| ==> r[k] == a[k]
    ensures multiset(r[start..start + count]) == multiset(a[start..start + count])
    ensures FirstMaterial(a, start, start + count - 1).None? ==> r == a
    ensures FirstMaterial(a, start, start + count - 1).Some? ==>
              var i, last := FirstMaterial(a, start, start + count - 1).value, start + count - 1;
              r[last] == a[i]
              && (forall k :: start <= k < i ==> r[k] == a[k])
              && (forall k :: i <= k < last ==> r[k] == a[k + 1])
  {
    match FirstMaterial(a, start, start + count - 1)
    case None => a
    case Some(i) => Bubble(a, start, i, start + count - 1)
  }

  /** `a[i]` carried to slot `last`, `a[i + 1..last + 1]` moved one place left. */
  function Bubble(a: seq<Node>, start: nat, i: nat, last: nat): (r: seq<Node>)
    requires start <= i <= last < |a|
    ensures |r| == |a|
    ensures r[..start] == a[..start] && r[last + 1..] == a[last + 1..]
    ensures r[last] == a[i]
    ensures forall k :: 0 <= k < i ==> r[k] == a[k]
    ensures forall k :: i <= k < last ==> r[k] == a[k + 1]
    ensures multiset(r[start..last + 1]) == multiset(a[start..last + 1])
  {
    var r := a[..i] + a[i + 1..last + 1] + [a[i]] + a[last + 1..];
    assert r[start..last + 1] == a[start..i] + a[i + 1..last + 1] + [a[i]] by {
      assert r[..last + 1] == a[..i] + a[i + 1..last + 1] + [a[i]];
      assert a[..i][start..] == a[start..i];
    }
    assert a[start..last + 1] == a[start..i] + [a[i]] + a[i + 1..last + 1];
    r
  }

  /** When the range holds a material element, the range ends with one afterwards. */
  lemma MoveMaterialsEndsWithMaterial(a: seq<Node>, start: nat, count: nat)
    requires start + count <= |a|
    requires exists m :: start <= m < start + count && IsMaterialElement(a[m])
    ensures IsMaterialElement(MoveMaterials(a, start, count)[start + count - 1])
  {
  }

  lemma FirstMaterialAt(a: seq<Node>, lo: int, hi: int, i: int)
    requires 0 <= lo <= i < hi <= |a| && IsMaterialElement(a[i])
    requires forall k :: lo <= k < i ==> !IsMaterialElement(a[k])
    ensures FirstMaterial(a, lo, hi) == Some(i)
    decreases i - lo
  {
    if lo < i {
      FirstMaterialAt(a, lo + 1, hi, i);
    }
  }

  /** The swap loop of `MoveMaterials`, over the array as a sequence. */
  method MoveMaterialsLoop(a0: seq<Node>, start: nat, count: nat) returns (a: seq<Node>)
    requires start + count <= |a0|
    ensures a == MoveMaterials(a0, start, count)
  {
    a := a0;
    var last := start + count - 1;
    var i := start;
    while i < last
      invariant start <= i <= start + count && (count > 0 ==> i <= last)
      invariant a == a0
      invariant forall k :: start <= k < i ==> !IsMaterialElement(a0[k])
    {
      if IsMaterialElement(a[i]) {
        FirstMaterialAt(a0, start, last, i);
        assert FirstMaterial(a0, start, start + count - 1) == Some(i);
        a := Rotate(a0, start, i, last);
        MoveMaterialsFound(a0, start, count, i);
        return;
      }
      i := i + 1;
    }
    MoveMaterialsNotFound(a0, start, count);
  }

  lemma MoveMaterialsFound(a: seq<Node>, start: nat, count: nat, i: nat)
    requires start + count <= |a| && start <= i < start + count - 1
    requires FirstMaterial(a, start, start + count - 1) == Some(i)
    ensures MoveMaterials(a, start, count) == Bubble(a, start, i, start + count - 1)
  {
  }

  /**
   * No material element before the last slot of the block (none at all, or
   * only one already last) leaves the array unchanged.
   */
  lemma MoveMaterialsNotFound(a: seq<Node>, start: nat, count: nat)
    requires start + count <= |a|
    requires forall k :: start <= k < start + count - 1 ==> !IsMaterialElement(a[k])
    ensures MoveMaterials(a, start, count) == a
  {
  }

  /** The inner loop: bubbles `a0[i]` up to `last` by adjacent swaps. */
  method Rotate(a0: seq<Node>, ghost start: nat, i: nat, last: nat) returns (a: seq<Node>)
    requires start <= i <= last < |a0|
    ensures a == Bubble(a0, start, i, last)
  {
    a := a0;
    var j := i;
    while j < last
      invariant i <= j <= last
      invariant a == a0[..i] + a0[i + 1..j + 1] + [a0[i]] + a0[j + 1..]
    {
      var temp := a[j + 1];
      a := a[j + 1 := a[j]];
      a := a[j := temp];
      assert a0[i + 1..j + 2] == a0[i + 1..j + 1] + [a0[j + 1]];
      assert a0[j + 1..] == [a0[j + 1]] + a0[j + 2..];
      j := j + 1;
    }
  }

  // ---------------------------------------------------------------------
  // MateriaToElement
  // ---------------------------------------------------------------------

  /** Polygon `p` lies in the submesh's range. */
  predicate Covers(s: SubMesh, p: int) {
    s.start as int <= p < s.start as int + s.count as int
  }

  /** The submesh's writes stay inside a buffer of `n` entries. */
  predicate InRange(s: SubMesh, n: nat) {
    s.count <= 0 || (0 <= s.start && s.start as int + s.count as int <= n)
  }

  predicate AllInRange(subs: seq<SubMesh>, n: nat) {
    forall i :: 0 <= i < |subs| ==> InRange(subs[i], n)
  }

  /** The material of the last submesh covering polygon `p`, if one does. */
  function LastCover(subs: seq<SubMesh>, p: int): Option<Int32> {
    if |subs| == 0 then None
    else if Covers(subs[|subs| - 1], p) then Some(subs[|subs| - 1].material)
    else LastCover(subs[..|subs| - 1], p)
  }

  /**
   * The inner loop of `MateriaToElement` for one submesh: writes its material
   * over its polygon range, failing at the first write outside the buffer.
   */
  method PaintSubMesh(buf: seq<Int32>, s: SubMesh) returns (r: Result<seq<Int32>>)
    ensures r.Ok? <==> InRange(s, |buf|)
    ensures r.Err? ==> r.error == OutOfRange
    ensures r.Ok? ==> |r.value| == |buf|
    ensures r.Ok? ==> forall p :: 0 <= p < |buf| ==>
              r.value[p] == (if Covers(s, p) then s.material else buf[p])
  {
    var out := buf;
    var k := 0;
    while k < s.count as int
      invariant 0 <= k && (s.count > 0 ==> k <= s.count as int) && (s.count <= 0 ==> k == 0)
      invariant |out| == |buf|
      invariant k > 0 ==> 0 <= s.start && s.start as int + k <= |buf|
      invariant forall p :: 0 <= p < |buf| ==>
                  out[p] == (if s.start as int <= p < s.start as int + k then s.material else buf[p])
    {
      var at := k + s.start as int;
      if at < 0 || at >= |out| {
        return Err(OutOfRange);
      }
      out := out[at := s.material];
      k := k + 1;
    }
    assert k == s.count as int || (s.count <= 0 && k == 0);
    return Ok(out);
  }

  /**
   * The `ByPolygon` branch of `MateriaToElement`: one entry per polygon,
   * initially 0, each submesh in turn painting its range.
   */
  method MaterialIndices(subs: seq<SubMesh>, n: nat) returns (r: Result<seq<Int32>>)
    ensures r.Ok? <==> AllInRange(subs, n)
    ensures r.Err? ==> r.error == OutOfRange
    ensures r.Ok? ==> |r.value| == n
    ensures r.Ok? ==> forall p :: 0 <= p < n ==> r.value[p] == LastCover(subs, p).GetOr(0)
  {
    var buf := seq(n, _ => 0 as Int32);
    var i := 0;
    while i < |subs|
      invariant 0 <= i <= |subs|
      invariant |buf| == n
      invariant AllInRange(subs[..i], n)
      invariant forall p :: 0 <= p < n ==> buf[p] == LastCover(subs[..i], p).GetOr(0)
    {
      var painted := PaintSubMesh(buf, subs[i]);
      if painted.Err? {
        assert !AllInRange(subs, n) by { assert !InRange(subs[i], n); }
        return Err(OutOfRange);
      }
      assert subs[..i + 1][..i] == subs[..i];
      buf := painted.value;
      i := i + 1;
    }
    assert subs[..i] == subs;
    return Ok(buf);
  }

  /** The material indices the block carries: one per polygon, or the single submesh's material. */
  function MaterialValues(g: Geometry): (r: seq<Int32>)
    ensures |g.subMeshes| == 1 ==> r == [g.subMeshes[0].material]
    ensures |g.subMeshes| != 1 ==> |r| == |g.indices|
    ensures |g.subMeshes| != 1 ==> forall p :: 0 <= p < |g.indices| ==> r[p] == LastCover(g.subMeshes, p).GetOr(0)
  {
    if |g.subMeshes| == 1 then [g.subMeshes[0].material]
    else seq(|g.indices|, p requires 0 <= p < |g.indices| => LastCover(g.subMeshes, p).GetOr(0))
  }

  /** The `LayerElementMaterial` block of a geometry whose submeshes fit its polygons. */
  function ExpectedMaterial(g: Geometry): Node {
    Node(ElementName(Material), [AInt32(0)], [
      Leaf("Version", AInt32(101)),
      Leaf("Name", AString("")),
      Leaf("MappingInformationType", AString(if |g.subMeshes| == 1 then "AllSame" else "ByPolygon")),
      Leaf("ReferenceInformationType", AString("IndexToDirect")),
      Leaf("Materials", AInt32Array(MaterialValues(g)))
    ])
  }

  /** `MateriaToElement`: the `LayerElementMaterial` block. */
  method MateriaToElement(g: Geometry) returns (r: Result<Node>)
    ensures r.Err? <==> |g.subMeshes| != 1 && !AllInRange(g.subMeshes, |g.indices|)
    ensures r.Err? ==> r.error == OutOfRange
    ensures r.Ok? ==> r.value.name == ElementName(Material) && |r.value.children| == 5
    ensures r.Ok? ==> r.value.attrs == [AInt32(0)]
    ensures r.Ok? ==> r.value.children[0] == Leaf("Version", AInt32(101))
    ensures r.Ok? ==> r.value.children[1] == Leaf("Name", AString(""))
    ensures r.Ok? ==> r.value.children[3] == Leaf("ReferenceInformationType", AString("IndexToDirect"))
    ensures r.Ok? ==> r.value == ExpectedMaterial(g)
    ensures r.Ok? && |g.subMeshes| == 1 ==>
              r.value.children[2] == Leaf("MappingInformationType", AString("AllSame"))
              && r.value.children[4] == Leaf("Materials", AInt32Array([g.subMeshes[0].material]))
    ensures r.Ok? && |g.subMeshes| != 1 ==>
              r.value.children[2] == Leaf("MappingInformationType", AString("ByPolygon"))
              && |r.value.children[4].attrs| == 1 && r.value.children[4].attrs[0].AInt32Array?
              && var m := r.value.children[4].attrs[0].a;
                 |m| == |g.indices|
                 && forall p :: 0 <= p < |g.indices| ==> m[p] == LastCover(g.subMeshes, p).GetOr(0)
  {
    var mapping, indices;
    if |g.subMeshes| == 1 {
      mapping := "AllSame";
      indices := [g.subMeshes[0].material];
    } else {
      mapping := "ByPolygon";
      var painted := MaterialIndices(g.subMeshes, |g.indices|);
      if painted.Err? {
        return Err(painted.error);
      }
      indices := painted.value;
      assert indices == MaterialValues(g);
    }
    var elements := [
      Leaf("Version", AInt32(101)),
      Leaf("Name", AString("")),
      Leaf("MappingInformationType", AString(mapping)),
      Leaf("ReferenceInformationType", AString("IndexToDirect")),
      Leaf("Materials", AInt32Array(indices))
    ];
    return Ok(Node(ElementName(Material), [AInt32(0)], elements));
  }

  // ---------------------------------------------------------------------
  // ChannelToElement
  // ---------------------------------------------------------------------

  /**
   * `ChannelToElement`: the layer-element block of a non-material channel.
   * Value arrays are float data and appear as opaque attributes.
   */
  function ChannelToElement(c: Channel): (r: Node)
    requires c.kind != Material
    ensures r.name == ElementName(c.kind) && r.attrs == [AInt32(c.layer)]
    ensures |r.children| == (if HasWeights(c) then 6 else 5)
    ensures r.children[0] == Leaf("Version", AInt32(101))
    ensures r.children[1] == Leaf("Name", AString(c.name))
    ensures r.children[2] == Leaf("MappingInformationType", AString("ByPolygonVertex"))
    ensures r.children[3] == Leaf("ReferenceInformationType", AString("Direct"))
    ensures r.children[4] == Leaf(ArrayName(c.kind), AOpaque)
    ensures HasWeights(c) ==> r.children[5] == Leaf(WeightName(c.kind), AOpaque)
  {
    var common := [
      Leaf("Version", AInt32(101)),
      Leaf("Name", AString(c.name)),
      Leaf("MappingInformationType", AString("ByPolygonVertex")),
      Leaf("ReferenceInformationType", AString("Direct")),
      Leaf(ArrayName(c.kind), AOpaque)
    ];
    var weights := if HasWeights(c) then [Leaf(WeightName(c.kind), AOpaque)] else [];
    Node(ElementName(c.kind), [AInt32(c.layer)], common + weights)
  }

  /**
   * For channels shaped as the builder makes them, a weight array is written
   * exactly for tangents and binormals, and always under a non-empty name.
   */
  lemma WeightsForBuilderChannels(c: Channel)
    requires BuilderShaped(c) && c.kind != Material
    ensures HasWeights(c) <==> c.kind == Tangent || c.kind == Binormal
    ensures HasWeights(c) ==> WeightName(c.kind) != ""
  {
  }

  // ---------------------------------------------------------------------
  // AsElement
  // ---------------------------------------------------------------------

  /** The channel AsElement appends to stand for the material block (its buffer is null). */
  const SyntheticMaterial: Channel := Channel(0, "", Material, Int, [])

  /** The channel list while AsElement runs: the synthetic channel appended when there are submeshes. */
  function Augmented(g: Geometry): (r: seq<Channel>)
    ensures |g.subMeshes| != 0 ==> r == g.channels + [SyntheticMaterial]
    ensures |g.subMeshes| == 0 ==> r == g.channels
  {
    if |g.subMeshes| != 0 then g.channels + [SyntheticMaterial] else g.channels
  }

  /** The element a channel is rendered as, given the material block. */
  function RenderChannel(c: Channel, mat: Node): Node {
    if c.kind == Material then mat else ChannelToElement(c)
  }

  function RenderAll(cs: seq<Channel>, mat: Node): (r: seq<Node>)
    ensures |r| == |cs|
    ensures forall i :: 0 <= i < |cs| ==> r[i] == RenderChannel(cs[i], mat)
  {
    seq(|cs|, i requires 0 <= i < |cs| => RenderChannel(cs[i], mat))
  }

  /** The `LayerElement` entry naming one channel's block inside its `Layer` node. */
  function LayerEntry(c: Channel): Node {
    Node("LayerElement", [], [Leaf("Type", AString(ElementName(c.kind))), Leaf("TypeIndex", AInt32(c.layer))])
  }

  /** The `Layer` node of one group: a version, then one entry per channel of the layer. */
  function LayerNode(cs: seq<Channel>, l: Int32): (r: Node)
    ensures r.name == "Layer" && r.attrs == [AInt32(l)]
    ensures |r.children| == 1 + |InLayer(cs, l)|
  {
    var group := InLayer(cs, l);
    Node("Layer", [AInt32(l)], [Leaf("Version", AInt32(100))] + seq(|group|, i requires 0 <= i < |group| => LayerEntry(group[i])))
  }

  function LayerNodes(cs: seq<Channel>, ls: seq<Int32>): (r: seq<Node>)
    ensures |r| == |ls|
    ensures forall i :: 0 <= i < |ls| ==> r[i] == LayerNode(cs, ls[i])
  {
    seq(|ls|, i requires 0 <= i < |ls| => LayerNode(cs, ls[i]))
  }

  /** Edge positions as the `int` array the writer emits. */
  function AsInt32s(s: seq<nat>): (r: seq<Int32>)
    requires forall i :: 0 <= i < |s| ==> s[i] < 0x8000_0000
    ensures |r| == |s| && forall i :: 0 <= i < |s| ==> r[i] as int == s[i]
  {
    seq(|s|, i requires 0 <= i < |s| => s[i] as Int32)
  }

  /** The edge list written under `Edges`. */
  function EdgeList(g: Geometry): seq<Int32>
    requires IndexCount(g.indices) < 0x8000_0000
  {
    RecalculatedEdgesInRange(g.indices);
    AsInt32s(FirstPositions(EdgeKeys(g.indices)))
  }

  /** The five fixed children that open the geometry node. */
  function Header(indices: seq<Int32>, edges: seq<Int32>): (r: seq<Node>)
    ensures |r| == 5
    ensures r[2] == Leaf("PolygonVertexIndex", AInt32Array(indices))
    ensures r[3] == Leaf("Edges", AInt32Array(edges))
    ensures r[4] == Leaf("GeometryVersion", AInt32(124))
  {
    [ Node("Properties70", [AOpaque], []),
      Leaf("Vertices", AOpaque),
      Leaf("PolygonVertexIndex", AInt32Array(indices)),
      Leaf("Edges", AInt32Array(edges)),
      Leaf("GeometryVersion", AInt32(124)) ]
  }

  /** With a material channel last, the rendered channel blocks include a material block. */
  lemma MaterialRendered(chans: seq<Channel>, mat: Node) returns (i: nat)
    requires IsMaterialElement(mat) && |chans| > 0 && chans[|chans| - 1].kind == Material
    ensures i < |chans| == |Blocks(chans, Layers(chans))|
    ensures IsMaterialElement(RenderAll(Blocks(chans, Layers(chans)), mat)[i])
  {
    GroupedChannels(chans);
    var blocks := Blocks(chans, Layers(chans));
    var m := chans[|chans| - 1];
    assert m in multiset(blocks) by {
      assert m in multiset(chans);
    }
    i :| 0 <= i < |blocks| && blocks[i] == m;
  }

  lemma ConcatIndex<T>(a: seq<T>, b: seq<T>, c: seq<T>, i: nat)
    requires i < |b|
    ensures (a + b + c)[|a| + i] == b[i]
  {
  }

  /** The children before any material block is moved: header, channel blocks in group order, `Layer` nodes. */
  function Assembled(header: seq<Node>, chans: seq<Channel>, mat: Node): seq<Node> {
    header + RenderAll(Blocks(chans, Layers(chans)), mat) + LayerNodes(chans, Layers(chans))
  }

  lemma AssembledShape(header: seq<Node>, chans: seq<Channel>, mat: Node)
    requires |header| == 5
    ensures |Assembled(header, chans, mat)| == 5 + |chans| + |Layers(chans)|
    ensures Assembled(header, chans, mat)[..5] == header
    ensures forall l :: 0 <= l < |Layers(chans)| ==>
              Assembled(header, chans, mat)[5 + |chans| + l] == LayerNode(chans, Layers(chans)[l])
  {
    GroupedChannels(chans);
    var blocks := RenderAll(Blocks(chans, Layers(chans)), mat);
    var layers := LayerNodes(chans, Layers(chans));
    assert Assembled(header, chans, mat) == (header + blocks) + layers;
    assert |header + blocks| == 5 + |chans|;
  }

  lemma AssembledMaterial(header: seq<Node>, chans: seq<Channel>, mat: Node)
    requires |header| == 5
    requires IsMaterialElement(mat) && |chans| > 0 && chans[|chans| - 1].kind == Material
    ensures |Assembled(header, chans, mat)| >= 5 + |chans|
    ensures exists m :: 5 <= m < 5 + |chans| && IsMaterialElement(Assembled(header, chans, mat)[m])
  {
    var i := MaterialRendered(chans, mat);
    var rendered := RenderAll(Blocks(chans, Layers(chans)), mat);
    ConcatIndex(header, rendered, LayerNodes(chans, Layers(chans)), i);
  }

  /**
   * The children of the geometry node: the header, one block per channel in
   * group order, one `Layer` node per group, and, when `move` is set, the
   * first material block carried to the end of the channel blocks.
   */
  function Layout(header: seq<Node>, chans: seq<Channel>, mat: Node, move: bool): (r: seq<Node>)
    requires |header| == 5
    requires move ==> IsMaterialElement(mat) && |chans| > 0 && chans[|chans| - 1].kind == Material
    ensures |r| == 5 + |chans| + |Layers(chans)|
    ensures r[0] == header[0] && r[1] == header[1]
    ensures r[2] == header[2] && r[3] == header[3] && r[4] == header[4]
    ensures forall l :: 0 <= l < |Layers(chans)| ==>
              r[5 + |chans| + l] == LayerNode(chans, Layers(chans)[l])
    ensures move ==> IsMaterialElement(r[4 + |chans|])
  {
    AssembledShape(header, chans, mat);
    var elements := Assembled(header, chans, mat);
    if move then
      AssembledMaterial(header, chans, mat);
      MoveMaterialsEndsWithMaterial(elements, 5, |chans|);
      MoveMaterials(elements, 5, |chans|)
    else
      elements
  }

  /**
   * The material block as `Render` needs it: the block `MateriaToElement`
   * writes, or the out-of-range failure. With no submeshes it cannot fail.
   */
  method MaterialBlock(g: Geometry) returns (r: Result<Node>)
    ensures r.Err? <==> |g.subMeshes| >= 2 && !AllInRange(g.subMeshes, |g.indices|)
    ensures r.Err? ==> r.error == OutOfRange
    ensures r.Ok? ==> r.value == ExpectedMaterial(g)
  {
    r := MateriaToElement(g);
  }

  /**
   * What the written geometry node holds: the header with the index and edge
   * arrays, one block per channel in group order (the material block among
   * them carried to the last channel slot when there are submeshes), and one
   * `Layer` node per group.
   */
  predicate GeometryNode(g: Geometry, n: Node)
    requires IndexCount(g.indices) < 0x8000_0000
  {
    var chans := Augmented(g);
    && n.name == "Geometry"
    && n.children == Layout(Header(Encode(g.indices), EdgeList(g)), chans, ExpectedMaterial(g), |g.subMeshes| != 0)
    && |n.children| == 5 + |chans| + |Layers(chans)|
    && n.children[2] == Leaf("PolygonVertexIndex", AInt32Array(Encode(g.indices)))
    && n.children[3] == Leaf("Edges", AInt32Array(EdgeList(g)))
    && n.children[4] == Leaf("GeometryVersion", AInt32(124))
    && (|g.subMeshes| != 0 ==> IsMaterialElement(n.children[4 + |chans|]))
    && forall l :: 0 <= l < |Layers(chans)| ==>
         n.children[5 + |chans| + l] == LayerNode(chans, Layers(chans)[l])
  }

  /** The geometry node once the material block is rendered: the loops of `AsElement`. */
  method RenderWith(g: Geometry, mat: Node) returns (n: Node)
    requires IndexCount(g.indices) < 0x8000_0000
    requires mat == ExpectedMaterial(g)
    ensures GeometryNode(g, n)
  {
    var indices := EncodeIndices(g.indices);
    var edges := RecalculateEdges(g.indices);
    RecalculatedEdgesInRange(g.indices);
    var children := Layout(Header(indices, AsInt32s(edges)), Augmented(g), mat, |g.subMeshes| != 0);
    n := Node("Geometry", [AOpaque], children);
  }

  /**
   * The part of `AsElement` between the two channel bookkeeping steps:
   * renders the node for the channel list with the synthetic channel,
   * failing only where the material block fails.
   */
  method Render(g: Geometry) returns (r: Result<Node>)
    requires IndexCount(g.indices) < 0x8000_0000
    ensures r.Err? <==> |g.subMeshes| >= 2 && !AllInRange(g.subMeshes, |g.indices|)
    ensures r.Err? ==> r.error == OutOfRange
    ensures r.Ok? ==> GeometryNode(g, r.value)
  {
    var m := MaterialBlock(g);
    if m.Err? {
      return Err(m.error);
    }
    var n := RenderWith(g, m.value);
    return Ok(n);
  }

  /**
   * `AsElement` as written: the synthetic material channel is appended
   * before rendering and removed only after it, so when the material block
   * throws, the geometry keeps the extra channel.
   */
  method AsElement(g: Geometry) returns (r: Result<Node>, g': Geometry)
    requires IndexCount(g.indices) < 0x8000_0000
    ensures g'.(channels := g.channels) == g
    ensures r.Err? <==> |g.subMeshes| >= 2 && !AllInRange(g.subMeshes, |g.indices|)
    ensures r.Err? ==> r.error == OutOfRange && g'.channels == g.channels + [SyntheticMaterial]
    ensures r.Ok? ==> g' == g
    ensures r.Ok? ==> GeometryNode(g, r.value)
  {
    var chans := Augmented(g);
    g' := g.(channels := chans);
    r := Render(g);
    if r.Ok? && |g.subMeshes| != 0 {
      g' := g'.(channels := RemoveAt(chans, |chans| - 1));
      assert g'.channels == g.channels;
    }
  }

  /** A geometry on which the as-written `AsElement` keeps the synthetic channel. */
  lemma LeakingGeometry(self: Obj)
    ensures var g := Geometry(self, [], [[0, 1, 2]], [SubMesh(0, 1, 0), SubMesh(0, 2, 1)], [], [], []);
            IndexCount(g.indices) < 0x8000_0000
            && |g.subMeshes| >= 2 && !AllInRange(g.subMeshes, |g.indices|)
  {
    var g := Geometry(self, [], [[0, 1, 2]], [SubMesh(0, 1, 0), SubMesh(0, 2, 1)], [], [], []);
    assert IndexCount(g.indices) == 3;
    assert !InRange(g.subMeshes[1], 1);
  }

  /**
   * `AsElement` with the channel list restored on every path: the geometry
   * is left as it was whether or not the material block throws.
   */
  method AsElementRestoring(g: Geometry) returns (r: Result<Node>, g': Geometry)
    requires IndexCount(g.indices) < 0x8000_0000
    ensures g' == g
    ensures r.Err? <==> |g.subMeshes| >= 2 && !AllInRange(g.subMeshes, |g.indices|)
    ensures r.Ok? ==> GeometryNode(g, r.value)
  {
    r := Render(g);
    g' := g;
  }
}
