/**
 * `GeometryBuilder`: collects vertices, polygons, submeshes, deformers and
 * per-layer channels, then builds a Geometry whose channels all have one
 * value per polygon-vertex index and are sorted by (type, layer).
 */
module GeometryBuilders {
  import opened Wrappers
  import opened Values
  import opened Scene
  import opened PolygonCodec
  import opened EdgeDerivation
  import opened Channels
  import opened Geometries

  datatype Builder = Builder(
    scene: SceneId,
    vertices: seq<Vector3>,
    polygons: seq<Polygon>,
    channels: seq<Channel>,
    subMeshes: seq<SubMesh>,
    shapes: seq<Obj>,
    skins: seq<Obj>)

  /** A fresh builder for a scene: every list empty. */
  function NewBuilder(scene: SceneId): (r: Builder)
    ensures r.scene == scene
    ensures r.vertices == [] && r.polygons == [] && r.channels == []
    ensures r.subMeshes == [] && r.shapes == [] && r.skins == []
  {
    Builder(scene, [], [], [], [], [], [])
  }

  /**
   * What every builder reachable from `NewBuilder` satisfies: at most one
   * channel per (type, layer), each with a non-empty buffer of the component
   * type its kind is given, and none of them a material channel.
   */
  ghost predicate Valid(b: Builder) {
    && UniqueKeys(b.channels)
    && forall i :: 0 <= i < |b.channels| ==>
         var c := b.channels[i];
         c.kind != Material && BuilderShaped(c) && |c.buffer| > 0 && WellTyped(c)
  }

  lemma NewBuilderValid(scene: SceneId)
    ensures Valid(NewBuilder(scene))
  {
  }

  // ---------------------------------------------------------------------
  // Vertices, polygons, submeshes
  // ---------------------------------------------------------------------

  function WithVertex(b: Builder, v: Vector3): (r: Builder)
    ensures r == b.(vertices := b.vertices + [v])
  {
    b.(vertices := b.vertices + [v])
  }

  /** `WithVertices`: a null array adds nothing. */
  function WithVertices(b: Builder, vs: Option<seq<Vector3>>): (r: Builder)
    ensures vs.None? ==> r == b
  {
    b.(vertices := b.vertices + vs.GetOr([]))
  }

  /** Adding an array of vertices is adding each of them in order. */
  lemma {:induction false} WithVerticesOneByOne(b: Builder, vs: seq<Vector3>)
    ensures WithVertices(b, Some(vs)) == AddEach(b, vs)
    decreases |vs|
  {
    if |vs| > 0 {
      var init := vs[..|vs| - 1];
      WithVerticesOneByOne(b, init);
      assert vs == init + [vs[|vs| - 1]];
    }
  }

  function AddEach(b: Builder, vs: seq<Vector3>): Builder
    decreases |vs|
  {
    if |vs| == 0 then b else WithVertex(AddEach(b, vs[..|vs| - 1]), vs[|vs| - 1])
  }

  /** `WithPolygon`: a null polygon or one with fewer than three indices throws. */
  function WithPolygon(b: Builder, poly: Option<Polygon>): (r: Result<Builder>)
    ensures r.Err? <==> poly.None? || |poly.value| < 3
    ensures r.Err? ==> r.error == BadPolygon
    ensures r.Ok? ==> r.value == b.(polygons := b.polygons + [poly.value])
  {
    if poly.None? || |poly.value| < 3 then Err(BadPolygon)
    else Ok(b.(polygons := b.polygons + [poly.value]))
  }

  function WithSubMesh(b: Builder, s: SubMesh): (r: Builder)
    ensures r == b.(subMeshes := b.subMeshes + [s])
  {
    b.(subMeshes := b.subMeshes + [s])
  }

  // ---------------------------------------------------------------------
  // Flat index buffers
  // ---------------------------------------------------------------------

  /** The polygons laid end to end. */
  function Flatten(ps: seq<Polygon>): (r: seq<Int32>)
  {
    if |ps| == 0 then [] else ps[0] + Flatten(ps[1..])
  }

  lemma {:induction false} FlattenLength(ps: seq<Polygon>, n: nat)
    requires forall i :: 0 <= i < |ps| ==> |ps[i]| == n
    ensures |Flatten(ps)| == n * |ps|
  {
    if |ps| > 0 {
      FlattenLength(ps[1..], n);
      assert n * |ps| == n + n * (|ps| - 1);
    }
  }

  /** Consecutive runs of `n` indices cut from `s`; a shorter remainder would form the last run. */
  function Chunk(s: seq<Int32>, n: nat): (r: seq<Polygon>)
    requires n > 0
    decreases |s|
  {
    if |s| == 0 then []
    else if |s| < n then [s]
    else [s[..n]] + Chunk(s[n..], n)
  }

  /** Cutting a buffer into runs and laying them end to end gives it back. */
  lemma {:induction false} FlattenChunk(s: seq<Int32>, n: nat)
    requires n > 0
    ensures Flatten(Chunk(s, n)) == s
    decreases |s|
  {
    if |s| >= n && |s| > 0 {
      FlattenChunk(s[n..], n);
      var r := Chunk(s, n);
      assert r[0] == s[..n] && r[1..] == Chunk(s[n..], n);
      assert s == s[..n] + s[n..];
    }
  }

  /** When `n` divides the length, there are `length / n` runs, each of exactly `n` indices. */
  lemma {:induction false} ChunkShape(s: seq<Int32>, n: nat)
    requires n > 0 && |s| % n == 0
    ensures |Chunk(s, n)| == |s| / n
    ensures forall i :: 0 <= i < |Chunk(s, n)| ==> |Chunk(s, n)[i]| == n
    decreases |s|
  {
    if |s| == 0 {
      assert |s| / n == 0;
    } else {
      DivStep(|s|, n);
      ChunkShape(s[n..], n);
      var r := Chunk(s, n);
      assert r[1..] == Chunk(s[n..], n);
      assert forall i :: 1 <= i < |r| ==> r[i] == r[1..][i - 1];
    }
  }

  /** Polygons of one arity are recovered from their flat buffer. */
  lemma {:induction false} ChunkFlatten(ps: seq<Polygon>, n: nat)
    requires n > 0 && forall i :: 0 <= i < |ps| ==> |ps[i]| == n
    ensures Chunk(Flatten(ps), n) == ps
  {
    if |ps| > 0 {
      var tail := ps[1..];
      ChunkFlatten(tail, n);
      var flat := Flatten(ps);
      assert flat == ps[0] + Flatten(tail);
      assert flat[..n] == ps[0] && flat[n..] == Flatten(tail);
      assert ps == [ps[0]] + tail;
    }
  }

  /** Taking one run of `n` off a multiple of `n`. */
  lemma DivStep(x: nat, n: nat)
    requires n > 0 && x > 0 && x % n == 0
    ensures x >= n && (x - n) % n == 0 && (x - n) / n == x / n - 1
  {
    var q := x / n;
    assert x == n * q;
    MulSign(n, q);
    MulStep(n, q);
    DivExact(q - 1, n);
  }

  lemma MulStep(n: nat, m: nat)
    requires m > 0
    ensures n * m == n + n * (m - 1)
  {
  }

  /** The arities `WithIndices` accepts by name. */
  datatype PolyType = Tri | Quad

  function Arity(t: PolyType): (r: int)
    ensures r >= 3
  {
    match t
    case Tri => 3
    case Quad => 4
  }

  /**
   * `WithIndices(indices, numPerPoly)`: an arity under three throws, a null
   * buffer throws when its length is read, a length that is not a multiple of
   * the arity throws, otherwise the buffer is cut into polygons which are
   * appended. The remainder is computed as the source does, as
   * `length - n * (length / n)`; lengths are never negative, so truncating
   * and Euclidean division agree.
   */
  function WithIndices(b: Builder, indices: Option<seq<Int32>>, n: int): (r: Result<Builder>)
    ensures n < 3 ==> r == Err(BadArity)
    ensures n >= 3 && indices.None? ==> r == Err(NullReference)
    ensures n >= 3 && indices.Some? ==> (r.Err? <==> |indices.value| % n != 0)
    ensures r.Err? ==> r.error in {BadArity, NullReference, NotDivisible}
    ensures r.Ok? ==> |b.polygons| <= |r.value.polygons|
    ensures r.Ok? ==>
              var added := r.value.polygons[|b.polygons|..];
              && r.value == b.(polygons := b.polygons + added)
              && |added| == |indices.value| / n
              && (forall i :: 0 <= i < |added| ==> |added[i]| == n)
              && Flatten(added) == indices.value
  {
    if n < 3 then Err(BadArity)
    else if indices.None? then Err(NullReference)
    else
      var s := indices.value;
      var count := |s| / n;
      var rest := |s| - n * count;
      if rest != 0 then Err(NotDivisible)
      else
        var added := Chunk(s, n);
        ChunkShape(s, n);
        FlattenChunk(s, n);
        var polys := b.polygons + added;
        assert polys[|b.polygons|..] == added;
        Ok(b.(polygons := polys))
  }

  function WithIndicesOf(b: Builder, indices: Option<seq<Int32>>, t: PolyType): (r: Result<Builder>)
    ensures r == WithIndices(b, indices, Arity(t))
  {
    WithIndices(b, indices, Arity(t))
  }

  /** The named arities never hit the arity check. */
  lemma NamedArityAccepted(b: Builder, indices: Option<seq<Int32>>, t: PolyType)
    ensures WithIndicesOf(b, indices, t) != Err(BadArity)
  {
  }

  /** Flattening polygons of one arity and feeding them back appends exactly those polygons. */
  lemma WithIndicesRoundTrip(b: Builder, ps: seq<Polygon>, n: int)
    requires n >= 3 && forall i :: 0 <= i < |ps| ==> |ps[i]| == n
    ensures WithIndices(b, Some(Flatten(ps)), n) == Ok(b.(polygons := b.polygons + ps))
  {
    ChunkFlatten(ps, n);
    FlattenLength(ps, n);
    DivExact(|ps|, n);
  }

  /**
   * A polygon of at least three indices is the same whether added on its own
   * or as an index buffer of its own arity.
   */
  lemma WithPolygonAsIndices(b: Builder, p: Polygon)
    requires |p| >= 3
    ensures WithIndices(b, Some(p), |p|) == WithPolygon(b, Some(p))
  {
    assert [p][1..] == [];
    assert Flatten([p]) == p;
    WithIndicesRoundTrip(b, [p], |p|);
    assert WithIndices(b, Some(p), |p|) == Ok(b.(polygons := b.polygons + [p]));
  }

  lemma DivExact(m: nat, n: nat)
    requires n > 0
    ensures (n * m) / n == m && (n * m) % n == 0
  {
    var q, r := (n * m) / n, (n * m) % n;
    assert n * m == n * q + r && 0 <= r < n;
    assert n * (m - q) == r;
    MulSign(n, m - q);
  }

  lemma MulSign(n: nat, d: int)
    requires n > 0
    ensures d >= 1 ==> n * d >= n
    ensures d <= -1 ==> n * d <= -(n as int)
  {
  }

  /**
   * The copying loops of `WithIndices` once the checks have passed: polygon
   * `i` takes the `n` indices from offset `at`, which steps by `n` and so is
   * the source's `i * numPerPoly`.
   */
  method SplitIndices(s: seq<Int32>, n: nat) returns (polys: seq<Polygon>)
    requires n > 0 && |s| % n == 0
    ensures polys == Chunk(s, n)
  {
    var count := |s| / n;
    polys := [];
    var i, at := 0, 0;
    while i < count
      invariant 0 <= i <= count && 0 <= at <= |s|
      invariant (|s| - at) % n == 0 && (|s| - at) / n == count - i
      invariant polys + Chunk(s[at..], n) == Chunk(s, n)
    {
      DivStep(|s| - at, n);
      var poly := CopyRun(s, at, n);
      assert s[at..][..n] == poly && s[at..][n..] == s[at + n..];
      polys := polys + [poly];
      i, at := i + 1, at + n;
    }
    assert |s| - at == n * ((|s| - at) / n) + (|s| - at) % n;
  }

  /** The inner copying loop: `n` indices from offset `at`. */
  method CopyRun(s: seq<Int32>, at: nat, n: nat) returns (poly: Polygon)
    requires at + n <= |s|
    ensures poly == s[at..at + n]
  {
    poly := [];
    var k := 0;
    while k < n
      invariant 0 <= k <= n && poly == s[at..at + k]
    {
      poly := poly + [s[at + k]];
      k := k + 1;
    }
  }

  // ---------------------------------------------------------------------
  // Deformers
  // ---------------------------------------------------------------------

  /**
   * `WithBlendShape` / `WithSkin`: null is ignored, a deformer from another
   * scene throws, anything else is appended.
   */
  function WithDeformer(b: Builder, which: DeformerList, d: Option<Obj>): (r: Result<Builder>)
    ensures d.None? ==> r == Ok(b)
    ensures r.Err? <==> d.Some? && d.value.scene != b.scene
    ensures r.Err? ==> r.error == CrossScene
    ensures r.Ok? && d.Some? && which == BlendShapes ==> r.value == b.(shapes := b.shapes + [d.value])
    ensures r.Ok? && d.Some? && which == Skins ==> r.value == b.(skins := b.skins + [d.value])
  {
    match d
    case None => Ok(b)
    case Some(x) =>
      if x.scene != b.scene then Err(CrossScene)
      else if which == BlendShapes then Ok(b.(shapes := b.shapes + [x]))
      else Ok(b.(skins := b.skins + [x]))
  }

  // ---------------------------------------------------------------------
  // Channels
  // ---------------------------------------------------------------------

  /** `FindIndex(_ => _.Layer == layer && _.Type == kind) >= 0`. */
  predicate HasChannel(cs: seq<Channel>, layer: Int32, kind: ChannelType) {
    exists i :: 0 <= i < |cs| && cs[i].layer == layer && cs[i].kind == kind
  }

  /**
   * The common shape of `WithNormals`, `WithTangents`, `WithBinormals`,
   * `WithColors` and `WithUVs`: a null or empty buffer, or a channel of the
   * same type already on that layer, leaves the builder as it was; otherwise
   * a channel with the kind's component type is appended.
   */
  function WithChannel(b: Builder, kind: ChannelType, cells: Option<seq<Cell>>, layer: Int32,
                       name: Option<string>): (r: Builder)
    requires kind != Material
    ensures r.(channels := b.channels) == b
    ensures cells.None? || |cells.value| == 0 || HasChannel(b.channels, layer, kind) ==> r == b
    ensures cells.Some? && |cells.value| > 0 && !HasChannel(b.channels, layer, kind) ==>
              r.channels == b.channels + [NewChannel(layer, name, kind, BuilderSize(kind), cells.value)]
    ensures HasChannel(r.channels, layer, kind) <==> HasChannel(b.channels, layer, kind)
                                                      || (cells.Some? && |cells.value| > 0)
  {
    if cells.None? || |cells.value| == 0 || HasChannel(b.channels, layer, kind) then b
    else
      var c := NewChannel(layer, name, kind, BuilderSize(kind), cells.value);
      var cs := b.channels + [c];
      assert cs[|b.channels|] == c;
      b.(channels := cs)
  }

  /** Adding a channel keeps a builder valid when the buffer has the kind's component type. */
  lemma WithChannelValid(b: Builder, kind: ChannelType, cells: Option<seq<Cell>>, layer: Int32,
                         name: Option<string>)
    requires Valid(b) && kind != Material
    requires cells.Some? ==> forall i :: 0 <= i < |cells.value| ==> CellType(cells.value[i]) == BuilderSize(kind)
    ensures Valid(WithChannel(b, kind, cells, layer, name))
  {
    var r := WithChannel(b, kind, cells, layer, name);
    if r != b {
      var c := r.channels[|b.channels|];
      forall i, j | 0 <= i < j < |r.channels| ensures Key(r.channels[i]) != Key(r.channels[j]) {
        if j == |b.channels| {
          KeyInjective(r.channels[i], c);
          assert r.channels[i] == b.channels[i];
        }
      }
    }
  }

  function Vec3Cells(vs: seq<Vector3>): (r: seq<Cell>)
    ensures |r| == |vs| && forall i :: 0 <= i < |vs| ==> r[i] == Vec3Cell(vs[i])
  {
    seq(|vs|, i requires 0 <= i < |vs| => Vec3Cell(vs[i]))
  }

  function Vec4Cells(vs: seq<Vector4>): (r: seq<Cell>)
    ensures |r| == |vs| && forall i :: 0 <= i < |vs| ==> r[i] == Vec4Cell(vs[i])
  {
    seq(|vs|, i requires 0 <= i < |vs| => Vec4Cell(vs[i]))
  }

  function Vec2Cells(vs: seq<Vector2>): (r: seq<Cell>)
    ensures |r| == |vs| && forall i :: 0 <= i < |vs| ==> r[i] == Vec2Cell(vs[i])
  {
    seq(|vs|, i requires 0 <= i < |vs| => Vec2Cell(vs[i]))
  }

  function WithNormals(b: Builder, normals: Option<seq<Vector3>>, layer: Int32, name: Option<string>): Builder {
    WithChannel(b, Normal, if normals.Some? then Some(Vec3Cells(normals.value)) else None, layer, name)
  }

  function WithTangents(b: Builder, tangents: Option<seq<Vector4>>, layer: Int32, name: Option<string>): Builder {
    WithChannel(b, Tangent, if tangents.Some? then Some(Vec4Cells(tangents.value)) else None, layer, name)
  }

  function WithBinormals(b: Builder, binormals: Option<seq<Vector4>>, layer: Int32, name: Option<string>): Builder {
    WithChannel(b, Binormal, if binormals.Some? then Some(Vec4Cells(binormals.value)) else None, layer, name)
  }

  function WithColors(b: Builder, colors: Option<seq<Vector4>>, layer: Int32, name: Option<string>): Builder {
    WithChannel(b, Color, if colors.Some? then Some(Vec4Cells(colors.value)) else None, layer, name)
  }

  function WithUVs(b: Builder, uvs: Option<seq<Vector2>>, layer: Int32, name: Option<string>): Builder {
    WithChannel(b, TexCoord, if uvs.Some? then Some(Vec2Cells(uvs.value)) else None, layer, name)
  }

  /** The five typed channel setters keep a builder valid. */
  lemma TypedChannelsValid(b: Builder, layer: Int32, name: Option<string>,
                           v2: Option<seq<Vector2>>, v3: Option<seq<Vector3>>, v4: Option<seq<Vector4>>)
    requires Valid(b)
    ensures Valid(WithNormals(b, v3, layer, name))
    ensures Valid(WithTangents(b, v4, layer, name))
    ensures Valid(WithBinormals(b, v4, layer, name))
    ensures Valid(WithColors(b, v4, layer, name))
    ensures Valid(WithUVs(b, v2, layer, name))
  {
    var c3 := if v3.Some? then Some(Vec3Cells(v3.value)) else None;
    var c4 := if v4.Some? then Some(Vec4Cells(v4.value)) else None;
    var c2 := if v2.Some? then Some(Vec2Cells(v2.value)) else None;
    WithChannelValid(b, Normal, c3, layer, name);
    WithChannelValid(b, Tangent, c4, layer, name);
    WithChannelValid(b, Binormal, c4, layer, name);
    WithChannelValid(b, Color, c4, layer, name);
    WithChannelValid(b, TexCoord, c2, layer, name);
  }

  /** A second channel of the same type on the same layer is ignored. */
  lemma SecondChannelIgnored(b: Builder, kind: ChannelType, first: seq<Cell>, second: Option<seq<Cell>>,
                             layer: Int32, n1: Option<string>, n2: Option<string>)
    requires kind != Material && |first| > 0
    ensures var b1 := WithChannel(b, kind, Some(first), layer, n1);
            WithChannel(b1, kind, second, layer, n2) == b1
  {
  }

  // ---------------------------------------------------------------------
  // BuildGeometry
  // ---------------------------------------------------------------------

  /** Every channel fitted to the index count, in builder order. */
  function Fitted(cs: seq<Channel>, n: nat): (r: seq<Channel>)
    ensures |r| == |cs|
    ensures forall i :: 0 <= i < |cs| ==> r[i] == FitChannel(cs[i], n)
  {
    seq(|cs|, i requires 0 <= i < |cs| => FitChannel(cs[i], n))
  }

  /** Fitting keeps each channel's (type, layer), so unique keys stay unique. */
  lemma FittedUnique(cs: seq<Channel>, n: nat)
    requires UniqueKeys(cs)
    ensures UniqueKeys(Fitted(cs, n))
  {
    var r := Fitted(cs, n);
    forall i, j | 0 <= i < j < |r| ensures Key(r[i]) != Key(r[j]) {
      assert Key(r[i]) == Key(cs[i]) && Key(r[j]) == Key(cs[j]);
    }
  }

  /** The loop of `BuildGeometry` that copies or resizes every channel. */
  method FitChannels(cs: seq<Channel>, n: nat) returns (r: seq<Channel>)
    ensures r == Fitted(cs, n)
  {
    r := [];
    var i := 0;
    while i < |cs|
      invariant 0 <= i <= |cs| && |r| == i
      invariant forall j :: 0 <= j < i ==> r[j] == FitChannel(cs[j], n)
    {
      var c := cs[i];
      if |c.buffer| == n {
        r := r + [c];
      } else {
        r := r + [Channel(c.layer, c.name, c.kind, c.size, Resize(c.buffer, n, DefaultCell(c.size)))];
      }
      i := i + 1;
    }
  }

  /**
   * `BuildGeometry`: the geometry `id` of the builder's scene with the
   * builder's lists, every channel fitted to the index count, and the
   * channels sorted by type, then layer.
   */
  method BuildGeometry(b: Builder, id: ObjectId) returns (g: Geometry)
    ensures g.self == Obj(id, b.scene, GeometryClass, MeshType)
    ensures g.vertices == b.vertices && g.indices == b.polygons && g.subMeshes == b.subMeshes
    ensures g.shapes == b.shapes && g.skins == b.skins
    ensures forall i :: 0 <= i < |g.channels| ==> |g.channels[i].buffer| == GetIndexCount(g)
    ensures Sorted(g.channels)
    ensures multiset(g.channels) == multiset(Fitted(b.channels, IndexCount(b.polygons)))
  {
    var n := IndexCount(b.polygons);
    var fitted := FitChannels(b.channels, n);
    var sorted := SortChannels(fitted);
    g := Geometry(Obj(id, b.scene, GeometryClass, MeshType), b.vertices, b.polygons, b.subMeshes,
                  sorted, b.shapes, b.skins);
    forall i | 0 <= i < |sorted| ensures |sorted[i].buffer| == n {
      assert sorted[i] in multiset(fitted);
    }
  }

  /**
   * From a valid builder, every channel appears in the geometry exactly once,
   * fitted, and the channel order does not depend on how the list is sorted:
   * any sorted permutation of the fitted channels is the one built.
   */
  lemma BuiltChannelsDetermined(b: Builder, g: Geometry, other: seq<Channel>)
    requires Valid(b)
    requires Sorted(g.channels) && multiset(g.channels) == multiset(Fitted(b.channels, IndexCount(b.polygons)))
    requires Sorted(other) && multiset(other) == multiset(Fitted(b.channels, IndexCount(b.polygons)))
    ensures UniqueKeys(g.channels)
    ensures other == g.channels
    ensures forall i :: 0 <= i < |b.channels| ==> FitChannel(b.channels[i], IndexCount(b.polygons)) in g.channels
  {
    var fitted := Fitted(b.channels, IndexCount(b.polygons));
    FittedUnique(b.channels, IndexCount(b.polygons));
    UniqueKeysPermutation(fitted, g.channels);
    SortDeterminate(fitted, other);
    SortDeterminate(fitted, g.channels);
    forall i | 0 <= i < |b.channels| ensures fitted[i] in g.channels {
      assert fitted[i] in multiset(fitted);
    }
  }

  // ---------------------------------------------------------------------
  // A quad through the builder
  // ---------------------------------------------------------------------

  /**
   * One quad given as a flat buffer becomes one polygon whose last index is
   * written complemented, with four distinct edges.
   */
  lemma QuadThroughBuilder(scene: SceneId)
    ensures WithIndicesOf(NewBuilder(scene), Some([0, 1, 2, 3]), Quad)
            == Ok(NewBuilder(scene).(polygons := [[0, 1, 2, 3]]))
    ensures Encode([[0, 1, 2, 3]]) == [0, 1, 2, -4]
    ensures FirstPositions(EdgeKeys([[0, 1, 2, 3]])) == [0, 1, 2, 3]
  {
    var quad: Polygon := [0, 1, 2, 3];
    assert Flatten([quad]) == quad;
    WithIndicesRoundTrip(NewBuilder(scene), [quad], 4);
    assert Encode([quad]) == EncodePolygon(quad) + Encode([]);
    QuadHasFourEdges();
  }
}
