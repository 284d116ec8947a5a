/**
 * The Geometry object: vertices, polygons, submeshes, channels and the two
 * deformer lists (blend shapes and skins) with their editing operations,
 * the connections a geometry emits and how it resolves incoming links.
 */
module Geometries {
  import opened Wrappers
  import opened Values
  import opened Scene
  import opened Seqs
  import opened PolygonCodec
  import opened Channels

  /** `Geometry.SubMesh`: a polygon range drawn with one material. */
  datatype SubMesh = SubMesh(start: Int32, count: Int32, material: Int32)

  datatype Geometry = Geometry(
    self: Obj,
    vertices: seq<Vector3>,
    indices: seq<Polygon>,
    subMeshes: seq<SubMesh>,
    channels: seq<Channel>,
    shapes: seq<Obj>,
    skins: seq<Obj>)

  /** The two deformer lists, which share one set of editing rules. */
  datatype DeformerList = BlendShapes | Skins

  function Deformers(g: Geometry, which: DeformerList): seq<Obj> {
    match which
    case BlendShapes => g.shapes
    case Skins => g.skins
  }

  /** `g` with one deformer list replaced and everything else kept. */
  function WithDeformers(g: Geometry, which: DeformerList, l: seq<Obj>): (r: Geometry)
    ensures Deformers(r, which) == l
    ensures which == BlendShapes ==> r.skins == g.skins
    ensures which == Skins ==> r.shapes == g.shapes
    ensures r.self == g.self && r.indices == g.indices && r.subMeshes == g.subMeshes
    ensures r.channels == g.channels && r.vertices == g.vertices
  {
    match which
    case BlendShapes => g.(shapes := l)
    case Skins => g.(skins := l)
  }

  /** The object type a deformer list holds. */
  function DeformerType(which: DeformerList): TypeTag {
    match which
    case BlendShapes => BlendShapeType
    case Skins => SkinType
  }

  /** `InternalGetIndexCount`: the number of polygon-vertex indices. */
  function GetIndexCount(g: Geometry): (r: nat)
    ensures r == |Encode(g.indices)|
  {
    EncodeLength(g.indices);
    IndexCount(g.indices)
  }

  /**
   * `AddBlendShapeAt` / `AddSkinAt` on the list itself: null is ignored; a
   * deformer from a scene other than `owner`, then an index outside 0..Count,
   * is an error; otherwise the deformer is inserted there, duplicates allowed.
   */
  function InsertDeformer(l: seq<Obj>, owner: SceneId, d: Option<Obj>, index: int): (r: Result<seq<Obj>>)
    ensures d.None? ==> r == Ok(l)
    ensures d.Some? && d.value.scene != owner ==> r == Err(CrossScene)
    ensures d.Some? && d.value.scene == owner && !(0 <= index <= |l|) ==> r == Err(OutOfRange)
    ensures r.Err? ==> d.Some? && (d.value.scene != owner || !(0 <= index <= |l|))
    ensures r.Ok? && d.Some? ==>
              |r.value| == |l| + 1 && r.value[index] == d.value
              && r.value[..index] == l[..index] && r.value[index + 1..] == l[index..]
  {
    if d.None? then Ok(l)
    else if d.value.scene != owner then Err(CrossScene)
    else if index < 0 || index > |l| then Err(OutOfRange)
    else Ok(InsertAt(l, index, d.value))
  }

  /**
   * `RemoveBlendShape` / `RemoveSkin` on the list itself: null and foreign
   * deformers are ignored; otherwise the first occurrence, if any, goes.
   */
  function EraseDeformer(l: seq<Obj>, owner: SceneId, d: Option<Obj>): (r: seq<Obj>)
    ensures d.None? || d.value.scene != owner || d.value !in l ==> r == l
    ensures d.Some? && d.value.scene == owner && d.value in l ==>
              var i := IndexOf(l, d.value).value;
              r == l[..i] + l[i + 1..] && d.value !in l[..i] && l[i] == d.value
  {
    if d.None? || d.value.scene != owner then l
    else
      match IndexOf(l, d.value)
      case None => l
      case Some(i) => RemoveAt(l, i)
  }

  /** `RemoveBlendShapeAt` / `RemoveSkinAt` on the list itself: the index must name an entry. */
  function EraseDeformerAt(l: seq<Obj>, index: int): (r: Result<seq<Obj>>)
    ensures r.Err? <==> !(0 <= index < |l|)
    ensures r.Err? ==> r.error == OutOfRange
    ensures r.Ok? ==> r.value == l[..index] + l[index + 1..]
  {
    if index < 0 || index >= |l| then Err(OutOfRange) else Ok(RemoveAt(l, index))
  }

  /** Inserting and then removing at the same index restores the list. */
  lemma InsertThenEraseAt(l: seq<Obj>, owner: SceneId, d: Obj, index: int)
    requires d.scene == owner && 0 <= index <= |l|
    ensures InsertDeformer(l, owner, Some(d), index).Ok?
    ensures EraseDeformerAt(InsertDeformer(l, owner, Some(d), index).value, index) == Ok(l)
  {
    var l1 := InsertDeformer(l, owner, Some(d), index).value;
    assert l1[..index] + l1[index + 1..] == l;
  }

  /** Appending a deformer that was not yet listed and then removing it restores the list. */
  lemma AppendThenErase(l: seq<Obj>, owner: SceneId, d: Obj)
    requires d.scene == owner && d !in l
    ensures InsertDeformer(l, owner, Some(d), |l|) == Ok(l + [d])
    ensures EraseDeformer(l + [d], owner, Some(d)) == l
  {
    assert InsertDeformer(l, owner, Some(d), |l|).value == l + [d];
    IndexOfAppend(l, d);
    assert (l + [d])[..|l|] == l;
  }

  lemma {:induction false} IndexOfAppend<T>(l: seq<T>, x: T)
    requires x !in l
    ensures IndexOf(l + [x], x) == Some(|l|)
  {
    if |l| > 0 {
      assert (l + [x])[1..] == l[1..] + [x];
      IndexOfAppend(l[1..], x);
    }
  }

  /** `AddBlendShapeAt` / `AddSkinAt` on the geometry. */
  function AddDeformerAt(g: Geometry, which: DeformerList, d: Option<Obj>, index: int): (r: Result<Geometry>)
    ensures r.Err? <==> InsertDeformer(Deformers(g, which), g.self.scene, d, index).Err?
    ensures r.Err? ==> r.error == InsertDeformer(Deformers(g, which), g.self.scene, d, index).error
    ensures r.Ok? ==> r.value == WithDeformers(g, which, InsertDeformer(Deformers(g, which), g.self.scene, d, index).value)
  {
    match InsertDeformer(Deformers(g, which), g.self.scene, d, index)
    case Err(e) => Err(e)
    case Ok(l) => Ok(WithDeformers(g, which, l))
  }

  /** `AddBlendShape` / `AddSkin`: insertion at the end; only a foreign deformer throws. */
  function AddDeformer(g: Geometry, which: DeformerList, d: Option<Obj>): (r: Result<Geometry>)
    ensures d.None? ==> r == Ok(g)
    ensures r.Err? <==> d.Some? && d.value.scene != g.self.scene
    ensures r.Err? ==> r.error == CrossScene
    ensures r.Ok? && d.Some? ==> r.value == WithDeformers(g, which, Deformers(g, which) + [d.value])
  {
    var l := Deformers(g, which);
    var r := AddDeformerAt(g, which, d, |l|);
    assert d.Some? && d.value.scene == g.self.scene ==> InsertAt(l, |l|, d.value) == l + [d.value];
    assert d.None? ==> WithDeformers(g, which, l) == g;
    r
  }

  /**
   * `RemoveBlendShape` / `RemoveSkin` on the geometry: the other list and
   * everything else stay; the chosen list loses the first occurrence of a
   * same-scene deformer it holds and is otherwise unchanged.
   */
  function RemoveDeformer(g: Geometry, which: DeformerList, d: Option<Obj>): (r: Geometry)
    ensures r == WithDeformers(g, which, EraseDeformer(Deformers(g, which), g.self.scene, d))
    ensures which == BlendShapes ==> r.skins == g.skins
    ensures which == Skins ==> r.shapes == g.shapes
    ensures r.self == g.self && r.indices == g.indices && r.subMeshes == g.subMeshes
    ensures r.channels == g.channels && r.vertices == g.vertices
    ensures d.None? || d.value.scene != g.self.scene || d.value !in Deformers(g, which) ==> r == g
    ensures d.Some? && d.value.scene == g.self.scene && d.value in Deformers(g, which) ==>
              var l := Deformers(g, which);
              var i := IndexOf(l, d.value).value;
              Deformers(r, which) == l[..i] + l[i + 1..] && d.value !in l[..i] && l[i] == d.value
  {
    WithDeformers(g, which, EraseDeformer(Deformers(g, which), g.self.scene, d))
  }

  /** `RemoveBlendShapeAt` / `RemoveSkinAt` on the geometry. */
  function RemoveDeformerAt(g: Geometry, which: DeformerList, index: int): (r: Result<Geometry>)
    ensures r.Err? <==> !(0 <= index < |Deformers(g, which)|)
    ensures r.Err? ==> r.error == OutOfRange
    ensures r.Ok? ==> r.value == WithDeformers(g, which, EraseDeformerAt(Deformers(g, which), index).value)
  {
    match EraseDeformerAt(Deformers(g, which), index)
    case Err(e) => Err(e)
    case Ok(l) => Ok(WithDeformers(g, which, l))
  }

  /** The object link a deformer emits towards its geometry. */
  function DeformerLink(d: Obj, g: Geometry): Connection {
    Connection(ObjectLink, d.id, g.self.id, None)
  }

  /**
   * `GetConnections`: one object link per blend shape, then one per skin,
   * each from the deformer to this geometry.
   */
  function GetConnections(g: Geometry): (r: seq<Connection>)
    ensures |r| == |g.shapes| + |g.skins|
    ensures forall i :: 0 <= i < |r| ==>
              r[i] == DeformerLink((g.shapes + g.skins)[i], g)
    ensures forall i :: 0 <= i < |g.shapes| ==> r[i].source == g.shapes[i].id
    ensures forall i :: 0 <= i < |g.skins| ==> r[|g.shapes| + i].source == g.skins[i].id
  {
    Links(g.shapes, g) + Links(g.skins, g)
  }

  function Links(ds: seq<Obj>, g: Geometry): (r: seq<Connection>)
    ensures |r| == |ds|
    ensures forall i :: 0 <= i < |ds| ==> r[i] == DeformerLink(ds[i], g)
  {
    if |ds| == 0 then [] else [DeformerLink(ds[0], g)] + Links(ds[1..], g)
  }

  /**
   * `ResolveLink`: a Deformer-class linker of blend-shape type is added as a
   * blend shape, one of skin type as a skin; anything else is ignored.
   */
  function ResolveLink(g: Geometry, linker: Obj): (r: Result<Geometry>)
    ensures linker.cls != DeformerClass || (linker.typ != BlendShapeType && linker.typ != SkinType)
            ==> r == Ok(g)
    ensures linker.cls == DeformerClass && linker.typ == BlendShapeType
            ==> r == AddDeformer(g, BlendShapes, Some(linker))
    ensures linker.cls == DeformerClass && linker.typ == SkinType
            ==> r == AddDeformer(g, Skins, Some(linker))
  {
    if linker.cls == DeformerClass && linker.typ == BlendShapeType then AddDeformer(g, BlendShapes, Some(linker))
    else if linker.cls == DeformerClass && linker.typ == SkinType then AddDeformer(g, Skins, Some(linker))
    else Ok(g)
  }

  /** Resolves a sequence of linkers in order, stopping at the first exception. */
  function ResolveAll(g: Geometry, linkers: seq<Obj>): Result<Geometry>
    decreases |linkers|
  {
    if |linkers| == 0 then Ok(g)
    else match ResolveLink(g, linkers[0])
      case Err(e) => Err(e)
      case Ok(g') => ResolveAll(g', linkers[1..])
  }

  /** A deformer the geometry may hold in the given list. */
  predicate Fits(g: Geometry, which: DeformerList, d: Obj) {
    d.cls == DeformerClass && d.typ == DeformerType(which) && d.scene == g.self.scene
  }

  /** Resolving one fitting deformer appends it to its list. */
  lemma ResolveOne(g: Geometry, which: DeformerList, d: Obj)
    requires Fits(g, which, d)
    ensures ResolveLink(g, d) == Ok(WithDeformers(g, which, Deformers(g, which) + [d]))
  {
  }

  lemma WithDeformersTwice(g: Geometry, which: DeformerList, l: seq<Obj>, l': seq<Obj>)
    ensures WithDeformers(WithDeformers(g, which, l), which, l') == WithDeformers(g, which, l')
    ensures WithDeformers(g, which, Deformers(g, which)) == g
  {
  }

  /** Resolving well-typed same-scene deformers of one kind appends them in order. */
  lemma {:induction false} ResolveAppends(g: Geometry, which: DeformerList, ds: seq<Obj>)
    requires forall i :: 0 <= i < |ds| ==> Fits(g, which, ds[i])
    ensures ResolveAll(g, ds) == Ok(WithDeformers(g, which, Deformers(g, which) + ds))
    decreases |ds|
  {
    if |ds| == 0 {
      assert Deformers(g, which) + ds == Deformers(g, which);
      WithDeformersTwice(g, which, [], []);
    } else {
      var g1 := WithDeformers(g, which, Deformers(g, which) + [ds[0]]);
      ResolveStep(g, which, ds);
      FitsTail(g, g1, which, ds);
      ResolveAppends(g1, which, ds[1..]);
      AppendStep(g, which, g1, ds);
    }
  }

  lemma ResolveStep(g: Geometry, which: DeformerList, ds: seq<Obj>)
    requires |ds| > 0 && Fits(g, which, ds[0])
    ensures ResolveAll(g, ds) == ResolveAll(WithDeformers(g, which, Deformers(g, which) + [ds[0]]), ds[1..])
  {
    ResolveOne(g, which, ds[0]);
  }

  lemma FitsTail(g: Geometry, g1: Geometry, which: DeformerList, ds: seq<Obj>)
    requires |ds| > 0 && g1.self == g.self
    requires forall i :: 0 <= i < |ds| ==> Fits(g, which, ds[i])
    ensures forall i :: 0 <= i < |ds| - 1 ==> Fits(g1, which, ds[1..][i])
  {
    assert forall i :: 0 <= i < |ds| - 1 ==> ds[1..][i] == ds[i + 1];
  }

  lemma AppendStep(g: Geometry, which: DeformerList, g1: Geometry, ds: seq<Obj>)
    requires |ds| > 0 && g1 == WithDeformers(g, which, Deformers(g, which) + [ds[0]])
    ensures WithDeformers(g1, which, Deformers(g1, which) + ds[1..])
            == WithDeformers(g, which, Deformers(g, which) + ds)
  {
    assert Deformers(g1, which) + ds[1..] == Deformers(g, which) + ds;
    WithDeformersTwice(g, which, Deformers(g, which) + [ds[0]], Deformers(g, which) + ds);
  }

  /**
   * Connection round trip: resolving, into a geometry with empty deformer
   * lists, the objects named by `GetConnections` in emission order rebuilds
   * both lists exactly.
   */
  lemma ConnectionsRoundTrip(g: Geometry)
    requires forall i :: 0 <= i < |g.shapes| ==> Fits(g, BlendShapes, g.shapes[i])
    requires forall i :: 0 <= i < |g.skins| ==> Fits(g, Skins, g.skins[i])
    ensures ResolveAll(g.(shapes := [], skins := []), g.shapes + g.skins) == Ok(g)
  {
    var g0 := g.(shapes := [], skins := []);
    ResolveAppends(g0, BlendShapes, g.shapes);
    var g1 := g.(skins := []);
    assert WithDeformers(g0, BlendShapes, [] + g.shapes) == g1;
    ResolveAppends(g1, Skins, g.skins);
    assert WithDeformers(g1, Skins, [] + g.skins) == g;
    ResolveAllConcat(g0, g.shapes, g.skins);
  }

  lemma {:induction false} ResolveAllConcat(g: Geometry, a: seq<Obj>, b: seq<Obj>)
    ensures ResolveAll(g, a + b) == match ResolveAll(g, a)
                                    case Err(e) => Err(e)
                                    case Ok(g') => ResolveAll(g', b)
    decreases |a|
  {
    if |a| == 0 {
      assert a + b == b;
    } else {
      assert (a + b)[0] == a[0] && (a + b)[1..] == a[1..] + b;
      match ResolveLink(g, a[0]) {
        case Err(e) =>
        case Ok(g') => ResolveAllConcat(g', a[1..], b);
      }
    }
  }
}
