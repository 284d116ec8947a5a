/**
 * Per-polygon-vertex attribute channels of a Geometry (normals, tangents,
 * binormals, colours, UVs and the synthetic material channel): their
 * ordering, resizing and the names they are written under.
 */
module Channels {
  import opened Wrappers
  import opened Values

  /** `Geometry.ChannelType`, in declaration order. */
  datatype ChannelType = Normal | Tangent | Binormal | Color | TexCoord | Material

  /** `Geometry.ComponentType`: the element type of a channel's buffer. */
  datatype ComponentType = Int | Double | Double2 | Double3 | Double4

  /** The enum's underlying value, which `CompareTo` orders by. */
  function Ordinal(t: ChannelType): (r: nat)
    ensures r < 6
  {
    match t
    case Normal => 0
    case Tangent => 1
    case Binormal => 2
    case Color => 3
    case TexCoord => 4
    case Material => 5
  }

  lemma OrdinalInjective(s: ChannelType, t: ChannelType)
    ensures Ordinal(s) == Ordinal(t) <==> s == t
  {
  }

  /** One buffer element; a channel's buffer is a typed array of one of these shapes. */
  datatype Cell =
    | IntCell(i: Int32)
    | DoubleCell(d: real)
    | Vec2Cell(v2: Vector2)
    | Vec3Cell(v3: Vector3)
    | Vec4Cell(v4: Vector4)

  /** The component type a cell belongs to. */
  function CellType(c: Cell): ComponentType {
    match c
    case IntCell(_) => Int
    case DoubleCell(_) => Double
    case Vec2Cell(_) => Double2
    case Vec3Cell(_) => Double3
    case Vec4Cell(_) => Double4
  }

  /** `default(T)` for the element type of a buffer: what `Array.Resize` pads with. */
  function DefaultCell(size: ComponentType): (r: Cell)
    ensures CellType(r) == size
  {
    match size
    case Int => IntCell(0)
    case Double => DoubleCell(0.0)
    case Double2 => Vec2Cell(Vector2(0.0, 0.0))
    case Double3 => Vec3Cell(Vector3(0.0, 0.0, 0.0))
    case Double4 => Vec4Cell(Vector4(0.0, 0.0, 0.0, 0.0))
  }

  /** `Geometry.Channel`. The synthetic material channel's null buffer is the empty one. */
  datatype Channel = Channel(layer: Int32, name: string, kind: ChannelType,
                             size: ComponentType, buffer: seq<Cell>)

  /** The channel constructor: a null name becomes the empty string. */
  function NewChannel(layer: Int32, name: Option<string>, kind: ChannelType,
                      size: ComponentType, buffer: seq<Cell>): (r: Channel)
    ensures r.layer == layer && r.kind == kind && r.size == size && r.buffer == buffer
    ensures r.name == OrEmpty(name)
  {
    Channel(layer, OrEmpty(name), kind, size, buffer)
  }

  /** Every cell of the buffer has the channel's declared component type. */
  ghost predicate WellTyped(c: Channel) {
    forall i :: 0 <= i < |c.buffer| ==> CellType(c.buffer[i]) == c.size
  }

  // ---------------------------------------------------------------------
  // Ordering
  // ---------------------------------------------------------------------

  /**
   * The order `ChannelSorter` induces, as one integer: channel type first,
   * layer second. The layer is shifted into 0 .. 2^32 - 1.
   */
  function Key(c: Channel): int {
    Ordinal(c.kind) * 0x1_0000_0000 + (c.layer as int + 0x8000_0000)
  }

  /** Two channels tie in the order exactly when they share type and layer. */
  lemma KeyInjective(a: Channel, b: Channel)
    ensures Key(a) == Key(b) <==> a.kind == b.kind && a.layer == b.layer
  {
    OrdinalInjective(a.kind, b.kind);
  }

  /** `Int32.CompareTo` / `Enum.CompareTo`: -1, 0 or 1. */
  function CompareTo(x: int, y: int): (r: int)
    ensures r == -1 || r == 0 || r == 1
    ensures r < 0 <==> x < y
    ensures r == 0 <==> x == y
  {
    if x < y then -1 else if x == y then 0 else 1
  }

  /** `Geometry.ChannelSorter`: by type, ties broken by layer. */
  function ChannelSorter(a: Channel, b: Channel): (r: int)
    ensures r == -1 || r == 0 || r == 1
    ensures r < 0 <==> Key(a) < Key(b)
    ensures r == 0 <==> Key(a) == Key(b)
    ensures r > 0 <==> Key(a) > Key(b)
  {
    var byType := CompareTo(Ordinal(a.kind), Ordinal(b.kind));
    if byType == 0 then CompareTo(a.layer as int, b.layer as int) else byType
  }

  /** Neighbours are in comparer order. */
  predicate Sorted(cs: seq<Channel>) {
    forall i :: 0 <= i < |cs| - 1 ==> Key(cs[i]) <= Key(cs[i + 1])
  }

  /** No two channels share a (type, layer) pair. */
  predicate UniqueKeys(cs: seq<Channel>) {
    forall i, j :: 0 <= i < j < |cs| ==> Key(cs[i]) != Key(cs[j])
  }

  /** Sortedness of neighbours gives sortedness of every pair. */
  lemma {:induction false} SortedPairwise(cs: seq<Channel>)
    requires Sorted(cs)
    ensures forall i, j :: 0 <= i <= j < |cs| ==> Key(cs[i]) <= Key(cs[j])
  {
    if |cs| > 1 {
      var tail := cs[1..];
      assert Sorted(tail) by {
        forall i | 0 <= i < |tail| - 1 ensures Key(tail[i]) <= Key(tail[i + 1]) {
          assert tail[i] == cs[i + 1] && tail[i + 1] == cs[i + 2];
        }
      }
      SortedPairwise(tail);
      forall i, j | 0 <= i <= j < |cs| ensures Key(cs[i]) <= Key(cs[j]) {
        if 0 < i {
          assert Key(tail[i - 1]) <= Key(tail[j - 1]);
        } else if 0 < j {
          assert Key(cs[0]) <= Key(cs[1]) == Key(tail[0]) && Key(tail[0]) <= Key(tail[j - 1]);
        }
      }
    }
  }

  /** One insertion step: places `c` before the first channel not below it. */
  function InsertSorted(c: Channel, cs: seq<Channel>): (r: seq<Channel>)
    requires Sorted(cs)
    ensures Sorted(r)
    ensures multiset(r) == multiset(cs) + multiset{c}
    ensures |r| == |cs| + 1
    ensures r[0] == c || (|cs| > 0 && r[0] == cs[0])
  {
    if |cs| == 0 || Key(c) <= Key(cs[0]) then [c] + cs
    else
      var rest := InsertSorted(c, cs[1..]);
      assert cs == [cs[0]] + cs[1..];
      [cs[0]] + rest
  }

  /**
   * `InternalSortChannels`: the channel list in comparer order. `List.Sort`
   * is not stable, so only "sorted permutation" is promised; SortedUnique
   * shows this pins the result down when the keys are unique.
   */
  function SortChannels(cs: seq<Channel>): (r: seq<Channel>)
    ensures Sorted(r)
    ensures multiset(r) == multiset(cs)
    ensures |r| == |cs|
  {
    if |cs| == 0 then []
    else
      assert cs == [cs[0]] + cs[1..];
      InsertSorted(cs[0], SortChannels(cs[1..]))
  }

  /** Unique keys survive a permutation. */
  lemma UniqueKeysPermutation(a: seq<Channel>, b: seq<Channel>)
    requires multiset(a) == multiset(b) && UniqueKeys(a)
    ensures UniqueKeys(b)
  {
    forall i, j | 0 <= i < j < |b|
      ensures Key(b[i]) != Key(b[j])
    {
      assert b[i] in multiset(a) && b[j] in multiset(a);
      var p :| 0 <= p < |a| && a[p] == b[i];
      var q :| 0 <= q < |a| && a[q] == b[j];
      if Key(b[i]) == Key(b[j]) {
        assert p == q;
        UniqueCount(a, p);
        TwiceCounted(b, i, j);
        assert false;
      }
    }
  }

  /** Two equal entries at different positions count twice. */
  lemma TwiceCounted<T>(s: seq<T>, i: nat, j: nat)
    requires i < j < |s| && s[i] == s[j]
    ensures multiset(s)[s[i]] >= 2
  {
    assert s == s[..i] + [s[i]] + s[i + 1..j] + [s[j]] + s[j + 1..];
  }

  /** Under unique keys, a channel occurs once. */
  lemma UniqueCount(a: seq<Channel>, p: nat)
    requires UniqueKeys(a) && p < |a|
    ensures multiset(a)[a[p]] == 1
  {
    assert a == a[..p] + [a[p]] + a[p + 1..];
    forall k | 0 <= k < |a| && k != p
      ensures a[k] != a[p]
    {
      if k < p { assert Key(a[k]) != Key(a[p]); } else { assert Key(a[p]) != Key(a[k]); }
    }
    assert a[p] !in a[..p] by {
      forall k | 0 <= k < p ensures a[..p][k] != a[p] { assert a[..p][k] == a[k]; }
    }
    var after := a[p + 1..];
    assert a[p] !in after by {
      forall k | 0 <= k < |after| ensures after[k] != a[p] { assert after[k] == a[p + 1 + k]; }
    }
  }

  lemma SortedTail(cs: seq<Channel>)
    requires Sorted(cs) && |cs| > 0
    ensures Sorted(cs[1..])
  {
    var tail := cs[1..];
    forall i | 0 <= i < |tail| - 1 ensures Key(tail[i]) <= Key(tail[i + 1]) {
      assert tail[i] == cs[i + 1] && tail[i + 1] == cs[i + 2];
    }
  }

  lemma UniqueKeysTail(cs: seq<Channel>)
    requires UniqueKeys(cs) && |cs| > 0
    ensures UniqueKeys(cs[1..])
  {
    var tail := cs[1..];
    forall i, l | 0 <= i < l < |tail| ensures Key(tail[i]) != Key(tail[l]) {
      assert tail[i] == cs[i + 1] && tail[l] == cs[l + 1];
    }
  }

  /** The smallest channel of two sorted arrangements of the same channels is the same. */
  lemma SortedSameHead(a: seq<Channel>, b: seq<Channel>)
    requires Sorted(a) && Sorted(b) && multiset(a) == multiset(b) && UniqueKeys(a) && |a| > 0
    ensures |b| > 0 && a[0] == b[0]
  {
    assert |b| > 0 by { assert |b| == |multiset(b)| == |multiset(a)| == |a|; }
    SortedPairwise(a);
    SortedPairwise(b);
    assert a[0] in multiset(b);
    var j :| 0 <= j < |b| && b[j] == a[0];
    assert b[0] in multiset(a);
    var k :| 0 <= k < |a| && a[k] == b[0];
    assert Key(a[0]) <= Key(a[k]) == Key(b[0]) <= Key(b[j]) == Key(a[0]);
  }

  lemma MultisetTail<T>(s: seq<T>)
    requires |s| > 0
    ensures multiset(s[1..]) == multiset(s) - multiset{s[0]}
  {
    assert s == [s[0]] + s[1..];
  }

  /**
   * Two sorted arrangements of the same channels with unique (type, layer)
   * pairs are the same list: an unstable sort cannot reorder them.
   */
  lemma {:induction false} SortedUnique(a: seq<Channel>, b: seq<Channel>)
    requires Sorted(a) && Sorted(b) && multiset(a) == multiset(b) && UniqueKeys(a)
    ensures a == b
  {
    if |a| == 0 {
      assert |b| == |multiset(b)|;
    } else {
      SortedSameHead(a, b);
      MultisetTail(a);
      MultisetTail(b);
      SortedTail(a);
      SortedTail(b);
      UniqueKeysTail(a);
      SortedUnique(a[1..], b[1..]);
      assert a == [a[0]] + a[1..] && b == [b[0]] + b[1..];
    }
  }

  /** With unique keys, any sorted permutation is the one SortChannels yields. */
  lemma SortDeterminate(cs: seq<Channel>, r: seq<Channel>)
    requires UniqueKeys(cs) && Sorted(r) && multiset(r) == multiset(cs)
    ensures r == SortChannels(cs)
  {
    UniqueKeysPermutation(cs, r);
    SortedUnique(r, SortChannels(cs));
  }

  // ---------------------------------------------------------------------
  // Resizing
  // ---------------------------------------------------------------------

  /** `Array.Resize`: truncates, or pads with `pad`, to exactly `n` cells. */
  function Resize(buf: seq<Cell>, n: nat, pad: Cell): (r: seq<Cell>)
    ensures |r| == n
    ensures forall i :: 0 <= i < n ==> r[i] == (if i < |buf| then buf[i] else pad)
  {
    if n <= |buf| then buf[..n] else buf + seq(n - |buf|, _ => pad)
  }

  /** Resizing to the current length changes nothing. */
  lemma ResizeSameLength(buf: seq<Cell>, pad: Cell)
    ensures Resize(buf, |buf|, pad) == buf
  {
  }

  /** Resizing twice to the same length is resizing once. */
  lemma ResizeIdempotent(buf: seq<Cell>, n: nat, pad: Cell)
    ensures Resize(Resize(buf, n, pad), n, pad) == Resize(buf, n, pad)
  {
  }

  /** Padding with the default of the declared type keeps a buffer well typed. */
  lemma ResizeWellTyped(c: Channel, n: nat)
    requires WellTyped(c)
    ensures WellTyped(c.(buffer := Resize(c.buffer, n, DefaultCell(c.size))))
  {
  }

  /**
   * The BuildGeometry step for one channel: keep it when its buffer already
   * matches the index count, otherwise copy it with the buffer resized.
   */
  function FitChannel(c: Channel, indexCount: nat): (r: Channel)
    ensures r.layer == c.layer && r.name == c.name && r.kind == c.kind && r.size == c.size
    ensures |r.buffer| == indexCount
    ensures forall i :: 0 <= i < indexCount ==>
              r.buffer[i] == (if i < |c.buffer| then c.buffer[i] else DefaultCell(c.size))
    ensures Key(r) == Key(c)
  {
    if |c.buffer| == indexCount then c
    else Channel(c.layer, c.name, c.kind, c.size, Resize(c.buffer, indexCount, DefaultCell(c.size)))
  }

  // ---------------------------------------------------------------------
  // Element names
  // ---------------------------------------------------------------------

  /** The component type the builder gives each channel kind (the material channel is written as ints). */
  function BuilderSize(t: ChannelType): ComponentType {
    match t
    case Normal => Double3
    case Tangent => Double4
    case Binormal => Double4
    case Color => Double4
    case TexCoord => Double2
    case Material => Int
  }

  predicate BuilderShaped(c: Channel) {
    c.size == BuilderSize(c.kind)
  }

  /** A channel is written with a separate W array when four-wide and not a colour. */
  predicate HasWeights(c: Channel) {
    c.size == Double4 && c.kind != Color
  }

  /** The layer-element node name of each channel type. */
  function ElementName(t: ChannelType): string {
    match t
    case Normal => "LayerElementNormal"
    case Tangent => "LayerElementTangent"
    case Binormal => "LayerElementBinormal"
    case Color => "LayerElementColor"
    case TexCoord => "LayerElementUV"
    case Material => "LayerElementMaterial"
  }

  /** The name of the node holding the channel's values. */
  function ArrayName(t: ChannelType): string
    requires t != Material
  {
    match t
    case Normal => "Normals"
    case Tangent => "Tangents"
    case Binormal => "Binormals"
    case Color => "Colors"
    case TexCoord => "UV"
  }

  /** The name of the node holding the W components; empty for colours and UVs. */
  function WeightName(t: ChannelType): string
    requires t != Material
  {
    match t
    case Normal => "NormalsW"
    case Tangent => "TangentsW"
    case Binormal => "BinormalsW"
    case Color => ""
    case TexCoord => ""
  }

  /** Different channel types are written under different element names. */
  lemma ElementNameInjective(s: ChannelType, t: ChannelType)
    ensures ElementName(s) == ElementName(t) <==> s == t
  {
  }

  /** Only the material element is named `LayerElementMaterial`. */
  lemma MaterialElementName(t: ChannelType)
    ensures ElementName(t) == "LayerElementMaterial" <==> t == Material
  {
  }
}
