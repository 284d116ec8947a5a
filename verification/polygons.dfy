/**
 * The polygon index buffer of a Geometry and its flat wire encoding
 * (`PolygonVertexIndex`): every polygon's indices in order, the last one
 * bitwise-complemented to mark where the polygon ends.
 */
module PolygonCodec {
  import opened Wrappers
  import opened Values

  type Polygon = seq<Int32>

  /** C#'s `~i` on a 32-bit int; stays in range and is its own inverse. */
  function Complement(i: Int32): (r: Int32)
    ensures r as int == -(i as int) - 1
    ensures i >= 0 <==> r < 0
  {
    (-(i as int) - 1) as Int32
  }

  /** `IndexCount`: the total number of polygon-vertex indices. */
  function IndexCount(polys: seq<Polygon>): nat
  {
    if |polys| == 0 then 0 else |polys[0]| + IndexCount(polys[1..])
  }

  lemma {:induction false} IndexCountAppend(a: seq<Polygon>, b: seq<Polygon>)
    ensures IndexCount(a + b) == IndexCount(a) + IndexCount(b)
  {
    if |a| == 0 {
      assert a + b == b;
    } else {
      assert (a + b)[1..] == a[1..] + b;
      IndexCountAppend(a[1..], b);
    }
  }

  /** The contribution of one polygon: nothing for an empty one. */
  function EncodePolygon(p: Polygon): seq<Int32>
  {
    if |p| == 0 then [] else p[..|p| - 1] + [Complement(p[|p| - 1])]
  }

  /** The flat `PolygonVertexIndex` buffer. */
  function Encode(polys: seq<Polygon>): seq<Int32>
  {
    if |polys| == 0 then [] else EncodePolygon(polys[0]) + Encode(polys[1..])
  }

  /** The flat buffer holds exactly `IndexCount` entries. */
  lemma {:induction false} EncodeLength(polys: seq<Polygon>)
    ensures |Encode(polys)| == IndexCount(polys)
  {
    if |polys| > 0 {
      EncodeLength(polys[1..]);
    }
  }

  lemma {:induction false} EncodeAppend(a: seq<Polygon>, b: seq<Polygon>)
    ensures Encode(a + b) == Encode(a) + Encode(b)
  {
    if |a| == 0 {
      assert a + b == b;
    } else {
      assert (a + b)[1..] == a[1..] + b;
      EncodeAppend(a[1..], b);
    }
  }

  /**
   * Where polygon `i` lands in the flat buffer: at offset `IndexCount(polys[..i])`
   * its first n-1 indices verbatim, then the complement of its last index.
   */
  lemma {:induction false} EncodeLayout(polys: seq<Polygon>, i: nat, j: nat)
    requires i < |polys| && j < |polys[i]|
    ensures IndexCount(polys[..i]) + j < |Encode(polys)|
    ensures Encode(polys)[IndexCount(polys[..i]) + j]
            == (if j < |polys[i]| - 1 then polys[i][j] else Complement(polys[i][j]))
  {
    EncodeLength(polys[..i]);
    EncodeSplit(polys, i);
    EncodePolygonAt(polys[i], j);
  }

  lemma EncodePolygonAt(p: Polygon, j: nat)
    requires j < |p|
    ensures |EncodePolygon(p)| == |p|
    ensures EncodePolygon(p)[j] == (if j < |p| - 1 then p[j] else Complement(p[j]))
  {
  }

  /** The buffer around polygon `i`: the prefix's encoding, polygon `i`'s, the suffix's. */
  lemma EncodeSplit(polys: seq<Polygon>, i: nat)
    requires i < |polys|
    ensures Encode(polys) == Encode(polys[..i]) + EncodePolygon(polys[i]) + Encode(polys[i + 1..])
  {
    var front, back := polys[..i + 1], polys[i + 1..];
    assert Encode(front) == Encode(polys[..i]) + EncodePolygon(polys[i]) by {
      PrefixStep(polys, i);
    }
    assert Encode(polys) == Encode(front) + Encode(back) by {
      assert front + back == polys;
      EncodeAppend(front, back);
    }
  }

  /** One polygon more in the prefix: the counts and the encoding grow by that polygon. */
  lemma PrefixStep(polys: seq<Polygon>, i: nat)
    requires i < |polys|
    ensures IndexCount(polys[..i + 1]) == IndexCount(polys[..i]) + |polys[i]|
    ensures Encode(polys[..i + 1]) == Encode(polys[..i]) + EncodePolygon(polys[i])
    ensures IndexCount(polys[..i + 1]) <= IndexCount(polys)
  {
    assert polys[..i + 1] == polys[..i] + [polys[i]];
    IndexCountAppend(polys[..i], [polys[i]]);
    EncodeAppend(polys[..i], [polys[i]]);
    assert Encode([polys[i]]) == EncodePolygon(polys[i]) + Encode([]);
    assert IndexCount([polys[i]]) == |polys[i]| + IndexCount([]);
    IndexCountAppend(polys[..i + 1], polys[i + 1..]);
    assert polys[..i + 1] + polys[i + 1..] == polys;
  }

  /**
   * The AsElement loop that fills `PolygonVertexIndex`, polygon by polygon;
   * the buffer written so far is `indices`, its length the write cursor `k`.
   */
  method EncodeIndices(polys: seq<Polygon>) returns (indices: seq<Int32>)
    ensures |indices| == IndexCount(polys)
    ensures indices == Encode(polys)
  {
    EncodeLength(polys);
    indices := [];
    var i := 0;
    while i < |polys|
      invariant 0 <= i <= |polys|
      invariant indices == Encode(polys[..i])
    {
      PrefixStep(polys, i);
      indices := WritePolygon(indices, polys[i]);
      i := i + 1;
    }
    assert polys[..i] == polys;
  }

  /** One iteration of that loop: skip an empty polygon, else copy and complement the last. */
  method WritePolygon(written: seq<Int32>, indexer: Polygon) returns (indices: seq<Int32>)
    ensures indices == written + EncodePolygon(indexer)
  {
    indices := written;
    var counter := |indexer| - 1;
    if counter < 0 {
      return;
    }
    var j := 0;
    while j < counter
      invariant 0 <= j <= counter
      invariant indices == written + indexer[..j]
    {
      assert indexer[..j + 1] == indexer[..j] + [indexer[j]];
      indices := indices + [indexer[j]];
      j := j + 1;
    }
    indices := indices + [Complement(indexer[counter])];
  }

  /** Position of the first negative (complemented) entry. */
  function FirstNegative(s: seq<Int32>): (r: Option<nat>)
    ensures r.Some? ==> r.value < |s| && s[r.value] < 0
    ensures r.Some? ==> forall i :: 0 <= i < r.value ==> s[i] >= 0
    ensures r.None? ==> forall i :: 0 <= i < |s| ==> s[i] >= 0
  {
    if |s| == 0 then None
    else if s[0] < 0 then Some(0)
    else match FirstNegative(s[1..])
      case None => None
      case Some(i) => Some(i + 1)
  }

  /**
   * The reader's side: split the flat buffer after each negative entry and
   * re-complement it; `None` when indices trail after the last boundary.
   */
  function Decode(flat: seq<Int32>): Option<seq<Polygon>>
    decreases |flat|
  {
    if |flat| == 0 then Some([])
    else match FirstNegative(flat)
      case None => None
      case Some(k) =>
        match Decode(flat[k + 1..])
        case None => None
        case Some(rest) => Some([flat[..k] + [Complement(flat[k])]] + rest)
  }

  predicate NonNegative(polys: seq<Polygon>) {
    forall i, j :: 0 <= i < |polys| && 0 <= j < |polys[i]| ==> polys[i][j] >= 0
  }

  /** The polygons that survive encoding: empty ones contribute nothing. */
  function NonEmpty(polys: seq<Polygon>): (r: seq<Polygon>)
    ensures forall i :: 0 <= i < |r| ==> |r[i]| > 0
    ensures |r| <= |polys|
  {
    if |polys| == 0 then []
    else if |polys[0]| == 0 then NonEmpty(polys[1..])
    else [polys[0]] + NonEmpty(polys[1..])
  }

  lemma DecodeOnePolygon(p: Polygon, rest: seq<Int32>)
    requires |p| > 0
    requires forall j :: 0 <= j < |p| ==> p[j] >= 0
    ensures FirstNegative(EncodePolygon(p) + rest) == Some(|p| - 1)
  {
    var e := EncodePolygon(p) + rest;
    var n := |p| - 1;
    assert e[n] == Complement(p[n]) && e[n] < 0;
    assert forall i :: 0 <= i < n ==> e[i] == p[i];
    FirstNegativeIsFirst(e, n);
  }

  lemma FirstNegativeIsFirst(s: seq<Int32>, n: nat)
    requires n < |s| && s[n] < 0
    requires forall i :: 0 <= i < n ==> s[i] >= 0
    ensures FirstNegative(s) == Some(n)
  {
    match FirstNegative(s)
    case None =>
    case Some(k) =>
  }

  /** Decoding past one encoded non-empty polygon yields that polygon first. */
  lemma DecodeCons(p: Polygon, rest: seq<Int32>)
    requires |p| > 0
    requires forall j :: 0 <= j < |p| ==> p[j] >= 0
    ensures Decode(EncodePolygon(p) + rest)
            == (if Decode(rest).None? then None else Some([p] + Decode(rest).value))
  {
    var flat := EncodePolygon(p) + rest;
    var n := |p| - 1;
    DecodeOnePolygon(p, rest);
    assert flat[n + 1..] == rest;
    assert flat[..n] == p[..n];
    assert p == p[..n] + [p[n]];
    assert flat[..n] + [Complement(flat[n])] == p;
  }

  lemma NonNegativeTail(polys: seq<Polygon>)
    requires |polys| > 0 && NonNegative(polys)
    ensures NonNegative(polys[1..])
    ensures forall j :: 0 <= j < |polys[0]| ==> polys[0][j] >= 0
  {
    forall i, j | 0 <= i < |polys[1..]| && 0 <= j < |polys[1..][i]|
      ensures polys[1..][i][j] >= 0
    {
      assert polys[1..][i] == polys[i + 1];
    }
  }

  /**
   * Round trip: with non-negative indices, decoding the encoding gives back
   * exactly the non-empty polygons, in order.
   */
  lemma {:induction false} DecodeEncode(polys: seq<Polygon>)
    requires NonNegative(polys)
    ensures Decode(Encode(polys)) == Some(NonEmpty(polys))
  {
    if |polys| > 0 {
      NonNegativeTail(polys);
      DecodeEncode(polys[1..]);
      if |polys[0]| > 0 {
        DecodeCons(polys[0], Encode(polys[1..]));
      } else {
        assert Encode(polys) == Encode(polys[1..]);
      }
    }
  }

  /** Without empty polygons (the builder's guarantee) the round trip is exact. */
  lemma {:induction false} DecodeEncodeExact(polys: seq<Polygon>)
    requires NonNegative(polys)
    requires forall i :: 0 <= i < |polys| ==> |polys[i]| > 0
    ensures Decode(Encode(polys)) == Some(polys)
  {
    DecodeEncode(polys);
    NonEmptyIdentity(polys);
  }

  lemma {:induction false} NonEmptyIdentity(polys: seq<Polygon>)
    requires forall i :: 0 <= i < |polys| ==> |polys[i]| > 0
    ensures NonEmpty(polys) == polys
  {
    if |polys| > 0 {
      assert |polys[0]| > 0;
      NonEmptyIdentity(polys[1..]);
    }
  }
}
