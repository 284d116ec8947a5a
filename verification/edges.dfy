/**
 * `RecalculateEdges`: one representative flat position per undirected edge,
 * the first one at which the edge is met, in discovery order.
 */
module EdgeDerivation {
  import opened Values
  import opened PolygonCodec

  const TwoTo32: int := 0x1_0000_0000

  /**
   * The 64-bit dictionary key of edge {a, b}: the larger index shifted into
   * the high word, OR-ed with the smaller one. The smaller index is widened
   * with sign extension, so a negative one fills the high word with ones and
   * the key is that index itself.
   */
  function EdgeKey(a: Int32, b: Int32): int
  {
    var lo := if a < b then a else b;
    var hi := if a < b then b else a;
    if lo < 0 then lo as int else (hi as int) * 0x1_0000_0000 + lo as int
  }

  /** The key does not depend on the direction of the edge, for any two indices. */
  lemma EdgeKeySymmetric(a: Int32, b: Int32)
    ensures EdgeKey(a, b) == EdgeKey(b, a)
  {
  }

  /**
   * A negative smaller index makes the key that index alone, so edges that
   * share it collide whatever their other end.
   */
  lemma EdgeKeyNegativeCollision(lo: Int32, x: Int32, y: Int32)
    requires lo < 0 && lo < x && lo < y
    ensures EdgeKey(lo, x) == EdgeKey(lo, y) == lo as int
  {
  }

  /** For vertex indices, the key determines the undirected edge. */
  lemma EdgeKeyUndirected(a: Int32, b: Int32, c: Int32, d: Int32)
    requires a >= 0 && b >= 0 && c >= 0 && d >= 0
    ensures EdgeKey(a, b) == EdgeKey(b, a)
    ensures EdgeKey(a, b) == EdgeKey(c, d) <==> (a == c && b == d) || (a == d && b == c)
  {
    var lo1 := if a < b then a else b;
    var hi1 := if a < b then b else a;
    var lo2 := if c < d then c else d;
    var hi2 := if c < d then d else c;
    assert EdgeKey(a, b) == (hi1 as int) * 0x1_0000_0000 + lo1 as int;
    assert EdgeKey(c, d) == (hi2 as int) * 0x1_0000_0000 + lo2 as int;
  }

  /** The key of the larger index occupies the high 32 bits. */
  lemma EdgeKeyPacking(a: Int32, b: Int32)
    requires a >= 0 && b >= 0
    ensures EdgeKey(a, b) / TwoTo32 == (if a < b then b else a) as int
    ensures EdgeKey(a, b) % TwoTo32 == (if a < b then a else b) as int
  {
  }

  /** `(j + 1) % n`: the vertex after `j`, wrapping around the polygon. */
  function Next(j: nat, n: nat): (r: nat)
    requires j < n
    ensures r == if j + 1 < n then j + 1 else 0
  {
    (j + 1) % n
  }

  /** Keys of one polygon, edge j joining index j to the next index. */
  function PolygonEdgeKeys(p: Polygon): (r: seq<int>)
    ensures |r| == |p|
  {
    seq(|p|, j requires 0 <= j < |p| => EdgeKey(p[j], p[Next(j, |p|)]))
  }

  /** The key met at each flat position, for the whole buffer. */
  function EdgeKeys(polys: seq<Polygon>): (r: seq<int>)
    ensures |r| == IndexCount(polys)
  {
    if |polys| == 0 then [] else PolygonEdgeKeys(polys[0]) + EdgeKeys(polys[1..])
  }

  lemma {:induction false} EdgeKeysAppend(a: seq<Polygon>, b: seq<Polygon>)
    ensures EdgeKeys(a + b) == EdgeKeys(a) + EdgeKeys(b)
  {
    if |a| == 0 {
      assert a + b == b;
    } else {
      assert (a + b)[1..] == a[1..] + b;
      EdgeKeysAppend(a[1..], b);
    }
  }

  lemma EdgeKeysStep(polys: seq<Polygon>, i: nat)
    requires i < |polys|
    ensures EdgeKeys(polys[..i + 1]) == EdgeKeys(polys[..i]) + PolygonEdgeKeys(polys[i])
  {
    assert polys[..i + 1] == polys[..i] + [polys[i]];
    EdgeKeysAppend(polys[..i], [polys[i]]);
    assert EdgeKeys([polys[i]]) == PolygonEdgeKeys(polys[i]) + EdgeKeys([]);
  }

  /** Position `p` holds a key not met at any earlier position. */
  predicate IsFirst(keys: seq<int>, p: nat)
    requires p < |keys|
  {
    forall q :: 0 <= q < p ==> keys[q] != keys[p]
  }

  /**
   * Reference definition: the positions whose key has not been met before,
   * in increasing order.
   */
  function FirstPositions(keys: seq<int>): seq<nat>
  {
    if |keys| == 0 then []
    else
      var n := |keys| - 1;
      FirstPositions(keys[..n]) + (if keys[n] in keys[..n] then [] else [n])
  }

  lemma FirstPositionsSnoc(s: seq<int>, e: int)
    ensures FirstPositions(s + [e]) == FirstPositions(s) + (if e in s then [] else [|s|])
  {
    assert (s + [e])[..|s|] == s;
  }

  /**
   * The representatives are increasing positions of the buffer, and a
   * position is a representative exactly when its key is new there.
   */
  lemma {:induction false} FirstPositionsSpec(keys: seq<int>)
    ensures forall i :: 0 <= i < |FirstPositions(keys)| ==> FirstPositions(keys)[i] < |keys|
    ensures forall i, j :: 0 <= i < j < |FirstPositions(keys)|
              ==> FirstPositions(keys)[i] < FirstPositions(keys)[j]
    ensures forall p :: 0 <= p < |keys| ==> (p in FirstPositions(keys) <==> IsFirst(keys, p))
  {
    if |keys| > 0 {
      var n := |keys| - 1;
      var pre := keys[..n];
      FirstPositionsSpec(pre);
      assert keys == pre + [keys[n]];
      FirstPositionsSnoc(pre, keys[n]);
      assert forall p :: 0 <= p < n ==> (IsFirst(pre, p) <==> IsFirst(keys, p)) by {
        forall p | 0 <= p < n ensures IsFirst(pre, p) <==> IsFirst(keys, p) {
          assert forall q :: 0 <= q <= p ==> pre[q] == keys[q];
        }
      }
      assert IsFirst(keys, n) <==> keys[n] !in pre by {
        if keys[n] in pre {
          var q :| 0 <= q < n && pre[q] == keys[n];
          assert keys[q] == keys[n];
        }
      }
    }
  }

  /** The first flat position at which a key appears. */
  lemma FirstOccurrence(keys: seq<int>, p: nat) returns (q: nat)
    requires p < |keys|
    ensures q <= p && keys[q] == keys[p] && IsFirst(keys, q)
  {
    q := p;
    while !IsFirst(keys, q)
      invariant q <= p && keys[q] == keys[p]
      decreases q
    {
      var i :| 0 <= i < q && keys[i] == keys[q];
      q := i;
    }
  }

  /** The representatives name pairwise distinct edges. */
  lemma FirstPositionsDistinct(keys: seq<int>)
    ensures forall i :: 0 <= i < |FirstPositions(keys)| ==> FirstPositions(keys)[i] < |keys|
    ensures forall i, j :: 0 <= i < j < |FirstPositions(keys)|
              ==> keys[FirstPositions(keys)[i]] != keys[FirstPositions(keys)[j]]
  {
    var r := FirstPositions(keys);
    FirstPositionsSpec(keys);
    forall i, j | 0 <= i < j < |r| ensures keys[r[i]] != keys[r[j]] {
      assert r[j] in r;
      assert IsFirst(keys, r[j]);
    }
  }

  /** The representative of the edge met at position `p`. */
  lemma Representative(keys: seq<int>, p: nat) returns (i: nat)
    requires p < |keys|
    ensures i < |FirstPositions(keys)|
    ensures FirstPositions(keys)[i] <= p && keys[FirstPositions(keys)[i]] == keys[p]
    ensures Represented(keys, p)
  {
    var r := FirstPositions(keys);
    var q := FirstOccurrence(keys, p);
    FirstPositionsSpec(keys);
    assert q in r;
    i :| 0 <= i < |r| && r[i] == q;
  }

  /** Some representative at or before `p` names the edge met at `p`. */
  ghost predicate Represented(keys: seq<int>, p: nat)
    requires p < |keys|
  {
    exists i :: 0 <= i < |FirstPositions(keys)| && FirstPositions(keys)[i] <= p
                && FirstPositions(keys)[i] < |keys| && keys[FirstPositions(keys)[i]] == keys[p]
  }

  /** Every edge met in the buffer has a representative at or before where it is met. */
  lemma FirstPositionsCover(keys: seq<int>)
    ensures forall p :: 0 <= p < |keys| ==> Represented(keys, p)
  {
    forall p | 0 <= p < |keys| ensures Represented(keys, p) {
      var i := Representative(keys, p);
    }
  }

  /**
   * The source algorithm: a dictionary from key to first position, read
   * back in insertion order (`values`), which is how a .NET Dictionary with
   * no removals enumerates.
   */
  method RecalculateEdges(polys: seq<Polygon>) returns (edges: seq<nat>)
    ensures edges == FirstPositions(EdgeKeys(polys))
  {
    var mapper: map<int, nat> := map[];
    var values: seq<nat> := [];
    var i := 0;
    var k := 0;
    while i < |polys|
      invariant 0 <= i <= |polys|
      invariant k == |EdgeKeys(polys[..i])|
      invariant forall x :: x in mapper <==> x in EdgeKeys(polys[..i])
      invariant values == FirstPositions(EdgeKeys(polys[..i]))
    {
      EdgeKeysStep(polys, i);
      mapper, values := ScanPolygon(polys[i], k, mapper, values, EdgeKeys(polys[..i]));
      k := k + |polys[i]|;
      i := i + 1;
    }
    assert polys[..i] == polys;
    edges := values;
  }

  /**
   * The inner loop for one polygon starting at flat position `k`: record each
   * edge not yet in the dictionary at position `k + j`.
   */
  method ScanPolygon(indexer: Polygon, k: nat, mapper0: map<int, nat>, values0: seq<nat>,
                     ghost done: seq<int>)
    returns (mapper: map<int, nat>, values: seq<nat>)
    requires k == |done|
    requires forall x :: x in mapper0 <==> x in done
    requires values0 == FirstPositions(done)
    ensures forall x :: x in mapper <==> x in done + PolygonEdgeKeys(indexer)
    ensures values == FirstPositions(done + PolygonEdgeKeys(indexer))
  {
    mapper, values := mapper0, values0;
    ghost var here := PolygonEdgeKeys(indexer);
    ghost var cur := done;
    assert here[..0] == [];
    var j := 0;
    while j < |indexer|
      invariant 0 <= j <= |indexer|
      invariant cur == done + here[..j]
      invariant forall x :: x in mapper <==> x in cur
      invariant values == FirstPositions(cur)
    {
      var edge := EdgeKey(indexer[j], indexer[Next(j, |indexer|)]);
      assert edge == here[j];
      assert here[..j + 1] == here[..j] + [edge];
      FirstPositionsSnoc(cur, edge);
      if edge !in mapper {
        mapper := mapper[edge := k + j];
        values := values + [k + j];
      }
      cur := cur + [edge];
      j := j + 1;
    }
    assert here[..j] == here;
  }

  /** The derived edges are distinct positions of the flat buffer, increasing. */
  lemma RecalculatedEdgesInRange(polys: seq<Polygon>)
    ensures forall i :: 0 <= i < |FirstPositions(EdgeKeys(polys))|
              ==> FirstPositions(EdgeKeys(polys))[i] < IndexCount(polys)
    ensures forall i, j :: 0 <= i < j < |FirstPositions(EdgeKeys(polys))|
              ==> FirstPositions(EdgeKeys(polys))[i] < FirstPositions(EdgeKeys(polys))[j]
  {
    FirstPositionsSpec(EdgeKeys(polys));
  }

  lemma QuadKeys()
    ensures EdgeKeys([[0, 1, 2, 3]])
            == [TwoTo32, 2 * TwoTo32 + 1, 3 * TwoTo32 + 2, 3 * TwoTo32]
  {
    var quad: Polygon := [0, 1, 2, 3];
    var here := PolygonEdgeKeys(quad);
    assert EdgeKeys([quad]) == here + EdgeKeys([]);
    assert here[0] == EdgeKey(0, 1) == TwoTo32;
    assert here[1] == EdgeKey(1, 2) == 2 * TwoTo32 + 1;
    assert here[2] == EdgeKey(2, 3) == 3 * TwoTo32 + 2;
    assert here[3] == EdgeKey(3, 0) == 3 * TwoTo32;
  }

  /** A single quad has four edges, represented at flat positions 0 to 3. */
  lemma QuadHasFourEdges()
    ensures FirstPositions(EdgeKeys([[0, 1, 2, 3]])) == [0, 1, 2, 3]
  {
    QuadKeys();
    var k0, k1, k2, k3 := TwoTo32, 2 * TwoTo32 + 1, 3 * TwoTo32 + 2, 3 * TwoTo32;
    assert FirstPositions([k0]) == [0] by {
      FirstPositionsSnoc([], k0);
      assert [] + [k0] == [k0];
    }
    assert FirstPositions([k0, k1]) == [0, 1] by {
      FirstPositionsSnoc([k0], k1);
      assert [k0] + [k1] == [k0, k1];
    }
    assert FirstPositions([k0, k1, k2]) == [0, 1, 2] by {
      FirstPositionsSnoc([k0, k1], k2);
      assert [k0, k1] + [k2] == [k0, k1, k2];
    }
    assert FirstPositions([k0, k1, k2, k3]) == [0, 1, 2, 3] by {
      FirstPositionsSnoc([k0, k1, k2], k3);
      assert [k0, k1, k2] + [k3] == [k0, k1, k2, k3];
    }
  }
}
