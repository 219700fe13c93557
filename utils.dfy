/** A model of two helpers of anemoi-graphs' `utils` module that build and
    inspect the point sets from which spatial graphs are created:
    - AddMargin pads a set of points, given as parallel latitude and
      longitude sequences, with eight shifted copies of itself;
    - IndexInOuterJoin finds the row of a matrix that equals a vector.
    Coordinates are `real`, so the float rounding of `lats + sign * margin`
    is not part of the model. */
module GraphUtils {

  /** The ways the two helpers fail: the assertion on a negative margin, and
      the conversion to a single integer of a search that matched several
      rows. */
  datatype Failure = NegativeMargin | MultipleMatches

  datatype Result<T> = Ok(value: T) | Err(error: Failure)

  // ---------------------------------------------------------------------
  // add_margin
  // ---------------------------------------------------------------------

  /** The offsets, in units of the margin, iterated by both nested loops. */
  const SIGNS: seq<int> := [-1, 0, 1]

  /** The element-wise sum `xs + d` of an array and a scalar. */
  function Offset(xs: seq<real>, d: real): (r: seq<real>)
    ensures |r| == |xs|
    ensures forall i :: 0 <= i < |xs| ==> r[i] == xs[i] + d
  {
    seq(|xs|, i requires 0 <= i < |xs| => xs[i] + d)
  }

  /** The concatenation of a list of arrays, in list order. */
  function Concat<T>(blocks: seq<seq<T>>): seq<T>
  {
    if blocks == [] then [] else blocks[0] + Concat(blocks[1..])
  }

  /** Blocks all of length n concatenate to |blocks| * n elements. */
  lemma {:induction false} ConcatLength<T>(blocks: seq<seq<T>>, n: nat)
    requires forall j :: 0 <= j < |blocks| ==> |blocks[j]| == n
    ensures |Concat(blocks)| == |blocks| * n
  {
    if blocks != [] {
      ConcatLength(blocks[1..], n);
      assert |blocks| * n == n + (|blocks| - 1) * n;
    }
  }

  /** Blocks all of length n: element i of block k sits at position k * n + i
      of the concatenation. */
  lemma {:induction false} ConcatAt<T>(blocks: seq<seq<T>>, n: nat, k: nat, i: nat)
    requires forall j :: 0 <= j < |blocks| ==> |blocks[j]| == n
    requires k < |blocks| && i < n
    ensures k * n + i < |Concat(blocks)| && Concat(blocks)[k * n + i] == blocks[k][i]
  {
    ConcatLength(blocks, n);
    if k > 0 {
      ConcatAt(blocks[1..], n, k - 1, i);
      assert k * n + i == n + ((k - 1) * n + i);
    }
  }

  /** The nine blocks of padded latitudes: the latitude sign belongs to the
      outer loop, so each shift is repeated for three blocks in a row. */
  function LatBlocks(lats: seq<real>, margin: real): (r: seq<seq<real>>)
    ensures |r| == 9 && forall k :: 0 <= k < 9 ==> |r[k]| == |lats|
  {
    var south, level, north := Offset(lats, -margin), Offset(lats, 0.0), Offset(lats, margin);
    [south, south, south, level, level, level, north, north, north]
  }

  /** The nine blocks of padded longitudes: the longitude sign belongs to the
      inner loop, so the three shifts take turns. */
  function LonBlocks(lons: seq<real>, margin: real): (r: seq<seq<real>>)
    ensures |r| == 9 && forall k :: 0 <= k < 9 ==> |r[k]| == |lons|
  {
    var west, level, east := Offset(lons, -margin), Offset(lons, 0.0), Offset(lons, margin);
    [west, level, east, west, level, east, west, level, east]
  }

  /** The latitudes returned for a positive margin: nine times as many as given. */
  function PaddedLats(lats: seq<real>, margin: real): (r: seq<real>)
    ensures |r| == 9 * |lats|
  {
    ConcatLength(LatBlocks(lats, margin), |lats|);
    Concat(LatBlocks(lats, margin))
  }

  /** The longitudes returned for a positive margin: nine times as many as given. */
  function PaddedLons(lons: seq<real>, margin: real): (r: seq<real>)
    ensures |r| == 9 * |lons|
  {
    ConcatLength(LonBlocks(lons, margin), |lons|);
    Concat(LonBlocks(lons, margin))
  }

  /** Pads the points (lats[i], lons[i]) with their shifts by -margin, 0 and
      +margin on each axis: nine blocks, the latitude sign in the outer loop
      and the longitude sign in the inner one. A negative margin fails, and
      a zero margin gives back the inputs themselves. */
  method AddMargin(lats: seq<real>, lons: seq<real>, margin: real)
    returns (r: Result<(seq<real>, seq<real>)>)
    ensures margin < 0.0 ==> r == Err(NegativeMargin)
    ensures margin == 0.0 ==> r == Ok((lats, lons))
    ensures margin > 0.0 ==> r == Ok((PaddedLats(lats, margin), PaddedLons(lons, margin)))
  {
    if margin < 0.0 {
      return Err(NegativeMargin);
    }
    if margin == 0.0 {
      return Ok((lats, lons));
    }
    var latitudes: seq<seq<real>> := [];
    var longitudes: seq<seq<real>> := [];
    for a := 0 to |SIGNS|
      invariant latitudes == LatBlocks(lats, margin)[..3 * a]
      invariant longitudes == LonBlocks(lons, margin)[..3 * a]
    {
      for b := 0 to |SIGNS|
        invariant latitudes == LatBlocks(lats, margin)[..3 * a + b]
        invariant longitudes == LonBlocks(lons, margin)[..3 * a + b]
      {
        latitudes := latitudes + [Offset(lats, SIGNS[a] as real * margin)];
        longitudes := longitudes + [Offset(lons, SIGNS[b] as real * margin)];
      }
    }
    assert latitudes == LatBlocks(lats, margin)[..9];
    assert longitudes == LonBlocks(lons, margin)[..9];
    assert latitudes == LatBlocks(lats, margin) && longitudes == LonBlocks(lons, margin);
    return Ok((Concat(latitudes), Concat(longitudes)));
  }

  /** Block 3 * (a + 1) + (b + 1), for the latitude sign a and the longitude
      sign b, holds every input latitude shifted by a * margin, in input order. */
  lemma PaddedLatsAt(lats: seq<real>, margin: real, a: int, b: int, i: nat)
    requires -1 <= a <= 1 && -1 <= b <= 1 && i < |lats|
    ensures var k := 3 * (a + 1) + (b + 1);
      k * |lats| + i < 9 * |lats| &&
      PaddedLats(lats, margin)[k * |lats| + i] == lats[i] + a as real * margin
  {
    var k := 3 * (a + 1) + (b + 1);
    var blocks := LatBlocks(lats, margin);
    assert PaddedLats(lats, margin) == Concat(blocks);
    ConcatAt(blocks, |lats|, k, i);
    if a == -1 {
      assert blocks[k] == Offset(lats, -margin);
    } else if a == 0 {
      assert blocks[k] == Offset(lats, 0.0);
    } else {
      assert blocks[k] == Offset(lats, margin);
    }
  }

  /** Block 3 * (a + 1) + (b + 1), for the latitude sign a and the longitude
      sign b, holds every input longitude shifted by b * margin, in input order. */
  lemma PaddedLonsAt(lons: seq<real>, margin: real, a: int, b: int, i: nat)
    requires -1 <= a <= 1 && -1 <= b <= 1 && i < |lons|
    ensures var k := 3 * (a + 1) + (b + 1);
      k * |lons| + i < 9 * |lons| &&
      PaddedLons(lons, margin)[k * |lons| + i] == lons[i] + b as real * margin
  {
    var k := 3 * (a + 1) + (b + 1);
    var blocks := LonBlocks(lons, margin);
    assert PaddedLons(lons, margin) == Concat(blocks);
    ConcatAt(blocks, |lons|, k, i);
    if b == -1 {
      assert blocks[k] == Offset(lons, -margin);
    } else if b == 0 {
      assert blocks[k] == Offset(lons, 0.0);
    } else {
      assert blocks[k] == Offset(lons, margin);
    }
  }

  /** Every padded latitude is an input latitude shifted by -1, 0 or 1
      margins: position j copies latitude j % n of block j / n, whose
      latitude sign is (j / n) / 3 - 1. */
  lemma PaddedLatsEveryPoint(lats: seq<real>, margin: real, j: nat)
    requires j < 9 * |lats|
    ensures PaddedLats(lats, margin)[j] == lats[j % |lats|] + ((j / |lats|) / 3 - 1) as real * margin
  {
    var n := |lats|;
    var k, i := j / n, j % n;
    BlockOfPosition(j, n);
    var a, b := k / 3 - 1, k % 3 - 1;
    assert 3 * (a + 1) + (b + 1) == k;
    PaddedLatsAt(lats, margin, a, b, i);
  }

  /** Every padded longitude is an input longitude shifted by -1, 0 or 1
      margins: position j copies longitude j % n of block j / n, whose
      longitude sign is (j / n) % 3 - 1. */
  lemma PaddedLonsEveryPoint(lons: seq<real>, margin: real, j: nat)
    requires j < 9 * |lons|
    ensures PaddedLons(lons, margin)[j] == lons[j % |lons|] + ((j / |lons|) % 3 - 1) as real * margin
  {
    var n := |lons|;
    var k, i := j / n, j % n;
    BlockOfPosition(j, n);
    var a, b := k / 3 - 1, k % 3 - 1;
    assert 3 * (a + 1) + (b + 1) == k;
    PaddedLonsAt(lons, margin, a, b, i);
  }

  /** Position j < 9 * n lies in block j / n < 9, at offset j % n within it. */
  lemma BlockOfPosition(j: nat, n: nat)
    requires j < 9 * n
    ensures n > 0 && j / n < 9 && j == (j / n) * n + j % n
  {
  }

  /** The centre block, offset (0, 0), reproduces the input points exactly. */
  lemma PaddedCentre(lats: seq<real>, lons: seq<real>, margin: real)
    ensures PaddedLats(lats, margin)[4 * |lats| .. 5 * |lats|] == lats
    ensures PaddedLons(lons, margin)[4 * |lons| .. 5 * |lons|] == lons
  {
    forall i | 0 <= i < |lats|
      ensures PaddedLats(lats, margin)[4 * |lats| + i] == lats[i]
    {
      PaddedLatsAt(lats, margin, 0, 0, i);
    }
    forall i | 0 <= i < |lons|
      ensures PaddedLons(lons, margin)[4 * |lons| + i] == lons[i]
    {
      PaddedLonsAt(lons, margin, 0, 0, i);
    }
  }

  /** With a positive margin the nine copies of one input point are nine
      different points: two different sign pairs never give the same point. */
  lemma PaddedCopiesDistinct(lats: seq<real>, lons: seq<real>, margin: real,
                             a1: int, b1: int, a2: int, b2: int, i: nat)
    requires margin > 0.0 && |lats| == |lons| && i < |lats|
    requires -1 <= a1 <= 1 && -1 <= b1 <= 1 && -1 <= a2 <= 1 && -1 <= b2 <= 1
    requires (a1, b1) != (a2, b2)
    ensures var n, k1, k2 := |lats|, 3 * (a1 + 1) + (b1 + 1), 3 * (a2 + 1) + (b2 + 1);
      k1 * n + i < 9 * n && k2 * n + i < 9 * n &&
      (PaddedLats(lats, margin)[k1 * n + i], PaddedLons(lons, margin)[k1 * n + i])
        != (PaddedLats(lats, margin)[k2 * n + i], PaddedLons(lons, margin)[k2 * n + i])
  {
    PaddedLatsAt(lats, margin, a1, b1, i);
    PaddedLatsAt(lats, margin, a2, b2, i);
    PaddedLonsAt(lons, margin, a1, b1, i);
    PaddedLonsAt(lons, margin, a2, b2, i);
    if a1 != a2 {
      assert a1 as real * margin != a2 as real * margin by {
        assert (a1 - a2) as real * margin != 0.0;
      }
    } else {
      assert b1 as real * margin != b2 as real * margin by {
        assert (b1 - b2) as real * margin != 0.0;
      }
    }
  }

  // ---------------------------------------------------------------------
  // get_index_in_outer_join
  // ---------------------------------------------------------------------

  /** The documented shapes: a vector of N elements and an M x N matrix. */
  predicate Shaped<T>(vector: seq<T>, tensor: seq<seq<T>>)
  {
    forall k :: 0 <= k < |tensor| ==> |tensor[k]| == |vector|
  }

  /** Row k equals the vector in every column (exact element-wise equality). */
  predicate RowMatches<T(==)>(vector: seq<T>, tensor: seq<seq<T>>, k: int)
    requires Shaped(vector, tensor)
  {
    0 <= k < |tensor| && forall j :: 0 <= j < |vector| ==> tensor[k][j] == vector[j]
  }

  /** The per-row mask `all(tensor == vector, axis=1)`. */
  function MatchMask<T(==)>(vector: seq<T>, tensor: seq<seq<T>>): (mask: seq<bool>)
    requires Shaped(vector, tensor)
    ensures |mask| == |tensor|
    ensures forall k :: 0 <= k < |tensor| ==> (mask[k] <==> RowMatches(vector, tensor, k))
  {
    seq(|tensor|, k requires 0 <= k < |tensor| => RowMatches(vector, tensor, k))
  }

  /** The mask entry of a row is true exactly when the whole row, as an
      array, equals the vector. */
  lemma MatchMaskRowEqual<T>(vector: seq<T>, tensor: seq<seq<T>>, k: nat)
    requires Shaped(vector, tensor) && k < |tensor|
    ensures MatchMask(vector, tensor)[k] <==> tensor[k] == vector
  {
    if MatchMask(vector, tensor)[k] {
      assert forall j :: 0 <= j < |vector| ==> tensor[k][j] == vector[j];
      assert tensor[k] == vector;
    }
  }

  /** The positions at which a mask is true, in increasing order (`where(mask)[0]`). */
  function Where(mask: seq<bool>): (r: seq<nat>)
    ensures forall t :: 0 <= t < |r| ==> r[t] < |mask| && mask[r[t]]
    ensures forall k :: 0 <= k < |mask| && mask[k] ==> k in r
    ensures forall t1, t2 :: 0 <= t1 < t2 < |r| ==> r[t1] < r[t2]
  {
    if mask == [] then []
    else
      var last := |mask| - 1;
      Where(mask[..last]) + (if mask[last] then [last] else [])
  }

  /** Two different positions of the mask are true exactly when `where` finds
      at least two. */
  lemma {:induction false} WhereSeveral(mask: seq<bool>)
    ensures |Where(mask)| >= 2 <==>
      exists k1, k2 :: 0 <= k1 < k2 < |mask| && mask[k1] && mask[k2]
  {
    var r := Where(mask);
    if |r| >= 2 {
      assert r[0] < r[1] && mask[r[0]] && mask[r[1]];
    }
    if exists k1, k2 :: 0 <= k1 < k2 < |mask| && mask[k1] && mask[k2] {
      var k1, k2 :| 0 <= k1 < k2 < |mask| && mask[k1] && mask[k2];
      assert k1 in r && k2 in r;
      var t1 :| 0 <= t1 < |r| && r[t1] == k1;
      var t2 :| 0 <= t2 < |r| && r[t2] == k2;
      assert t1 != t2;
    }
  }

  /** The index of the row of `tensor` that equals `vector`, or -1 when no row
      does. When several rows match, converting the matching indices to one
      integer fails, and so does this search. */
  function IndexInOuterJoin<T(==)>(vector: seq<T>, tensor: seq<seq<T>>): (r: Result<int>)
    requires Shaped(vector, tensor)
    ensures r == Ok(-1) <==> forall k :: 0 <= k < |tensor| ==> !RowMatches(vector, tensor, k)
    ensures r.Ok? && r.value != -1 ==>
      RowMatches(vector, tensor, r.value) &&
      forall k :: RowMatches(vector, tensor, k) ==> k == r.value
    ensures r.Err? <==>
      exists k1, k2 :: 0 <= k1 < k2 < |tensor| && RowMatches(vector, tensor, k1) && RowMatches(vector, tensor, k2)
    ensures r.Err? ==> r.error == MultipleMatches
  {
    var mask := MatchMask(vector, tensor);
    WhereSeveral(mask);
    if true in mask then
      var found := Where(mask);
      if |found| == 1 then Ok(found[0] as int) else Err(MultipleMatches)
    else
      Ok(-1)
  }

  /** A row that is the only one equal to the vector is the one returned. */
  lemma UniqueRowFound<T>(vector: seq<T>, tensor: seq<seq<T>>, i: nat)
    requires Shaped(vector, tensor) && RowMatches(vector, tensor, i)
    requires forall k :: RowMatches(vector, tensor, k) ==> k == i
    ensures IndexInOuterJoin(vector, tensor) == Ok(i)
  {
  }
}
