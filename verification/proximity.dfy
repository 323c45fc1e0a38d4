/**
 * The proximity graph: `dotPairs` enumerates every unordered pair of dots,
 * `drawVertices` keeps the pairs no farther apart than the canvas padding, and
 * `drawVertex` gives each kept pair the opacity of its line. The drawing
 * calls are replaced by the list of edges they would draw.
 *
 * `Math.sqrt` is not modelled: `diagonal(dx, dy)` stands for
 * `diagonalLength(dx, dy)`.
 */
module Proximity {
  import opened Wrappers
  import opened Geometry
  import opened Field

  /** `Array.prototype.flat` on an array of arrays. */
  function Flatten<T>(rows: seq<seq<T>>): seq<T> {
    if |rows| == 0 then [] else rows[0] + Flatten(rows[1..])
  }

  /** `first` paired with each of `others`, in order. */
  function PairsWith<T>(first: T, others: seq<T>): seq<(T, T)> {
    seq(|others|, k requires 0 <= k < |others| => (first, others[k]))
  }

  /**
   * The rows `dotPairs` builds before flattening: row `i` pairs dot `i` with
   * every dot after it.
   */
  function Rows<T>(dots: seq<T>): (rows: seq<seq<(T, T)>>)
    ensures |rows| == |dots|
  {
    seq(|dots|, i requires 0 <= i < |dots| => PairsWith(dots[i], dots[i + 1..]))
  }

  /** `dotPairs`: the rows concatenated in order, n(n - 1) / 2 pairs for n dots. */
  function DotPairs<T>(dots: seq<T>): (pairs: seq<(T, T)>)
    ensures 2 * |pairs| == |dots| * (|dots| - 1)
  {
    RowsLength(dots);
    Flatten(Rows(dots))
  }

  lemma {:induction false} RowsLength<T>(dots: seq<T>)
    ensures 2 * |Flatten(Rows(dots))| == |dots| * (|dots| - 1)
  {
    if |dots| > 0 {
      RowsTail(dots);
      RowsLength(dots[1..]);
      assert Flatten(Rows(dots)) == Rows(dots)[0] + Flatten(Rows(dots)[1..]);
    }
  }

  lemma RowsTail<T>(dots: seq<T>)
    requires |dots| > 0
    ensures Rows(dots)[0] == PairsWith(dots[0], dots[1..])
    ensures Rows(dots)[1..] == Rows(dots[1..])
  {
    var rows, tailRows := Rows(dots), Rows(dots[1..]);
    forall i | 0 <= i < |tailRows|
      ensures rows[1..][i] == tailRows[i]
    {
      assert dots[i + 2..] == dots[1..][i + 1..];
    }
  }

  /** The first row of `DotPairs` pairs the first dot; the rest is `DotPairs` of the other dots. */
  lemma DotPairsUnfold<T>(dots: seq<T>)
    requires |dots| > 0
    ensures DotPairs(dots) == PairsWith(dots[0], dots[1..]) + DotPairs(dots[1..])
  {
    RowsTail(dots);
    assert Flatten(Rows(dots)) == Rows(dots)[0] + Flatten(Rows(dots)[1..]);
  }

  /** Index pairs with both indices raised by one. */
  function Shift(ps: seq<(nat, nat)>): (shifted: seq<(nat, nat)>)
    ensures |shifted| == |ps|
  {
    seq(|ps|, k requires 0 <= k < |ps| => (ps[k].0 + 1, ps[k].1 + 1))
  }

  /**
   * A reference enumeration of the index pairs of `n` dots: first the pairs
   * (0, j) for j = 1 .. n-1, then the pairs of the last n-1 indices.
   */
  function IndexPairs(n: nat): seq<(nat, nat)> {
    if n == 0 then [] else FirstRow(n) + Shift(IndexPairs(n - 1))
  }

  /** The index pairs (0, j) for j = 1 .. n-1. */
  function FirstRow(n: nat): (row: seq<(nat, nat)>)
    requires n > 0
    ensures |row| == n - 1
  {
    seq(n - 1, k requires 0 <= k < n - 1 => (0, k + 1))
  }

  /** Lexicographic order on index pairs. */
  predicate LexLess(a: (nat, nat), b: (nat, nat)) {
    a.0 < b.0 || (a.0 == b.0 && a.1 < b.1)
  }

  /** Strictly increasing in lexicographic order, hence without repetitions. */
  predicate StrictlySorted(ps: seq<(nat, nat)>) {
    forall k, l :: 0 <= k < l < |ps| ==> LexLess(ps[k], ps[l])
  }

  /** Every pair names two different indices below `n`, the smaller first. */
  predicate Within(ps: seq<(nat, nat)>, n: nat) {
    forall k :: 0 <= k < |ps| ==> ps[k].0 < ps[k].1 < n
  }

  lemma {:induction false} IndexPairsCount(n: nat)
    ensures 2 * |IndexPairs(n)| == n * (n - 1)
    ensures |IndexPairs(n)| == n * (n - 1) / 2
  {
    if n > 0 {
      IndexPairsCount(n - 1);
      assert 2 * |IndexPairs(n)| == 2 * (n - 1) + (n - 1) * (n - 2);
      assert 2 * (n - 1) + (n - 1) * (n - 2) == n * (n - 1);
    }
  }

  lemma {:induction false} IndexPairsWithin(n: nat)
    ensures Within(IndexPairs(n), n)
  {
    if n > 0 {
      IndexPairsWithin(n - 1);
    }
  }

  lemma {:induction false} IndexPairsSorted(n: nat)
    ensures StrictlySorted(IndexPairs(n))
  {
    if n > 0 {
      IndexPairsSorted(n - 1);
      IndexPairsWithin(n - 1);
      var first := FirstRow(n);
      var rest := Shift(IndexPairs(n - 1));
      var ps := IndexPairs(n);
      assert ps == first + rest;
      forall k, l | 0 <= k < l < |ps|
        ensures LexLess(ps[k], ps[l])
      {
        if l < n - 1 {
        } else if k < n - 1 {
          assert ps[l] == rest[l - (n - 1)];
        } else {
          assert ps[k] == rest[k - (n - 1)] && ps[l] == rest[l - (n - 1)];
          assert LexLess(IndexPairs(n - 1)[k - (n - 1)], IndexPairs(n - 1)[l - (n - 1)]);
        }
      }
    }
  }

  /** The position of the index pair (i, j) in `IndexPairs(n)`. */
  lemma {:induction false} IndexPairsPosition(n: nat, i: nat, j: nat) returns (k: nat)
    requires i < j < n
    ensures k < |IndexPairs(n)| && IndexPairs(n)[k] == (i, j)
  {
    var ps := IndexPairs(n);
    assert ps == FirstRow(n) + Shift(IndexPairs(n - 1));
    if i == 0 {
      k := j - 1;
      assert ps[k] == FirstRow(n)[k];
    } else {
      var m := IndexPairsPosition(n - 1, i - 1, j - 1);
      k := (n - 1) + m;
      assert ps[k] == Shift(IndexPairs(n - 1))[m];
    }
  }

  lemma IndexPairsComplete(n: nat)
    ensures forall i, j :: 0 <= i < j < n ==> (i, j) in IndexPairs(n)
  {
    forall i, j | 0 <= i < j < n
      ensures (i, j) in IndexPairs(n)
    {
      var k := IndexPairsPosition(n, i, j);
    }
  }

  /** The values at the index pairs `ps`. */
  function PairsAt<T>(dots: seq<T>, ps: seq<(nat, nat)>): (pairs: seq<(T, T)>)
    requires Within(ps, |dots|)
    ensures |pairs| == |ps|
  {
    seq(|ps|, k requires 0 <= k < |ps| => (dots[ps[k].0], dots[ps[k].1]))
  }

  lemma PairsAtAppend<T>(dots: seq<T>, ps: seq<(nat, nat)>, qs: seq<(nat, nat)>)
    requires Within(ps, |dots|) && Within(qs, |dots|)
    ensures Within(ps + qs, |dots|)
    ensures PairsAt(dots, ps + qs) == PairsAt(dots, ps) + PairsAt(dots, qs)
  {
  }

  lemma PairsAtFirstRow<T>(dots: seq<T>)
    requires |dots| > 0
    ensures Within(FirstRow(|dots|), |dots|)
    ensures PairsAt(dots, FirstRow(|dots|)) == PairsWith(dots[0], dots[1..])
  {
  }

  lemma PairsAtShift<T>(dots: seq<T>, ps: seq<(nat, nat)>)
    requires |dots| > 0 && Within(ps, |dots| - 1)
    ensures Within(Shift(ps), |dots|)
    ensures PairsAt(dots, Shift(ps)) == PairsAt(dots[1..], ps)
  {
  }

  lemma {:induction false} DotPairsIndexed<T>(dots: seq<T>)
    ensures Within(IndexPairs(|dots|), |dots|)
    ensures DotPairs(dots) == PairsAt(dots, IndexPairs(|dots|))
  {
    var n := |dots|;
    IndexPairsWithin(n);
    if n > 0 {
      var tail := dots[1..];
      DotPairsUnfold(dots);
      DotPairsIndexed(tail);
      PairsAtFirstRow(dots);
      PairsAtShift(dots, IndexPairs(n - 1));
      PairsAtAppend(dots, FirstRow(n), Shift(IndexPairs(n - 1)));
    }
  }

  /**
   * `dotPairs` on `n` dots yields n(n-1)/2 pairs: the dots at the index pairs
   * i < j, each index pair once, in lexicographic order; no dot is paired with
   * itself.
   */
  lemma DotPairsEnumeration<T>(dots: seq<T>)
    ensures |DotPairs(dots)| == |dots| * (|dots| - 1) / 2
    ensures Within(IndexPairs(|dots|), |dots|)
    ensures DotPairs(dots) == PairsAt(dots, IndexPairs(|dots|))
    ensures StrictlySorted(IndexPairs(|dots|))
    ensures forall i, j :: 0 <= i < j < |dots| ==> (i, j) in IndexPairs(|dots|)
  {
    DotPairsIndexed(dots);
    IndexPairsCount(|dots|);
    IndexPairsSorted(|dots|);
    IndexPairsComplete(|dots|);
  }

  /** A line between two dots, with the opacity it is stroked with. */
  datatype Edge = Edge(thisDot: Dot, otherDot: Dot, opacity: Option<real>)

  /**
   * `distanceOfDots`: the diagonal of the difference of the positions. When
   * `diagonal` keeps the square-root promise, the distance is at least each
   * coordinate difference and at most their sum.
   */
  function DistanceOfDots(a: Dot, b: Dot, diagonal: (real, real) -> real): (dist: real)
    ensures dist == diagonal(a.x - b.x, a.y - b.y)
    ensures IsDiagonal(a.x - b.x, a.y - b.y, diagonal(a.x - b.x, a.y - b.y)) ==>
      && Abs(a.x - b.x) <= dist && Abs(a.y - b.y) <= dist
      && dist <= Abs(a.x - b.x) + Abs(a.y - b.y)
  {
    var dist := diagonal(a.x - b.x, a.y - b.y);
    if IsDiagonal(a.x - b.x, a.y - b.y, dist) then
      DiagonalBounds(a.x - b.x, a.y - b.y, dist);
      dist
    else dist
  }

  /** The distance does not depend on the order of the two dots. */
  lemma DistanceOfDotsSymmetric(a: Dot, b: Dot, diagonal: (real, real) -> real)
    requires IsDiagonal(a.x - b.x, a.y - b.y, diagonal(a.x - b.x, a.y - b.y))
    requires IsDiagonal(b.x - a.x, b.y - a.y, diagonal(b.x - a.x, b.y - a.y))
    ensures DistanceOfDots(a, b, diagonal) == DistanceOfDots(b, a, diagonal)
  {
    assert (b.x - a.x) * (b.x - a.x) == (a.x - b.x) * (a.x - b.x);
    assert (b.y - a.y) * (b.y - a.y) == (a.y - b.y) * (a.y - b.y);
    DiagonalUnique(a.x - b.x, a.y - b.y, diagonal(a.x - b.x, a.y - b.y), diagonal(b.x - a.x, b.y - a.y));
  }

  /**
   * The opacity in `drawVertex`: (1 - distance / maxDistance) * 0.5.
   * `drawVertex` is only reached when 0 <= distance <= maxDistance, so a zero
   * `maxDistance` comes with a zero distance: 0 / 0, NaN in the source, and
   * `None` here. (For a positive distance over a zero maximum the source
   * would compute -Infinity; that case never reaches `drawVertex`, and the
   * model gives `None` for it as well.)
   */
  function EdgeOpacity(distance: real, maxDistance: real): (opacity: Option<real>)
    ensures opacity.None? <==> maxDistance == 0.0
    ensures 0.0 < maxDistance && 0.0 <= distance <= maxDistance ==>
      0.0 <= opacity.value <= 0.5
    ensures 0.0 < maxDistance && distance == 0.0 ==> opacity == Some(0.5)
    ensures 0.0 < maxDistance && distance == maxDistance ==> opacity == Some(0.0)
  {
    if maxDistance == 0.0 then None
    else
      OpacityBounds(distance, maxDistance);
      Some((1.0 - distance / maxDistance) * 0.5)
  }

  lemma OpacityBounds(distance: real, maxDistance: real)
    requires maxDistance != 0.0
    ensures 0.0 < maxDistance && 0.0 <= distance <= maxDistance ==> 0.0 <= distance / maxDistance <= 1.0
  {
    if 0.0 < maxDistance && 0.0 <= distance <= maxDistance {
      DivFraction(distance, maxDistance);
    }
  }

  /** Closer pairs get more opaque lines: the opacity strictly decreases with the distance. */
  lemma EdgeOpacityStrictlyDecreasing(d1: real, d2: real, maxDistance: real)
    requires 0.0 < maxDistance && d1 < d2
    ensures EdgeOpacity(d1, maxDistance).value > EdgeOpacity(d2, maxDistance).value
  {
    DivStrictlyMonotone(d1, d2, maxDistance);
  }

  /** The opacity determines the distance: distance = maxDistance * (1 - 2 * opacity). */
  lemma EdgeOpacityInverse(distance: real, maxDistance: real)
    requires maxDistance != 0.0
    ensures distance == maxDistance * (1.0 - 2.0 * EdgeOpacity(distance, maxDistance).value)
  {
    var q := distance / maxDistance;
    assert 1.0 - 2.0 * EdgeOpacity(distance, maxDistance).value == q;
  }

  /** The edge drawn for one pair. */
  function EdgeOf(a: Dot, b: Dot, maxDistance: real, diagonal: (real, real) -> real): Edge {
    Edge(a, b, EdgeOpacity(DistanceOfDots(a, b, diagonal), maxDistance))
  }

  /**
   * The loop of `drawVertices`: for each pair in order, an edge when the
   * distance is at most `maxDistance`.
   */
  function Vertices(pairs: seq<(Dot, Dot)>, maxDistance: real, diagonal: (real, real) -> real): (edges: seq<Edge>)
    ensures |edges| <= |pairs|
    ensures forall e :: e in edges ==>
      && (e.thisDot, e.otherDot) in pairs
      && DistanceOfDots(e.thisDot, e.otherDot, diagonal) <= maxDistance
      && e == EdgeOf(e.thisDot, e.otherDot, maxDistance, diagonal)
  {
    if |pairs| == 0 then []
    else
      var (a, b) := pairs[0];
      var rest := Vertices(pairs[1..], maxDistance, diagonal);
      if DistanceOfDots(a, b, diagonal) <= maxDistance then [EdgeOf(a, b, maxDistance, diagonal)] + rest
      else rest
  }

  /**
   * `drawVertices`: the edges among `dots`, with the canvas padding of the
   * window as the longest edge. When that padding is positive and distances
   * are never negative, every opacity lies in [0, 0.5].
   */
  function DrawVertices(dots: seq<Dot>, maxVertexLength: real, innerWidth: real, innerHeight: real,
                        diagonal: (real, real) -> real): (edges: seq<Edge>)
    requires IsDiagonal(innerWidth, innerHeight, diagonal(innerWidth, innerHeight))
    ensures |edges| <= |dots| * (|dots| - 1) / 2
    ensures var maxDistance := CanvasPadding(maxVertexLength, innerWidth, innerHeight, diagonal(innerWidth, innerHeight));
      forall e :: e in edges ==> DistanceOfDots(e.thisDot, e.otherDot, diagonal) <= maxDistance
    ensures var maxDistance := CanvasPadding(maxVertexLength, innerWidth, innerHeight, diagonal(innerWidth, innerHeight));
      0.0 < maxDistance && (forall dx, dy :: 0.0 <= diagonal(dx, dy)) ==>
      forall e :: e in edges ==> e.opacity.Some? && 0.0 <= e.opacity.value <= 0.5
  {
    DotPairsEnumeration(dots);
    var maxDistance := CanvasPadding(maxVertexLength, innerWidth, innerHeight, diagonal(innerWidth, innerHeight));
    Vertices(DotPairs(dots), maxDistance, diagonal)
  }

  /** The index pairs among `ps` whose dots are no farther apart than `maxDistance`, in order. */
  function CloseAmong(dots: seq<Dot>, ps: seq<(nat, nat)>, maxDistance: real, diagonal: (real, real) -> real): (close: seq<(nat, nat)>)
    requires Within(ps, |dots|)
    ensures Within(close, |dots|)
  {
    if |ps| == 0 then []
    else
      var rest := CloseAmong(dots, ps[1..], maxDistance, diagonal);
      if DistanceOfDots(dots[ps[0].0], dots[ps[0].1], diagonal) <= maxDistance then [ps[0]] + rest
      else rest
  }

  lemma {:induction false} CloseAmongMembers(dots: seq<Dot>, ps: seq<(nat, nat)>, maxDistance: real,
                                             diagonal: (real, real) -> real)
    requires Within(ps, |dots|)
    ensures forall p :: p in CloseAmong(dots, ps, maxDistance, diagonal) <==>
      p in ps && p.0 < |dots| && p.1 < |dots| && DistanceOfDots(dots[p.0], dots[p.1], diagonal) <= maxDistance
  {
    if |ps| > 0 {
      CloseAmongMembers(dots, ps[1..], maxDistance, diagonal);
      assert ps == [ps[0]] + ps[1..];
    }
  }

  lemma {:induction false} CloseAmongSorted(dots: seq<Dot>, ps: seq<(nat, nat)>, maxDistance: real,
                                            diagonal: (real, real) -> real)
    requires Within(ps, |dots|) && StrictlySorted(ps)
    ensures StrictlySorted(CloseAmong(dots, ps, maxDistance, diagonal))
  {
    if |ps| > 0 {
      CloseAmongSorted(dots, ps[1..], maxDistance, diagonal);
      CloseAmongMembers(dots, ps[1..], maxDistance, diagonal);
      var rest := CloseAmong(dots, ps[1..], maxDistance, diagonal);
      var close := CloseAmong(dots, ps, maxDistance, diagonal);
      if close != rest {
        assert close == [ps[0]] + rest;
        forall k, l | 0 <= k < l < |close|
          ensures LexLess(close[k], close[l])
        {
          if k == 0 {
            assert close[l] == rest[l - 1] && rest[l - 1] in ps[1..];
            var m :| 0 <= m < |ps[1..]| && ps[1..][m] == rest[l - 1];
            assert ps[m + 1] == close[l];
          } else {
            assert close[k] == rest[k - 1] && close[l] == rest[l - 1];
          }
        }
      }
    }
  }

  /** The edges for the index pairs `ps`. */
  function EdgesAt(dots: seq<Dot>, ps: seq<(nat, nat)>, maxDistance: real, diagonal: (real, real) -> real): (edges: seq<Edge>)
    requires Within(ps, |dots|)
    ensures |edges| == |ps|
  {
    seq(|ps|, k requires 0 <= k < |ps| => EdgeOf(dots[ps[k].0], dots[ps[k].1], maxDistance, diagonal))
  }

  lemma PairsAtTail<T>(dots: seq<T>, ps: seq<(nat, nat)>)
    requires Within(ps, |dots|) && |ps| > 0
    ensures PairsAt(dots, ps)[0] == (dots[ps[0].0], dots[ps[0].1])
    ensures PairsAt(dots, ps)[1..] == PairsAt(dots, ps[1..])
  {
  }

  lemma EdgesAtCons(dots: seq<Dot>, p: (nat, nat), ps: seq<(nat, nat)>, maxDistance: real,
                    diagonal: (real, real) -> real)
    requires p.0 < p.1 < |dots| && Within(ps, |dots|)
    ensures Within([p] + ps, |dots|)
    ensures EdgesAt(dots, [p] + ps, maxDistance, diagonal)
         == [EdgeOf(dots[p.0], dots[p.1], maxDistance, diagonal)] + EdgesAt(dots, ps, maxDistance, diagonal)
  {
    assert forall k :: 0 <= k < |ps| ==> ps[k] == ([p] + ps)[k + 1];
  }

  lemma {:induction false} VerticesAt(dots: seq<Dot>, ps: seq<(nat, nat)>, maxDistance: real,
                                      diagonal: (real, real) -> real)
    requires Within(ps, |dots|)
    ensures Vertices(PairsAt(dots, ps), maxDistance, diagonal)
         == EdgesAt(dots, CloseAmong(dots, ps, maxDistance, diagonal), maxDistance, diagonal)
  {
    if |ps| > 0 {
      PairsAtTail(dots, ps);
      VerticesAt(dots, ps[1..], maxDistance, diagonal);
      var restClose := CloseAmong(dots, ps[1..], maxDistance, diagonal);
      if DistanceOfDots(dots[ps[0].0], dots[ps[0].1], diagonal) <= maxDistance {
        EdgesAtCons(dots, ps[0], restClose, maxDistance, diagonal);
      }
    }
  }

  /**
   * The edges `drawVertices` draws are exactly one per index pair i < j whose
   * dots lie within the padding of each other, in lexicographic order of the
   * pairs, each carrying the opacity of its distance; an index pair and its
   * reverse never both appear.
   */
  lemma DrawVerticesSpec(dots: seq<Dot>, maxVertexLength: real, innerWidth: real, innerHeight: real,
                         diagonal: (real, real) -> real)
    requires IsDiagonal(innerWidth, innerHeight, diagonal(innerWidth, innerHeight))
    ensures var maxDistance := CanvasPadding(maxVertexLength, innerWidth, innerHeight, diagonal(innerWidth, innerHeight));
      var close := CloseIndexPairs(dots, maxDistance, diagonal);
      && Within(close, |dots|)
      && StrictlySorted(close)
      && (forall i, j :: (i, j) in close <==>
            0 <= i < j < |dots| && DistanceOfDots(dots[i], dots[j], diagonal) <= maxDistance)
      && DrawVertices(dots, maxVertexLength, innerWidth, innerHeight, diagonal)
         == EdgesAt(dots, close, maxDistance, diagonal)
  {
    var n := |dots|;
    var maxDistance := CanvasPadding(maxVertexLength, innerWidth, innerHeight, diagonal(innerWidth, innerHeight));
    DotPairsEnumeration(dots);
    VerticesAt(dots, IndexPairs(n), maxDistance, diagonal);
    CloseAmongSorted(dots, IndexPairs(n), maxDistance, diagonal);
    CloseAmongMembers(dots, IndexPairs(n), maxDistance, diagonal);
    forall i, j | (i, j) in IndexPairs(n)
      ensures 0 <= i < j < n
    {
      var k :| 0 <= k < |IndexPairs(n)| && IndexPairs(n)[k] == (i, j);
    }
  }

  /** The close index pairs among all index pairs of `dots`. */
  function CloseIndexPairs(dots: seq<Dot>, maxDistance: real, diagonal: (real, real) -> real): (close: seq<(nat, nat)>)
    ensures Within(close, |dots|)
  {
    IndexPairsWithin(|dots|);
    CloseAmong(dots, IndexPairs(|dots|), maxDistance, diagonal)
  }
}
