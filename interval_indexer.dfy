/**
 * The index arithmetic a single cell relies on (ImgLib2's IntervalIndexer and
 * Intervals.numElements): flat storage is row-major with the FIRST dimension
 * varying fastest, so the allocation step of dimension d is the product of the
 * extents of dimensions 0 .. d-1, and a position's linear index is the sum of
 * its offsets from the box minimum, each weighted by its step.
 */
module IntervalIndexer {

  /** Every extent is non-negative. */
  predicate NonNegative(dims: seq<int>)
  {
    forall d :: 0 <= d < |dims| ==> dims[d] >= 0
  }

  /** Every extent is at least one: the box holds at least one element. */
  predicate Positive(dims: seq<int>)
  {
    forall d :: 0 <= d < |dims| ==> dims[d] >= 1
  }

  /** The number of elements of a box with extents dims (Intervals.numElements). */
  function Product(dims: seq<int>): int
  {
    if |dims| == 0 then 1 else dims[0] * Product(dims[1..])
  }

  lemma {:induction false} ProductSnoc(dims: seq<int>, x: int)
    ensures Product(dims + [x]) == Product(dims) * x
  {
    if |dims| == 0 {
      assert dims + [x] == [x];
      assert [x][1..] == [];
    } else {
      assert (dims + [x])[1..] == dims[1..] + [x];
      ProductSnoc(dims[1..], x);
      assert Product(dims + [x]) == dims[0] * (Product(dims[1..]) * x);
    }
  }

  lemma {:induction false} ProductNonNegative(dims: seq<int>)
    requires NonNegative(dims)
    ensures Product(dims) >= 0
  {
    if |dims| > 0 {
      ProductNonNegative(dims[1..]);
    }
  }

  /** A box that holds an element has no empty extent. */
  lemma {:induction false} ProductPositive(dims: seq<int>)
    requires NonNegative(dims) && Product(dims) > 0
    ensures Positive(dims)
  {
    if |dims| > 0 {
      ProductNonNegative(dims[1..]);
      ProductPositive(dims[1..]);
      forall d | 1 <= d < |dims|
        ensures dims[d] >= 1
      {
        assert dims[d] == dims[1..][d - 1];
      }
    }
  }

  /**
   * IntervalIndexer.createAllocationSteps: the step of dimension d is the
   * number of elements in a slab spanned by dimensions 0 .. d-1.
   */
  function AllocationSteps(dims: seq<int>): (steps: seq<int>)
    ensures |steps| == |dims|
  {
    seq(|dims|, d requires 0 <= d < |dims| => Product(dims[..d]))
  }

  /**
   * The steps start at one, each is the previous one times its extent, and
   * the last one times its extent is the number of elements of the box.
   */
  lemma AllocationStepsRecurrence(dims: seq<int>, d: int)
    requires 0 <= d < |dims|
    ensures AllocationSteps(dims)[0] == 1
    ensures d + 1 < |dims| ==> AllocationSteps(dims)[d + 1] == AllocationSteps(dims)[d] * dims[d]
    ensures d + 1 == |dims| ==> Product(dims) == AllocationSteps(dims)[d] * dims[d]
  {
    assert dims[..0] == [];
    ProductSnoc(dims[..d], dims[d]);
    assert dims[..d] + [dims[d]] == dims[..d + 1];
    if d + 1 == |dims| {
      assert dims[..d + 1] == dims;
    }
  }

  /** For non-negative extents every step is non-negative. */
  lemma AllocationStepsNonNegative(dims: seq<int>)
    requires NonNegative(dims)
    ensures NonNegative(AllocationSteps(dims))
  {
    forall d | 0 <= d < |dims|
      ensures AllocationSteps(dims)[d] >= 0
    {
      ProductNonNegative(dims[..d]);
    }
  }

  /**
   * IntervalIndexer.createAllocationSteps(dimensions, steps): writes the
   * steps of dimensions into steps.
   */
  method CreateAllocationSteps(dimensions: array<int>, steps: array<int>)
    requires 1 <= dimensions.Length == steps.Length
    requires dimensions != steps
    modifies steps
    ensures steps[..] == AllocationSteps(dimensions[..])
  {
    steps[0] := 1;
    assert dimensions[..0] == [];
    var d := 1;
    while d < dimensions.Length
      invariant 1 <= d <= dimensions.Length
      invariant forall e :: 0 <= e < d ==> steps[e] == Product(dimensions[..e])
    {
      ProductSnoc(dimensions[..d - 1], dimensions[d - 1]);
      assert dimensions[..d - 1] + [dimensions[d - 1]] == dimensions[..d];
      steps[d] := steps[d - 1] * dimensions[d - 1];
      d := d + 1;
    }
  }

  /** The linear index of pos in a box at min: the sum of (pos[d] - min[d]) * steps[d]. */
  function Linear(pos: seq<int>, min: seq<int>, steps: seq<int>): int
    requires |pos| == |min| == |steps|
  {
    if |pos| == 0 then 0
    else (pos[0] - min[0]) * steps[0] + Linear(pos[1..], min[1..], steps[1..])
  }

  /** Adding a dimension at the end adds its weighted offset (the order a loop over d sums in). */
  lemma {:induction false} LinearAppend(pos: seq<int>, min: seq<int>, steps: seq<int>, p: int, m: int, s: int)
    requires |pos| == |min| == |steps|
    ensures Linear(pos + [p], min + [m], steps + [s]) == Linear(pos, min, steps) + (p - m) * s
  {
    if |pos| == 0 {
      assert pos + [p] == [p] && min + [m] == [m] && steps + [s] == [s];
    } else {
      assert (pos + [p])[1..] == pos[1..] + [p];
      assert (min + [m])[1..] == min[1..] + [m];
      assert (steps + [s])[1..] == steps[1..] + [s];
      LinearAppend(pos[1..], min[1..], steps[1..], p, m, s);
    }
  }

  /** Changing one coordinate changes the linear index by the change times that dimension's step. */
  lemma {:induction false} LinearUpdate(pos: seq<int>, min: seq<int>, steps: seq<int>, d: int, v: int)
    requires |pos| == |min| == |steps| && 0 <= d < |pos|
    ensures Linear(pos[d := v], min, steps) == Linear(pos, min, steps) + (v - pos[d]) * steps[d]
  {
    if d == 0 {
      assert pos[d := v][1..] == pos[1..];
    } else {
      assert pos[d := v][1..] == pos[1..][d - 1 := v];
      LinearUpdate(pos[1..], min[1..], steps[1..], d - 1, v);
    }
  }

  /** The minimum of a box has linear index zero. */
  lemma {:induction false} LinearAtOrigin(min: seq<int>, steps: seq<int>)
    requires |min| == |steps|
    ensures Linear(min, min, steps) == 0
  {
    if |min| > 0 {
      LinearAtOrigin(min[1..], steps[1..]);
    }
  }

  /** The all-zero vector of length n. */
  function Zeros(n: nat): (z: seq<int>)
    ensures |z| == n && forall d :: 0 <= d < n ==> z[d] == 0
  {
    seq(n, d => 0)
  }

  /** The coordinate-wise sum of a position and a distance. */
  function Add(pos: seq<int>, dist: seq<int>): (r: seq<int>)
    requires |pos| == |dist|
    ensures |r| == |pos| && forall d :: 0 <= d < |pos| ==> r[d] == pos[d] + dist[d]
  {
    seq(|pos|, d requires 0 <= d < |pos| => pos[d] + dist[d])
  }

  /** Moving a position by dist adds the linear index of dist (taken from the origin). */
  lemma {:induction false} LinearShift(pos: seq<int>, dist: seq<int>, min: seq<int>, steps: seq<int>)
    requires |pos| == |dist| == |min| == |steps|
    ensures Linear(Add(pos, dist), min, steps) == Linear(pos, min, steps) + Linear(dist, Zeros(|dist|), steps)
  {
    if |pos| > 0 {
      var moved, zeros := Add(pos, dist), Zeros(|dist|);
      assert moved[1..] == Add(pos[1..], dist[1..]);
      assert zeros[1..] == Zeros(|dist| - 1);
      LinearShift(pos[1..], dist[1..], min[1..], steps[1..]);
      assert Linear(moved, min, steps) == (moved[0] - min[0]) * steps[0] + Linear(moved[1..], min[1..], steps[1..]);
      assert Linear(dist, zeros, steps) == (dist[0] - zeros[0]) * steps[0] + Linear(dist[1..], zeros[1..], steps[1..]);
      Distribute(pos[0] - min[0], dist[0], steps[0]);
    }
  }

  lemma Distribute(a: int, b: int, s: int)
    ensures (a + b) * s == a * s + b * s
  {
  }

  /** The linear index over the first d + 1 coordinates adds coordinate d's term to that over the first d. */
  lemma LinearPrefixStep(pos: seq<int>, min: seq<int>, steps: seq<int>, d: int)
    requires |pos| == |min| == |steps| && 0 <= d < |pos|
    ensures Linear(pos[..d + 1], min[..d + 1], steps[..d + 1])
        == Linear(pos[..d], min[..d], steps[..d]) + (pos[d] - min[d]) * steps[d]
  {
    assert pos[..d + 1] == pos[..d] + [pos[d]];
    assert min[..d + 1] == min[..d] + [min[d]];
    assert steps[..d + 1] == steps[..d] + [steps[d]];
    LinearAppend(pos[..d], min[..d], steps[..d], pos[d], min[d], steps[d]);
  }

  /** Every element of s multiplied by c. */
  function Scale(c: int, s: seq<int>): (r: seq<int>)
    ensures |r| == |s| && forall i :: 0 <= i < |s| ==> r[i] == c * s[i]
  {
    seq(|s|, i requires 0 <= i < |s| => c * s[i])
  }

  lemma {:induction false} LinearScale(pos: seq<int>, min: seq<int>, steps: seq<int>, c: int)
    requires |pos| == |min| == |steps|
    ensures Linear(pos, min, Scale(c, steps)) == c * Linear(pos, min, steps)
  {
    if |pos| > 0 {
      assert Scale(c, steps)[1..] == Scale(c, steps[1..]);
      LinearScale(pos[1..], min[1..], steps[1..], c);
      assert (pos[0] - min[0]) * (c * steps[0]) == c * ((pos[0] - min[0]) * steps[0]);
    }
  }

  /** The steps of dims are 1 followed by the first extent times the steps of the remaining dimensions. */
  lemma StepsTail(dims: seq<int>)
    requires |dims| >= 1
    ensures AllocationSteps(dims)[0] == 1
    ensures AllocationSteps(dims)[1..] == Scale(dims[0], AllocationSteps(dims[1..]))
  {
    assert dims[..0] == [];
    forall k | 0 <= k < |dims| - 1
      ensures AllocationSteps(dims)[1..][k] == dims[0] * AllocationSteps(dims[1..])[k]
    {
      assert dims[..k + 1][1..] == dims[1..][..k];
    }
  }

  /** The linear index in Horner form: the first offset plus the first extent times the index of the rest. */
  lemma LinearSteps(pos: seq<int>, min: seq<int>, dims: seq<int>)
    requires |pos| == |min| == |dims| >= 1
    ensures Linear(pos, min, AllocationSteps(dims))
         == (pos[0] - min[0]) + dims[0] * Linear(pos[1..], min[1..], AllocationSteps(dims[1..]))
  {
    StepsTail(dims);
    LinearScale(pos[1..], min[1..], AllocationSteps(dims[1..]), dims[0]);
  }

  /** pos lies in the box that starts at min and has extents dims. */
  predicate InBox(pos: seq<int>, min: seq<int>, dims: seq<int>)
  {
    && |pos| == |min| == |dims|
    && forall d :: 0 <= d < |pos| ==> min[d] <= pos[d] < min[d] + dims[d]
  }

  lemma InBoxTail(pos: seq<int>, min: seq<int>, dims: seq<int>)
    requires InBox(pos, min, dims) && |pos| >= 1
    ensures InBox(pos[1..], min[1..], dims[1..])
  {
    forall d | 0 <= d < |pos| - 1
      ensures min[1..][d] <= pos[1..][d] < min[1..][d] + dims[1..][d]
    {
      assert min[d + 1] <= pos[d + 1] < min[d + 1] + dims[d + 1];
    }
  }

  /** Every position of a box has a linear index in 0 .. Product(dims) - 1. */
  lemma {:induction false} LinearBounds(pos: seq<int>, min: seq<int>, dims: seq<int>)
    requires InBox(pos, min, dims)
    ensures 0 <= Linear(pos, min, AllocationSteps(dims)) < Product(dims)
  {
    if |pos| > 0 {
      InBoxTail(pos, min, dims);
      LinearBounds(pos[1..], min[1..], dims[1..]);
      LinearSteps(pos, min, dims);
      HornerBounds(pos[0] - min[0], dims[0], Linear(pos[1..], min[1..], AllocationSteps(dims[1..])), Product(dims[1..]));
    } else {
      assert Product(dims) == 1;
    }
  }

  /** A digit below its base plus the base times a number below p is below base * p. */
  lemma HornerBounds(x: int, base: int, rest: int, p: int)
    requires 0 <= x < base && 0 <= rest < p
    ensures 0 <= x + base * rest < base * p
  {
    MulMonotone(base, rest, p - 1);
    assert base * (p - 1) == base * p - base;
  }

  function Abs(a: int): nat
  {
    if a < 0 then -a else a
  }

  /** Java's integer division, which truncates toward zero. */
  function JavaDiv(a: int, b: int): (q: int)
    requires b != 0
    ensures a >= 0 && b > 0 ==> q == a / b
  {
    var q := Abs(a) / Abs(b);
    if (a < 0) == (b < 0) then q else -q
  }

  lemma DivUnique(a: int, b: int, q: int, r: int)
    requires b > 0 && 0 <= r < b && a == b * q + r
    ensures a / b == q
  {
    var k := q - a / b;
    assert b * k == a % b - r;
    MulBetween(b, k);
  }

  lemma DivMod(a: int, b: int)
    requires b > 0
    ensures a == b * (a / b) + a % b && 0 <= a % b < b
  {
  }

  lemma MulBetween(b: int, k: int)
    requires b > 0 && -b < b * k < b
    ensures k == 0
  {
    if k > 0 {
      MulMonotone(b, 1, k);
    } else if k < 0 {
      MulMonotone(b, k, -1);
    }
  }

  lemma MulMonotone(a: int, x: int, y: int)
    requires a >= 0 && x <= y
    ensures a * x <= a * y
  {
  }

  /** Dividing an index of a box of a * p elements by a gives an index of the remaining p. */
  lemma DivSplit(index: int, a: int, p: int)
    requires a > 0 && 0 <= index < a * p
    ensures 0 <= index / a < p
    ensures 0 <= index - (index / a) * a < a
  {
    if index / a >= p {
      MulMonotone(a, p, index / a);
    }
  }

  /**
   * IntervalIndexer.indexToPositionWithOffset: the position, in a box at
   * offsets with extents dims, of the element at a linear index. Each of the
   * first n-1 coordinates is the remainder of a (truncating) division by its
   * extent; the last coordinate takes the whole remaining quotient.
   */
  function IndexToPositionWithOffset(index: int, dims: seq<int>, offsets: seq<int>): (pos: seq<int>)
    requires |dims| == |offsets| >= 1
    requires forall d :: 0 <= d < |dims| - 1 ==> dims[d] != 0
    ensures |pos| == |dims|
    decreases |dims|
  {
    if |dims| == 1 then [index + offsets[0]]
    else
      var j := JavaDiv(index, dims[0]);
      [index - j * dims[0] + offsets[0]] + IndexToPositionWithOffset(j, dims[1..], offsets[1..])
  }

  /** Every index of a box maps to a position inside the box whose linear index it is. */
  lemma {:induction false} IndexToPositionInBox(index: int, dims: seq<int>, offsets: seq<int>)
    requires |dims| == |offsets| >= 1 && Positive(dims)
    requires 0 <= index < Product(dims)
    ensures InBox(IndexToPositionWithOffset(index, dims, offsets), offsets, dims)
    ensures Linear(IndexToPositionWithOffset(index, dims, offsets), offsets, AllocationSteps(dims)) == index
    decreases |dims|
  {
    if |dims| == 1 {
      var pos := IndexToPositionWithOffset(index, dims, offsets);
      assert dims[1..] == [] && pos[1..] == [] && offsets[1..] == [];
      assert Product(dims) == dims[0];
      LinearSteps(pos, offsets, dims);
    } else {
      var j, r := index / dims[0], index % dims[0];
      IndexToPositionSplit(index, dims, offsets);
      PositiveTail(dims);
      IndexToPositionInBox(j, dims[1..], offsets[1..]);
      var rest := IndexToPositionWithOffset(j, dims[1..], offsets[1..]);
      var pos := [r + offsets[0]] + rest;
      assert pos[1..] == rest;
      assert Linear(pos, offsets, AllocationSteps(dims)) == index by {
        LinearSteps(pos, offsets, dims);
      }
      forall d | 0 <= d < |pos|
        ensures offsets[d] <= pos[d] < offsets[d] + dims[d]
      {
        if d > 0 {
          assert pos[d] == rest[d - 1];
        }
      }
    }
  }

  /**
   * The position of an element of a box, given its linear index: it lies in
   * the box and its linear index is the one it was computed from.
   */
  function PositionAt(index: int, dims: seq<int>, offsets: seq<int>): (pos: seq<int>)
    requires |dims| == |offsets| >= 1 && NonNegative(dims)
    requires 0 <= index < Product(dims)
    ensures InBox(pos, offsets, dims)
    ensures Linear(pos, offsets, AllocationSteps(dims)) == index
  {
    ProductPositive(dims);
    IndexToPositionInBox(index, dims, offsets);
    IndexToPositionWithOffset(index, dims, offsets)
  }

  /** The positions of a box in flat iteration order, dimension 0 fastest. */
  function FlatPositions(dims: seq<int>, offsets: seq<int>): (ps: seq<seq<int>>)
    requires |dims| == |offsets| >= 1 && NonNegative(dims)
    ensures |ps| == Product(dims)
    ensures forall i :: 0 <= i < |ps| ==> ps[i] == PositionAt(i, dims, offsets)
  {
    ProductNonNegative(dims);
    seq(Product(dims), i requires 0 <= i < Product(dims) => PositionAt(i, dims, offsets))
  }

  /** One step of IndexToPositionWithOffset on a non-negative index: remainder first, quotient to the rest. */
  lemma IndexToPositionSplit(index: int, dims: seq<int>, offsets: seq<int>)
    requires |dims| == |offsets| >= 2 && Positive(dims)
    requires 0 <= index < Product(dims)
    ensures 0 <= index / dims[0] < Product(dims[1..])
    ensures 0 <= index % dims[0] < dims[0]
    ensures index == index % dims[0] + dims[0] * (index / dims[0])
    ensures IndexToPositionWithOffset(index, dims, offsets)
         == [index % dims[0] + offsets[0]] + IndexToPositionWithOffset(index / dims[0], dims[1..], offsets[1..])
  {
    var q, r := index / dims[0], index % dims[0];
    assert 0 <= q < Product(dims[1..]) by {
      assert Product(dims) == dims[0] * Product(dims[1..]);
      DivSplit(index, dims[0], Product(dims[1..]));
    }
    assert index - q * dims[0] == r && index == r + dims[0] * q by {
      DivMod(index, dims[0]);
    }
    assert IndexToPositionWithOffset(index, dims, offsets)
        == [index - q * dims[0] + offsets[0]] + IndexToPositionWithOffset(q, dims[1..], offsets[1..]) by {
      assert JavaDiv(index, dims[0]) == q;
    }
  }

  lemma PositiveTail(dims: seq<int>)
    requires Positive(dims) && |dims| >= 1
    ensures Positive(dims[1..])
  {
    forall d | 0 <= d < |dims| - 1
      ensures dims[1..][d] >= 1
    {
      assert dims[1..][d] == dims[d + 1];
    }
  }

  /** On the positions of a box, IndexToPositionWithOffset inverts Linear. */
  lemma {:induction false} PositionToIndexInverse(pos: seq<int>, min: seq<int>, dims: seq<int>)
    requires InBox(pos, min, dims) && |pos| >= 1
    ensures Positive(dims)
    ensures IndexToPositionWithOffset(Linear(pos, min, AllocationSteps(dims)), dims, min) == pos
  {
    assert forall d :: 0 <= d < |dims| ==> min[d] <= pos[d] < min[d] + dims[d];
    var index := Linear(pos, min, AllocationSteps(dims));
    LinearSteps(pos, min, dims);
    if |pos| == 1 {
      assert pos[1..] == [] && min[1..] == [] && dims[1..] == [];
    } else {
      InBoxTail(pos, min, dims);
      var rest := Linear(pos[1..], min[1..], AllocationSteps(dims[1..]));
      LinearBounds(pos[1..], min[1..], dims[1..]);
      DivUnique(index, dims[0], rest, pos[0] - min[0]);
      PositionToIndexInverse(pos[1..], min[1..], dims[1..]);
      assert JavaDiv(index, dims[0]) == rest;
      assert IndexToPositionWithOffset(index, dims, min)
          == [index - rest * dims[0] + min[0]] + pos[1..];
    }
  }

  /** Every position of a box is the position of its own linear index. */
  lemma PositionAtLinear(pos: seq<int>, min: seq<int>, dims: seq<int>)
    requires InBox(pos, min, dims) && |pos| >= 1
    ensures NonNegative(dims) && 0 <= Linear(pos, min, AllocationSteps(dims)) < Product(dims)
    ensures PositionAt(Linear(pos, min, AllocationSteps(dims)), dims, min) == pos
  {
    LinearBounds(pos, min, dims);
    PositionToIndexInverse(pos, min, dims);
  }

  /** Java's % on int: the remainder takes the sign of the dividend. */
  function JavaRem(a: int, b: int): (r: int)
    requires b != 0
    ensures a >= 0 && b > 0 ==> r == a % b
  {
    if a >= 0 && b > 0 then DivMod(a, b); a - b * JavaDiv(a, b)
    else a - b * JavaDiv(a, b)
  }

  /**
   * The one-coordinate form of IntervalIndexer.indexToPositionWithOffset,
   * which takes the steps: index / steps[d] % dims[d] + offsets[d], with
   * Java's truncating division and remainder.
   */
  function CoordinateOf(index: int, dims: seq<int>, steps: seq<int>, offsets: seq<int>, d: int): int
    requires |dims| == |steps| == |offsets| && 0 <= d < |dims|
    requires steps[d] != 0 && dims[d] != 0
  {
    JavaRem(JavaDiv(index, steps[d]), dims[d]) + offsets[d]
  }

  /** A box without empty extents holds at least one element. */
  lemma {:induction false} ProductOfPositive(dims: seq<int>)
    requires Positive(dims)
    ensures Product(dims) >= 1
  {
    if |dims| > 0 {
      PositiveTail(dims);
      ProductOfPositive(dims[1..]);
      MulMonotone(dims[0], 1, Product(dims[1..]));
    }
  }

  /** Dividing by a and then by b is dividing by a * b. */
  lemma DivDiv(x: int, a: int, b: int)
    requires x >= 0 && a > 0 && b > 0
    ensures (x / a) / b == x / (a * b)
  {
    var q1, r1 := x / a, x % a;
    var q2, r2 := q1 / b, q1 % b;
    DivMod(x, a);
    DivMod(q1, b);
    assert a * q1 == (a * b) * q2 + a * r2 by {
      assert q1 == b * q2 + r2;
      Distribute(b * q2, r2, a);
    }
    HornerBounds(r1, a, r2, b);
    DivUnique(x, a * b, q2, r1 + a * r2);
  }

  /**
   * Inside the box, coordinate d of the position of an index is the index
   * divided by the step of d, modulo the extent of d, plus the offset.
   */
  lemma {:induction false} IndexToPositionCoordinate(index: int, dims: seq<int>, offsets: seq<int>, d: int)
    requires |dims| == |offsets| >= 1 && Positive(dims) && 0 <= d < |dims|
    requires 0 <= index < Product(dims)
    ensures AllocationSteps(dims)[d] >= 1
    ensures IndexToPositionWithOffset(index, dims, offsets)[d]
         == (index / AllocationSteps(dims)[d]) % dims[d] + offsets[d]
    decreases |dims|
  {
    var steps := AllocationSteps(dims);
    assert Positive(dims[..d]);
    ProductOfPositive(dims[..d]);
    if |dims| == 1 {
      assert Product(dims) == dims[0];
      DivUnique(index, dims[0], 0, index);
      DivMod(index, dims[0]);
    } else if d == 0 {
      IndexToPositionSplit(index, dims, offsets);
      assert steps[0] == 1;
    } else {
      IndexToPositionSplit(index, dims, offsets);
      var q := index / dims[0];
      PositiveTail(dims);
      IndexToPositionCoordinate(q, dims[1..], offsets[1..], d - 1);
      StepsTail(dims);
      var s := AllocationSteps(dims[1..])[d - 1];
      assert steps[d] == steps[1..][d - 1] == dims[0] * s;
      DivDiv(index, dims[0], s);
      assert IndexToPositionWithOffset(index, dims, offsets)[d]
          == IndexToPositionWithOffset(q, dims[1..], offsets[1..])[d - 1];
    }
  }

  /** Inside the box, the steps-based coordinate agrees with the position of the index. */
  lemma CoordinateOfInBox(index: int, dims: seq<int>, offsets: seq<int>, d: int)
    requires |dims| == |offsets| >= 1 && Positive(dims) && 0 <= d < |dims|
    requires 0 <= index < Product(dims)
    ensures AllocationSteps(dims)[d] >= 1
    ensures CoordinateOf(index, dims, AllocationSteps(dims), offsets, d)
         == IndexToPositionWithOffset(index, dims, offsets)[d]
  {
    IndexToPositionCoordinate(index, dims, offsets, d);
  }

  /**
   * The flat positions enumerate the box: each lies in it, no two are
   * equal, and every position of the box is the one at its own flat index.
   */
  lemma FlatPositionsEnumerateBox(dims: seq<int>, offsets: seq<int>)
    requires |dims| == |offsets| >= 1 && NonNegative(dims)
    ensures forall i :: 0 <= i < |FlatPositions(dims, offsets)| ==> InBox(FlatPositions(dims, offsets)[i], offsets, dims)
    ensures forall i, j :: 0 <= i < j < |FlatPositions(dims, offsets)| ==>
      FlatPositions(dims, offsets)[i] != FlatPositions(dims, offsets)[j]
    ensures forall pos :: InBox(pos, offsets, dims) ==>
      && 0 <= Linear(pos, offsets, AllocationSteps(dims)) < |FlatPositions(dims, offsets)|
      && FlatPositions(dims, offsets)[Linear(pos, offsets, AllocationSteps(dims))] == pos
  {
    var ps := FlatPositions(dims, offsets);
    forall pos | InBox(pos, offsets, dims)
      ensures 0 <= Linear(pos, offsets, AllocationSteps(dims)) < |ps| && ps[Linear(pos, offsets, AllocationSteps(dims))] == pos
    {
      PositionAtLinear(pos, offsets, dims);
    }
  }
}
