/** The numpy arrays the bootstrap routines handle: `float` arrays of one or
    two dimensions, stored row-major. A matrix keeps its column count so that a
    matrix with no rows still has a shape. */
module NdArrays {

  datatype Shape = Shape1(len: nat) | Shape2(rows: nat, cols: nat)

  datatype NdArray = Vector(v: seq<real>) | Matrix(cols: nat, rows: seq<seq<real>>)

  /** Number of elements of an array of shape `s` (numpy's `size`). */
  function ShapeSize(s: Shape): nat
  {
    match s
    case Shape1(n) => n
    case Shape2(r, c) => r * c
  }

  predicate Rectangular(rows: seq<seq<real>>, cols: nat)
  {
    forall i :: 0 <= i < |rows| ==> |rows[i]| == cols
  }

  /** Every numpy matrix is rectangular. */
  predicate WellFormed(a: NdArray)
  {
    a.Matrix? ==> Rectangular(a.rows, a.cols)
  }

  function ShapeOf(a: NdArray): Shape
  {
    match a
    case Vector(v) => Shape1(|v|)
    case Matrix(c, rows) => Shape2(|rows|, c)
  }

  function Size(a: NdArray): nat
  {
    ShapeSize(ShapeOf(a))
  }

  /** Row-major concatenation of the rows of a matrix. */
  function Concat(rows: seq<seq<real>>): seq<real>
  {
    if |rows| == 0 then [] else rows[0] + Concat(rows[1..])
  }

  lemma {:induction false} ConcatLength(rows: seq<seq<real>>, cols: nat)
    requires Rectangular(rows, cols)
    ensures |Concat(rows)| == |rows| * cols
  {
    if |rows| > 0 {
      ConcatLength(rows[1..], cols);
      assert |rows| * cols == cols + (|rows| - 1) * cols;
    }
  }

  /** An element of the concatenation is an element of some row, and back. */
  lemma {:induction false} ConcatMembership(rows: seq<seq<real>>, x: real)
    ensures x in Concat(rows) <==> exists i :: 0 <= i < |rows| && x in rows[i]
  {
    if |rows| > 0 {
      ConcatMembership(rows[1..], x);
      if x in Concat(rows[1..]) {
        var i :| 0 <= i < |rows[1..]| && x in rows[1..][i];
        assert x in rows[i + 1];
      }
      if exists i :: 0 <= i < |rows| && x in rows[i] {
        var i :| 0 <= i < |rows| && x in rows[i];
        if i > 0 {
          assert x in rows[1..][i - 1];
        }
      }
    }
  }

  /** Entry `(i, j)` of a rectangular matrix sits at position `i * c + j` of
      the concatenation of its rows. */
  lemma {:induction false} ConcatIndex(rows: seq<seq<real>>, c: nat, i: nat, j: nat)
    requires Rectangular(rows, c) && i < |rows| && j < c
    ensures Position(i, c, j) < |Concat(rows)| && Concat(rows)[Position(i, c, j)] == rows[i][j]
  {
    if i > 0 {
      ConcatIndex(rows[1..], c, i - 1, j);
      assert Position(i, c, j) == c + Position(i - 1, c, j);
    }
  }

  /** The row-major position of entry `(i, j)` in a matrix of `c` columns. */
  function Position(i: nat, c: nat, j: nat): nat
  {
    i * c + j
  }

  /** Every entry of a rectangular matrix, at its row-major position. */
  lemma ConcatIndices(rows: seq<seq<real>>, c: nat)
    requires Rectangular(rows, c)
    ensures forall i, j :: 0 <= i < |rows| && 0 <= j < c ==>
      Position(i, c, j) < |Concat(rows)| && Concat(rows)[Position(i, c, j)] == rows[i][j]
  {
    forall i, j | 0 <= i < |rows| && 0 <= j < c
      ensures Position(i, c, j) < |Concat(rows)| && Concat(rows)[Position(i, c, j)] == rows[i][j]
    {
      ConcatIndex(rows, c, i, j);
    }
  }

  /** The flat (row-major) view of an array, numpy's `a.flat`: entry `(i, j)`
      of a matrix is flat entry `Position(i, cols, j)`. */
  function Flat(a: NdArray): (f: seq<real>)
    requires WellFormed(a)
    ensures |f| == Size(a)
    ensures a.Matrix? ==> forall i, j :: 0 <= i < |a.rows| && 0 <= j < a.cols ==>
      Position(i, a.cols, j) < |f| && f[Position(i, a.cols, j)] == a.rows[i][j]
  {
    if a.Vector? then a.v
    else
      ConcatLength(a.rows, a.cols);
      ConcatIndices(a.rows, a.cols);
      Concat(a.rows)
  }

  /** Cuts `values` into `r` consecutive rows of `c` elements. */
  function Chunk(values: seq<real>, r: nat, c: nat): (rows: seq<seq<real>>)
    requires |values| == r * c
    ensures |rows| == r
    ensures Rectangular(rows, c)
    ensures Concat(rows) == values
  {
    if r == 0 then []
    else
      assert |values| == c + (r - 1) * c;
      var tail := Chunk(values[c..], r - 1, c);
      assert values == values[..c] + values[c..];
      [values[..c]] + tail
  }

  /** numpy's `reshape` of a flat sequence of values into shape `s`. */
  function Reshape(values: seq<real>, s: Shape): (a: NdArray)
    requires |values| == ShapeSize(s)
    ensures WellFormed(a)
    ensures ShapeOf(a) == s
    ensures Flat(a) == values
  {
    match s
    case Shape1(_) => Vector(values)
    case Shape2(r, c) => Matrix(c, Chunk(values, r, c))
  }

  /** Concatenating rows combined entry by entry combines the concatenations
      entry by entry. */
  lemma {:induction false} ConcatCombine(ra: seq<seq<real>>, rb: seq<seq<real>>, rr: seq<seq<real>>,
                                         c: nat, op: (real, real) -> real)
    requires Rectangular(ra, c) && Rectangular(rb, c) && Rectangular(rr, c)
    requires |ra| == |rr| && |rb| == |rr|
    requires forall i, j :: 0 <= i < |rr| && 0 <= j < c ==> rr[i][j] == op(ra[i][j], rb[i][j])
    ensures |Concat(ra)| == |Concat(rr)| && |Concat(rb)| == |Concat(rr)|
    ensures forall k :: 0 <= k < |Concat(rr)| ==> Concat(rr)[k] == op(Concat(ra)[k], Concat(rb)[k])
  {
    ConcatLength(ra, c);
    ConcatLength(rb, c);
    ConcatLength(rr, c);
    if |rr| > 0 {
      ConcatCombine(ra[1..], rb[1..], rr[1..], c, op);
      forall k | 0 <= k < |Concat(rr)|
        ensures Concat(rr)[k] == op(Concat(ra)[k], Concat(rb)[k])
      {
        if k < c {
          assert Concat(rr)[k] == rr[0][k];
          assert Concat(ra)[k] == ra[0][k] && Concat(rb)[k] == rb[0][k];
        } else {
          assert Concat(rr)[k] == Concat(rr[1..])[k - c];
          assert Concat(ra)[k] == Concat(ra[1..])[k - c] && Concat(rb)[k] == Concat(rb[1..])[k - c];
        }
      }
    }
  }

  /** Element-wise combination of two arrays of equal shape. */
  function Combine(a: NdArray, b: NdArray, op: (real, real) -> real): (r: NdArray)
    requires WellFormed(a) && WellFormed(b) && ShapeOf(a) == ShapeOf(b)
    ensures WellFormed(r) && ShapeOf(r) == ShapeOf(a)
    ensures forall k :: 0 <= k < Size(a) ==> Flat(r)[k] == op(Flat(a)[k], Flat(b)[k])
  {
    match a
    case Vector(v) =>
      Vector(seq(|v|, i requires 0 <= i < |v| => op(v[i], b.v[i])))
    case Matrix(c, rows) =>
      var combined := seq(|rows|, i requires 0 <= i < |rows| =>
        seq(c, j requires 0 <= j < c => op(rows[i][j], b.rows[i][j])));
      ConcatCombine(rows, b.rows, combined, c, op);
      Matrix(c, combined)
  }

  /** numpy's `a + b` on arrays of equal shape: entry by entry. */
  function Plus(a: NdArray, b: NdArray): (r: NdArray)
    requires WellFormed(a) && WellFormed(b) && ShapeOf(a) == ShapeOf(b)
    ensures WellFormed(r) && ShapeOf(r) == ShapeOf(a)
    ensures forall k :: 0 <= k < Size(a) ==> Flat(r)[k] == Flat(a)[k] + Flat(b)[k]
  {
    Combine(a, b, (x, y) => x + y)
  }

  /** numpy's `a - b` on arrays of equal shape: entry by entry. */
  function Minus(a: NdArray, b: NdArray): (r: NdArray)
    requires WellFormed(a) && WellFormed(b) && ShapeOf(a) == ShapeOf(b)
    ensures WellFormed(r) && ShapeOf(r) == ShapeOf(a)
    ensures forall k :: 0 <= k < Size(a) ==> Flat(r)[k] == Flat(a)[k] - Flat(b)[k]
  {
    Combine(a, b, (x, y) => x - y)
  }

  /** Adding back what was subtracted restores the original array. */
  lemma PlusMinusCancel(base: NdArray, y: NdArray)
    requires WellFormed(base) && WellFormed(y) && ShapeOf(base) == ShapeOf(y)
    ensures Plus(base, Minus(y, base)) == y
  {
    var d := Minus(y, base);
    match y
    case Vector(v) =>
      assert Plus(base, d).v == v;
    case Matrix(c, rows) =>
      forall i | 0 <= i < |rows|
        ensures Plus(base, d).rows[i] == rows[i]
      {
      }
  }

  /** numpy's `np.tile(v, [k, 1]).T`: row `i` repeats `v[i]` `k` times. */
  function TileColumns(v: seq<real>, k: nat): (a: NdArray)
    ensures WellFormed(a) && ShapeOf(a) == Shape2(|v|, k)
    ensures forall i, j :: 0 <= i < |v| && 0 <= j < k ==> a.rows[i][j] == v[i]
  {
    Matrix(k, seq(|v|, i requires 0 <= i < |v| => seq(k, _ => v[i])))
  }

  /** The distinct values of a sequence, Python's `set(x)`. */
  function Distinct(x: seq<real>): set<real>
  {
    set v | v in x
  }

  /** There are no more distinct values than values, and at least one when
      there are any. */
  lemma {:induction false} DistinctBounds(x: seq<real>)
    ensures |Distinct(x)| <= |x|
    ensures |x| > 0 ==> |Distinct(x)| >= 1
  {
    if |x| > 0 {
      var init := x[..|x| - 1];
      DistinctBounds(init);
      assert Distinct(x) == Distinct(init) + {x[|x| - 1]} by {
        assert x == init + [x[|x| - 1]];
      }
      assert x[0] in Distinct(x);
    }
  }
}
