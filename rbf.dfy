/**
 * Radial basis function interpolation with an affine part
 * (packages/transform/src/shared/radial-basis-function.ts). The kernel, the norm and the
 * matrix inverse of `ml-matrix` are parameters; reals stand for JavaScript numbers.
 */
module RadialBasis {
  import opened Geometry
  import opened Wrappers

  /** `kernelFunction(r, epsilon)`. */
  type KernelFunction = (real, real) -> real
  /** `normFunction(p, q)`. */
  type NormFunction = (Pos, Pos) -> real
  /** `inverse` of `ml-matrix`: the entries (row, column) of the inverse of a square matrix. */
  type InverseFunction = seq<seq<real>> -> ((int, int) -> real)

  // ---------------------------------------------------------------------------
  // Finite sums

  function Sum(n: nat, f: int -> real): real
  {
    if n == 0 then 0.0 else Sum(n - 1, f) + f(n - 1)
  }

  lemma {:induction false} SumExt(n: nat, f: int -> real, g: int -> real)
    requires forall i :: 0 <= i < n ==> f(i) == g(i)
    ensures Sum(n, f) == Sum(n, g)
  {
    if n > 0 {
      SumExt(n - 1, f, g);
    }
  }

  lemma {:induction false} SumScale(n: nat, c: real, f: int -> real, g: int -> real)
    requires forall i :: 0 <= i < n ==> g(i) == c * f(i)
    ensures Sum(n, g) == c * Sum(n, f)
  {
    if n > 0 {
      SumScale(n - 1, c, f, g);
    }
  }

  /** A sum whose terms vanish except the `k`-th. */
  lemma {:induction false} SumSingle(n: nat, k: int, f: int -> real)
    requires 0 <= k < n
    requires forall i :: 0 <= i < n && i != k ==> f(i) == 0.0
    ensures Sum(n, f) == f(k)
  {
    if n - 1 != k {
      SumSingle(n - 1, k, f);
    } else {
      SumZero(n - 1, f);
    }
  }

  lemma {:induction false} SumZero(n: nat, f: int -> real)
    requires forall i :: 0 <= i < n ==> f(i) == 0.0
    ensures Sum(n, f) == 0.0
  {
    if n > 0 {
      SumZero(n - 1, f);
    }
  }

  function Row(f: (int, int) -> real, i: int, m: nat): real
  {
    if m == 0 then 0.0 else Row(f, i, m - 1) + f(i, m - 1)
  }

  function Col(f: (int, int) -> real, j: int, n: nat): real
  {
    if n == 0 then 0.0 else Col(f, j, n - 1) + f(n - 1, j)
  }

  /** The sum of all entries, row by row. */
  function SumByRows(f: (int, int) -> real, n: nat, m: nat): real
  {
    if n == 0 then 0.0 else SumByRows(f, n - 1, m) + Row(f, n - 1, m)
  }

  /** The sum of all entries, column by column. */
  function SumByCols(f: (int, int) -> real, n: nat, m: nat): real
  {
    if m == 0 then 0.0 else SumByCols(f, n, m - 1) + Col(f, m - 1, n)
  }

  lemma {:induction false} SumByRowsLastCol(f: (int, int) -> real, n: nat, m: nat)
    ensures SumByRows(f, n, m + 1) == SumByRows(f, n, m) + Col(f, m, n)
  {
    if n > 0 {
      SumByRowsLastCol(f, n - 1, m);
    }
  }

  /** The order of summation does not matter. */
  lemma {:induction false} SumOrder(f: (int, int) -> real, n: nat, m: nat)
    ensures SumByRows(f, n, m) == SumByCols(f, n, m)
  {
    if m == 0 {
      SumByRowsNoCols(f, n);
    } else {
      SumOrder(f, n, m - 1);
      SumByRowsLastCol(f, n, m - 1);
    }
  }

  lemma {:induction false} SumByRowsNoCols(f: (int, int) -> real, n: nat)
    ensures SumByRows(f, n, 0) == 0.0
  {
    if n > 0 {
      SumByRowsNoCols(f, n - 1);
    }
  }

  lemma {:induction false} RowIsSum(f: (int, int) -> real, i: int, m: nat, g: int -> real)
    requires forall j :: 0 <= j < m ==> g(j) == f(i, j)
    ensures Row(f, i, m) == Sum(m, g)
  {
    if m > 0 {
      RowIsSum(f, i, m - 1, g);
    }
  }

  lemma {:induction false} ColIsSum(f: (int, int) -> real, j: int, n: nat, g: int -> real)
    requires forall i :: 0 <= i < n ==> g(i) == f(i, j)
    ensures Col(f, j, n) == Sum(n, g)
  {
    if n > 0 {
      ColIsSum(f, j, n - 1, g);
    }
  }

  lemma {:induction false} SumOfRows(f: (int, int) -> real, n: nat, m: nat, g: int -> real)
    requires forall i :: 0 <= i < n ==> g(i) == Row(f, i, m)
    ensures Sum(n, g) == SumByRows(f, n, m)
  {
    if n > 0 {
      SumOfRows(f, n - 1, m, g);
    }
  }

  lemma {:induction false} SumOfCols(f: (int, int) -> real, n: nat, m: nat, g: int -> real)
    requires forall j :: 0 <= j < m ==> g(j) == Col(f, j, n)
    ensures Sum(m, g) == SumByCols(f, n, m)
  {
    if m > 0 {
      SumOfCols(f, n, m - 1, g);
    }
  }

  // ---------------------------------------------------------------------------
  // Linear algebra on entry functions

  /** Entry `j` of `inv` times the column vector `rhs`, both of size `m`: `inverse.mmul(rhs)`. */
  function Combination(inv: (int, int) -> real, rhs: int -> real, j: int, m: nat): real
  {
    Sum(m, l => inv(j, l) * rhs(l))
  }

  /** Entry `(r, l)` of the product of two `m` by `m` matrices. */
  function MatProd(b: (int, int) -> real, inv: (int, int) -> real, m: nat, r: int, l: int): real
  {
    Sum(m, j => b(r, j) * inv(j, l))
  }

  /** `inv` is a right inverse of `b`. */
  ghost predicate RightInverse(b: (int, int) -> real, inv: (int, int) -> real, m: nat)
  {
    forall r, l :: 0 <= r < m && 0 <= l < m ==> MatProd(b, inv, m, r, l) == if r == l then 1.0 else 0.0
  }

  /** Row `k` of `b` times `inv * rhs`, summed as a double sum by rows. */
  lemma ProductByRows(b: (int, int) -> real, inv: (int, int) -> real, rhs: int -> real, m: nat, k: int)
    ensures Sum(m, j => b(k, j) * Combination(inv, rhs, j, m)) == SumByRows((j, l) => b(k, j) * inv(j, l) * rhs(l), m, m)
  {
    var f := (j: int, l: int) => b(k, j) * inv(j, l) * rhs(l);
    forall j | 0 <= j < m
      ensures b(k, j) * Combination(inv, rhs, j, m) == Row(f, j, m)
    {
      RowIsSum(f, j, m, l => f(j, l));
      SumScale(m, b(k, j), l => inv(j, l) * rhs(l), l => f(j, l));
    }
    SumOfRows(f, m, m, j => b(k, j) * Combination(inv, rhs, j, m));
  }

  /** The same double sum by columns: row `k` of `b * inv`, times `rhs`. */
  lemma ProductByCols(b: (int, int) -> real, inv: (int, int) -> real, rhs: int -> real, m: nat, k: int)
    ensures SumByCols((j, l) => b(k, j) * inv(j, l) * rhs(l), m, m) == Sum(m, l => MatProd(b, inv, m, k, l) * rhs(l))
  {
    var f := (j: int, l: int) => b(k, j) * inv(j, l) * rhs(l);
    forall l | 0 <= l < m
      ensures MatProd(b, inv, m, k, l) * rhs(l) == Col(f, l, m)
    {
      ColIsSum(f, l, m, j => f(j, l));
      SumScale(m, rhs(l), j => b(k, j) * inv(j, l), j => f(j, l));
    }
    SumOfCols(f, m, m, l => MatProd(b, inv, m, k, l) * rhs(l));
  }

  /** With a right inverse, `inv * rhs` solves the system `b * w = rhs`. */
  lemma SolvesSystem(b: (int, int) -> real, inv: (int, int) -> real, rhs: int -> real, m: nat, k: int)
    requires RightInverse(b, inv, m) && 0 <= k < m
    ensures Sum(m, j => b(k, j) * Combination(inv, rhs, j, m)) == rhs(k)
  {
    ProductByRows(b, inv, rhs, m, k);
    SumOrder((j, l) => b(k, j) * inv(j, l) * rhs(l), m, m);
    ProductByCols(b, inv, rhs, m, k);
    SumSingle(m, k, l => MatProd(b, inv, m, k, l) * rhs(l));
  }

  // ---------------------------------------------------------------------------
  // The system of equations

  /** Column `c` of the row `[1, x, y]` of the affine part. */
  function Affine(p: Pos, c: int): real
  {
    if c == 0 then 1.0 else if c == 1 then p.x else p.y
  }

  /**
   * Entry `(i, j)` of the `(N + 3)` by `(N + 3)` block matrix: kernels top left, the
   * affine rows top right, their transpose bottom left, zero bottom right.
   */
  function BlockEntry(src: seq<Pos>, kernel: KernelFunction, norm: NormFunction, epsilon: real, i: int, j: int): real
  {
    var n := |src|;
    if 0 <= i < n && 0 <= j < n then kernel(norm(src[i], src[j]), epsilon)
    else if n <= i < n + 3 && 0 <= j < n then Affine(src[j], i - n)
    else if 0 <= i < n && n <= j < n + 3 then Affine(src[i], j - n)
    else 0.0
  }

  function BlockMatrix(src: seq<Pos>, kernel: KernelFunction, norm: NormFunction, epsilon: real): seq<seq<real>>
  {
    var m := |src| + 3;
    seq(m, i => seq(m, j => BlockEntry(src, kernel, norm, epsilon, i, j)))
  }

  /**
   * The bottom-left block is the transpose of the top-right block and the bottom-right
   * block is zero; with a symmetric norm the whole matrix is symmetric.
   */
  lemma BlockStructure(src: seq<Pos>, kernel: KernelFunction, norm: NormFunction, epsilon: real)
    ensures forall i, r :: 0 <= i < |src| <= r < |src| + 3 ==>
      BlockEntry(src, kernel, norm, epsilon, r, i) == BlockEntry(src, kernel, norm, epsilon, i, r)
    ensures forall r, c :: |src| <= r < |src| + 3 && |src| <= c < |src| + 3 ==> BlockEntry(src, kernel, norm, epsilon, r, c) == 0.0
    ensures forall i :: 0 <= i < |src| ==>
      && BlockEntry(src, kernel, norm, epsilon, i, |src|) == 1.0
      && BlockEntry(src, kernel, norm, epsilon, i, |src| + 1) == src[i].x
      && BlockEntry(src, kernel, norm, epsilon, i, |src| + 2) == src[i].y
    ensures (forall p, q :: norm(p, q) == norm(q, p)) ==>
      forall i, j :: BlockEntry(src, kernel, norm, epsilon, i, j) == BlockEntry(src, kernel, norm, epsilon, j, i)
  {
  }

  /** Component `l` of the right-hand side on `axis`: the destinations, then three zeros. */
  function Rhs(dest: seq<Pos>, axis: int, l: int): real
  {
    if 0 <= l < |dest| then (if axis == 0 then dest[l].x else dest[l].y) else 0.0
  }

  /** Entry `(i, j)` of the kernel matrix before the kernel is applied. */
  function NormEntry(src: seq<Pos>, norm: NormFunction, i: int, j: int): real
  {
    if 0 <= i < |src| && 0 <= j < |src| then norm(src[i], src[j]) else 0.0
  }

  /** The first `j` norms of row `i`. */
  function RowPrefixSum(src: seq<Pos>, norm: NormFunction, i: int, j: nat): real
  {
    Sum(j, c => NormEntry(src, norm, i, c))
  }

  function NormRowSum(src: seq<Pos>, norm: NormFunction, i: int): real
  {
    RowPrefixSum(src, norm, i, |src|)
  }

  /** The norms of the first `i` rows. */
  function RowsPrefixSum(src: seq<Pos>, norm: NormFunction, i: nat): real
  {
    Sum(i, r => NormRowSum(src, norm, r))
  }

  /** `kernelsMatrix.sum()` while it holds the norms. */
  function NormSum(src: seq<Pos>, norm: NormFunction): real
  {
    RowsPrefixSum(src, norm, |src|)
  }

  /** The epsilon used when none is given: the mean norm between distinct positions. */
  function DefaultEpsilon(src: seq<Pos>, norm: NormFunction): real
    requires |src| >= 2
  {
    NormSum(src, norm) / (|src| * |src| - |src|) as real
  }

  /** The weights on `axis`: the inverse of the block matrix times the right-hand side. */
  function Weights(src: seq<Pos>, dest: seq<Pos>, kernel: KernelFunction, norm: NormFunction, epsilon: real,
                   inverse: InverseFunction, axis: int): (w: seq<real>)
    ensures |w| == |src| + 3
  {
    Solved(inverse(BlockMatrix(src, kernel, norm, epsilon)), dest, axis, |src| + 3)
  }

  /** The inverse `inv` times the right-hand side on `axis`, as `m` weights. */
  function Solved(inv: (int, int) -> real, dest: seq<Pos>, axis: int, m: nat): (w: seq<real>)
    ensures |w| == m
  {
    seq(m, j => Combination(inv, l => Rhs(dest, axis, l), j, m))
  }

  function KernelTerm(src: seq<Pos>, kernel: KernelFunction, norm: NormFunction, epsilon: real,
                      w: seq<real>, p: Pos, k: int): real
  {
    if 0 <= k < |src| && k < |w| then kernel(norm(p, src[k]), epsilon) * w[k] else 0.0
  }

  /** One coordinate of `interpolate`: weighted kernels plus the affine part of the last three weights. */
  function AxisValue(src: seq<Pos>, kernel: KernelFunction, norm: NormFunction, epsilon: real, w: seq<real>, p: Pos): real
    requires |w| == |src| + 3
  {
    var n := |src|;
    KernelSum(src, kernel, norm, epsilon, w, p, n) + (w[n] + w[n + 1] * p.x + w[n + 2] * p.y)
  }

  /** The kernel terms of the first `k` sources. */
  function KernelSum(src: seq<Pos>, kernel: KernelFunction, norm: NormFunction, epsilon: real, w: seq<real>, p: Pos, k: nat): real
  {
    Sum(k, k' => KernelTerm(src, kernel, norm, epsilon, w, p, k'))
  }

  function WeightAt(w: seq<real>, j: int): real
  {
    if 0 <= j < |w| then w[j] else 0.0
  }

  /** At a source position, `interpolate` computes that position's row of the block matrix times the weights. */
  lemma InterpolationIsRow(src: seq<Pos>, kernel: KernelFunction, norm: NormFunction, epsilon: real, w: seq<real>, k: int)
    requires |w| == |src| + 3 && 0 <= k < |src|
    ensures AxisValue(src, kernel, norm, epsilon, w, src[k])
         == Sum(|src| + 3, j => BlockEntry(src, kernel, norm, epsilon, k, j) * WeightAt(w, j))
  {
    var n := |src|;
    var g := j => BlockEntry(src, kernel, norm, epsilon, k, j) * WeightAt(w, j);
    SumExt(n, k' => KernelTerm(src, kernel, norm, epsilon, w, src[k], k'), g);
    assert Sum(n + 1, g) == Sum(n, g) + g(n);
    assert Sum(n + 2, g) == Sum(n + 1, g) + g(n + 1);
    assert Sum(n + 3, g) == Sum(n + 2, g) + g(n + 2);
  }

  /** One axis of the fit: interpolating at source `k` gives component `axis` of its destination. */
  lemma AxisReproducesDestination(src: seq<Pos>, dest: seq<Pos>, kernel: KernelFunction, norm: NormFunction,
                                  epsilon: real, inverse: InverseFunction, axis: int, k: int)
    requires |dest| == |src| && 0 <= k < |src|
    requires RightInverse((i, j) => BlockEntry(src, kernel, norm, epsilon, i, j),
                          inverse(BlockMatrix(src, kernel, norm, epsilon)), |src| + 3)
    ensures AxisValue(src, kernel, norm, epsilon, Weights(src, dest, kernel, norm, epsilon, inverse, axis), src[k]) == Rhs(dest, axis, k)
  {
    var m := |src| + 3;
    var b := (i, j) => BlockEntry(src, kernel, norm, epsilon, i, j);
    var inv := inverse(BlockMatrix(src, kernel, norm, epsilon));
    var w := Weights(src, dest, kernel, norm, epsilon, inverse, axis);
    var rhs := l => Rhs(dest, axis, l);
    InterpolationIsRow(src, kernel, norm, epsilon, w, k);
    SumExt(m, j => BlockEntry(src, kernel, norm, epsilon, k, j) * WeightAt(w, j), j => b(k, j) * Combination(inv, rhs, j, m));
    SolvesSystem(b, inv, rhs, m, k);
  }

  /**
   * The fit: when the inverse is a right inverse of the block matrix, interpolating at a
   * source position gives its destination.
   */
  lemma FitReproducesDestinations(src: seq<Pos>, dest: seq<Pos>, kernel: KernelFunction, norm: NormFunction,
                                  epsilon: real, inverse: InverseFunction, k: int)
    requires |dest| == |src| && 0 <= k < |src|
    requires RightInverse((i, j) => BlockEntry(src, kernel, norm, epsilon, i, j),
                          inverse(BlockMatrix(src, kernel, norm, epsilon)), |src| + 3)
    ensures AxisValue(src, kernel, norm, epsilon, Weights(src, dest, kernel, norm, epsilon, inverse, 0), src[k]) == dest[k].x
    ensures AxisValue(src, kernel, norm, epsilon, Weights(src, dest, kernel, norm, epsilon, inverse, 1), src[k]) == dest[k].y
  {
    AxisReproducesDestination(src, dest, kernel, norm, epsilon, inverse, 0, k);
    AxisReproducesDestination(src, dest, kernel, norm, epsilon, inverse, 1, k);
  }

  /** `positionCount` as a template literal writes it. */
  function NatToString(n: nat): string
  {
    if n < 10 then ["0123456789"[n]] else NatToString(n / 10) + ["0123456789"[n % 10]]
  }

  const NotEnoughPointsPrefix: string :=
    "Not enough control points. A thin plate spline transformation (with affine component) requires a minimum of 3 points, but "

  function NotEnoughPointsMessage(count: nat): string
  {
    NotEnoughPointsPrefix + NatToString(count) + " are given."
  }

  // ---------------------------------------------------------------------------
  // The loops of the constructor and of `interpolate`

  method NormMatrix(src: seq<Pos>, norm: NormFunction) returns (a: array2<real>)
    ensures fresh(a) && a.Length0 == |src| && a.Length1 == |src|
    ensures forall i, j :: 0 <= i < |src| && 0 <= j < |src| ==> a[i, j] == norm(src[i], src[j])
  {
    var n := |src|;
    a := new real[n, n]((i, j) => 0.0);
    for i := 0 to n
      invariant forall i', j :: 0 <= i' < i && 0 <= j < n ==> a[i', j] == norm(src[i'], src[j])
    {
      for j := 0 to n
        invariant forall i', j' :: 0 <= i' < i && 0 <= j' < n ==> a[i', j'] == norm(src[i'], src[j'])
        invariant forall j' :: 0 <= j' < j ==> a[i, j'] == norm(src[i], src[j'])
      {
        a[i, j] := norm(src[i], src[j]);
      }
    }
  }

  /** `kernelsMatrix.sum()` over the norms. */
  method MatrixSum(a: array2<real>, src: seq<Pos>, norm: NormFunction) returns (s: real)
    requires a.Length0 == |src| && a.Length1 == |src|
    requires forall i, j :: 0 <= i < |src| && 0 <= j < |src| ==> a[i, j] == norm(src[i], src[j])
    ensures s == NormSum(src, norm)
  {
    var n := |src|;
    s := 0.0;
    for i := 0 to n
      invariant s == RowsPrefixSum(src, norm, i)
    {
      var rowSum := 0.0;
      for j := 0 to n
        invariant rowSum == RowPrefixSum(src, norm, i, j)
      {
        rowSum := rowSum + a[i, j];
      }
      s := s + rowSum;
    }
  }

  method ApplyKernel(a: array2<real>, kernel: KernelFunction, epsilon: real)
    modifies a
    ensures forall i, j :: 0 <= i < a.Length0 && 0 <= j < a.Length1 ==> a[i, j] == kernel(old(a[i, j]), epsilon)
  {
    for i := 0 to a.Length0
      invariant forall i', j :: 0 <= i' < i && 0 <= j < a.Length1 ==> a[i', j] == kernel(old(a[i', j]), epsilon)
      invariant forall i', j :: i <= i' < a.Length0 && 0 <= j < a.Length1 ==> a[i', j] == old(a[i', j])
    {
      for j := 0 to a.Length1
        invariant forall i', j' :: 0 <= i' < i && 0 <= j' < a.Length1 ==> a[i', j'] == kernel(old(a[i', j']), epsilon)
        invariant forall i', j' :: i < i' < a.Length0 && 0 <= j' < a.Length1 ==> a[i', j'] == old(a[i', j'])
        invariant forall j' :: 0 <= j' < j ==> a[i, j'] == kernel(old(a[i, j']), epsilon)
        invariant forall j' :: j <= j' < a.Length1 ==> a[i, j'] == old(a[i, j'])
      {
        a[i, j] := kernel(a[i, j], epsilon);
      }
    }
  }

  /** The `N` by 3 matrix with rows `[1, x, y]`. */
  method AffineMatrix(src: seq<Pos>) returns (a: array2<real>)
    ensures fresh(a) && a.Length0 == |src| && a.Length1 == 3
    ensures forall i, c :: 0 <= i < |src| && 0 <= c < 3 ==> a[i, c] == Affine(src[i], c)
  {
    a := new real[|src|, 3]((i, j) => 0.0);
    for i := 0 to |src|
      invariant forall i', c :: 0 <= i' < i && 0 <= c < 3 ==> a[i', c] == Affine(src[i'], c)
    {
      a[i, 0] := 1.0;
      a[i, 1] := src[i].x;
      a[i, 2] := src[i].y;
    }
  }

  /** Entry `(i, j)` of the combined matrix, read from the two blocks. */
  function Combined(kernels: seq<seq<real>>, affine: seq<seq<real>>, n: nat, i: int, j: int): real
    requires |kernels| == n && (forall r :: 0 <= r < n ==> |kernels[r]| == n)
    requires |affine| == n && (forall r :: 0 <= r < n ==> |affine[r]| == 3)
  {
    if 0 <= i < n && 0 <= j < n then kernels[i][j]
    else if n <= i < n + 3 && 0 <= j < n then affine[j][i - n]
    else if 0 <= i < n && n <= j < n + 3 then affine[i][j - n]
    else 0.0
  }

  method BlockOf(kernels: array2<real>, affine: array2<real>) returns (b: array2<real>)
    requires kernels.Length0 == kernels.Length1 == affine.Length0 && affine.Length1 == 3
    ensures fresh(b) && b.Length0 == b.Length1 == kernels.Length0 + 3
    ensures forall i, j :: 0 <= i < b.Length0 && 0 <= j < b.Length1 ==>
      b[i, j] == Combined(Rows(kernels), Rows(affine), kernels.Length0, i, j)
  {
    var n := kernels.Length0;
    ghost var k, f := Rows(kernels), Rows(affine);
    b := new real[n + 3, n + 3]((i, j) => 0.0);
    for i := 0 to n + 3
      invariant forall i', j :: 0 <= i' < i && 0 <= j < n + 3 ==> b[i', j] == Combined(k, f, n, i', j)
      invariant forall i', j :: i <= i' < n + 3 && 0 <= j < n + 3 ==> b[i', j] == 0.0
    {
      FillRow(b, kernels, affine, i, k, f);
    }
  }

  /** Row `i` of the block matrix, written into a row of zeros; the other rows are untouched. */
  method FillRow(b: array2<real>, kernels: array2<real>, affine: array2<real>, i: int,
                 ghost k: seq<seq<real>>, ghost f: seq<seq<real>>)
    requires kernels.Length0 == kernels.Length1 == affine.Length0 && affine.Length1 == 3
    requires b.Length0 == b.Length1 == kernels.Length0 + 3 && 0 <= i < b.Length0
    requires b != kernels && b != affine
    requires k == Rows(kernels) && f == Rows(affine)
    requires forall j :: 0 <= j < b.Length1 ==> b[i, j] == 0.0
    modifies b
    ensures forall j :: 0 <= j < b.Length1 ==> b[i, j] == Combined(k, f, kernels.Length0, i, j)
    ensures forall i', j :: 0 <= i' < b.Length0 && i' != i && 0 <= j < b.Length1 ==> b[i', j] == old(b[i', j])
  {
    var n := kernels.Length0;
    for j := 0 to n + 3
      invariant forall i', j' :: 0 <= i' < n + 3 && i' != i && 0 <= j' < n + 3 ==> b[i', j'] == old(b[i', j'])
      invariant forall j' :: 0 <= j' < j ==> b[i, j'] == Combined(k, f, n, i, j')
      invariant forall j' :: j <= j' < n + 3 ==> b[i, j'] == 0.0
    {
      if i < n && j < n {
        b[i, j] := kernels[i, j];
      } else if i >= n && j < n {
        b[i, j] := affine[j, i - n];
      } else if i < n && j >= n {
        b[i, j] := affine[i, j - n];
      }
    }
  }

  /** The contents of a two-dimensional array, row by row. */
  function Rows(a: array2<real>): (r: seq<seq<real>>)
    reads a
    ensures |r| == a.Length0 && forall i :: 0 <= i < a.Length0 ==> |r[i]| == a.Length1
    ensures forall i, j :: 0 <= i < a.Length0 && 0 <= j < a.Length1 ==> r[i][j] == a[i, j]
  {
    seq(a.Length0, i reads a => seq(a.Length1, j reads a => if 0 <= i < a.Length0 && 0 <= j < a.Length1 then a[i, j] else 0.0))
  }

  // ---------------------------------------------------------------------------
  // The object

  class Rbf {
    var sourcePositions: seq<Pos>
    var destinationPositions: seq<Pos>
    var kernelFunction: KernelFunction
    var normFunction: NormFunction
    var weightsX: seq<real>
    var weightsY: seq<real>
    var positionCount: int
    var epsilon: real

    predicate Valid()
      reads this
    {
      && positionCount == |sourcePositions| >= 3
      && |destinationPositions| == positionCount
      && |weightsX| == positionCount + 3 && |weightsY| == positionCount + 3
    }

    /**
     * The constructor: the kernel matrix (norms, then the kernel with the given or the
     * default epsilon), the block matrix with the affine part, and one inverse for both axes.
     */
    constructor(sourcePositions: seq<Pos>, destinationPositions: seq<Pos>, kernelFunction: KernelFunction,
                normFunction: NormFunction, epsilon: Option<real>, inverse: InverseFunction)
      requires |sourcePositions| >= 3 && |destinationPositions| == |sourcePositions|
      ensures Valid()
      ensures this.sourcePositions == sourcePositions && this.destinationPositions == destinationPositions
      ensures this.kernelFunction == kernelFunction && this.normFunction == normFunction
      ensures positionCount == |sourcePositions|
      ensures this.epsilon == if epsilon.Some? then epsilon.value else DefaultEpsilon(sourcePositions, normFunction)
      ensures weightsX == Weights(sourcePositions, destinationPositions, kernelFunction, normFunction, this.epsilon, inverse, 0)
      ensures weightsY == Weights(sourcePositions, destinationPositions, kernelFunction, normFunction, this.epsilon, inverse, 1)
    {
      var eps, wx, wy := FitWeights(sourcePositions, destinationPositions, kernelFunction, normFunction, epsilon, inverse);
      this.sourcePositions := sourcePositions;
      this.destinationPositions := destinationPositions;
      this.kernelFunction := kernelFunction;
      this.normFunction := normFunction;
      positionCount := |sourcePositions|;
      this.epsilon := eps;
      weightsX := wx;
      weightsY := wy;
    }

    /** `interpolate`: the kernels of the new position against every source, weighted, plus the affine part. */
    method Interpolate(newSourcePosition: Pos) returns (r: Pos)
      requires Valid()
      ensures r == Pos(AxisValue(sourcePositions, kernelFunction, normFunction, epsilon, weightsX, newSourcePosition),
                       AxisValue(sourcePositions, kernelFunction, normFunction, epsilon, weightsY, newSourcePosition))
    {
      var n, src, kernel, norm, eps := positionCount, sourcePositions, kernelFunction, normFunction, epsilon;
      var newDistances := new real[n];
      for i := 0 to n
        invariant forall k :: 0 <= k < i ==> newDistances[k] == kernel(norm(newSourcePosition, src[k]), eps)
      {
        newDistances[i] := kernel(norm(newSourcePosition, src[i]), eps);
      }
      var distances := newDistances[..];
      var x := AxisFromDistances(src, kernel, norm, eps, weightsX, newSourcePosition, distances);
      var y := AxisFromDistances(src, kernel, norm, eps, weightsY, newSourcePosition, distances);
      r := Pos(x, y);
    }
  }

  /** One pass of the axis loop of `interpolate`, over the kernels already computed. */
  method AxisFromDistances(src: seq<Pos>, kernel: KernelFunction, norm: NormFunction, epsilon: real,
                           w: seq<real>, p: Pos, distances: seq<real>) returns (v: real)
    requires |w| == |src| + 3 && |distances| == |src|
    requires forall k :: 0 <= k < |src| ==> distances[k] == kernel(norm(p, src[k]), epsilon)
    ensures v == AxisValue(src, kernel, norm, epsilon, w, p)
  {
    var n := |src|;
    var total := 0.0;
    for k := 0 to n
      invariant total == KernelSum(src, kernel, norm, epsilon, w, p, k)
    {
      total := total + distances[k] * w[k];
    }
    var a0, ax, ay := w[n], w[n + 1], w[n + 2];
    v := total + (a0 + ax * p.x + ay * p.y);
  }

  /** The matrix work of the constructor: epsilon and the weights of both axes. */
  method FitWeights(sourcePositions: seq<Pos>, destinationPositions: seq<Pos>, kernelFunction: KernelFunction,
                    normFunction: NormFunction, epsilon: Option<real>, inverse: InverseFunction)
    returns (eps: real, weightsX: seq<real>, weightsY: seq<real>)
    requires |sourcePositions| >= 3
    ensures eps == if epsilon.Some? then epsilon.value else DefaultEpsilon(sourcePositions, normFunction)
    ensures weightsX == Weights(sourcePositions, destinationPositions, kernelFunction, normFunction, eps, inverse, 0)
    ensures weightsY == Weights(sourcePositions, destinationPositions, kernelFunction, normFunction, eps, inverse, 1)
  {
    var n := |sourcePositions|;
    var kernelsMatrix := NormMatrix(sourcePositions, normFunction);
    if epsilon.None? {
      var total := MatrixSum(kernelsMatrix, sourcePositions, normFunction);
      eps := total / (n * n - n) as real;
    } else {
      eps := epsilon.value;
    }
    var blockRows := KernelBlock(kernelsMatrix, sourcePositions, kernelFunction, normFunction, eps);
    var inv := inverse(blockRows);
    var m := n + 3;
    weightsX := Solved(inv, destinationPositions, 0, m);
    weightsY := Solved(inv, destinationPositions, 1, m);
  }

  /**
   * From the norms matrix: apply the kernel in place, build the affine matrix and
   * assemble the block matrix, read back row by row.
   */
  method KernelBlock(kernelsMatrix: array2<real>, src: seq<Pos>, kernel: KernelFunction, norm: NormFunction, eps: real)
    returns (blockRows: seq<seq<real>>)
    requires kernelsMatrix.Length0 == |src| && kernelsMatrix.Length1 == |src|
    requires forall i, j :: 0 <= i < |src| && 0 <= j < |src| ==> kernelsMatrix[i, j] == norm(src[i], src[j])
    modifies kernelsMatrix
    ensures blockRows == BlockMatrix(src, kernel, norm, eps)
  {
    ApplyKernel(kernelsMatrix, kernel, eps);
    var affineCoefsMatrix := AffineMatrix(src);
    var block := BlockOf(kernelsMatrix, affineCoefsMatrix);
    blockRows := Rows(block);
    BlockRowsAgree(src, kernel, norm, eps, Rows(kernelsMatrix), Rows(affineCoefsMatrix), blockRows);
  }

  /** The assembled array holds the block matrix of the model. */
  lemma BlockRowsAgree(src: seq<Pos>, kernel: KernelFunction, norm: NormFunction, epsilon: real,
                       kernels: seq<seq<real>>, affine: seq<seq<real>>, rows: seq<seq<real>>)
    requires |kernels| == |src| && (forall r :: 0 <= r < |src| ==> |kernels[r]| == |src|)
    requires |affine| == |src| && (forall r :: 0 <= r < |src| ==> |affine[r]| == 3)
    requires forall i, j :: 0 <= i < |src| && 0 <= j < |src| ==> kernels[i][j] == kernel(norm(src[i], src[j]), epsilon)
    requires forall i, c :: 0 <= i < |src| && 0 <= c < 3 ==> affine[i][c] == Affine(src[i], c)
    requires |rows| == |src| + 3 && forall i :: 0 <= i < |rows| ==> |rows[i]| == |src| + 3
    requires forall i, j :: 0 <= i < |src| + 3 && 0 <= j < |src| + 3 ==> rows[i][j] == Combined(kernels, affine, |src|, i, j)
    ensures rows == BlockMatrix(src, kernel, norm, epsilon)
  {
    var b := BlockMatrix(src, kernel, norm, epsilon);
    forall i | 0 <= i < |rows|
      ensures rows[i] == b[i]
    {
      assert forall j :: 0 <= j < |src| + 3 ==> rows[i][j] == b[i][j];
    }
  }

  /** `new RBF(...)`, which throws when there are fewer than three source positions. */
  method TryCreate(sourcePositions: seq<Pos>, destinationPositions: seq<Pos>, kernelFunction: KernelFunction,
                   normFunction: NormFunction, epsilon: Option<real>, inverse: InverseFunction)
    returns (r: Result<Rbf>)
    requires |destinationPositions| == |sourcePositions|
    ensures r.Failure? <==> |sourcePositions| < 3
    ensures r.Failure? ==> r.error == NotEnoughPointsMessage(|sourcePositions|)
    ensures r.Success? ==> fresh(r.value) && r.value.Valid()
    ensures r.Success? ==>
      && r.value.sourcePositions == sourcePositions && r.value.destinationPositions == destinationPositions
      && r.value.kernelFunction == kernelFunction && r.value.normFunction == normFunction
      && r.value.positionCount == |sourcePositions|
      && r.value.epsilon == (if epsilon.Some? then epsilon.value else DefaultEpsilon(sourcePositions, normFunction))
      && r.value.weightsX == Weights(sourcePositions, destinationPositions, kernelFunction, normFunction, r.value.epsilon, inverse, 0)
      && r.value.weightsY == Weights(sourcePositions, destinationPositions, kernelFunction, normFunction, r.value.epsilon, inverse, 1)
  {
    if |sourcePositions| < 3 {
      return Failure(NotEnoughPointsMessage(|sourcePositions|));
    }
    var rbf := new Rbf(sourcePositions, destinationPositions, kernelFunction, normFunction, epsilon, inverse);
    r := Success(rbf);
  }
}
