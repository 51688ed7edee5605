/**
 * The explicit BLAS SYMM kernel of the HPX backend: `C = alpha * A * B + beta * C`,
 * where `A` is a symmetric matrix stored as a padded, packed upper triangle and
 * `B`, `C` are padded struct-of-arrays matrices.
 *
 * `real_type` is modelled by `real`; the compile-time constants INTERNAL_BLOCK_SIZE
 * and PADDING_SIZE are the `blockSize` and `padding` fields of a `Layout`.
 */
module Blas {

  /** Sizes of one kernel invocation. */
  datatype Layout = Layout(numRows: nat, numRhs: nat, blockSize: nat, padding: nat)
  {
    /** The tile edge is positive and the padding covers the overhang of a tail tile. */
    predicate Valid() { 0 < blockSize <= padding + 1 }

    /** Padded order of the packed matrix `A`. */
    function M(): nat { numRows + padding }

    /** Leading dimension of `B` and `C` (padded number of right-hand sides). */
    function LD(): nat { numRhs + padding }

    /** Number of stored entries of `B` and of `C`. */
    function DataSize(): nat { M() * LD() }
  }

  // ---------------------------------------------------------------------------
  // Arithmetic helpers
  // ---------------------------------------------------------------------------

  lemma MulLeft(a: nat, b: nat, c: nat)
    requires a <= b
    ensures a * c <= b * c
  {}

  /** A row-major cell of a `rows x ld` block lies inside the block. */
  lemma FlatBound(row: nat, col: nat, rows: nat, ld: nat)
    requires row < rows && col < ld
    ensures row * ld + col < rows * ld
  {
    MulLeft(row + 1, rows, ld);
  }

  /** Euclidean division recovers the row and the column of a row-major cell. */
  lemma FlatCoords(row: nat, col: nat, ld: nat)
    requires col < ld
    ensures (row * ld + col) / ld == row && (row * ld + col) % ld == col
  {
    var x := row * ld + col;
    assert x == (x / ld) * ld + x % ld;
    if x / ld < row {
      MulLeft(x / ld + 1, row, ld);
    } else if x / ld > row {
      MulLeft(row + 1, x / ld, ld);
    }
  }

  /** Splitting a flat index into its row and column. */
  lemma FlatSplit(x: nat, rows: nat, ld: nat)
    requires x < rows * ld
    ensures ld > 0 && x / ld < rows && x % ld < ld && x == (x / ld) * ld + x % ld
  {
    if ld == 0 { assert false; }
    assert x == (x / ld) * ld + x % ld;
    if x / ld >= rows { MulLeft(rows, x / ld, ld); }
  }

  function CeilDiv(a: nat, b: nat): (q: nat)
    requires b > 0
    ensures q * b >= a
    ensures q * b < a + b
  {
    var q := (a + b - 1) / b;
    assert (a + b - 1) == q * b + (a + b - 1) % b;
    q
  }

  // ---------------------------------------------------------------------------
  // Packed symmetric storage
  // ---------------------------------------------------------------------------

  /** Number of entries of the upper triangle (diagonal included) of an `m x m` matrix. */
  function PackedSize(m: nat): nat { m * (m + 1) / 2 }

  lemma TriangleEven(i: nat)
    ensures (i * (i + 1)) % 2 == 0
  {
    var k := i / 2;
    if i == 2 * k {
      assert i * (i + 1) == 2 * (k * (i + 1));
    } else {
      assert i + 1 == 2 * (k + 1);
      assert i * (i + 1) == 2 * (i * (k + 1));
    }
  }

  lemma TriangleStep(i: nat)
    ensures (i + 1) * (i + 2) / 2 == i * (i + 1) / 2 + i + 1
  {
    TriangleEven(i);
    TriangleEven(i + 1);
    assert (i + 1) * (i + 2) == i * (i + 1) + 2 * (i + 1);
  }

  lemma TriangleBelowRow(i: nat, m: nat)
    requires i < m
    ensures i * (i + 1) / 2 <= i * m
  {
    TriangleEven(i);
    MulLeft(i + 1, m, i);
    assert i * (i + 1) <= i * m + i * m;
  }

  /** Offset of entry `(i, j)`, `i <= j < m`, in the packed upper triangle with row length `m`. */
  function PackedOffset(m: nat, i: nat, j: nat): nat
    requires i <= j < m
  {
    TriangleBelowRow(i, m);
    i * m + j - i * (i + 1) / 2
  }

  /** Within a row, consecutive columns occupy consecutive slots. */
  lemma PackedNextColumn(m: nat, i: nat, j: nat)
    requires i <= j && j + 1 < m
    ensures PackedOffset(m, i, j + 1) == PackedOffset(m, i, j) + 1
  {}

  /** The last slot of row `i` is directly followed by the diagonal slot of row `i + 1`. */
  lemma PackedNextRow(m: nat, i: nat)
    requires i + 1 < m
    ensures PackedOffset(m, i + 1, i + 1) == PackedOffset(m, i, m - 1) + 1
  {
    TriangleStep(i);
    assert (i + 1) * m == i * m + m;
  }

  lemma PackedDiagonalMonotone(m: nat, i: nat, k: nat)
    requires i <= k < m
    ensures PackedOffset(m, i, i) + (k - i) <= PackedOffset(m, k, k)
    decreases k - i
  {
    if i < k {
      PackedDiagonalMonotone(m, i + 1, k);
      PackedNextRow(m, i);
    }
  }

  /**
   * The packed layout lists the upper triangle row by row without gaps and without
   * overlap: the offset is strictly increasing in the lexicographic order of `(i, j)`.
   */
  lemma {:induction false} PackedOffsetLexOrder(m: nat, i: nat, j: nat, k: nat, l: nat)
    requires i <= j < m && k <= l < m
    requires i < k || (i == k && j < l)
    ensures PackedOffset(m, i, j) < PackedOffset(m, k, l)
  {
    if i < k {
      PackedNextRow(m, i);
      PackedDiagonalMonotone(m, i + 1, k);
    }
  }

  /** Distinct entries of the upper triangle have distinct offsets. */
  lemma PackedOffsetInjective(m: nat, i: nat, j: nat, k: nat, l: nat)
    requires i <= j < m && k <= l < m
    requires PackedOffset(m, i, j) == PackedOffset(m, k, l)
    ensures i == k && j == l
  {
    if i < k || (i == k && j < l) {
      PackedOffsetLexOrder(m, i, j, k, l);
    } else if k < i || (k == i && l < j) {
      PackedOffsetLexOrder(m, k, l, i, j);
    }
  }

  /** Every offset of the upper triangle lies inside the packed array of `PackedSize(m)` entries. */
  lemma {:induction false} PackedOffsetInBounds(m: nat, i: nat, j: nat)
    requires i <= j < m
    ensures PackedOffset(m, i, j) < PackedSize(m)
  {
    LastPackedOffset(m);
    if i < m - 1 || j < m - 1 {
      PackedOffsetLexOrder(m, i, j, m - 1, m - 1);
    }
  }

  lemma LastPackedOffset(m: nat)
    requires m > 0
    ensures PackedOffset(m, m - 1, m - 1) == PackedSize(m) - 1
  {
    var i := m - 1;
    TriangleEven(i);
    TriangleEven(m);
    assert m * (m + 1) == i * (i + 1) + 2 * m;
    assert i * m == i * (i + 1);
  }

  /**
   * The offset the kernel uses to read `A(d, j)`: the smaller of the two indices
   * selects the packed row.
   */
  function AOffset(m: nat, d: nat, j: nat): (o: nat)
    requires d < m && j < m
    ensures o < PackedSize(m)
  {
    if d < j then
      PackedOffsetInBounds(m, d, j);
      PackedOffset(m, d, j)
    else
      PackedOffsetInBounds(m, j, d);
      PackedOffset(m, j, d)
  }

  /** The packed lookup is symmetric. */
  lemma AOffsetSymmetric(m: nat, d: nat, j: nat)
    requires d < m && j < m
    ensures AOffset(m, d, j) == AOffset(m, j, d)
  {}

  /** `A` and `B` have the sizes the kernel asserts. */
  predicate Shaped(L: Layout, A: seq<real>, B: seq<real>)
  {
    |A| == PackedSize(L.M()) && |B| == L.DataSize()
  }

  // ---------------------------------------------------------------------------
  // The reference result
  // ---------------------------------------------------------------------------

  /** Flat position of cell `(i, j)` (right-hand side `i`, row `j`) in `B` or `C`. */
  function Flat(L: Layout, i: nat, j: nat): nat { j * L.LD() + i }

  /** Entry `A(d, j)` read through the packed symmetric lookup. */
  function AEntry(L: Layout, A: seq<real>, d: nat, j: nat): real
    requires |A| == PackedSize(L.M()) && d < L.M() && j < L.M()
  {
    A[AOffset(L.M(), d, j)]
  }

  /** Entry `(i, d)` of `B`: right-hand side `i`, data point `d`. */
  function BEntry(L: Layout, B: seq<real>, i: nat, d: nat): real
    requires |B| == L.DataSize() && i < L.LD() && d < L.M()
  {
    FlatBound(d, i, L.M(), L.LD());
    B[Flat(L, i, d)]
  }

  /** Summand `d` of the inner product of cell `(i, j)`: `A(d, j) * B(i, d)`. */
  function Term(L: Layout, A: seq<real>, B: seq<real>, i: nat, j: nat, d: nat): real
    requires Shaped(L, A, B)
    requires i < L.LD() && j < L.M() && d < L.M()
  {
    AEntry(L, A, d, j) * BEntry(L, B, i, d)
  }

  /** `sum_{d < k} A(d, j) * B(i, d)`, accumulated in the kernel's order. */
  function Dot(L: Layout, A: seq<real>, B: seq<real>, i: nat, j: nat, k: nat): real
    requires Shaped(L, A, B)
    requires i < L.LD() && j < L.M() && k <= L.numRows
  {
    if k == 0 then 0.0
    else Dot(L, A, B, i, j, k - 1) + Term(L, A, B, i, j, k - 1)
  }

  /** A cell of `C` that holds a real result (not padding). */
  predicate InRange(L: Layout, x: nat)
  {
    L.LD() > 0 && x % L.LD() < L.numRhs && x / L.LD() < L.numRows
  }

  /** The BLAS update of one cell: `alpha * (A * B) + beta * C`. */
  function Update(alpha: real, beta: real, dot: real, old_c: real): real
  {
    alpha * dot + beta * old_c
  }

  /** The new value of the in-range cell at flat position `x`. */
  function CellValue(L: Layout, alpha: real, A: seq<real>, B: seq<real>, beta: real, old_c: real, x: nat): real
    requires Shaped(L, A, B) && InRange(L, x)
  {
    Update(alpha, beta, Dot(L, A, B, x % L.LD(), x / L.LD(), L.numRows), old_c)
  }

  /** The naive (untiled) result of `C = alpha * A * B + beta * C` on the whole padded data of `C`. */
  function SymmResult(L: Layout, alpha: real, A: seq<real>, B: seq<real>, beta: real, C: seq<real>): (r: seq<real>)
    requires Shaped(L, A, B)
    ensures |r| == |C|
  {
    seq(|C|, x requires 0 <= x < |C| =>
      if InRange(L, x) then CellValue(L, alpha, A, B, beta, C[x], x) else C[x])
  }

  /**
   * Every in-range cell `(i, j)` becomes `alpha * sum_d A(j, d) * B(i, d) + beta * C(i, j)`;
   * every padding cell keeps its value.
   */
  lemma SymmResultCell(L: Layout, alpha: real, A: seq<real>, B: seq<real>, beta: real, C: seq<real>, i: nat, j: nat)
    requires Shaped(L, A, B) && |C| == L.DataSize()
    requires i < L.LD() && j < L.M()
    ensures Flat(L, i, j) < |C|
    ensures i < L.numRhs && j < L.numRows ==>
      SymmResult(L, alpha, A, B, beta, C)[Flat(L, i, j)]
        == Update(alpha, beta, Dot(L, A, B, i, j, L.numRows), C[Flat(L, i, j)])
    ensures !(i < L.numRhs && j < L.numRows) ==>
      SymmResult(L, alpha, A, B, beta, C)[Flat(L, i, j)] == C[Flat(L, i, j)]
  {
    FlatBound(j, i, L.M(), L.LD());
    FlatCoords(j, i, L.LD());
  }

  /** With `alpha == 0` every in-range cell is scaled by `beta`. */
  lemma SymmAlphaZero(L: Layout, A: seq<real>, B: seq<real>, beta: real, C: seq<real>, x: nat)
    requires Shaped(L, A, B) && x < |C| && InRange(L, x)
    ensures SymmResult(L, 0.0, A, B, beta, C)[x] == beta * C[x]
  {}

  /** With `beta == 0` the old contents of the in-range cells do not matter. */
  lemma SymmBetaZero(L: Layout, alpha: real, A: seq<real>, B: seq<real>, C1: seq<real>, C2: seq<real>)
    requires Shaped(L, A, B) && |C1| == |C2|
    ensures forall x :: 0 <= x < |C1| && InRange(L, x) ==>
      SymmResult(L, alpha, A, B, 0.0, C1)[x] == SymmResult(L, alpha, A, B, 0.0, C2)[x]
  {}

  /**
   * The result does not depend on padding: two inputs that agree on the `numRows x numRows`
   * part of `A` and on the in-range part of `B` give the same in-range results.
   */
  lemma {:induction false} DotIgnoresPadding(L: Layout, A1: seq<real>, B1: seq<real>, A2: seq<real>, B2: seq<real>, i: nat, j: nat, k: nat)
    requires Shaped(L, A1, B1) && Shaped(L, A2, B2)
    requires i < L.numRhs && j < L.numRows && k <= L.numRows
    requires forall d :: 0 <= d < L.numRows ==> AEntry(L, A1, d, j) == AEntry(L, A2, d, j)
    requires forall d :: 0 <= d < L.numRows ==> BEntry(L, B1, i, d) == BEntry(L, B2, i, d)
    ensures Dot(L, A1, B1, i, j, k) == Dot(L, A2, B2, i, j, k)
  {
    if k > 0 {
      DotIgnoresPadding(L, A1, B1, A2, B2, i, j, k - 1);
      TermCongruent(L, A1, B1, A2, B2, i, j, k - 1);
    }
  }

  lemma TermCongruent(L: Layout, A1: seq<real>, B1: seq<real>, A2: seq<real>, B2: seq<real>, i: nat, j: nat, d: nat)
    requires Shaped(L, A1, B1) && Shaped(L, A2, B2)
    requires i < L.LD() && j < L.M() && d < L.M()
    requires AEntry(L, A1, d, j) == AEntry(L, A2, d, j) && BEntry(L, B1, i, d) == BEntry(L, B2, i, d)
    ensures Term(L, A1, B1, i, j, d) == Term(L, A2, B2, i, j, d)
  {
  }

  // ---------------------------------------------------------------------------
  // Tiles
  // ---------------------------------------------------------------------------

  /** Number of tiles along the right-hand sides and along the rows. */
  function BlockedNumRhs(L: Layout): nat requires L.Valid() { CeilDiv(L.numRhs, L.blockSize) }
  function BlockedNumRows(L: Layout): nat requires L.Valid() { CeilDiv(L.numRows, L.blockSize) }

  /** The tile a cell of `C` belongs to: `(i / blockSize, j / blockSize)`. */
  function TileOf(L: Layout, x: nat): (nat, nat)
    requires L.Valid() && L.LD() > 0
  {
    var i: nat, j: nat := x % L.LD(), x / L.LD();
    (i / L.blockSize, j / L.blockSize)
  }

  /** One tile of the kernel applied to the data `C`: its in-range cells get their new value. */
  function TileUpdate(L: Layout, alpha: real, A: seq<real>, B: seq<real>, beta: real, C: seq<real>, t: (nat, nat)): (r: seq<real>)
    requires L.Valid() && Shaped(L, A, B)
    ensures |r| == |C|
  {
    seq(|C|, x requires 0 <= x < |C| =>
      if InRange(L, x) && TileOf(L, x) == t then CellValue(L, alpha, A, B, beta, C[x], x) else C[x])
  }

  /** The tiles `ts` processed one after the other. */
  function ApplyTiles(L: Layout, alpha: real, A: seq<real>, B: seq<real>, beta: real, C: seq<real>, ts: seq<(nat, nat)>): (r: seq<real>)
    requires L.Valid() && Shaped(L, A, B)
    ensures |r| == |C|
    decreases |ts|
  {
    if ts == [] then C
    else ApplyTiles(L, alpha, A, B, beta, TileUpdate(L, alpha, A, B, beta, C, ts[0]), ts[1..])
  }

  /**
   * Processing pairwise distinct tiles in any order updates exactly the in-range cells of
   * those tiles, each once, from its old value: the result does not depend on the order.
   */
  lemma {:induction false} ApplyTilesCells(L: Layout, alpha: real, A: seq<real>, B: seq<real>, beta: real, C: seq<real>, ts: seq<(nat, nat)>)
    requires L.Valid() && Shaped(L, A, B)
    requires forall p, q :: 0 <= p < q < |ts| ==> ts[p] != ts[q]
    ensures forall x :: 0 <= x < |C| ==>
      ApplyTiles(L, alpha, A, B, beta, C, ts)[x]
        == if InRange(L, x) && TileOf(L, x) in ts then CellValue(L, alpha, A, B, beta, C[x], x) else C[x]
    decreases |ts|
  {
    if ts != [] {
      var C' := TileUpdate(L, alpha, A, B, beta, C, ts[0]);
      ApplyTilesCells(L, alpha, A, B, beta, C', ts[1..]);
      forall x | 0 <= x < |C|
        ensures ApplyTiles(L, alpha, A, B, beta, C, ts)[x]
          == if InRange(L, x) && TileOf(L, x) in ts then CellValue(L, alpha, A, B, beta, C[x], x) else C[x]
      {
        if InRange(L, x) {
          assert TileOf(L, x) in ts <==> TileOf(L, x) == ts[0] || TileOf(L, x) in ts[1..];
          if TileOf(L, x) in ts[1..] {
            assert TileOf(L, x) != ts[0];
          }
        }
      }
    }
  }

  /** The tiles of a valid enumeration, processed in any order, give the naive result. */
  lemma AllTilesGiveSymmResult(L: Layout, alpha: real, A: seq<real>, B: seq<real>, beta: real, C: seq<real>, ts: seq<(nat, nat)>)
    requires L.Valid() && Shaped(L, A, B) && |C| == L.DataSize()
    requires forall p, q :: 0 <= p < q < |ts| ==> ts[p] != ts[q]
    requires forall r: nat, c: nat :: r < BlockedNumRhs(L) && c < BlockedNumRows(L) ==> (r, c) in ts
    ensures ApplyTiles(L, alpha, A, B, beta, C, ts) == SymmResult(L, alpha, A, B, beta, C)
  {
    ApplyTilesCells(L, alpha, A, B, beta, C, ts);
    forall x | 0 <= x < |C| && InRange(L, x)
      ensures TileOf(L, x) in ts
    {
      TileOfInRange(L, x);
    }
  }

  /** An in-range cell lies in one of the enumerated tiles. */
  lemma TileOfInRange(L: Layout, x: nat)
    requires L.Valid() && InRange(L, x)
    ensures TileOf(L, x).0 < BlockedNumRhs(L) && TileOf(L, x).1 < BlockedNumRows(L)
  {
    DivBelow(x % L.LD(), BlockedNumRhs(L), L.blockSize);
    DivBelow(x / L.LD(), BlockedNumRows(L), L.blockSize);
  }

  lemma DivBelow(i: nat, q: nat, b: nat)
    requires b > 0 && i < q * b
    ensures i / b < q
  {
    assert i == (i / b) * b + i % b;
    if i / b >= q { MulLeft(q, i / b, b); }
  }

  /** Tile number `k` of the kernel's enumeration: `(k / blockedNumRows, k % blockedNumRows)`. */
  function TileAt(k: nat, blockedNumRows: nat): (nat, nat)
    requires blockedNumRows > 0
  {
    (k / blockedNumRows, k % blockedNumRows)
  }

  /** Position of tile `(r, c)` in the kernel's enumeration. */
  function TileSlot(r: nat, c: nat, blockedNumRows: nat): nat
  {
    r * blockedNumRows + c
  }

  /**
   * The enumeration `k -> (k / blockedNumRows, k % blockedNumRows)` of
   * `[0, blockedNumRhs * blockedNumRows)` visits every tile exactly once.
   */
  lemma TileEnumeration(blockedNumRhs: nat, blockedNumRows: nat, range: seq<(nat, nat)>)
    requires |range| == blockedNumRhs * blockedNumRows
    requires forall k :: 0 <= k < |range| ==> blockedNumRows > 0 && range[k] == TileAt(k, blockedNumRows)
    ensures forall k :: 0 <= k < |range| ==> range[k].0 < blockedNumRhs && range[k].1 < blockedNumRows
    ensures forall r: nat, c: nat :: r < blockedNumRhs && c < blockedNumRows ==>
      TileSlot(r, c, blockedNumRows) < |range| && range[TileSlot(r, c, blockedNumRows)] == (r, c)
    ensures forall r: nat, c: nat :: r < blockedNumRhs && c < blockedNumRows ==> (r, c) in range
    ensures forall p, q :: 0 <= p < q < |range| ==> range[p] != range[q]
  {
    forall k | 0 <= k < |range|
      ensures range[k].0 < blockedNumRhs && range[k].1 < blockedNumRows
    {
      FlatSplit(k, blockedNumRhs, blockedNumRows);
    }
    forall r: nat, c: nat | r < blockedNumRhs && c < blockedNumRows
      ensures TileSlot(r, c, blockedNumRows) < |range| && range[TileSlot(r, c, blockedNumRows)] == (r, c)
    {
      FlatBound(r, c, blockedNumRhs, blockedNumRows);
      FlatCoords(r, c, blockedNumRows);
    }
    forall r: nat, c: nat | r < blockedNumRhs && c < blockedNumRows
      ensures (r, c) in range
    {
      assert range[TileSlot(r, c, blockedNumRows)] == (r, c);
    }
    forall p, q | 0 <= p < q < |range|
      ensures range[p] != range[q]
    {
      FlatSplit(p, blockedNumRhs, blockedNumRows);
      FlatSplit(q, blockedNumRhs, blockedNumRows);
    }
  }

  /**
   * Fills the vector of tile coordinates: entry `k` is `(k / blockedNumRows, k % blockedNumRows)`,
   * so every tile appears exactly once.
   */
  method TileRange(blockedNumRhs: nat, blockedNumRows: nat) returns (range: seq<(nat, nat)>)
    ensures |range| == blockedNumRhs * blockedNumRows
    ensures forall k :: 0 <= k < |range| ==> range[k].0 < blockedNumRhs && range[k].1 < blockedNumRows
    ensures forall r: nat, c: nat :: r < blockedNumRhs && c < blockedNumRows ==>
      TileSlot(r, c, blockedNumRows) < |range| && range[TileSlot(r, c, blockedNumRows)] == (r, c)
    ensures forall r: nat, c: nat :: r < blockedNumRhs && c < blockedNumRows ==> (r, c) in range
    ensures forall p, q :: 0 <= p < q < |range| ==> range[p] != range[q]
  {
    var n := blockedNumRhs * blockedNumRows;
    var a := new (nat, nat)[n];
    var k := 0;
    while k < n
      invariant 0 <= k <= n
      invariant forall p :: 0 <= p < k ==> blockedNumRows > 0 && a[p] == TileAt(p, blockedNumRows)
    {
      FlatSplit(k, blockedNumRhs, blockedNumRows);
      a[k] := (k / blockedNumRows, k % blockedNumRows);
      k := k + 1;
    }
    range := a[..];
    TileEnumeration(blockedNumRhs, blockedNumRows, range);
  }

  // ---------------------------------------------------------------------------
  // The kernel
  // ---------------------------------------------------------------------------

  /** First right-hand side (`rhs_idx`) and first row (`row_idx`) covered by tile `t`. */
  function RhsIdx(L: Layout, t: (nat, nat)): nat { t.0 * L.blockSize }
  function RowIdx(L: Layout, t: (nat, nat)): nat { t.1 * L.blockSize }

  /** The global indices of a tile's cells stay inside the padded data. */
  lemma TileCellInPaddedBounds(L: Layout, t: (nat, nat), a: nat, b: nat)
    requires L.Valid() && t.0 < BlockedNumRhs(L) && t.1 < BlockedNumRows(L)
    requires a < L.blockSize && b < L.blockSize
    ensures RhsIdx(L, t) + a < L.LD() && RowIdx(L, t) + b < L.M()
  {
    TileEnd(t.0, BlockedNumRhs(L), L.blockSize);
    TileEnd(t.1, BlockedNumRows(L), L.blockSize);
    assert BlockedNumRhs(L) * L.blockSize < L.numRhs + L.blockSize;
    assert BlockedNumRows(L) * L.blockSize < L.numRows + L.blockSize;
  }

  /** A tile `r < q` ends at or before the end of the last tile: `(r + 1) * b <= q * b`. */
  lemma TileEnd(r: nat, q: nat, b: nat)
    requires r < q
    ensures r * b + b <= q * b
  {
    MulLeft(r + 1, q, b);
  }

  /** The first `k` terms of the dot product belonging to local cell `(a, b)` of tile `t`. */
  function TileDot(L: Layout, A: seq<real>, B: seq<real>, t: (nat, nat), a: nat, b: nat, k: nat): real
    requires L.Valid() && Shaped(L, A, B)
    requires t.0 < BlockedNumRhs(L) && t.1 < BlockedNumRows(L)
    requires a < L.blockSize && b < L.blockSize && k <= L.numRows
  {
    TileCellInPaddedBounds(L, t, a, b);
    Dot(L, A, B, RhsIdx(L, t) + a, RowIdx(L, t) + b, k)
  }

  /** One more dimension of a tile cell's dot product. */
  lemma TileDotStep(L: Layout, A: seq<real>, B: seq<real>, t: (nat, nat), a: nat, b: nat, k: nat, acc: real, term: real)
    requires L.Valid() && Shaped(L, A, B)
    requires t.0 < BlockedNumRhs(L) && t.1 < BlockedNumRows(L)
    requires a < L.blockSize && b < L.blockSize && k < L.numRows
    requires RhsIdx(L, t) + a < L.LD() && RowIdx(L, t) + b < L.M()
    requires acc == TileDot(L, A, B, t, a, b, k)
    requires term == Term(L, A, B, RhsIdx(L, t) + a, RowIdx(L, t) + b, k)
    ensures acc + term == TileDot(L, A, B, t, a, b, k + 1)
  {
  }

  /** `A(dim, gj)` read from the stored upper triangle: the kernel decides on which side of the diagonal it lies. */
  method SymmetricLookup(L: Layout, A: seq<real>, dim: nat, gj: nat) returns (aVal: real)
    requires |A| == PackedSize(L.M()) && dim < L.M() && gj < L.M()
    ensures aVal == AEntry(L, A, dim, gj)
  {
    if dim < gj {
      PackedOffsetInBounds(L.M(), dim, gj);
      aVal := A[PackedOffset(L.M(), dim, gj)];
    } else {
      PackedOffsetInBounds(L.M(), gj, dim);
      aVal := A[PackedOffset(L.M(), gj, dim)];
    }
  }

  /** One term of the kernel's inner product: `A(dim, gj) * B(gi, dim)`. */
  method TileTerm(L: Layout, A: seq<real>, B: seq<real>, gi: nat, gj: nat, dim: nat) returns (term: real)
    requires Shaped(L, A, B) && gi < L.LD() && gj < L.M() && dim < L.M()
    ensures term == Term(L, A, B, gi, gj, dim)
  {
    var aVal := SymmetricLookup(L, A, dim, gj);
    FlatBound(dim, gi, L.M(), L.LD());
    term := aVal * B[Flat(L, gi, dim)];
  }

  /** How many dimensions local cell `(a, b)` has accumulated once the kernel is at cell `(ii, jj)` of dimension `dim`. */
  function Progress(a: nat, b: nat, ii: nat, jj: nat, dim: nat): nat
  {
    if Before(a, b, ii, jj) then dim + 1 else dim
  }

  /** One pass of the innermost loop: row `ii` of `temp` takes dimension `dim` into account. */
  method AccumulateRow(L: Layout, A: seq<real>, B: seq<real>, t: (nat, nat), dim: nat, ii: nat, temp: array2<real>)
    requires L.Valid() && Shaped(L, A, B)
    requires t.0 < BlockedNumRhs(L) && t.1 < BlockedNumRows(L)
    requires dim < L.numRows && ii < L.blockSize
    requires temp.Length0 == L.blockSize && temp.Length1 == L.blockSize
    requires forall a, b :: 0 <= a < L.blockSize && 0 <= b < L.blockSize ==>
      temp[a, b] == TileDot(L, A, B, t, a, b, Progress(a, b, ii, 0, dim))
    modifies temp
    ensures forall a, b :: 0 <= a < L.blockSize && 0 <= b < L.blockSize ==>
      temp[a, b] == TileDot(L, A, B, t, a, b, Progress(a, b, ii + 1, 0, dim))
  {
    var rhsIdx, rowIdx := RhsIdx(L, t), RowIdx(L, t);
    var jj := 0;
    while jj < L.blockSize
      invariant jj <= L.blockSize
      invariant forall a, b :: 0 <= a < L.blockSize && 0 <= b < L.blockSize && a != ii ==>
        temp[a, b] == TileDot(L, A, B, t, a, b, Progress(a, b, ii, 0, dim))
      invariant forall b :: 0 <= b < jj ==> temp[ii, b] == TileDot(L, A, B, t, ii, b, dim + 1)
      invariant forall b :: jj <= b < L.blockSize ==> temp[ii, b] == TileDot(L, A, B, t, ii, b, dim)
    {
      TileCellInPaddedBounds(L, t, ii, jj);
      var term := TileTerm(L, A, B, rhsIdx + ii, rowIdx + jj, dim);
      TileDotStep(L, A, B, t, ii, jj, dim, temp[ii, jj], term);
      temp[ii, jj] := temp[ii, jj] + term;
      jj := jj + 1;
    }
  }

  /**
   * The accumulation phase of one tile: the thread-private `temp` block holds, for every
   * local cell `(a, b)`, the dot product of row `rowIdx + b` of `A` with right-hand side
   * `rhsIdx + a` of `B` over all `numRows` dimensions.
   */
  method AccumulateTile(L: Layout, A: seq<real>, B: seq<real>, t: (nat, nat)) returns (temp: array2<real>)
    requires L.Valid() && Shaped(L, A, B)
    requires t.0 < BlockedNumRhs(L) && t.1 < BlockedNumRows(L)
    ensures temp.Length0 == L.blockSize && temp.Length1 == L.blockSize
    ensures forall a, b :: 0 <= a < L.blockSize && 0 <= b < L.blockSize ==>
      temp[a, b] == TileDot(L, A, B, t, a, b, L.numRows)
  {
    temp := new real[L.blockSize, L.blockSize]((_, _) => 0.0);
    var dim := 0;
    while dim < L.numRows
      invariant dim <= L.numRows
      invariant temp.Length0 == L.blockSize && temp.Length1 == L.blockSize
      invariant forall a, b :: 0 <= a < L.blockSize && 0 <= b < L.blockSize ==>
        temp[a, b] == TileDot(L, A, B, t, a, b, dim)
    {
      var ii := 0;
      while ii < L.blockSize
        invariant ii <= L.blockSize
        invariant forall a, b :: 0 <= a < L.blockSize && 0 <= b < L.blockSize ==>
          temp[a, b] == TileDot(L, A, B, t, a, b, Progress(a, b, ii, 0, dim))
      {
        AccumulateRow(L, A, B, t, dim, ii, temp);
        ii := ii + 1;
      }
      dim := dim + 1;
    }
  }

  /** The cell at local position `(a, b)` of tile `t` is at flat position `Flat(L, gi, gj)` and belongs to `t`. */
  lemma TileCellCoords(L: Layout, t: (nat, nat), a: nat, b: nat)
    requires L.Valid() && t.0 < BlockedNumRhs(L) && t.1 < BlockedNumRows(L)
    requires a < L.blockSize && b < L.blockSize
    ensures var gi, gj := RhsIdx(L, t) + a, RowIdx(L, t) + b;
      var x := Flat(L, gi, gj);
      gi < L.LD() && gj < L.M() &&
      x < L.DataSize() && x % L.LD() == gi && x / L.LD() == gj && TileOf(L, x) == t
  {
    var ibs := L.blockSize;
    TileCellInPaddedBounds(L, t, a, b);
    var gi, gj := RhsIdx(L, t) + a, RowIdx(L, t) + b;
    FlatBound(gj, gi, L.M(), L.LD());
    FlatCoords(gj, gi, L.LD());
    FlatCoords(t.0, a, ibs);
    FlatCoords(t.1, b, ibs);
  }

  /** A cell of tile `t` has local coordinates inside the tile. */
  lemma CellOfTile(L: Layout, t: (nat, nat), x: nat)
    requires L.Valid() && x < L.DataSize() && TileOf(L, x) == t
    ensures L.LD() > 0
    ensures RhsIdx(L, t) <= x % L.LD() < RhsIdx(L, t) + L.blockSize
    ensures RowIdx(L, t) <= x / L.LD() < RowIdx(L, t) + L.blockSize
    ensures x == Flat(L, x % L.LD(), x / L.LD())
  {
    FlatSplit(x, L.M(), L.LD());
    var i, j, b := x % L.LD(), x / L.LD(), L.blockSize;
    assert i == (i / b) * b + i % b;
    assert j == (j / b) * b + j % b;
  }

  /** Local cell `(a, b)` comes before local cell `(ii, jj)` in the row-major order of a tile. */
  predicate Before(a: int, b: int, ii: nat, jj: nat)
  {
    a < ii || (a == ii && b < jj)
  }

  /** `C` once the local cells of tile `t` before `(ii, jj)` are written back. */
  ghost function TilePrefix(L: Layout, alpha: real, A: seq<real>, B: seq<real>, beta: real, C: seq<real>, t: (nat, nat), ii: nat, jj: nat): (r: seq<real>)
    requires L.Valid() && Shaped(L, A, B)
    ensures |r| == |C|
  {
    seq(|C|, x requires 0 <= x < |C| =>
      if InRange(L, x) && TileOf(L, x) == t
         && Before(x % L.LD() - RhsIdx(L, t), x / L.LD() - RowIdx(L, t), ii, jj)
      then CellValue(L, alpha, A, B, beta, C[x], x) else C[x])
  }

  lemma TilePrefixEmpty(L: Layout, alpha: real, A: seq<real>, B: seq<real>, beta: real, C: seq<real>, t: (nat, nat))
    requires L.Valid() && Shaped(L, A, B) && |C| == L.DataSize()
    ensures TilePrefix(L, alpha, A, B, beta, C, t, 0, 0) == C
  {
    forall x | 0 <= x < |C| && InRange(L, x) && TileOf(L, x) == t
      ensures !Before(x % L.LD() - RhsIdx(L, t), x / L.LD() - RowIdx(L, t), 0, 0)
    {
      CellOfTile(L, t, x);
    }
  }

  /** Finishing local row `ii` is starting local row `ii + 1`. */
  lemma TilePrefixNextRow(L: Layout, alpha: real, A: seq<real>, B: seq<real>, beta: real, C: seq<real>, t: (nat, nat), ii: nat)
    requires L.Valid() && Shaped(L, A, B) && |C| == L.DataSize()
    ensures TilePrefix(L, alpha, A, B, beta, C, t, ii, L.blockSize) == TilePrefix(L, alpha, A, B, beta, C, t, ii + 1, 0)
  {
    var P, P' := TilePrefix(L, alpha, A, B, beta, C, t, ii, L.blockSize), TilePrefix(L, alpha, A, B, beta, C, t, ii + 1, 0);
    forall x | 0 <= x < |C|
      ensures P[x] == P'[x]
    {
      if InRange(L, x) && TileOf(L, x) == t {
        CellOfTile(L, t, x);
      }
    }
  }

  lemma TilePrefixFull(L: Layout, alpha: real, A: seq<real>, B: seq<real>, beta: real, C: seq<real>, t: (nat, nat))
    requires L.Valid() && Shaped(L, A, B) && |C| == L.DataSize()
    ensures TilePrefix(L, alpha, A, B, beta, C, t, L.blockSize, 0) == TileUpdate(L, alpha, A, B, beta, C, t)
  {
    forall x | 0 <= x < |C| && InRange(L, x) && TileOf(L, x) == t
      ensures x % L.LD() - RhsIdx(L, t) < L.blockSize
    {
      CellOfTile(L, t, x);
    }
  }

  /**
   * Writing back local cell `(a, b)` extends the prefix by one cell: it gets
   * `alpha * temp + beta * C` when it is in range and is left alone otherwise.
   */
  lemma TilePrefixStep(L: Layout, alpha: real, A: seq<real>, B: seq<real>, beta: real, C: seq<real>, t: (nat, nat), a: nat, b: nat)
    requires L.Valid() && Shaped(L, A, B) && |C| == L.DataSize()
    requires t.0 < BlockedNumRhs(L) && t.1 < BlockedNumRows(L)
    requires a < L.blockSize && b < L.blockSize
    ensures var x0 := Flat(L, RhsIdx(L, t) + a, RowIdx(L, t) + b);
      x0 < |C| && TilePrefix(L, alpha, A, B, beta, C, t, a, b)[x0] == C[x0] &&
      TilePrefix(L, alpha, A, B, beta, C, t, a, b + 1)
        == if RhsIdx(L, t) + a < L.numRhs && RowIdx(L, t) + b < L.numRows
           then TilePrefix(L, alpha, A, B, beta, C, t, a, b)[x0 := Update(alpha, beta, TileDot(L, A, B, t, a, b, L.numRows), C[x0])]
           else TilePrefix(L, alpha, A, B, beta, C, t, a, b)
  {
    var gi, gj := RhsIdx(L, t) + a, RowIdx(L, t) + b;
    var x0 := Flat(L, gi, gj);
    TileCellCoords(L, t, a, b);
    forall x | 0 <= x < |C| && x != x0
      ensures !(x % L.LD() == gi && x / L.LD() == gj)
    {
      FlatSplit(x, L.M(), L.LD());
    }
  }

  /**
   * The write-back phase of one tile: each in-range cell of the tile becomes
   * `alpha * temp + beta * C`; the cells outside the tile and the padding cells are untouched.
   */
  method WriteBackTile(L: Layout, alpha: real, A: seq<real>, B: seq<real>, beta: real, t: (nat, nat), temp: array2<real>, C: array<real>)
    requires L.Valid() && Shaped(L, A, B) && C.Length == L.DataSize()
    requires t.0 < BlockedNumRhs(L) && t.1 < BlockedNumRows(L)
    requires temp.Length0 == L.blockSize && temp.Length1 == L.blockSize
    requires forall a, b :: 0 <= a < L.blockSize && 0 <= b < L.blockSize ==>
      temp[a, b] == TileDot(L, A, B, t, a, b, L.numRows)
    modifies C
    ensures C[..] == TileUpdate(L, alpha, A, B, beta, old(C[..]), t)
  {
    var ibs := L.blockSize;
    var rhsIdx, rowIdx := RhsIdx(L, t), RowIdx(L, t);
    ghost var C0 := C[..];
    TilePrefixEmpty(L, alpha, A, B, beta, C0, t);
    var ii := 0;
    while ii < ibs
      invariant ii <= ibs
      invariant C[..] == TilePrefix(L, alpha, A, B, beta, C0, t, ii, 0)
    {
      var jj := 0;
      while jj < ibs
        invariant jj <= ibs
        invariant C[..] == TilePrefix(L, alpha, A, B, beta, C0, t, ii, jj)
      {
        var gi, gj := rhsIdx + ii, rowIdx + jj;
        TilePrefixStep(L, alpha, A, B, beta, C0, t, ii, jj);
        // be sure to not perform out of bounds accesses
        if gi < L.numRhs && gj < L.numRows {
          C[Flat(L, gi, gj)] := Update(alpha, beta, temp[ii, jj], C[Flat(L, gi, gj)]);
        }
        jj := jj + 1;
      }
      TilePrefixNextRow(L, alpha, A, B, beta, C0, t, ii);
      ii := ii + 1;
    }
    TilePrefixFull(L, alpha, A, B, beta, C0, t);
  }

  /**
   * `device_kernel_symm`: `C = alpha * A * B + beta * C` computed tile by tile. The tiles are
   * processed in the order of `range`; any other order gives the same result (`ApplyTilesCells`).
   */
  method DeviceKernelSymm(L: Layout, alpha: real, A: seq<real>, B: seq<real>, beta: real, C: array<real>)
    requires L.Valid()
    requires |A| == PackedSize(L.M())
    requires |B| == L.DataSize() && C.Length == L.DataSize()
    modifies C
    ensures C[..] == SymmResult(L, alpha, A, B, beta, old(C[..]))
  {
    var blockedNumRhs := CeilDiv(L.numRhs, L.blockSize);
    var blockedNumRows := CeilDiv(L.numRows, L.blockSize);
    var range := TileRange(blockedNumRhs, blockedNumRows);
    ghost var C0 := C[..];

    var k := 0;
    while k < |range|
      invariant k <= |range|
      invariant C[..] == ApplyTiles(L, alpha, A, B, beta, C0, range[..k])
    {
      var t := range[k];
      var temp := AccumulateTile(L, A, B, t);
      WriteBackTile(L, alpha, A, B, beta, t, temp, C);
      ApplyTilesSnoc(L, alpha, A, B, beta, C0, range[..k], t);
      assert range[..k + 1] == range[..k] + [t];
      k := k + 1;
    }
    assert range[..k] == range;
    AllTilesGiveSymmResult(L, alpha, A, B, beta, C0, range);
  }

  lemma {:induction false} ApplyTilesSnoc(L: Layout, alpha: real, A: seq<real>, B: seq<real>, beta: real, C: seq<real>, ts: seq<(nat, nat)>, t: (nat, nat))
    requires L.Valid() && Shaped(L, A, B)
    ensures ApplyTiles(L, alpha, A, B, beta, C, ts + [t])
         == TileUpdate(L, alpha, A, B, beta, ApplyTiles(L, alpha, A, B, beta, C, ts), t)
    decreases |ts|
  {
    if ts != [] {
      assert (ts + [t])[1..] == ts[1..] + [t];
      ApplyTilesSnoc(L, alpha, A, B, beta, TileUpdate(L, alpha, A, B, beta, C, ts[0]), ts[1..], t);
    }
  }
}
