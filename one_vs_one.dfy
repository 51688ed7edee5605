/** One-vs-one bookkeeping of the LIBSVM model reader (libsvm_model_parsing.hpp): the
  position of the classifier `x vs y` among all `n (n - 1) / 2` binary classifiers, the
  position of a support vector's weight inside one classifier, and the remap of the
  weights as read from a model file onto the classifiers. */
module OneVsOne {
  import opened Wrappers

  // ---------------------------------------------------------------- pair ranks

  /** The number of pairs `(i, j)` with `i < x` and `i < j < n`: where the row of the
    classifiers `x vs _` starts in the lexicographic order 0v1, 0v2, ..., (n-2)v(n-1). */
  function RowStart(x: nat, n: nat): nat
    requires x <= n
  {
    if x == 0 then 0 else RowStart(x - 1, n) + (n - x)
  }

  /** `calculate_number_of_classifiers(oao, n)`. */
  function NumClassifiers(n: nat): nat {
    n * (n - 1) / 2
  }

  lemma {:induction false} ProductOfNeighboursIsEven(m: nat)
    ensures (m * (m - 1)) % 2 == 0
  {
    if m > 1 {
      ProductOfNeighboursIsEven(m - 1);
      assert m * (m - 1) == (m - 1) * (m - 2) + 2 * (m - 1);
    }
  }

  /** The rows before `x` hold `(n (n - 1) - (n - x)(n - x - 1)) / 2` pairs. */
  lemma {:induction false} RowStartClosed(x: nat, n: nat)
    requires x <= n
    ensures 2 * RowStart(x, n) == n * (n - 1) - (n - x) * (n - x - 1)
  {
    if x > 0 {
      RowStartClosed(x - 1, n);
      var m := n - x;
      assert (m + 1) * m - m * (m - 1) == 2 * m;
    }
  }

  lemma RowStartAll(n: nat)
    ensures RowStart(n, n) == NumClassifiers(n)
  {
    RowStartClosed(n, n);
    ProductOfNeighboursIsEven(n);
  }

  lemma {:induction false} RowStartMonotone(x: nat, y: nat, n: nat)
    requires x <= y <= n
    ensures RowStart(x, n) <= RowStart(y, n)
    decreases y - x
  {
    if x < y {
      RowStartMonotone(x, y - 1, n);
    }
  }

  /** `x_vs_y_to_idx(x, y, n)`: the position of the classifier of classes `x` and `y`. The
    library swaps the two when `x > y`; it is called only for two different classes. The
    result is the lexicographic rank of the ordered pair. */
  function XvsYToIdx(x: nat, y: nat, n: nat): (idx: nat)
    requires x != y && x < n && y < n
    ensures var (a, b) := if x > y then (y, x) else (x, y);
      idx == RowStart(a, n) + (b - a - 1)
  {
    var (a, b) := if x > y then (y, x) else (x, y);
    RowStartClosed(a, n);
    ProductOfNeighboursIsEven(n);
    ProductOfNeighboursIsEven(n - a);
    (n * (n - 1) / 2) - (n - a) * ((n - a) - 1) / 2 + b - a - 1
  }

  /** Swapping the two classes names the same classifier. */
  lemma XvsYSymmetric(x: nat, y: nat, n: nat)
    requires x != y && x < n && y < n
    ensures XvsYToIdx(x, y, n) == XvsYToIdx(y, x, n)
  {
  }

  /** The documented calls: 1 vs 2 of four classes is classifier 3, 3 vs 1 is classifier 4
    (the order being 0v1, 0v2, 0v3, 1v2, 1v3, 2v3). */
  lemma XvsYExamples()
    ensures XvsYToIdx(1, 2, 4) == 3
    ensures XvsYToIdx(3, 1, 4) == 4
    ensures XvsYToIdx(0, 1, 4) == 0 && XvsYToIdx(2, 3, 4) == 5
  {
  }

  /** Every classifier position is below the number of classifiers. */
  lemma XvsYInRange(x: nat, y: nat, n: nat)
    requires x < y < n
    ensures XvsYToIdx(x, y, n) < NumClassifiers(n)
  {
    RowStartMonotone(x + 1, n, n);
    RowStartAll(n);
  }

  /** The positions follow the lexicographic order of the pairs, so different pairs get
    different positions. */
  lemma XvsYOrdered(x: nat, y: nat, x2: nat, y2: nat, n: nat)
    requires x < y < n && x2 < y2 < n
    requires x < x2 || (x == x2 && y < y2)
    ensures XvsYToIdx(x, y, n) < XvsYToIdx(x2, y2, n)
  {
    if x < x2 {
      RowStartMonotone(x + 1, x2, n);
    }
  }

  /** The pair at position `k` when counting from the start of row `x`. */
  function PairFrom(k: nat, x: nat, n: nat): (p: (nat, nat))
    requires x <= n && RowStart(x, n) + k < RowStart(n, n)
    ensures p.0 < p.1 < n && p.0 >= x
    ensures RowStart(p.0, n) + (p.1 - p.0 - 1) == RowStart(x, n) + k
    decreases n - x
  {
    if k < n - 1 - x then (x, x + 1 + k)
    else PairFrom(k - (n - 1 - x), x + 1, n)
  }

  /** The inverse of `XvsYToIdx`: the classes of the classifier at position `k`. */
  function IdxToXvsY(k: nat, n: nat): (p: (nat, nat))
    requires k < NumClassifiers(n)
    ensures p.0 < p.1 < n
  {
    RowStartAll(n);
    PairFrom(k, 0, n)
  }

  /** Position to pair and back. */
  lemma IdxToXvsYRoundTrip(k: nat, n: nat)
    requires k < NumClassifiers(n)
    ensures XvsYToIdx(IdxToXvsY(k, n).0, IdxToXvsY(k, n).1, n) == k
  {
    RowStartAll(n);
  }

  /** Pair to position and back: together with the round trip above, `XvsYToIdx` is a
    bijection between the pairs `x < y < n` and `[0, n (n - 1) / 2)`. */
  lemma XvsYRoundTrip(x: nat, y: nat, n: nat)
    requires x < y < n
    ensures XvsYToIdx(x, y, n) < NumClassifiers(n)
    ensures IdxToXvsY(XvsYToIdx(x, y, n), n) == (x, y)
  {
    XvsYInRange(x, y, n);
    var k := XvsYToIdx(x, y, n);
    var p := IdxToXvsY(k, n);
    IdxToXvsYRoundTrip(k, n);
    if p.0 < x || (p.0 == x && p.1 < y) {
      XvsYOrdered(p.0, p.1, x, y, n);
    } else if p != (x, y) {
      XvsYOrdered(x, y, p.0, p.1, n);
    }
  }

  // ---------------------------------------------------------------- weight positions

  /** The first position of `v` in `s`. */
  function FirstIndexOf(s: seq<nat>, v: nat): (r: Option<nat>)
    ensures r.Some? ==> r.value < |s| && s[r.value] == v && forall k :: 0 <= k < r.value ==> s[k] != v
    ensures r.None? ==> v !in s
  {
    if |s| == 0 then None
    else if s[0] == v then Some(0)
    else match FirstIndexOf(s[1..], v)
      case None => None
      case Some(k) => Some(k + 1)
  }

  /** `calculate_alpha_idx` throws when the support vector is in neither index set. */
  datatype AlphaIdxError = IndexNotFound(idxToFind: nat, first: nat, second: nat)

  /** `calculate_alpha_idx(i, j, indices, idx)`: after ordering the two classes, the
    position of `idx` in the smaller class's index set, or past that set the position in
    the larger class's set: the first position of `idx` in the two sets laid end to end. */
  function AlphaIdx(i: nat, j: nat, indices: seq<seq<nat>>, idx: nat): (r: Result<nat, AlphaIdxError>)
    requires i < |indices| && j < |indices|
    ensures var (a, b) := if i > j then (j, i) else (i, j);
      var both := indices[a] + indices[b];
      && (r.Success? <==> idx in both)
      && (r.Success? ==> r.value < |both| && both[r.value] == idx && forall k :: 0 <= k < r.value ==> both[k] != idx)
      && (r.Failure? ==> r.error == IndexNotFound(idx, a, b))
  {
    var (a, b) := if i > j then (j, i) else (i, j);
    match FirstIndexOf(indices[a], idx)
    case Some(p) => Success(p)
    case None =>
      match FirstIndexOf(indices[b], idx)
      case Some(p) => Success(|indices[a]| + p)
      case None => Failure(IndexNotFound(idx, a, b))
  }

  /** The search does not depend on the order of the two classes. */
  lemma AlphaIdxSymmetric(i: nat, j: nat, indices: seq<seq<nat>>, idx: nat)
    requires i < |indices| && j < |indices|
    ensures AlphaIdx(i, j, indices, idx) == AlphaIdx(j, i, indices, idx)
  {
  }

  /** The documented example: with the sets [0, 2, 4] and [6, 8, 10], index 4 is at 2 and
    index 10 at 5. */
  lemma AlphaIdxExample()
    ensures AlphaIdx(0, 1, [[0, 2, 4], [6, 8, 10]], 4) == Success(2)
    ensures AlphaIdx(1, 0, [[0, 2, 4], [6, 8, 10]], 10) == Success(5)
    ensures AlphaIdx(0, 1, [[0, 2, 4], [6, 8, 10]], 5).Failure?
  {
    var indices: seq<seq<nat>> := [[0, 2, 4], [6, 8, 10]];
    assert indices[0][2] == 4;
    assert indices[1][2] == 10;
    assert 5 !in indices[0] + indices[1];
  }

  /** `calculate_alpha_idx`: the two search loops. */
  method CalculateAlphaIdx(i: nat, j: nat, indices: seq<seq<nat>>, idx: nat) returns (r: Result<nat, AlphaIdxError>)
    requires i < |indices| && j < |indices|
    ensures r == AlphaIdx(i, j, indices, idx)
  {
    var a, b := i, j;
    if a > b {
      a, b := b, a;
    }
    for k := 0 to |indices[a]|
      invariant idx !in indices[a][..k]
    {
      if indices[a][k] == idx {
        return Success(k);
      }
    }
    assert indices[a][..|indices[a]|] == indices[a];
    for k := 0 to |indices[b]|
      invariant idx !in indices[b][..k]
    {
      if indices[b][k] == idx {
        return Success(|indices[a]| + k);
      }
    }
    assert indices[b][..|indices[b]|] == indices[b];
    return Failure(IndexNotFound(idx, a, b));
  }

  // ---------------------------------------------------------------- the OAO remap

  /** Where the support vectors of class `c` start: the sum of the counts before it. */
  function Start(counts: seq<nat>, c: nat): nat
    requires c <= |counts|
  {
    if c == 0 then 0 else Start(counts, c - 1) + counts[c - 1]
  }

  lemma {:induction false} StartMonotone(counts: seq<nat>, c: nat, d: nat)
    requires c <= d <= |counts|
    ensures Start(counts, c) <= Start(counts, d)
    decreases d - c
  {
    if c < d {
      StartMonotone(counts, c, d - 1);
    }
  }

  /** The weights as read: row `a` holds the `a`-th weight of every support vector, and
    every class has a partner, so there are at least `|counts| - 1` rows. */
  predicate Shape(alpha: seq<seq<real>>, counts: seq<nat>) {
    && |counts| >= 2
    && |alpha| >= |counts| - 1
    && forall r :: 0 <= r < |alpha| ==> |alpha[r]| >= Start(counts, |counts|)
  }

  /** The class whose classifier with `c` receives the `a`-th weight of a support vector of
    class `c`: the classes in order, skipping `c` itself. */
  function Other(c: nat, a: nat): nat {
    if a < c then a else a + 1
  }

  /** The weights of classifier `x vs y` (`x < y`): the `(y - 1)`-th weights of the support
    vectors of class `x`, then the `x`-th weights of those of class `y`. */
  function PairWeights(alpha: seq<seq<real>>, counts: seq<nat>, x: nat, y: nat): seq<real>
    requires Shape(alpha, counts) && x < y < |counts|
  {
    StartMonotone(counts, x + 1, |counts|);
    StartMonotone(counts, y + 1, |counts|);
    alpha[y - 1][Start(counts, x)..Start(counts, x + 1)] + alpha[x][Start(counts, y)..Start(counts, y + 1)]
  }

  /** The remapped weights, one sequence per classifier in the order of `XvsYToIdx`. */
  function OaoRemap(alpha: seq<seq<real>>, counts: seq<nat>): (oao: seq<seq<real>>)
    requires Shape(alpha, counts)
    ensures |oao| == NumClassifiers(|counts|)
  {
    var k := |counts|;
    seq(NumClassifiers(k), p requires 0 <= p < NumClassifiers(k) =>
      PairWeights(alpha, counts, IdxToXvsY(p, k).0, IdxToXvsY(p, k).1))
  }

  /** The classifier of classes `x < y` holds the `(y - 1)`-th weights of class `x`'s
    support vectors followed by the `x`-th weights of class `y`'s. */
  lemma OaoRemapPair(alpha: seq<seq<real>>, counts: seq<nat>, x: nat, y: nat)
    requires Shape(alpha, counts) && x < y < |counts|
    ensures XvsYToIdx(x, y, |counts|) < NumClassifiers(|counts|)
    ensures OaoRemap(alpha, counts)[XvsYToIdx(x, y, |counts|)] == PairWeights(alpha, counts, x, y)
  {
    XvsYRoundTrip(x, y, |counts|);
  }

  /** How far the remap loops have got: class `c`, its support vector `i`, weight `a`. */
  predicate Position(counts: seq<nat>, c: nat, i: nat, a: nat) {
    && c <= |counts|
    && (c == |counts| ==> i == 0 && a == 0)
    && (c < |counts| ==> i <= counts[c] && a < |counts| && (i == counts[c] ==> a == 0))
  }

  /** How many support vectors of class `x` have already pushed their weight to `x vs y`. */
  function DoneFirst(counts: seq<nat>, c: nat, i: nat, a: nat, x: nat, y: nat): nat
    requires x < |counts|
  {
    if x < c then counts[x] else if x == c then i + (if y - 1 < a then 1 else 0) else 0
  }

  /** How many support vectors of class `y` have already pushed their weight to `x vs y`. */
  function DoneSecond(counts: seq<nat>, c: nat, i: nat, a: nat, x: nat, y: nat): nat
    requires y < |counts|
  {
    if y < c then counts[y] else if y == c then i + (if x < a then 1 else 0) else 0
  }

  /** The weights of classifier `x vs y` at a given point of the loops. */
  function PartialPair(alpha: seq<seq<real>>, counts: seq<nat>, c: nat, i: nat, a: nat, x: nat, y: nat): seq<real>
    requires Shape(alpha, counts) && Position(counts, c, i, a) && x < y < |counts|
  {
    var n1 := DoneFirst(counts, c, i, a, x, y);
    var n2 := DoneSecond(counts, c, i, a, x, y);
    StartMonotone(counts, x + 1, |counts|);
    StartMonotone(counts, y + 1, |counts|);
    alpha[y - 1][Start(counts, x)..Start(counts, x) + n1] + alpha[x][Start(counts, y)..Start(counts, y) + n2]
  }

  function Partial(alpha: seq<seq<real>>, counts: seq<nat>, c: nat, i: nat, a: nat): (oao: seq<seq<real>>)
    requires Shape(alpha, counts) && Position(counts, c, i, a)
    ensures |oao| == NumClassifiers(|counts|)
  {
    var k := |counts|;
    seq(NumClassifiers(k), p requires 0 <= p < NumClassifiers(k) =>
      PartialPair(alpha, counts, c, i, a, IdxToXvsY(p, k).0, IdxToXvsY(p, k).1))
  }

  lemma PartialFirst(alpha: seq<seq<real>>, counts: seq<nat>)
    requires Shape(alpha, counts)
    ensures Position(counts, 0, 0, 0)
    ensures Partial(alpha, counts, 0, 0, 0) == seq(NumClassifiers(|counts|), _ => [])
  {
    var empty: seq<seq<real>> := seq(NumClassifiers(|counts|), _ => []);
    forall p | 0 <= p < NumClassifiers(|counts|)
      ensures Partial(alpha, counts, 0, 0, 0)[p] == empty[p]
    {
      IdxToXvsYRoundTrip(p, |counts|);
      PairEmpty(alpha, counts, IdxToXvsY(p, |counts|).0, IdxToXvsY(p, |counts|).1);
    }
  }

  lemma PairEmpty(alpha: seq<seq<real>>, counts: seq<nat>, x: nat, y: nat)
    requires Shape(alpha, counts) && x < y < |counts|
    ensures Position(counts, 0, 0, 0) && PartialPair(alpha, counts, 0, 0, 0, x, y) == []
  {
    assert DoneFirst(counts, 0, 0, 0, x, y) == 0;
    assert DoneSecond(counts, 0, 0, 0, x, y) == 0;
    StartMonotone(counts, x + 1, |counts|);
    StartMonotone(counts, y + 1, |counts|);
    var s1 := Start(counts, x);
    var s2 := Start(counts, y);
    assert alpha[y - 1][s1..s1 + 0] == [];
    assert alpha[x][s2..s2 + 0] == [];
    assert PartialPair(alpha, counts, 0, 0, 0, x, y) == alpha[y - 1][s1..s1 + 0] + alpha[x][s2..s2 + 0];
  }

  lemma PartialLast(alpha: seq<seq<real>>, counts: seq<nat>)
    requires Shape(alpha, counts)
    ensures Position(counts, |counts|, 0, 0)
    ensures Partial(alpha, counts, |counts|, 0, 0) == OaoRemap(alpha, counts)
  {
  }

  /** The last weight of support vector `i` is followed by the first weight of `i + 1`. */
  lemma PartialNextPoint(alpha: seq<seq<real>>, counts: seq<nat>, c: nat, i: nat)
    requires Shape(alpha, counts) && c < |counts| && i < counts[c]
    ensures Position(counts, c, i, |counts| - 1) && Position(counts, c, i + 1, 0)
    ensures Partial(alpha, counts, c, i, |counts| - 1) == Partial(alpha, counts, c, i + 1, 0)
  {
  }

  /** The last support vector of class `c` is followed by the first one of class `c + 1`. */
  lemma PartialNextClass(alpha: seq<seq<real>>, counts: seq<nat>, c: nat)
    requires Shape(alpha, counts) && c < |counts|
    ensures Position(counts, c, counts[c], 0) && Position(counts, c + 1, 0, 0)
    ensures Partial(alpha, counts, c, counts[c], 0) == Partial(alpha, counts, c + 1, 0, 0)
  {
  }

  /** A weight standing for a lower class `a < c` extends classifier `a vs c`. */
  lemma PairExtendedBelow(alpha: seq<seq<real>>, counts: seq<nat>, c: nat, i: nat, a: nat)
    requires Shape(alpha, counts) && c < |counts| && i < counts[c] && a < c
    ensures Position(counts, c, i, a) && Position(counts, c, i, a + 1)
    ensures Start(counts, c) + i < |alpha[a]|
    ensures PartialPair(alpha, counts, c, i, a + 1, a, c)
         == PartialPair(alpha, counts, c, i, a, a, c) + [alpha[a][Start(counts, c) + i]]
  {
    StartMonotone(counts, c + 1, |counts|);
    StartMonotone(counts, a + 1, |counts|);
    var s1 := Start(counts, a);
    var s2 := Start(counts, c);
    var first := alpha[c - 1][s1..s1 + counts[a]];
    var row := alpha[a];
    assert row[s2..s2 + i + 1] == row[s2..s2 + i] + [row[s2 + i]];
    assert PartialPair(alpha, counts, c, i, a + 1, a, c) == first + row[s2..s2 + i + 1];
    assert PartialPair(alpha, counts, c, i, a, a, c) == first + row[s2..s2 + i];
  }

  /** A weight standing for a higher class `a + 1 > c` extends classifier `c vs a + 1`. */
  lemma PairExtendedAbove(alpha: seq<seq<real>>, counts: seq<nat>, c: nat, i: nat, a: nat)
    requires Shape(alpha, counts) && c < |counts| && i < counts[c] && c <= a < |counts| - 1
    ensures Position(counts, c, i, a) && Position(counts, c, i, a + 1)
    ensures Start(counts, c) + i < |alpha[a]|
    ensures PartialPair(alpha, counts, c, i, a + 1, c, a + 1)
         == PartialPair(alpha, counts, c, i, a, c, a + 1) + [alpha[a][Start(counts, c) + i]]
  {
    StartMonotone(counts, c + 1, |counts|);
    StartMonotone(counts, a + 2, |counts|);
    var s1 := Start(counts, c);
    var s2 := Start(counts, a + 1);
    var row := alpha[a];
    var second := alpha[c][s2..s2 + 0];
    assert row[s1..s1 + i + 1] == row[s1..s1 + i] + [row[s1 + i]];
    assert second == [];
    assert PartialPair(alpha, counts, c, i, a + 1, c, a + 1) == row[s1..s1 + i + 1] + second;
    assert PartialPair(alpha, counts, c, i, a, c, a + 1) == row[s1..s1 + i] + second;
  }

  /** Every other classifier is left as it was. */
  lemma PairUnchanged(alpha: seq<seq<real>>, counts: seq<nat>, c: nat, i: nat, a: nat, x: nat, y: nat)
    requires Shape(alpha, counts) && c < |counts| && i < counts[c] && a < |counts| - 1
    requires x < y < |counts|
    requires var o := Other(c, a); (x, y) != (if c < o then (c, o) else (o, c))
    ensures Position(counts, c, i, a) && Position(counts, c, i, a + 1)
    ensures PartialPair(alpha, counts, c, i, a + 1, x, y) == PartialPair(alpha, counts, c, i, a, x, y)
  {
    assert DoneFirst(counts, c, i, a + 1, x, y) == DoneFirst(counts, c, i, a, x, y);
    assert DoneSecond(counts, c, i, a + 1, x, y) == DoneSecond(counts, c, i, a, x, y);
  }

  /** One push: the `a`-th weight of support vector `i` of class `c` is appended to the
    classifier of `c` and `Other(c, a)`, and no other classifier changes. */
  lemma PartialStep(alpha: seq<seq<real>>, counts: seq<nat>, c: nat, i: nat, a: nat)
    requires Shape(alpha, counts) && c < |counts| && i < counts[c] && a < |counts| - 1
    ensures Position(counts, c, i, a) && Position(counts, c, i, a + 1)
    ensures Other(c, a) < |counts| && Other(c, a) != c
    ensures Start(counts, c) + i < |alpha[a]|
    ensures var p := XvsYToIdx(c, Other(c, a), |counts|);
      var before := Partial(alpha, counts, c, i, a);
      p < |before| && before[p := before[p] + [alpha[a][Start(counts, c) + i]]] == Partial(alpha, counts, c, i, a + 1)
  {
    var k := |counts|;
    var o := Other(c, a);
    var x := if c < o then c else o;
    var y := if c < o then o else c;
    if a < c {
      PairExtendedBelow(alpha, counts, c, i, a);
    } else {
      PairExtendedAbove(alpha, counts, c, i, a);
    }
    var p := XvsYToIdx(c, o, k);
    XvsYRoundTrip(x, y, k);
    var before := Partial(alpha, counts, c, i, a);
    var after := Partial(alpha, counts, c, i, a + 1);
    var pushed := before[p := before[p] + [alpha[a][Start(counts, c) + i]]];
    forall q | 0 <= q < |after|
      ensures pushed[q] == after[q]
    {
      var pair := IdxToXvsY(q, k);
      IdxToXvsYRoundTrip(q, k);
      if q != p {
        PairUnchanged(alpha, counts, c, i, a, pair.0, pair.1);
      }
    }
  }

  /** `PartialStep` in the terms of the remap loop: its cursor `runningIdx` and the class
    `runningA` the weight stands for. */
  lemma PushStep(alpha: seq<seq<real>>, counts: seq<nat>, c: nat, i: nat, a: nat,
                 oao: seq<seq<real>>, runningIdx: nat, runningA: nat)
    requires Shape(alpha, counts) && c < |counts| && i < counts[c] && a < |counts| - 1
    requires Position(counts, c, i, a) && oao == Partial(alpha, counts, c, i, a)
    requires runningIdx == Start(counts, c) + i && runningA == Other(c, a)
    ensures Position(counts, c, i, a + 1)
    ensures runningA < |counts| && runningA != c && runningIdx < |alpha[a]|
    ensures XvsYToIdx(c, runningA, |counts|) < |oao|
    ensures oao[XvsYToIdx(c, runningA, |counts|) := oao[XvsYToIdx(c, runningA, |counts|)] + [alpha[a][runningIdx]]]
         == Partial(alpha, counts, c, i, a + 1)
  {
    PartialStep(alpha, counts, c, i, a);
  }

  /** The innermost remap loop: the `|counts| - 1` weights of support vector `i` of class
    `c` (at `runningIdx` overall) go to the classifiers of `c` with every other class, in
    class order. */
  method PushWeights(alpha: seq<seq<real>>, counts: seq<nat>, c: nat, i: nat, runningIdx: nat, before: seq<seq<real>>)
    returns (oao: seq<seq<real>>)
    requires Shape(alpha, counts) && c < |counts| && i < counts[c] && runningIdx == Start(counts, c) + i
    requires Position(counts, c, i, 0) && before == Partial(alpha, counts, c, i, 0)
    ensures Position(counts, c, i + 1, 0) && oao == Partial(alpha, counts, c, i + 1, 0)
  {
    var k := |counts|;
    oao := before;
    var runningA := 0;
    for a := 0 to k - 1
      invariant Position(counts, c, i, a) && oao == Partial(alpha, counts, c, i, a)
      invariant runningA == if a <= c then a else a + 1
    {
      if a == c {
        runningA := runningA + 1;
      }
      PushStep(alpha, counts, c, i, a, oao, runningIdx, runningA);
      var value := alpha[a][runningIdx];
      var idx := XvsYToIdx(c, runningA, k);
      oao := oao[idx := oao[idx] + [value]];
      runningA := runningA + 1;
    }
    PartialNextPoint(alpha, counts, c, i);
  }

  /** The remap loops of `parse_libsvm_model_data` for one-vs-one files: every weight of
    every support vector, in class order, is pushed onto the classifier of its class and
    the class the weight stands for. */
  method RemapOao(alpha: seq<seq<real>>, counts: seq<nat>) returns (oao: seq<seq<real>>)
    requires Shape(alpha, counts)
    ensures oao == OaoRemap(alpha, counts)
  {
    var k := |counts|;
    oao := seq(NumClassifiers(k), _ => []);
    PartialFirst(alpha, counts);
    var runningIdx := 0;
    for c := 0 to k
      invariant Position(counts, c, 0, 0) && oao == Partial(alpha, counts, c, 0, 0)
      invariant runningIdx == Start(counts, c)
    {
      for i := 0 to counts[c]
        invariant Position(counts, c, i, 0) && oao == Partial(alpha, counts, c, i, 0)
        invariant runningIdx == Start(counts, c) + i
      {
        oao := PushWeights(alpha, counts, c, i, runningIdx, oao);
        runningIdx := runningIdx + 1;
      }
      PartialNextClass(alpha, counts, c);
    }
    PartialLast(alpha, counts);
  }

  /** The indices `lo, lo + 1, ..., lo + n - 1`. */
  function Range(lo: nat, n: nat): (r: seq<nat>)
    ensures |r| == n && forall t :: 0 <= t < n ==> r[t] == lo + t
  {
    if n == 0 then [] else Range(lo, n - 1) + [lo + n - 1]
  }

  /** The support vectors of each class, as consecutive global indices. */
  function ClassRanges(counts: seq<nat>): (indices: seq<seq<nat>>)
    ensures |indices| == |counts|
    ensures forall c :: 0 <= c < |counts| ==> indices[c] == Range(Start(counts, c), counts[c])
  {
    seq(|counts|, c requires 0 <= c < |counts| => Range(Start(counts, c), counts[c]))
  }

  /** Where support vector `s` sits in classifier `x vs y`: among class `x`'s vectors, or
    after all of them among class `y`'s. */
  function PairPosition(counts: seq<nat>, x: nat, y: nat, s: nat): nat
    requires x < y < |counts|
    requires Start(counts, x) <= s < Start(counts, x + 1) || Start(counts, y) <= s < Start(counts, y + 1)
  {
    StartMonotone(counts, x + 1, y);
    if s < Start(counts, x + 1) then s - Start(counts, x) else counts[x] + (s - Start(counts, y))
  }

  /** When the index occurs exactly once in the two sets laid end to end, the search finds
    that occurrence. */
  lemma AlphaIdxUnique(i: nat, j: nat, indices: seq<seq<nat>>, idx: nat, p: nat)
    requires i < j < |indices|
    requires var both := indices[i] + indices[j];
      p < |both| && both[p] == idx && forall q :: 0 <= q < |both| && both[q] == idx ==> q == p
    ensures AlphaIdx(i, j, indices, idx) == Success(p)
  {
  }

  /** Two ranges, the first ending before the second starts, hold each index at most once. */
  lemma TwoRangesUnique(lo1: nat, n1: nat, lo2: nat, n2: nat, s: nat)
    requires lo1 + n1 <= lo2
    requires lo1 <= s < lo1 + n1 || lo2 <= s < lo2 + n2
    ensures var both := Range(lo1, n1) + Range(lo2, n2);
      var p := if s < lo1 + n1 then s - lo1 else n1 + (s - lo2);
      p < |both| && both[p] == s && forall q :: 0 <= q < |both| && both[q] == s ==> q == p
  {
    var both := Range(lo1, n1) + Range(lo2, n2);
    forall q | 0 <= q < |both| && both[q] == s
      ensures q == if s < lo1 + n1 then s - lo1 else n1 + (s - lo2)
    {
      if q < n1 {
        assert both[q] == lo1 + q;
      } else {
        assert both[q] == lo2 + (q - n1);
      }
    }
  }

  /** Support vector `s` occurs exactly once in the ranges of classes `x` and `y`. */
  lemma RangesUnique(counts: seq<nat>, x: nat, y: nat, s: nat)
    requires x < y < |counts|
    requires Start(counts, x) <= s < Start(counts, x + 1) || Start(counts, y) <= s < Start(counts, y + 1)
    ensures var both := ClassRanges(counts)[x] + ClassRanges(counts)[y];
      var p := PairPosition(counts, x, y, s);
      p < |both| && both[p] == s && forall q :: 0 <= q < |both| && both[q] == s ==> q == p
  {
    StartMonotone(counts, x + 1, y);
    TwoRangesUnique(Start(counts, x), counts[x], Start(counts, y), counts[y], s);
  }

  /** `calculate_alpha_idx` over the class ranges finds exactly that position. */
  lemma AlphaIdxOfRanges(counts: seq<nat>, x: nat, y: nat, s: nat)
    requires x < y < |counts|
    requires Start(counts, x) <= s < Start(counts, x + 1) || Start(counts, y) <= s < Start(counts, y + 1)
    ensures AlphaIdx(x, y, ClassRanges(counts), s) == Success(PairPosition(counts, x, y, s))
  {
    RangesUnique(counts, x, y, s);
    AlphaIdxUnique(x, y, ClassRanges(counts), s, PairPosition(counts, x, y, s));
  }

  /** The weight at that position is the one the support vector holds for the other class. */
  lemma PairWeightsAt(alpha: seq<seq<real>>, counts: seq<nat>, x: nat, y: nat, s: nat)
    requires Shape(alpha, counts) && x < y < |counts|
    requires Start(counts, x) <= s < Start(counts, x + 1) || Start(counts, y) <= s < Start(counts, y + 1)
    ensures var weights := PairWeights(alpha, counts, x, y);
      && PairPosition(counts, x, y, s) < |weights| && s < |alpha[y - 1]| && s < |alpha[x]|
      && weights[PairPosition(counts, x, y, s)] == if s < Start(counts, x + 1) then alpha[y - 1][s] else alpha[x][s]
  {
    StartMonotone(counts, x + 1, |counts|);
    StartMonotone(counts, y + 1, |counts|);
  }

  /** The layout the remap builds is the one `calculate_alpha_idx` searches: support
    vector `s` of class `x` (or `y`) finds in classifier `x vs y` its weight for the other
    class. */
  lemma RemapAgreesWithAlphaIdx(alpha: seq<seq<real>>, counts: seq<nat>, x: nat, y: nat, s: nat)
    requires Shape(alpha, counts) && x < y < |counts|
    requires Start(counts, x) <= s < Start(counts, x + 1) || Start(counts, y) <= s < Start(counts, y + 1)
    ensures XvsYToIdx(x, y, |counts|) < NumClassifiers(|counts|)
    ensures var r := AlphaIdx(x, y, ClassRanges(counts), s);
      var weights := OaoRemap(alpha, counts)[XvsYToIdx(x, y, |counts|)];
      && r.Success? && r.value < |weights| && s < |alpha[y - 1]| && s < |alpha[x]|
      && weights[r.value] == if s < Start(counts, x + 1) then alpha[y - 1][s] else alpha[x][s]
  {
    AlphaIdxOfRanges(counts, x, y, s);
    PairWeightsAt(alpha, counts, x, y, s);
    OaoRemapPair(alpha, counts, x, y);
  }
}
