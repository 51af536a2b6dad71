/**
  The numeric view of a pandas DataFrame `X` with its target `y`.

  Pearson correlation, variance and the logarithm are not computed: a
  dataset carries them as functions, and a correlation that numpy or pandas
  reports as NaN (a constant column) is the `NaN` case of `Float`.
 */
module Frames {

  /** A Python float that is either a number or NaN. */
  datatype Float = Num(value: real) | NaN

  function Abs(x: real): (r: real)
    ensures r >= 0.0 && (r == x || r == -x)
  {
    if x < 0.0 then -x else x
  }

  /** abs() on a float: NaN stays NaN. */
  function AbsF(x: Float): (r: Float)
    ensures r.NaN? <==> x.NaN?
    ensures r.Num? ==> r.value >= 0.0
  {
    match x
    case Num(v) => Num(Abs(v))
    case NaN => NaN
  }

  /** Subtraction on floats: NaN is contagious. */
  function Minus(a: Float, b: Float): (r: Float)
    ensures r.Num? <==> a.Num? && b.Num?
  {
    if a.Num? && b.Num? then Num(a.value - b.value) else NaN
  }

  /**
    Python's `max(0.0, x)`: `max` keeps its first argument unless the next one
    compares greater, and nothing compares greater than 0.0 when it is NaN.
   */
  function MaxZero(x: Float): (r: real)
    ensures r >= 0.0
    ensures x.NaN? ==> r == 0.0
    ensures x.Num? && x.value > 0.0 ==> r == x.value
    ensures x.Num? && x.value <= 0.0 ==> r == 0.0
  {
    if x.Num? && x.value > 0.0 then x.value else 0.0
  }

  function Sum(xs: seq<real>): real
  {
    if xs == [] then 0.0 else Sum(xs[..|xs| - 1]) + xs[|xs| - 1]
  }

  lemma {:induction false} SumAppend(xs: seq<real>, ys: seq<real>)
    ensures Sum(xs + ys) == Sum(xs) + Sum(ys)
    decreases |ys|
  {
    if ys == [] {
      assert xs + ys == xs;
    } else {
      assert (xs + ys)[..|xs + ys| - 1] == xs + ys[..|ys| - 1];
      SumAppend(xs, ys[..|ys| - 1]);
    }
  }

  lemma SumOfTwo(a: real, b: real)
    ensures Sum([a]) == a && Sum([a, b]) == a + b
  {
    assert [a, b][..1] == [a];
    assert [a][..0] == [];
  }

  lemma {:induction false} SumBounds(xs: seq<real>, lo: real, hi: real)
    requires forall i :: 0 <= i < |xs| ==> lo <= xs[i] <= hi
    ensures |xs| as real * lo <= Sum(xs) <= |xs| as real * hi
  {
    if xs != [] {
      SumBounds(xs[..|xs| - 1], lo, hi);
    }
  }

  /** Scaling every entry scales the sum. */
  lemma {:induction false} SumScaled(xs: seq<real>, ys: seq<real>, c: real)
    requires |ys| == |xs| && forall i :: 0 <= i < |xs| ==> ys[i] == c * xs[i]
    ensures Sum(ys) == c * Sum(xs)
  {
    if xs != [] {
      SumScaled(xs[..|xs| - 1], ys[..|ys| - 1], c);
    }
  }

  lemma {:induction false} SumNonNegative(xs: seq<real>)
    requires forall i :: 0 <= i < |xs| ==> xs[i] >= 0.0
    ensures Sum(xs) >= 0.0
  {
    if xs != [] {
      SumNonNegative(xs[..|xs| - 1]);
    }
  }

  lemma NonNegativeSum(xs: seq<Float>)
    requires AllNum(xs) && NonNegative(xs)
    ensures Sum(Values(xs)) >= 0.0
  {
    SumNonNegative(Values(xs));
  }

  /** np.mean of a non-empty list. */
  function Mean(xs: seq<real>): real
    requires |xs| > 0
  {
    Sum(xs) / |xs| as real
  }

  lemma MeanOfFractions(xs: seq<real>)
    requires |xs| > 0 && forall i :: 0 <= i < |xs| ==> xs[i] >= 0.0
    ensures Mean(xs) >= 0.0
    ensures (forall i :: 0 <= i < |xs| ==> xs[i] <= 1.0) ==> Mean(xs) <= 1.0
  {
    SumNonNegative(xs);
    if forall i :: 0 <= i < |xs| ==> xs[i] <= 1.0 {
      MeanBounds(xs, 0.0, 1.0);
    }
  }

  lemma MeanBounds(xs: seq<real>, lo: real, hi: real)
    requires |xs| > 0
    requires forall i :: 0 <= i < |xs| ==> lo <= xs[i] <= hi
    ensures lo <= Mean(xs) <= hi
  {
    SumBounds(xs, lo, hi);
  }

  predicate AllNum(xs: seq<Float>) {
    forall i :: 0 <= i < |xs| ==> xs[i].Num?
  }

  /** No entry is a number above one. */
  predicate AtMostOne(xs: seq<Float>) {
    forall i :: 0 <= i < |xs| && xs[i].Num? ==> xs[i].value <= 1.0
  }

  /** No entry is a negative number (absolute values). */
  predicate NonNegative(xs: seq<Float>) {
    forall i :: 0 <= i < |xs| && xs[i].Num? ==> xs[i].value >= 0.0
  }

  function Values(xs: seq<Float>): (r: seq<real>)
    requires AllNum(xs)
    ensures |r| == |xs| && forall i :: 0 <= i < |xs| ==> r[i] == xs[i].value
  {
    seq(|xs|, i requires 0 <= i < |xs| => xs[i].value)
  }

  /** The numbers among `xs`, in order: what pandas keeps when it drops NaN. */
  function DropNaN(xs: seq<Float>): (r: seq<real>)
    ensures |r| <= |xs|
  {
    if xs == [] then []
    else
      var init := xs[..|xs| - 1];
      var rest := DropNaN(init);
      if xs[|xs| - 1].Num? then rest + [xs[|xs| - 1].value] else rest
  }

  /** Without NaN nothing is dropped; the numbers kept keep the bounds of the entries. */
  lemma {:induction false} DropNaNKeeps(xs: seq<Float>)
    ensures AllNum(xs) ==> DropNaN(xs) == Values(xs)
    ensures NonNegative(xs) ==> forall i :: 0 <= i < |DropNaN(xs)| ==> DropNaN(xs)[i] >= 0.0
    ensures AtMostOne(xs) ==> forall i :: 0 <= i < |DropNaN(xs)| ==> DropNaN(xs)[i] <= 1.0
  {
    if xs != [] {
      var init := xs[..|xs| - 1];
      DropNaNKeeps(init);
      assert forall i :: 0 <= i < |init| ==> init[i] == xs[i];
    }
  }

  /**
    Dropping NaN works entry by entry: it distributes over concatenation,
    keeps a number and drops a NaN. Together these fix DropNaN completely,
    order included.
   */
  lemma {:induction false} DropNaNAppend(xs: seq<Float>, ys: seq<Float>)
    ensures DropNaN(xs + ys) == DropNaN(xs) + DropNaN(ys)
    ensures forall v :: DropNaN([Num(v)]) == [v]
    ensures DropNaN([NaN]) == []
    decreases |ys|
  {
    if ys != [] {
      var init := ys[..|ys| - 1];
      assert (xs + ys)[..|xs + ys| - 1] == xs + init;
      DropNaNAppend(xs, init);
    } else {
      assert xs + ys == xs;
    }
    forall v ensures DropNaN([Num(v)]) == [v] {
      assert [Num(v)][..0] == [];
    }
    assert [NaN][..0] == [];
  }

  /** The numbers kept are exactly the numbers among the entries; nothing is kept exactly when every entry is NaN. */
  lemma {:induction false} DropNaNContent(xs: seq<Float>)
    ensures forall v :: v in DropNaN(xs) <==> Num(v) in xs
    ensures DropNaN(xs) == [] <==> forall i :: 0 <= i < |xs| ==> xs[i].NaN?
  {
    if xs != [] {
      var init := xs[..|xs| - 1];
      var last := xs[|xs| - 1];
      DropNaNContent(init);
      assert xs == init + [last];
      forall v ensures v in DropNaN(xs) <==> Num(v) in xs {
        assert Num(v) in xs <==> Num(v) in init || Num(v) == last;
      }
      if last.Num? {
        assert last.value in DropNaN(xs);
      } else {
        assert forall i :: 0 <= i < |init| ==> init[i] == xs[i];
      }
    }
  }

  /** Sum over floats (ndarray.sum / np.sum): NaN as soon as one entry is NaN. */
  function SumF(xs: seq<Float>): (r: Float)
    ensures r.Num? <==> AllNum(xs)
    ensures r.Num? ==> r.value == Sum(Values(xs))
  {
    if AllNum(xs) then Num(Sum(Values(xs))) else NaN
  }

  /** np.mean over floats: NaN as soon as one entry is NaN. */
  function MeanF(xs: seq<Float>): (r: Float)
    requires |xs| > 0
    ensures r.Num? <==> AllNum(xs)
  {
    if AllNum(xs) then Num(Mean(Values(xs))) else NaN
  }

  /**
    A data frame `X` with target `y`: the feature columns in order, the
    correlation of each feature with the target (`X[f].corr(y)`), the
    correlation of two features (an entry of `X[...].corr()`), and each
    feature's variance (`X[f].var()`).
   */
  datatype Dataset = Dataset(
    columns: seq<string>,
    targetCorr: string -> Float,
    featureCorr: (string, string) -> Float,
    variance: string -> real)
  {
    /** Column names are distinct (pandas renames repeated headers when it reads a file). */
    predicate Valid() {
      forall i, j :: 0 <= i < j < |columns| ==> columns[i] != columns[j]
    }

    /** Every name of `names` is a column, so `X[names]` does not raise KeyError. */
    predicate Covers(names: seq<string>) {
      forall f :: f in names ==> f in columns
    }

    ghost predicate SymmetricCorr() {
      forall a, b :: featureCorr(a, b) == featureCorr(b, a)
    }

    /** Pearson correlations lie in [-1, 1]. */
    ghost predicate CorrelationsInRange() {
      && (forall a, b :: featureCorr(a, b).Num? ==> Abs(featureCorr(a, b).value) <= 1.0)
      && (forall a :: targetCorr(a).Num? ==> Abs(targetCorr(a).value) <= 1.0)
    }
  }

  lemma {:induction false} ValuesAppend(xs: seq<Float>, ys: seq<Float>)
    requires AllNum(xs) && AllNum(ys)
    ensures AllNum(xs + ys) && Values(xs + ys) == Values(xs) + Values(ys)
  {
  }

  /** Entry (i, j) of `X[sel].corr().abs()`, rows and columns by position in `sel`. */
  function AbsCorrAt(ds: Dataset, sel: seq<string>, i: nat, j: nat): Float
    requires i < |sel| && j < |sel|
  {
    AbsF(ds.featureCorr(sel[i], sel[j]))
  }

  /** Column `m` of the matrix above the diagonal, rows `0 .. j-1`. */
  function ColumnAbove(ds: Dataset, sel: seq<string>, m: nat, j: nat): (r: seq<Float>)
    requires j <= m < |sel|
    ensures |r| == j && NonNegative(r)
    ensures forall i :: 0 <= i < j ==> r[i] == AbsCorrAt(ds, sel, i, m)
  {
    if j == 0 then [] else ColumnAbove(ds, sel, m, j - 1) + [AbsCorrAt(ds, sel, j - 1, m)]
  }

  /** Row `m` and column `m` off the diagonal: entries (i, m) and (m, i) for i < j. */
  function Border(ds: Dataset, sel: seq<string>, m: nat, j: nat): (r: seq<Float>)
    requires j <= m < |sel|
    ensures |r| == 2 * j && NonNegative(r)
    ensures forall i :: 0 <= i < j ==> r[2 * i] == AbsCorrAt(ds, sel, i, m) && r[2 * i + 1] == AbsCorrAt(ds, sel, m, i)
  {
    if j == 0 then [] else Border(ds, sel, m, j - 1) + [AbsCorrAt(ds, sel, j - 1, m), AbsCorrAt(ds, sel, m, j - 1)]
  }

  /**
    The off-diagonal entries of the leading k-by-k block of the matrix, grown
    one row-and-column border at a time: what remains of the matrix after
    np.fill_diagonal(matrix, 0), as a sequence of k*(k-1) entries.
   */
  function OffDiagonal(ds: Dataset, sel: seq<string>, k: nat): (r: seq<Float>)
    requires k <= |sel|
    ensures |r| == k * (k - 1) && NonNegative(r)
  {
    if k == 0 then [] else OffDiagonal(ds, sel, k - 1) + Border(ds, sel, k - 1, k - 1)
  }

  /** The strictly upper-triangular entries of the leading k-by-k block, k*(k-1)/2 of them. */
  function UpperTriangle(ds: Dataset, sel: seq<string>, k: nat): (r: seq<Float>)
    requires k <= |sel|
    ensures 2 * |r| == k * (k - 1) && NonNegative(r)
  {
    if k == 0 then [] else UpperTriangle(ds, sel, k - 1) + ColumnAbove(ds, sel, k - 1, k - 1)
  }

  /** Every entry (i, j) with i != j of the block is among the off-diagonal entries. */
  lemma {:induction false} OffDiagonalEntries(ds: Dataset, sel: seq<string>, k: nat)
    requires k <= |sel|
    ensures forall i, j :: 0 <= i < k && 0 <= j < k && i != j ==> AbsCorrAt(ds, sel, i, j) in OffDiagonal(ds, sel, k)
  {
    if k > 0 {
      OffDiagonalEntries(ds, sel, k - 1);
      var prev := OffDiagonal(ds, sel, k - 1);
      var b := Border(ds, sel, k - 1, k - 1);
      assert OffDiagonal(ds, sel, k) == prev + b;
      forall i, j | 0 <= i < k && 0 <= j < k && i != j
        ensures AbsCorrAt(ds, sel, i, j) in prev + b
      {
        if i == k - 1 {
          assert b[2 * j + 1] == AbsCorrAt(ds, sel, i, j);
        } else if j == k - 1 {
          assert b[2 * i] == AbsCorrAt(ds, sel, i, j);
        } else {
          assert AbsCorrAt(ds, sel, i, j) in prev;
        }
      }
    }
  }

  /** The off-diagonal entries are entries (i, j) of the block with i != j, and nothing else. */
  lemma {:induction false} OffDiagonalOnlyEntries(ds: Dataset, sel: seq<string>, k: nat)
    requires k <= |sel|
    ensures forall x :: x in OffDiagonal(ds, sel, k) ==>
      exists i, j :: 0 <= i < k && 0 <= j < k && i != j && x == AbsCorrAt(ds, sel, i, j)
  {
    if k > 0 {
      OffDiagonalOnlyEntries(ds, sel, k - 1);
      var prev := OffDiagonal(ds, sel, k - 1);
      var b := Border(ds, sel, k - 1, k - 1);
      assert OffDiagonal(ds, sel, k) == prev + b;
      forall x | x in prev + b
        ensures exists i, j :: 0 <= i < k && 0 <= j < k && i != j && x == AbsCorrAt(ds, sel, i, j)
      {
        if x in prev {
          var i, j :| 0 <= i < k - 1 && 0 <= j < k - 1 && i != j && x == AbsCorrAt(ds, sel, i, j);
          assert 0 <= i < k && 0 <= j < k;
        } else {
          var n :| 0 <= n < |b| && b[n] == x;
          if n % 2 == 0 {
            assert b[2 * (n / 2)] == AbsCorrAt(ds, sel, n / 2, k - 1);
          } else {
            assert b[2 * (n / 2) + 1] == AbsCorrAt(ds, sel, k - 1, n / 2);
          }
        }
      }
    }
  }

  /** With correlations in [-1, 1], no upper-triangular entry exceeds one. */
  lemma {:induction false} UpperTriangleAtMostOne(ds: Dataset, sel: seq<string>, k: nat)
    requires k <= |sel|
    ensures ds.CorrelationsInRange() ==> AtMostOne(UpperTriangle(ds, sel, k))
  {
    if k > 0 && ds.CorrelationsInRange() {
      UpperTriangleAtMostOne(ds, sel, k - 1);
      var up := UpperTriangle(ds, sel, k - 1);
      var c := ColumnAbove(ds, sel, k - 1, k - 1);
      var t := up + c;
      assert UpperTriangle(ds, sel, k) == t;
      forall i | 0 <= i < |t| && t[i].Num?
        ensures t[i].value <= 1.0
      {
        if i >= |up| {
          assert t[i] == AbsF(ds.featureCorr(sel[i - |up|], sel[k - 1]));
        }
      }
    }
  }

  /** The number of pairs i < j below k: 0 + 1 + ... + (k - 1). */
  function Pairs(k: nat): nat {
    if k == 0 then 0 else Pairs(k - 1) + (k - 1)
  }

  /** Where entry (i, j), i < j, sits in the upper triangle. */
  function Slot(i: nat, j: nat): nat {
    Pairs(j) + i
  }

  /**
    The layout of the upper triangle: column by column, entry (i, j) with
    i < j sits at position Slot(i, j) = Pairs(j) + i, so every pair of positions occurs
    exactly once. The order differs from the row-by-row order of pandas'
    `stack()`, which a mean does not see.
   */
  lemma {:induction false} UpperTriangleLayout(ds: Dataset, sel: seq<string>, k: nat)
    requires k <= |sel|
    ensures |UpperTriangle(ds, sel, k)| == Pairs(k)
    ensures forall i, j :: 0 <= i < j < k ==>
      Slot(i, j) < Pairs(k) && UpperTriangle(ds, sel, k)[Slot(i, j)] == AbsCorrAt(ds, sel, i, j)
  {
    UpperTriangleSize(ds, sel, k);
    var up := UpperTriangle(ds, sel, k);
    forall i, j | 0 <= i < j < k
      ensures Slot(i, j) < Pairs(k) && up[Slot(i, j)] == AbsCorrAt(ds, sel, i, j)
    {
      UpperTriangleAt(ds, sel, k, i, j);
    }
  }

  lemma {:induction false} UpperTriangleSize(ds: Dataset, sel: seq<string>, k: nat)
    requires k <= |sel|
    ensures |UpperTriangle(ds, sel, k)| == Pairs(k)
  {
    if k > 0 {
      UpperTriangleSize(ds, sel, k - 1);
    }
  }

  lemma {:induction false} UpperTriangleAt(ds: Dataset, sel: seq<string>, k: nat, i: nat, j: nat)
    requires i < j < k <= |sel|
    ensures Slot(i, j) < Pairs(k) && |UpperTriangle(ds, sel, k)| == Pairs(k)
    ensures UpperTriangle(ds, sel, k)[Slot(i, j)] == AbsCorrAt(ds, sel, i, j)
  {
    UpperTriangleSize(ds, sel, k);
    UpperTriangleSize(ds, sel, k - 1);
    var up := UpperTriangle(ds, sel, k - 1);
    var c := ColumnAbove(ds, sel, k - 1, k - 1);
    assert UpperTriangle(ds, sel, k) == up + c;
    if j < k - 1 {
      UpperTriangleAt(ds, sel, k - 1, i, j);
    } else {
      assert (up + c)[Slot(i, j)] == c[i];
    }
  }

  /** The upper-triangular entries are entries (i, j) of the block with i < j, and nothing else. */
  lemma {:induction false} UpperTriangleOnlyEntries(ds: Dataset, sel: seq<string>, k: nat)
    requires k <= |sel|
    ensures forall x :: x in UpperTriangle(ds, sel, k) ==> exists i, j :: 0 <= i < j < k && x == AbsCorrAt(ds, sel, i, j)
  {
    if k > 0 {
      UpperTriangleOnlyEntries(ds, sel, k - 1);
      var up := UpperTriangle(ds, sel, k - 1);
      var c := ColumnAbove(ds, sel, k - 1, k - 1);
      assert UpperTriangle(ds, sel, k) == up + c;
      forall x | x in up + c
        ensures exists i, j :: 0 <= i < j < k && x == AbsCorrAt(ds, sel, i, j)
      {
        if x in up {
          var i, j :| 0 <= i < j < k - 1 && x == AbsCorrAt(ds, sel, i, j);
          assert j < k;
        } else {
          var n :| 0 <= n < |c| && c[n] == x;
          assert x == AbsCorrAt(ds, sel, n, k - 1);
        }
      }
    }
  }

  /** Every entry (i, j) with i < j of the block is among the upper-triangular entries. */
  lemma {:induction false} UpperTriangleEntries(ds: Dataset, sel: seq<string>, k: nat)
    requires k <= |sel|
    ensures forall i, j :: 0 <= i < j < k ==> AbsCorrAt(ds, sel, i, j) in UpperTriangle(ds, sel, k)
  {
    if k > 0 {
      UpperTriangleEntries(ds, sel, k - 1);
      var c := ColumnAbove(ds, sel, k - 1, k - 1);
      forall i, j | 0 <= i < j < k
        ensures AbsCorrAt(ds, sel, i, j) in UpperTriangle(ds, sel, k)
      {
        if j == k - 1 {
          assert c[i] == AbsCorrAt(ds, sel, i, j);
        }
      }
    }
  }

  lemma SumValuesAppend(xs: seq<Float>, ys: seq<Float>)
    requires AllNum(xs) && AllNum(ys)
    ensures AllNum(xs + ys)
    ensures Sum(Values(xs + ys)) == Sum(Values(xs)) + Sum(Values(ys))
  {
    ValuesAppend(xs, ys);
    SumAppend(Values(xs), Values(ys));
  }

  lemma AllNumSplit(xs: seq<Float>, ys: seq<Float>)
    requires AllNum(xs + ys)
    ensures AllNum(xs) && AllNum(ys)
  {
    forall i | 0 <= i < |ys| ensures ys[i].Num? {
      assert ys[i] == (xs + ys)[|xs| + i];
    }
    forall i | 0 <= i < |xs| ensures xs[i].Num? {
      assert xs[i] == (xs + ys)[i];
    }
  }

  /** When `xs` holds no NaN, neither does `us`, and `xs` adds up to twice `us`. */
  ghost predicate Twice(xs: seq<Float>, us: seq<Float>) {
    AllNum(xs) ==> AllNum(us) && Sum(Values(xs)) == 2.0 * Sum(Values(us))
  }

  /** Doubling carries over concatenation. */
  lemma TwiceAppend(xs: seq<Float>, ys: seq<Float>, us: seq<Float>, vs: seq<Float>)
    ensures Twice(xs, us) && Twice(ys, vs) ==> Twice(xs + ys, us + vs)
  {
    if Twice(xs, us) && Twice(ys, vs) && AllNum(xs + ys) {
      AllNumSplit(xs, ys);
      SumValuesAppend(xs, ys);
      SumValuesAppend(us, vs);
    }
  }

  lemma RepeatedIsTwice(x: Float)
    ensures Twice([x, x], [x])
  {
    if x.Num? {
      assert Values([x]) == [x.value];
      assert Values([x, x]) == [x.value, x.value];
      SumOfTwo(x.value, x.value);
    } else {
      assert [x, x][0].NaN?;
    }
  }

  /**
    With a symmetric correlation and no NaN, the off-diagonal entries add up
    to twice the upper triangle: the mean over ordered pairs equals the mean
    over unordered pairs.
   */
  lemma {:induction false} OffDiagonalIsTwiceUpper(ds: Dataset, sel: seq<string>, k: nat)
    requires k <= |sel| && ds.SymmetricCorr()
    ensures Twice(OffDiagonal(ds, sel, k), UpperTriangle(ds, sel, k))
  {
    if k > 0 {
      var prev := OffDiagonal(ds, sel, k - 1);
      var b := Border(ds, sel, k - 1, k - 1);
      var up := UpperTriangle(ds, sel, k - 1);
      var c := ColumnAbove(ds, sel, k - 1, k - 1);
      assert OffDiagonal(ds, sel, k) == prev + b;
      assert UpperTriangle(ds, sel, k) == up + c;
      BorderIsTwiceColumn(ds, sel, k - 1, k - 1);
      OffDiagonalIsTwiceUpper(ds, sel, k - 1);
      TwiceAppend(prev, b, up, c);
    }
  }

  /** By symmetry, growing the border appends one entry twice where the column gets it once. */
  lemma BorderGrows(ds: Dataset, sel: seq<string>, m: nat, j: nat)
    requires 0 < j <= m < |sel| && ds.SymmetricCorr()
    ensures var x := AbsCorrAt(ds, sel, j - 1, m);
      && Border(ds, sel, m, j) == Border(ds, sel, m, j - 1) + [x, x]
      && ColumnAbove(ds, sel, m, j) == ColumnAbove(ds, sel, m, j - 1) + [x]
  {
    assert ds.featureCorr(sel[m], sel[j - 1]) == ds.featureCorr(sel[j - 1], sel[m]);
  }

  /** Row m and column m hold the same entries twice over, by symmetry. */
  lemma {:induction false} BorderIsTwiceColumn(ds: Dataset, sel: seq<string>, m: nat, j: nat)
    requires j <= m < |sel| && ds.SymmetricCorr()
    ensures Twice(Border(ds, sel, m, j), ColumnAbove(ds, sel, m, j))
  {
    if j > 0 {
      var x := AbsCorrAt(ds, sel, j - 1, m);
      BorderGrows(ds, sel, m, j);
      BorderIsTwiceColumn(ds, sel, m, j - 1);
      RepeatedIsTwice(x);
      TwiceAppend(Border(ds, sel, m, j - 1), [x, x], ColumnAbove(ds, sel, m, j - 1), [x]);
    }
  }
}
