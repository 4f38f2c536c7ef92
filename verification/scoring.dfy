/** The score of one candidate alignment path (PeakMatching.py:202-231). A path holds one
    apex per condition, missing where the path skips that condition. Present apexes are
    measured against their own mean; a missing slot counts as lying `threshold` away. */
module Scoring {
  import opened Wrappers

  function PresentSum(row: seq<Option<real>>): real {
    if row == [] then 0.0 else (if row[0].Some? then row[0].value else 0.0) + PresentSum(row[1..])
  }

  function PresentCount(row: seq<Option<real>>): nat {
    if row == [] then 0 else (if row[0].Some? then 1 else 0) + PresentCount(row[1..])
  }

  /** The NaN-skipping mean of the present apexes. */
  function Mean(row: seq<Option<real>>): real
    requires PresentCount(row) > 0
  {
    PresentSum(row) / PresentCount(row) as real
  }

  function Mul(a: real, b: real): real {
    a * b
  }

  /** The square of a deviation (`np.square`). */
  function Square(x: real): real {
    Mul(x, x)
  }

  lemma MulSign(a: real, b: real)
    ensures a > 0.0 && b > 0.0 ==> Mul(a, b) > 0.0
    ensures a < 0.0 && b < 0.0 ==> Mul(a, b) > 0.0
    ensures a == 0.0 ==> Mul(a, b) == 0.0
  {
  }

  lemma SquareFacts(x: real)
    ensures Square(x) >= 0.0
    ensures Square(x) == 0.0 <==> x == 0.0
  {
    MulSign(x, x);
  }

  /** 1 / (a + 1) falls as a grows. */
  lemma ReciprocalDecreasing(a: real, b: real)
    requires 0.0 <= a < b
    ensures 1.0 / (a + 1.0) > 1.0 / (b + 1.0)
  {
  }

  /** The mean of k - 1 copies of c and a zero is below c. */
  lemma MeanBelow(sum: real, k: real, c: real)
    requires k >= 1.0 && c > 0.0 && sum == (k - 1.0) * c
    ensures 0.0 <= sum / k < c
  {
    assert sum == k * c - c;
  }

  lemma {:induction false} PresentCountPositive(row: seq<Option<real>>, j: int)
    requires 0 <= j < |row| && row[j].Some?
    ensures PresentCount(row) > 0
  {
    if j > 0 {
      PresentCountPositive(row[1..], j - 1);
    }
  }

  /** `path_mean_dist`: the squared distance of every present apex from the mean of the present
      apexes; a missing slot is replaced by `t` before squaring. */
  function Deviations(row: seq<Option<real>>, t: real): (d: seq<real>)
    ensures |d| == |row|
    ensures forall j | 0 <= j < |row| && row[j].None? :: d[j] == Square(t)
  {
    var m := if PresentCount(row) > 0 then Mean(row) else 0.0;
    seq(|row|, j requires 0 <= j < |row| => if row[j].Some? then Square(row[j].value - m) else Square(t))
  }

  function Sum(xs: seq<real>): real {
    if xs == [] then 0.0 else xs[0] + Sum(xs[1..])
  }

  lemma {:induction false} SumNonNegative(xs: seq<real>)
    requires forall i | 0 <= i < |xs| :: xs[i] >= 0.0
    ensures Sum(xs) >= 0.0
    ensures Sum(xs) == 0.0 <==> forall i | 0 <= i < |xs| :: xs[i] == 0.0
  {
    if xs != [] {
      SumNonNegative(xs[1..]);
      assert forall i | 1 <= i < |xs| :: xs[i] == xs[1..][i - 1];
    }
  }

  lemma DeviationsNonNegative(row: seq<Option<real>>, t: real)
    ensures forall j | 0 <= j < |row| :: Deviations(row, t)[j] >= 0.0
  {
    forall x: real {
      SquareFacts(x);
    }
  }

  /** `path_score`: one over one plus the mean squared deviation; it lies in (0, 1]. */
  function Score(row: seq<Option<real>>, t: real): (s: real)
    requires |row| > 0
    ensures 0.0 < s <= 1.0
  {
    DeviationsNonNegative(row, t);
    SumNonNegative(Deviations(row, t));
    var v := Sum(Deviations(row, t)) / |row| as real;
    assert v >= 0.0;
    1.0 / (v + 1.0)
  }

  lemma {:induction false} SumOfConstant(xs: seq<real>, c: real)
    requires forall i | 0 <= i < |xs| :: xs[i] == c
    ensures Sum(xs) == |xs| as real * c
  {
    if xs != [] {
      SumOfConstant(xs[1..], c);
    }
  }

  lemma {:induction false} SumOfConstantButOne(xs: seq<real>, j: int, c: real)
    requires 0 <= j < |xs| && xs[j] == 0.0
    requires forall i | 0 <= i < |xs| && i != j :: xs[i] == c
    ensures Sum(xs) == (|xs| - 1) as real * c
  {
    if j == 0 {
      SumOfConstant(xs[1..], c);
    } else {
      SumOfConstantButOne(xs[1..], j - 1, c);
    }
  }

  /** A path that skips every condition scores 1 / (t^2 + 1). */
  lemma ScoreOfAllAbsent(row: seq<Option<real>>, t: real)
    requires |row| > 0
    requires forall j | 0 <= j < |row| :: row[j].None?
    ensures Score(row, t) == 1.0 / (Square(t) + 1.0)
  {
    var d := Deviations(row, t);
    SumOfConstant(d, Square(t));
    var k := |row| as real;
    assert Sum(d) / k == Square(t) by {
      assert Sum(d) == k * (Square(t));
    }
  }

  lemma {:induction false} SinglePresentSum(row: seq<Option<real>>, j: int)
    requires 0 <= j < |row| && row[j].Some?
    requires forall i | 0 <= i < |row| && i != j :: row[i].None?
    ensures PresentCount(row) == 1 && PresentSum(row) == row[j].value
  {
    if j == 0 {
      NoPresent(row[1..]);
    } else {
      SinglePresentSum(row[1..], j - 1);
    }
  }

  lemma {:induction false} NoPresent(row: seq<Option<real>>)
    requires forall i | 0 <= i < |row| :: row[i].None?
    ensures PresentCount(row) == 0 && PresentSum(row) == 0.0
  {
    if row != [] {
      NoPresent(row[1..]);
    }
  }

  /** With a non-zero threshold, a path holding a single peak scores strictly more than the
      path that skips every condition, so the search never stops while a peak is left. */
  lemma SinglePeakBeatsAllAbsent(row: seq<Option<real>>, t: real, j: int)
    requires t != 0.0
    requires 0 <= j < |row| && row[j].Some?
    requires forall i | 0 <= i < |row| && i != j :: row[i].None?
    ensures Score(row, t) > 1.0 / (Square(t) + 1.0)
  {
    SinglePresentSum(row, j);
    var d := Deviations(row, t);
    assert Mean(row) == row[j].value;
    assert d[j] == 0.0;
    SumOfConstantButOne(d, j, Square(t));
    var k := |row| as real;
    var v := Sum(d) / k;
    var c := Square(t);
    SquareFacts(t);
    assert Sum(d) == (k - 1.0) * c;
    MeanBelow(Sum(d), k, c);
    assert Score(row, t) == 1.0 / (v + 1.0);
    ReciprocalDecreasing(v, c);
  }

  lemma {:induction false} EqualPresentMean(row: seq<Option<real>>, x: real)
    requires forall i | 0 <= i < |row| && row[i].Some? :: row[i].value == x
    ensures PresentSum(row) == PresentCount(row) as real * x
  {
    if row != [] {
      EqualPresentMean(row[1..], x);
    }
  }

  /** The score is maximal exactly when no slot deviates. */
  lemma ScoreIsOneIffNoDeviation(row: seq<Option<real>>, t: real)
    requires |row| > 0
    ensures Score(row, t) == 1.0 <==> forall j | 0 <= j < |row| :: Deviations(row, t)[j] == 0.0
  {
    var d := Deviations(row, t);
    var k := |row| as real;
    DeviationsNonNegative(row, t);
    SumNonNegative(d);
    var v := Sum(d) / k;
    assert v >= 0.0;
    assert Score(row, t) == 1.0 / (v + 1.0);
    assert v == 0.0 <==> Sum(d) == 0.0;
    if v > 0.0 {
      assert 1.0 / (v + 1.0) < 1.0;
    }
  }

  /** Every present apex and every missing slot agree when the threshold is 0 and all
      present apexes are equal. */
  predicate Agree(row: seq<Option<real>>, t: real) {
    && (forall j | 0 <= j < |row| && row[j].None? :: t == 0.0)
    && (forall i, j | 0 <= i < |row| && 0 <= j < |row| && row[i].Some? && row[j].Some? :: row[i].value == row[j].value)
  }

  lemma NoDeviationAgrees(row: seq<Option<real>>, t: real)
    requires forall j | 0 <= j < |row| :: Deviations(row, t)[j] == 0.0
    ensures Agree(row, t)
  {
    var d := Deviations(row, t);
    if PresentCount(row) > 0 {
      var m := Mean(row);
      forall i | 0 <= i < |row| && row[i].Some? ensures row[i].value == m {
        assert d[i] == Square(row[i].value - m) == 0.0;
        SquareFacts(row[i].value - m);
      }
    } else {
      forall i | 0 <= i < |row| ensures row[i].None? {
        if row[i].Some? {
          PresentCountPositive(row, i);
        }
      }
    }
    forall j | 0 <= j < |row| && row[j].None? ensures t == 0.0 {
      assert d[j] == Square(t) == 0.0;
      SquareFacts(t);
    }
  }

  lemma AgreementHasNoDeviation(row: seq<Option<real>>, t: real)
    requires Agree(row, t)
    ensures forall j | 0 <= j < |row| :: Deviations(row, t)[j] == 0.0
  {
    var d := Deviations(row, t);
    forall j | 0 <= j < |row| ensures d[j] == 0.0 {
      if row[j].Some? {
        PresentCountPositive(row, j);
        EqualPresentMean(row, row[j].value);
        assert Mean(row) == row[j].value;
        SquareFacts(0.0);
      } else {
        SquareFacts(t);
      }
    }
  }

  /** A path scores the maximal 1 exactly when all its present apexes coincide and it skips
      no condition unless the threshold is 0. */
  lemma ScoreIsOne(row: seq<Option<real>>, t: real)
    requires |row| > 0
    ensures Score(row, t) == 1.0 <==> Agree(row, t)
  {
    ScoreIsOneIffNoDeviation(row, t);
    if Agree(row, t) {
      AgreementHasNoDeviation(row, t);
    }
    if forall j | 0 <= j < |row| :: Deviations(row, t)[j] == 0.0 {
      NoDeviationAgrees(row, t);
    }
  }
}
