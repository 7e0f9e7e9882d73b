// The rating shown for a torrent's votes, in exact arithmetic.
module Rating {

  function BiasValuation(count: real, min: real, average: real, constant: real): real
    requires count + min != 0.0
  {
    count / (count + min) * average + min / (min + count) * constant
  }

  function RatingOf(good: nat, bad: nat): real {
    var n := (good + bad) as real;
    if n > 0.0 then BiasValuation(n, 9.0, good as real / n, 0.45) else 0.0
  }

  lemma DivUnique(a: real, b: real, q: real)
    requires b != 0.0 && q * b == a
    ensures a / b == q
  {
  }

  lemma DivOrders(a: real, b: real, c: real, d: real)
    requires b > 0.0 && d > 0.0
    ensures a / b < c / d <==> a * d < c * b
  {
    var x, y := a / b, c / d;
    assert x * b == a && y * d == c;
    assert a * d == x * (b * d) && c * b == y * (b * d);
    assert b * d > 0.0;
    assert (y - x) * (b * d) == c * b - a * d;
    if x < y { assert (y - x) * (b * d) > 0.0; } else { assert (x - y) * (b * d) >= 0.0; }
  }

  // The weighted mean of the two averages is nine extra votes at 0.45; without
  // any vote the rating is zero all the same.
  lemma ClosedForm(good: nat, bad: nat)
    ensures good + bad == 0 ==> RatingOf(good, bad) == 0.0
    ensures good + bad > 0 ==>
              RatingOf(good, bad) == (good as real + 4.05) / (good as real + bad as real + 9.0)
  {
    if good + bad == 0 { return; }
    var g, n := good as real, (good + bad) as real;
    var d := n + 9.0;
    assert n / d * (g / n) == g / d by {
      DivUnique(g, d, n / d * (g / n));
      assert n / d * d == n && g / n * n == g;
      assert n / d * (g / n) * d == (n / d * d) * (g / n);
    }
    assert 9.0 / d * 0.45 == 4.05 / d;
    assert g / d + 4.05 / d == (g + 4.05) / d;
  }

  // Another good vote raises the rating, another bad one lowers it.
  lemma VotesMoveRating(good: nat, bad: nat)
    requires good + bad > 0
    ensures RatingOf(good + 1, bad) > RatingOf(good, bad) > RatingOf(good, bad + 1)
  {
    ClosedForm(good, bad);
    ClosedForm(good + 1, bad);
    ClosedForm(good, bad + 1);
    var a, d := good as real + 4.05, good as real + bad as real + 9.0;
    DivOrders(a, d, a + 1.0, d + 1.0);
    DivOrders(a, d + 1.0, a, d);
    hide RatingOf;
    assert a * (d + 1.0) == a * d + a && (a + 1.0) * d == a * d + d;
  }

  function Abs(x: real): real {
    if x < 0.0 then -x else x
  }

  // The rating lies between the raw share of good votes and 0.45, nine
  // (n + 9)-ths of the way from the share to 0.45.
  lemma PulledTowardsPrior(good: nat, bad: nat)
    requires good + bad > 0
    ensures var n := (good + bad) as real; var share := good as real / n;
            && RatingOf(good, bad) - share == 9.0 / (n + 9.0) * (0.45 - share)
            && Abs(RatingOf(good, bad) - share) == 9.0 * Abs(0.45 - share) / (n + 9.0)
            && (if share <= 0.45 then share <= RatingOf(good, bad) <= 0.45 else 0.45 < RatingOf(good, bad) < share)
  {
    hide RatingOf;
    var n := (good + bad) as real;
    RatingIsMean(good, bad);
    WeightedMean(9.0 / (n + 9.0), good as real / n);
    var share := good as real / n;
    var shift := 9.0 / (n + 9.0) * (0.45 - share);
    assert RatingOf(good, bad) - share == shift;
    AbsOfProduct(9.0, n + 9.0, 0.45 - share, shift);
  }

  lemma RatingIsMean(good: nat, bad: nat)
    requires good + bad > 0
    ensures var n := (good + bad) as real; var w := 9.0 / (n + 9.0);
            0.0 < w < 1.0 && RatingOf(good, bad) == (1.0 - w) * (good as real / n) + w * 0.45
  {
    Weights((good + bad) as real);
  }

  lemma Weights(n: real)
    requires n > 0.0
    ensures 0.0 < 9.0 / (n + 9.0) < 1.0 && n / (n + 9.0) == 1.0 - 9.0 / (n + 9.0)
  {
    var w := 9.0 / (n + 9.0);
    assert w * (n + 9.0) == 9.0;
    DivUnique(n, n + 9.0, 1.0 - w);
    DivOrders(9.0, n + 9.0, 1.0, 1.0);
    DivOrders(0.0, 1.0, 9.0, n + 9.0);
  }

  lemma WeightedMean(w: real, share: real)
    requires 0.0 < w < 1.0
    ensures var r := (1.0 - w) * share + w * 0.45;
            && r - share == w * (0.45 - share)
            && (if share <= 0.45 then share <= r <= 0.45 else 0.45 < r < share)
  {
    var r := (1.0 - w) * share + w * 0.45;
    assert 0.45 - r == (1.0 - w) * (0.45 - share);
    Sign(w, 0.45 - share);
    Sign(1.0 - w, 0.45 - share);
  }

  lemma Sign(w: real, x: real)
    requires w > 0.0
    ensures (x >= 0.0 ==> w * x >= 0.0) && (x < 0.0 ==> w * x < 0.0)
  {
  }

  lemma AbsOfProduct(a: real, b: real, x: real, y: real)
    requires a > 0.0 && b > 0.0 && y == a / b * x
    ensures Abs(y) == a * Abs(x) / b
  {
    assert a / b > 0.0 by { DivOrders(0.0, 1.0, a, b); }
    Sign(a / b, x);
    assert a / b * x == a * x / b;
    assert -(a / b * x) == a * -x / b;
  }
}
