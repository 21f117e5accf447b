/** Money arithmetic shared by the server routes and the dashboard: amounts
    are exact reals, a missing amount (null, "not entered") is kept apart
    from 0, and `toFixed(2)` is a rounding to whole cents. */
module Money {
  import opened Base

  /** A whole number of cents. */
  predicate WholeCents(r: real) {
    (r * 100.0).Floor as real == r * 100.0
  }

  /** Rounding a non-negative amount to cents, a half cent going up. */
  function RoundHalfUp(x: real): (r: real)
    ensures x - 0.005 < r <= x + 0.005
    ensures WholeCents(r)
  {
    ((x * 100.0 + 0.5).Floor as real) / 100.0
  }

  /** `Number(x.toFixed(2))`: `toFixed` rounds the magnitude and puts the
      sign back, so a half cent goes away from zero on either side. */
  function Round2(x: real): (r: real)
    ensures x >= 0.0 ==> x - 0.005 < r <= x + 0.005
    ensures x < 0.0 ==> x - 0.005 <= r < x + 0.005
    ensures WholeCents(r)
  {
    if x < 0.0 then
      var m := RoundHalfUp(-x);
      NegatedWholeCents(m);
      -m
    else RoundHalfUp(x)
  }

  lemma NegatedWholeCents(r: real)
    requires WholeCents(r)
    ensures WholeCents(-r)
  {
    var n := (r * 100.0).Floor;
    assert -r * 100.0 == (-n) as real;
  }

  lemma Round2Monotone(x: real, y: real)
    requires x <= y
    ensures Round2(x) <= Round2(y)
  {
    if x < 0.0 && y < 0.0 {
      assert (-y * 100.0 + 0.5).Floor <= (-x * 100.0 + 0.5).Floor;
    } else if y >= 0.0 && x >= 0.0 {
      assert (x * 100.0 + 0.5).Floor <= (y * 100.0 + 0.5).Floor;
    }
  }

  /** Ties go away from zero: -0.125 becomes -0.13 and 0.125 becomes 0.13. */
  lemma TiesAwayFromZero()
    ensures Round2(-0.125) == -0.13 && Round2(0.125) == 0.13
  {
    assert (12.5 + 0.5).Floor == 13;
  }

  /** `amount || 0`: a missing amount counts as having paid 0. */
  function Paid(amount: Option<real>): real {
    amount.GetOr(0.0)
  }

  /** `rows.reduce((sum, e) => sum + (e.amount || 0), 0)`. */
  function Total(amounts: seq<Option<real>>): real {
    if amounts == [] then 0.0 else Paid(amounts[0]) + Total(amounts[1..])
  }

  /** The amounts that have been entered: `filter(e => e.amount !== null)`. */
  function Entered(amounts: seq<Option<real>>): (xs: seq<real>)
    ensures |xs| <= |amounts|
  {
    if amounts == [] then []
    else (match amounts[0] case Some(a) => [a] case None => []) + Entered(amounts[1..])
  }

  function Sum(xs: seq<real>): real {
    if xs == [] then 0.0 else xs[0] + Sum(xs[1..])
  }

  /** Summing only the entered amounts (as /current does) gives the same total
      as counting a missing amount as 0 (as archive and the dashboard do). */
  lemma {:induction false} EnteredSumIsTotal(amounts: seq<Option<real>>)
    ensures Sum(Entered(amounts)) == Total(amounts)
  {
    if amounts != [] {
      EnteredSumIsTotal(amounts[1..]);
      match amounts[0]
      case Some(a) =>
        assert Entered(amounts) == [a] + Entered(amounts[1..]);
        assert ([a] + Entered(amounts[1..]))[1..] == Entered(amounts[1..]);
      case None =>
        assert Entered(amounts) == Entered(amounts[1..]);
        assert Paid(amounts[0]) == 0.0;
    }
  }

  lemma {:induction false} TotalAppend(a: seq<Option<real>>, b: seq<Option<real>>)
    ensures Total(a + b) == Total(a) + Total(b)
  {
    if a != [] {
      TotalAppend(a[1..], b);
      assert (a + b)[1..] == a[1..] + b;
    } else {
      assert a + b == b;
    }
  }

  /** Replacing a missing amount by an entered 0 does not change the total. */
  lemma {:induction false} NullCountsAsZero(a: seq<Option<real>>, b: seq<Option<real>>)
    ensures Total(a + [None] + b) == Total(a + [Some(0.0)] + b)
  {
    TotalAppend(a + [None], b);
    TotalAppend(a, [None]);
    TotalAppend(a + [Some(0.0)], b);
    TotalAppend(a, [Some(0.0)]);
  }

  /** The per-head figure: total over the number of rows, at 2 dp, or 0 when
      there are no rows. */
  function PerHead(total: real, count: nat): (r: real)
    ensures count == 0 ==> r == 0.0
    ensures count > 0 ==> total / count as real - 0.005 <= r <= total / count as real + 0.005
    ensures count > 0 && total >= 0.0 ==> total / count as real - 0.005 < r
    ensures WholeCents(r)
  {
    if count > 0 then Round2(total / count as real) else 0.0
  }

  datatype Stats = Stats(total: real, usersCount: nat, perHead: real)

  /** The figures shown for an event: the sum of the entered amounts, the
      number of rows including unset ones, and the per-head to whole cents
      (0 without rows). */
  function StatsOf(amounts: seq<Option<real>>): (s: Stats)
    ensures s.usersCount == |amounts|
    ensures s.total == Sum(Entered(amounts))
    ensures |amounts| == 0 ==> s.perHead == 0.0
    ensures |amounts| > 0 ==>
      s.total / |amounts| as real - 0.005 <= s.perHead <= s.total / |amounts| as real + 0.005
    ensures WholeCents(s.perHead)
  {
    EnteredSumIsTotal(amounts);
    Stats(Total(amounts), |amounts|, PerHead(Total(amounts), |amounts|))
  }

  /** Per-head divides by every row, not only by those who have paid:
      10, 20 and an unset amount give a per-head of 10.00. */
  lemma PerHeadDividesByAllRows()
    ensures StatsOf([Some(10.0), Some(20.0), None]) == Stats(30.0, 3, 10.0)
  {
    var amounts := [Some(10.0), Some(20.0), None];
    assert Total(amounts[2..]) == 0.0;
    assert Total(amounts[1..]) == 20.0;
    assert Total(amounts) == 30.0;
    assert (1000.0 + 0.5).Floor == 1000;
  }
}
