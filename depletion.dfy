/**
 * The fixed-deposit half of the calculator: the balance starts at the FD
 * principal, earns one month of interest at a flat monthly rate, loses the
 * monthly withdrawal, and the simulation stops once the balance is no
 * longer positive or after 1200 months (100 years).
 *
 * Balances are exact reals; the rounding of IEEE doubles is not modelled.
 */
module Depletion {
  import opened Arith

  /** The simulation gives up after 100 years. */
  const Cap: nat := 1200

  /** The flat monthly rate derived from the yearly FD rate in percent. */
  function MonthlyRate(fdRate: real): real {
    (fdRate / 100.0) / 12.0
  }

  /** One month: the balance earns interest at `rate`, then the withdrawal is taken out. */
  function Next(balance: real, rate: real, withdrawal: real): real {
    balance + balance * rate - withdrawal
  }

  /** The balance after `k` months, starting from `principal`. */
  function BalanceAfter(principal: real, rate: real, withdrawal: real, k: nat): real {
    if k == 0 then principal else Next(BalanceAfter(principal, rate, withdrawal, k - 1), rate, withdrawal)
  }

  /**
   * The month count at which the simulation stops: the first month, from
   * `k` on, whose balance is not positive, or the cap if none before it.
   */
  function StopFrom(principal: real, rate: real, withdrawal: real, k: nat): (m: nat)
    requires k <= Cap
    requires forall j :: 0 <= j < k ==> BalanceAfter(principal, rate, withdrawal, j) > 0.0
    ensures k <= m <= Cap
    ensures m < Cap ==> BalanceAfter(principal, rate, withdrawal, m) <= 0.0
    ensures forall j :: 0 <= j < m ==> BalanceAfter(principal, rate, withdrawal, j) > 0.0
    decreases Cap - k
  {
    if k == Cap || BalanceAfter(principal, rate, withdrawal, k) <= 0.0 then k
    else StopFrom(principal, rate, withdrawal, k + 1)
  }

  /**
   * How many months the deposit lasts: at most the cap, every earlier
   * balance positive, and (below the cap) the balance then no longer
   * positive.
   */
  function Survival(principal: real, rate: real, withdrawal: real): (m: nat)
    ensures m <= Cap
    ensures m < Cap ==> BalanceAfter(principal, rate, withdrawal, m) <= 0.0
    ensures forall j :: 0 <= j < m ==> BalanceAfter(principal, rate, withdrawal, j) > 0.0
  {
    StopFrom(principal, rate, withdrawal, 0)
  }

  /** The three facts `Survival` ensures single out one month count. */
  lemma SurvivalUnique(principal: real, rate: real, withdrawal: real, m: nat)
    requires m <= Cap
    requires m < Cap ==> BalanceAfter(principal, rate, withdrawal, m) <= 0.0
    requires forall j :: 0 <= j < m ==> BalanceAfter(principal, rate, withdrawal, j) > 0.0
    ensures m == Survival(principal, rate, withdrawal)
  {
  }

  /**
   * The depletion loop of `calculate`: month by month while the balance is
   * positive and the cap is not reached. It stops after exactly
   * `Survival` months, with the balance of that month.
   */
  method Deplete(principal: real, fdRate: real, withdrawal: real) returns (months: nat, balance: real)
    ensures months == Survival(principal, MonthlyRate(fdRate), withdrawal)
    ensures balance == BalanceAfter(principal, MonthlyRate(fdRate), withdrawal, months)
    ensures months <= Cap
    ensures months < Cap ==> balance <= 0.0
    ensures principal <= 0.0 ==> months == 0 && balance == principal
  {
    balance := principal;
    months := 0;
    var monthlyRate := MonthlyRate(fdRate);
    while balance > 0.0 && months < Cap
      invariant months <= Cap
      invariant balance == BalanceAfter(principal, monthlyRate, withdrawal, months)
      invariant forall j :: 0 <= j < months ==> BalanceAfter(principal, monthlyRate, withdrawal, j) > 0.0
      decreases Cap - months
    {
      var interest := balance * monthlyRate;
      balance := balance + interest - withdrawal;
      months := months + 1;
    }
    SurvivalUnique(principal, monthlyRate, withdrawal, months);
  }

  /** A principal that is not positive lasts no month at all. */
  lemma NoPrincipalNoMonths(principal: real, rate: real, withdrawal: real)
    requires principal <= 0.0
    ensures Survival(principal, rate, withdrawal) == 0
  {
    SurvivalUnique(principal, rate, withdrawal, 0);
  }

  /**
   * When the month's interest on the principal covers the withdrawal (and
   * the rate is not negative), the balance never drops below the principal
   * and never decreases.
   */
  lemma {:induction false} InterestCoversBalance(principal: real, rate: real, withdrawal: real, k: nat)
    requires principal > 0.0 && rate >= 0.0 && withdrawal <= principal * rate
    ensures BalanceAfter(principal, rate, withdrawal, k) >= principal
    ensures BalanceAfter(principal, rate, withdrawal, k + 1) >= BalanceAfter(principal, rate, withdrawal, k)
  {
    if k > 0 {
      InterestCoversBalance(principal, rate, withdrawal, k - 1);
    }
    var b := BalanceAfter(principal, rate, withdrawal, k);
    MulNonNeg(b - principal, rate);
    assert b * rate >= principal * rate;
  }

  /**
   * With a positive principal, a non-negative rate and interest that covers
   * the withdrawal (in particular, no withdrawal at all), the simulation
   * runs to the cap: the calculator reports "Indefinite".
   */
  lemma InterestCoversRunsToCap(principal: real, rate: real, withdrawal: real)
    requires principal > 0.0 && rate >= 0.0 && withdrawal <= principal * rate
    ensures Survival(principal, rate, withdrawal) == Cap
  {
    var m := Survival(principal, rate, withdrawal);
    if m < Cap {
      InterestCoversBalance(principal, rate, withdrawal, m);
    }
  }

  /**
   * A larger principal and a smaller withdrawal give a balance at least as
   * large in every month, as long as a month's interest cannot take more
   * than the whole balance (`rate >= -1`).
   */
  lemma {:induction false} BalanceMonotone(p1: real, w1: real, p2: real, w2: real, rate: real, k: nat)
    requires rate >= -1.0 && p1 <= p2 && w2 <= w1
    ensures BalanceAfter(p1, rate, w1, k) <= BalanceAfter(p2, rate, w2, k)
  {
    if k > 0 {
      BalanceMonotone(p1, w1, p2, w2, rate, k - 1);
      var b1 := BalanceAfter(p1, rate, w1, k - 1);
      var b2 := BalanceAfter(p2, rate, w2, k - 1);
      NextMonotone(b1, w1, b2, w2, rate);
    }
  }

  /** One month keeps the order of two balances when the second withdrawal is the smaller. */
  lemma NextMonotone(b1: real, w1: real, b2: real, w2: real, rate: real)
    requires rate >= -1.0 && b1 <= b2 && w2 <= w1
    ensures Next(b1, rate, w1) <= Next(b2, rate, w2)
  {
    var d := b2 - b1;
    var f := 1.0 + rate;
    assert d * f >= 0.0;
    assert Next(b2, rate, w2) - Next(b1, rate, w1) == d * f + (w1 - w2);
  }

  /**
   * Raising the principal or lowering the withdrawal never shortens how
   * long the deposit lasts.
   */
  lemma SurvivalMonotone(p1: real, w1: real, p2: real, w2: real, rate: real)
    requires rate >= -1.0 && p1 <= p2 && w2 <= w1
    ensures Survival(p1, rate, w1) <= Survival(p2, rate, w2)
  {
    var m1 := Survival(p1, rate, w1);
    var m2 := Survival(p2, rate, w2);
    if m2 < m1 {
      BalanceMonotone(p1, w1, p2, w2, rate, m2);
    }
  }
}
