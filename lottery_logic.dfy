/**
 * The projection engine of the lottery planner: the starting record built
 * from the setup inputs, the roll-forward of both scenarios' balances, the
 * closed-form sustainable withdrawal, the withdrawal table, and the choice of
 * display form for money.
 *
 * Amounts are reals; rates that the source obtains with a non-integer
 * exponent are passed in as parameters and characterised by an
 * integer-exponent equation (`IsDailyRateOf`, `IsDailyInflationOf`).
 */
module LotteryLogic {
  import opened Wrappers
  import opened RealPow
  import opened Dates

  /** Annuity payments grow by five percent a year. */
  const GrowthRate: real := 1.05

  /** Message of the error raised when an update goes back in time. */
  const DateOrderError: string := "Current date cannot be before last update date"

  /** Tolerance below which the compounded growth factor counts as one. */
  const NearZeroTolerance: real := 0.000000001

  /** Days per month used to scale a daily withdrawal to a monthly one. */
  const DaysPerMonth: real := 30.44

  /** Days per year used to express the remaining horizon in years. */
  const DaysPerYear: real := 365.25

  // ---------------------------------------------------------------------
  // Data model
  // ---------------------------------------------------------------------

  /**
   * What the setup screen hands to the engine: winnings `m`, lump-sum tax
   * `lst` and annuity tax `at` (percent), annuity years `mal`, savings APR `s`
   * (percent), current age `yo`, expected age at death `dd`, legacy goal `ml`
   * in today's dollars, investment-gains tax and inflation (percent), and
   * today's date.
   */
  datatype SetupInputs = SetupInputs(
    m: real, lst: real, at: real, mal: nat, s: real, yo: int, dd: int, ml: real,
    investmentTaxRate: real, inflationRate: real, currentDate: Day)

  /** The inputs echoed, plus the derived constants of the projection. */
  datatype InitialParameters = InitialParameters(
    m: real, lst: real, at: real, mal: nat, s: real, yo: int, dd: int, ml: real,
    investmentTaxRate: real, inflationRate: real,
    growthRate: real, basePayment: real, initialDate: Day, predictedDeathDate: Day)

  /** The part of the record that every update replaces. */
  datatype State = State(lastUpdateDate: Day, lumpBalance: real, annualBalance: real)

  /** The persisted record. */
  datatype LotteryData = LotteryData(initialParameters: InitialParameters, state: State)

  /** A withdrawal amount in future dollars and in today's dollars. */
  datatype Amount = Amount(nominal: real, realValue: real)

  /** Withdrawal amounts per frequency. */
  datatype Limits = Limits(daily: Amount, weekly: Amount, biweekly: Amount, monthly: Amount)

  /** The withdrawal table for both scenarios. */
  datatype WithdrawalLimits = WithdrawalLimits(
    lump: Limits, annual: Limits, yearsRemaining: real, inflationAdjustedTarget: real)

  /** `ip` carries exactly the setup inputs `inp`. */
  predicate Echoes(ip: InitialParameters, inp: SetupInputs)
  {
    && ip.m == inp.m && ip.lst == inp.lst && ip.at == inp.at && ip.mal == inp.mal
    && ip.s == inp.s && ip.yo == inp.yo && ip.dd == inp.dd && ip.ml == inp.ml
    && ip.investmentTaxRate == inp.investmentTaxRate && ip.inflationRate == inp.inflationRate
    && ip.initialDate == inp.currentDate
  }

  // ---------------------------------------------------------------------
  // Rates
  // ---------------------------------------------------------------------

  /**
   * `d` is the effective daily rate of an APR of `apr` percent compounded
   * monthly, `(1 + apr/100/12)^(12/365) - 1`: the unique rate above -1 whose
   * 365-day compounding equals twelve months of compounding.
   */
  predicate IsDailyRateOf(apr: real, d: real)
  {
    1.0 + d > 0.0 && Pow(1.0 + d, 365) == Pow(1.0 + apr / 100.0 / 12.0, 12)
  }

  /** `d` is the daily equivalent `(1 + rate/100)^(1/365) - 1` of an annual inflation rate. */
  predicate IsDailyInflationOf(rate: real, d: real)
  {
    1.0 + d > 0.0 && Pow(1.0 + d, 365) == 1.0 + rate / 100.0
  }

  /** A non-negative APR gives a non-negative daily rate. */
  lemma DailyRateNonNegative(apr: real, d: real)
    requires IsDailyRateOf(apr, d)
    requires apr >= 0.0
    ensures d >= 0.0
  {
    PowAtLeastOne(1.0 + apr / 100.0 / 12.0, 12);
    if d < 0.0 {
      PowBelowOne(1.0 + d, 365);
    }
  }

  // ---------------------------------------------------------------------
  // calculateInitialData
  // ---------------------------------------------------------------------

  /** The first payment of an annuity whose `years` payments grow by `GrowthRate` and sum to `pool`. */
  function BasePayment(pool: real, years: nat): (p: real)
    requires years >= 1
    ensures p * GeometricSum(GrowthRate, years) == pool
  {
    var denominator := Pow(GrowthRate, years) - 1.0;
    PowAboveOne(GrowthRate, years);
    GeometricSumClosedForm(GrowthRate, years);
    assert GeometricSum(GrowthRate, years) * (GrowthRate - 1.0) == denominator;
    pool * (GrowthRate - 1.0) / denominator
  }

  /**
   * The starting record. The caller guarantees `mal >= 1` (the form's
   * minimum); with `mal == 0` the source divides by zero.
   */
  function CalculateInitialData(inp: SetupInputs, cal: Calendar): (d: LotteryData)
    requires inp.mal >= 1
    ensures Echoes(d.initialParameters, inp) && d.initialParameters.growthRate == GrowthRate
    ensures d.state.lumpBalance == inp.m * (1.0 - inp.lst / 100.0)
    ensures d.initialParameters.basePayment * GeometricSum(GrowthRate, inp.mal)
            == inp.m * (1.0 - inp.at / 100.0)
    ensures d.state.annualBalance == d.initialParameters.basePayment
    ensures d.state.lastUpdateDate == d.initialParameters.initialDate == inp.currentDate
    ensures ValidFor(cal, inp.currentDate) ==>
              cal.yearOf(d.initialParameters.predictedDeathDate)
              == cal.yearOf(inp.currentDate) + (inp.dd - inp.yo)
    ensures ValidFor(cal, inp.currentDate) && inp.dd > inp.yo ==>
              d.initialParameters.predictedDeathDate > inp.currentDate
  {
    var deathDate := cal.anniversaryIn(cal.yearOf(inp.currentDate) + (inp.dd - inp.yo));
    var netLump := inp.m * (1.0 - inp.lst / 100.0);
    var netInstallments := inp.m * (1.0 - inp.at / 100.0);
    var base := BasePayment(netInstallments, inp.mal);
    DeathDateAfterToday(cal, inp.currentDate, inp.dd - inp.yo);
    InitialRecord(inp, base, deathDate, netLump)
  }

  /** Moving today's date a positive number of years on gives a later day. */
  lemma DeathDateAfterToday(cal: Calendar, today: Day, years: int)
    ensures ValidFor(cal, today) && years > 0 ==> cal.anniversaryIn(cal.yearOf(today) + years) > today
  {
    if ValidFor(cal, today) && years > 0 {
      AnniversaryAfter(cal, today, cal.yearOf(today) + years, today);
    }
  }

  /** Assembles the starting record from its computed parts. */
  function InitialRecord(inp: SetupInputs, base: real, deathDate: Day, netLump: real): LotteryData
  {
    LotteryData(
      InitialParameters(inp.m, inp.lst, inp.at, inp.mal, inp.s, inp.yo, inp.dd, inp.ml,
                        inp.investmentTaxRate, inp.inflationRate,
                        GrowthRate, base, inp.currentDate, deathDate),
      State(inp.currentDate, netLump, base))
  }

  /** Winnings that are not negative and an annuity tax of at most 100% give a non-negative first payment. */
  lemma BasePaymentNonNegative(pool: real, years: nat)
    requires years >= 1 && pool >= 0.0
    ensures BasePayment(pool, years) >= 0.0
  {
    PowAboveOne(GrowthRate, years);
    var denominator := Pow(GrowthRate, years) - 1.0;
    assert pool * (GrowthRate - 1.0) >= 0.0;
    assert pool * (GrowthRate - 1.0) / denominator >= 0.0;
  }

  // ---------------------------------------------------------------------
  // calculateUpdate
  // ---------------------------------------------------------------------

  /**
   * One balance compounded for `days` days at `dailyRate`, with tax at
   * `taxRate` (a fraction) taken from a gain and nothing taken from a loss.
   */
  function GrowBalance(balance: real, dailyRate: real, days: nat, taxRate: real): (b: real)
    ensures var gross := balance * Pow(1.0 + dailyRate, days);
            b == if gross > balance then balance + (gross - balance) * (1.0 - taxRate) else gross
  {
    var gross := balance * Pow(1.0 + dailyRate, days);
    var gain := gross - balance;
    var taxOnGain := if gain > 0.0 then gain * taxRate else 0.0;
    assert gain * (1.0 - taxRate) == gain - gain * taxRate;
    gross - taxOnGain
  }

  /** With no elapsed days a balance is left as it is. */
  lemma NoElapsedDaysNoGrowth(balance: real, dailyRate: real, taxRate: real)
    ensures GrowBalance(balance, dailyRate, 0, taxRate) == balance
  {
  }

  /** A non-negative balance at a non-negative rate, taxed at most fully on its gain, never shrinks. */
  lemma GrowthKeepsPrincipal(balance: real, dailyRate: real, days: nat, taxRate: real)
    requires balance >= 0.0 && dailyRate >= 0.0 && 0.0 <= taxRate <= 1.0
    ensures balance <= GrowBalance(balance, dailyRate, days, taxRate)
  {
    var f := Pow(1.0 + dailyRate, days);
    PowAtLeastOne(1.0 + dailyRate, days);
    assert balance * f - balance == balance * (f - 1.0);
    assert balance * (f - 1.0) >= 0.0;
    var gain := balance * f - balance;
    assert gain * (1.0 - taxRate) >= 0.0;
  }

  /**
   * Balances are not clamped after spending, so one can be negative; interest
   * then deepens the debt.
   */
  lemma GrowthDeepensDebt(balance: real, dailyRate: real, days: nat, taxRate: real)
    requires balance < 0.0 && dailyRate > 0.0 && days >= 1
    ensures GrowBalance(balance, dailyRate, days, taxRate) < balance
  {
    var f := Pow(1.0 + dailyRate, days);
    PowAboveOne(1.0 + dailyRate, days);
    assert balance * f - balance == balance * (f - 1.0);
    assert balance * (f - 1.0) < 0.0;
  }

  /** Without tax, growing over `n1` days and then over `n2` days is growing over `n1 + n2` days. */
  lemma UntaxedGrowthComposes(balance: real, dailyRate: real, n1: nat, n2: nat)
    requires dailyRate >= 0.0
    ensures GrowBalance(GrowBalance(balance, dailyRate, n1, 0.0), dailyRate, n2, 0.0)
            == GrowBalance(balance, dailyRate, n1 + n2, 0.0)
  {
    PowAdd(1.0 + dailyRate, n1, n2);
    var f1, f2 := Pow(1.0 + dailyRate, n1), Pow(1.0 + dailyRate, n2);
    assert GrowBalance(balance, dailyRate, n1, 0.0) == balance * f1;
    assert GrowBalance(balance * f1, dailyRate, n2, 0.0) == balance * f1 * f2;
  }

  /** The annuity payment of year `k` after the first: `basePayment * growthRate^k`. */
  function Payment(ip: InitialParameters, k: nat): real
  {
    ip.basePayment * Pow(ip.growthRate, k)
  }

  /** The anniversary of the initial date `k` years on. */
  function PaymentDate(ip: InitialParameters, cal: Calendar, k: int): Day
  {
    cal.anniversaryIn(cal.yearOf(ip.initialDate) + k)
  }

  /**
   * What payment `k` contributes to an update over the window `(from, to]`:
   * its amount when `0 < k < mal` and its anniversary lies in the window,
   * nothing otherwise.
   */
  function CreditTerm(ip: InitialParameters, cal: Calendar, from: Day, to: Day, k: int): real
  {
    if 0 < k < ip.mal && from < PaymentDate(ip, cal, k) <= to then Payment(ip, k) else 0.0
  }

  /** The sum of `CreditTerm` over the payment indices `lo <= k < hi`. */
  function CreditSum(ip: InitialParameters, cal: Calendar, from: Day, to: Day, lo: int, hi: int): real
    decreases hi - lo
  {
    if lo >= hi then 0.0 else CreditSum(ip, cal, from, to, lo, hi - 1) + CreditTerm(ip, cal, from, to, hi - 1)
  }

  /**
   * The annuity payments credited by an update over `(from, to]`: every
   * payment with index `0 < k < mal` whose anniversary falls in the window.
   */
  function Credited(ip: InitialParameters, cal: Calendar, from: Day, to: Day): real
  {
    CreditSum(ip, cal, from, to, 1, ip.mal)
  }

  lemma {:induction false} CreditSumSplit(ip: InitialParameters, cal: Calendar, from: Day, to: Day, lo: int, mid: int, hi: int)
    requires lo <= mid <= hi
    ensures CreditSum(ip, cal, from, to, lo, hi)
            == CreditSum(ip, cal, from, to, lo, mid) + CreditSum(ip, cal, from, to, mid, hi)
    decreases hi - mid
  {
    if mid < hi {
      CreditSumSplit(ip, cal, from, to, lo, mid, hi - 1);
    }
  }

  lemma {:induction false} CreditSumOfZeros(ip: InitialParameters, cal: Calendar, from: Day, to: Day, lo: int, hi: int)
    requires forall k :: lo <= k < hi ==> CreditTerm(ip, cal, from, to, k) == 0.0
    ensures CreditSum(ip, cal, from, to, lo, hi) == 0.0
    decreases hi - lo
  {
    if lo < hi {
      CreditSumOfZeros(ip, cal, from, to, lo, hi - 1);
    }
  }

  /** A term whose anniversary lies outside the years of `from` and `to` contributes nothing. */
  lemma CreditTermOutsideYears(ip: InitialParameters, cal: Calendar, from: Day, to: Day, k: int)
    requires ValidFor(cal, ip.initialDate)
    requires var y := cal.yearOf(ip.initialDate) + k; y < cal.yearOf(from) || y > cal.yearOf(to)
    ensures CreditTerm(ip, cal, from, to, k) == 0.0
  {
    var y := cal.yearOf(ip.initialDate) + k;
    if y < cal.yearOf(from) {
      AnniversaryBefore(cal, ip.initialDate, y, from);
    } else {
      AnniversaryAfter(cal, ip.initialDate, y, to);
    }
  }

  /**
   * Summing over the years from the year of `from` to the year of `to` (the
   * range the source's loop walks) gives exactly the payments credited.
   */
  lemma CreditYearsCoverWindow(ip: InitialParameters, cal: Calendar, from: Day, to: Day)
    requires ValidFor(cal, ip.initialDate) && from <= to
    ensures var y0 := cal.yearOf(ip.initialDate);
            CreditSum(ip, cal, from, to, cal.yearOf(from) - y0, cal.yearOf(to) + 1 - y0)
            == Credited(ip, cal, from, to)
  {
    var y0 := cal.yearOf(ip.initialDate);
    var a, b := cal.yearOf(from) - y0, cal.yearOf(to) + 1 - y0;
    assert a < b;
    var mal := ip.mal as int;
    var top := if mal > 1 then mal else 1;
    var lo := if a < 1 then a else 1;
    var hi := if b > top then b else top;
    // Outside [a, b) the anniversary is outside the window.
    forall k | lo <= k < a || b <= k < hi
      ensures CreditTerm(ip, cal, from, to, k) == 0.0
    {
      CreditTermOutsideYears(ip, cal, from, to, k);
    }
    CreditSumSplit(ip, cal, from, to, lo, a, hi);
    CreditSumSplit(ip, cal, from, to, a, b, hi);
    CreditSumOfZeros(ip, cal, from, to, lo, a);
    CreditSumOfZeros(ip, cal, from, to, b, hi);
    // Outside [1, top) no index is strictly between 0 and mal.
    CreditSumSplit(ip, cal, from, to, lo, 1, hi);
    CreditSumSplit(ip, cal, from, to, 1, top, hi);
    CreditSumOfZeros(ip, cal, from, to, lo, 1);
    CreditSumOfZeros(ip, cal, from, to, top, hi);
    if mal <= 1 {
      CreditSumOfZeros(ip, cal, from, to, 1, top);
      assert Credited(ip, cal, from, to) == 0.0;
    }
  }

  /** An update over an empty window credits nothing. */
  lemma NothingCreditedInEmptyWindow(ip: InitialParameters, cal: Calendar, date: Day)
    ensures Credited(ip, cal, date, date) == 0.0
  {
    CreditSumOfZeros(ip, cal, date, date, 1, ip.mal);
  }

  lemma {:induction false} CreditSumAdditive(ip: InitialParameters, cal: Calendar, a: Day, b: Day, c: Day, lo: int, hi: int)
    requires a <= b <= c
    ensures CreditSum(ip, cal, a, b, lo, hi) + CreditSum(ip, cal, b, c, lo, hi) == CreditSum(ip, cal, a, c, lo, hi)
    decreases hi - lo
  {
    if lo < hi {
      CreditSumAdditive(ip, cal, a, b, c, lo, hi - 1);
    }
  }

  /**
   * Two consecutive updates over `(a, b]` and `(b, c]` credit exactly the
   * payments of one update over `(a, c]`: none is missed, none counted twice.
   */
  lemma ConsecutiveUpdatesCreditOnce(ip: InitialParameters, cal: Calendar, a: Day, b: Day, c: Day)
    requires a <= b <= c
    ensures Credited(ip, cal, a, b) + Credited(ip, cal, b, c) == Credited(ip, cal, a, c)
  {
    CreditSumAdditive(ip, cal, a, b, c, 1, ip.mal);
  }

  lemma {:induction false} CreditSumNonNegative(ip: InitialParameters, cal: Calendar, from: Day, to: Day, lo: int, hi: int)
    requires ip.basePayment >= 0.0 && ip.growthRate > 0.0
    ensures CreditSum(ip, cal, from, to, lo, hi) >= 0.0
    decreases hi - lo
  {
    if lo < hi {
      CreditSumNonNegative(ip, cal, from, to, lo, hi - 1);
      var k := hi - 1;
      if 0 < k {
        PowPositive(ip.growthRate, k);
      }
    }
  }

  /**
   * The data an update to `currentDate` (not before the last update)
   * produces: both balances grown over the elapsed days with the gains tax
   * taken off the growth, the annual scenario credited with the payments of
   * the window, `spending` taken from each, and the date moved on. The
   * initial parameters are carried over.
   */
  function UpdatedData(data: LotteryData, spending: real, currentDate: Day, cal: Calendar, dailyRate: real): (d: LotteryData)
    requires currentDate >= data.state.lastUpdateDate
    ensures d.initialParameters == data.initialParameters
    ensures d.state.lastUpdateDate == currentDate
  {
    var ip, st := data.initialParameters, data.state;
    var days := currentDate - st.lastUpdateDate;
    var taxRate := ip.investmentTaxRate / 100.0;
    LotteryData(ip, State(currentDate,
      GrowBalance(st.lumpBalance, dailyRate, days, taxRate) - spending,
      GrowBalance(st.annualBalance, dailyRate, days, taxRate) + Credited(ip, cal, st.lastUpdateDate, currentDate) - spending))
  }

  /**
   * Rolls both scenarios forward to `currentDate`, crediting the annuity
   * payments that fell due and taking `spending` from each scenario.
   * `dailyRate` stands for the daily rate of the savings APR (`IsDailyRateOf`).
   */
  method CalculateUpdate(data: LotteryData, spending: real, currentDate: Day, cal: Calendar, dailyRate: real)
    returns (r: Result<LotteryData, string>)
    requires ValidFor(cal, data.initialParameters.initialDate)
    ensures currentDate < data.state.lastUpdateDate ==> r == Failure(DateOrderError)
    ensures currentDate >= data.state.lastUpdateDate ==>
              r == Success(UpdatedData(data, spending, currentDate, cal, dailyRate))
  {
    var ip, st := data.initialParameters, data.state;
    var lastUpdateDate := st.lastUpdateDate;
    if currentDate < lastUpdateDate {
      return Failure(DateOrderError);
    }
    var daysPassed := currentDate - lastUpdateDate;
    var taxRate := ip.investmentTaxRate / 100.0;

    var newLumpBalance := GrowBalance(st.lumpBalance, dailyRate, daysPassed, taxRate);
    var newAnnualBalance := GrowBalance(st.annualBalance, dailyRate, daysPassed, taxRate);
    ghost var grown := newAnnualBalance;

    var y0 := cal.yearOf(ip.initialDate);
    var firstYear := cal.yearOf(lastUpdateDate);
    var lastYear := cal.yearOf(currentDate);
    var year := firstYear;
    while year <= lastYear
      invariant firstYear <= year <= lastYear + 1
      invariant newAnnualBalance == grown + CreditSum(ip, cal, lastUpdateDate, currentDate, firstYear - y0, year - y0)
    {
      var paymentAnniversary := cal.anniversaryIn(year);
      var yearsSinceStart := cal.yearOf(paymentAnniversary) - y0;
      assert yearsSinceStart == year - y0;
      if yearsSinceStart > 0 && yearsSinceStart < ip.mal {
        if paymentAnniversary > lastUpdateDate && paymentAnniversary <= currentDate {
          var newPayment := ip.basePayment * Pow(ip.growthRate, yearsSinceStart);
          newAnnualBalance := newAnnualBalance + newPayment;
        }
      }
      year := year + 1;
    }
    CreditYearsCoverWindow(ip, cal, lastUpdateDate, currentDate);

    newLumpBalance := newLumpBalance - spending;
    newAnnualBalance := newAnnualBalance - spending;
    r := Success(LotteryData(ip, State(currentDate, newLumpBalance, newAnnualBalance)));
  }

  /**
   * An update to the last update's own date with zero spending gives back
   * the data as it was.
   */
  lemma IdleUpdateChangesNothing(data: LotteryData, cal: Calendar, dailyRate: real)
    ensures UpdatedData(data, 0.0, data.state.lastUpdateDate, cal, dailyRate) == data
  {
    NothingCreditedInEmptyWindow(data.initialParameters, cal, data.state.lastUpdateDate);
  }

  /**
   * With zero spending, a non-negative APR, a gains tax between 0% and 100%
   * and balances and payments that are not negative, an update lowers
   * neither balance.
   */
  lemma UpdateWithoutSpendingNeverDecreases(data: LotteryData, cal: Calendar, dailyRate: real, currentDate: Day)
    requires var ip, st := data.initialParameters, data.state;
             && IsDailyRateOf(ip.s, dailyRate) && ip.s >= 0.0
             && 0.0 <= ip.investmentTaxRate <= 100.0
             && st.lumpBalance >= 0.0 && st.annualBalance >= 0.0
             && ip.basePayment >= 0.0 && ip.growthRate > 0.0
             && currentDate >= st.lastUpdateDate
    ensures var d := UpdatedData(data, 0.0, currentDate, cal, dailyRate);
            && d.state.lumpBalance >= data.state.lumpBalance
            && d.state.annualBalance >= data.state.annualBalance
  {
    var ip, st := data.initialParameters, data.state;
    var days := currentDate - st.lastUpdateDate;
    var taxRate := ip.investmentTaxRate / 100.0;
    DailyRateNonNegative(ip.s, dailyRate);
    GrowthKeepsPrincipal(st.lumpBalance, dailyRate, days, taxRate);
    GrowthKeepsPrincipal(st.annualBalance, dailyRate, days, taxRate);
    CreditSumNonNegative(ip, cal, st.lastUpdateDate, currentDate, 1, ip.mal);
  }

  /**
   * Spending comes off both scenarios in full: an update with spending
   * `x` leaves each balance exactly `x` below the same update without it.
   */
  lemma SpendingComesOffBoth(data: LotteryData, x: real, currentDate: Day, cal: Calendar, dailyRate: real)
    requires currentDate >= data.state.lastUpdateDate
    ensures var d, d0 := UpdatedData(data, x, currentDate, cal, dailyRate), UpdatedData(data, 0.0, currentDate, cal, dailyRate);
            && d.state.lumpBalance == d0.state.lumpBalance - x
            && d.state.annualBalance == d0.state.annualBalance - x
  {
  }

  // ---------------------------------------------------------------------
  // calculateSustainableDailyWithdrawal
  // ---------------------------------------------------------------------

  /** The balance after `n` periods of `b := b * q - w`, starting from `p`. */
  function BalanceAfterWithdrawals(p: real, q: real, w: real, n: nat): real
  {
    if n == 0 then p else BalanceAfterWithdrawals(p, q, w, n - 1) * q - w
  }

  /**
   * The closed form of the recurrence: after `n` periods the balance is the
   * principal compounded, less every withdrawal compounded from the period
   * it was taken.
   */
  lemma BalanceAfterWithdrawalsClosedForm(p: real, q: real, w: real, n: nat)
    ensures BalanceAfterWithdrawals(p, q, w, n) == p * Pow(q, n) - w * GeometricSum(q, n)
  {
    BalanceSplits(p, q, w, n);
    BalanceWithoutWithdrawals(p, q, n);
    WithdrawalsScale(q, w, n);
    UnitWithdrawalsAlone(q, n);
    NegatedFactor(w, GeometricSum(q, n));
  }

  /** The principal and the withdrawals can be followed apart: balances on the recurrence add up. */
  lemma {:induction false} BalanceSplits(p: real, q: real, w: real, n: nat)
    ensures BalanceAfterWithdrawals(p, q, w, n)
            == BalanceAfterWithdrawals(p, q, 0.0, n) + BalanceAfterWithdrawals(0.0, q, w, n)
  {
    if n > 0 {
      BalanceSplits(p, q, w, n - 1);
      var a, b := BalanceAfterWithdrawals(p, q, 0.0, n - 1), BalanceAfterWithdrawals(0.0, q, w, n - 1);
      assert (a + b) * q == a * q + b * q;
    }
  }

  /** Without withdrawals the balance just compounds: `p * q^n`. */
  lemma {:induction false} BalanceWithoutWithdrawals(p: real, q: real, n: nat)
    ensures BalanceAfterWithdrawals(p, q, 0.0, n) == p * Pow(q, n)
  {
    if n > 0 {
      BalanceWithoutWithdrawals(p, q, n - 1);
      MulLeftCommute(q, p, Pow(q, n - 1));
    }
  }

  /** Starting from nothing, scaling the withdrawal scales the balance. */
  lemma {:induction false} WithdrawalsScale(q: real, w: real, n: nat)
    ensures BalanceAfterWithdrawals(0.0, q, w, n) == w * BalanceAfterWithdrawals(0.0, q, 1.0, n)
  {
    if n > 0 {
      WithdrawalsScale(q, w, n - 1);
      ScaledWithdrawalStep(w, BalanceAfterWithdrawals(0.0, q, 1.0, n - 1), q);
    }
  }

  lemma ScaledWithdrawalStep(w: real, u: real, q: real)
    ensures (w * u) * q - w == w * (u * q - 1.0)
  {
  }

  /** Starting from nothing and withdrawing one unit a period, the balance is minus the geometric sum. */
  lemma {:induction false} UnitWithdrawalsAlone(q: real, n: nat)
    ensures BalanceAfterWithdrawals(0.0, q, 1.0, n) == -GeometricSum(q, n)
  {
    if n > 0 {
      UnitWithdrawalsAlone(q, n - 1);
      GeometricSumHorner(q, n);
      NegatedFactor(q, GeometricSum(q, n - 1));
    }
  }

  /** `|x| < NearZeroTolerance`. */
  predicate NearOne(x: real)
  {
    -NearZeroTolerance < x - 1.0 < NearZeroTolerance
  }

  /** The closed-form withdrawal `(p*R - t) * rNet / (R - 1)` with `R = (1 + rNet)^n`. */
  function ClosedFormWithdrawal(p: real, t: real, rNet: real, n: nat): real
    requires Pow(1.0 + rNet, n) != 1.0
  {
    (p * Pow(1.0 + rNet, n) - t) * rNet / (Pow(1.0 + rNet, n) - 1.0)
  }

  /**
   * The closed-form withdrawal keeps a balance on the recurrence and lands it
   * exactly on `t` after `n` periods.
   */
  lemma ClosedFormLandsOnTarget(p: real, t: real, rNet: real, n: nat)
    requires Pow(1.0 + rNet, n) != 1.0
    ensures BalanceAfterWithdrawals(p, 1.0 + rNet, ClosedFormWithdrawal(p, t, rNet, n), n) == t
  {
    WithdrawalsCoverShortfall(p, t, rNet, n);
    BalanceAfterWithdrawalsClosedForm(p, 1.0 + rNet, ClosedFormWithdrawal(p, t, rNet, n), n);
  }

  /** The closed-form withdrawal, accumulated over `n` periods, is `p * R - t`. */
  lemma WithdrawalsCoverShortfall(p: real, t: real, rNet: real, n: nat)
    requires Pow(1.0 + rNet, n) != 1.0
    ensures ClosedFormWithdrawal(p, t, rNet, n) * GeometricSum(1.0 + rNet, n) == p * Pow(1.0 + rNet, n) - t
  {
    var bigR := Pow(1.0 + rNet, n);
    var g := GeometricSum(1.0 + rNet, n);
    GeometricSumAtRate(rNet, n);
    DivisionCancels(ClosedFormWithdrawal(p, t, rNet, n), p * bigR - t, rNet, bigR - 1.0, g);
  }

  /** The closed form of a geometric sum, written with the rate: `r * ((1+r)^0 + ... + (1+r)^(n-1)) == (1+r)^n - 1`. */
  lemma GeometricSumAtRate(r: real, n: nat)
    ensures GeometricSum(1.0 + r, n) * r == Pow(1.0 + r, n) - 1.0
  {
    GeometricSumClosedForm(1.0 + r, n);
    assert (1.0 + r) - 1.0 == r;
  }

  /** `w * g == x` when `w == x * r / d`, `g * r == d` and `d` is not zero. */
  lemma DivisionCancels(w: real, x: real, r: real, d: real, g: real)
    requires d != 0.0 && g * r == d && w == x * r / d
    ensures w * g == x
  {
    assert w * d == x * r;
    assert (w * g) * r == x * r;
    assert r != 0.0;
  }

  /**
   * When the closed form is not positive, even withdrawing nothing at all
   * leaves at most the target after `n` periods (for a growth factor above
   * zero).
   */
  lemma ClampedMeansTargetOutOfReach(p: real, t: real, rNet: real, n: nat)
    requires 1.0 + rNet > 0.0 && n >= 1
    requires Pow(1.0 + rNet, n) != 1.0
    requires ClosedFormWithdrawal(p, t, rNet, n) <= 0.0
    ensures BalanceAfterWithdrawals(p, 1.0 + rNet, 0.0, n) <= t
  {
    var q := 1.0 + rNet;
    var bigR := Pow(q, n);
    BalanceWithoutWithdrawals(p, q, n);
    GrowthQuotientPositive(rNet, n);
    SignOfQuotient(p * bigR - t, rNet, bigR - 1.0);
  }

  /** For a growth factor above zero and other than one, `rNet / ((1 + rNet)^n - 1)` is positive. */
  lemma GrowthQuotientPositive(rNet: real, n: nat)
    requires 1.0 + rNet > 0.0 && n >= 1
    requires Pow(1.0 + rNet, n) != 1.0
    ensures rNet / (Pow(1.0 + rNet, n) - 1.0) > 0.0
  {
    PowOfOne(n);
    assert rNet != 0.0;
    if rNet > 0.0 {
      PowAboveOne(1.0 + rNet, n);
    } else {
      PowBelowOne(1.0 + rNet, n);
    }
    QuotientOfSameSign(rNet, Pow(1.0 + rNet, n) - 1.0);
  }

  /** A quotient of two numbers of the same strict sign is positive. */
  lemma QuotientOfSameSign(a: real, b: real)
    requires (a > 0.0 && b > 0.0) || (a < 0.0 && b < 0.0)
    ensures a / b > 0.0
  {
    if a < 0.0 {
      assert a / b == (-a) / (-b);
    }
  }

  /** If `r / d` is positive, `x * r / d` has the sign of `x`. */
  lemma SignOfQuotient(x: real, r: real, d: real)
    requires d != 0.0 && r / d > 0.0
    ensures x * r / d <= 0.0 ==> x <= 0.0
    ensures x * r / d == x * (r / d)
  {
  }

  /**
   * The constant daily withdrawal that takes `principal` to `target` in
   * `numDays` days of growth at `dailyRate`, its gains taxed at `taxRate`.
   */
  function SustainableDailyWithdrawal(principal: real, target: real, dailyRate: real, numDays: int, taxRate: real): (w: real)
    ensures numDays <= 0 ==> w == 0.0
    ensures numDays > 0 && NearOne(Pow(1.0 + dailyRate * (1.0 - taxRate), numDays)) ==>
              w == (principal - target) / (numDays as real)
    ensures numDays > 0 && !NearOne(Pow(1.0 + dailyRate * (1.0 - taxRate), numDays)) ==>
              && w >= 0.0
              && (w > 0.0 ==> BalanceAfterWithdrawals(principal, 1.0 + dailyRate * (1.0 - taxRate), w, numDays) == target)
              && (w == 0.0 && 1.0 + dailyRate * (1.0 - taxRate) > 0.0 ==>
                    BalanceAfterWithdrawals(principal, 1.0 + dailyRate * (1.0 - taxRate), 0.0, numDays) <= target)
    ensures numDays > 0 && dailyRate * (1.0 - taxRate) == 0.0 ==>
              BalanceAfterWithdrawals(principal, 1.0, w, numDays) == target
  {
    if numDays <= 0 then 0.0
    else
      var rNet := dailyRate * (1.0 - taxRate);
      var bigR := Pow(1.0 + rNet, numDays);
      PowOfOne(numDays);
      if NearOne(bigR) then
        if rNet == 0.0 then
          NoGrowthShareLandsOnTarget(principal, target, numDays);
          (principal - target) / (numDays as real)
        else
          (principal - target) / (numDays as real)
      else
        var dailyWithdrawal := ClosedFormWithdrawal(principal, target, rNet, numDays);
        ClosedFormLandsOnTarget(principal, target, rNet, numDays);
        if dailyWithdrawal > 0.0 then
          dailyWithdrawal
        else
          if 1.0 + rNet > 0.0 then
            ClampedMeansTargetOutOfReach(principal, target, rNet, numDays);
            0.0
          else
            0.0
  }

  /** Without growth, an even split of `p - t` over `n` periods lands exactly on `t`. */
  lemma NoGrowthShareLandsOnTarget(p: real, t: real, n: nat)
    requires n >= 1
    ensures BalanceAfterWithdrawals(p, 1.0, (p - t) / (n as real), n) == t
  {
    var w := (p - t) / (n as real);
    BalanceAfterWithdrawalsClosedForm(p, 1.0, w, n);
    PowOfOne(n);
    GeometricSumOfOnes(n);
  }

  lemma {:induction false} GeometricSumOfOnes(n: nat)
    ensures GeometricSum(1.0, n) == n as real
  {
    if n > 0 {
      GeometricSumOfOnes(n - 1);
      PowOfOne(n - 1);
    }
  }

  /** A larger principal never gives a smaller sustainable withdrawal (for a growth factor above zero). */
  lemma WithdrawalMonotoneInPrincipal(p1: real, p2: real, target: real, dailyRate: real, numDays: int, taxRate: real)
    requires p1 <= p2
    requires 1.0 + dailyRate * (1.0 - taxRate) > 0.0
    ensures SustainableDailyWithdrawal(p1, target, dailyRate, numDays, taxRate)
            <= SustainableDailyWithdrawal(p2, target, dailyRate, numDays, taxRate)
  {
    if numDays > 0 {
      var rNet := dailyRate * (1.0 - taxRate);
      var q := 1.0 + rNet;
      var bigR := Pow(q, numDays);
      if NearOne(bigR) {
        QuotientMonotone(p1 - target, p2 - target, numDays as real);
      } else {
        PowOfOne(numDays);
        ClosedFormMonotone(p1, p2, target, rNet, numDays);
      }
    }
  }

  /** Dividing by a positive number keeps the order. */
  lemma QuotientMonotone(a: real, b: real, c: real)
    requires a <= b && c > 0.0
    ensures a / c <= b / c
  {
  }

  /** For a growth factor above zero, the closed-form withdrawal grows with the principal. */
  lemma ClosedFormMonotone(p1: real, p2: real, t: real, rNet: real, n: nat)
    requires p1 <= p2 && 1.0 + rNet > 0.0 && n >= 1
    requires Pow(1.0 + rNet, n) != 1.0
    ensures ClosedFormWithdrawal(p1, t, rNet, n) <= ClosedFormWithdrawal(p2, t, rNet, n)
  {
    var bigR := Pow(1.0 + rNet, n);
    PowPositive(1.0 + rNet, n);
    GrowthQuotientPositive(rNet, n);
    ScaledQuotientMonotone(p1, p2, bigR, t, rNet, bigR - 1.0);
  }

  /** `(p1 * k - t) * r / d <= (p2 * k - t) * r / d` for `p1 <= p2`, positive `k` and positive `r / d`. */
  lemma ScaledQuotientMonotone(p1: real, p2: real, k: real, t: real, r: real, d: real)
    requires p1 <= p2 && k > 0.0 && d != 0.0 && r / d > 0.0
    ensures (p1 * k - t) * r / d <= (p2 * k - t) * r / d
  {
    MulMonotone(p1, p2, k);
    SignOfQuotient(p1 * k - t, r, d);
    SignOfQuotient(p2 * k - t, r, d);
    MulMonotone(p1 * k - t, p2 * k - t, r / d);
  }

  // ---------------------------------------------------------------------
  // calculateWithdrawalLimits
  // ---------------------------------------------------------------------

  /**
   * The present value at `now` of the payments with index `i < n` that fall
   * strictly after `now`, each discounted at `dailyRate` over the days until
   * it is paid.
   */
  function FuturePaymentsValue(ip: InitialParameters, cal: Calendar, now: Day, dailyRate: real, n: nat): real
    requires 1.0 + dailyRate > 0.0
  {
    if n == 0 then 0.0
    else
      var paymentDate := PaymentDate(ip, cal, n - 1);
      FuturePaymentsValue(ip, cal, now, dailyRate, n - 1)
      + if paymentDate > now then DiscountedPayment(ip, n - 1, dailyRate, paymentDate - now) else 0.0
  }

  /** Payment `i` discounted over `days` days at `dailyRate`. */
  function DiscountedPayment(ip: InitialParameters, i: nat, dailyRate: real, days: nat): real
    requires 1.0 + dailyRate > 0.0
  {
    PowPositive(1.0 + dailyRate, days);
    Payment(ip, i) / Pow(1.0 + dailyRate, days)
  }

  /**
   * Payments that are not negative have a present value that is not negative,
   * so the annuity scenario's principal is at least its cash balance.
   */
  lemma {:induction false} FuturePaymentsNonNegative(ip: InitialParameters, cal: Calendar, now: Day, dailyRate: real, n: nat)
    requires 1.0 + dailyRate > 0.0 && ip.basePayment >= 0.0 && ip.growthRate > 0.0
    ensures FuturePaymentsValue(ip, cal, now, dailyRate, n) >= 0.0
  {
    if n > 0 {
      FuturePaymentsNonNegative(ip, cal, now, dailyRate, n - 1);
      var paymentDate := PaymentDate(ip, cal, n - 1);
      if paymentDate > now {
        PowPositive(ip.growthRate, n - 1);
        PowPositive(1.0 + dailyRate, paymentDate - now);
      }
    }
  }

  /** Once the last anniversary is past, no future payment adds to the annuity principal. */
  lemma {:induction false} NoFuturePaymentsAfterLastAnniversary(ip: InitialParameters, cal: Calendar, now: Day, dailyRate: real, n: nat)
    requires ValidFor(cal, ip.initialDate) && 1.0 + dailyRate > 0.0 && n >= 1
    requires PaymentDate(ip, cal, n - 1) <= now
    ensures FuturePaymentsValue(ip, cal, now, dailyRate, n) == 0.0
  {
    if n > 1 {
      var y0 := cal.yearOf(ip.initialDate);
      AnniversaryIncreasing(cal, ip.initialDate, y0 + (n - 2), y0 + (n - 1));
      NoFuturePaymentsAfterLastAnniversary(ip, cal, now, dailyRate, n - 1);
    }
  }

  /**
   * The present value at `now` of the annual payments still to come, summed
   * payment by payment.
   */
  method PresentValueOfFuturePayments(ip: InitialParameters, cal: Calendar, now: Day, dailyRate: real)
    returns (pvFuturePayments: real)
    requires 1.0 + dailyRate > 0.0
    ensures pvFuturePayments == FuturePaymentsValue(ip, cal, now, dailyRate, ip.mal)
  {
    pvFuturePayments := 0.0;
    var y0 := cal.yearOf(ip.initialDate);
    var i := 0;
    while i < ip.mal
      invariant 0 <= i <= ip.mal
      invariant pvFuturePayments == FuturePaymentsValue(ip, cal, now, dailyRate, i)
    {
      var paymentDate := cal.anniversaryIn(y0 + i);
      if paymentDate > now {
        var paymentAmount := ip.basePayment * Pow(ip.growthRate, i);
        var daysToPayment := paymentDate - now;
        PowPositive(1.0 + dailyRate, daysToPayment);
        assert paymentAmount / Pow(1.0 + dailyRate, daysToPayment) == DiscountedPayment(ip, i, dailyRate, daysToPayment);
        pvFuturePayments := pvFuturePayments + paymentAmount / Pow(1.0 + dailyRate, daysToPayment);
      }
      i := i + 1;
    }
  }

  /**
   * The withdrawal amounts of every frequency for a daily amount, each also
   * in today's dollars, obtained by dividing by the inflation factor
   * `deflator` of the remaining horizon.
   */
  function GetLimits(dailyNominal: real, deflator: real): (l: Limits)
    requires deflator > 0.0
    ensures l.daily.nominal == dailyNominal
    ensures l.weekly.nominal == 7.0 * dailyNominal && l.biweekly.nominal == 14.0 * dailyNominal
    ensures l.monthly.nominal == DaysPerMonth * dailyNominal
    ensures && l.daily.realValue * deflator == l.daily.nominal
            && l.weekly.realValue * deflator == l.weekly.nominal
            && l.biweekly.realValue * deflator == l.biweekly.nominal
            && l.monthly.realValue * deflator == l.monthly.nominal
    ensures deflator >= 1.0 && dailyNominal >= 0.0 ==> 0.0 <= l.daily.realValue <= l.daily.nominal
  {
    var dailyReal := dailyNominal / deflator;
    assert dailyReal * deflator == dailyNominal;
    assert deflator >= 1.0 && dailyNominal >= 0.0 ==> dailyReal <= dailyNominal by {
      if deflator >= 1.0 && dailyNominal >= 0.0 {
        assert dailyReal >= 0.0;
        assert dailyReal * deflator >= dailyReal * 1.0;
      }
    }
    Limits(Amount(dailyNominal, dailyReal),
           Amount(dailyNominal * 7.0, dailyReal * 7.0),
           Amount(dailyNominal * 14.0, dailyReal * 14.0),
           Amount(dailyNominal * DaysPerMonth, dailyReal * DaysPerMonth))
  }

  /** The minimum legacy `ml`, in the dollars of the predicted date of death `days` days from now. */
  function InflationAdjustedTarget(ml: real, dailyInflationRate: real, days: nat): (target: real)
    requires 1.0 + dailyInflationRate > 0.0
    ensures dailyInflationRate >= 0.0 && ml >= 0.0 ==> target >= ml
  {
    assert dailyInflationRate >= 0.0 && ml >= 0.0 ==> ml * Pow(1.0 + dailyInflationRate, days) >= ml by {
      if dailyInflationRate >= 0.0 && ml >= 0.0 {
        PowAtLeastOne(1.0 + dailyInflationRate, days);
        assert ml * Pow(1.0 + dailyInflationRate, days) - ml == ml * (Pow(1.0 + dailyInflationRate, days) - 1.0);
      }
    }
    ml * Pow(1.0 + dailyInflationRate, days)
  }

  /**
   * The withdrawal table at day `now`, or `None` once the predicted date of
   * death is reached. `dailyRate` and `dailyInflationRate` stand for the
   * daily equivalents of the APR and the inflation rate (`IsDailyRateOf`,
   * `IsDailyInflationOf`); the method uses only that both exceed -1.
   */
  method CalculateWithdrawalLimits(data: LotteryData, now: Day, cal: Calendar, dailyRate: real, dailyInflationRate: real)
    returns (r: Option<WithdrawalLimits>)
    requires 1.0 + dailyRate > 0.0 && 1.0 + dailyInflationRate > 0.0
    ensures data.initialParameters.predictedDeathDate - now <= 0 ==> r == None
    ensures data.initialParameters.predictedDeathDate - now > 0 ==>
              var ip, st := data.initialParameters, data.state;
              var days := ip.predictedDeathDate - now;
              var taxRate := ip.investmentTaxRate / 100.0;
              var deflator := Pow(1.0 + dailyInflationRate, days);
              var target := InflationAdjustedTarget(ip.ml, dailyInflationRate, days);
              var annuityPrincipal := st.annualBalance + FuturePaymentsValue(ip, cal, now, dailyRate, ip.mal);
              && deflator > 0.0
              && r == Some(WithdrawalLimits(
                   GetLimits(SustainableDailyWithdrawal(st.lumpBalance, target, dailyRate, days, taxRate), deflator),
                   GetLimits(SustainableDailyWithdrawal(annuityPrincipal, target, dailyRate, days, taxRate), deflator),
                   (days as real) / DaysPerYear,
                   target))
  {
    var ip, st := data.initialParameters, data.state;
    var daysRemaining := ip.predictedDeathDate - now;
    if daysRemaining <= 0 {
      return None;
    }
    var taxRate := ip.investmentTaxRate / 100.0;
    var deflator := Pow(1.0 + dailyInflationRate, daysRemaining);
    PowPositive(1.0 + dailyInflationRate, daysRemaining);
    var inflationAdjustedTarget := InflationAdjustedTarget(ip.ml, dailyInflationRate, daysRemaining);

    var dailyWithdrawLump := SustainableDailyWithdrawal(st.lumpBalance, inflationAdjustedTarget, dailyRate, daysRemaining, taxRate);

    // The annuity scenario draws on its cash and on the payments still to come, discounted to today.
    var pvFuturePayments := PresentValueOfFuturePayments(ip, cal, now, dailyRate);
    var totalAnnuityPrincipal := st.annualBalance + pvFuturePayments;
    var dailyWithdrawAnn := SustainableDailyWithdrawal(totalAnnuityPrincipal, inflationAdjustedTarget, dailyRate, daysRemaining, taxRate);
    var yearsRemaining := (daysRemaining as real) / DaysPerYear;
    r := Some(WithdrawalLimits(GetLimits(dailyWithdrawLump, deflator), GetLimits(dailyWithdrawAnn, deflator),
                               yearsRemaining, inflationAdjustedTarget));
  }

  /**
   * The annuity scenario's daily withdrawal is at least what its cash balance
   * alone would sustain, because the future payments only add to it.
   */
  lemma AnnuityWithdrawalAtLeastCashOnly(data: LotteryData, now: Day, cal: Calendar, dailyRate: real, target: real)
    requires var ip := data.initialParameters;
             && 1.0 + dailyRate > 0.0 && ip.basePayment >= 0.0 && ip.growthRate > 0.0
             && 0.0 <= ip.investmentTaxRate <= 100.0
    ensures var ip, st := data.initialParameters, data.state;
            var days := ip.predictedDeathDate - now;
            var taxRate := ip.investmentTaxRate / 100.0;
            SustainableDailyWithdrawal(st.annualBalance, target, dailyRate, days, taxRate)
            <= SustainableDailyWithdrawal(st.annualBalance + FuturePaymentsValue(ip, cal, now, dailyRate, ip.mal),
                                          target, dailyRate, days, taxRate)
  {
    var ip, st := data.initialParameters, data.state;
    var taxRate := ip.investmentTaxRate / 100.0;
    FuturePaymentsNonNegative(ip, cal, now, dailyRate, ip.mal);
    assert 0.0 <= 1.0 - taxRate <= 1.0;
    if dailyRate >= 0.0 {
      assert dailyRate * (1.0 - taxRate) >= 0.0;
    } else {
      assert dailyRate * (1.0 - taxRate) >= dailyRate;
    }
    WithdrawalMonotoneInPrincipal(st.annualBalance, st.annualBalance + FuturePaymentsValue(ip, cal, now, dailyRate, ip.mal),
                                  target, dailyRate, ip.predictedDeathDate - now, taxRate);
  }

  // ---------------------------------------------------------------------
  // formatMoney
  // ---------------------------------------------------------------------

  /**
   * The display form chosen for an amount: the figure shown before the
   * suffix, its number of decimals, and the suffix (`"M"`, `"K"` or none).
   * The digits themselves are not modelled.
   */
  datatype MoneyText = MoneyText(figure: real, decimals: nat, suffix: string)

  /** The amount one unit of the figure stands for under `suffix`. */
  function SuffixUnit(suffix: string): real
  {
    if suffix == "M" then 1000000.0 else if suffix == "K" then 1000.0 else 1.0
  }

  function FormatMoney(value: real): (t: MoneyText)
    ensures t.suffix == "M" <==> value >= 10000000.0
    ensures t.suffix == "K" <==> 100000.0 <= value < 10000000.0
    ensures t.suffix == "" <==> value < 100000.0
    ensures t.figure * SuffixUnit(t.suffix) == value
    ensures t.suffix == "M" ==> t.figure >= 10.0 && t.decimals == 2
    ensures t.suffix == "K" ==> 100.0 <= t.figure < 10000.0 && t.decimals == 1
    ensures t.suffix == "" ==> t.decimals == 2
  {
    if value >= 10000000.0 then MoneyText(value / 1000000.0, 2, "M")
    else if value >= 100000.0 then MoneyText(value / 1000.0, 1, "K")
    else MoneyText(value, 2, "")
  }
}
