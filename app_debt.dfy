/** The Python back end's `Debt` record and its single-debt payoff
    projection (APP.PY, class Debt). */
module AppDebt {
  import opened Wrappers
  import opened Money
  import opened Text

  /** Months after which calculate_payoff_date gives up (100 years). */
  const PayoffCap: nat := 1200

  /** A debt as stored by the back end. The database id is absent before the
      record has been inserted. */
  datatype Debt = Debt(
    id: Option<int>,
    name: string,
    principal: real,
    interestRate: real,
    minPayment: real,
    totalPaid: real,
    creationDate: string)
  {
    /** principal - total_paid; not clamped, so it can be negative. */
    function CurrentBalance(): real {
      principal - totalPaid
    }

    /** One month of interest on the current balance. */
    function MonthlyInterest(): real {
      CurrentBalance() * MonthlyRate(interestRate)
    }
  }

  /** What calculate_payoff_date returns: the string "Already paid off", the
      string "Never (min payment too low)", or a record with the month count
      and the "N years, M months" text. The calendar date of that record is
      not part of this model. */
  datatype PayoffOutcome =
    | AlreadyPaidOff
    | NeverPayable
    | PayoffIn(months: nat, timeString: string)

  /** How the monthly loop of calculate_payoff_date ends. */
  datatype LoopExit = StoppedAt(months: nat) | PrincipalNotCovered

  /** The loop of calculate_payoff_date, entered with `balance` after
      `months` months: stop once the balance is paid or the cap is reached,
      give up when a month's payment does not exceed its interest. */
  function PayoffLoop(balance: real, payment: real, rate: real, months: nat): LoopExit
    requires months <= PayoffCap
    decreases PayoffCap - months
  {
    if balance > 0.0 && months < PayoffCap then
      var principalPayment := payment - balance * rate;
      if principalPayment <= 0.0 then PrincipalNotCovered
      else PayoffLoop(balance - principalPayment, payment, rate, months + 1)
    else StoppedAt(months)
  }

  /** The month count calculate_payoff_date arrives at, before it is
      rendered: PrincipalNotCovered when a month's payment does not cover
      its interest, StoppedAt(m) when the loop ends at month m. */
  function ProjectedMonths(d: Debt): LoopExit {
    var balance := d.CurrentBalance();
    var rate := MonthlyRate(d.interestRate);
    if balance <= 0.0 then StoppedAt(0)
    else if d.minPayment <= balance * rate then PrincipalNotCovered
    else PayoffLoop(balance, d.minPayment, rate, 0)
  }

  /** Specification of calculate_payoff_date. */
  function PayoffDate(d: Debt): PayoffOutcome {
    if d.CurrentBalance() <= 0.0 then AlreadyPaidOff
    else match ProjectedMonths(d)
      case PrincipalNotCovered => NeverPayable
      case StoppedAt(m) => PayoffIn(m, TimeString(m))
  }

  /** One turn of the loop of calculate_payoff_date, for a month that is
      entered with a positive balance below the cap. */
  lemma PayoffLoopStep(balance: real, payment: real, rate: real, months: nat, interest: real)
    requires months < PayoffCap && balance > 0.0 && interest == balance * rate
    ensures payment - interest <= 0.0
        ==> PayoffLoop(balance, payment, rate, months) == PrincipalNotCovered
    ensures payment - interest > 0.0
        ==> (PayoffLoop(balance, payment, rate, months)
             == PayoffLoop(balance - (payment - interest), payment, rate, months + 1))
  {
  }

  /** Debt.calculate_payoff_date, without the calendar date. */
  method CalculatePayoffDate(d: Debt) returns (outcome: PayoffOutcome)
    ensures outcome == PayoffDate(d)
  {
    if d.CurrentBalance() <= 0.0 {
      return AlreadyPaidOff;
    }
    var balance := d.CurrentBalance();
    var monthlyPayment := d.minPayment;
    var rate := MonthlyRate(d.interestRate);
    if monthlyPayment <= balance * rate {
      return NeverPayable;
    }
    ghost var target := PayoffLoop(balance, monthlyPayment, rate, 0);
    assert PayoffDate(d) == match target
      case PrincipalNotCovered => NeverPayable
      case StoppedAt(m) => PayoffIn(m, TimeString(m));
    var months: nat := 0;
    while balance > 0.0 && months < PayoffCap
      invariant months <= PayoffCap
      invariant PayoffLoop(balance, monthlyPayment, rate, months) == target
      decreases PayoffCap - months
    {
      var interest := balance * rate;
      var principalPayment := monthlyPayment - interest;
      PayoffLoopStep(balance, monthlyPayment, rate, months, interest);
      months := months + 1;
      if principalPayment <= 0.0 {
        return NeverPayable;
      }
      balance := balance - principalPayment;
      if balance <= 0.0 {
        break;
      }
    }
    assert target == StoppedAt(months);
    outcome := PayoffIn(months, TimeString(months));
  }

  /** The balance after `k` months of paying `payment` at monthly `rate`. */
  function BalanceAfter(balance: real, payment: real, rate: real, k: nat): real {
    if k == 0 then balance
    else
      var prev := BalanceAfter(balance, payment, rate, k - 1);
      prev - (payment - prev * rate)
  }

  /** In month k+1 the balance was still positive and the payment reduced it. */
  predicate FallsIn(balance: real, payment: real, rate: real, k: nat) {
    BalanceAfter(balance, payment, rate, k) > 0.0
    && BalanceAfter(balance, payment, rate, k + 1) < BalanceAfter(balance, payment, rate, k)
  }

  lemma {:induction false} PayoffLoopFrom(b0: real, p: real, r: real, j: nat)
    requires r >= 0.0 && j <= PayoffCap
    requires p > BalanceAfter(b0, p, r, j) * r
    ensures PayoffLoop(BalanceAfter(b0, p, r, j), p, r, j).StoppedAt?
    ensures var m := PayoffLoop(BalanceAfter(b0, p, r, j), p, r, j).months;
      && j <= m <= PayoffCap
      && (BalanceAfter(b0, p, r, j) > 0.0 && j < PayoffCap ==> j < m)
      && (BalanceAfter(b0, p, r, m) <= 0.0 || m == PayoffCap)
      && (forall k :: j <= k < m ==> FallsIn(b0, p, r, k))
    decreases PayoffCap - j
  {
    var x := BalanceAfter(b0, p, r, j);
    if x > 0.0 && j < PayoffCap {
      var y := BalanceAfter(b0, p, r, j + 1);
      assert y == x - (p - x * r);
      assert y < x;
      assert y * r <= x * r;
      PayoffLoopFrom(b0, p, r, j + 1);
    }
  }

  /** When the first payment exceeds the first month's interest and the
      rate is not negative, the in-loop "Never" exit cannot be taken: the
      loop stops at a month count in 1..1200, the balance is positive and
      strictly falling in every month before it, and it is paid off at that
      month unless the cap was hit. */
  lemma LoopStops(b0: real, p: real, r: real)
    requires r >= 0.0 && b0 > 0.0 && p > b0 * r
    ensures PayoffLoop(b0, p, r, 0).StoppedAt?
    ensures var m := PayoffLoop(b0, p, r, 0).months;
      && 1 <= m <= PayoffCap
      && (BalanceAfter(b0, p, r, m) <= 0.0 || m == PayoffCap)
      && (forall k :: 0 <= k < m ==> FallsIn(b0, p, r, k))
  {
    assert BalanceAfter(b0, p, r, 0) == b0;
    PayoffLoopFrom(b0, p, r, 0);
  }

  /** For a debt: neither guard fires, so the projection is that loop's. */
  lemma ProjectedMonthsBounds(d: Debt)
    requires d.interestRate >= 0.0
    requires d.CurrentBalance() > 0.0
    requires d.minPayment > d.CurrentBalance() * MonthlyRate(d.interestRate)
    ensures ProjectedMonths(d)
         == PayoffLoop(d.CurrentBalance(), d.minPayment, MonthlyRate(d.interestRate), 0)
    ensures ProjectedMonths(d).StoppedAt? && 1 <= ProjectedMonths(d).months <= PayoffCap
  {
    LoopStops(d.CurrentBalance(), d.minPayment, MonthlyRate(d.interestRate));
  }

  /** Under the same conditions calculate_payoff_date answers with that
      month count and its "N years, M months" text. */
  lemma PayoffMonths(d: Debt)
    requires d.interestRate >= 0.0
    requires d.CurrentBalance() > 0.0
    requires d.minPayment > d.CurrentBalance() * MonthlyRate(d.interestRate)
    ensures PayoffDate(d).PayoffIn?
    ensures 1 <= PayoffDate(d).months <= PayoffCap
    ensures PayoffDate(d).timeString == TimeString(PayoffDate(d).months)
  {
    ProjectedMonthsBounds(d);
  }

  /** The two guards, both ways round: "Already paid off" exactly when the
      balance is not positive, "Never" exactly when a positive balance's
      interest is at least the minimum payment (for a non-negative rate). */
  lemma PayoffGuards(d: Debt)
    requires d.interestRate >= 0.0
    ensures PayoffDate(d) == AlreadyPaidOff <==> d.CurrentBalance() <= 0.0
    ensures PayoffDate(d) == NeverPayable
        <==> d.CurrentBalance() > 0.0 && d.minPayment <= d.MonthlyInterest()
  {
    if d.CurrentBalance() > 0.0 && d.minPayment > d.MonthlyInterest() {
      PayoffMonths(d);
    }
  }

  lemma {:induction false} BalanceAfterAtZeroRate(b: real, p: real, k: nat)
    ensures BalanceAfter(b, p, 0.0, k) == b - p * k as real
  {
    if k > 0 {
      BalanceAfterAtZeroRate(b, p, k - 1);
    }
  }

  /** Reaching the cap is reported like a payoff: a 1000.00 debt at 0% paid
      at 0.50 a month still owes 400.00 after 1200 months, yet the result is
      a month count of 1200 ("100 years"), not a distinct unresolved status. */
  lemma CapLooksLikePayoff()
    ensures var d := Debt(None, "loan", 1000.0, 0.0, 0.5, 0.0, "");
      && PayoffDate(d) == PayoffIn(PayoffCap, TimeString(PayoffCap))
      && BalanceAfter(d.CurrentBalance(), d.minPayment, 0.0, PayoffCap) == 400.0
  {
    var d := Debt(None, "loan", 1000.0, 0.0, 0.5, 0.0, "");
    assert d.CurrentBalance() == 1000.0 && MonthlyRate(d.interestRate) == 0.0;
    LoopStops(1000.0, 0.5, 0.0);
    var m := PayoffLoop(1000.0, 0.5, 0.0, 0).months;
    BalanceAfterAtZeroRate(1000.0, 0.5, m);
    assert m == PayoffCap;
    assert ProjectedMonths(d) == StoppedAt(PayoffCap);
    BalanceAfterAtZeroRate(1000.0, 0.5, PayoffCap);
  }

  /** The "N years, M months" text of calculate_payoff_date: whole years,
      then the leftover months after a comma; months alone under a year. */
  function TimeString(months: nat): string {
    var years := months / 12;
    var rem := months % 12;
    if years > 0 then
      CountOf(years, "year") + (if rem > 0 then ", " + CountOf(rem, "month") else "")
    else CountOf(months, "month")
  }

  /** Reads back a month count from a TimeString text. */
  function ParseTimeString(s: string): Option<nat> {
    match ReadCountOf(s, "year")
    case Some((years, rest)) =>
      if rest == [] then Some(12 * years)
      else if |rest| >= 2 && rest[..2] == ", " then
        match ReadCountOf(rest[2..], "month")
        case Some((rem, tail)) =>
          if tail == [] && rem < 12 then Some(12 * years + rem) else None
        case None => None
      else None
    case None =>
      match ReadCountOf(s, "month")
      case Some((m, tail)) => if tail == [] then Some(m) else None
      case None => None
  }

  /** ParseTimeString once the years have been read and ", " follows. */
  lemma ParseAfterYears(s: string, years: nat, rest: string, rem: nat)
    requires ReadCountOf(s, "year") == Some((years, rest))
    requires |rest| >= 2 && rest[..2] == ", "
    requires ReadCountOf(rest[2..], "month") == Some((rem, [])) && rem < 12
    ensures ParseTimeString(s) == Some(12 * years + rem)
  {
  }

  lemma ParseYearsAndMonths(years: nat, rem: nat)
    requires years > 0 && rem < 12
    ensures ParseTimeString(CountOf(years, "year")
      + (if rem > 0 then ", " + CountOf(rem, "month") else "")) == Some(12 * years + rem)
  {
    if rem > 0 {
      var months := CountOf(rem, "month");
      var tail := ", " + months;
      ReadCountOfCountOf(years, "year", tail);
      assert tail[..2] == ", " && tail[2..] == months + [];
      ReadCountOfCountOf(rem, "month", []);
      ParseAfterYears(CountOf(years, "year") + tail, years, tail, rem);
    } else {
      ReadCountOfCountOf(years, "year", []);
      assert CountOf(years, "year") + "" == CountOf(years, "year") + [];
    }
  }

  lemma ParseMonthsOnly(months: nat)
    ensures ParseTimeString(CountOf(months, "month")) == Some(months)
  {
    var s := CountOf(months, "month");
    var unitTail := " month" + (if months != 1 then "s" else "");
    assert s == NatToString(months) + unitTail;
    ReadNatToString(months, unitTail);
    assert unitTail[..5][1] == 'm' != " year"[1];
    assert ReadCountOf(s, "year") == None;
    assert s == CountOf(months, "month") + [];
    ReadCountOfCountOf(months, "month", []);
  }

  /** The text determines the month count: years * 12 + remaining months,
      with singular/plural agreeing with each count. */
  lemma TimeStringRoundTrip(months: nat)
    ensures ParseTimeString(TimeString(months)) == Some(months)
  {
    if months / 12 > 0 {
      ParseYearsAndMonths(months / 12, months % 12);
    } else {
      ParseMonthsOnly(months);
    }
  }
}
