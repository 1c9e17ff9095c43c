/** The browser's payoff-time texts: formatMonthsAsTime and the guard
    branches of calculatePayoffTime / calculatePayoffInfo (frontend.js). */
module JsFormat {
  import opened Wrappers
  import opened Money
  import opened Text
  import AppDebt

  const LessThanAMonth: string := "Less than 1 month"

  /** formatMonthsAsTime: round the month count up; below one month say so;
      otherwise "N year(s)" and/or "M month(s)", separated by one space. */
  function FormatMonthsAsTime(months: real): (r: string)
    ensures r != []
    ensures r == LessThanAMonth <==> Ceil(months) < 1
    ensures Ceil(months) >= 1 ==> IsDigit(r[0])
  {
    var m := Ceil(months);
    if m < 1 then LessThanAMonth else WholeMonthsText(m)
  }

  /** The years-and-months text for a whole number of months, at least one. */
  function WholeMonthsText(m: nat): (r: string)
    requires m >= 1
    ensures r != [] && IsDigit(r[0])
  {
    var years := m / 12;
    var rem := m % 12;
    var y := if years > 0 then CountOf(years, "year") else "";
    var r := if rem > 0 then (if |y| > 0 then y + " " else y) + CountOf(rem, "month") else y;
    assert r[0] == NatToString(if years > 0 then years else rem)[0];
    r
  }

  /** Reads a month count back from a FormatMonthsAsTime text;
      "Less than 1 month" reads as 0. */
  function ReadMonthsText(s: string): Option<nat> {
    if s == LessThanAMonth then Some(0)
    else match ReadCountOf(s, "year")
      case Some((years, rest)) => ReadAfterYearsText(years, rest)
      case None =>
        match ReadCountOf(s, "month")
        case Some((m, tail)) => if tail == [] && 0 < m < 12 then Some(m) else None
        case None => None
  }

  /** The rest of ReadMonthsText once "N year(s)" has been read. */
  function ReadAfterYearsText(years: nat, rest: string): Option<nat> {
    if rest == [] then (if years > 0 then Some(12 * years) else None)
    else if rest[0] == ' ' then
      match ReadCountOf(rest[1..], "month")
      case Some((rem, tail)) =>
        if tail == [] && years > 0 && 0 < rem < 12 then Some(12 * years + rem) else None
      case None => None
    else None
  }

  /** ReadMonthsText once the years have been read and a space follows. */
  lemma ReadAfterYears(s: string, years: nat, rest: string, rem: nat)
    requires s != LessThanAMonth
    requires ReadCountOf(s, "year") == Some((years, rest))
    requires years > 0 && rest != [] && rest[0] == ' '
    requires ReadCountOf(rest[1..], "month") == Some((rem, [])) && 0 < rem < 12
    ensures ReadMonthsText(s) == Some(12 * years + rem)
  {
    assert ReadMonthsText(s) == ReadAfterYearsText(years, rest);
    ReadMonthsAfterYears(years, rest, rem);
  }

  lemma ReadMonthsAfterYears(years: nat, rest: string, rem: nat)
    requires years > 0 && rest != [] && rest[0] == ' '
    requires ReadCountOf(rest[1..], "month") == Some((rem, [])) && 0 < rem < 12
    ensures ReadAfterYearsText(years, rest) == Some(12 * years + rem)
  {
  }

  lemma ReadYearsText(years: nat, rem: nat)
    requires years > 0 && rem < 12
    ensures ReadMonthsText(CountOf(years, "year")
      + (if rem > 0 then " " + CountOf(rem, "month") else "")) == Some(12 * years + rem)
  {
    var s := CountOf(years, "year");
    assert IsDigit(s[0]);
    if rem > 0 {
      var months := CountOf(rem, "month");
      var tail := " " + months;
      ReadCountOfCountOf(years, "year", tail);
      assert tail[1..] == months + [];
      ReadCountOfCountOf(rem, "month", []);
      assert (s + tail)[0] == s[0];
      ReadAfterYears(s + tail, years, tail, rem);
    } else {
      ReadCountOfCountOf(years, "year", []);
      assert s + "" == s + [];
    }
  }

  lemma ReadMonthsOnlyText(months: nat)
    requires 0 < months < 12
    ensures ReadMonthsText(CountOf(months, "month")) == Some(months)
  {
    var s := CountOf(months, "month");
    var unitTail := " month" + (if months != 1 then "s" else "");
    assert s == NatToString(months) + unitTail;
    ReadNatToString(months, unitTail);
    assert unitTail[..5][1] == 'm' != " year"[1];
    assert ReadCountOf(s, "year") == None;
    assert s == CountOf(months, "month") + [];
    ReadCountOfCountOf(months, "month", []);
  }

  /** The two shapes of a text for at least one month. */
  lemma WholeMonthsShape(m: nat)
    requires m >= 1
    ensures WholeMonthsText(m)
      == if m / 12 > 0 then
           CountOf(m / 12, "year") + (if m % 12 > 0 then " " + CountOf(m % 12, "month") else "")
         else CountOf(m, "month")
  {
    var years := m / 12;
    var rem := m % 12;
    if years > 0 {
      var y := CountOf(years, "year");
      assert |y| > 0;
      if rem > 0 {
        assert WholeMonthsText(m) == y + " " + CountOf(rem, "month");
      }
    } else {
      assert rem == m;
      assert "" + CountOf(m, "month") == CountOf(m, "month");
    }
  }

  lemma WholeMonthsRoundTrip(m: nat)
    requires m >= 1
    ensures ReadMonthsText(WholeMonthsText(m)) == Some(m)
  {
    var years, rem := m / 12, m % 12;
    assert 12 * years + rem == m;
    WholeMonthsShape(m);
    if years > 0 {
      ReadYearsText(years, rem);
    } else {
      ReadMonthsOnlyText(m);
    }
  }

  /** The text determines the rounded-up month count (0 for "Less than 1
      month"): years * 12 + remaining months, with each plural agreeing
      with its count. */
  lemma FormatRoundTrip(months: real)
    ensures ReadMonthsText(FormatMonthsAsTime(months))
         == Some(if Ceil(months) < 1 then 0 else Ceil(months))
  {
    if Ceil(months) >= 1 {
      WholeMonthsRoundTrip(Ceil(months));
    }
  }

  /** A month count as the browser reports it: calculatePayoffInfo answers
      Infinity when the payment never covers the interest. */
  datatype MonthCount = Finite(value: real) | Infinity

  /** The record calculatePayoffInfo returns; the calendar date is kept
      only in the guard branches, where it is the text "N/A". */
  datatype PayoffInfo = PayoffInfo(months: MonthCount, timeString: string, date: Option<string>)

  /** Which branch calculatePayoffTime and calculatePayoffInfo take, on the
      debt's stored current_balance. */
  datatype PayoffBranch = PaidOff | PaymentTooLow | ByFormula

  function PayoffBranchOf(balance: real, interestRate: real, minPayment: real): (b: PayoffBranch)
    ensures b == PaidOff <==> balance <= 0.0
    ensures b == PaymentTooLow <==> balance > 0.0 && minPayment <= balance * MonthlyRate(interestRate)
  {
    if balance <= 0.0 then PaidOff
    else if minPayment <= balance * (interestRate / 100.0 / 12.0) then PaymentTooLow
    else ByFormula
  }

  /** calculatePayoffTime's answer in its guard branches; None where it
      goes on to the closed-form logarithm. */
  function PayoffTimeGuard(balance: real, interestRate: real, minPayment: real): (r: Option<string>)
    ensures r.Some? <==> PayoffBranchOf(balance, interestRate, minPayment) != ByFormula
  {
    match PayoffBranchOf(balance, interestRate, minPayment)
    case PaidOff => Some("Paid off")
    case PaymentTooLow => Some("Never (payment too low)")
    case ByFormula => None
  }

  /** calculatePayoffInfo's record in its guard branches. */
  function PayoffInfoGuard(balance: real, interestRate: real, minPayment: real): (r: Option<PayoffInfo>)
    ensures r.Some? <==> PayoffBranchOf(balance, interestRate, minPayment) != ByFormula
  {
    match PayoffBranchOf(balance, interestRate, minPayment)
    case PaidOff => Some(PayoffInfo(Finite(0.0), "Paid off", Some("N/A")))
    case PaymentTooLow => Some(PayoffInfo(Infinity, "Never (payment too low)", Some("N/A")))
    case ByFormula => None
  }

  /** The two browser functions guard alike: wherever one answers without
      the formula the other does too, with the same text; months is 0 when
      paid off and Infinity when the payment is too low. */
  lemma GuardsAgree(balance: real, interestRate: real, minPayment: real)
    ensures PayoffTimeGuard(balance, interestRate, minPayment).Some?
        <==> PayoffInfoGuard(balance, interestRate, minPayment).Some?
    ensures PayoffInfoGuard(balance, interestRate, minPayment).Some? ==>
      && PayoffTimeGuard(balance, interestRate, minPayment).value
         == PayoffInfoGuard(balance, interestRate, minPayment).value.timeString
      && (PayoffInfoGuard(balance, interestRate, minPayment).value.months == Finite(0.0)
          <==> balance <= 0.0)
      && (PayoffInfoGuard(balance, interestRate, minPayment).value.months == Infinity
          <==> balance > 0.0)
  {
  }

  /** Against the Python back end: on the same debt (the browser's
      current_balance being principal - total_paid) the browser says "Paid
      off" exactly when calculate_payoff_date says "Already paid off", and
      "Never (payment too low)" exactly when it says "Never". */
  lemma GuardsMatchBackEnd(d: AppDebt.Debt)
    requires d.interestRate >= 0.0
    ensures PayoffBranchOf(d.CurrentBalance(), d.interestRate, d.minPayment) == PaidOff
        <==> AppDebt.PayoffDate(d) == AppDebt.AlreadyPaidOff
    ensures PayoffBranchOf(d.CurrentBalance(), d.interestRate, d.minPayment) == PaymentTooLow
        <==> AppDebt.PayoffDate(d) == AppDebt.NeverPayable
  {
    AppDebt.PayoffGuards(d);
  }
}
