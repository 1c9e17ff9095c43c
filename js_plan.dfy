/** The browser's payment plan for one debt (simulatePaymentPlan in
    frontend.js): four parallel arrays of month numbers, opening balances,
    interest and payments, the balance rounded to cents after every month. */
module JsPlan {
  import opened Money
  import opened JsDebt

  /** The loop runs while month < 1000, months being counted from 1. */
  const JsPlanCap: nat := 999

  /** The `plan` object: one array per column. */
  datatype Plan = Plan(month: seq<nat>, balance: seq<real>, interest: seq<real>, payment: seq<real>)

  /** One month of the plan as a record: the month number, the balance the
      month opens with (recorded before the payment), the interest and the
      payment. */
  datatype Row = Row(month: nat, balance: real, interest: real, payment: real)

  /** The plan's arrays read row by row. */
  function Columns(rows: seq<Row>): (p: Plan)
    ensures |p.month| == |p.balance| == |p.interest| == |p.payment| == |rows|
  {
    Plan(seq(|rows|, i requires 0 <= i < |rows| => rows[i].month),
         seq(|rows|, i requires 0 <= i < |rows| => rows[i].balance),
         seq(|rows|, i requires 0 <= i < |rows| => rows[i].interest),
         seq(|rows|, i requires 0 <= i < |rows| => rows[i].payment))
  }

  /** The plan's arrays at index `i`, read as one row. */
  function RowOf(p: Plan, i: nat): Row
    requires i < |p.month| && |p.month| == |p.balance| == |p.interest| == |p.payment|
  {
    Row(p.month[i], p.balance[i], p.interest[i], p.payment[i])
  }

  /** The payment aimed for each month: the minimum, or half as much again
      under the "accelerated" strategy (every other name pays the minimum). */
  function PlannedPayment(minPayment: real, strategy: string): real {
    if strategy == "accelerated" then minPayment * 1.5 else minPayment
  }

  /** The balance a month's row leaves behind: opening plus interest minus
      payment, rounded to the cent. */
  function After(row: Row): real {
    RoundCents(row.balance + row.interest - row.payment)
  }

  /** The balance month i + 1 opens with. */
  function Opening(start: real, rows: seq<Row>, i: nat): real
    requires i <= |rows|
  {
    if i == 0 then start else After(rows[i - 1])
  }

  function Closing(start: real, rows: seq<Row>): real {
    Opening(start, rows, |rows|)
  }

  /** The row of a month opening at `balance`: interest at the monthly rate,
      and the planned payment unless what is owed is less. */
  function MonthRow(balance: real, rate: real, payment: real, month: nat): Row {
    var interest := balance * rate;
    Row(month, balance, interest, Min(payment, balance + interest))
  }

  /** The rows after `n` turns of the loop: a turn adds month `n` while the
      balance reached so far is positive. */
  function Prefix(start: real, rate: real, payment: real, n: nat): seq<Row>
    decreases n
  {
    if n == 0 then []
    else
      var rows := Prefix(start, rate, payment, n - 1);
      var open := Closing(start, rows);
      if open > 0.0 then rows + [MonthRow(open, rate, payment, n)] else rows
  }

  /** All the rows of a debt's plan. */
  function Rows(start: real, rate: real, payment: real): seq<Row> {
    Prefix(start, rate, payment, JsPlanCap)
  }

  /** Specification of simulatePaymentPlan. */
  function PaymentPlan(d: Debt, strategy: string): Plan {
    Columns(Rows(d.currentBalance, MonthlyRate(d.interestRate), PlannedPayment(d.minPayment, strategy)))
  }

  /** simulatePaymentPlan. */
  method SimulatePaymentPlan(debt: Debt, strategy: string) returns (plan: Plan)
    ensures plan == Columns(Rows(debt.currentBalance, MonthlyRate(debt.interestRate), PlannedPayment(debt.minPayment, strategy)))
  {
    plan := Plan([], [], [], []);
    var balance := debt.currentBalance;
    var month: nat := 1;
    var monthlyRate := debt.interestRate / 100.0 / 12.0;
    var payment := debt.minPayment;
    if strategy == "accelerated" {
      payment := debt.minPayment * 1.5;
    }
    assert monthlyRate == MonthlyRate(debt.interestRate);
    assert payment == PlannedPayment(debt.minPayment, strategy);
    ghost var rows: seq<Row> := [];
    while balance > 0.0 && month < 1000
      invariant 1 <= month <= 1000
      invariant |rows| == month - 1
      invariant rows == Prefix(debt.currentBalance, monthlyRate, payment, |rows|)
      invariant balance == Closing(debt.currentBalance, rows)
      invariant plan == Columns(rows)
      decreases 1000 - month
    {
      var row := PlanMonth(balance, monthlyRate, payment, month);
      PrefixStep(debt.currentBalance, monthlyRate, payment, |rows|);
      ColumnsPush(rows, row);
      plan := Plan(plan.month + [month], plan.balance + [balance],
                   plan.interest + [row.interest], plan.payment + [row.payment]);
      rows := rows + [row];
      balance := balance + row.interest - row.payment;
      balance := RoundCents(balance);
      month := month + 1;
    }
    PrefixSettles(debt.currentBalance, monthlyRate, payment, month - 1, JsPlanCap);
    assert rows == Rows(debt.currentBalance, monthlyRate, payment);
  }

  /** One turn of the loop for a month opening at `balance`. */
  method PlanMonth(balance: real, monthlyRate: real, payment: real, month: nat) returns (row: Row)
    ensures row == MonthRow(balance, monthlyRate, payment, month)
  {
    var interest := balance * monthlyRate;
    var actualPayment := Min(payment, balance + interest);
    row := Row(month, balance, interest, actualPayment);
  }

  lemma ColumnsPush(rows: seq<Row>, r: Row)
    ensures var p := Columns(rows);
      Columns(rows + [r])
        == Plan(p.month + [r.month], p.balance + [r.balance], p.interest + [r.interest], p.payment + [r.payment])
  {
    var p := Columns(rows);
    var q := Columns(rows + [r]);
    assert q.month == p.month + [r.month];
    assert q.balance == p.balance + [r.balance];
    assert q.interest == p.interest + [r.interest];
    assert q.payment == p.payment + [r.payment];
  }

  lemma PrefixStep(start: real, rate: real, payment: real, n: nat)
    requires Closing(start, Prefix(start, rate, payment, n)) > 0.0
    ensures var rows := Prefix(start, rate, payment, n);
      Prefix(start, rate, payment, n + 1) == rows + [MonthRow(Closing(start, rows), rate, payment, n + 1)]
  {
  }

  lemma {:induction false} PrefixSettles(start: real, rate: real, payment: real, m: nat, n: nat)
    requires m <= n
    requires Closing(start, Prefix(start, rate, payment, m)) <= 0.0 || m == n
    ensures Prefix(start, rate, payment, n) == Prefix(start, rate, payment, m)
    decreases n - m
  {
    if m < n {
      PrefixSettles(start, rate, payment, m, n - 1);
    }
  }

  /** A month never leaves a negative balance: the payment is capped at
      what is owed, and rounding to the cent keeps a non-negative amount
      non-negative. */
  lemma AfterNonNegative(balance: real, rate: real, payment: real, month: nat)
    ensures After(MonthRow(balance, rate, payment, month)) >= 0.0
  {
    var row := MonthRow(balance, rate, payment, month);
    RoundCentsBounds(row.balance + row.interest - row.payment);
  }

  lemma {:induction false} PrefixLength(start: real, rate: real, payment: real, n: nat)
    ensures var rows := Prefix(start, rate, payment, n);
      && |rows| <= n
      && (Closing(start, rows) > 0.0 ==> |rows| == n)
  {
    if n > 0 {
      PrefixLength(start, rate, payment, n - 1);
    }
  }

  lemma {:induction false} PrefixRowAt(start: real, rate: real, payment: real, n: nat, i: nat)
    requires i < |Prefix(start, rate, payment, n)|
    ensures var rows := Prefix(start, rate, payment, n);
      && Opening(start, rows, i) > 0.0
      && rows[i] == MonthRow(Opening(start, rows, i), rate, payment, i + 1)
  {
    assert n > 0;
    var before := Prefix(start, rate, payment, n - 1);
    if Closing(start, before) > 0.0 {
      PrefixStep(start, rate, payment, n - 1);
      PrefixLength(start, rate, payment, n - 1);
      if i < |before| {
        PrefixRowAt(start, rate, payment, n - 1, i);
      }
      RowAtAppended(start, rate, payment, before, i);
    } else {
      PrefixRowAt(start, rate, payment, n - 1, i);
    }
  }

  /** Row `i` after the row of the next month has been appended to rows
      built month by month. */
  lemma RowAtAppended(start: real, rate: real, payment: real, before: seq<Row>, i: nat)
    requires i <= |before| && Closing(start, before) > 0.0
    requires i < |before| ==>
      (Opening(start, before, i) > 0.0 && before[i] == MonthRow(Opening(start, before, i), rate, payment, i + 1))
    ensures var rows := before + [MonthRow(Closing(start, before), rate, payment, |before| + 1)];
      && Opening(start, rows, i) > 0.0
      && rows[i] == MonthRow(Opening(start, rows, i), rate, payment, i + 1)
  {
    var r := MonthRow(Closing(start, before), rate, payment, |before| + 1);
    var rows := before + [r];
    OpeningAppend(start, before, r, i);
    if i < |before| {
      assert rows[i] == before[i];
    } else {
      assert rows[i] == r;
    }
  }

  /** Appending a row does not change the balances the earlier rows open
      with. */
  lemma OpeningAppend(start: real, rows: seq<Row>, r: Row, i: nat)
    requires i <= |rows|
    ensures Opening(start, rows + [r], i) == Opening(start, rows, i)
  {
    if i > 0 {
      assert (rows + [r])[i - 1] == rows[i - 1];
    }
  }

  /** Row `i` of a debt's plan: month i + 1, opening with a positive
      balance; the row after it opens with what this one leaves, which is
      never negative. */
  lemma RowAt(start: real, rate: real, payment: real, i: nat)
    requires i < |Rows(start, rate, payment)|
    ensures var rows := Rows(start, rate, payment);
      && rows[i] == MonthRow(rows[i].balance, rate, payment, i + 1)
      && rows[i].balance > 0.0
      && After(rows[i]) >= 0.0
      && (i + 1 < |rows| ==> rows[i + 1].balance == After(rows[i]))
      && (i == 0 ==> rows[i].balance == start)
  {
    var rows := Rows(start, rate, payment);
    PrefixRowAt(start, rate, payment, JsPlanCap, i);
    if i + 1 < |rows| {
      PrefixRowAt(start, rate, payment, JsPlanCap, i + 1);
    }
    RowAtOf(start, rate, payment, rows, i);
  }

  /** RowAt for any rows built month by month up to row i + 1. */
  lemma RowAtOf(start: real, rate: real, payment: real, rows: seq<Row>, i: nat)
    requires i < |rows|
    requires Opening(start, rows, i) > 0.0
    requires rows[i] == MonthRow(Opening(start, rows, i), rate, payment, i + 1)
    requires i + 1 < |rows| ==> rows[i + 1] == MonthRow(Opening(start, rows, i + 1), rate, payment, i + 2)
    ensures rows[i] == MonthRow(rows[i].balance, rate, payment, i + 1)
    ensures rows[i].balance > 0.0
    ensures After(rows[i]) >= 0.0
    ensures i + 1 < |rows| ==> rows[i + 1].balance == After(rows[i])
    ensures i == 0 ==> rows[i].balance == start
  {
    AfterNonNegative(rows[i].balance, rate, payment, i + 1);
  }

  /** The extent of the plan: four arrays of one length, at most 999; empty
      for a debt with nothing owed, otherwise opening with the debt's
      current balance; and a non-empty plan cut short of the cap ends at
      exactly zero, there being no guard for a payment that never covers the
      interest. */
  lemma PlanExtent(d: Debt, strategy: string)
    ensures var p := PaymentPlan(d, strategy);
      var rows := Rows(d.currentBalance, MonthlyRate(d.interestRate), PlannedPayment(d.minPayment, strategy));
      && |p.month| == |p.balance| == |p.interest| == |p.payment| <= JsPlanCap
      && (d.currentBalance <= 0.0 <==> p.balance == [])
      && (p.balance != [] ==> p.balance[0] == d.currentBalance)
      && (|rows| < JsPlanCap ==> Closing(d.currentBalance, rows) <= 0.0)
      && (0 < |rows| < JsPlanCap ==> Closing(d.currentBalance, rows) == 0.0)
  {
    var start := d.currentBalance;
    var rate := MonthlyRate(d.interestRate);
    var payment := PlannedPayment(d.minPayment, strategy);
    var rows := Rows(start, rate, payment);
    PrefixLength(start, rate, payment, JsPlanCap);
    if rows != [] {
      RowAt(start, rate, payment, 0);
      assert PaymentPlan(d, strategy).balance[0] == RowOf(PaymentPlan(d, strategy), 0).balance;
      RowAt(start, rate, payment, |rows| - 1);
    } else if start <= 0.0 {
      PrefixSettles(start, rate, payment, 0, JsPlanCap);
    }
  }

  /** What a month's row says: interest is the opening balance times the
      monthly rate, and the payment is the planned one unless what is owed
      (balance plus interest) is less. */
  lemma MonthRowFields(balance: real, rate: real, payment: real, month: nat)
    ensures var row := MonthRow(balance, rate, payment, month);
      && row.month == month && row.balance == balance
      && row.interest == balance * rate
      && row.payment == Min(payment, balance + row.interest)
      && row.payment <= balance + row.interest
  {
  }

  lemma ColumnsMonthAt(start: real, rate: real, payment: real, i: nat)
    requires i < |Columns(Rows(start, rate, payment)).month|
    ensures var p := Columns(Rows(start, rate, payment));
      && RowOf(p, i) == MonthRow(p.balance[i], rate, payment, i + 1)
      && p.balance[i] > 0.0
      && After(RowOf(p, i)) >= 0.0
      && (i + 1 < |p.month| ==> p.balance[i + 1] == After(RowOf(p, i)))
  {
    var rows := Rows(start, rate, payment);
    RowAt(start, rate, payment, i);
    ColumnsRowOf(rows, i);
    if i + 1 < |rows| {
      ColumnsRowOf(rows, i + 1);
    }
  }

  /** Index `i` of the plan's arrays is row `i`. */
  lemma ColumnsRowOf(rows: seq<Row>, i: nat)
    requires i < |rows|
    ensures RowOf(Columns(rows), i) == rows[i]
    ensures Columns(rows).balance[i] == rows[i].balance
  {
  }

  /** Month `i` of the plan: labelled i + 1, opening with a positive
      balance, charged interest at the monthly rate and paying the planned
      amount unless less is owed (MonthRowFields); the next month opens
      with the cents-rounded remainder, which is never negative. */
  lemma PlanMonthAt(d: Debt, strategy: string, i: nat)
    requires i < |PaymentPlan(d, strategy).month|
    ensures var p := PaymentPlan(d, strategy);
      && RowOf(p, i) == MonthRow(p.balance[i], MonthlyRate(d.interestRate), PlannedPayment(d.minPayment, strategy), i + 1)
      && p.balance[i] > 0.0
      && After(RowOf(p, i)) >= 0.0
      && (i + 1 < |p.month| ==> p.balance[i + 1] == After(RowOf(p, i)))
  {
    ColumnsMonthAt(d.currentBalance, MonthlyRate(d.interestRate), PlannedPayment(d.minPayment, strategy), i);
  }
}
