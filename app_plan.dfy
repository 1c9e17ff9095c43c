/** The back end's payment-plan generator (DebtManager.generate_payment_plan):
    a month-by-month schedule for one debt, capped at 30 years. The pandas
    DataFrame it returns is a sequence of rows here. */
module AppPlan {
  import opened Wrappers
  import opened Money
  import opened AppDebt

  /** Months after which the plan stops (30 years). */
  const PlanCap: nat := 360

  /** One row of the plan: the month number, what was paid, the interest
      charged, and the balance left after the payment. */
  datatype PlanRow = PlanRow(month: nat, payment: real, interest: real, balance: real)

  /** The plan strategy: the source compares its argument with the string
      "minimum"; every other name (its docstring mentions "snowball" and
      "avalanche") takes the accelerated branch. */
  datatype Strategy = Minimum | Accelerated

  function StrategyOf(name: string): Strategy {
    if name == "minimum" then Minimum else Accelerated
  }

  /** How far above the month's interest the payment is forced: one currency
      unit under the "minimum" strategy, fifty under any other. */
  function MarginOverInterest(strategy: Strategy): (m: real)
    ensures m >= 1.0
  {
    if strategy == Minimum then 1.0 else 50.0
  }

  /** The payment for a month opening at `prev` with `interest` charged: at
      least the minimum and at least interest plus the margin, but never more
      than what is owed. */
  function PlanPayment(prev: real, interest: real, minPayment: real, strategy: Strategy): real {
    var floor := interest + MarginOverInterest(strategy);
    var payment := if minPayment >= floor then minPayment else floor;
    if payment > prev + interest then prev + interest else payment
  }

  /** The balance row `i` of `rows` opens with, `start` being the first. */
  function Opening(start: real, rows: seq<PlanRow>, i: nat): real
    requires i <= |rows|
  {
    if i == 0 then start else rows[i - 1].balance
  }

  /** The row for a month that opens at `prev`. */
  function MonthRow(prev: real, rate: real, minPayment: real, strategy: Strategy, month: nat): PlanRow {
    var interest := prev * rate;
    var payment := PlanPayment(prev, interest, minPayment, strategy);
    PlanRow(month, payment, interest, prev + interest - payment)
  }

  /** The balance the plan stands at after `rows`, `start` if none. */
  function Closing(start: real, rows: seq<PlanRow>): real {
    Opening(start, rows, |rows|)
  }

  /** The rows generate_payment_plan has produced after `n` turns of its
      loop: a turn appends the row of month `n` if the balance reached so
      far is still positive, and nothing once the debt is cleared. */
  function PlanPrefix(start: real, rate: real, minPayment: real, strategy: Strategy, n: nat): seq<PlanRow>
    decreases n
  {
    if n == 0 then []
    else
      var rows := PlanPrefix(start, rate, minPayment, strategy, n - 1);
      var open := Closing(start, rows);
      if open > 0.0 then rows + [MonthRow(open, rate, minPayment, strategy, n)] else rows
  }

  /** The whole plan for a debt whose current balance is `start`: what the
      loop has produced when the thirty-year cap is reached. */
  function Plan(start: real, rate: real, minPayment: real, strategy: Strategy): seq<PlanRow> {
    PlanPrefix(start, rate, minPayment, strategy, PlanCap)
  }

  /** DebtManager.generate_payment_plan, given the result of the debt lookup.
      A missing debt gives an empty plan. */
  method GeneratePaymentPlan(found: Option<Debt>, strategyName: string) returns (rows: seq<PlanRow>)
    ensures found.None? ==> rows == []
    ensures found.Some? ==>
      var d := found.value;
      rows == Plan(d.CurrentBalance(), MonthlyRate(d.interestRate), d.minPayment, StrategyOf(strategyName))
  {
    if found.None? {
      return [];
    }
    var debt := found.value;
    ghost var strategy := StrategyOf(strategyName);
    // debt.interest_rate / 12 / 100, the same every month
    var rate := MonthlyRate(debt.interestRate);
    var balance := debt.CurrentBalance();
    rows := [];
    var month: nat := 0;
    while balance > 0.0 && month < PlanCap
      invariant month <= PlanCap
      invariant rows == PlanPrefix(debt.CurrentBalance(), rate, debt.minPayment, strategy, month)
      invariant balance == Closing(debt.CurrentBalance(), rows)
      decreases PlanCap - month
    {
      month := month + 1;
      var row := MonthOfPlan(balance, rate, debt.minPayment, strategyName, month);
      PrefixStep(debt.CurrentBalance(), rate, debt.minPayment, strategy, month - 1);
      rows := rows + [row];
      balance := row.balance;
      if balance <= 0.0 {
        break;
      }
    }
    PrefixSettles(debt.CurrentBalance(), rate, debt.minPayment, strategy, month, PlanCap);
  }

  /** One turn of generate_payment_plan's loop for a month opening at
      `balance`: the interest, the payment (at least the minimum and at
      least interest plus the margin, at most what is owed) and the
      balance after it. */
  method MonthOfPlan(balance: real, rate: real, minPayment: real, strategyName: string, month: nat)
    returns (row: PlanRow)
    ensures row == MonthRow(balance, rate, minPayment, StrategyOf(strategyName), month)
  {
    var monthlyInterest := balance * rate;
    var interestForMonth := monthlyInterest;
    var payment;
    if strategyName == "minimum" {
      payment := Max(minPayment, monthlyInterest + 1.0);
    } else {
      payment := Max(minPayment, monthlyInterest + 50.0);
    }
    if payment > balance + interestForMonth {
      payment := balance + interestForMonth;
    }
    row := PlanRow(month, payment, interestForMonth, balance + interestForMonth - payment);
  }

  /** A turn of the loop while something is owed appends the row of the
      month that opens at the balance reached so far. */
  lemma PrefixStep(start: real, rate: real, minPayment: real, strategy: Strategy, n: nat)
    requires Closing(start, PlanPrefix(start, rate, minPayment, strategy, n)) > 0.0
    ensures var rows := PlanPrefix(start, rate, minPayment, strategy, n);
      PlanPrefix(start, rate, minPayment, strategy, n + 1)
        == rows + [MonthRow(Closing(start, rows), rate, minPayment, strategy, n + 1)]
  {
  }

  /** Once the balance is cleared (or the loop has run to the cap) nothing
      more is appended. */
  lemma {:induction false} PrefixSettles(start: real, rate: real, minPayment: real, strategy: Strategy, m: nat, n: nat)
    requires m <= n
    requires Closing(start, PlanPrefix(start, rate, minPayment, strategy, m)) <= 0.0 || m == n
    ensures PlanPrefix(start, rate, minPayment, strategy, n) == PlanPrefix(start, rate, minPayment, strategy, m)
    decreases n - m
  {
    if m < n {
      PrefixSettles(start, rate, minPayment, strategy, m, n - 1);
    }
  }

  /** One month of the plan: the balance never goes below zero and falls
      strictly, by at least the margin over interest unless it reaches zero. */
  lemma PlanStep(prev: real, interest: real, minPayment: real, strategy: Strategy)
    requires prev > 0.0
    ensures var next := prev + interest - PlanPayment(prev, interest, minPayment, strategy);
      && 0.0 <= next < prev
      && (next == 0.0 || next <= prev - MarginOverInterest(strategy))
  {
  }

  /** After `n` turns there are at most `n` rows, exactly `n` while
      something is owed. */
  lemma {:induction false} PrefixLength(start: real, rate: real, minPayment: real, strategy: Strategy, n: nat)
    ensures var rows := PlanPrefix(start, rate, minPayment, strategy, n);
      && |rows| <= n
      && (Closing(start, rows) > 0.0 ==> |rows| == n)
  {
    if n > 0 {
      PrefixLength(start, rate, minPayment, strategy, n - 1);
    }
  }

  /** Row `i` of the plan so far is month i + 1, computed from the balance
      it opens with, which is positive. */
  lemma {:induction false} PrefixRowAt(start: real, rate: real, minPayment: real, strategy: Strategy, n: nat, i: nat)
    requires i < |PlanPrefix(start, rate, minPayment, strategy, n)|
    ensures var rows := PlanPrefix(start, rate, minPayment, strategy, n);
      && Opening(start, rows, i) > 0.0
      && rows[i] == MonthRow(Opening(start, rows, i), rate, minPayment, strategy, i + 1)
  {
    assert n > 0;
    var before := PlanPrefix(start, rate, minPayment, strategy, n - 1);
    if Closing(start, before) > 0.0 {
      PrefixStep(start, rate, minPayment, strategy, n - 1);
      PrefixLength(start, rate, minPayment, strategy, n - 1);
      if i < |before| {
        PrefixRowAt(start, rate, minPayment, strategy, n - 1, i);
      }
      RowAtAppended(start, rate, minPayment, strategy, before, i);
    } else {
      PrefixRowAt(start, rate, minPayment, strategy, n - 1, i);
    }
  }

  /** Row `i` after the row of the next month has been appended to rows
      built month by month. */
  lemma RowAtAppended(start: real, rate: real, minPayment: real, strategy: Strategy, before: seq<PlanRow>, i: nat)
    requires i <= |before| && Closing(start, before) > 0.0
    requires i < |before| ==>
      (Opening(start, before, i) > 0.0 && before[i] == MonthRow(Opening(start, before, i), rate, minPayment, strategy, i + 1))
    ensures var rows := before + [MonthRow(Closing(start, before), rate, minPayment, strategy, |before| + 1)];
      && Opening(start, rows, i) > 0.0
      && rows[i] == MonthRow(Opening(start, rows, i), rate, minPayment, strategy, i + 1)
  {
    var r := MonthRow(Closing(start, before), rate, minPayment, strategy, |before| + 1);
    var rows := before + [r];
    OpeningAppend(start, before, r, i);
    if i < |before| {
      assert rows[i] == before[i];
    } else {
      assert rows[i] == r;
    }
  }

  /** Appending a row does not change the balances the earlier rows open
      with. */
  lemma OpeningAppend(start: real, rows: seq<PlanRow>, r: PlanRow, i: nat)
    requires i <= |rows|
    ensures Opening(start, rows + [r], i) == Opening(start, rows, i)
  {
    if i > 0 {
      assert (rows + [r])[i - 1] == rows[i - 1];
    }
  }

  /** What a month's row says: interest is the opening balance times the
      monthly rate, and the new balance is old plus interest minus payment. */
  lemma MonthRowFields(prev: real, rate: real, minPayment: real, strategy: Strategy, month: nat)
    ensures var row := MonthRow(prev, rate, minPayment, strategy, month);
      && row.month == month
      && row.interest == prev * rate
      && row.payment == PlanPayment(prev, row.interest, minPayment, strategy)
      && row.balance == prev + row.interest - row.payment
  {
  }

  /** The extent of a debt's plan: at most 360 rows; nothing for a debt
      already cleared; a plan that stops before the cap ends at exactly zero
      (one that reaches the cap may still owe). */
  lemma PlanExtent(start: real, rate: real, minPayment: real, strategy: Strategy)
    ensures var rows := Plan(start, rate, minPayment, strategy);
      && |rows| <= PlanCap
      && (start <= 0.0 ==> rows == [])
      && (0 < |rows| < PlanCap ==> rows[|rows| - 1].balance == 0.0)
  {
    var rows := Plan(start, rate, minPayment, strategy);
    PrefixLength(start, rate, minPayment, strategy, PlanCap);
    if rows != [] {
      PrefixRowAt(start, rate, minPayment, strategy, PlanCap, 0);
      var last := |rows| - 1;
      PlanRowBalance(start, rate, minPayment, strategy, last);
    }
  }

  /** Row `i` of a debt's plan is month i + 1; it charges the monthly rate on
      the balance it opens with and closes at old plus interest minus
      payment. */
  lemma PlanRowAt(start: real, rate: real, minPayment: real, strategy: Strategy, i: nat)
    requires i < |Plan(start, rate, minPayment, strategy)|
    ensures var rows := Plan(start, rate, minPayment, strategy);
      && rows[i].month == i + 1
      && rows[i].interest == Opening(start, rows, i) * rate
      && rows[i].balance == Opening(start, rows, i) + rows[i].interest - rows[i].payment
  {
    var rows := Plan(start, rate, minPayment, strategy);
    PrefixRowAt(start, rate, minPayment, strategy, PlanCap, i);
    MonthRowFields(Opening(start, rows, i), rate, minPayment, strategy, i + 1);
  }

  /** The balance of row `i`: non-negative and below the one it opened with,
      by at least the margin over interest unless it is zero, and positive
      unless it is the last row. */
  lemma PlanRowBalance(start: real, rate: real, minPayment: real, strategy: Strategy, i: nat)
    requires i < |Plan(start, rate, minPayment, strategy)|
    ensures var rows := Plan(start, rate, minPayment, strategy);
      && 0.0 <= rows[i].balance < Opening(start, rows, i)
      && (rows[i].balance == 0.0 || rows[i].balance <= Opening(start, rows, i) - MarginOverInterest(strategy))
      && (i < |rows| - 1 ==> rows[i].balance > 0.0)
  {
    var rows := Plan(start, rate, minPayment, strategy);
    PrefixRowAt(start, rate, minPayment, strategy, PlanCap, i);
    if i < |rows| - 1 {
      PrefixRowAt(start, rate, minPayment, strategy, PlanCap, i + 1);
    }
    RowBalanceOf(start, rate, minPayment, strategy, rows, i);
  }

  /** PlanRowBalance for any rows built month by month up to row i + 1. */
  lemma RowBalanceOf(start: real, rate: real, minPayment: real, strategy: Strategy, rows: seq<PlanRow>, i: nat)
    requires i < |rows|
    requires Opening(start, rows, i) > 0.0
    requires rows[i] == MonthRow(Opening(start, rows, i), rate, minPayment, strategy, i + 1)
    requires i < |rows| - 1 ==> Opening(start, rows, i + 1) > 0.0
    ensures 0.0 <= rows[i].balance < Opening(start, rows, i)
    ensures rows[i].balance == 0.0 || rows[i].balance <= Opening(start, rows, i) - MarginOverInterest(strategy)
    ensures i < |rows| - 1 ==> rows[i].balance > 0.0
  {
    var open := Opening(start, rows, i);
    MonthRowFields(open, rate, minPayment, strategy, i + 1);
    PlanStep(open, open * rate, minPayment, strategy);
  }

  /** The payment rule, as the strategy states it: at least the minimum and
      at least interest plus the margin (one unit under "minimum", fifty
      otherwise), except in a final month where it is exactly what is owed. */
  lemma PlanRowPayment(start: real, rate: real, minPayment: real, strategy: Strategy, i: nat)
    requires i < |Plan(start, rate, minPayment, strategy)|
    ensures var rows := Plan(start, rate, minPayment, strategy);
      || (rows[i].payment >= minPayment
          && rows[i].payment >= rows[i].interest + MarginOverInterest(strategy))
      || (rows[i].payment == Opening(start, rows, i) + rows[i].interest && rows[i].balance == 0.0)
  {
    var rows := Plan(start, rate, minPayment, strategy);
    PrefixRowAt(start, rate, minPayment, strategy, PlanCap, i);
    MonthRowFields(Opening(start, rows, i), rate, minPayment, strategy, i + 1);
  }
}
