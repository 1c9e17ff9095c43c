/** The back end's multi-debt strategy comparison
    (DebtManager.compare_payoff_strategies and _simulate_payoff): all debts
    share one monthly budget; each month every open debt accrues interest
    and has its minimum paid from the budget in priority order, and what is
    left goes to the first debt still owing. The simulation works on copies;
    debts are values here, so the caller's list cannot be changed. */
module AppStrategy {
  import opened Money
  import opened Wrappers
  import opened Sorting
  import opened AppDebt

  /** Months after which the simulation stops (100 years). */
  const SimulationCap: nat := 1200

  predicate IsOpen(d: Debt) {
    d.CurrentBalance() > 0.0
  }

  /** What paying one debt's minimum does: the debt after the payment, the
      budget left, and the interest accrued. */
  datatype Step = Step(debt: Debt, pool: real, interest: real)

  /** One open debt in the minimums pass: interest is added to the balance,
      the amount due is the minimum payment or the whole balance if that is
      smaller, and it is paid from the budget, or the whole budget is paid
      if it cannot cover it. Only total_paid changes, set so that the
      current balance is the balance after the payment. */
  function MinimumStep(d: Debt, pool: real): (s: Step)
    ensures s.pool >= 0.0
    ensures s.debt.CurrentBalance() >= 0.0
    ensures s.debt.CurrentBalance() == d.CurrentBalance() + s.interest - (pool - s.pool)
    ensures s.debt == d.(totalPaid := s.debt.totalPaid)
  {
    var interest := d.MonthlyInterest();
    var owed := d.CurrentBalance() + interest;
    var due := if owed < d.minPayment then owed else d.minPayment;
    if pool >= due then
      Step(d.(totalPaid := d.principal - (owed - due)), pool - due, interest)
    else
      Step(d.(totalPaid := d.principal - (owed - pool)), 0.0, interest)
  }

  /** The state of a minimums pass: the debts kept so far (closed debts are
      dropped), the budget left and the interest accrued this month. */
  datatype Pass = Pass(debts: seq<Debt>, pool: real, interest: real)

  function PayMinimum(p: Pass, d: Debt): Pass {
    if !IsOpen(d) then p
    else
      var s := MinimumStep(d, p.pool);
      Pass(p.debts + [s.debt], s.pool, p.interest + s.interest)
  }

  /** The minimums pass over `debts` in order, starting from budget `pool`. */
  function MinimumsPass(debts: seq<Debt>, pool: real): Pass
    decreases |debts|
  {
    if debts == [] then Pass([], pool, 0.0)
    else PayMinimum(MinimumsPass(debts[..|debts| - 1], pool), debts[|debts| - 1])
  }

  /** The index of the first open debt, |debts| if there is none. */
  function FirstOpen(debts: seq<Debt>): (j: nat)
    ensures j <= |debts|
    ensures j < |debts| ==> IsOpen(debts[j])
    ensures forall k :: 0 <= k < j ==> !IsOpen(debts[k])
  {
    if debts == [] then 0
    else if IsOpen(debts[0]) then 0
    else 1 + FirstOpen(debts[1..])
  }

  /** The debts and budget after the leftover is applied. */
  datatype Allotment = Allotment(debts: seq<Debt>, pool: real)

  /** What is left of the budget, if positive, goes to the first open debt,
      up to its balance; no other debt receives anything. */
  function Leftover(debts: seq<Debt>, pool: real): Allotment {
    var j := FirstOpen(debts);
    if pool > 0.0 && j < |debts| then
      var payment := if debts[j].CurrentBalance() < pool then debts[j].CurrentBalance() else pool;
      Allotment(debts[j := debts[j].(totalPaid := debts[j].totalPaid + payment)], pool - payment)
    else Allotment(debts, pool)
  }

  predicate AllClosed(debts: seq<Debt>) {
    forall k :: 0 <= k < |debts| ==> !IsOpen(debts[k])
  }

  /** A month: the minimums pass, then the leftover. */
  function Month(debts: seq<Debt>, budget: real): Pass {
    var p := MinimumsPass(debts, budget);
    var a := Leftover(p.debts, p.pool);
    Pass(a.debts, a.pool, p.interest)
  }

  /** The simulation's result: months simulated and total interest. */
  datatype Outcome = Outcome(months: nat, interest: real)

  /** The simulation from month `months` with `interest` accrued so far: it
      runs while some debt is kept and the cap is not reached, and stops
      after a month that leaves every debt closed. */
  function SimulateFrom(debts: seq<Debt>, budget: real, months: nat, interest: real): Outcome
    requires months <= SimulationCap
    decreases SimulationCap - months
  {
    if debts == [] || months == SimulationCap then Outcome(months, interest)
    else
      var m := Month(debts, budget);
      if AllClosed(m.debts) then Outcome(months + 1, interest + m.interest)
      else SimulateFrom(m.debts, budget, months + 1, interest + m.interest)
  }

  function Simulate(debts: seq<Debt>, budget: real): Outcome {
    SimulateFrom(debts, budget, 0, 0.0)
  }

  /** The body of the minimums pass for one open debt. */
  method PayDebtMinimum(debt: Debt, paymentRemaining: real) returns (paid: Debt, remaining: real, interest: real)
    requires IsOpen(debt)
    ensures Step(paid, remaining, interest) == MinimumStep(debt, paymentRemaining)
  {
    var balance := debt.CurrentBalance();
    interest := balance * (debt.interestRate / 12.0 / 100.0);
    balance := balance + interest;
    var minPayment := Min(debt.minPayment, balance);
    remaining := paymentRemaining;
    if remaining >= minPayment {
      balance := balance - minPayment;
      remaining := remaining - minPayment;
    } else {
      balance := balance - remaining;
      remaining := 0.0;
    }
    paid := debt.(totalPaid := debt.principal - balance);
  }

  /** The first inner loop of _simulate_payoff: walks a snapshot of the
      debts, drops the closed ones and pays the minimum of each open one
      from the shared budget. */
  method PayMinimums(copies: seq<Debt>, budget: real) returns (kept: seq<Debt>, paymentRemaining: real, interestAdded: real)
    ensures Pass(kept, paymentRemaining, interestAdded) == MinimumsPass(copies, budget)
  {
    paymentRemaining := budget;
    interestAdded := 0.0;
    kept := [];
    for i := 0 to |copies|
      invariant MinimumsPass(copies[..i], budget) == Pass(kept, paymentRemaining, interestAdded)
    {
      assert copies[..i + 1][..i] == copies[..i];
      var debt := copies[i];
      if debt.CurrentBalance() > 0.0 {
        var paid, interest;
        paid, paymentRemaining, interest := PayDebtMinimum(debt, paymentRemaining);
        interestAdded := interestAdded + interest;
        kept := kept + [paid];
      }
    }
    assert copies[..|copies|] == copies;
  }

  /** The second inner loop of _simulate_payoff: the first debt still owing
      receives what is left of the budget, up to its balance. */
  method PayLeftover(copies: seq<Debt>, pool: real) returns (debts: seq<Debt>, paymentRemaining: real)
    ensures Allotment(debts, paymentRemaining) == Leftover(copies, pool)
  {
    debts, paymentRemaining := copies, pool;
    var i := 0;
    while i < |debts|
      invariant i <= |debts|
      invariant debts == copies && paymentRemaining == pool
      invariant forall k :: 0 <= k < i ==> !(IsOpen(debts[k]) && paymentRemaining > 0.0)
    {
      if debts[i].CurrentBalance() > 0.0 && paymentRemaining > 0.0 {
        var payment := Min(paymentRemaining, debts[i].CurrentBalance());
        debts := debts[i := debts[i].(totalPaid := debts[i].totalPaid + payment)];
        paymentRemaining := paymentRemaining - payment;
        return;
      }
      i := i + 1;
    }
  }

  /** DebtManager._simulate_payoff: months simulated and total interest for
      `debts` in priority order with `budget` to spend each month. */
  method SimulatePayoff(debts: seq<Debt>, budget: real) returns (months: nat, totalInterest: real)
    ensures Outcome(months, totalInterest) == Simulate(debts, budget)
  {
    var copies := debts;
    months := 0;
    totalInterest := 0.0;
    while copies != [] && months < SimulationCap
      invariant months <= SimulationCap
      invariant SimulateFrom(copies, budget, months, totalInterest) == Simulate(debts, budget)
      decreases SimulationCap - months
    {
      ghost var rest := SimulateFrom(copies, budget, months, totalInterest);
      ghost var month := Month(copies, budget);
      months := months + 1;
      var paymentRemaining, interest;
      copies, paymentRemaining, interest := PayMinimums(copies, budget);
      totalInterest := totalInterest + interest;
      copies, paymentRemaining := PayLeftover(copies, paymentRemaining);
      assert copies == month.debts && interest == month.interest;
      if AllClosed(copies) {
        break;
      }
      assert rest == SimulateFrom(copies, budget, months, totalInterest);
    }
  }

  /** One strategy's line of the comparison. */
  datatype StrategyResult = StrategyResult(months: nat, interestPaid: real, totalPaid: real)

  /** The dictionary compare_payoff_strategies returns for a non-empty list. */
  datatype Comparison = Comparison(totalPrincipal: real, avalanche: StrategyResult, snowball: StrategyResult)

  /** The sum of the minimum payments. */
  function MinPayments(debts: seq<Debt>): real
    decreases |debts|
  {
    if debts == [] then 0.0
    else MinPayments(debts[..|debts| - 1]) + debts[|debts| - 1].minPayment
  }

  /** The avalanche key: sorting ascending on the negated rate is sorting by
      rate with reverse=True, which keeps equal rates in input order. */
  function NegatedRate(d: Debt): real {
    -d.interestRate
  }

  function Balance(d: Debt): real {
    d.CurrentBalance()
  }

  /** Avalanche order: highest interest rate first. */
  function AvalancheOrder(debts: seq<Debt>): seq<Debt> {
    SortBy(debts, NegatedRate)
  }

  /** Snowball order: lowest current balance first. */
  function SnowballOrder(debts: seq<Debt>): seq<Debt> {
    SortBy(debts, Balance)
  }

  /** One strategy's line from what the simulation reports. */
  function ResultOf(o: Outcome, principal: real): StrategyResult {
    StrategyResult(o.months, o.interest, principal + o.interest)
  }

  /** DebtManager.compare_payoff_strategies on the debts the database
      returned: nothing for an empty list; otherwise both orders are
      simulated (by SimulatePayoff, whose result is Simulate) with the sum
      of the minimum payments plus `extra` as the monthly budget, and each
      strategy reports that simulation's months and interest. Each total
      paid is the total current balance plus that strategy's interest, and
      each strategy takes between 1 and 1200 months; with non-negative rates
      and minimums no strategy pays less than the total balance. */
  function CompareStrategies(debts: seq<Debt>, extra: real): (r: Option<Comparison>)
    ensures r.None? <==> debts == []
    ensures r.Some? ==>
      var c := r.value;
      var budget := MinPayments(debts) + extra;
      && c.totalPrincipal == Balances(debts)
      && c.avalanche.months == Simulate(AvalancheOrder(debts), budget).months
      && c.snowball.months == Simulate(SnowballOrder(debts), budget).months
      && c.avalanche.interestPaid == Simulate(AvalancheOrder(debts), budget).interest
      && c.snowball.interestPaid == Simulate(SnowballOrder(debts), budget).interest
      && c.avalanche.totalPaid == c.totalPrincipal + c.avalanche.interestPaid
      && c.snowball.totalPaid == c.totalPrincipal + c.snowball.interestPaid
      && 1 <= c.avalanche.months <= SimulationCap
      && 1 <= c.snowball.months <= SimulationCap
      && (NonNegativeTerms(debts) ==>
            c.avalanche.totalPaid >= c.totalPrincipal && c.snowball.totalPaid >= c.totalPrincipal)
  {
    if debts == [] then None
    else
      var totalPrincipal := Balances(debts);
      var totalPayment := MinPayments(debts) + extra;
      var sortedByInterest := AvalancheOrder(debts);
      var sortedByBalance := SnowballOrder(debts);
      SimulateMonths(sortedByInterest, totalPayment);
      SimulateMonths(sortedByBalance, totalPayment);
      OrdersAccrueInterest(debts, totalPayment);
      Some(Comparison(totalPrincipal,
                      ResultOf(Simulate(sortedByInterest, totalPayment), totalPrincipal),
                      ResultOf(Simulate(sortedByBalance, totalPayment), totalPrincipal)))
  }

  /** With non-negative rates and minimums, neither order accrues negative
      interest. */
  lemma OrdersAccrueInterest(debts: seq<Debt>, budget: real)
    ensures NonNegativeTerms(debts) ==>
      && Simulate(AvalancheOrder(debts), budget).interest >= 0.0
      && Simulate(SnowballOrder(debts), budget).interest >= 0.0
  {
    if NonNegativeTerms(debts) {
      SortByPermutes(debts, NegatedRate);
      SortByPermutes(debts, Balance);
      TermsOfPermutation(AvalancheOrder(debts), debts);
      TermsOfPermutation(SnowballOrder(debts), debts);
      SimulateFromInterest(AvalancheOrder(debts), budget, 0, 0.0);
      SimulateFromInterest(SnowballOrder(debts), budget, 0, 0.0);
    }
  }

  /** A reordering of debts with non-negative terms has non-negative terms. */
  lemma TermsOfPermutation(a: seq<Debt>, b: seq<Debt>)
    requires multiset(a) == multiset(b) && NonNegativeTerms(b)
    ensures NonNegativeTerms(a)
  {
    forall k | 0 <= k < |a| ensures a[k].interestRate >= 0.0 && a[k].minPayment >= 0.0 {
      assert a[k] in multiset(b);
      var j :| 0 <= j < |b| && b[j] == a[k];
    }
  }

  /** The avalanche order is a permutation of the input by interest rate
      from highest to lowest; debts with equal rates keep their input
      order. */
  lemma AvalancheOrdered(debts: seq<Debt>, rate: real)
    ensures var av := AvalancheOrder(debts);
      && multiset(av) == multiset(debts)
      && (forall i, j :: 0 <= i < j < |av| ==> av[i].interestRate >= av[j].interestRate)
      && WithKey(av, NegatedRate, -rate) == WithKey(debts, NegatedRate, -rate)
  {
    var av := AvalancheOrder(debts);
    SortBySorted(debts, NegatedRate);
    SortByPermutes(debts, NegatedRate);
    forall i, j | 0 <= i < j < |av| ensures av[i].interestRate >= av[j].interestRate {
      assert NegatedRate(av[i]) <= NegatedRate(av[j]);
    }
    var k := -rate;
    SortByStable(debts, NegatedRate, k);
  }

  /** The snowball order is a permutation of the input by current balance
      from lowest to highest; debts with equal balances keep their input
      order. */
  lemma SnowballOrdered(debts: seq<Debt>, balance: real)
    ensures var sb := SnowballOrder(debts);
      && multiset(sb) == multiset(debts)
      && (forall i, j :: 0 <= i < j < |sb| ==> sb[i].CurrentBalance() <= sb[j].CurrentBalance())
      && WithKey(sb, Balance, balance) == WithKey(debts, Balance, balance)
  {
    var sb := SnowballOrder(debts);
    SortBySorted(debts, Balance);
    SortByPermutes(debts, Balance);
    forall i, j | 0 <= i < j < |sb| ensures sb[i].CurrentBalance() <= sb[j].CurrentBalance() {
      assert Balance(sb[i]) <= Balance(sb[j]);
    }
    SortByStable(debts, Balance, balance);
  }

  // ---- Properties of the simulation ----

  /** Interest rates and minimum payments that are not negative, as entered
      through the application. */
  predicate NonNegativeTerms(debts: seq<Debt>) {
    forall k :: 0 <= k < |debts| ==> debts[k].interestRate >= 0.0 && debts[k].minPayment >= 0.0
  }

  /** The open debts of `debts`, in order. */
  function OpenDebts(debts: seq<Debt>): seq<Debt>
    decreases |debts|
  {
    if debts == [] then []
    else
      var last := debts[|debts| - 1];
      OpenDebts(debts[..|debts| - 1]) + (if IsOpen(last) then [last] else [])
  }

  /** The sum of the current balances. */
  function Balances(debts: seq<Debt>): real
    decreases |debts|
  {
    if debts == [] then 0.0
    else Balances(debts[..|debts| - 1]) + debts[|debts| - 1].CurrentBalance()
  }

  /** A month's interest on the open debts: the sum of their monthly_interest. */
  function OpenInterest(debts: seq<Debt>): real
    decreases |debts|
  {
    if debts == [] then 0.0
    else
      var last := debts[|debts| - 1];
      OpenInterest(debts[..|debts| - 1]) + (if IsOpen(last) then last.MonthlyInterest() else 0.0)
  }

  /** What one open debt receives in the minimums pass is the least of its
      minimum payment, what it owes after interest, and what is left of the
      budget: a debt is paid less than its minimum only when the budget runs
      dry (it then takes all of it) or the debt is cleared. */
  lemma MinimumStepPays(d: Debt, pool: real)
    requires IsOpen(d) && d.interestRate >= 0.0 && d.minPayment >= 0.0 && pool >= 0.0
    ensures var s := MinimumStep(d, pool);
      var paid := pool - s.pool;
      && s.interest == d.MonthlyInterest() >= 0.0
      && 0.0 <= paid <= d.minPayment
      && paid <= pool
      && paid <= d.CurrentBalance() + s.interest
      && (paid == d.minPayment || s.pool == 0.0 || s.debt.CurrentBalance() == 0.0)
  {
  }

  /** The minimums pass keeps exactly the open debts, in order; only their
      total_paid changes, and none is left with a negative balance. */
  lemma {:induction false} MinimumsPassKeepsOpen(debts: seq<Debt>, pool: real, k: nat)
    requires k < |OpenDebts(debts)|
    ensures var p := MinimumsPass(debts, pool);
      && |p.debts| == |OpenDebts(debts)|
      && p.debts[k] == OpenDebts(debts)[k].(totalPaid := p.debts[k].totalPaid)
      && p.debts[k].CurrentBalance() >= 0.0
    decreases |debts|
  {
    var init := debts[..|debts| - 1];
    var last := debts[|debts| - 1];
    MinimumsPassLength(init, pool);
    if k < |OpenDebts(init)| {
      MinimumsPassKeepsOpen(init, pool, k);
    }
  }

  /** The minimums pass keeps as many debts as are open. */
  lemma {:induction false} MinimumsPassLength(debts: seq<Debt>, pool: real)
    ensures |MinimumsPass(debts, pool).debts| == |OpenDebts(debts)|
    decreases |debts|
  {
    if debts != [] {
      MinimumsPassLength(debts[..|debts| - 1], pool);
    }
  }

  /** The interest a minimums pass adds to total_interest is the sum of the
      monthly interest of the debts still open that month. */
  lemma {:induction false} MinimumsPassInterest(debts: seq<Debt>, pool: real)
    ensures MinimumsPass(debts, pool).interest == OpenInterest(debts)
    decreases |debts|
  {
    if debts != [] {
      MinimumsPassInterest(debts[..|debts| - 1], pool);
    }
  }

  /** With non-negative rates a month's interest is never negative, so
      total_interest never decreases. */
  lemma {:induction false} OpenInterestNonNegative(debts: seq<Debt>)
    requires NonNegativeTerms(debts)
    ensures OpenInterest(debts) >= 0.0
    decreases |debts|
  {
    if debts != [] {
      var last := debts[|debts| - 1];
      OpenInterestNonNegative(debts[..|debts| - 1]);
      if IsOpen(last) {
        assert last.interestRate >= 0.0;
        assert last.MonthlyInterest() >= 0.0;
      }
    }
  }

  /** The budget in the minimums pass never goes below zero and, with
      non-negative minimums and rates, never grows; what left the budget is
      exactly what the open debts' balances fell by, beyond their interest. */
  lemma {:induction false} MinimumsPassBudget(debts: seq<Debt>, pool: real)
    requires pool >= 0.0
    ensures var p := MinimumsPass(debts, pool);
      && p.pool >= 0.0
      && (NonNegativeTerms(debts) ==> p.pool <= pool)
      && Balances(p.debts) == Balances(OpenDebts(debts)) + p.interest - (pool - p.pool)
    decreases |debts|
  {
    if debts != [] {
      var init := debts[..|debts| - 1];
      var last := debts[|debts| - 1];
      MinimumsPassBudget(init, pool);
      var q := MinimumsPass(init, pool);
      if NonNegativeTerms(debts) {
        assert NonNegativeTerms(init) by {
          forall k | 0 <= k < |init| ensures init[k].interestRate >= 0.0 && init[k].minPayment >= 0.0 {
            assert init[k] == debts[k];
          }
        }
      }
      if IsOpen(last) {
        var st := MinimumStep(last, q.pool);
        if NonNegativeTerms(debts) {
          MinimumStepPays(last, q.pool);
        }
        assert (q.debts + [st.debt])[..|q.debts|] == q.debts;
        assert Balances(q.debts + [st.debt]) == Balances(q.debts) + st.debt.CurrentBalance();
        assert OpenDebts(debts) == OpenDebts(init) + [last];
        assert (OpenDebts(init) + [last])[..|OpenDebts(init)|] == OpenDebts(init);
        assert Balances(OpenDebts(debts)) == Balances(OpenDebts(init)) + last.CurrentBalance();
      } else {
        assert OpenDebts(debts) == OpenDebts(init);
      }
    }
  }

  /** The sum of balances after one debt is replaced. */
  lemma {:induction false} BalancesUpdate(debts: seq<Debt>, j: nat, d: Debt)
    requires j < |debts|
    ensures Balances(debts[j := d]) == Balances(debts) - debts[j].CurrentBalance() + d.CurrentBalance()
    decreases |debts|
  {
    var n := |debts| - 1;
    if j < n {
      BalancesUpdate(debts[..n], j, d);
      assert debts[j := d][..n] == debts[..n][j := d];
    } else {
      assert debts[j := d][..n] == debts[..n];
    }
  }

  /** The leftover goes to the first open debt only, never more than it
      owes; the budget stays non-negative and the balances fall by exactly
      what it paid. */
  lemma LeftoverGoesToFirstOpen(debts: seq<Debt>, pool: real)
    requires pool >= 0.0
    ensures var a := Leftover(debts, pool);
      var j := FirstOpen(debts);
      && |a.debts| == |debts|
      && 0.0 <= a.pool <= pool
      && (forall k :: 0 <= k < |debts| && k != j ==> a.debts[k] == debts[k])
      && (a.pool < pool ==> j < |debts| && 0.0 <= a.debts[j].CurrentBalance() < debts[j].CurrentBalance())
      && (a.pool > 0.0 ==> j == |debts| || a.debts[j].CurrentBalance() == 0.0)
      && Balances(a.debts) == Balances(debts) - (pool - a.pool)
  {
    var j := FirstOpen(debts);
    if pool > 0.0 && j < |debts| {
      var a := Leftover(debts, pool);
      BalancesUpdate(debts, j, a.debts[j]);
    }
  }

  /** Every debt the simulation carries into the next month has only had
      its total_paid changed, so the rates and minimums stay those entered. */
  lemma MonthKeepsTerms(debts: seq<Debt>, budget: real)
    requires NonNegativeTerms(debts)
    ensures NonNegativeTerms(Month(debts, budget).debts)
  {
    var p := MinimumsPass(debts, budget);
    MinimumsPassLength(debts, budget);
    OpenDebtsTerms(debts);
    forall k | 0 <= k < |p.debts|
      ensures p.debts[k].interestRate >= 0.0 && p.debts[k].minPayment >= 0.0
    {
      MinimumsPassKeepsOpen(debts, budget, k);
    }
    var a := Leftover(p.debts, p.pool);
    forall k | 0 <= k < |a.debts|
      ensures a.debts[k].interestRate >= 0.0 && a.debts[k].minPayment >= 0.0
    {
      assert a.debts[k].interestRate == p.debts[k].interestRate;
      assert a.debts[k].minPayment == p.debts[k].minPayment;
    }
  }

  lemma {:induction false} OpenDebtsTerms(debts: seq<Debt>)
    requires NonNegativeTerms(debts)
    ensures NonNegativeTerms(OpenDebts(debts))
    decreases |debts|
  {
    if debts != [] {
      var init := debts[..|debts| - 1];
      assert NonNegativeTerms(init) by {
        forall k | 0 <= k < |init| ensures init[k].interestRate >= 0.0 && init[k].minPayment >= 0.0 {
          assert init[k] == debts[k];
        }
      }
      OpenDebtsTerms(init);
    }
  }

  /** One month of the simulation: with a non-negative budget the budget
      stays non-negative, and the open debts' balances grow by the month's
      interest and fall by exactly what was spent from the budget. */
  lemma MonthConservation(debts: seq<Debt>, budget: real)
    requires budget >= 0.0
    ensures var m := Month(debts, budget);
      && m.pool >= 0.0
      && m.interest == OpenInterest(debts)
      && Balances(m.debts) == Balances(OpenDebts(debts)) + m.interest - (budget - m.pool)
  {
    var p := MinimumsPass(debts, budget);
    MinimumsPassBudget(debts, budget);
    MinimumsPassInterest(debts, budget);
    LeftoverGoesToFirstOpen(p.debts, p.pool);
  }

  /** The simulation runs at least one month for a non-empty list, never
      more than 1200, and none for an empty one. */
  lemma {:induction false} SimulateFromMonths(debts: seq<Debt>, budget: real, months: nat, interest: real)
    requires months <= SimulationCap
    ensures var r := SimulateFrom(debts, budget, months, interest);
      && months <= r.months <= SimulationCap
      && (debts != [] && months < SimulationCap ==> r.months > months)
      && (debts == [] ==> r == Outcome(months, interest))
    decreases SimulationCap - months
  {
    if debts != [] && months < SimulationCap {
      var m := Month(debts, budget);
      if !AllClosed(m.debts) {
        SimulateFromMonths(m.debts, budget, months + 1, interest + m.interest);
      }
    }
  }

  lemma SimulateMonths(debts: seq<Debt>, budget: real)
    ensures var r := Simulate(debts, budget);
      && (debts == [] ==> r == Outcome(0, 0.0))
      && (debts != [] ==> 1 <= r.months <= SimulationCap)
  {
    SimulateFromMonths(debts, budget, 0, 0.0);
  }

  /** With non-negative rates total_interest never decreases over the run. */
  lemma {:induction false} SimulateFromInterest(debts: seq<Debt>, budget: real, months: nat, interest: real)
    requires months <= SimulationCap
    requires NonNegativeTerms(debts)
    ensures SimulateFrom(debts, budget, months, interest).interest >= interest
    decreases SimulationCap - months
  {
    if debts != [] && months < SimulationCap {
      var m := Month(debts, budget);
      MinimumsPassInterest(debts, budget);
      OpenInterestNonNegative(debts);
      if !AllClosed(m.debts) {
        MonthKeepsTerms(debts, budget);
        SimulateFromInterest(m.debts, budget, months + 1, interest + m.interest);
      }
    }
  }
}
