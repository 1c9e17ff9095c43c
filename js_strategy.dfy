/** The browser's multi-debt strategy simulation (simulateStrategy,
    calculateMonthsToPayoff and calculateTotalInterest in frontend.js).
    Unlike the back end, every open debt pays its own minimum; only the
    extra amount is shared, cascading down the priority order. Closed debts
    stay in the array. */
module JsStrategy {
  import opened Money
  import opened Sorting
  import opened JsDebt

  /** The simulations stop after 1000 months. */
  const JsCap: nat := 1000

  predicate IsOpen(d: Debt) {
    d.currentBalance > 0.0
  }

  /** debts.some(debt => debt.current_balance > 0). */
  predicate AnyOpen(debts: seq<Debt>) {
    debts != [] && (AnyOpen(debts[..|debts| - 1]) || IsOpen(debts[|debts| - 1]))
  }

  lemma {:induction false} AnyOpenAt(debts: seq<Debt>)
    ensures AnyOpen(debts) <==> exists i :: 0 <= i < |debts| && IsOpen(debts[i])
  {
    if debts != [] {
      var init := debts[..|debts| - 1];
      AnyOpenAt(init);
      if AnyOpen(init) {
        var i :| 0 <= i < |init| && IsOpen(init[i]);
        assert debts[i] == init[i];
      }
      if exists i :: 0 <= i < |debts| && IsOpen(debts[i]) {
        var i :| 0 <= i < |debts| && IsOpen(debts[i]);
        if i < |init| {
          assert init[i] == debts[i];
        }
      }
    }
  }

  /** debts.reduce((sum, debt) => sum + debt.current_balance, 0). */
  function TotalBalance(debts: seq<Debt>): real {
    if debts == [] then 0.0
    else TotalBalance(debts[..|debts| - 1]) + debts[|debts| - 1].currentBalance
  }

  lemma TotalBalanceAppend(debts: seq<Debt>, d: Debt)
    ensures TotalBalance(debts + [d]) == TotalBalance(debts) + d.currentBalance
  {
    assert (debts + [d])[..|debts|] == debts;
  }

  // ---------------------------------------------------------------------
  // One month: interest and minimum payments, then the extra amount.

  /** What one debt's turn in the first loop does: nothing to a closed
      debt; an open one accrues its interest and pays its minimum, or what
      it owes if that is less. */
  datatype Charge = Charge(debt: Debt, interest: real, paid: real)

  function MinimumCharge(d: Debt): (c: Charge)
    ensures c.debt == d.(currentBalance := c.debt.currentBalance)
    ensures c.debt.currentBalance == d.currentBalance + c.interest - c.paid
    ensures !IsOpen(d) ==> c == Charge(d, 0.0, 0.0)
    ensures IsOpen(d) ==> c.interest == d.currentBalance * MonthlyRate(d.interestRate)
    ensures IsOpen(d) ==> c.paid == Min(d.minPayment, d.currentBalance + c.interest)
    ensures IsOpen(d) ==> c.debt.currentBalance >= 0.0
  {
    if !IsOpen(d) then Charge(d, 0.0, 0.0)
    else
      var interest := d.currentBalance * MonthlyRate(d.interestRate);
      var owed := d.currentBalance + interest;
      var payment := Min(d.minPayment, owed);
      Charge(d.(currentBalance := owed - payment), interest, payment)
  }

  /** The first loop of a month over the whole array. */
  datatype Pass = Pass(debts: seq<Debt>, interest: real, paid: real)

  function MinimumsPass(debts: seq<Debt>): (p: Pass)
    ensures |p.debts| == |debts|
  {
    if debts == [] then Pass([], 0.0, 0.0)
    else
      var p := MinimumsPass(debts[..|debts| - 1]);
      var c := MinimumCharge(debts[|debts| - 1]);
      Pass(p.debts + [c.debt], p.interest + c.interest, p.paid + c.paid)
  }

  /** The second loop of a month: the extra amount still unspent goes to
      each open debt in turn, as much as it owes. */
  datatype Spread = Spread(debts: seq<Debt>, remaining: real)

  function ExtraPass(debts: seq<Debt>, extra: real): (s: Spread)
    ensures |s.debts| == |debts|
  {
    if debts == [] then Spread([], extra)
    else
      var s := ExtraPass(debts[..|debts| - 1], extra);
      var d := debts[|debts| - 1];
      if !IsOpen(d) || s.remaining <= 0.0 then Spread(s.debts + [d], s.remaining)
      else
        var x := Min(s.remaining, d.currentBalance);
        Spread(s.debts + [d.(currentBalance := d.currentBalance - x)], s.remaining - x)
  }

  /** A whole month: the debts after both loops, the interest charged and
      everything paid (minimums plus the part of the extra spent). */
  datatype MonthResult = MonthResult(debts: seq<Debt>, interest: real, paid: real)

  function MonthOf(debts: seq<Debt>, extra: real): (m: MonthResult)
    ensures |m.debts| == |debts|
  {
    var p := MinimumsPass(debts);
    var s := ExtraPass(p.debts, extra);
    MonthResult(s.debts, p.interest, p.paid + (extra - s.remaining))
  }

  // ---------------------------------------------------------------------
  // The whole simulation.

  /** The variables of the monthly loop: the working debts, the month
      count, the running totals and the total balance recorded at the start
      and after each month. */
  datatype Sim = Sim(debts: seq<Debt>, months: nat, totalPaid: real, interestPaid: real, balances: seq<real>)

  /** Before the first month: nothing paid, the opening total recorded. */
  function Start(debts: seq<Debt>): Sim {
    Sim(debts, 0, 0.0, 0.0, [TotalBalance(debts)])
  }

  /** One turn of the monthly loop. */
  function Step(s: Sim, extra: real): (t: Sim)
    ensures t.months == s.months + 1
  {
    var m := MonthOf(s.debts, extra);
    Sim(m.debts, s.months + 1, s.totalPaid + m.paid, s.interestPaid + m.interest,
        s.balances + [TotalBalance(m.debts)])
  }

  /** The loop runs while some debt is open and the cap is not reached. */
  predicate Continues(s: Sim) {
    AnyOpen(s.debts) && s.months < JsCap
  }

  /** Where the monthly loop ends, entered in state `s`. */
  function Finish(s: Sim, extra: real): Sim
    requires s.months <= JsCap
    decreases JsCap - s.months
  {
    if Continues(s) then Finish(Step(s, extra), extra) else s
  }

  /** The loop from the start. */
  function RunOf(debts: seq<Debt>, extra: real): Sim {
    Finish(Start(debts), extra)
  }

  function NegatedRate(d: Debt): real {
    -d.interestRate
  }

  function Balance(d: Debt): real {
    d.currentBalance
  }

  /** The copy simulateStrategy sorts: by rate, highest first, under
      "avalanche"; by current balance, lowest first, under any other name.
      Array.prototype.sort is stable. */
  function StrategyOrder(debts: seq<Debt>, strategy: string): seq<Debt> {
    if strategy == "avalanche" then SortBy(debts, NegatedRate) else SortBy(debts, Balance)
  }

  /** What simulateStrategy returns. */
  datatype StrategyResult = StrategyResult(
    months: nat,
    totalPaid: real,
    interestPaid: real,
    balances: seq<real>,
    savedMonths: int,
    savedInterest: real)

  /** Specification of simulateStrategy: the run on the sorted copy, and
      what it saves against the same copy run without the extra. */
  function StrategySpec(debts: seq<Debt>, strategy: string, extra: real): StrategyResult {
    var sorted := StrategyOrder(debts, strategy);
    var r := RunOf(sorted, extra);
    var baseline := RunOf(sorted, 0.0);
    StrategyResult(r.months, r.totalPaid, r.interestPaid, r.balances,
                   baseline.months - r.months, baseline.interestPaid - r.interestPaid)
  }

  // ---------------------------------------------------------------------
  // The browser code.

  /** simulateStrategy. The debts are a value, so the caller's array is
      never touched, as the deep copy guarantees in the browser. */
  method SimulateStrategy(debts: seq<Debt>, strategy: string, extraPayment: real)
    returns (result: StrategyResult)
    ensures result == StrategySpec(debts, strategy, extraPayment)
  {
    var debtsCopy := StrategyOrder(debts, strategy);
    var sorted := debtsCopy;
    var month: nat := 0;
    var totalPaid := 0.0;
    var interestPaid := 0.0;
    var balances := [TotalBalance(debtsCopy)];
    while AnyOpen(debtsCopy) && month < 1000
      invariant month <= JsCap
      invariant Finish(Sim(debtsCopy, month, totalPaid, interestPaid, balances), extraPayment)
             == RunOf(sorted, extraPayment)
      decreases JsCap - month
    {
      ghost var s := Sim(debtsCopy, month, totalPaid, interestPaid, balances);
      ghost var t := Step(s, extraPayment);
      assert Finish(s, extraPayment) == Finish(t, extraPayment);
      month := month + 1;
      var remainingExtra := extraPayment;
      debtsCopy, interestPaid, totalPaid := PayMinimums(debtsCopy, interestPaid, totalPaid);
      debtsCopy, remainingExtra, totalPaid := PayExtra(debtsCopy, remainingExtra, totalPaid);
      var totalBalance := TotalBalance(debtsCopy);
      balances := balances + [totalBalance];
      assert t == Sim(debtsCopy, month, totalPaid, interestPaid, balances);
    }
    var baselineMonths := CalculateMonthsToPayoff(sorted, 0.0);
    var baselineInterest := CalculateTotalInterest(sorted, 0.0);
    result := StrategyResult(month, totalPaid, interestPaid, balances,
                             baselineMonths - month, baselineInterest - interestPaid);
  }

  /** calculateMonthsToPayoff: the same loop, counting months only; the
      other variables of the loop are kept as ghosts. */
  method CalculateMonthsToPayoff(debts: seq<Debt>, extraPayment: real) returns (month: nat)
    ensures month == RunOf(debts, extraPayment).months
  {
    var working := debts;
    month := 0;
    ghost var totalPaid, interestPaid, balances := 0.0, 0.0, [TotalBalance(debts)];
    while AnyOpen(working) && month < 1000
      invariant month <= JsCap
      invariant Finish(Sim(working, month, totalPaid, interestPaid, balances), extraPayment)
             == RunOf(debts, extraPayment)
      decreases JsCap - month
    {
      ghost var s := Sim(working, month, totalPaid, interestPaid, balances);
      ghost var t := Step(s, extraPayment);
      assert Finish(s, extraPayment) == Finish(t, extraPayment);
      month := month + 1;
      var remainingExtra := extraPayment;
      var interest, paid;
      working, interest, paid := PayMinimums(working, 0.0, 0.0);
      working, remainingExtra, paid := PayExtra(working, remainingExtra, paid);
      totalPaid, interestPaid := totalPaid + paid, interestPaid + interest;
      balances := balances + [TotalBalance(working)];
      assert t == Sim(working, month, totalPaid, interestPaid, balances);
    }
  }

  /** calculateTotalInterest: the same loop, adding up interest only; the
      other variables of the loop are kept as ghosts. */
  method CalculateTotalInterest(debts: seq<Debt>, extraPayment: real) returns (totalInterest: real)
    ensures totalInterest == RunOf(debts, extraPayment).interestPaid
  {
    var working := debts;
    var month: nat := 0;
    totalInterest := 0.0;
    ghost var totalPaid, balances := 0.0, [TotalBalance(debts)];
    while AnyOpen(working) && month < 1000
      invariant month <= JsCap
      invariant Finish(Sim(working, month, totalPaid, totalInterest, balances), extraPayment)
             == RunOf(debts, extraPayment)
      decreases JsCap - month
    {
      ghost var s := Sim(working, month, totalPaid, totalInterest, balances);
      ghost var t := Step(s, extraPayment);
      assert Finish(s, extraPayment) == Finish(t, extraPayment);
      month := month + 1;
      var remainingExtra := extraPayment;
      var paid;
      working, totalInterest, paid := PayMinimums(working, totalInterest, 0.0);
      working, remainingExtra, paid := PayExtra(working, remainingExtra, paid);
      totalPaid := totalPaid + paid;
      balances := balances + [TotalBalance(working)];
      assert t == Sim(working, month, totalPaid, totalInterest, balances);
    }
  }

  /** The first loop of a month: each open debt accrues interest and pays
      its minimum, the interest and the payment being added to the running
      totals. */
  method PayMinimums(debts: seq<Debt>, interestPaid: real, totalPaid: real)
    returns (working: seq<Debt>, interestAfter: real, paidAfter: real)
    ensures working == MinimumsPass(debts).debts
    ensures interestAfter == interestPaid + MinimumsPass(debts).interest
    ensures paidAfter == totalPaid + MinimumsPass(debts).paid
  {
    working := debts;
    interestAfter := interestPaid;
    paidAfter := totalPaid;
    for i := 0 to |debts|
      invariant |working| == |debts|
      invariant working[..i] == MinimumsPass(debts[..i]).debts
      invariant working[i..] == debts[i..]
      invariant interestAfter == interestPaid + MinimumsPass(debts[..i]).interest
      invariant paidAfter == totalPaid + MinimumsPass(debts[..i]).paid
    {
      assert debts[..i + 1][..i] == debts[..i];
      assert working[i] == debts[i];
      assert working[i + 1..] == working[i..][1..];
      if working[i].currentBalance <= 0.0 {
        assert working[..i + 1] == working[..i] + [debts[i]];
        continue;
      }
      var debt, interest, payment := MinimumOfDebt(working[i]);
      interestAfter := interestAfter + interest;
      paidAfter := paidAfter + payment;
      ghost var prev := working;
      working := working[i := debt];
      assert working[..i] == prev[..i];
      assert working[..i + 1] == working[..i] + [debt];
      assert working[i + 1..] == prev[i + 1..];
    }
    assert debts[..|debts|] == debts;
  }

  /** One open debt's turn in the first loop. */
  method MinimumOfDebt(debt: Debt) returns (after: Debt, interest: real, payment: real)
    requires IsOpen(debt)
    ensures Charge(after, interest, payment) == MinimumCharge(debt)
  {
    var monthlyRate := debt.interestRate / 100.0 / 12.0;
    assert monthlyRate == MonthlyRate(debt.interestRate);
    interest := debt.currentBalance * monthlyRate;
    var balance := debt.currentBalance + interest;
    payment := Min(debt.minPayment, balance);
    balance := balance - payment;
    after := debt.(currentBalance := balance);
  }

  /** The second loop of a month: the extra goes to open debts in order,
      each taking as much as it owes, until it is used up. */
  method PayExtra(debts: seq<Debt>, extra: real, totalPaid: real)
    returns (working: seq<Debt>, remainingExtra: real, paidAfter: real)
    ensures Spread(working, remainingExtra) == ExtraPass(debts, extra)
    ensures paidAfter == totalPaid + (extra - remainingExtra)
  {
    working := debts;
    remainingExtra := extra;
    paidAfter := totalPaid;
    for i := 0 to |debts|
      invariant |working| == |debts|
      invariant Spread(working[..i], remainingExtra) == ExtraPass(debts[..i], extra)
      invariant working[i..] == debts[i..]
      invariant paidAfter == totalPaid + (extra - remainingExtra)
    {
      assert debts[..i + 1][..i] == debts[..i];
      assert working[i] == debts[i];
      assert working[i + 1..] == working[i..][1..];
      var debt := working[i];
      if debt.currentBalance <= 0.0 || remainingExtra <= 0.0 {
        assert working[..i + 1] == working[..i] + [debt];
        continue;
      }
      var extraForDebt := Min(remainingExtra, debt.currentBalance);
      ghost var prev := working;
      working := working[i := debt.(currentBalance := debt.currentBalance - extraForDebt)];
      remainingExtra := remainingExtra - extraForDebt;
      paidAfter := paidAfter + extraForDebt;
      assert working[..i] == prev[..i];
      assert working[..i + 1] == working[..i] + [working[i]];
      assert working[i + 1..] == prev[i + 1..];
    }
    assert debts[..|debts|] == debts;
    assert working[..|debts|] == working;
  }

  // ---------------------------------------------------------------------
  // Properties.

  /** reduce adds up over a concatenation. */
  lemma {:induction false} TotalBalanceConcat(a: seq<Debt>, b: seq<Debt>)
    ensures TotalBalance(a + b) == TotalBalance(a) + TotalBalance(b)
    decreases |b|
  {
    if b == [] {
      assert a + b == a;
    } else {
      var init := b[..|b| - 1];
      TotalBalanceConcat(a, init);
      assert (a + b)[..|a + b| - 1] == a + init;
    }
  }

  /** The first loop moves the total balance by exactly the interest it
      charges minus the minimums it collects. */
  lemma {:induction false} MinimumsPassConserves(debts: seq<Debt>)
    ensures TotalBalance(MinimumsPass(debts).debts)
         == TotalBalance(debts) + MinimumsPass(debts).interest - MinimumsPass(debts).paid
  {
    if debts != [] {
      var init := debts[..|debts| - 1];
      MinimumsPassConserves(init);
      TotalBalanceAppend(MinimumsPass(init).debts, MinimumCharge(debts[|debts| - 1]).debt);
    }
  }

  /** Each debt's turn in the first loop depends on that debt alone. */
  lemma {:induction false} MinimumsPassAt(debts: seq<Debt>, k: int)
    requires 0 <= k < |debts|
    ensures MinimumsPass(debts).debts[k] == MinimumCharge(debts[k]).debt
  {
    var init := debts[..|debts| - 1];
    if k < |init| {
      MinimumsPassAt(init, k);
      assert init[k] == debts[k];
    }
  }

  /** With non-negative rates no interest is ever negative. */
  lemma {:induction false} MinimumsPassInterest(debts: seq<Debt>)
    requires forall i :: 0 <= i < |debts| ==> debts[i].interestRate >= 0.0
    ensures MinimumsPass(debts).interest >= 0.0
  {
    if debts != [] {
      var init := debts[..|debts| - 1];
      assert forall i :: 0 <= i < |init| ==> init[i] == debts[i];
      MinimumsPassInterest(init);
      var d := debts[|debts| - 1];
      assert d.interestRate >= 0.0;
      if IsOpen(d) {
        assert MonthlyRate(d.interestRate) >= 0.0;
      }
    }
  }

  /** The second loop spends the extra on balances only: the total falls by
      what it spent; with no positive extra nothing at all happens; and it
      never spends more than the extra. */
  lemma {:induction false} ExtraPassSpends(debts: seq<Debt>, extra: real)
    ensures var s := ExtraPass(debts, extra);
      && TotalBalance(s.debts) == TotalBalance(debts) - (extra - s.remaining)
      && (extra <= 0.0 ==> s == Spread(debts, extra))
      && (extra > 0.0 ==> 0.0 <= s.remaining <= extra)
  {
    if debts != [] {
      var init, d := debts[..|debts| - 1], debts[|debts| - 1];
      ExtraPassSpends(init, extra);
      var s := ExtraPass(init, extra);
      if !IsOpen(d) || s.remaining <= 0.0 {
        TotalBalanceAppend(s.debts, d);
        assert init + [d] == debts;
      } else {
        var x := Min(s.remaining, d.currentBalance);
        TotalBalanceAppend(s.debts, d.(currentBalance := d.currentBalance - x));
      }
    }
  }

  /** In the second loop only balances change; a closed debt is left alone
      and an open one keeps a balance between zero and what it was. */
  lemma {:induction false} ExtraPassAt(debts: seq<Debt>, extra: real, k: int)
    requires 0 <= k < |debts|
    ensures var e := ExtraPass(debts, extra).debts[k];
      && e == debts[k].(currentBalance := e.currentBalance)
      && (!IsOpen(debts[k]) ==> e == debts[k])
      && (IsOpen(debts[k]) ==> 0.0 <= e.currentBalance <= debts[k].currentBalance)
  {
    var init := debts[..|debts| - 1];
    if k < |init| {
      ExtraPassAt(init, extra, k);
      assert init[k] == debts[k];
    }
  }

  /** The second loop over a prefix of the debts does what the whole loop
      does to that prefix. */
  lemma {:induction false} ExtraPassPrefix(debts: seq<Debt>, extra: real, n: int, k: int)
    requires 0 <= k < n <= |debts|
    ensures ExtraPass(debts, extra).debts[k] == ExtraPass(debts[..n], extra).debts[k]
  {
    if n < |debts| {
      var init := debts[..|debts| - 1];
      ExtraPassPrefix(init, extra, n, k);
      assert init[..n] == debts[..n];
    } else {
      assert debts[..n] == debts;
    }
  }

  /** Extra left over at the end of the second loop means every debt is
      paid off. */
  lemma {:induction false} ExtraLeftover(debts: seq<Debt>, extra: real, k: int)
    requires 0 <= k < |debts|
    requires ExtraPass(debts, extra).remaining > 0.0
    ensures !IsOpen(ExtraPass(debts, extra).debts[k])
  {
    var init, d := debts[..|debts| - 1], debts[|debts| - 1];
    var s := ExtraPass(init, extra);
    assert s.remaining > 0.0;
    if k < |init| {
      ExtraLeftover(init, extra, k);
    }
  }

  /** The priority order at work: the extra reaches a debt only once every
      debt ahead of it in the order is paid off. */
  lemma ExtraCascade(debts: seq<Debt>, extra: real, j: int, k: int)
    requires 0 <= j < k < |debts|
    requires ExtraPass(debts, extra).debts[k] != debts[k]
    ensures !IsOpen(ExtraPass(debts, extra).debts[j])
  {
    ExtraPassPrefix(debts, extra, k + 1, k);
    ExtraPassPrefix(debts, extra, k, j);
    var pre := debts[..k + 1];
    assert pre[..k] == debts[..k];
    assert pre[k] == debts[k];
    ExtraLeftover(debts[..k], extra, j);
  }

  /** A month moves the total balance by the interest charged minus
      everything paid. */
  lemma MonthConserves(debts: seq<Debt>, extra: real)
    ensures TotalBalance(MonthOf(debts, extra).debts)
         == TotalBalance(debts) + MonthOf(debts, extra).interest - MonthOf(debts, extra).paid
  {
    MinimumsPassConserves(debts);
    ExtraPassSpends(MinimumsPass(debts).debts, extra);
  }

  /** A month changes balances only. */
  lemma MonthKeepsTerms(debts: seq<Debt>, extra: real, k: int)
    requires 0 <= k < |debts|
    ensures MonthOf(debts, extra).debts[k]
         == debts[k].(currentBalance := MonthOf(debts, extra).debts[k].currentBalance)
  {
    MinimumsPassAt(debts, k);
    ExtraPassAt(MinimumsPass(debts).debts, extra, k);
  }

  /** Balances and rates that are not negative. */
  predicate NonNegative(debts: seq<Debt>) {
    forall i :: 0 <= i < |debts| ==> debts[i].currentBalance >= 0.0 && debts[i].interestRate >= 0.0
  }

  lemma {:induction false} TotalBalanceNonNegative(debts: seq<Debt>)
    requires NonNegative(debts)
    ensures TotalBalance(debts) >= 0.0
    ensures !AnyOpen(debts) ==> TotalBalance(debts) == 0.0
  {
    if debts != [] {
      var init := debts[..|debts| - 1];
      assert forall i :: 0 <= i < |init| ==> init[i] == debts[i];
      TotalBalanceNonNegative(init);
    }
  }

  /** A month keeps balances and rates non-negative and charges no
      negative interest. */
  lemma MonthKeepsNonNegative(debts: seq<Debt>, extra: real)
    requires NonNegative(debts)
    ensures NonNegative(MonthOf(debts, extra).debts)
    ensures MonthOf(debts, extra).interest >= 0.0
  {
    MinimumsPassInterest(debts);
    var p := MinimumsPass(debts).debts;
    forall k | 0 <= k < |debts|
      ensures MonthOf(debts, extra).debts[k].currentBalance >= 0.0
      ensures MonthOf(debts, extra).debts[k].interestRate >= 0.0
    {
      MinimumsPassAt(debts, k);
      ExtraPassAt(p, extra, k);
    }
  }

  /** What the loop keeps about its record of balances: one entry per month
      plus the opening one, the last being the current total. */
  predicate Recorded(s: Sim) {
    |s.balances| == s.months + 1 && s.balances[s.months] == TotalBalance(s.debts)
  }

  /** The loop only extends the record, stops within the cap, and stops
      early only once every debt is paid off. */
  lemma {:induction false} FinishRecords(s: Sim, extra: real)
    requires s.months <= JsCap && Recorded(s)
    ensures var r := Finish(s, extra);
      && Recorded(r)
      && s.months <= r.months <= JsCap
      && |r.debts| == |s.debts|
      && r.balances[..|s.balances|] == s.balances
      && (r.months < JsCap ==> !AnyOpen(r.debts))
      && (r.months == s.months <==> !Continues(s))
    decreases JsCap - s.months
  {
    if Continues(s) {
      var t := Step(s, extra);
      FinishRecords(t, extra);
      var r := Finish(t, extra);
      assert r.balances[..|s.balances|] == r.balances[..|t.balances|][..|s.balances|];
    }
  }

  /** Over the whole loop, what was paid is what the balance fell by plus
      the interest charged. */
  lemma {:induction false} FinishConserves(s: Sim, extra: real)
    requires s.months <= JsCap
    ensures Finish(s, extra).totalPaid - s.totalPaid
         == TotalBalance(s.debts) - TotalBalance(Finish(s, extra).debts)
            + (Finish(s, extra).interestPaid - s.interestPaid)
    decreases JsCap - s.months
  {
    if Continues(s) {
      MonthConserves(s.debts, extra);
      FinishConserves(Step(s, extra), extra);
    }
  }

  /** Every recorded balance at or above zero. */
  predicate NonNegativeRecord(s: Sim) {
    NonNegative(s.debts) && forall i :: 0 <= i < |s.balances| ==> s.balances[i] >= 0.0
  }

  /** From non-negative balances and rates the loop records no negative
      total and charges no negative interest. */
  lemma {:induction false} FinishNonNegative(s: Sim, extra: real)
    requires s.months <= JsCap && NonNegativeRecord(s)
    ensures NonNegativeRecord(Finish(s, extra))
    ensures Finish(s, extra).interestPaid >= s.interestPaid
    decreases JsCap - s.months
  {
    if Continues(s) {
      var m := MonthOf(s.debts, extra);
      MonthKeepsNonNegative(s.debts, extra);
      TotalBalanceNonNegative(m.debts);
      FinishNonNegative(Step(s, extra), extra);
    }
  }

  /** The loop from the start: at most 1000 months, one recorded total per
      month after the opening one, no month at all exactly when nothing is
      owed, everything paid off when it stops before the cap, and the
      payments equal to the opening total plus interest less what is still
      owed. */
  lemma RunShape(debts: seq<Debt>, extra: real)
    ensures var r := RunOf(debts, extra);
      && r.months <= JsCap
      && |r.debts| == |debts|
      && |r.balances| == r.months + 1
      && r.balances[0] == TotalBalance(debts)
      && r.balances[r.months] == TotalBalance(r.debts)
      && (r.months == 0 <==> !AnyOpen(debts))
      && (r.months < JsCap ==> !AnyOpen(r.debts))
      && r.totalPaid == TotalBalance(debts) + r.interestPaid - TotalBalance(r.debts)
  {
    var r := RunOf(debts, extra);
    FinishRecords(Start(debts), extra);
    FinishConserves(Start(debts), extra);
    assert r.balances[0] == r.balances[..1][0];
  }

  /** From non-negative balances and rates: no recorded total is negative,
      the interest is not negative, and a run that ends before the cap has
      paid exactly the opening total plus the interest. */
  lemma RunNonNegative(debts: seq<Debt>, extra: real)
    requires NonNegative(debts)
    ensures var r := RunOf(debts, extra);
      && (forall i :: 0 <= i < |r.balances| ==> r.balances[i] >= 0.0)
      && r.interestPaid >= 0.0
      && r.totalPaid <= TotalBalance(debts) + r.interestPaid
      && (r.months < JsCap ==> r.totalPaid == TotalBalance(debts) + r.interestPaid)
  {
    var r := RunOf(debts, extra);
    TotalBalanceNonNegative(debts);
    FinishNonNegative(Start(debts), extra);
    RunShape(debts, extra);
    TotalBalanceNonNegative(r.debts);
  }

  /** The sorted copy holds the same debts: highest rate first under
      "avalanche", lowest balance first otherwise. */
  lemma StrategyOrdered(debts: seq<Debt>, strategy: string)
    ensures var r := StrategyOrder(debts, strategy);
      && multiset(r) == multiset(debts)
      && (strategy == "avalanche" ==>
            forall i, j :: 0 <= i < j < |r| ==> r[i].interestRate >= r[j].interestRate)
      && (strategy != "avalanche" ==>
            forall i, j :: 0 <= i < j < |r| ==> r[i].currentBalance <= r[j].currentBalance)
  {
    if strategy == "avalanche" {
      SortBySorted(debts, NegatedRate);
      SortByPermutes(debts, NegatedRate);
    } else {
      SortBySorted(debts, Balance);
      SortByPermutes(debts, Balance);
    }
  }

  /** Ties keep their order, as Array.prototype.sort is stable: the debts
      sharing a rate (avalanche) or a balance (otherwise) appear in the copy
      in the order they had. */
  lemma StrategyStable(debts: seq<Debt>, strategy: string, k: real)
    ensures strategy == "avalanche" ==>
      WithKey(StrategyOrder(debts, strategy), NegatedRate, -k) == WithKey(debts, NegatedRate, -k)
    ensures strategy != "avalanche" ==>
      WithKey(StrategyOrder(debts, strategy), Balance, k) == WithKey(debts, Balance, k)
  {
    SortByStable(debts, NegatedRate, -k);
    SortByStable(debts, Balance, k);
  }

  /** Inserting a debt anywhere adds its balance to the total. */
  lemma TotalBalanceInsert(t: seq<Debt>, x: Debt, p: nat)
    requires p <= |t|
    ensures TotalBalance(t[..p] + [x] + t[p..]) == TotalBalance(t) + x.currentBalance
  {
    TotalBalanceConcat(t[..p] + [x], t[p..]);
    TotalBalanceAppend(t[..p], x);
    TotalBalanceConcat(t[..p], t[p..]);
    assert t[..p] + t[p..] == t;
  }

  /** Sorting does not change the total balance. */
  lemma {:induction false} SortByTotal(debts: seq<Debt>, key: Debt -> real)
    ensures TotalBalance(SortBy(debts, key)) == TotalBalance(debts)
  {
    if debts != [] {
      var init, x := debts[..|debts| - 1], debts[|debts| - 1];
      var t := SortBy(init, key);
      SortByTotal(init, key);
      assert SortBy(debts, key) == InsertBy(x, t, key);
      TotalBalanceInsert(t, x, InsertPos(x, t, key));
      assert TotalBalance(debts) == TotalBalance(init) + x.currentBalance;
    }
  }

  /** Sorting does not change whether anything is owed. */
  lemma SortedAnyOpen(a: seq<Debt>, b: seq<Debt>)
    requires multiset(a) == multiset(b)
    ensures AnyOpen(a) <==> AnyOpen(b)
  {
    AnyOpenAt(a);
    AnyOpenAt(b);
    if AnyOpen(a) {
      var i :| 0 <= i < |a| && IsOpen(a[i]);
      assert a[i] in multiset(b);
      var j :| 0 <= j < |b| && b[j] == a[i];
    }
    if AnyOpen(b) {
      var j :| 0 <= j < |b| && IsOpen(b[j]);
      assert b[j] in multiset(a);
      var i :| 0 <= i < |a| && a[i] == b[j];
    }
  }

  /** What simulateStrategy reports, in terms of the caller's debts: at
      most 1000 months, one total per month after the opening total of all
      the debts, no month exactly when nothing is owed, payments equal to
      that opening total plus interest less what is still owed, and nothing
      saved when there is no extra payment. */
  lemma StrategyReport(debts: seq<Debt>, strategy: string, extra: real)
    ensures var r := StrategySpec(debts, strategy, extra);
      && r.months <= JsCap
      && |r.balances| == r.months + 1
      && r.balances[0] == TotalBalance(debts)
      && (r.months == 0 <==> !AnyOpen(debts))
      && r.totalPaid == TotalBalance(debts) + r.interestPaid - r.balances[r.months]
      && (extra == 0.0 ==> r.savedMonths == 0 && r.savedInterest == 0.0)
  {
    var sorted := StrategyOrder(debts, strategy);
    RunShape(sorted, extra);
    StrategyOrdered(debts, strategy);
    SortedAnyOpen(sorted, debts);
    SortByTotal(debts, NegatedRate);
    SortByTotal(debts, Balance);
  }
}
