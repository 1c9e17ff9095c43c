/** The browser's in-memory ledger (frontend.js): the global `debts` and
    `payments` arrays and the operations that change them — addDebt,
    makePayment, deleteDebt and recalculateDebtBalances. */
module JsLedger {
  import opened Wrappers
  import opened Money
  import opened JsDebt

  function DebtId(d: Debt): int {
    d.id
  }

  function PaymentId(p: Payment): int {
    p.id
  }

  function PaymentDebtId(p: Payment): int {
    p.debtId
  }

  /** No two elements share a key. */
  predicate Unique<T>(s: seq<T>, key: T -> int) {
    forall i, j :: 0 <= i < j < |s| ==> key(s[i]) != key(s[j])
  }

  // ---------------------------------------------------------------------
  // Id allocation.

  /** Math.max over the keys of a non-empty array. */
  function MaxKey<T>(s: seq<T>, key: T -> int): (m: int)
    requires s != []
    ensures forall i :: 0 <= i < |s| ==> key(s[i]) <= m
    ensures exists i :: 0 <= i < |s| && key(s[i]) == m
  {
    if |s| == 1 then key(s[0])
    else
      var m := MaxKey(s[..|s| - 1], key);
      var k := key(s[|s| - 1]);
      if m >= k then m else k
  }

  /** The id addDebt and makePayment allocate: one above the largest id in
      use, or 1 for an empty array. It is above every id in use. */
  function NextId<T>(s: seq<T>, key: T -> int): (r: int)
    ensures forall i :: 0 <= i < |s| ==> key(s[i]) < r
    ensures s == [] ==> r == 1
  {
    if |s| > 0 then MaxKey(s, key) + 1 else 1
  }

  // ---------------------------------------------------------------------
  // Looking debts up.

  /** debts.find(d => d.id === id), as the position of the first match. */
  function FindDebt(debts: seq<Debt>, id: int): (r: Option<nat>)
    ensures r.None? ==> forall i :: 0 <= i < |debts| ==> debts[i].id != id
    ensures r.Some? ==> r.value < |debts| && debts[r.value].id == id
    ensures r.Some? ==> forall i :: 0 <= i < r.value ==> debts[i].id != id
  {
    if debts == [] then None
    else if debts[0].id == id then Some(0)
    else match FindDebt(debts[1..], id)
      case None => None
      case Some(k) => Some(k + 1)
  }

  /** With unique ids the first match is the only one. */
  lemma FindUnique(debts: seq<Debt>, k: int)
    requires Unique(debts, DebtId) && 0 <= k < |debts|
    ensures FindDebt(debts, debts[k].id) == Some(k)
  {
  }

  /** The lookup depends on the ids alone. */
  lemma {:induction false} FindSameIds(a: seq<Debt>, b: seq<Debt>, id: int)
    requires |a| == |b|
    requires forall i :: 0 <= i < |a| ==> a[i].id == b[i].id
    ensures FindDebt(a, id) == FindDebt(b, id)
  {
    if a != [] && a[0].id != id {
      FindSameIds(a[1..], b[1..], id);
    }
  }

  // ---------------------------------------------------------------------
  // What one payment does to its debt.

  /** The balance update of makePayment and recalculateDebtBalances: the
      amount joins total_paid and the balance becomes principal - total_paid,
      raised to 0 when below it. */
  function Credit(d: Debt, amount: real): (c: Debt)
    ensures c == d.(totalPaid := c.totalPaid, currentBalance := c.currentBalance)
    ensures c.totalPaid == d.totalPaid + amount
    ensures c.currentBalance == Max(0.0, d.principal - c.totalPaid)
  {
    var totalPaid := d.totalPaid + amount;
    var balance := d.principal - totalPaid;
    d.(totalPaid := totalPaid, currentBalance := if balance < 0.0 then 0.0 else balance)
  }

  /** monthly_interest refreshed from the balance. */
  function WithInterest(d: Debt): (r: Debt)
    ensures r == d.(monthlyInterest := r.monthlyInterest)
    ensures r.monthlyInterest == r.currentBalance * MonthlyRate(r.interestRate)
  {
    d.(monthlyInterest := d.currentBalance * (d.interestRate / 12.0 / 100.0))
  }

  // ---------------------------------------------------------------------
  // The ledger as a value.

  datatype Books = Books(debts: seq<Debt>, payments: seq<Payment>)

  /** The debt record addDebt builds: nothing paid yet, the balance the
      principal. */
  function NewDebt(id: int, name: string, principal: real, interestRate: real,
                   minPayment: real, creationDate: string): (d: Debt)
    ensures d.id == id && d.totalPaid == 0.0 && d.currentBalance == principal
    ensures d.monthlyInterest == principal * MonthlyRate(interestRate)
  {
    Debt(id, name, principal, interestRate, minPayment, 0.0, creationDate,
         principal, principal * (interestRate / 12.0 / 100.0))
  }

  /** addDebt: one debt appended under a fresh id; the payments untouched. */
  function AddDebtTo(b: Books, name: string, principal: real, interestRate: real,
                     minPayment: real, creationDate: string): (r: Books)
    ensures r.payments == b.payments
    ensures |r.debts| == |b.debts| + 1 && r.debts[..|b.debts|] == b.debts
    ensures forall i :: 0 <= i < |b.debts| ==> b.debts[i].id != r.debts[|b.debts|].id
  {
    var d := NewDebt(NextId(b.debts, DebtId), name, principal, interestRate, minPayment, creationDate);
    assert (b.debts + [d])[..|b.debts|] == b.debts;
    Books(b.debts + [d], b.payments)
  }

  /** makePayment: nothing for an unknown debt id; otherwise one payment
      appended under a fresh id and that debt credited, its interest
      refreshed; every other debt unchanged. */
  function PayInto(b: Books, debtId: int, amount: real, paymentDate: string): (r: Books)
    ensures FindDebt(b.debts, debtId).None? ==> r == b
    ensures FindDebt(b.debts, debtId).Some? ==>
      var k := FindDebt(b.debts, debtId).value;
      && |r.debts| == |b.debts|
      && r.debts[k] == WithInterest(Credit(b.debts[k], amount))
      && (forall i :: 0 <= i < |b.debts| && i != k ==> r.debts[i] == b.debts[i])
      && |r.payments| == |b.payments| + 1
      && r.payments[..|b.payments|] == b.payments
      && r.payments[|b.payments|].debtId == debtId
      && r.payments[|b.payments|].amount == amount
      && (forall i :: 0 <= i < |b.payments| ==> b.payments[i].id != r.payments[|b.payments|].id)
  {
    match FindDebt(b.debts, debtId)
    case None => b
    case Some(k) =>
      var p := Payment(NextId(b.payments, PaymentId), debtId, amount, paymentDate);
      assert (b.payments + [p])[..|b.payments|] == b.payments;
      Books(b.debts[k := WithInterest(Credit(b.debts[k], amount))], b.payments + [p])
  }

  /** array.filter(x => key(x) !== id). */
  function Without<T>(s: seq<T>, key: T -> int, id: int): (r: seq<T>)
    ensures |r| <= |s|
  {
    if s == [] then []
    else
      var last := s[|s| - 1];
      Without(s[..|s| - 1], key, id) + (if key(last) != id then [last] else [])
  }

  /** deleteDebt: the debt with that id and its payments removed. */
  function DeleteFrom(b: Books, debtId: int): Books {
    Books(Without(b.debts, DebtId, debtId), Without(b.payments, PaymentDebtId, debtId))
  }

  /** recalculateDebtBalances, first loop: total_paid back to 0 and the
      balance back to the principal. */
  function Reset(d: Debt): Debt {
    d.(totalPaid := 0.0, currentBalance := d.principal)
  }

  /** Second loop, one payment: credited to the first debt with its id, if
      there is one. */
  function ApplyPayment(debts: seq<Debt>, p: Payment): (r: seq<Debt>)
    ensures |r| == |debts|
  {
    match FindDebt(debts, p.debtId)
    case None => debts
    case Some(k) => debts[k := Credit(debts[k], p.amount)]
  }

  /** Second loop: every payment in order. */
  function Replay(debts: seq<Debt>, payments: seq<Payment>): (r: seq<Debt>)
    ensures |r| == |debts|
  {
    if payments == [] then debts
    else ApplyPayment(Replay(debts, payments[..|payments| - 1]), payments[|payments| - 1])
  }

  function ResetAll(debts: seq<Debt>): (r: seq<Debt>)
    ensures |r| == |debts|
  {
    seq(|debts|, i requires 0 <= i < |debts| => Reset(debts[i]))
  }

  function RefreshAll(debts: seq<Debt>): (r: seq<Debt>)
    ensures |r| == |debts|
  {
    seq(|debts|, i requires 0 <= i < |debts| => WithInterest(debts[i]))
  }

  /** recalculateDebtBalances: the debts rebuilt from the payments. */
  function Recalculate(b: Books): Books {
    Books(RefreshAll(Replay(ResetAll(b.debts), b.payments)), b.payments)
  }

  // ---------------------------------------------------------------------
  // The ledger's invariant.

  /** The sum of the amounts paid towards debt `id`. */
  function SumPaid(payments: seq<Payment>, id: int): real {
    if payments == [] then 0.0
    else
      var p := payments[|payments| - 1];
      SumPaid(payments[..|payments| - 1], id) + (if p.debtId == id then p.amount else 0.0)
  }

  /** Some payment goes to debt `id`. */
  predicate Pays(payments: seq<Payment>, id: int) {
    payments != [] &&
    (Pays(payments[..|payments| - 1], id) || payments[|payments| - 1].debtId == id)
  }

  /** A debt agrees with the payment log: total_paid is the sum of its
      payments; the balance is principal - total_paid raised to 0, or the
      principal itself while it has no payment; the interest is the
      balance's. */
  predicate Settled(d: Debt, payments: seq<Payment>) {
    && d.totalPaid == SumPaid(payments, d.id)
    && d.currentBalance
       == (if Pays(payments, d.id) then Max(0.0, d.principal - d.totalPaid) else d.principal)
    && d.monthlyInterest == d.currentBalance * MonthlyRate(d.interestRate)
  }

  /** Every payment belongs to a debt. */
  predicate Owned(b: Books) {
    forall j :: 0 <= j < |b.payments| ==> FindDebt(b.debts, b.payments[j].debtId).Some?
  }

  predicate Reconciled(b: Books) {
    forall k :: 0 <= k < |b.debts| ==> Settled(b.debts[k], b.payments)
  }

  /** Ids unique, every payment owned by a debt, every debt settled. */
  predicate Valid(b: Books) {
    Unique(b.debts, DebtId) && Unique(b.payments, PaymentId) && Owned(b) && Reconciled(b)
  }

  // ---------------------------------------------------------------------
  // Filtering.

  /** filter keeps exactly the elements whose key differs from `id`. */
  lemma {:induction false} WithoutMembers<T>(s: seq<T>, key: T -> int, id: int, x: T)
    ensures x in Without(s, key, id) <==> x in s && key(x) != id
  {
    if s != [] {
      var init := s[..|s| - 1];
      WithoutMembers(init, key, id, x);
      assert s == init + [s[|s| - 1]];
    }
  }

  /** filter keeps the order: it works piece by piece. */
  lemma {:induction false} WithoutConcat<T>(a: seq<T>, b: seq<T>, key: T -> int, id: int)
    ensures Without(a + b, key, id) == Without(a, key, id) + Without(b, key, id)
    decreases |b|
  {
    if b == [] {
      assert a + b == a;
    } else {
      WithoutConcat(a, b[..|b| - 1], key, id);
      assert (a + b)[..|a + b| - 1] == a + b[..|b| - 1];
    }
  }

  /** filter removes nothing when no key is `id`. */
  lemma {:induction false} WithoutNothing<T>(s: seq<T>, key: T -> int, id: int)
    requires forall i :: 0 <= i < |s| ==> key(s[i]) != id
    ensures Without(s, key, id) == s
  {
    if s != [] {
      var init := s[..|s| - 1];
      assert forall i :: 0 <= i < |init| ==> init[i] == s[i];
      WithoutNothing(init, key, id);
      assert init + [s[|s| - 1]] == s;
    }
  }

  /** filter keeps keys unique. */
  lemma {:induction false} WithoutUnique<T>(s: seq<T>, key: T -> int, id: int, unique: T -> int)
    requires Unique(s, unique)
    ensures Unique(Without(s, key, id), unique)
  {
    if s != [] {
      var init, last := s[..|s| - 1], s[|s| - 1];
      assert Unique(init, unique) by {
        forall i, j | 0 <= i < j < |init|
          ensures unique(init[i]) != unique(init[j])
        {
          assert init[i] == s[i] && init[j] == s[j];
        }
      }
      WithoutUnique(init, key, id, unique);
      var w := Without(init, key, id);
      forall i | 0 <= i < |w|
        ensures unique(w[i]) != unique(last)
      {
        WithoutMembers(init, key, id, w[i]);
        var m :| 0 <= m < |init| && init[m] == w[i];
        assert s[m] == init[m];
      }
    }
  }

  /** deleteDebt leaves no debt and no payment under that id, and keeps
      every other debt and payment, in order. */
  lemma DeleteRemoves(b: Books, debtId: int)
    ensures var r := DeleteFrom(b, debtId);
      && (forall d :: d in r.debts <==> d in b.debts && d.id != debtId)
      && (forall p :: p in r.payments <==> p in b.payments && p.debtId != debtId)
      && ((forall i :: 0 <= i < |b.debts| ==> b.debts[i].id != debtId) ==> r.debts == b.debts)
  {
    forall d {
      WithoutMembers(b.debts, DebtId, debtId, d);
    }
    forall p {
      WithoutMembers(b.payments, PaymentDebtId, debtId, p);
    }
    if forall i :: 0 <= i < |b.debts| ==> b.debts[i].id != debtId {
      WithoutNothing(b.debts, DebtId, debtId);
    }
  }

  // ---------------------------------------------------------------------
  // Payment sums.

  lemma SumPaidAppend(payments: seq<Payment>, p: Payment, id: int)
    ensures SumPaid(payments + [p], id)
         == SumPaid(payments, id) + (if p.debtId == id then p.amount else 0.0)
    ensures Pays(payments + [p], id) == (Pays(payments, id) || p.debtId == id)
  {
    assert (payments + [p])[..|payments|] == payments;
  }

  lemma {:induction false} SumPaidNone(payments: seq<Payment>, id: int)
    requires forall j :: 0 <= j < |payments| ==> payments[j].debtId != id
    ensures SumPaid(payments, id) == 0.0 && !Pays(payments, id)
  {
    if payments != [] {
      var init := payments[..|payments| - 1];
      assert forall j :: 0 <= j < |init| ==> init[j] == payments[j];
      SumPaidNone(init, id);
    }
  }

  /** Removing another debt's payments changes nothing for this one. */
  lemma {:induction false} SumPaidWithout(payments: seq<Payment>, gone: int, id: int)
    requires id != gone
    ensures SumPaid(Without(payments, PaymentDebtId, gone), id) == SumPaid(payments, id)
    ensures Pays(Without(payments, PaymentDebtId, gone), id) == Pays(payments, id)
  {
    if payments != [] {
      var init, p := payments[..|payments| - 1], payments[|payments| - 1];
      var w := Without(init, PaymentDebtId, gone);
      SumPaidWithout(init, gone, id);
      assert SumPaid(payments, id) == SumPaid(init, id) + (if p.debtId == id then p.amount else 0.0);
      assert Pays(payments, id) == (Pays(init, id) || p.debtId == id);
      if p.debtId != gone {
        assert Without(payments, PaymentDebtId, gone) == w + [p];
        SumPaidAppend(w, p, id);
      } else {
        assert Without(payments, PaymentDebtId, gone) == w + [];
        assert w + [] == w;
      }
    }
  }

  // ---------------------------------------------------------------------
  // Each operation keeps the ledger valid.

  lemma {:induction false} FindAppend(debts: seq<Debt>, d: Debt, id: int)
    requires FindDebt(debts, id).Some?
    ensures FindDebt(debts + [d], id) == FindDebt(debts, id)
  {
    if debts[0].id != id {
      FindAppend(debts[1..], d, id);
      assert (debts + [d])[1..] == debts[1..] + [d];
    }
  }

  /** A debt appended under an id no debt has keeps every payment owned,
      and no payment is for it. */
  lemma AppendOwned(b: Books, d: Debt)
    requires Owned(b)
    requires forall i :: 0 <= i < |b.debts| ==> b.debts[i].id != d.id
    ensures Owned(Books(b.debts + [d], b.payments))
    ensures forall j :: 0 <= j < |b.payments| ==> b.payments[j].debtId != d.id
  {
    forall j | 0 <= j < |b.payments|
      ensures FindDebt(b.debts + [d], b.payments[j].debtId).Some?
    {
      FindAppend(b.debts, d, b.payments[j].debtId);
    }
  }

  /** A debt with nothing paid and no payments is settled. */
  lemma NewDebtSettled(d: Debt, payments: seq<Payment>)
    requires forall j :: 0 <= j < |payments| ==> payments[j].debtId != d.id
    requires d.totalPaid == 0.0 && d.currentBalance == d.principal
    requires d.monthlyInterest == d.principal * MonthlyRate(d.interestRate)
    ensures Settled(d, payments)
  {
    SumPaidNone(payments, d.id);
  }

  lemma AddKeepsValid(b: Books, name: string, principal: real, interestRate: real,
                      minPayment: real, creationDate: string)
    requires Valid(b)
    ensures Valid(AddDebtTo(b, name, principal, interestRate, minPayment, creationDate))
  {
    var r := AddDebtTo(b, name, principal, interestRate, minPayment, creationDate);
    var d := r.debts[|b.debts|];
    assert r == Books(b.debts + [d], b.payments);
    AppendOwned(b, d);
    NewDebtSettled(d, b.payments);
  }

  lemma PayKeepsValid(b: Books, debtId: int, amount: real, paymentDate: string)
    requires Valid(b)
    ensures Valid(PayInto(b, debtId, amount, paymentDate))
  {
    var r := PayInto(b, debtId, amount, paymentDate);
    if FindDebt(b.debts, debtId).Some? {
      var k := FindDebt(b.debts, debtId).value;
      var n := |b.payments|;
      var p := r.payments[n];
      assert r.payments == b.payments + [p];
      assert forall i :: 0 <= i < |b.debts| ==> r.debts[i].id == b.debts[i].id;
      assert Unique(r.debts, DebtId) by {
        forall i, j | 0 <= i < j < |r.debts|
          ensures DebtId(r.debts[i]) != DebtId(r.debts[j])
        {
          assert DebtId(b.debts[i]) != DebtId(b.debts[j]);
        }
      }
      forall x {
        FindSameIds(r.debts, b.debts, x);
      }
      forall i | 0 <= i < |r.debts|
        ensures Settled(r.debts[i], r.payments)
      {
        SumPaidAppend(b.payments, p, b.debts[i].id);
        if i != k {
          assert DebtId(b.debts[i]) != DebtId(b.debts[k]);
        }
      }
    }
  }

  lemma DeleteKeepsValid(b: Books, debtId: int)
    requires Valid(b)
    ensures Valid(DeleteFrom(b, debtId))
  {
    var r := DeleteFrom(b, debtId);
    WithoutUnique(b.debts, DebtId, debtId, DebtId);
    WithoutUnique(b.payments, PaymentDebtId, debtId, PaymentId);
    forall j | 0 <= j < |r.payments|
      ensures FindDebt(r.debts, r.payments[j].debtId).Some?
    {
      var q := r.payments[j];
      WithoutMembers(b.payments, PaymentDebtId, debtId, q);
      var m :| 0 <= m < |b.payments| && b.payments[m] == q;
      var k := FindDebt(b.debts, q.debtId).value;
      WithoutMembers(b.debts, DebtId, debtId, b.debts[k]);
      var i :| 0 <= i < |r.debts| && r.debts[i] == b.debts[k];
    }
    forall i | 0 <= i < |r.debts|
      ensures Settled(r.debts[i], r.payments)
    {
      var e := r.debts[i];
      WithoutMembers(b.debts, DebtId, debtId, e);
      var k :| 0 <= k < |b.debts| && b.debts[k] == e;
      SumPaidWithout(b.payments, debtId, e.id);
    }
  }

  // ---------------------------------------------------------------------
  // Rebuilding the balances from the payments.

  /** Replaying payments touches total_paid and the balance only. */
  lemma {:induction false} ReplayKeepsTerms(debts: seq<Debt>, payments: seq<Payment>, i: int)
    requires 0 <= i < |debts|
    ensures var r := Replay(debts, payments)[i];
      r == debts[i].(totalPaid := r.totalPaid, currentBalance := r.currentBalance)
  {
    if payments != [] {
      ReplayKeepsTerms(debts, payments[..|payments| - 1], i);
    }
  }

  /** One payment of the replay: credited to debt k exactly when it is
      that debt's. */
  lemma ApplyAt(before: seq<Debt>, debts: seq<Debt>, p: Payment, k: int)
    requires Unique(debts, DebtId) && 0 <= k < |debts| && |before| == |debts|
    requires forall i :: 0 <= i < |debts| ==> before[i].id == debts[i].id
    ensures ApplyPayment(before, p)[k]
         == if p.debtId == debts[k].id then Credit(before[k], p.amount) else before[k]
  {
    FindSameIds(before, debts, p.debtId);
    FindUnique(debts, k);
  }

  /** With unique ids, replaying credits each debt with the sum of its own
      payments; its balance moves only once it has a payment. */
  lemma {:induction false} ReplayAt(debts: seq<Debt>, payments: seq<Payment>, k: int)
    requires Unique(debts, DebtId) && 0 <= k < |debts|
    ensures var d, r := debts[k], Replay(debts, payments)[k];
      && r.totalPaid == d.totalPaid + SumPaid(payments, d.id)
      && r.currentBalance
         == if Pays(payments, d.id) then Max(0.0, d.principal - r.totalPaid) else d.currentBalance
  {
    if payments != [] {
      var init, p := payments[..|payments| - 1], payments[|payments| - 1];
      var before := Replay(debts, init);
      ReplayAt(debts, init, k);
      forall i | 0 <= i < |debts|
        ensures before[i].id == debts[i].id
      {
        ReplayKeepsTerms(debts, init, i);
      }
      ApplyAt(before, debts, p, k);
      ReplayKeepsTerms(debts, init, k);
      assert Replay(debts, payments)[k] == ApplyPayment(before, p)[k];
    }
  }

  /** recalculateDebtBalances, debt by debt: with unique ids, total_paid is
      the sum of that debt's payments, the balance is principal - total_paid
      raised to 0 (the principal while it has no payment), the interest is
      the balance's; everything else is kept, and payments for unknown ids
      count for nothing. */
  lemma RecalculateAt(b: Books, k: int)
    requires Unique(b.debts, DebtId) && 0 <= k < |b.debts|
    ensures var d, id := b.debts[k], b.debts[k].id;
      var balance := if Pays(b.payments, id) then Max(0.0, d.principal - SumPaid(b.payments, id))
                     else d.principal;
      Recalculate(b).debts[k]
      == d.(totalPaid := SumPaid(b.payments, id), currentBalance := balance,
            monthlyInterest := balance * MonthlyRate(d.interestRate))
  {
    var reset := ResetAll(b.debts);
    assert Unique(reset, DebtId) by {
      forall i, j | 0 <= i < j < |reset|
        ensures DebtId(reset[i]) != DebtId(reset[j])
      {
        assert DebtId(b.debts[i]) != DebtId(b.debts[j]);
      }
    }
    ReplayAt(reset, b.payments, k);
    ReplayKeepsTerms(reset, b.payments, k);
  }

  /** recalculateDebtBalances leaves a ledger with unique ids valid. */
  lemma RecalculateValid(b: Books)
    requires Unique(b.debts, DebtId) && Unique(b.payments, PaymentId) && Owned(b)
    ensures Valid(Recalculate(b))
  {
    var r := Recalculate(b);
    forall k | 0 <= k < |b.debts|
      ensures r.debts[k].id == b.debts[k].id && Settled(r.debts[k], r.payments)
    {
      RecalculateAt(b, k);
    }
    assert Unique(r.debts, DebtId) by {
      forall i, j | 0 <= i < j < |r.debts|
        ensures DebtId(r.debts[i]) != DebtId(r.debts[j])
      {
        assert DebtId(b.debts[i]) != DebtId(b.debts[j]);
      }
    }
    forall x {
      FindSameIds(r.debts, b.debts, x);
    }
  }

  /** On a valid ledger recalculating changes nothing: the running updates
      of makePayment agree with rebuilding from the payment log. */
  lemma RecalculateSettled(b: Books)
    requires Valid(b)
    ensures Recalculate(b) == b
  {
    var r := Recalculate(b);
    forall k | 0 <= k < |b.debts|
      ensures r.debts[k] == b.debts[k]
    {
      RecalculateAt(b, k);
    }
  }

  // ---------------------------------------------------------------------
  // The page's global arrays.

  class Ledger {
    var debts: seq<Debt>
    var payments: seq<Payment>

    function State(): Books
      reads this
    {
      Books(debts, payments)
    }

    /** The arrays as declared, before any data is loaded: no debts and no
        payments. The page's demo data is not part of this model. */
    constructor ()
      ensures debts == [] && payments == []
      ensures Valid(State())
    {
      debts := [];
      payments := [];
    }

    /** addDebt, with the form's values and today's date as parameters. */
    method AddDebt(name: string, principal: real, interestRate: real, minPayment: real,
                   creationDate: string)
      modifies this
      ensures State() == AddDebtTo(old(State()), name, principal, interestRate, minPayment, creationDate)
      ensures old(Valid(State())) ==> Valid(State())
    {
      ghost var before := State();
      var newId := if |debts| > 0 then MaxKey(debts, DebtId) + 1 else 1;
      var newDebt := Debt(newId, name, principal, interestRate, minPayment, 0.0, creationDate,
                          principal, principal * (interestRate / 12.0 / 100.0));
      debts := debts + [newDebt];
      if Valid(before) {
        AddKeepsValid(before, name, principal, interestRate, minPayment, creationDate);
      }
    }

    /** makePayment, with the form's values as parameters; `found` is false
        where the page reports "Debt not found". */
    method MakePayment(debtId: int, amount: real, paymentDate: string) returns (found: bool)
      modifies this
      ensures found == FindDebt(old(debts), debtId).Some?
      ensures State() == PayInto(old(State()), debtId, amount, paymentDate)
      ensures old(Valid(State())) ==> Valid(State())
    {
      ghost var before := State();
      var k := FindDebt(debts, debtId);
      if k.None? {
        return false;
      }
      var newId := if |payments| > 0 then MaxKey(payments, PaymentId) + 1 else 1;
      var newPayment := Payment(newId, debtId, amount, paymentDate);
      payments := payments + [newPayment];
      var debt := debts[k.value];
      var totalPaid := debt.totalPaid + amount;
      var balance := debt.principal - totalPaid;
      if balance < 0.0 {
        balance := 0.0;
      }
      var updated := debt.(totalPaid := totalPaid, currentBalance := balance,
                           monthlyInterest := balance * (debt.interestRate / 12.0 / 100.0));
      assert updated == WithInterest(Credit(debt, amount));
      debts := debts[k.value := updated];
      found := true;
      assert newPayment == Payment(NextId(before.payments, PaymentId), debtId, amount, paymentDate);
      assert State() == PayInto(before, debtId, amount, paymentDate);
      if Valid(before) {
        PayKeepsValid(before, debtId, amount, paymentDate);
      }
    }

    /** deleteDebt: both arrays filtered. */
    method DeleteDebt(debtId: int)
      modifies this
      ensures State() == DeleteFrom(old(State()), debtId)
      ensures old(Valid(State())) ==> Valid(State())
    {
      ghost var before := State();
      debts := Without(debts, DebtId, debtId);
      payments := Without(payments, PaymentDebtId, debtId);
      if Valid(before) {
        DeleteKeepsValid(before, debtId);
      }
    }

    /** recalculateDebtBalances: reset every debt, replay every payment, then
        refresh every interest. */
    method RecalculateDebtBalances()
      modifies this
      ensures State() == Recalculate(old(State()))
      ensures old(Unique(debts, DebtId) && Unique(payments, PaymentId) && Owned(State()))
              ==> Valid(State())
    {
      ghost var before := State();
      ResetBalances();
      ApplyPayments();
      RefreshInterest();
      if Unique(before.debts, DebtId) && Unique(before.payments, PaymentId) && Owned(before) {
        RecalculateValid(before);
      }
    }

    /** The first forEach of recalculateDebtBalances. */
    method ResetBalances()
      modifies this
      ensures debts == ResetAll(old(debts)) && payments == old(payments)
    {
      ghost var start := debts;
      for i := 0 to |debts|
        invariant |debts| == |start| && payments == old(payments)
        invariant forall j :: 0 <= j < i ==> debts[j] == Reset(start[j])
        invariant forall j :: i <= j < |debts| ==> debts[j] == start[j]
      {
        var debt := debts[i];
        debts := debts[i := debt.(totalPaid := 0.0, currentBalance := debt.principal)];
      }
    }

    /** The second forEach: each payment credited to its debt, if found. */
    method ApplyPayments()
      modifies this
      ensures debts == Replay(old(debts), old(payments)) && payments == old(payments)
    {
      ghost var start := debts;
      for j := 0 to |payments|
        invariant payments == old(payments)
        invariant debts == Replay(start, payments[..j])
      {
        assert payments[..j + 1][..j] == payments[..j];
        var payment := payments[j];
        var found := FindDebt(debts, payment.debtId);
        if found.Some? {
          var k := found.value;
          var debt := debts[k];
          var totalPaid := debt.totalPaid + payment.amount;
          var balance := debt.principal - totalPaid;
          if balance < 0.0 {
            balance := 0.0;
          }
          debts := debts[k := debt.(totalPaid := totalPaid, currentBalance := balance)];
        }
      }
      assert payments[..|payments|] == payments;
    }

    /** The third forEach: every monthly interest refreshed. */
    method RefreshInterest()
      modifies this
      ensures debts == RefreshAll(old(debts)) && payments == old(payments)
    {
      ghost var start := debts;
      for i := 0 to |debts|
        invariant |debts| == |start| && payments == old(payments)
        invariant forall j :: 0 <= j < i ==> debts[j] == WithInterest(start[j])
        invariant forall j :: i <= j < |debts| ==> debts[j] == start[j]
      {
        var debt := debts[i];
        debts := debts[i := debt.(monthlyInterest := debt.currentBalance * (debt.interestRate / 12.0 / 100.0))];
      }
    }
  }
}
