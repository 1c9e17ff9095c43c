/** The browser's in-memory records (frontend.js, the objects built by
    addDebt and makePayment). */
module JsDebt {

  /** A debt object as the browser keeps it. current_balance and
      monthly_interest are stored fields, refreshed by the ledger
      operations. */
  datatype Debt = Debt(
    id: int,
    name: string,
    principal: real,
    interestRate: real,
    minPayment: real,
    totalPaid: real,
    creationDate: string,
    currentBalance: real,
    monthlyInterest: real)

  /** A payment object. */
  datatype Payment = Payment(id: int, debtId: int, amount: real, paymentDate: string)
}
