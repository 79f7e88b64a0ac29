/** The Fee document (Fee.js): an amount due by a date, a ledger of payments whose
    sum is the paid amount, and a status the document derives from both before
    every save. Amounts are integers in minor units; dates are integer instants. */
module Fees {
  import opened Common
  import opened Text

  datatype FeeStatus = Paid | Pending | Overdue | Partial | Cancelled

  datatype PayMethod = Cash | BankTransfer | CreditCard | Check | Online

  /** One entry of `payments`. */
  datatype Payment = Payment(
    amount: int,
    date: int,
    payMethod: Option<PayMethod>,
    transactionId: Option<string>,
    receivedBy: Option<Id>,
    notes: Option<string>)

  /** What `updateStatus` makes of the status at time `now`: a cancelled fee keeps
      its status; otherwise full payment gives paid, a partial payment partial,
      and an unpaid fee is overdue once the due date has passed and pending
      before. */
  function DerivedStatus(current: FeeStatus, amount: int, paid: int, dueDate: int, now: int): (r: FeeStatus)
    ensures current == Cancelled <==> r == Cancelled
    ensures current != Cancelled ==>
      (r == Paid <==> paid >= amount)
      && (r == Partial <==> 0 < paid < amount)
      && (r == Overdue <==> paid < amount && paid <= 0 && now > dueDate)
      && (r == Pending <==> paid < amount && paid <= 0 && now <= dueDate)
  {
    if current == Cancelled then current
    else if paid >= amount then Paid
    else if paid > 0 && paid < amount then Partial
    else if now > dueDate then Overdue
    else Pending
  }

  /** Deriving twice at the same instant derives nothing new. */
  lemma DerivedStatusIdempotent(current: FeeStatus, amount: int, paid: int, dueDate: int, now: int)
    ensures var s := DerivedStatus(current, amount, paid, dueDate, now);
      DerivedStatus(s, amount, paid, dueDate, now) == s
  {
  }

  /** `payments.reduce((sum, p) => sum + p.amount, 0)` */
  function Sum(ps: seq<Payment>): int {
    if ps == [] then 0 else ps[0].amount + Sum(ps[1..])
  }

  /** Appending a payment adds its amount to the sum. */
  lemma {:induction false} SumAppend(ps: seq<Payment>, p: Payment)
    ensures Sum(ps + [p]) == Sum(ps) + p.amount
  {
    if ps != [] {
      assert (ps + [p])[1..] == ps[1..] + [p];
      SumAppend(ps[1..], p);
    }
  }

  class Fee {
    const id: Id
    const studentId: Id
    var amount: int
    var dueDate: int
    var paidAmount: int
    var paymentDate: Option<int>
    var paymentMethod: Option<PayMethod>
    var transactionId: Option<string>
    var status: FeeStatus
    var payments: seq<Payment>
    var description: Option<string>
    var notes: Option<string>

    /** A fee written through the handlers: the paid amount is the ledger's sum
        and neither amount is negative (`min: 0` on both). */
    ghost predicate Valid()
      reads this
    {
      paidAmount == Sum(payments) && amount >= 0 && paidAmount >= 0
    }

    /** `Fee.create({...})` at time `now`: nothing paid, an empty ledger, and the
        status the pre-save hook derives from the default `pending`. */
    constructor(id: Id, studentId: Id, amount: nat, dueDate: int, description: Option<string>, notes: Option<string>, now: int)
      ensures Valid()
      ensures this.id == id && this.studentId == studentId && this.amount == amount && this.dueDate == dueDate
      ensures paidAmount == 0 && payments == [] && paymentDate.None? && paymentMethod.None? && transactionId.None?
      ensures this.description == TrimField(description) && this.notes == TrimField(notes)
      ensures status == DerivedStatus(Pending, amount, 0, dueDate, now)
    {
      this.id := id;
      this.studentId := studentId;
      this.amount := amount;
      this.dueDate := dueDate;
      paidAmount := 0;
      paymentDate := None;
      paymentMethod := None;
      transactionId := None;
      payments := [];
      this.description := TrimField(description);
      this.notes := TrimField(notes);
      status := DerivedStatus(Pending, amount, 0, dueDate, now);
    }

    /** `updateStatus()` at time `now`. */
    method UpdateStatus(now: int)
      modifies this`status
      ensures status == DerivedStatus(old(status), amount, paidAmount, dueDate, now)
    {
      if status == Cancelled {
        return;
      }
      if paidAmount >= amount {
        status := Paid;
      } else if paidAmount > 0 && paidAmount < amount {
        status := Partial;
      } else if now > dueDate {
        status := Overdue;
      } else {
        status := Pending;
      }
    }

    /** `addPayment(p)` at time `now`: the payment is appended, the paid amount
        becomes the ledger's sum, the payment details are copied only when the fee
        is then fully paid (the transaction id through its trimming setter), and
        the status is derived again. */
    method AddPayment(p: Payment, now: int)
      modifies this`payments, this`paidAmount, this`paymentDate, this`paymentMethod, this`transactionId, this`status
      ensures payments == old(payments) + [p]
      ensures paidAmount == Sum(payments)
      ensures paidAmount >= amount ==>
        paymentDate == Some(now) && paymentMethod == p.payMethod && transactionId == TrimField(p.transactionId)
      ensures paidAmount < amount ==>
        paymentDate == old(paymentDate) && paymentMethod == old(paymentMethod) && transactionId == old(transactionId)
      ensures status == DerivedStatus(old(status), amount, paidAmount, dueDate, now)
    {
      payments := payments + [p];
      paidAmount := Sum(payments);
      if paidAmount >= amount {
        paymentDate := Some(now);
        paymentMethod := p.payMethod;
        transactionId := TrimField(p.transactionId);
      }
      UpdateStatus(now);
    }

    /** `save()` at time `now`: schema validation (`min: 0` on both amounts) runs
        first and rejects the document unchanged; otherwise the pre-save hook
        derives the status. */
    method Save(now: int) returns (ok: bool)
      modifies this`status
      ensures ok <==> old(amount) >= 0 && old(paidAmount) >= 0
      ensures ok ==> status == DerivedStatus(old(status), amount, paidAmount, dueDate, now)
      ensures !ok ==> status == old(status)
    {
      if amount < 0 || paidAmount < 0 {
        return false;
      }
      UpdateStatus(now);
      ok := true;
    }
  }
}
