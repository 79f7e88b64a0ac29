/** The fee handlers (feeController.js): recording a payment, editing and
    deleting a fee with their guards, the per-student totals, and the student's
    `fee_status` rolled up from the statuses of their fees. */
module FeeController {
  import opened Common
  import opened Fees
  import opened Text

  // ---------------------------------------------------------------------------
  // Student fee status

  /** The priority `updateStudentFeeStatus` ends with: any overdue fee makes the
      student overdue, else any partial fee partial, else any pending fee pending,
      else (paid fees only, or none) paid. */
  function Rollup(statuses: seq<FeeStatus>): (r: FeeStatus)
    ensures r == Overdue <==> Overdue in statuses
    ensures r == Partial <==> Overdue !in statuses && Partial in statuses
    ensures r == Pending <==> Overdue !in statuses && Partial !in statuses && Pending in statuses
    ensures r == Paid <==> Overdue !in statuses && Partial !in statuses && Pending !in statuses
  {
    if Overdue in statuses then Overdue
    else if Partial in statuses then Partial
    else if Pending in statuses then Pending
    else Paid
  }

  /** The roll-up does not depend on the order the fees are returned in. */
  lemma RollupOrderIndependent(a: seq<FeeStatus>, b: seq<FeeStatus>)
    requires multiset(a) == multiset(b)
    ensures Rollup(a) == Rollup(b)
  {
    assert forall s :: s in a <==> s in multiset(a);
    assert forall s :: s in b <==> s in multiset(b);
  }

  /** The loop of `updateStudentFeeStatus` over the statuses of the student's
      fees that are not cancelled, leaving at the first overdue one. */
  method StudentFeeStatus(statuses: seq<FeeStatus>) returns (s: FeeStatus)
    ensures s == Rollup(statuses)
  {
    s := Paid;
    var i := 0;
    while i < |statuses|
      invariant 0 <= i <= |statuses|
      invariant Overdue !in statuses[..i]
      invariant s == (if Partial in statuses[..i] then Partial else if Pending in statuses[..i] then Pending else Paid)
    {
      assert statuses[..i + 1] == statuses[..i] + [statuses[i]];
      if statuses[i] == Overdue {
        s := Overdue;
        break;
      } else if statuses[i] == Partial {
        s := Partial;
      } else if statuses[i] == Pending && s != Partial {
        s := Pending;
      }
      i := i + 1;
    }
    if i == |statuses| {
      assert statuses[..i] == statuses;
    }
  }

  /** A stored fee as the list queries read it (`.lean()`). */
  datatype FeeRow = FeeRow(id: Id, studentId: Id, amount: int, paidAmount: int, status: FeeStatus)

  /** `Fee.find({ student_id, status: { $ne: 'cancelled' } })`, statuses only. */
  function StudentStatuses(fees: seq<FeeRow>, studentId: Id): (r: seq<FeeStatus>)
    ensures Cancelled !in r
    ensures forall s :: s in r <==> exists f :: f in fees && f.studentId == studentId && f.status == s && s != Cancelled
  {
    if fees == [] then []
    else
      var rest := StudentStatuses(fees[1..], studentId);
      assert forall f :: f in fees[1..] ==> f in fees;
      assert forall f :: f in fees ==> f == fees[0] || f in fees[1..];
      if fees[0].studentId == studentId && fees[0].status != Cancelled then [fees[0].status] + rest else rest
  }

  /** The student's `fee_status` after `updateStudentFeeStatus`: cancelled fees
      play no part, and a student without other fees is paid. */
  lemma StudentStatusOfStore(fees: seq<FeeRow>, studentId: Id)
    ensures var r := Rollup(StudentStatuses(fees, studentId));
      (r == Overdue <==> exists f :: f in fees && f.studentId == studentId && f.status == Overdue)
      && ((forall f :: f in fees && f.studentId == studentId ==> f.status in {Paid, Cancelled}) ==> r == Paid)
  {
    var st := StudentStatuses(fees, studentId);
    if forall f :: f in fees && f.studentId == studentId ==> f.status in {Paid, Cancelled} {
      assert Overdue !in st && Partial !in st && Pending !in st;
    }
  }

  // ---------------------------------------------------------------------------
  // Totals

  function TotalAmount(fees: seq<FeeRow>): int {
    if fees == [] then 0 else fees[0].amount + TotalAmount(fees[1..])
  }

  function TotalPaid(fees: seq<FeeRow>): int {
    if fees == [] then 0 else fees[0].paidAmount + TotalPaid(fees[1..])
  }

  /** `total_due = total_amount - total_paid` over the student's fees. */
  function TotalDue(fees: seq<FeeRow>): int {
    TotalAmount(fees) - TotalPaid(fees)
  }

  /** What is due is what each fee still lacks, added up; so it is never negative
      when no fee is overpaid. */
  lemma {:induction false} TotalDueIsSumOfBalances(fees: seq<FeeRow>)
    ensures TotalDue(fees) == Balances(fees)
    ensures (forall i :: 0 <= i < |fees| ==> fees[i].paidAmount <= fees[i].amount) ==> TotalDue(fees) >= 0
  {
    if fees != [] {
      TotalDueIsSumOfBalances(fees[1..]);
      if forall i :: 0 <= i < |fees| ==> fees[i].paidAmount <= fees[i].amount {
        assert forall i :: 0 <= i < |fees[1..]| ==> fees[1..][i] == fees[i + 1];
      }
    }
  }

  function Balances(fees: seq<FeeRow>): int {
    if fees == [] then 0 else (fees[0].amount - fees[0].paidAmount) + Balances(fees[1..])
  }

  // ---------------------------------------------------------------------------
  // Deleting

  function IndexOf(fees: seq<FeeRow>, id: Id): (r: Option<nat>)
    ensures r.Some? ==> r.value < |fees| && fees[r.value].id == id
    ensures r.None? ==> forall f :: f in fees ==> f.id != id
  {
    if fees == [] then None
    else if fees[0].id == id then Some(0)
    else match IndexOf(fees[1..], id)
      case None => None
      case Some(i) => Some(i + 1)
  }

  /** `deleteFee(id)`: 404 for an unknown fee, 400 for a fee with any payment
      recorded; otherwise the fee is removed and nothing else changes. */
  function DeleteFee(fees: seq<FeeRow>, id: Id): (r: Outcome<seq<FeeRow>>)
    ensures r.Err? ==> r.code == NotFound || r.code == BadRequest
    ensures r == Err(NotFound) <==> forall f :: f in fees ==> f.id != id
    ensures r.Ok? ==> exists i :: (0 <= i < |fees| && fees[i].id == id && fees[i].paidAmount <= 0
      && r.value == fees[..i] + fees[i + 1..])
    ensures r == Err(BadRequest) ==> exists f :: f in fees && f.id == id && f.paidAmount > 0
  {
    match IndexOf(fees, id)
    case None => Err(NotFound)
    case Some(i) =>
      if fees[i].paidAmount > 0 then Err(BadRequest) else Ok(fees[..i] + fees[i + 1..])
  }

  /** Deleting a fee never loses a recorded payment: what was paid in total is
      unchanged, with a non-negative paid amount on the deleted fee. */
  lemma DeleteKeepsPaid(fees: seq<FeeRow>, id: Id)
    requires forall f :: f in fees ==> f.paidAmount >= 0
    ensures DeleteFee(fees, id).Ok? ==> TotalPaid(DeleteFee(fees, id).value) == TotalPaid(fees)
  {
    if DeleteFee(fees, id).Ok? {
      var i := IndexOf(fees, id).value;
      TotalPaidSplit(fees, i);
    }
  }

  /** What `deleteFee` leaves: the remaining fees, and the deleted fee's student
      with the `fee_status` the closing `updateStudentFeeStatus` stores. */
  datatype Deletion = Deletion(fees: seq<FeeRow>, studentId: Id, feeStatus: FeeStatus)

  /** `deleteFee` followed by `updateStudentFeeStatus(studentId)`: the refusals of
      `DeleteFee`; otherwise the student's status is rolled up from the fees that
      remain. */
  function DeleteFeeHandler(fees: seq<FeeRow>, id: Id): (r: Outcome<Deletion>)
    ensures r.Err? <==> DeleteFee(fees, id).Err?
    ensures r.Err? ==> r.code == DeleteFee(fees, id).code
    ensures r.Ok? ==> r.value.fees == DeleteFee(fees, id).value
    ensures r.Ok? ==> exists f :: f in fees && f.id == id && f.studentId == r.value.studentId
    ensures r.Ok? ==> r.value.feeStatus == Rollup(StudentStatuses(r.value.fees, r.value.studentId))
  {
    match DeleteFee(fees, id)
    case Err(c) => Err(c)
    case Ok(rest) =>
      var i := IndexOf(fees, id).value;
      Ok(Deletion(rest, fees[i].studentId, Rollup(StudentStatuses(rest, fees[i].studentId))))
  }

  /** Deleting a cancelled fee leaves every student's `fee_status` as it was:
      cancelled fees take no part in the roll-up. */
  lemma DeleteCancelledKeepsStatus(fees: seq<FeeRow>, id: Id, studentId: Id)
    requires DeleteFee(fees, id).Ok?
    requires exists f :: f in fees && f.id == id && f.status == Cancelled
    requires forall i, j :: 0 <= i < j < |fees| ==> fees[i].id != fees[j].id
    ensures StudentStatuses(DeleteFee(fees, id).value, studentId) == StudentStatuses(fees, studentId)
  {
    var i := IndexOf(fees, id).value;
    var f :| f in fees && f.id == id && f.status == Cancelled;
    var j :| 0 <= j < |fees| && fees[j] == f;
    assert i == j;
    assert fees == fees[..i] + [fees[i]] + fees[i + 1..];
    DropCancelledStatus(fees[..i], fees[i], fees[i + 1..], studentId);
  }

  /** A cancelled row contributes nothing to a student's statuses. */
  lemma DropCancelledStatus(pre: seq<FeeRow>, x: FeeRow, post: seq<FeeRow>, studentId: Id)
    requires x.status == Cancelled
    ensures StudentStatuses(pre + [x] + post, studentId) == StudentStatuses(pre + post, studentId)
  {
    StatusesAppend(pre + [x], post, studentId);
    StatusesAppend(pre, [x], studentId);
    StatusesAppend(pre, post, studentId);
    assert StudentStatuses([x], studentId) == [] by {
      assert [x][1..] == [];
    }
  }

  lemma {:induction false} StatusesAppend(a: seq<FeeRow>, b: seq<FeeRow>, studentId: Id)
    ensures StudentStatuses(a + b, studentId) == StudentStatuses(a, studentId) + StudentStatuses(b, studentId)
  {
    if a == [] {
      assert a + b == b;
    } else {
      assert (a + b)[1..] == a[1..] + b;
      StatusesAppend(a[1..], b, studentId);
    }
  }

  lemma {:induction false} TotalPaidSplit(fees: seq<FeeRow>, i: nat)
    requires i < |fees|
    ensures TotalPaid(fees) == TotalPaid(fees[..i] + fees[i + 1..]) + fees[i].paidAmount
  {
    if i > 0 {
      assert (fees[..i] + fees[i + 1..])[1..] == fees[1..][..i - 1] + fees[1..][i..];
      TotalPaidSplit(fees[1..], i - 1);
    } else {
      assert fees[..0] + fees[1..] == fees[1..];
    }
  }

  // ---------------------------------------------------------------------------
  // Recording a payment and editing a fee

  /** `recordPayment`: 404 without a fee; 400 on a cancelled fee; 400 for a payment
      above the remaining balance; 400 when saving would make the paid amount
      negative (a negative payment passes the balance check); otherwise one
      payment is recorded and the document saved. A refused request leaves the
      fee as it was. */
  method RecordPayment(fee: Fee?, amount: int, payMethod: Option<PayMethod>, transactionId: Option<string>,
                       receivedBy: Id, notes: Option<string>, now: int) returns (r: Outcome<()>)
    requires fee != null ==> fee.Valid()
    modifies fee
    ensures fee == null ==> r == Err(NotFound)
    ensures fee != null ==> fee.Valid()
    ensures fee != null && old(fee.status) == Cancelled ==> r == Err(BadRequest) && unchanged(fee)
    ensures fee != null && old(fee.status) != Cancelled && amount > old(fee.amount - fee.paidAmount) ==>
      r == Err(BadRequest) && unchanged(fee)
    ensures fee != null && r.Ok? ==>
      old(fee.status) != Cancelled && amount <= old(fee.amount - fee.paidAmount)
      && fee.payments == old(fee.payments) + [Payment(amount, now, payMethod, transactionId, Some(receivedBy), notes)]
      && fee.paidAmount == old(fee.paidAmount) + amount
      && fee.status == DerivedStatus(old(fee.status), fee.amount, fee.paidAmount, fee.dueDate, now)
    ensures fee != null && r.Ok? && old(fee.paidAmount) <= old(fee.amount) ==> fee.paidAmount <= fee.amount
    ensures fee != null && r.Err? ==> unchanged(fee)
    ensures fee != null ==>
      (r.Ok? <==> (old(fee.status) != Cancelled && amount <= old(fee.amount - fee.paidAmount)
                   && old(fee.paidAmount) + amount >= 0))
    ensures fee != null && r.Ok? ==>
      (fee.amount == old(fee.amount) && fee.dueDate == old(fee.dueDate)
       && fee.description == old(fee.description) && fee.notes == old(fee.notes))
    ensures fee != null && r.Ok? && fee.paidAmount >= fee.amount ==>
      fee.paymentDate == Some(now) && fee.paymentMethod == payMethod && fee.transactionId == TrimField(transactionId)
    ensures fee != null && r.Ok? && fee.paidAmount < fee.amount ==>
      fee.paymentDate == old(fee.paymentDate) && fee.paymentMethod == old(fee.paymentMethod)
      && fee.transactionId == old(fee.transactionId)
  {
    if fee == null {
      return Err(NotFound);
    }
    if fee.status == Cancelled {
      return Err(BadRequest);
    }
    var remaining := fee.amount - fee.paidAmount;
    if amount > remaining {
      return Err(BadRequest);
    }
    var p := Payment(amount, now, payMethod, transactionId, Some(receivedBy), notes);
    SumAppend(fee.payments, p);
    if fee.paidAmount + amount < 0 {
      return Err(BadRequest);
    }
    fee.AddPayment(p, now);
    var _ := fee.Save(now);
    DerivedStatusIdempotent(old(fee.status), fee.amount, fee.paidAmount, fee.dueDate, now);
    r := Ok(());
  }

  /** JavaScript truthiness of an optional number: present and not 0. */
  predicate Truthy(x: Option<int>) {
    x.Some? && x.value != 0
  }

  /** `updateFee`: 404 without a fee; 400 when something was paid and a truthy new
      amount is below it (a new amount of 0 is falsy and slips past the guard);
      400 when the schema rejects a negative amount; otherwise each supplied field
      is set (a due date only when truthy, the description and notes trimmed) and
      the status is derived again, unless the request cancels the fee or it is
      already cancelled; the payment details stay as they were. */
  method UpdateFee(fee: Fee?, amount: Option<int>, dueDate: Option<int>, description: Option<string>,
                   notes: Option<string>, status: Option<FeeStatus>, now: int) returns (r: Outcome<()>)
    requires fee != null ==> fee.Valid()
    modifies fee
    ensures fee == null ==> r == Err(NotFound)
    ensures fee != null ==> fee.Valid()
    ensures fee != null && old(fee.paidAmount) > 0 && Truthy(amount) && amount.value < old(fee.paidAmount) ==>
      r == Err(BadRequest)
    ensures fee != null && r.Err? ==> unchanged(fee)
    ensures fee != null && r.Ok? ==>
      !(old(fee.paidAmount) > 0 && Truthy(amount) && amount.value < old(fee.paidAmount))
      && fee.amount == (if amount.Some? then amount.value else old(fee.amount))
      && fee.dueDate == (if Truthy(dueDate) then dueDate.value else old(fee.dueDate))
      && fee.description == (if description.Some? then TrimField(description) else old(fee.description))
      && fee.notes == (if notes.Some? then TrimField(notes) else old(fee.notes))
      && fee.status == DerivedStatus(if status.Some? then status.value else old(fee.status),
                                     fee.amount, fee.paidAmount, fee.dueDate, now)
      && fee.paidAmount == old(fee.paidAmount) && fee.payments == old(fee.payments)
      && fee.paymentDate == old(fee.paymentDate) && fee.paymentMethod == old(fee.paymentMethod)
      && fee.transactionId == old(fee.transactionId)
    ensures fee != null ==>
      (r.Ok? <==> (!(old(fee.paidAmount) > 0 && Truthy(amount) && amount.value < old(fee.paidAmount))
                   && !(amount.Some? && amount.value < 0)))
    ensures fee != null && amount.Some? && amount.value < 0 ==> r == Err(BadRequest)
  {
    if fee == null {
      return Err(NotFound);
    }
    if fee.paidAmount > 0 && Truthy(amount) && amount.value < fee.paidAmount {
      return Err(BadRequest);
    }
    if amount.Some? && amount.value < 0 {
      return Err(BadRequest);
    }
    ApplyFeeUpdate(fee, if amount.Some? then amount.value else fee.amount,
                   if Truthy(dueDate) then dueDate.value else fee.dueDate,
                   if description.Some? then TrimField(description) else fee.description,
                   if notes.Some? then TrimField(notes) else fee.notes,
                   if status.Some? then status.value else fee.status, now);
    r := Ok(());
  }

  /** The assignments of `updateFee` once both guards pass, then `save()`. */
  method ApplyFeeUpdate(fee: Fee, amount: int, dueDate: int, description: Option<string>,
                        notes: Option<string>, status: FeeStatus, now: int)
    requires fee.Valid() && amount >= 0
    modifies fee
    ensures fee.Valid()
    ensures fee.amount == amount && fee.dueDate == dueDate && fee.description == description && fee.notes == notes
    ensures fee.status == DerivedStatus(status, amount, fee.paidAmount, dueDate, now)
    ensures fee.paidAmount == old(fee.paidAmount) && fee.payments == old(fee.payments)
    ensures fee.paymentDate == old(fee.paymentDate) && fee.paymentMethod == old(fee.paymentMethod)
      && fee.transactionId == old(fee.transactionId)
  {
    fee.amount, fee.dueDate, fee.description, fee.notes, fee.status := amount, dueDate, description, notes, status;
    var _ := fee.Save(now);
  }

  /** Because 0 is falsy, a paid fee can be edited down to an amount of 0, which
      then reads as fully paid. */
  lemma ZeroAmountSlipsPastGuard(paid: int, dueDate: int, now: int)
    requires paid > 0
    ensures !(paid > 0 && Truthy(Some(0)) && 0 < paid)
    ensures DerivedStatus(Partial, 0, paid, dueDate, now) == Paid
  {
  }
}
