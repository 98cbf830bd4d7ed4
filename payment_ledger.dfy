/** Maintenance-payment recording and the per-period listing. A payment is
    accepted only after a fixed chain of guards: the transaction id has
    twelve digits, it has not been used, the period is given, and a
    treasurer is assigned for it. The stored record carries a copy of the
    treasurer's details, and the two unique indexes are the last word. */
module PaymentLedger {
  import opened Common
  import opened OwnerModel
  import opened OwnerDirectory
  import opened PaymentModel

  const BadTransactionId: string := "Transaction ID must be exactly 12 digits"
  const TransactionUsed: string := "This transaction ID is already used"
  const PeriodRequired: string := "Month and year are required"
  const TreasurerNotAssigned: string := "Treasurer not assigned for this month"
  const AlreadyPaid: string := "Maintenance already paid for this month"
  const PaymentRecorded: string := "Maintenance payment successful"
  /** Stand for the messages of the exceptions, which the model does not spell out. */
  const TypeErrorMessage: string := "paymentType is undefined"
  const ValidationMessage: string := "MaintenancePayment validation failed"

  const ReceiptDir: string := "/uploads/receipts/"

  /** The fields of a payment request. A text field that is missing is the
      empty string, which fails the same checks. */
  datatype PayRequest = PayRequest(
    transactionId: string,
    month: Option<int>,
    year: Option<int>,
    flatNumber: string,
    ownerName: string,
    ownerMobile: string,
    amount: Option<int>,
    paymentType: Option<string>)

  datatype PayReply = PayReply(status: int, message: string, payment: Option<Payment>)

  datatype ListReply = ListReply(
    status: int,
    message: string,
    month: int,
    year: int,
    totalPayments: int,
    data: seq<Payment>)

  /** What the store's `create` reports. */
  datatype InsertOutcome = Inserted | ValidationError | DuplicateKey

  /** `findOne({ month, year })` over the assignments: the first one for the
      period, whichever owner it names. */
  function FirstAssignment(assignments: seq<Assignment>, month: int, year: int): (r: Option<nat>)
    ensures r.Some? ==> r.value < |assignments|
    ensures r.Some? ==> assignments[r.value].month == month && assignments[r.value].year == year
    ensures r.Some? ==> forall j :: 0 <= j < r.value ==> !(assignments[j].month == month && assignments[j].year == year)
    ensures r.None? ==> forall j :: 0 <= j < |assignments| ==> !(assignments[j].month == month && assignments[j].year == year)
  {
    if |assignments| == 0 then None
    else if assignments[0].month == month && assignments[0].year == year then Some(0)
    else match FirstAssignment(assignments[1..], month, year)
      case None => None
      case Some(k) => Some(k + 1)
  }

  /** The treasurer for a period: the owner named by the first assignment
      for it, provided that owner still exists. */
  function TreasurerFor(assignments: seq<Assignment>, owners: seq<Owner>, month: int, year: int): (r: Option<Owner>)
    ensures r.Some? ==> r.value in owners
    ensures r.Some? ==>
      exists k :: 0 <= k < |assignments| && assignments[k] == Assignment(r.value.id, month, year)
    ensures (forall k :: 0 <= k < |assignments| ==> !(assignments[k].month == month && assignments[k].year == year)) ==> r.None?
    ensures r.Some? <==>
      && FirstAssignment(assignments, month, year).Some?
      && exists i :: 0 <= i < |owners| && owners[i].id == assignments[FirstAssignment(assignments, month, year).value].ownerId
    ensures r.Some? ==> r.value.id == assignments[FirstAssignment(assignments, month, year).value].ownerId
  {
    match FirstAssignment(assignments, month, year)
    case None => None
    case Some(k) =>
      match IndexOfId(owners, assignments[k].ownerId)
      case None => None
      case Some(i) => Some(owners[i])
  }

  /** The snapshot copies the owner's id, name, phone and UPI handle. */
  function SnapshotOf(o: Owner): (s: Snapshot)
    ensures s.treasurerId == o.id && s.treasurerName == o.name
    ensures s.treasurerPhoneNumber == o.phoneNumber && s.treasurerUpiID == o.upiID
  {
    Snapshot(o.id, o.name, o.phoneNumber, o.upiID)
  }

  /** `/uploads/receipts/<filename>` when a file came with the request,
      otherwise null. */
  function ReceiptUrl(file: Option<string>): (r: Option<string>)
    ensures file.None? ==> r.None?
    ensures file.Some? ==> r.Some? && r.value == ReceiptDir + file.value
  {
    match file
    case None => None
    case Some(name) => Some(ReceiptDir + name)
  }

  /** The document `payMaintenance` hands to the store. */
  function BuildPayment(req: PayRequest, file: Option<string>, treasurer: Owner, now: int): (p: Payment)
    requires req.month.Some? && req.year.Some? && req.amount.Some? && req.paymentType.Some?
    ensures p.transactionId == req.transactionId && p.flatNumber == req.flatNumber
    ensures p.month == req.month.value && p.year == req.year.value
    ensures p.ownerName == req.ownerName && p.ownerMobile == req.ownerMobile && p.amount == req.amount.value
    ensures p.paymentType == Upper(req.paymentType.value)
    ensures p.treasurer == SnapshotOf(treasurer) && p.receiptUrl == ReceiptUrl(file)
    ensures p.createdAt == now
  {
    Payment(req.transactionId, req.month.value, req.year.value, req.flatNumber,
            req.ownerName, req.ownerMobile, req.amount.value,
            Upper(req.paymentType.value), ReceiptUrl(file), SnapshotOf(treasurer), now)
  }

  /** A payment built by the controller passes the validators only with
      the type "UPI", whatever its case on input. */
  lemma BuiltPaymentTypeIsUpi(req: PayRequest, file: Option<string>, treasurer: Owner, now: int)
    requires req.month.Some? && req.year.Some? && req.amount.Some? && req.paymentType.Some?
    requires ValidPayment(BuildPayment(req, file, treasurer, now))
    ensures BuildPayment(req, file, treasurer, now).paymentType == "UPI"
    ensures Lower(req.paymentType.value) == "upi"
  {
    UpperCasedTypeAdmitted(req.paymentType.value);
  }

  /** Some stored payment already carries the transaction id. */
  predicate TransactionUsedIn(ps: seq<Payment>, transactionId: string)
  {
    exists i :: 0 <= i < |ps| && ps[i].transactionId == transactionId
  }

  /** `find({ month, year })`: the payments of the period, in store order. */
  function OfPeriod(ps: seq<Payment>, month: int, year: int): (r: seq<Payment>)
    ensures forall p :: multiset(r)[p] == if p.month == month && p.year == year then multiset(ps)[p] else 0
    ensures |r| <= |ps|
  {
    if |ps| == 0 then []
    else
      assert ps == [ps[0]] + ps[1..];
      var rest := OfPeriod(ps[1..], month, year);
      if ps[0].month == month && ps[0].year == year then [ps[0]] + rest else rest
  }

  /** Newest first: `createdAt` never increases along the sequence. */
  predicate NewestFirst(ps: seq<Payment>)
  {
    forall i, j :: 0 <= i < j < |ps| ==> ps[i].createdAt >= ps[j].createdAt
  }

  function InsertByNewest(p: Payment, ps: seq<Payment>): (r: seq<Payment>)
    requires NewestFirst(ps)
    ensures NewestFirst(r)
    ensures multiset(r) == multiset(ps) + multiset{p}
    ensures r[0] == p || (|ps| > 0 && r[0] == ps[0])
  {
    if |ps| == 0 || p.createdAt >= ps[0].createdAt then
      [p] + ps
    else
      assert ps == [ps[0]] + ps[1..];
      var rest := InsertByNewest(p, ps[1..]);
      assert ps[0].createdAt >= rest[0].createdAt;
      [ps[0]] + rest
  }

  /** `.sort({ createdAt: -1 })`: a newest-first rearrangement. Payments
      with equal timestamps may come in any order. */
  function SortByNewest(ps: seq<Payment>): (r: seq<Payment>)
    ensures NewestFirst(r)
    ensures multiset(r) == multiset(ps)
  {
    if |ps| == 0 then []
    else
      assert ps == [ps[0]] + ps[1..];
      InsertByNewest(ps[0], SortByNewest(ps[1..]))
  }

  class Ledger {
    var payments: seq<Payment>

    ghost predicate Valid()
      reads this
    {
      (forall i :: 0 <= i < |payments| ==> ValidPayment(payments[i])) && IndexesHold(payments)
    }

    constructor ()
      ensures Valid() && payments == []
    {
      payments := [];
    }

    /** `MaintenancePayment.create`: the validators run first, then the
        unique indexes; only a payment passing both is added. */
    method Insert(p: Payment) returns (outcome: InsertOutcome)
      requires Valid()
      modifies this
      ensures Valid()
      ensures !ValidPayment(p) ==> outcome == ValidationError && payments == old(payments)
      ensures ValidPayment(p) && Collides(old(payments), p) ==> outcome == DuplicateKey && payments == old(payments)
      ensures ValidPayment(p) && !Collides(old(payments), p) ==> outcome == Inserted && payments == old(payments) + [p]
    {
      if !ValidPayment(p) {
        return ValidationError;
      }
      if Collides(payments, p) {
        return DuplicateKey;
      }
      AppendKeepsIndexes(payments, p);
      payments := payments + [p];
      outcome := Inserted;
    }

    /** `payMaintenance`. */
    method PayMaintenance(req: PayRequest, file: Option<string>, assignments: seq<Assignment>, owners: Directory, now: int)
      returns (r: PayReply)
      requires Valid()
      modifies this
      ensures Valid()
      ensures !IsTransactionId(req.transactionId) ==>
        r == PayReply(400, BadTransactionId, None) && payments == old(payments)
      ensures IsTransactionId(req.transactionId) && TransactionUsedIn(old(payments), req.transactionId) ==>
        r == PayReply(409, TransactionUsed, None) && payments == old(payments)
      ensures IsTransactionId(req.transactionId) && !TransactionUsedIn(old(payments), req.transactionId) &&
              !(TruthyNumber(req.month) && TruthyNumber(req.year)) ==>
        r == PayReply(400, PeriodRequired, None) && payments == old(payments)
      ensures IsTransactionId(req.transactionId) && !TransactionUsedIn(old(payments), req.transactionId) &&
              TruthyNumber(req.month) && TruthyNumber(req.year) &&
              TreasurerFor(assignments, owners.rows, req.month.value, req.year.value).None? ==>
        r == PayReply(404, TreasurerNotAssigned, None) && payments == old(payments)
      ensures IsTransactionId(req.transactionId) && !TransactionUsedIn(old(payments), req.transactionId) &&
              TruthyNumber(req.month) && TruthyNumber(req.year) &&
              TreasurerFor(assignments, owners.rows, req.month.value, req.year.value).Some? ==>
        if req.paymentType.None? then
          r == PayReply(500, TypeErrorMessage, None) && payments == old(payments)
        else if req.amount.None? then
          r == PayReply(500, ValidationMessage, None) && payments == old(payments)
        else
          var p := BuildPayment(req, file, TreasurerFor(assignments, owners.rows, req.month.value, req.year.value).value, now);
          if !ValidPayment(p) then
            r == PayReply(500, ValidationMessage, None) && payments == old(payments)
          else if Collides(old(payments), p) then
            r == PayReply(409, AlreadyPaid, None) && payments == old(payments)
          else
            r == PayReply(201, PaymentRecorded, Some(p)) && payments == old(payments) + [p]
      ensures payments == old(payments) || (r.status == 201 && r.payment.Some? && payments == old(payments) + [r.payment.value])
    {
      if !IsTransactionId(req.transactionId) {
        return PayReply(400, BadTransactionId, None);
      }
      if TransactionUsedIn(payments, req.transactionId) {
        return PayReply(409, TransactionUsed, None);
      }
      if !TruthyNumber(req.month) || !TruthyNumber(req.year) {
        return PayReply(400, PeriodRequired, None);
      }
      var treasurer := TreasurerFor(assignments, owners.rows, req.month.value, req.year.value);
      if treasurer.None? {
        return PayReply(404, TreasurerNotAssigned, None);
      }
      if req.paymentType.None? {
        return PayReply(500, TypeErrorMessage, None);
      }
      if req.amount.None? {
        return PayReply(500, ValidationMessage, None);
      }
      var p := BuildPayment(req, file, treasurer.value, now);
      var outcome := Insert(p);
      match outcome
      case ValidationError => r := PayReply(500, ValidationMessage, None);
      case DuplicateKey => r := PayReply(409, AlreadyPaid, None);
      case Inserted => r := PayReply(201, PaymentRecorded, Some(p));
    }

    /** `getPaymentsByMonthYear`: 400 without a period; otherwise exactly the
        payments of that period, newest first, with their count. */
    function PaymentsByMonthYear(month: Option<int>, year: Option<int>): (r: ListReply)
      reads this
      ensures !(TruthyNumber(month) && TruthyNumber(year)) ==> r.status == 400 && r.message == PeriodRequired
      ensures TruthyNumber(month) && TruthyNumber(year) ==>
        && r.status == 200 && r.month == month.value && r.year == year.value
        && r.totalPayments == |r.data|
        && NewestFirst(r.data)
        && (forall p :: multiset(r.data)[p] ==
              if p.month == month.value && p.year == year.value then multiset(payments)[p] else 0)
    {
      if !TruthyNumber(month) || !TruthyNumber(year) then
        ListReply(400, PeriodRequired, 0, 0, 0, [])
      else
        var data := SortByNewest(OfPeriod(payments, month.value, year.value));
        ListReply(200, "", month.value, year.value, |data|, data)
    }
  }
}
