/** The maintenance-payment record with its validators and its two unique
    indexes, and the treasurer-assignment record, which has neither a range
    check on the month nor a unique index on the period. */
module PaymentModel {
  import opened Common
  import opened OwnerModel

  /** The values the `paymentType` enum admits, exactly as written. */
  const PaymentTypes: seq<string> := ["UPI", "Cash", "Bank Transfer"]

  /** Who was treasurer when the payment was made: values copied from the
      owner record at that moment, not a reference to it. */
  datatype Snapshot = Snapshot(
    treasurerId: OwnerId,
    treasurerName: string,
    treasurerPhoneNumber: string,
    treasurerUpiID: string)

  /** A stored payment; `createdAt` is the store's timestamp in milliseconds
      and `receiptUrl` is optional. */
  datatype Payment = Payment(
    transactionId: string,
    month: int,
    year: int,
    flatNumber: string,
    ownerName: string,
    ownerMobile: string,
    amount: int,
    paymentType: string,
    receiptUrl: Option<string>,
    treasurer: Snapshot,
    createdAt: int)

  /** A treasurer assignment: an owner id and a period. Nothing bounds the
      month, and nothing stops two assignments for the same period. */
  datatype Assignment = Assignment(ownerId: OwnerId, month: int, year: int)

  /** `/^[0-9]{12}$/`: exactly twelve decimal digits. */
  predicate IsTransactionId(s: string)
  {
    |s| == 12 && forall i :: 0 <= i < |s| ==> IsDigit(s[i])
  }

  /** The schema's validators: the transaction-id pattern, the required text
      fields (a required string must not be empty) and the enum. */
  predicate ValidPayment(p: Payment)
  {
    && IsTransactionId(p.transactionId)
    && p.flatNumber != ""
    && p.ownerName != ""
    && p.ownerMobile != ""
    && p.paymentType in PaymentTypes
  }

  /** Two payments collide on the (flatNumber, month, year) index. */
  predicate SamePeriodKey(p: Payment, q: Payment)
  {
    p.flatNumber == q.flatNumber && p.month == q.month && p.year == q.year
  }

  /** Both unique indexes hold over a collection. */
  predicate IndexesHold(ps: seq<Payment>)
  {
    forall i, j :: 0 <= i < j < |ps| ==>
      ps[i].transactionId != ps[j].transactionId && !SamePeriodKey(ps[i], ps[j])
  }

  /** Adding `p` would violate a unique index. */
  predicate Collides(ps: seq<Payment>, p: Payment)
  {
    exists i :: 0 <= i < |ps| && (ps[i].transactionId == p.transactionId || SamePeriodKey(ps[i], p))
  }

  /** Appending a payment that collides with nothing keeps both indexes. */
  lemma AppendKeepsIndexes(ps: seq<Payment>, p: Payment)
    requires IndexesHold(ps) && !Collides(ps, p)
    ensures IndexesHold(ps + [p])
  {
    var qs := ps + [p];
    forall i, j | 0 <= i < j < |qs|
      ensures qs[i].transactionId != qs[j].transactionId && !SamePeriodKey(qs[i], qs[j])
    {
      if j == |ps| {
        assert qs[i] == ps[i];
      }
    }
  }

  /** The controller upper-cases the submitted type before the enum check,
      so of the three enum values only "UPI" can ever be stored. */
  lemma UpperCasedTypeAdmitted(s: string)
    ensures Upper(s) in PaymentTypes <==> Lower(s) == "upi"
  {
    var u := Upper(s);
    if |u| > 1 {
      assert !IsLowerLetter(u[1]);
      assert IsLowerLetter("Cash"[1]) && IsLowerLetter("Bank Transfer"[1]);
    }
    assert u != "Cash" && u != "Bank Transfer";
    if u == "UPI" {
      assert Lower(s) == Lower(u);
    }
    if Lower(s) == "upi" {
      assert u == Upper(Lower(s));
    }
  }
}
