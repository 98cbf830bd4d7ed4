/** Properties that span several requests: the treasurer snapshot outlives
    edits of the owner record, a transaction id is never accepted twice, a
    flat pays at most once per period, and the first of several
    assignments for a period decides the treasurer. */
module LedgerScenarios {
  import opened Common
  import opened OwnerModel
  import opened OwnerDirectory
  import opened PaymentModel
  import opened PaymentLedger

  /** Recording a payment and then editing the treasurer's owner record:
      the stored payment, snapshot included, stays as recorded, while the
      owner table now holds the edited record. */
  method SnapshotOutlivesOwnerUpdate(
    ledger: Ledger, owners: Directory, req: PayRequest, file: Option<string>,
    assignments: seq<Assignment>, now: int, patch: OwnerPatch)
    returns (paid: PayReply, updated: Reply)
    requires ledger.Valid() && owners.Valid()
    modifies ledger, owners
    ensures ledger.Valid() && owners.Valid()
    ensures paid.status == 201 ==>
      && paid.payment.Some?
      && ledger.payments == old(ledger.payments) + [paid.payment.value]
      && TruthyNumber(req.month) && TruthyNumber(req.year)
      && var t := TreasurerFor(assignments, old(owners.rows), req.month.value, req.year.value);
         && t.Some?
         && paid.payment.value.treasurer == SnapshotOf(t.value)
         && (PatchValid(patch) ==>
              && updated == Reply(200, OwnerUpdated, Some(Patched(t.value, patch)))
              && Patched(t.value, patch) in owners.rows
              && forall i :: 0 <= i < |owners.rows| && owners.rows[i].id == t.value.id ==>
                   owners.rows[i] == Patched(t.value, patch))
  {
    paid := ledger.PayMaintenance(req, file, assignments, owners, now);
    updated := Reply(404, OwnerNotFound, None);
    if paid.status == 201 {
      var stored := ledger.payments;
      updated := owners.UpdateOwner(paid.payment.value.treasurer.treasurerId, patch);
      assert ledger.payments == stored;
    }
  }

  /** Two payment requests in a row: a repeated transaction id is refused
      with 409, and a second payment for the same flat and period is never
      recorded, whatever its transaction id. */
  method PayTwice(
    ledger: Ledger, owners: Directory, first: PayRequest, second: PayRequest,
    assignments: seq<Assignment>, file: Option<string>, t1: int, t2: int)
    returns (r1: PayReply, r2: PayReply)
    requires ledger.Valid()
    modifies ledger
    ensures ledger.Valid()
    ensures r1.status == 201 && second.transactionId == first.transactionId ==>
      r2 == PayReply(409, TransactionUsed, None)
    ensures r1.status == 201 && second.flatNumber == first.flatNumber &&
            second.month == first.month && second.year == first.year ==>
      r2.status != 201 && |ledger.payments| == |old(ledger.payments)| + 1
  {
    r1 := ledger.PayMaintenance(first, file, assignments, owners, t1);
    if r1.status == 201 {
      var p := r1.payment.value;
      var last := |ledger.payments| - 1;
      assert ledger.payments[last] == p;
      assert TransactionUsedIn(ledger.payments, first.transactionId);
      forall q: Payment | SamePeriodKey(p, q)
        ensures Collides(ledger.payments, q)
      {
        assert SamePeriodKey(ledger.payments[last], q);
      }
    }
    r2 := ledger.PayMaintenance(second, file, assignments, owners, t2);
  }

  /** Nothing stops two assignments for one period; the lookup takes the
      first one for the period, wherever it stands, so its owner, when it
      still exists, is the treasurer. */
  lemma FirstAssignmentDecides(assignments: seq<Assignment>, owners: seq<Owner>, month: int, year: int, o: Owner)
    requires o in owners && IdsDistinct(owners)
    requires FirstAssignment(assignments, month, year).Some?
    requires o.id == assignments[FirstAssignment(assignments, month, year).value].ownerId
    ensures TreasurerFor(assignments, owners, month, year) == Some(o)
  {
    var i := IndexOfId(owners, o.id);
    var k :| 0 <= k < |owners| && owners[k] == o;
    assert i.Some? && owners[i.value].id == o.id;
  }

  /** Assignments stored later for a period that already has one never
      change its treasurer. */
  lemma LaterAssignmentsIgnored(assignments: seq<Assignment>, later: seq<Assignment>, owners: seq<Owner>, month: int, year: int)
    requires FirstAssignment(assignments, month, year).Some?
    ensures TreasurerFor(assignments + later, owners, month, year) == TreasurerFor(assignments, owners, month, year)
  {
    var all := assignments + later;
    var k := FirstAssignment(assignments, month, year).value;
    assert forall j :: 0 <= j <= k ==> all[j] == assignments[j];
    var r := FirstAssignment(all, month, year);
    assert r.Some?;
    assert r.value == k;
  }
}
