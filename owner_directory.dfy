/** The owners table and its create, read, update and delete operations.
    Phone numbers are unique across owners: create refuses a phone that is
    already present, update never touches the phone, and delete only
    removes. The one-time-password login and the treasurer snapshot read
    this table. */
module OwnerDirectory {
  import opened Common
  import opened OwnerModel

  const PhoneRequired: string := "Phone number is required"
  const PhoneExists: string := "Phone number already exists"
  const OwnerNotFound: string := "Owner not found"
  const OwnerCreated: string := "Owner created successfully"
  const OwnerUpdated: string := "Owner details updated successfully"
  const OwnerDeleted: string := "Owner deleted successfully"
  /** Stands for the validator's message, which the model does not spell out. */
  const ValidationFailed: string := "Owner validation failed"

  /** An HTTP reply: status code, message and, when there is one, the owner. */
  datatype Reply = Reply(status: int, message: string, owner: Option<Owner>)

  /** The body of an update request: `None` marks a field the body leaves out. */
  datatype OwnerPatch = OwnerPatch(
    name: Option<string>,
    phoneNumber: Option<string>,
    flatNumber: Option<string>,
    floorNumber: Option<string>,
    flatType: Option<string>,
    status: Option<string>,
    occupation: Option<string>,
    upiID: Option<string>,
    role: Option<string>,
    family: Option<Family>)

  function Pick(supplied: Option<string>, current: string): string
  {
    if supplied.Some? then supplied.value else current
  }

  /** The update applied to a stored owner, with `phoneNumber` stripped from
      the body first. */
  function Patched(o: Owner, p: OwnerPatch): (r: Owner)
    ensures r.id == o.id && r.phoneNumber == o.phoneNumber
    ensures r.otp == o.otp && r.otpExpires == o.otpExpires
    ensures p.name.Some? ==> r.name == p.name.value
    ensures p.name.None? ==> r.name == o.name
    ensures p.upiID.Some? ==> r.upiID == p.upiID.value
    ensures p.upiID.None? ==> r.upiID == o.upiID
    ensures p.flatNumber.Some? ==> r.flatNumber == p.flatNumber.value
    ensures p.flatNumber.None? ==> r.flatNumber == o.flatNumber
    ensures p.floorNumber.Some? ==> r.floorNumber == p.floorNumber.value
    ensures p.floorNumber.None? ==> r.floorNumber == o.floorNumber
    ensures p.flatType.Some? ==> r.flatType == p.flatType.value
    ensures p.flatType.None? ==> r.flatType == o.flatType
    ensures p.status.Some? ==> r.status == p.status.value
    ensures p.status.None? ==> r.status == o.status
    ensures p.occupation.Some? ==> r.occupation == p.occupation.value
    ensures p.occupation.None? ==> r.occupation == o.occupation
    ensures p.role.Some? ==> r.role == p.role.value
    ensures p.role.None? ==> r.role == o.role
    ensures p.family.Some? ==> r.family == p.family.value
    ensures p.family.None? ==> r.family == o.family
    ensures p == OwnerPatch(None, p.phoneNumber, None, None, None, None, None, None, None, None) ==> r == o
  {
    o.(name := Pick(p.name, o.name),
       flatNumber := Pick(p.flatNumber, o.flatNumber),
       floorNumber := Pick(p.floorNumber, o.floorNumber),
       flatType := Pick(p.flatType, o.flatType),
       status := Pick(p.status, o.status),
       occupation := Pick(p.occupation, o.occupation),
       upiID := Pick(p.upiID, o.upiID),
       role := Pick(p.role, o.role),
       family := if p.family.Some? then p.family.value else o.family)
  }

  /** The update validators: a supplied required field must not be empty,
      and supplied family details must name every child. */
  predicate PatchValid(p: OwnerPatch)
  {
    && (p.name.Some? ==> RequiredText(p.name.value))
    && (p.flatNumber.Some? ==> RequiredText(p.flatNumber.value))
    && (p.floorNumber.Some? ==> RequiredText(p.floorNumber.value))
    && (p.flatType.Some? ==> RequiredText(p.flatType.value))
    && (p.status.Some? ==> RequiredText(p.status.value))
    && (p.occupation.Some? ==> RequiredText(p.occupation.value))
    && (p.upiID.Some? ==> RequiredText(p.upiID.value))
    && (p.family.Some? ==> ValidFamily(p.family.value))
  }

  /** A valid update of a valid owner leaves a valid owner. */
  lemma PatchedValid(o: Owner, p: OwnerPatch)
    requires ValidOwner(o) && PatchValid(p)
    ensures ValidOwner(Patched(o, p))
  {
  }

  /** `findById`: the first row with the id. */
  function IndexOfId(rows: seq<Owner>, id: OwnerId): (r: Option<nat>)
    ensures r.Some? ==> r.value < |rows| && rows[r.value].id == id
    ensures r.Some? ==> forall j :: 0 <= j < r.value ==> rows[j].id != id
    ensures r.None? ==> forall j :: 0 <= j < |rows| ==> rows[j].id != id
  {
    if |rows| == 0 then None
    else if rows[0].id == id then Some(0)
    else match IndexOfId(rows[1..], id)
      case None => None
      case Some(k) => Some(k + 1)
  }

  /** `findOne({ phoneNumber })`: the first row with the phone number. */
  function IndexOfPhone(rows: seq<Owner>, phone: string): (r: Option<nat>)
    ensures r.Some? ==> r.value < |rows| && rows[r.value].phoneNumber == phone
    ensures r.Some? ==> forall j :: 0 <= j < r.value ==> rows[j].phoneNumber != phone
    ensures r.None? ==> forall j :: 0 <= j < |rows| ==> rows[j].phoneNumber != phone
  {
    if |rows| == 0 then None
    else if rows[0].phoneNumber == phone then Some(0)
    else match IndexOfPhone(rows[1..], phone)
      case None => None
      case Some(k) => Some(k + 1)
  }

  predicate IdsDistinct(rows: seq<Owner>)
  {
    forall i, j :: 0 <= i < j < |rows| ==> rows[i].id != rows[j].id
  }

  predicate PhonesDistinct(rows: seq<Owner>)
  {
    forall i, j :: 0 <= i < j < |rows| ==> rows[i].phoneNumber != rows[j].phoneNumber
  }

  /** Between logins an owner has both a code and an expiry, or neither. */
  predicate OtpFieldsAgree(o: Owner)
  {
    o.otp.Val? == o.otpExpires.Val?
  }

  /** Removing one row keeps the others, in order, and nothing else. */
  lemma {:induction false} RemoveAtKeepsOthers(rows: seq<Owner>, i: nat)
    requires i < |rows| && IdsDistinct(rows)
    ensures IdsDistinct(rows[..i] + rows[i + 1..])
    ensures PhonesDistinct(rows) ==> PhonesDistinct(rows[..i] + rows[i + 1..])
    ensures forall o :: o in rows[..i] + rows[i + 1..] <==> o in rows && o.id != rows[i].id
  {
    var rest := rows[..i] + rows[i + 1..];
    assert forall k :: 0 <= k < |rest| ==> rest[k] == rows[if k < i then k else k + 1];
    forall o | o in rows && o.id != rows[i].id
      ensures o in rest
    {
      var k :| 0 <= k < |rows| && rows[k] == o;
      assert rest[if k < i then k else k - 1] == o;
    }
  }

  class Directory {
    var rows: seq<Owner>
    var nextId: OwnerId

    ghost predicate Valid()
      reads this
    {
      && (forall i :: 0 <= i < |rows| ==> rows[i].id < nextId)
      && (forall i :: 0 <= i < |rows| ==> ValidOwner(rows[i]) && OtpFieldsAgree(rows[i]))
      && IdsDistinct(rows)
      && PhonesDistinct(rows)
    }

    constructor ()
      ensures Valid() && rows == [] && nextId == 0
    {
      rows := [];
      nextId := 0;
    }

    /** `getOwners`: every stored owner, in store order. */
    function GetOwners(): (r: seq<Owner>)
      reads this
      ensures |r| == |rows| && forall i :: 0 <= i < |r| ==> r[i] == rows[i]
    {
      rows
    }

    /** `getOwnerById`: the owner with the id, or 404. */
    function GetOwnerById(id: OwnerId): (r: Reply)
      reads this
      ensures r.status == 200 || r == Reply(404, OwnerNotFound, None)
      ensures r.status == 200 <==> exists i :: 0 <= i < |rows| && rows[i].id == id
      ensures r.status == 200 ==> r.owner.Some? && r.owner.value in rows && r.owner.value.id == id
    {
      match IndexOfId(rows, id)
      case None => Reply(404, OwnerNotFound, None)
      case Some(i) => Reply(200, "", Some(rows[i]))
    }

    /** `createOwner`: refuses a missing or already used phone number, then
        stores the owner under a fresh id with the supplied or default role,
        provided the schema's validators accept it. */
    method CreateOwner(body: OwnerInput) returns (r: Reply)
      requires Valid()
      modifies this
      ensures Valid()
      ensures body.phoneNumber == "" ==>
        r == Reply(400, PhoneRequired, None) && rows == old(rows) && nextId == old(nextId)
      ensures body.phoneNumber != "" && (exists i :: 0 <= i < |old(rows)| && old(rows)[i].phoneNumber == body.phoneNumber) ==>
        r == Reply(400, PhoneExists, None) && rows == old(rows) && nextId == old(nextId)
      ensures body.phoneNumber != "" && (forall i :: 0 <= i < |old(rows)| ==> old(rows)[i].phoneNumber != body.phoneNumber) ==>
        if ValidOwner(NewOwner(old(nextId), body)) then
          && r == Reply(201, OwnerCreated, Some(NewOwner(old(nextId), body)))
          && rows == old(rows) + [NewOwner(old(nextId), body)]
          && nextId == old(nextId) + 1
        else
          r == Reply(500, ValidationFailed, None) && rows == old(rows) && nextId == old(nextId)
    {
      if body.phoneNumber == "" {
        return Reply(400, PhoneRequired, None);
      }
      var existing := IndexOfPhone(rows, body.phoneNumber);
      if existing.Some? {
        return Reply(400, PhoneExists, None);
      }
      var owner := NewOwner(nextId, body);
      if !ValidOwner(owner) {
        return Reply(500, ValidationFailed, None);
      }
      rows := rows + [owner];
      nextId := nextId + 1;
      r := Reply(201, OwnerCreated, Some(owner));
    }

    /** `updateOwner`: replaces the supplied fields of the owner with the id,
        never its phone number; 404 for an unknown id, 400 when an update
        validator refuses. */
    method UpdateOwner(id: OwnerId, patch: OwnerPatch) returns (r: Reply)
      requires Valid()
      modifies this
      ensures Valid() && nextId == old(nextId) && |rows| == |old(rows)|
      ensures (forall i :: 0 <= i < |old(rows)| ==> old(rows)[i].id != id) ==>
        r == Reply(404, OwnerNotFound, None) && rows == old(rows)
      ensures forall i :: 0 <= i < |old(rows)| && old(rows)[i].id == id ==>
        if PatchValid(patch) then
          && rows == old(rows)[i := Patched(old(rows)[i], patch)]
          && r == Reply(200, OwnerUpdated, Some(Patched(old(rows)[i], patch)))
        else
          r == Reply(400, ValidationFailed, None) && rows == old(rows)
      ensures forall i :: 0 <= i < |rows| ==> rows[i].phoneNumber == old(rows)[i].phoneNumber
    {
      var found := IndexOfId(rows, id);
      if found.None? {
        return Reply(404, OwnerNotFound, None);
      }
      var i := found.value;
      assert forall j :: 0 <= j < |rows| && rows[j].id == id ==> j == i;
      if !PatchValid(patch) {
        return Reply(400, ValidationFailed, None);
      }
      var updated := Patched(rows[i], patch);
      PatchedValid(rows[i], patch);
      rows := rows[i := updated];
      r := Reply(200, OwnerUpdated, Some(updated));
    }

    /** `deleteOwner`: removes exactly the owner with the id; 404 for an
        unknown id. */
    method DeleteOwner(id: OwnerId) returns (r: Reply)
      requires Valid()
      modifies this
      ensures Valid() && nextId == old(nextId)
      ensures (forall i :: 0 <= i < |old(rows)| ==> old(rows)[i].id != id) ==>
        r == Reply(404, OwnerNotFound, None) && rows == old(rows)
      ensures forall i :: 0 <= i < |old(rows)| && old(rows)[i].id == id ==>
        r == Reply(200, OwnerDeleted, None) && rows == old(rows)[..i] + old(rows)[i + 1..]
      ensures forall o :: o in rows <==> o in old(rows) && o.id != id
    {
      var found := IndexOfId(rows, id);
      if found.None? {
        return Reply(404, OwnerNotFound, None);
      }
      var i := found.value;
      RemoveAtKeepsOthers(rows, i);
      var rest := rows[..i] + rows[i + 1..];
      assert forall k :: 0 <= k < |rest| ==> rest[k] in rows;
      rows := rest;
      r := Reply(200, OwnerDeleted, None);
    }
  }
}
