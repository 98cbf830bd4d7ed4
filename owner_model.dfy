/** The owner record of the housing complex: identity, contact, flat,
    payment handle, the one-time-password fields and family details, with
    the schema's required fields and defaults. */
module OwnerModel {
  import opened Common

  /** A document id; the store hands out fresh ones. */
  type OwnerId = nat

  /** The role given to an owner created without one. */
  const DefaultRole: string := "resident"

  /** A child entry; its name is required. */
  datatype Child = Child(name: string)

  datatype Family = Family(spouseName: Option<string>, numberOfChildren: int, children: seq<Child>)

  /** An owner as stored. `otp` and `otpExpires` (milliseconds since the
      epoch) are optional and are cleared to `Null` after a login. */
  datatype Owner = Owner(
    id: OwnerId,
    name: string,
    phoneNumber: string,
    flatNumber: string,
    floorNumber: string,
    flatType: string,
    status: string,
    occupation: string,
    upiID: string,
    role: string,
    otp: Slot<int>,
    otpExpires: Slot<int>,
    family: Family)

  /** Family details as a request supplies them: the number of children may
      be left out. */
  datatype FamilyInput = FamilyInput(spouseName: Option<string>, numberOfChildren: Option<int>, children: seq<Child>)

  /** The body of a create request. A text field that is missing is the
      empty string: the controller and the schema treat both alike. */
  datatype OwnerInput = OwnerInput(
    name: string,
    phoneNumber: string,
    flatNumber: string,
    floorNumber: string,
    flatType: string,
    status: string,
    occupation: string,
    upiID: string,
    role: string,
    family: FamilyInput)

  /** A required `String` path accepts only a non-empty string. */
  predicate RequiredText(s: string)
  {
    s != ""
  }

  predicate ValidFamily(f: Family)
  {
    forall c :: c in f.children ==> RequiredText(c.name)
  }

  /** The schema's validators: eight required text fields and a name for
      every child. */
  predicate ValidOwner(o: Owner)
  {
    && RequiredText(o.name)
    && RequiredText(o.phoneNumber)
    && RequiredText(o.flatNumber)
    && RequiredText(o.floorNumber)
    && RequiredText(o.flatType)
    && RequiredText(o.status)
    && RequiredText(o.occupation)
    && RequiredText(o.upiID)
    && ValidFamily(o.family)
  }

  /** Family details with the schema's default applied. */
  function FamilyWithDefaults(f: FamilyInput): (r: Family)
    ensures r.numberOfChildren == if f.numberOfChildren.Some? then f.numberOfChildren.value else 0
    ensures r.spouseName == f.spouseName && r.children == f.children
  {
    Family(f.spouseName, if f.numberOfChildren.Some? then f.numberOfChildren.value else 0, f.children)
  }

  /** The document a create request builds before it is validated: the
      supplied role or the default one, and no code. */
  function NewOwner(id: OwnerId, body: OwnerInput): (o: Owner)
    ensures o.id == id && o.phoneNumber == body.phoneNumber
    ensures o.role == if body.role != "" then body.role else DefaultRole
    ensures o.otp == Unset && o.otpExpires == Unset
    ensures o.name == body.name && o.flatNumber == body.flatNumber && o.floorNumber == body.floorNumber
    ensures o.flatType == body.flatType && o.status == body.status && o.occupation == body.occupation
    ensures o.upiID == body.upiID && o.family == FamilyWithDefaults(body.family)
  {
    Owner(id, body.name, body.phoneNumber, body.flatNumber, body.floorNumber,
          body.flatType, body.status, body.occupation, body.upiID,
          if body.role != "" then body.role else DefaultRole,
          Unset, Unset, FamilyWithDefaults(body.family))
  }

  /** A create request passes the schema's validators exactly when every
      required text field is present and every child is named. */
  lemma NewOwnerValidIff(id: OwnerId, body: OwnerInput)
    ensures ValidOwner(NewOwner(id, body)) <==>
      && body.name != "" && body.phoneNumber != "" && body.flatNumber != ""
      && body.floorNumber != "" && body.flatType != "" && body.status != ""
      && body.occupation != "" && body.upiID != ""
      && forall c :: c in body.family.children ==> c.name != ""
  {
  }
}
