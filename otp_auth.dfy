/** One-time-password login. Per owner the code moves through
    no code -> issued (code, expiry = now + 5 minutes) -> cleared after a
    successful verification. Verification reports an unknown phone first,
    then a wrong code, then an expired one. The wall clock is the `now`
    parameter (milliseconds) and the random draw is any code in range. */
module OtpAuth {
  import opened Common
  import opened OwnerModel
  import opened OwnerDirectory

  const MinCode: int := 100000
  const MaxCode: int := 999999
  /** A code is valid for 5 minutes. */
  const OtpLifetimeMs: int := 5 * 60 * 1000
  /** A login token is valid for 1 hour. */
  const TokenLifetimeSeconds: int := 60 * 60

  const PhoneMissing: string := "phone number is required"
  const MobileNotFound: string := "Mobile number not found"
  const OtpGenerated: string := "OTP generated successfully"
  const InvalidOtp: string := "Invalid OTP"
  const OtpExpired: string := "OTP expired"
  const OtpVerified: string := "OTP verified successfully"

  /** The claims of the signed login token: exactly the owner's id and
      role, and its lifetime. Signing is not modelled. */
  datatype Token = Token(id: OwnerId, role: string, ttlSeconds: int)

  /** Reply of `sendOtp`; the code is echoed back to the caller. */
  datatype OtpReply = OtpReply(status: int, message: string, code: Option<int>)

  /** Reply of `verifyOtp`. */
  datatype LoginReply = LoginReply(status: int, message: string, token: Option<Token>, owner: Option<Owner>)

  datatype Verdict = Mismatch | Expired | Accepted

  /** The owner after a code is issued: the new code and its expiry
      replace whatever was there. */
  function Issued(o: Owner, code: int, now: int): (r: Owner)
    ensures r.otp == Val(code) && r.otpExpires == Val(now + OtpLifetimeMs)
    ensures r.(otp := o.otp, otpExpires := o.otpExpires) == o
  {
    o.(otp := Val(code), otpExpires := Val(now + OtpLifetimeMs))
  }

  /** The owner after a successful verification: both fields cleared. */
  function Cleared(o: Owner): (r: Owner)
    ensures r.otp == Null && r.otpExpires == Null
    ensures r.(otp := o.otp, otpExpires := o.otpExpires) == o
  {
    o.(otp := Null, otpExpires := Null)
  }

  /** `owner.otpExpires < Date.now()` with JavaScript's comparison: an
      unset date compares as NaN (false), a null one as 0. */
  function ExpiredAsWritten(expires: Slot<int>, now: int): (b: bool)
    ensures expires.Val? ==> (b <==> expires.value < now)
    ensures expires == Unset ==> !b
    ensures expires == Null ==> (b <==> 0 < now)
  {
    match expires
    case Unset => false
    case Null => 0 < now
    case Val(e) => e < now
  }

  /** The checks of `verifyOtp` exactly as written: strict inequality of
      the stored and submitted codes, then the expiry comparison. */
  function JudgeAsWritten(o: Owner, submitted: Slot<int>, now: int): (v: Verdict)
    ensures o.otp != submitted ==> v == Mismatch
    ensures v == Expired ==> o.otp == submitted
  {
    if o.otp != submitted then Mismatch
    else if ExpiredAsWritten(o.otpExpires, now) then Expired
    else Accepted
  }

  /** As written, an owner who was never sent a code logs in with a request
      that carries no code: both sides are `undefined`, so they compare
      equal, and an undefined expiry is never in the past. */
  lemma NeverIssuedCodeAcceptedAsWritten(o: Owner, now: int)
    requires o.otp == Unset && o.otpExpires == Unset
    ensures JudgeAsWritten(o, Unset, now) == Accepted
  {
  }

  /** As written, an owner whose code was cleared by a successful login and
      a request carrying `"otp": null` get "OTP expired": `null !== null`
      is false, and a null date compares as 0, which lies in the past. */
  lemma ClearedCodeNullReportedExpiredAsWritten(o: Owner, now: int)
    requires o.otp == Null && o.otpExpires == Null && now > 0
    ensures JudgeAsWritten(o, Null, now) == Expired
    ensures Judge(o, Null, now) == Mismatch
  {
  }

  /** The checks of `verifyOtp` as intended: a code is accepted only when
      one is live, equals the submitted one, and has not expired. The
      expiry test is strict, so a code is still good at its expiry instant. */
  function Judge(o: Owner, submitted: Slot<int>, now: int): (v: Verdict)
    ensures v == Accepted <==>
      o.otp.Val? && submitted == o.otp && o.otpExpires.Val? && now <= o.otpExpires.value
    ensures v == Expired ==> o.otp.Val? && submitted == o.otp
    ensures !o.otp.Val? || submitted != o.otp ==> v == Mismatch
  {
    if !o.otp.Val? || o.otp != submitted then Mismatch
    else if !(o.otpExpires.Val? && now <= o.otpExpires.value) then Expired
    else Accepted
  }

  /** Whenever a code is live, the intended checks and the written ones agree. */
  lemma JudgeAgreesWhileCodeLive(o: Owner, submitted: Slot<int>, now: int)
    requires o.otp.Val? && o.otpExpires.Val?
    ensures Judge(o, submitted, now) == JudgeAsWritten(o, submitted, now)
  {
  }

  /** Issuing and then verifying: the issued code is accepted up to and
      including its expiry instant and refused as expired one millisecond
      later; any other code is refused as invalid, never as expired. */
  lemma IssuedCodeLifecycle(o: Owner, code: int, issuedAt: int, at: int, other: Slot<int>)
    requires other != Val(code)
    ensures Judge(Issued(o, code, issuedAt), Val(code), at) ==
      if at <= issuedAt + OtpLifetimeMs then Accepted else Expired
    ensures Judge(Issued(o, code, issuedAt), Val(code), issuedAt + OtpLifetimeMs) == Accepted
    ensures Judge(Issued(o, code, issuedAt), Val(code), issuedAt + OtpLifetimeMs + 1) == Expired
    ensures Judge(Issued(o, code, issuedAt), other, at) == Mismatch
  {
  }

  /** A code works once: after it has been accepted, whatever is submitted
      later is refused as invalid. */
  lemma NoReplayAfterSuccess(o: Owner, submitted: Slot<int>, now: int, again: Slot<int>, later: int)
    requires Judge(o, submitted, now) == Accepted
    ensures Judge(Cleared(o), again, later) == Mismatch
  {
  }

  /** A newer code replaces the older one: the older code is refused. */
  lemma ReissueInvalidatesOldCode(o: Owner, old1: int, new1: int, t1: int, t2: int, at: int)
    requires old1 != new1
    ensures Judge(Issued(Issued(o, old1, t1), new1, t2), Val(old1), at) == Mismatch
  {
  }

  /** `sendOtp`: 400 without a phone number, 404 for an unknown one;
      otherwise the owner with that phone gets a fresh 6-digit code valid
      for 5 minutes, replacing any earlier one, and no other owner changes. */
  method SendOtp(dir: Directory, phone: string, now: int) returns (r: OtpReply)
    requires dir.Valid()
    modifies dir
    ensures dir.Valid() && dir.nextId == old(dir.nextId)
    ensures phone == "" ==> r == OtpReply(400, PhoneMissing, None) && dir.rows == old(dir.rows)
    ensures phone != "" && (forall i :: 0 <= i < |old(dir.rows)| ==> old(dir.rows)[i].phoneNumber != phone) ==>
      r == OtpReply(404, MobileNotFound, None) && dir.rows == old(dir.rows)
    ensures forall i :: 0 <= i < |old(dir.rows)| && phone != "" && old(dir.rows)[i].phoneNumber == phone ==>
      && r.status == 200 && r.message == OtpGenerated && r.code.Some?
      && MinCode <= r.code.value <= MaxCode
      && dir.rows == old(dir.rows)[i := Issued(old(dir.rows)[i], r.code.value, now)]
  {
    if phone == "" {
      return OtpReply(400, PhoneMissing, None);
    }
    var found := IndexOfPhone(dir.rows, phone);
    if found.None? {
      return OtpReply(404, MobileNotFound, None);
    }
    var i := found.value;
    var code :| MinCode <= code <= MaxCode;
    dir.rows := dir.rows[i := Issued(dir.rows[i], code, now)];
    r := OtpReply(200, OtpGenerated, Some(code));
  }

  /** `verifyOtp`: 404 for an unknown phone; 400 "Invalid OTP" or
      "OTP expired" leave the owner as it was; on success both fields are
      cleared and a token with the owner's id and role is returned. */
  method VerifyOtp(dir: Directory, phone: string, submitted: Slot<int>, now: int) returns (r: LoginReply)
    requires dir.Valid()
    modifies dir
    ensures dir.Valid() && dir.nextId == old(dir.nextId)
    ensures (forall i :: 0 <= i < |old(dir.rows)| ==> old(dir.rows)[i].phoneNumber != phone) ==>
      r == LoginReply(404, OwnerNotFound, None, None) && dir.rows == old(dir.rows)
    ensures forall i :: 0 <= i < |old(dir.rows)| && old(dir.rows)[i].phoneNumber == phone ==>
      var o := old(dir.rows)[i];
      match Judge(o, submitted, now)
      case Mismatch => r == LoginReply(400, InvalidOtp, None, None) && dir.rows == old(dir.rows)
      case Expired => r == LoginReply(400, OtpExpired, None, None) && dir.rows == old(dir.rows)
      case Accepted =>
        && r == LoginReply(200, OtpVerified, Some(Token(o.id, o.role, TokenLifetimeSeconds)), Some(Cleared(o)))
        && dir.rows == old(dir.rows)[i := Cleared(o)]
  {
    var found := IndexOfPhone(dir.rows, phone);
    if found.None? {
      return LoginReply(404, OwnerNotFound, None, None);
    }
    var i := found.value;
    var o := dir.rows[i];
    if !o.otp.Val? || o.otp != submitted {
      return LoginReply(400, InvalidOtp, None, None);
    }
    if !(o.otpExpires.Val? && now <= o.otpExpires.value) {
      return LoginReply(400, OtpExpired, None, None);
    }
    dir.rows := dir.rows[i := Cleared(o)];
    r := LoginReply(200, OtpVerified, Some(Token(o.id, o.role, TokenLifetimeSeconds)), Some(Cleared(o)));
  }
}
