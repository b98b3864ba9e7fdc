/**
  Client runs of AuthService, proved from the operations' contracts alone:
  the registration and verification walk-through, the rollback of a
  registration whose mail fails, code rotation, password reset, and the
  sign-in paths.
 */
module AuthScenarios {
  import opened Auth

  /** An ideal bcrypt for the scenarios: a hash matches exactly the password
      it was made from, and an absent hash makes `compare` reject, as
      bcrypt's argument check does ("data and hash arguments required"). */
  function IdealCompare(password: string, hash: Option<PasswordHash>): Option<bool>
  {
    match hash
    case None => None
    case Some(h) => Some(h == HashOf(password))
  }

  /** The hash the ideal bcrypt stores for a password. */
  function HashOf(password: string): PasswordHash
  {
    "bcrypt:" + password
  }

  /** A signer that tells the two kinds of claims apart. */
  function DemoSign(claims: Claims): string
  {
    match claims
    case AccessClaims(_, _, _) => "access"
    case RefreshClaims(_) => "refresh"
  }

  /** Register, register again, verify with a wrong code, verify with the
      right code exactly at its expiry instant, verify once more. */
  method RegistrationScenario(now: int) returns (duplicate: Result<()>, wrong: Result<()>, first: Result<()>,
                                                 again: Result<()>, activated: bool)
    ensures duplicate == Failure(Conflict)
    ensures wrong == Failure(NotAcceptable(OtpIncorrect))
    ensures first == Success(()) && activated
    ensures again == Failure(NotFound)
  {
    var auth := new AuthService("USER");
    var created := auth.Create("Alice", "a@x.com", HashOf("P@ssw0rd!"), None, now, 1, true);
    assert created.Success?;
    duplicate := auth.Create("Alice B", "a@x.com", HashOf("0ther!Pass"), None, now, 1, true);
    var key := Key(auth.users["a@x.com"].id, Verification);
    var code := auth.verifications[key].code;
    var wrongCode := if code == "000000" then "111111" else "000000";
    wrong := auth.Verify("a@x.com", wrongCode, now);
    first := auth.Verify("a@x.com", code, now + OtpLifetimeMs);
    activated := auth.users["a@x.com"].activated;
    again := auth.Verify("a@x.com", code, now);
  }

  /** A code is refused one millisecond after its expiry instant. */
  method ExpiryScenario(now: int) returns (late: Result<()>, stillPending: bool)
    ensures late == Failure(NotAcceptable(OtpExpired)) && stillPending
  {
    var auth := new AuthService("USER");
    var created := auth.Create("Alice", "a@x.com", HashOf("P@ssw0rd!"), None, now, 1, true);
    var key := Key(auth.users["a@x.com"].id, Verification);
    late := auth.Verify("a@x.com", auth.verifications[key].code, now + OtpLifetimeMs + 1);
    stillPending := key in auth.verifications && !auth.users["a@x.com"].activated;
  }

  /** A registration whose mail fails leaves no account behind, so the same
      email can register again. */
  method MailFailureScenario(now: int) returns (failed: Result<()>, retried: Result<()>)
    ensures failed == Failure(MailFailed)
    ensures retried == Success(())
  {
    var auth := new AuthService("USER");
    failed := auth.Create("Alice", "a@x.com", HashOf("P@ssw0rd!"), None, now, 1, false);
    retried := auth.Create("Alice", "a@x.com", HashOf("P@ssw0rd!"), None, now, 1, true);
  }

  /** After a new verification code is requested, the earlier code is no
      longer accepted and the new one is. */
  method RotationScenario(now: int) returns (renewed: Result<()>, stale: Result<()>, current: Result<()>)
    ensures renewed.Success? ==> stale == Failure(NotAcceptable(OtpIncorrect)) && current == Success(())
  {
    var auth := new AuthService("USER");
    var created := auth.Create("Alice", "a@x.com", HashOf("P@ssw0rd!"), Some("ADMIN"), now, 1, true);
    var key := Key(auth.users["a@x.com"].id, Verification);
    var firstCode := auth.verifications[key].code;
    renewed := auth.RenewVerificationCode("a@x.com", now + 1000, 5, true);
    if renewed.Success? {
      var secondCode := auth.verifications[key].code;
      assert secondCode != firstCode;
      stale := auth.Verify("a@x.com", firstCode, now + 2000);
      current := auth.Verify("a@x.com", secondCode, now + 2000);
    } else {
      stale, current := renewed, renewed;
    }
  }

  /** Sign-in on an account that is not verified yet: a wrong password is
      Unauthorized, the right one NotAcceptable. */
  method InactiveSignInScenario(now: int, yearFromNow: int)
    returns (wrongPassword: Result<Session>, rightPassword: Result<Session>)
    ensures wrongPassword == Failure(Unauthorized)
    ensures rightPassword == Failure(NotAcceptable(AccountNotVerified))
  {
    var auth := new AuthService("USER");
    var created := auth.Create("Alice", "a@x.com", HashOf("P@ssw0rd!"), None, now, 1, true);
    assert auth.users["a@x.com"].password == Some(HashOf("P@ssw0rd!"));
    wrongPassword := auth.SignIn("a@x.com", "guess", IdealCompare, DemoSign, yearFromNow);
    rightPassword := auth.SignIn("a@x.com", "P@ssw0rd!", IdealCompare, DemoSign, yearFromNow);
  }

  /** Sign-in on a verified account with the right password: signIn as
      written fails, because it compares against the hash validateUser has
      deleted, while the corrected signIn returns the redacted user and the
      tokens. */
  method SignInScenario(now: int, yearFromNow: int)
    returns (asWritten: Result<Session>, corrected: Result<Session>)
    ensures asWritten == Failure(CompareRejected)
    ensures corrected.Success? && corrected.value.user.password == None
    ensures corrected.Success? && corrected.value.refreshToken == "refresh"
  {
    var auth := new AuthService("USER");
    var created := auth.Create("Alice", "a@x.com", HashOf("P@ssw0rd!"), None, now, 1, true);
    var key := Key(auth.users["a@x.com"].id, Verification);
    var verified := auth.Verify("a@x.com", auth.verifications[key].code, now);
    assert auth.users["a@x.com"].activated && auth.users["a@x.com"].password == Some(HashOf("P@ssw0rd!"));
    asWritten := auth.SignInAsWritten("a@x.com", "P@ssw0rd!", IdealCompare, DemoSign, yearFromNow);
    corrected := auth.SignIn("a@x.com", "P@ssw0rd!", IdealCompare, DemoSign, yearFromNow);
  }

  /** Sign-in on an activated account whose stored hash is that of
      `current`: a `previous` password gives Unauthorized, `current` signs in. */
  method SignInWithBoth(auth: AuthService, email: Email, previous: string, current: string, yearFromNow: int)
    returns (withPrevious: Result<Session>, withCurrent: Result<Session>)
    requires auth.Valid()
    requires email in auth.users && auth.users[email].activated
    requires auth.users[email].password == Some(HashOf(current)) && previous != current
    modifies auth`tokens
    ensures withPrevious == Failure(Unauthorized)
    ensures withCurrent.Success?
  {
    assert HashOf(previous) != HashOf(current) by {
      assert HashOf(previous)[7..] == previous && HashOf(current)[7..] == current;
    }
    withPrevious := auth.SignIn(email, previous, IdealCompare, DemoSign, yearFromNow);
    withCurrent := auth.SignIn(email, current, IdealCompare, DemoSign, yearFromNow);
  }

  /** A password reset replaces the hash and nothing else: the account stays
      activated, the old password stops working and the new one works. */
  method PasswordResetScenario(now: int, yearFromNow: int)
    returns (requested: Result<()>, reset: Result<()>, oldPassword: Result<Session>, newPassword: Result<Session>)
    ensures requested == Success(()) && reset == Success(())
    ensures oldPassword == Failure(Unauthorized)
    ensures newPassword.Success?
  {
    var auth := new AuthService("USER");
    var created := auth.Create("Alice", "a@x.com", HashOf("P@ssw0rd!"), None, now, 1, true);
    var key := Key(auth.users["a@x.com"].id, Verification);
    var verified := auth.Verify("a@x.com", auth.verifications[key].code, now);
    assert auth.verifications == map[];
    requested := auth.RequestResetPassword("a@x.com", now, 1, true);
    var resetKey := Key(auth.users["a@x.com"].id, PasswordReset);
    assert resetKey in auth.verifications && auth.verifications[resetKey].expiry == now + OtpLifetimeMs;
    reset := auth.ResetPassword("a@x.com", HashOf("N3w!Passw0rd"), auth.verifications[resetKey].code, now);
    oldPassword, newPassword := SignInWithBoth(auth, "a@x.com", "P@ssw0rd!", "N3w!Passw0rd", yearFromNow);
  }
}
