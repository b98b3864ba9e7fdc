/**
  The account and one-time-code state machine of AuthService
  (src/_modules_/auth/auth.service.ts): registration with an emailed
  verification code, verification, code rotation, password reset and
  sign-in with token issue.

  The database is an abstract store held in the fields of the class:
  users by email, verification records by (user id, code type), and the
  list of issued refresh tokens. Time is an integer number of milliseconds
  (`now`), supplied by the caller. bcrypt, JWT signing and mail delivery are
  parameters of the operations that use them.
 */
module Auth {

  type Email = string
  type Code = string
  type Role = string
  /** A bcrypt hash string as stored in the password column. */
  type PasswordHash = string

  datatype Option<T> = None | Some(value: T)

  /** The two purposes a one-time code can serve (UserCodeType). */
  datatype CodeType = Verification | PasswordReset

  /** Why a request was refused with NotAcceptableException: the message it carries. */
  datatype Refusal = OtpIncorrect | OtpExpired | AccountNotVerified

  /** The exceptions the service raises, plus the two failures that come
      from its collaborators (a mail that could not be sent, a bcrypt call
      that rejected) and the retry cap of the code generator. */
  datatype Error =
    | Conflict
    | NotFound
    | NotAcceptable(why: Refusal)
    | Unauthorized
    | MailFailed
    | CompareRejected
    | RetriesExhausted

  datatype Result<T> = Success(value: T) | Failure(error: Error)

  /** A user row. `password` is None only on a copy handed out after
      `delete user.password`; rows in the store always carry a hash. */
  datatype User = User(id: nat, email: Email, fullName: string, password: Option<PasswordHash>,
                       role: Role, activated: bool)

  /** The lookup key of a verification row: its owner and its purpose. */
  datatype Key = Key(userId: nat, kind: CodeType)

  datatype VerificationRecord = VerificationRecord(id: nat, code: Code, expiry: int)

  datatype TokenRecord = TokenRecord(userId: nat, refreshToken: string, expiry: int)

  /** The claims signed into the access token and into the refresh token. */
  datatype Claims = AccessClaims(id: nat, email: Email, role: Role) | RefreshClaims(sub: nat)

  /** What sign-in returns: the redacted user and both tokens. */
  datatype Session = Session(user: User, accessToken: string, refreshToken: string)

  /** bcrypt's `compare(password, hash)`: Some(b) when it resolves to b,
      None when it rejects. The hash argument is None when the caller passes
      an absent (deleted) field. */
  type Comparer = (string, Option<PasswordHash>) -> Option<bool>

  /** JWT signing with the secret and lifetime configured for each kind of claims. */
  type Signer = Claims -> string

  /** Codes stay valid for three minutes (`add(3, 'minutes')`). */
  const OtpLifetimeMs: int := 3 * 60 * 1000

  /** The shape of a generated code: exactly six characters, each a decimal digit. */
  predicate IsOtpCode(s: string)
  {
    |s| == 6 && forall i :: 0 <= i < |s| ==> '0' <= s[i] <= '9'
  }

  /** Every code held by some verification row. */
  function Codes(verifications: map<Key, VerificationRecord>): set<Code>
  {
    set k | k in verifications :: verifications[k].code
  }

  /** `prisma.userVerification.delete({ where: { id } })`. */
  function DeleteVerificationById(verifications: map<Key, VerificationRecord>, id: nat): map<Key, VerificationRecord>
  {
    map k | k in verifications && verifications[k].id != id :: verifications[k]
  }

  /** `prisma.user.delete({ where: { id } })` on the user table. */
  function DeleteUserById(users: map<Email, User>, id: nat): map<Email, User>
  {
    map e | e in users && users[e].id != id :: users[e]
  }

  /** The verification rows that survive when the user `userId` is deleted
      (they are owned by, and cascade with, their user). */
  function DeleteOwnedVerifications(verifications: map<Key, VerificationRecord>, userId: nat): map<Key, VerificationRecord>
  {
    map k | k in verifications && k.userId != userId :: verifications[k]
  }

  /** The ids of the users in a user table. */
  function UserIdsOf(users: map<Email, User>): set<nat>
  {
    set e | e in users :: users[e].id
  }

  /** Inserting a user under a new email adds exactly its id. */
  lemma InsertAddsUserId(users: map<Email, User>, email: Email, user: User)
    requires email !in users
    ensures UserIdsOf(users[email := user]) == UserIdsOf(users) + {user.id}
  {
    var after := users[email := user];
    forall id | id in UserIdsOf(users) ensures id in UserIdsOf(after) {
      var e :| e in users && users[e].id == id;
      assert after[e].id == id;
    }
    assert after[email].id == user.id;
  }

  /** Replacing a user by a row with the same id keeps the set of ids. */
  lemma UpdateKeepsUserIds(users: map<Email, User>, email: Email, user: User)
    requires email in users && users[email].id == user.id
    ensures UserIdsOf(users[email := user]) == UserIdsOf(users)
  {
    var after := users[email := user];
    forall id | id in UserIdsOf(users) ensures id in UserIdsOf(after) {
      var e :| e in users && users[e].id == id;
      if e == email { assert after[email].id == id; } else { assert after[e].id == id; }
    }
  }

  /** Verification row ids are unique. */
  ghost predicate IdsUnique(verifications: map<Key, VerificationRecord>)
  {
    forall k1, k2 | k1 in verifications && k2 in verifications && k1 != k2 ::
      verifications[k1].id != verifications[k2].id
  }

  /** Code values are unique across all live rows, whatever their owner or purpose. */
  ghost predicate CodesUnique(verifications: map<Key, VerificationRecord>)
  {
    forall k1, k2 | k1 in verifications && k2 in verifications && k1 != k2 ::
      verifications[k1].code != verifications[k2].code
  }

  /** Deleting a row by its id removes exactly the row found under `key`
      and nothing else, because ids are unique. */
  lemma DeleteByIdRemovesOnlyThatRow(verifications: map<Key, VerificationRecord>, key: Key)
    requires IdsUnique(verifications)
    requires key in verifications
    ensures DeleteVerificationById(verifications, verifications[key].id) == verifications - {key}
  {
  }

  /** Removing one row keeps the code values and the row ids unique. */
  lemma RemovalKeepsCodesUnique(verifications: map<Key, VerificationRecord>, key: Key)
    requires CodesUnique(verifications) && IdsUnique(verifications)
    ensures CodesUnique(verifications - {key}) && IdsUnique(verifications - {key})
    ensures Codes(verifications - {key}) <= Codes(verifications)
  {
  }

  /** Writing a code that no row holds, under any key, keeps codes unique. */
  lemma FreshCodeKeepsCodesUnique(verifications: map<Key, VerificationRecord>, key: Key, rec: VerificationRecord)
    requires CodesUnique(verifications)
    requires rec.code !in Codes(verifications)
    ensures CodesUnique(verifications[key := rec])
  {
  }

  /** The store's integrity: user rows are keyed by their own email, carry
      a hash, have unique ids below the autoincrement counter; every
      verification row belongs to a stored user, has an id below its counter
      and a six-digit code; row ids and codes are unique; every token
      belongs to a stored user. */
  ghost predicate StoreValid(users: map<Email, User>, verifications: map<Key, VerificationRecord>,
                             tokens: seq<TokenRecord>, nextUserId: nat, nextVerificationId: nat)
  {
    && (forall e | e in users ::
          users[e].email == e && users[e].password.Some? && users[e].id < nextUserId)
    && (forall e1, e2 | e1 in users && e2 in users && e1 != e2 :: users[e1].id != users[e2].id)
    && (forall k | k in verifications ::
          k.userId in UserIdsOf(users) && verifications[k].id < nextVerificationId
          && IsOtpCode(verifications[k].code))
    && IdsUnique(verifications)
    && CodesUnique(verifications)
    && (forall i | 0 <= i < |tokens| :: tokens[i].userId in UserIdsOf(users))
  }

  /** Registration keeps the store valid: a user under a new email with the
      next user id, and its verification row with the next row id and a
      six-digit code that no row holds. */
  lemma RegistrationKeepsStoreValid(users: map<Email, User>, verifications: map<Key, VerificationRecord>,
                                    tokens: seq<TokenRecord>, nextUserId: nat, nextVerificationId: nat,
                                    email: Email, user: User, rec: VerificationRecord)
    requires StoreValid(users, verifications, tokens, nextUserId, nextVerificationId)
    requires email !in users && user.email == email && user.id == nextUserId && user.password.Some?
    requires rec.id == nextVerificationId && IsOtpCode(rec.code) && rec.code !in Codes(verifications)
    ensures StoreValid(users[email := user], verifications[Key(user.id, Verification) := rec], tokens,
                       nextUserId + 1, nextVerificationId + 1)
  {
    InsertAddsUserId(users, email, user);
    FreshCodeKeepsCodesUnique(verifications, Key(user.id, Verification), rec);
    var v := verifications[Key(user.id, Verification) := rec];
    forall k1, k2 | k1 in v && k2 in v && k1 != k2 ensures v[k1].id != v[k2].id {
      if k1 != Key(user.id, Verification) && k2 != Key(user.id, Verification) {
        assert verifications[k1].id != verifications[k2].id;
      }
    }
  }

  /** The compensating delete of a just-registered user restores the tables
      as they were: no other user has its id, and the only row it owns is
      the one registration created. */
  lemma CompensatingDeleteRestores(users: map<Email, User>, verifications: map<Key, VerificationRecord>,
                                   tokens: seq<TokenRecord>, nextUserId: nat, nextVerificationId: nat,
                                   email: Email, user: User, rec: VerificationRecord)
    requires StoreValid(users, verifications, tokens, nextUserId, nextVerificationId)
    requires email !in users && user.id == nextUserId
    ensures DeleteUserById(users[email := user], user.id) == users
    ensures DeleteOwnedVerifications(verifications[Key(user.id, Verification) := rec], user.id) == verifications
  {
  }

  /** Consuming a code keeps the store valid: the user row is replaced by
      one with the same id, email and a hash, and one verification row is
      deleted. */
  lemma ConsumptionKeepsStoreValid(users: map<Email, User>, verifications: map<Key, VerificationRecord>,
                                   tokens: seq<TokenRecord>, nextUserId: nat, nextVerificationId: nat,
                                   email: Email, user: User, key: Key)
    requires StoreValid(users, verifications, tokens, nextUserId, nextVerificationId)
    requires email in users && user.id == users[email].id && user.email == email && user.password.Some?
    ensures StoreValid(users[email := user], verifications - {key}, tokens, nextUserId, nextVerificationId)
  {
    UpdateKeepsUserIds(users, email, user);
    RemovalKeepsCodesUnique(verifications, key);
  }

  /** Rotating the code of (userId, kind) to a six-digit code no row holds
      keeps the store valid, whether the row is updated in place (same id)
      or created with the next id. */
  lemma RotationKeepsStoreValid(users: map<Email, User>, verifications: map<Key, VerificationRecord>,
                                tokens: seq<TokenRecord>, nextUserId: nat, nextVerificationId: nat,
                                key: Key, rec: VerificationRecord)
    requires StoreValid(users, verifications, tokens, nextUserId, nextVerificationId)
    requires key.userId in UserIdsOf(users)
    requires IsOtpCode(rec.code) && rec.code !in Codes(verifications)
    requires key in verifications ==> rec.id == verifications[key].id
    requires key !in verifications ==> rec.id == nextVerificationId
    ensures StoreValid(users, verifications[key := rec], tokens, nextUserId,
                       if key in verifications then nextVerificationId else nextVerificationId + 1)
  {
  }

  class AuthService {
    /** The user table, by its unique email column. */
    var users: map<Email, User>
    /** The verification table, by its (userId, type) lookup. */
    var verifications: map<Key, VerificationRecord>
    /** The refresh-token table, in insertion order. */
    var tokens: seq<TokenRecord>
    /** The next autoincrement values of the two tables. */
    var nextUserId: nat
    var nextVerificationId: nat
    /** The role the schema gives a user created without `userRole`. */
    const defaultRole: Role

    /** The ids of all stored users. */
    function UserIds(): set<nat>
      reads this
    {
      UserIdsOf(users)
    }

    /** The store's integrity (StoreValid) holds of the fields. */
    ghost predicate Valid()
      reads this
    {
      StoreValid(users, verifications, tokens, nextUserId, nextVerificationId)
    }

    constructor (defaultRole: Role)
      ensures Valid()
      ensures users == map[] && verifications == map[] && tokens == []
      ensures this.defaultRole == defaultRole
    {
      users, verifications, tokens := map[], map[], [];
      nextUserId, nextVerificationId := 0, 0;
      this.defaultRole := defaultRole;
    }

    /** generateRandomCode (auth.service.ts:123-130): six characters, each
        drawn from "0123456789" at an index the random source chooses. */
    method GenerateRandomCode() returns (code: Code)
      ensures IsOtpCode(code)
    {
      var characters := "0123456789";
      code := "";
      for i := 0 to 6
        invariant |code| == i
        invariant forall j :: 0 <= j < i ==> '0' <= code[j] <= '9'
      {
        // Math.floor(Math.random() * characters.length)
        var index :| 0 <= index < |characters|;
        code := code + [characters[index]];
      }
    }

    /** generateUniqueCode (auth.service.ts:108-121): draw codes until one
        matches no stored verification row. The source retries without
        bound; here at most `maxAttempts` draws are made, and None means
        every draw collided. */
    method GenerateUniqueCode(maxAttempts: nat) returns (r: Option<Code>)
      ensures r.Some? ==> IsOtpCode(r.value) && r.value !in Codes(verifications)
      ensures verifications == map[] && maxAttempts > 0 ==> r.Some?
    {
      var code: Code := "";
      var isUnique := false;
      var attempts := 0;
      while !isUnique && attempts < maxAttempts
        invariant attempts <= maxAttempts
        invariant isUnique ==> IsOtpCode(code) && code !in Codes(verifications)
        invariant verifications == map[] && attempts > 0 ==> isUnique
        decreases maxAttempts - attempts
      {
        code := GenerateRandomCode();
        // findUnique({ where: { verifyCode } }) finds no row
        isUnique := code !in Codes(verifications);
        attempts := attempts + 1;
      }
      r := if isUnique then Some(code) else None;
    }

    /** `prisma.user.create` with a nested userVerification create
        (auth.service.ts:51-73): the user and its VERIFICATION row are
        written together, with the next ids of both tables. */
    method InsertUser(user: User, record: VerificationRecord)
      requires Valid()
      requires user.email !in users && user.id == nextUserId && user.password.Some?
      requires record.id == nextVerificationId && IsOtpCode(record.code) && record.code !in Codes(verifications)
      modifies this
      ensures Valid()
      ensures users == old(users)[user.email := user]
      ensures verifications == old(verifications)[Key(user.id, Verification) := record]
      ensures nextUserId == old(nextUserId) + 1 && nextVerificationId == old(nextVerificationId) + 1
      ensures tokens == old(tokens)
    {
      RegistrationKeepsStoreValid(users, verifications, tokens, nextUserId, nextVerificationId,
                                  user.email, user, record);
      users := users[user.email := user];
      verifications := verifications[Key(user.id, Verification) := record];
      nextUserId, nextVerificationId := nextUserId + 1, nextVerificationId + 1;
    }

    /** `prisma.user.delete({ where: { id } })` (auth.service.ts:84): the
        user row goes, and its verification rows cascade with it. It makes
        no promise about `Valid()` on its own: it is only sound as the
        rollback of the insert just before it, where
        `CompensatingDeleteRestores` shows the store returns to the valid
        state it had before the insert. */
    method DeleteUser(id: nat)
      modifies this`users, this`verifications
      ensures users == DeleteUserById(old(users), id)
      ensures verifications == DeleteOwnedVerifications(old(verifications), id)
    {
      users := DeleteUserById(users, id);
      verifications := DeleteOwnedVerifications(verifications, id);
    }

    /** create (auth.service.ts:34-89): register `email`, unless it is taken.
        The new user is inactive and owns one VERIFICATION row whose code
        matches no stored code and which expires three minutes from `now`.
        Both rows are written by one nested create. If the mail with the
        code cannot be sent, the user is deleted (its verification row with
        it) and the mail error is raised again. `passwordHash` is what bcrypt
        produced for the submitted password; `mailDelivered` is the outcome
        of sending the mail. */
    method Create(fullName: string, email: Email, passwordHash: PasswordHash, userRole: Option<Role>,
                  now: int, maxAttempts: nat, mailDelivered: bool) returns (r: Result<()>)
      requires Valid()
      modifies this
      ensures Valid()
      ensures email in old(users) ==> r == Failure(Conflict)
      ensures r.Failure? ==> users == old(users) && verifications == old(verifications)
      ensures email !in old(users) && !mailDelivered ==> r == Failure(MailFailed) || r == Failure(RetriesExhausted)
      ensures email !in old(users) && mailDelivered ==> r == Success(()) || r == Failure(RetriesExhausted)
      ensures old(verifications) == map[] && maxAttempts > 0 ==> r != Failure(RetriesExhausted)
      ensures r.Success? ==>
        var id := old(nextUserId);
        var key := Key(id, Verification);
        && users == old(users)[email := User(id, email, fullName, Some(passwordHash),
                                            if userRole.Some? then userRole.value else defaultRole, false)]
        && key in verifications
        && verifications == old(verifications)[key := verifications[key]]
        && verifications[key].id == old(nextVerificationId)
        && verifications[key].expiry == now + OtpLifetimeMs
        && verifications[key].code !in Codes(old(verifications))
      ensures r == Failure(Conflict) || r == Failure(RetriesExhausted) ==>
        nextUserId == old(nextUserId) && nextVerificationId == old(nextVerificationId)
      ensures r == Success(()) || r == Failure(MailFailed) ==>
        nextUserId == old(nextUserId) + 1 && nextVerificationId == old(nextVerificationId) + 1
      ensures tokens == old(tokens)
    {
      if email in users {
        return Failure(Conflict);
      }
      var verifyCode := GenerateUniqueCode(maxAttempts);
      if verifyCode.None? {
        return Failure(RetriesExhausted);
      }
      var expiredDate := now + OtpLifetimeMs;
      var role := if userRole.Some? then userRole.value else defaultRole;
      var user := User(nextUserId, email, fullName, Some(passwordHash), role, false);
      var key := Key(user.id, Verification);
      var record := VerificationRecord(nextVerificationId, verifyCode.value, expiredDate);
      ghost var oldUsers, oldVerifications := users, verifications;
      InsertUser(user, record);
      if !mailDelivered {
        CompensatingDeleteRestores(oldUsers, oldVerifications, tokens, user.id, record.id, email, user, record);
        DeleteUser(user.id);
        return Failure(MailFailed);
      }
      r := Success(());
    }

    /** The checks verify and resetPassword make before they change anything,
        in their order (auth.service.ts:134-157 and :241-264): a user with
        `email` owning a row of `kind`; the submitted code equal to the
        row's; the row not expired, where a code used at its expiry instant
        is still accepted (`isAfter` is strict). */
    function CheckOtp(email: Email, kind: CodeType, submitted: Code, now: int): (r: Result<(User, VerificationRecord)>)
      reads this
      ensures r == Failure(NotFound) <==> !(email in users && Key(users[email].id, kind) in verifications)
      ensures r.Success? <==>
        && email in users && Key(users[email].id, kind) in verifications
        && submitted == verifications[Key(users[email].id, kind)].code
        && now <= verifications[Key(users[email].id, kind)].expiry
      ensures r.Success? ==> r.value == (users[email], verifications[Key(users[email].id, kind)])
      ensures email in users && Key(users[email].id, kind) in verifications
              && submitted != verifications[Key(users[email].id, kind)].code
              ==> r == Failure(NotAcceptable(OtpIncorrect))
      ensures email in users && Key(users[email].id, kind) in verifications
              && submitted == verifications[Key(users[email].id, kind)].code
              && now > verifications[Key(users[email].id, kind)].expiry
              ==> r == Failure(NotAcceptable(OtpExpired))
      ensures r.Failure? ==> r.error in {NotFound, NotAcceptable(OtpIncorrect), NotAcceptable(OtpExpired)}
    {
      if email !in users || Key(users[email].id, kind) !in verifications then
        Failure(NotFound)
      else
        var user := users[email];
        var record := verifications[Key(user.id, kind)];
        if submitted != record.code then
          Failure(NotAcceptable(OtpIncorrect))
        else if now > record.expiry then
          Failure(NotAcceptable(OtpExpired))
        else
          Success((user, record))
    }

    /** The transaction that verify and resetPassword run once a code has
        been accepted (auth.service.ts:159-173, 268-283): the user row is
        updated and the code's row is deleted by its id, both at once. */
    method ConsumeCode(email: Email, updated: User, key: Key)
      requires Valid()
      requires email in users && updated.id == users[email].id && updated.email == email && updated.password.Some?
      requires key in verifications
      modifies this`users, this`verifications
      ensures Valid()
      ensures users == old(users)[email := updated]
      ensures verifications == old(verifications) - {key}
    {
      DeleteByIdRemovesOnlyThatRow(verifications, key);
      ConsumptionKeepsStoreValid(users, verifications, tokens, nextUserId, nextVerificationId, email, updated, key);
      users, verifications := users[email := updated], DeleteVerificationById(verifications, verifications[key].id);
    }

    /** verify (auth.service.ts:132-176): after CheckOtp succeeds for the
        VERIFICATION row, activate the user and delete the row in one
        transaction; a failed check changes nothing. */
    method Verify(email: Email, verifyCode: Code, now: int) returns (r: Result<()>)
      requires Valid()
      modifies this
      ensures Valid()
      ensures var check := old(CheckOtp(email, Verification, verifyCode, now));
        && (check.Failure? ==> r == Failure(check.error) && users == old(users) && verifications == old(verifications))
        && (check.Success? ==>
              && r == Success(())
              && users == old(users)[email := old(users)[email].(activated := true)]
              && verifications == old(verifications) - {Key(old(users)[email].id, Verification)})
      ensures tokens == old(tokens)
      ensures nextUserId == old(nextUserId) && nextVerificationId == old(nextVerificationId)
    {
      var check := CheckOtp(email, Verification, verifyCode, now);
      if check.Failure? {
        return Failure(check.error);
      }
      var (user, record) := check.value;
      // $transaction([user.update({ activated: true }), userVerification.delete({ id })])
      ConsumeCode(email, user.(activated := true), Key(user.id, Verification));
      r := Success(());
    }

    /** The store after requestNewOtp wrote `code` for (`userId`, `kind`):
        the row under that key now holds the code and expires three minutes
        after `now`; it keeps its id if it existed and takes the next id if
        not; no other row changes. */
    ghost predicate Rotated(before: map<Key, VerificationRecord>, beforeNextId: nat, userId: nat,
                            kind: CodeType, now: int)
      reads this
    {
      var key := Key(userId, kind);
      && key in verifications
      && verifications == before[key := verifications[key]]
      && verifications[key].expiry == now + OtpLifetimeMs
      && IsOtpCode(verifications[key].code)
      && verifications[key].code !in Codes(before)
      && (key in before ==> verifications[key].id == before[key].id && nextVerificationId == beforeNextId)
      && (key !in before ==> verifications[key].id == beforeNextId && nextVerificationId == beforeNextId + 1)
    }

    /** The outcome of requestNewOtp for `email` and `kind`, given the tables
        before the call: an unknown email is NotFound; when every draw
        collided nothing is written; otherwise the row is rotated and the
        result is the mail's outcome, the write standing either way. */
    ghost predicate OtpRequested(before: map<Email, User>, beforeVerifications: map<Key, VerificationRecord>,
                                 beforeNextId: nat, email: Email, kind: CodeType, now: int, maxAttempts: nat,
                                 mailDelivered: bool, r: Result<()>)
      reads this
    {
      && (email !in before ==> r == Failure(NotFound))
      && (r == Failure(NotFound) || r == Failure(RetriesExhausted) ==>
            verifications == beforeVerifications && nextVerificationId == beforeNextId)
      && (email in before && r != Failure(RetriesExhausted) ==>
            && Rotated(beforeVerifications, beforeNextId, before[email].id, kind, now)
            && r == (if mailDelivered then Success(()) else Failure(MailFailed)))
      && (email in before && maxAttempts > 0 && beforeVerifications == map[] ==> r != Failure(RetriesExhausted))
    }

    /** requestNewOtp (auth.service.ts:178-227): for a known email, generate
        a fresh code and update the user's row of `kind`, or create it, then
        mail the code. A mail failure is raised but the new code stays. */
    method RequestNewOtp(email: Email, kind: CodeType, now: int, maxAttempts: nat, mailDelivered: bool)
      returns (r: Result<()>)
      requires Valid()
      modifies this
      ensures Valid()
      ensures users == old(users) && tokens == old(tokens) && nextUserId == old(nextUserId)
      ensures OtpRequested(old(users), old(verifications), old(nextVerificationId), email, kind, now,
                           maxAttempts, mailDelivered, r)
    {
      if email !in users {
        return Failure(NotFound);
      }
      var user := users[email];
      var verifyCode := GenerateUniqueCode(maxAttempts);
      if verifyCode.None? {
        return Failure(RetriesExhausted);
      }
      var expiredDate := now + OtpLifetimeMs;
      var key := Key(user.id, kind);
      ghost var before := verifications;
      if key in verifications {
        var record := verifications[key].(code := verifyCode.value, expiry := expiredDate);
        RotationKeepsStoreValid(users, verifications, tokens, nextUserId, nextVerificationId, key, record);
        verifications := verifications[key := record];
      } else {
        var record := VerificationRecord(nextVerificationId, verifyCode.value, expiredDate);
        RotationKeepsStoreValid(users, verifications, tokens, nextUserId, nextVerificationId, key, record);
        verifications := verifications[key := record];
        nextVerificationId := nextVerificationId + 1;
      }
      if !mailDelivered {
        return Failure(MailFailed);
      }
      r := Success(());
    }

    /** renewVerificationCode (auth.service.ts:229-232): requestNewOtp for the VERIFICATION purpose. */
    method RenewVerificationCode(email: Email, now: int, maxAttempts: nat, mailDelivered: bool)
      returns (r: Result<()>)
      requires Valid()
      modifies this
      ensures Valid()
      ensures users == old(users) && tokens == old(tokens) && nextUserId == old(nextUserId)
      ensures OtpRequested(old(users), old(verifications), old(nextVerificationId), email, Verification, now,
                           maxAttempts, mailDelivered, r)
    {
      r := RequestNewOtp(email, Verification, now, maxAttempts, mailDelivered);
    }

    /** requestResetPassword (auth.service.ts:234-237): requestNewOtp for the PASSWORD_RESET purpose. */
    method RequestResetPassword(email: Email, now: int, maxAttempts: nat, mailDelivered: bool)
      returns (r: Result<()>)
      requires Valid()
      modifies this
      ensures Valid()
      ensures users == old(users) && tokens == old(tokens) && nextUserId == old(nextUserId)
      ensures OtpRequested(old(users), old(verifications), old(nextVerificationId), email, PasswordReset, now,
                           maxAttempts, mailDelivered, r)
    {
      r := RequestNewOtp(email, PasswordReset, now, maxAttempts, mailDelivered);
    }

    /** resetPassword (auth.service.ts:239-286): after CheckOtp succeeds for
        the PASSWORD_RESET row, store the new hash and delete the row in one
        transaction. Activation is untouched; a failed check changes nothing. */
    method ResetPassword(email: Email, newPasswordHash: PasswordHash, otp: Code, now: int) returns (r: Result<()>)
      requires Valid()
      modifies this
      ensures Valid()
      ensures var check := old(CheckOtp(email, PasswordReset, otp, now));
        && (check.Failure? ==> r == Failure(check.error) && users == old(users) && verifications == old(verifications))
        && (check.Success? ==>
              && r == Success(())
              && users == old(users)[email := old(users)[email].(password := Some(newPasswordHash))]
              && verifications == old(verifications) - {Key(old(users)[email].id, PasswordReset)})
      ensures tokens == old(tokens)
      ensures nextUserId == old(nextUserId) && nextVerificationId == old(nextVerificationId)
    {
      var check := CheckOtp(email, PasswordReset, otp, now);
      if check.Failure? {
        return Failure(check.error);
      }
      var (user, record) := check.value;
      // $transaction([user.update({ password }), userVerification.delete({ id })])
      ConsumeCode(email, user.(password := Some(newPasswordHash)), Key(user.id, PasswordReset));
      r := Success(());
    }

    /** The decision validateUser makes (auth.service.ts:349-370): the user
        must exist, then the password must match its hash, then the account
        must be activated. A wrong password is reported as Unauthorized even
        on an account that is not activated. The user handed back has its
        password removed. */
    function Authenticate(email: Email, password: string, compare: Comparer): (r: Result<User>)
      reads this
      ensures email !in users <==> r == Failure(NotFound)
      ensures r == Failure(Unauthorized) <==> email in users && compare(password, users[email].password) == Some(false)
      ensures r == Failure(CompareRejected) <==> email in users && compare(password, users[email].password) == None
      ensures r.Success? <==>
        email in users && compare(password, users[email].password) == Some(true) && users[email].activated
      ensures email in users && compare(password, users[email].password) == Some(true) && !users[email].activated
              ==> r == Failure(NotAcceptable(AccountNotVerified))
      ensures r.Success? ==> r.value.password == None && r.value == users[email].(password := None)
    {
      if email !in users then Failure(NotFound)
      else
        var user := users[email];
        match compare(password, user.password)
        case None => Failure(CompareRejected)
        case Some(isMatch) =>
          if !isMatch then Failure(Unauthorized)
          else if !user.activated then Failure(NotAcceptable(AccountNotVerified))
          else Success(user.(password := None))
    }

    /** validateUser (auth.service.ts:349-370), step by step: look the user
        up, compare, check activation, then `delete user.password`. */
    method ValidateUser(email: Email, password: string, compare: Comparer) returns (r: Result<User>)
      ensures r == Authenticate(email, password, compare)
      ensures r.Success? ==> r.value.password.None?
    {
      if email !in users {
        return Failure(NotFound);
      }
      var user := users[email];
      var isMatch := compare(password, user.password);
      if isMatch.None? {
        return Failure(CompareRejected);
      }
      if !isMatch.value {
        return Failure(Unauthorized);
      }
      if !user.activated {
        return Failure(NotAcceptable(AccountNotVerified));
      }
      user := user.(password := None);
      r := Success(user);
    }

    /** generateTokens (auth.service.ts:315-347): sign an access token over
        (id, email, role) and a refresh token over the user id, and append
        one refresh-token row expiring at `yearFromNow`, the instant one
        calendar year after now. */
    method GenerateTokens(user: User, sign: Signer, yearFromNow: int) returns (accessToken: string, refreshToken: string)
      requires Valid()
      requires user.id in UserIds()
      modifies this`tokens
      ensures Valid()
      ensures accessToken == sign(AccessClaims(user.id, user.email, user.role))
      ensures refreshToken == sign(RefreshClaims(user.id))
      ensures tokens == old(tokens) + [TokenRecord(user.id, refreshToken, yearFromNow)]
    {
      accessToken := sign(AccessClaims(user.id, user.email, user.role));
      refreshToken := sign(RefreshClaims(user.id));
      tokens := tokens + [TokenRecord(user.id, refreshToken, yearFromNow)];
    }

    /** signIn as written (auth.service.ts:288-313): after validateUser it
        compares the password once more, against `user.password`, which
        validateUser has just deleted. Tokens are issued only if bcrypt
        reports a match against an absent hash. */
    method SignInAsWritten(email: Email, password: string, compare: Comparer, sign: Signer, yearFromNow: int)
      returns (r: Result<Session>)
      requires Valid()
      modifies this`tokens
      ensures Valid()
      ensures var a := Authenticate(email, password, compare);
        && (a.Failure? ==> r == Failure(a.error) && tokens == old(tokens))
        && (a.Success? && compare(password, None) == None ==> r == Failure(CompareRejected) && tokens == old(tokens))
        && (a.Success? && compare(password, None) == Some(false) ==> r == Failure(Unauthorized) && tokens == old(tokens))
        && (a.Success? && compare(password, None) == Some(true) ==>
              r == Success(Session(a.value, sign(AccessClaims(a.value.id, a.value.email, a.value.role)),
                                   sign(RefreshClaims(a.value.id))))
              && tokens == old(tokens) + [TokenRecord(a.value.id, sign(RefreshClaims(a.value.id)), yearFromNow)])
      ensures r.Success? ==> compare(password, None) == Some(true)
    {
      var v := ValidateUser(email, password, compare);
      if v.Failure? {
        return Failure(v.error);
      }
      var user := v.value;
      var isMatch := compare(password, user.password);
      if isMatch.None? {
        return Failure(CompareRejected);
      }
      if !isMatch.value {
        return Failure(Unauthorized);
      }
      if !user.activated {
        return Failure(NotAcceptable(AccountNotVerified));
      }
      assert user.id in UserIds() by { assert users[email].id == user.id; }
      var accessToken, refreshToken := GenerateTokens(user, sign, yearFromNow);
      r := Success(Session(user, accessToken, refreshToken));
    }

    /** signIn as intended: validateUser has already checked the password
        and the activation, so the redacted user goes straight to token
        issue. Exactly one refresh-token row is appended per successful
        sign-in and existing rows are kept. */
    method SignIn(email: Email, password: string, compare: Comparer, sign: Signer, yearFromNow: int)
      returns (r: Result<Session>)
      requires Valid()
      modifies this`tokens
      ensures Valid()
      ensures var a := Authenticate(email, password, compare);
        && (a.Failure? ==> r == Failure(a.error) && tokens == old(tokens))
        && (a.Success? ==>
              r == Success(Session(a.value, sign(AccessClaims(a.value.id, a.value.email, a.value.role)),
                                   sign(RefreshClaims(a.value.id))))
              && tokens == old(tokens) + [TokenRecord(a.value.id, sign(RefreshClaims(a.value.id)), yearFromNow)])
    {
      var v := ValidateUser(email, password, compare);
      if v.Failure? {
        return Failure(v.error);
      }
      var user := v.value;
      assert user.id in UserIds() by { assert users[email].id == user.id; }
      var accessToken, refreshToken := GenerateTokens(user, sign, yearFromNow);
      r := Success(Session(user, accessToken, refreshToken));
    }
  }
}
