# AuthService and pagination metadata, modelled in Dafny

This project models two parts of a NestJS backend.

1. `AuthService` (`src/_modules_/auth/auth.service.ts`) is the account and
   one-time-code state machine. It covers registration with an emailed
   verification code, verification, rotation of a code, password reset, and
   sign-in with access and refresh tokens. The model is the class
   `Auth.AuthService` in `auth.dfy`. The database is three fields of that
   class:
   - `users`: user rows keyed by their unique email;
   - `verifications`: verification rows keyed by (user id, code type), the
     key the source's lookups use;
   - `tokens`: the list of refresh-token rows.

   Two autoincrement counters hand out row ids. Every method that writes the store keeps the
   invariant `Valid()` (`StoreValid`), except `DeleteUser`, which is only
   the second half of Create's rollback. `StoreValid` says that ids are unique, that every
   verification row and every token belongs to a stored user, that every code
   has six digits, and that no two live verification rows share a code. Each
   method's postcondition gives its outcome, including every error case, and
   its complete new state. The two `$transaction` pairs are single atomic
   steps.
2. `getDefaultPaginationReponse` (`src/utils/pagination.util.ts`) computes page
   metadata from page, size and row count. The model is the function
   `Pagination.GetDefaultPaginationResponse` in `pagination.dfy`, with lemmas
   that `totalPages` is the ceiling of count/size.

`scenarios.dfy` (module `AuthScenarios`) holds client runs proved from the
contracts alone. They cover register → wrong code → right code → repeated
verify, a registration whose mail fails, code rotation, password reset, and
the sign-in paths.

How the external pieces are represented:
- Time is an integer number of milliseconds passed in as `now`. A code lives
  `OtpLifetimeMs` = 180000 ms (3 minutes). The timezone does not change the
  instant.
- A refresh token's expiry is one calendar year after `now`. It is passed in
  as `yearFromNow`, because the length of a calendar year depends on
  the date.
- bcrypt `hash` is salted, so its output is an input of the operation
  (`passwordHash`, `newPasswordHash`). bcrypt `compare` is a `Comparer`
  parameter: `Some(b)` when the promise resolves to `b`, `None` when it
  rejects. Its hash argument is `None` when the caller passes a deleted
  field.
- JWT `sign` is a `Signer` parameter over the claims. The configured secrets
  and lifetimes are part of that parameter.
- Mail sending is a `mailDelivered: bool` input.
- `Math.random` is a nondeterministic choice of an index into "0123456789".
- The Nest exceptions are the `Error` datatype: `Conflict`, `NotFound`,
  `NotAcceptable(why)`, `Unauthorized`. `why` records which message was
  raised, so the order of the OTP checks is observable. Three more errors
  come from collaborators or from the retry cap: `MailFailed` (the mail error
  re-raised), `CompareRejected` (bcrypt rejected) and `RetriesExhausted`.

## Model

| member | source | states |
|---|---|---|
| `Pagination.GetDefaultPaginationResponse` | src/utils/pagination.util.ts:3-15 | page and size come back unchanged and totalElement equals count. A count of 0 gives 0 pages, including the 0/0 → NaN → "or 0" fallback. For size > 0 the pages cover count (totalPages·size ≥ count), one page fewer would not, and totalPages > 0 exactly when count > 0 |
| `Pagination.CeilDivBounds` | src/utils/pagination.util.ts:12 | `Math.ceil(count / size)` on naturals is bracketed: ceil·size ≥ count, and (ceil−1)·size < count when count > 0 |
| `Pagination.TotalPagesIsLeast` | src/utils/pagination.util.ts:12 | totalPages is the least page count that holds count elements of size each |
| `Auth.AuthService.GenerateRandomCode` | src/_modules_/auth/auth.service.ts:123-130 | the code is exactly 6 characters, each one of '0'..'9' |
| `Auth.AuthService.GenerateUniqueCode` | src/_modules_/auth/auth.service.ts:108-121 | a returned code is 6 digits and equals the code of no stored verification row; with no stored rows the first draw succeeds |
| `Auth.AuthService.Create` | src/_modules_/auth/auth.service.ts:34-89 | a taken email gives Conflict. Any failure leaves users and verifications as they were, including the rollback when mail fails, which re-raises the mail error. Success adds exactly one inactive user with the next id and the supplied role (the default role otherwise). It also adds exactly one VERIFICATION row holding a new 6-digit code and expiring at now+3 min. Tokens are untouched |
| `Auth.AuthService.InsertUser` | src/_modules_/auth/auth.service.ts:51-73 | the user and its VERIFICATION row are written together, under the next id of each table. The store invariant (unique emails, ids and codes, and every row owned by a stored user) is kept. Tokens are untouched |
| `Auth.AuthService.DeleteUser` | src/_modules_/auth/auth.service.ts:84 | removes the user row with that id and every verification row it owns (the cascade). It does not keep `Valid()` by itself; `CompensatingDeleteRestores` shows that after the insert it undoes, the store is the one from before |
| `Auth.AuthService.ConsumeCode` | src/_modules_/auth/auth.service.ts:159-173 | the transaction after an accepted code: the user row is replaced by its update and exactly the code's row is deleted by its id. The store invariant is kept. The same transaction ends resetPassword (:268-283) |
| `Auth.AuthService.CheckOtp` | src/_modules_/auth/auth.service.ts:134-157 | NotFound exactly when the email has no user owning a row of that kind. A code mismatch gives OtpIncorrect even when the code is also expired. A matching code past its expiry gives OtpExpired. Success holds exactly when the code matches and now ≤ expiry, so a code used at its expiry instant is accepted |
| `Auth.AuthService.Verify` | src/_modules_/auth/auth.service.ts:132-176 | a failed check changes nothing. Success sets activated on that user only and removes exactly its VERIFICATION row, in one step |
| `Auth.AuthService.RequestNewOtp` | src/_modules_/auth/auth.service.ts:178-227 | an unknown email gives NotFound and changes nothing. Otherwise the (user, kind) row holds a new 6-digit code that differs from every stored code, including the one it replaces, and expires at now+3 min. The row keeps its id if it existed and is created with the next id if not. No other row changes. A mail failure is raised but the write stays |
| `Auth.AuthService.RenewVerificationCode` | src/_modules_/auth/auth.service.ts:229-232 | requestNewOtp for the VERIFICATION purpose |
| `Auth.AuthService.RequestResetPassword` | src/_modules_/auth/auth.service.ts:234-237 | requestNewOtp for the PASSWORD_RESET purpose |
| `Auth.AuthService.ResetPassword` | src/_modules_/auth/auth.service.ts:239-286 | the same check order against the PASSWORD_RESET row, and a failure changes nothing. Success replaces only that user's hash, keeps activation, and removes exactly that row, in one step |
| `Auth.AuthService.Authenticate` | src/_modules_/auth/auth.service.ts:349-370 | NotFound exactly for an unknown email, then Unauthorized on a hash mismatch (CompareRejected when compare rejects), then NotAcceptable(AccountNotVerified) for a matching password when the account is not activated. A wrong password on an inactive account is therefore Unauthorized. A success returns the stored user without its password |
| `Auth.AuthService.ValidateUser` | src/_modules_/auth/auth.service.ts:349-370 | the step-by-step lookup, compare, activation check and `delete user.password` decide exactly as Authenticate does, and the returned user carries no password |
| `Auth.AuthService.GenerateTokens` | src/_modules_/auth/auth.service.ts:315-347 | the access token signs (id, email, role) and the refresh token signs the id. Exactly one refresh-token row (user id, refresh token, one year later) is appended, and existing rows are kept |
| `Auth.AuthService.SignInAsWritten` | src/_modules_/auth/auth.service.ts:288-313 | validateUser's failures propagate. After that, the outcome is what bcrypt does with the deleted hash. Tokens are issued only if `compare(password, undefined)` resolves to true |
| `Auth.AuthService.SignIn` | src/_modules_/auth/auth.service.ts:288-313 | corrected sign-in: a failure of validateUser propagates with no token written. A success returns the redacted user and both tokens, and appends exactly one refresh-token row |
| `Auth.DeleteByIdRemovesOnlyThatRow` | src/_modules_/auth/auth.service.ts:168-172 | deleting a verification row by its id removes exactly the row under its key, because row ids are unique |
| `Auth.FreshCodeKeepsCodesUnique` | src/_modules_/auth/auth.service.ts:108-121 | writing a code that no row holds keeps codes unique across all live rows |
| `Auth.RegistrationKeepsStoreValid` | src/_modules_/auth/auth.service.ts:51-73 | the nested create of a user and its verification row keeps the store invariant |
| `Auth.CompensatingDeleteRestores` | src/_modules_/auth/auth.service.ts:82-86 | deleting the just-created user, which cascades to its row, restores both tables exactly |
| `Auth.ConsumptionKeepsStoreValid` | src/_modules_/auth/auth.service.ts:159-173 | updating a user in place and deleting one verification row keeps the store invariant |
| `Auth.RotationKeepsStoreValid` | src/_modules_/auth/auth.service.ts:197-217 | the update-or-create of a (user, kind) row with a fresh code keeps the store invariant |
| `Auth.InsertAddsUserId` | src/_modules_/auth/auth.service.ts:68-73 | creating a user under a new email adds exactly its id to the set of user ids |
| `Auth.UpdateKeepsUserIds` | src/_modules_/auth/auth.service.ts:160-167 | updating a user row with its id unchanged keeps the set of user ids |
| `AuthScenarios.RegistrationScenario` | src/_modules_/auth/auth.service.ts:34-176 | a second registration of the same email gives Conflict. A wrong code gives OtpIncorrect. The right code at its expiry instant activates the account. A repeated verify gives NotFound |
| `AuthScenarios.ExpiryScenario` | src/_modules_/auth/auth.service.ts:155-157 | a code used 1 ms after its expiry gives OtpExpired and leaves the account pending |
| `AuthScenarios.MailFailureScenario` | src/_modules_/auth/auth.service.ts:75-86 | a registration whose mail fails raises the mail error and leaves no account, so the same email registers afterwards |
| `AuthScenarios.RotationScenario` | src/_modules_/auth/auth.service.ts:178-232 | after renewing the code, the earlier code gives OtpIncorrect and the new one verifies |
| `AuthScenarios.InactiveSignInScenario` | src/_modules_/auth/auth.service.ts:349-366 | on an account that is not verified yet, a wrong password gives Unauthorized and the right password gives NotAcceptable |
| `AuthScenarios.SignInScenario` | src/_modules_/auth/auth.service.ts:288-370 | on a verified account with the right password, signIn as written fails with CompareRejected. The corrected signIn returns the user with its hash removed, and the refresh token |
| `AuthScenarios.PasswordResetScenario` | src/_modules_/auth/auth.service.ts:234-286 | after a reset, the old password gives Unauthorized and the new one signs in: activation was kept |

## Findings

| source | as written | input that shows it | evidently intended | confidence | as-written member | corrected member |
|---|---|---|---|---|---|---|
| src/_modules_/auth/auth.service.ts:296 | signIn calls `compare(password, user.password)` on the user that validateUser returned. validateUser has already run `delete user.password` (:368), so the hash argument is `undefined`. bcrypt rejects a missing hash argument, so no sign-in ever reaches token issue. The same holds if compare resolved to false: it would then be Unauthorized | any registered, verified account signed in with its correct password (`AuthScenarios.SignInScenario`) | validateUser has already checked the password and the activation, so signIn issues tokens for the user it returns | not executed; rests on bcrypt rejecting an undefined hash, which is bcrypt's documented argument check and is outside this repository | `Auth.AuthService.SignInAsWritten` | `Auth.AuthService.SignIn` |

## Left out

- Auth.AuthService.GenerateUniqueCode: the source's retry loop has no bound. The model makes at most `maxAttempts` draws and reports `RetriesExhausted` when every draw collided. The source would keep drawing instead. Create and RequestNewOtp pass that failure on without writing anything.
- Auth.AuthService.Create: the mail's content is not modelled, including the payload quirk at auth.service.ts:79 that passes the code as `expiredDate`. Only whether the mail was sent is an input.
- Auth.AuthService.Create: the compensating delete assumes that the schema cascades deleting a user to its verification rows. The schema is not part of this model. The autoincrement counters are not rolled back, as in a database.
- Auth.AuthService.Create: a failed `prisma.user.create` (for example a concurrent insert of the same email) is not modelled. The email check just before it is the only conflict path.
- Auth.AuthService.GenerateTokens: the one-year expiry is an input (`yearFromNow`), because moment-timezone's calendar arithmetic is left out. JWT claims such as `iat`/`exp` are inside the `Signer` parameter.
- Auth.AuthService.SignIn: the check `if (!user)` at auth.service.ts:292 is not modelled. validateUser never returns without a user; it raises instead.
- Verification rows are keyed by (user id, type), as the lookups at auth.service.ts:190-195 are. The source's `user.userVerification` reads at :78 and :149 treat the relation as a single row. A schema that allows only one row per user is not modelled.
- bcrypt hashing, JWT signing, mail sending (EJS rendering and SMTP), `process.env` configuration and `Math.random` are foreign or nondeterministic. They are parameters, as listed above. The salt rounds from `USER_SALT` are not modelled.
- The read-then-write race between the uniqueness check and the insert in generateUniqueCode, and any interleaving of concurrent requests: the model is sequential.
- The user's role when `userRole` is absent is the schema's default. It is not visible in the source, so it is the constructor's `defaultRole`.
- Pagination.GetDefaultPaginationResponse: requires size > 0 or count = 0. Size 0 with count > 0 (Infinity in the source), negative sizes, an undefined page or size from `Partial`, and floating-point rounding of large counts are JavaScript number edge cases that are not modelled.
- File upload (file.service.ts, file.controller.ts), Firebase storage, the mail service, controllers, modules and DTO validation decorators are framework and SDK plumbing outside this model.
