# Sahayatri accounts and favourites, modelled in Dafny

This project models the account and credential logic of the Sahayatri
backend's user controller (`sahayatri_node/controllers/userControllers.js`):

- the password policy: the complexity check run at registration, the
  advisory strength rating and the check against a user's password history;
- the login lockout state machine, which counts failed logins on a user
  record, locks the account for 30 minutes at the fifth failure and clears
  both counter and lock on success;
- the handlers that register users, add and remove favourites, add
  feedback and delete users, over in-memory collections.

Files and modules:

- `wrappers.dfy` (`Wrappers`): `Option`, for nullable fields and lookups.
- `crypto.dfy` (`Crypto`): an ideal stand-in for bcrypt. A digest compares
  equal to a password exactly when it was made from that password.
- `password_policy.dfy` (`PasswordPolicy`): `validatePassword`,
  `assessPasswordStrength` and `checkPasswordHistory`. JavaScript's
  `length` and its regular expressions without the `u` flag work on UTF-16
  code units, so the model runs the source's checks over `Utf16(password)`.
  The lemmas restate the results in terms of characters. A Dafny string
  holds only well-formed text, so an unpaired surrogate is outside the
  model (see "Left out").
- `accounts.dfy` (`Accounts`): the user record and `Login`, the transition
  one login request makes on a record. The current time is a parameter in
  milliseconds. The schema's `isLocked` virtual is not part of this model.
  It is taken to be "`lockUntil` is set and later than now".
- `store.dfy` (`Store`): class `UserStore` holds the users, favourites and
  feedback as sequences in insertion order, plus a counter standing for the
  database's fresh `_id`s. Its methods are the request handlers. Each
  states the new state of all three collections and the reply, and the
  create handlers also return the new document. `Valid()` is
  the invariant every handler keeps:
  - ids and emails are unique;
  - no two favourites share a (userId, vehicleId) pair;
  - each user's current password is in its history;
  - a lock is present only when the counter is at least 5.
- `scenarios.dfy` (`Scenarios`): request sequences proved from the
  handlers' contracts alone.

Properties of the code worth knowing, each proved:

- The lock expires but the counter is never reset by expiry. After expiry,
  one more failure re-locks the account at once, and the reply reports a
  negative number of attempts left (`Accounts.RelockAfterExpiry`).
- `deleteUser` removes favourites and feedback whose `providerId` is the
  user's id. `createFavourites` and `createFeedback` never set that field.
  So, with the filter applied as written, a favourite a user added survives
  the deletion of that user (`Scenarios.DeletedUsersFavouriteSurvives`).
  If the database dropped the filter instead, every favourite and feedback
  would go (see "Left out").
- Every password the complexity check accepts is rated "Strong". The
  converse fails: a 13-letter upper-case password is "Strong" yet refused
  (`PasswordPolicy.StrongButRefused`).
- A second registration with the same email is refused with "User already
  exists." only when its password passes the complexity check. Otherwise
  the complexity message comes first, because the email is checked last.

## Model

| member | source | states |
|---|---|---|
| `Crypto.CompareAgreesWithHash` | sahayatri_node/controllers/userControllers.js:86-87 | a password matches a digest exactly when the digest was made from that password, and equal digests come from equal passwords |
| `PasswordPolicy.ValidatePasswordIff` | sahayatri_node/controllers/userControllers.js:9-23 | accepted iff 8 to 12 characters with a lower-case letter, an upper-case letter, an ASCII digit and one of `@$!%*?&`, and no other character; an out-of-range `length` always gets the length message whatever the content; any other refusal gets the complexity message |
| `PasswordPolicy.LookaheadOnAllowed` | sahayatri_node/controllers/userControllers.js:12 | once every unit is in `[A-Za-z\d@$!%*?&]`, each `(?=.*C)` lookahead holds iff the input contains a unit of class C |
| `PasswordPolicy.AllowedUnitsIffAllowedChars` | sahayatri_node/controllers/userControllers.js:12 | every UTF-16 code unit is in the allowed class iff every character is, since surrogates are never allowed |
| `PasswordPolicy.Utf16OfAllowed` | sahayatri_node/controllers/userControllers.js:14 | a string of allowed characters has one code unit per character, so `length` counts its characters |
| `PasswordPolicy.Utf16LengthBound` | sahayatri_node/controllers/userControllers.js:14 | `length` is at least the number of characters and at most twice it |
| `PasswordPolicy.StrengthBuckets` | sahayatri_node/controllers/userControllers.js:38-55 | scores 0, 1 and 2 give "Weak", "Fair" and "Good"; every score of 3 or more gives "Strong" |
| `PasswordPolicy.ValidPasswordIsStrong` | sahayatri_node/controllers/userControllers.js:38-55 | a password the complexity check accepts scores 5, or 6 when 12 long, and is rated "Strong" |
| `PasswordPolicy.StrongButRefused` | sahayatri_node/controllers/userControllers.js:47-54 | "ABCDEFGHIJKLM" is rated "Strong" yet refused with the length message |
| `PasswordPolicy.CheckPasswordHistory` | sahayatri_node/controllers/userControllers.js:28-34 | true iff the new password matches none of the stored digests, that is, iff its digest is not in the history |
| `Accounts.LockedLoginIgnoresPassword` | sahayatri_node/controllers/userControllers.js:130-136 | on a locked account the reply is the lock and its expiry, the record is unchanged, and the password makes no difference |
| `Accounts.FailedLogin` | sahayatri_node/controllers/userControllers.js:139-153 | a wrong password adds exactly one attempt, sets the lock to now + 1,800,000 ms iff the new count is at least 5 and otherwise leaves it, touches no other field, and reports `5 - loginAttempts` left |
| `Accounts.SuccessfulLogin` | sahayatri_node/controllers/userControllers.js:156-166 | the right password on an unlocked account sets the counter to 0, clears the lock and returns a token for the user's id and admin flag lasting one hour |
| `Accounts.LoginSucceedsIff` | sahayatri_node/controllers/userControllers.js:130-166 | a login succeeds exactly when the account is unlocked and the password matches |
| `Accounts.LoginPreservesAccount` | sahayatri_node/controllers/userControllers.js:139-158 | a login never changes id, names, email, password or history, and keeps "a lock implies at least 5 attempts" |
| `Accounts.LockLastsThirtyMinutes` | sahayatri_node/controllers/userControllers.js:142-143 | the lock set at time t holds at a later time exactly while it is before t + 30 minutes |
| `Accounts.RelockAfterExpiry` | sahayatri_node/controllers/userControllers.js:140-151 | with 5 or more attempts and an expired lock, one wrong password re-locks at once and reports a negative count of attempts left |
| `Accounts.ConsecutiveFailures` | sahayatri_node/controllers/userControllers.js:139-153 | from a fresh account, k ≤ 5 wrong passwords leave k attempts; no lock before the fifth; the fifth locks until 30 minutes after it |
| `Accounts.SixthAttemptRefused` | sahayatri_node/controllers/userControllers.js:130-136 | after five failures, any request before the lock expires is refused with the lock and changes nothing |
| `Accounts.RecoveryAfterFourFailures` | sahayatri_node/controllers/userControllers.js:156-166 | four failures then the right password: counter back to 0, no lock, token issued |
| `Store.Filter` | sahayatri_node/controllers/userControllers.js:319-320 | `deleteMany` keeps exactly the documents the filter does not match, and never grows the collection |
| `Store.FilterMultiplicity` | sahayatri_node/controllers/userControllers.js:319-320 | every copy of a matching document is removed and every copy of any other document is kept |
| `Store.FilterRemovesOne` | sahayatri_node/controllers/userControllers.js:262 | when only the document at one position matches, deletion removes exactly that position |
| `Store.FilterKeepsPairwise` | sahayatri_node/controllers/userControllers.js:318-320 | deletion keeps relative order, so uniqueness of ids, emails and pairs survives it |
| `Store.IndexWhere` | sahayatri_node/controllers/userControllers.js:207-210 | `findOne` returns the first matching document, or nothing exactly when no document matches |
| `Store.UserStore.CreateUser` | sahayatri_node/controllers/userControllers.js:58-110 | checks fields, then complexity, then the email, in that order; every refusal leaves the store unchanged; success appends one user with history `[digest]`, 0 attempts and no lock |
| `Store.UserStore.LoginUser` | sahayatri_node/controllers/userControllers.js:112-171 | an unknown email changes nothing; otherwise the record with that email is replaced by the result of `Login` and the reply is `Login`'s |
| `Store.UserStore.SaveUser` | sahayatri_node/controllers/userControllers.js:146 | saving a record that keeps its id, email and credentials keeps the store's invariant |
| `Store.UserStore.CreateFavourite` | sahayatri_node/controllers/userControllers.js:197-236 | a missing id or an existing (userId, vehicleId) pair is refused with the store unchanged and no data; otherwise exactly one favourite is appended and returned as `data`, with its new id; pairs stay unique |
| `Store.UserStore.CreateFeedback` | sahayatri_node/controllers/userControllers.js:283-314 | refused without text, with the store unchanged and no data; otherwise exactly one feedback is appended, with no uniqueness check, and returned as `data` with its new id |
| `Store.UserStore.DeleteFavourite` | sahayatri_node/controllers/userControllers.js:260-281 | removes the one favourite with that id and reports "Favourite Removed", or reports "Not found" and changes nothing |
| `Store.UserStore.DeleteUser` | sahayatri_node/controllers/userControllers.js:315-333 | removes the user with that id, and exactly the favourites and feedback whose `providerId` is that id, taking the filter as written; all other documents stay, in order |
| `Scenarios.RegisterTwice` | sahayatri_node/controllers/userControllers.js:78-84 | a second registration of an email is refused with "User already exists." whenever its password passes the complexity check |
| `Scenarios.AddFavouriteTwice` | sahayatri_node/controllers/userControllers.js:207-216 | adding the same favourite twice: the second is refused and the pair is stored once |
| `Scenarios.DeletedUsersFavouriteSurvives` | sahayatri_node/controllers/userControllers.js:319 | a favourite added through `createFavourites` is still stored after its user is deleted |
| `Scenarios.NewAccountRefusesItsOwnPassword` | sahayatri_node/controllers/userControllers.js:94 | right after registration, the history check refuses the password the account was created with |

## Left out

- bcrypt: salts, cost factors and one-wayness. `Crypto` keeps only the property that a password matches a digest exactly when the digest was made from it.
- JWT signing: the token is its payload (user id and admin flag) and its one-hour lifetime. The signature and the `process.env` secret are not modelled.
- Time: `Date.now()` and `new Date()` are an integer parameter in milliseconds. The date formatting in the lock messages is not modelled.
- Login messages: the reply is modelled by its kind and its `remainingAttempts` and `lockUntil` fields. The message strings, which embed formatted dates, are not.
- The user schema is not part of this model. The `isLocked` virtual is assumed to be "`lockUntil` is set and later than now", and `isAdmin` is assumed to default to false.
- `Store.UserStore.DeleteUser`: the `{ providerId: id }` filters are applied as written. That holds when the favourite and feedback schemas, which are not part of this model, declare `providerId`, or when Mongoose's `strictQuery` is off. Otherwise Mongoose strips the unknown path, `deleteMany({})` deletes every favourite and every feedback, and the model does not capture it.
- Unpaired UTF-16 surrogates: a JSON body such as `"\ud800"` can hand `validatePassword` a lone surrogate, but a Dafny string holds only well-formed text, so such passwords are outside `PasswordPolicy`. The regular expression refuses any surrogate unit, so they would get the complexity or length message.
- Request bodies: each field is a string (or an id) that may be absent. A missing field is absent or empty. Values of other JSON types are not modelled.
- Login requests without an email or a password are not modelled. What the database and bcrypt do with `undefined` there is library behaviour.
- Malformed ids (a failed cast to an ObjectId) and every other database error, with the 500 replies and "Server error." that follow, are not modelled. Nor is `console` logging.
- `getFavourites` is not modelled. Its paging comes from `parseInt` with radix 5 and from the database's `skip` and `limit` on possibly-NaN values, both library behaviour.
- `updateUserProfile` is not modelled. It reads the undeclared `service` and `price`, so every call that finds the user ends in its error reply.
- `getSingleUser` is not modelled. It is a bare lookup by id.
- `checkPasswordHistory`'s own lookup of the user is not modelled, because it uses an undefined `User`. The model checks a given history. Neither it nor `assessPasswordStrength` is called by any handler.
- Routing and middleware (`sahayatri_node/routes/userRoutes.js`, `sahayatri_node/middleware/auditTrail.js`, and the `authGuard` module, which is not part of this model) are left out. `DeleteUser` takes the id as a parameter, although the `/delete_user` route declares no `:id`.
- `findOne` with a duplicate email returns the first match. The store's invariant keeps emails unique, because no modelled handler changes an email.
- Concurrency: two simultaneous logins may race on `loginAttempts`. The model is sequential.
- The React pages are not modelled.
