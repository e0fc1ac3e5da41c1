/**
 * A user record and what one login request does to it: the lockout state
 * machine of `loginUser`. The current time `now` is a parameter, in
 * milliseconds since the epoch, standing for `Date.now()`.
 *
 * `user.isLocked` is a virtual property of the user schema, which is not part
 * of this model; it is taken to be "`lockUntil` is set and lies after `now`".
 */
module Accounts {
  import opened Wrappers
  import opened Crypto

  /** A document `_id`. */
  type Id = nat

  const MaxLoginAttempts := 5
  /** 30 minutes in milliseconds. */
  const LockDuration := 30 * 60 * 1000
  /** The `expiresIn: '1h'` of the session token, in seconds. */
  const TokenLifetime := 60 * 60

  datatype User = User(
    id: Id,
    firstName: string,
    lastName: string,
    email: string,
    password: Digest,
    passwordHistory: seq<Digest>,
    passwordChangedAt: int,
    loginAttempts: nat,
    lockUntil: Option<int>,
    isAdmin: bool)

  predicate IsLocked(user: User, now: int)
  {
    user.lockUntil.Some? && user.lockUntil.value > now
  }

  /** A lock is only ever set by the failure that brings the count to 5 or more. */
  predicate LockConsistent(user: User)
  {
    user.lockUntil.Some? ==> user.loginAttempts >= MaxLoginAttempts
  }

  /** The fields a login never touches. */
  predicate SameAccount(before: User, after: User)
  {
    && after.id == before.id
    && after.firstName == before.firstName
    && after.lastName == before.lastName
    && after.email == before.email
    && after.password == before.password
    && after.passwordHistory == before.passwordHistory
    && after.passwordChangedAt == before.passwordChangedAt
    && after.isAdmin == before.isAdmin
  }

  /** The signed JWT: subject, admin flag and lifetime; signature and secret are not modelled. */
  datatype Token = Token(subject: Id, isAdmin: bool, expiresIn: nat)

  datatype LoginReply =
    | LoggedIn(token: Token, userData: User)
    | UserNotFound
    | AccountLocked(lockedUntil: int)
    | InvalidCredentials(remainingAttempts: int, lockUntil: Option<int>)
  {
    predicate Success() { LoggedIn? }
  }

  datatype LoginOutcome = LoginOutcome(user: User, reply: LoginReply)

  /** `loginUser` once the record for the email has been found: the saved record and the reply. */
  function Login(user: User, password: string, now: int): LoginOutcome
  {
    if IsLocked(user, now) then
      LoginOutcome(user, AccountLocked(user.lockUntil.value))
    else if !Compare(password, user.password) then
      var attempts := user.loginAttempts + 1;
      var lockUntil := if attempts >= MaxLoginAttempts then Some(now + LockDuration) else user.lockUntil;
      var saved := user.(loginAttempts := attempts, lockUntil := lockUntil);
      LoginOutcome(saved, InvalidCredentials(MaxLoginAttempts - attempts, lockUntil))
    else
      var saved := user.(loginAttempts := 0, lockUntil := None);
      LoginOutcome(saved, LoggedIn(Token(user.id, user.isAdmin, TokenLifetime), saved))
  }

  /** On a locked account the password is never consulted and nothing changes. */
  lemma LockedLoginIgnoresPassword(user: User, password: string, other: string, now: int)
    requires IsLocked(user, now)
    ensures Login(user, password, now) == Login(user, other, now)
    ensures Login(user, password, now).user == user
    ensures Login(user, password, now).reply == AccountLocked(user.lockUntil.value)
    ensures !Login(user, password, now).reply.Success()
  {
  }

  /**
   * A wrong password on an unlocked account adds exactly one attempt, sets the
   * lock to `now` plus 30 minutes when the count reaches 5 or more and leaves
   * it alone otherwise, and reports `5 - loginAttempts` attempts left.
   */
  lemma FailedLogin(user: User, password: string, now: int)
    requires !IsLocked(user, now) && !Compare(password, user.password)
    ensures var after := Login(user, password, now).user;
      && after.loginAttempts == user.loginAttempts + 1
      && (after.loginAttempts >= MaxLoginAttempts ==> after.lockUntil == Some(now + LockDuration))
      && (after.loginAttempts < MaxLoginAttempts ==> after.lockUntil == user.lockUntil)
      && SameAccount(user, after)
      && Login(user, password, now).reply == InvalidCredentials(MaxLoginAttempts - after.loginAttempts, after.lockUntil)
  {
  }

  /** The right password on an unlocked account clears the counter and the lock and issues a one-hour token. */
  lemma SuccessfulLogin(user: User, password: string, now: int)
    requires !IsLocked(user, now) && Compare(password, user.password)
    ensures var after := Login(user, password, now).user;
      && after.loginAttempts == 0 && after.lockUntil == None
      && SameAccount(user, after)
      && Login(user, password, now).reply == LoggedIn(Token(user.id, user.isAdmin, TokenLifetime), after)
  {
  }

  /** A login succeeds exactly when the account is not locked and the password matches. */
  lemma LoginSucceedsIff(user: User, password: string, now: int)
    ensures Login(user, password, now).reply.Success() <==> !IsLocked(user, now) && Compare(password, user.password)
  {
  }

  /** No login changes the account's identity or credentials, and every login keeps the lock consistent with the counter. */
  lemma LoginPreservesAccount(user: User, password: string, now: int)
    requires LockConsistent(user)
    ensures SameAccount(user, Login(user, password, now).user)
    ensures LockConsistent(Login(user, password, now).user)
  {
  }

  /** The lock set by a failure holds for exactly 30 minutes from that failure. */
  lemma LockLastsThirtyMinutes(user: User, password: string, now: int, later: int)
    requires !IsLocked(user, now) && !Compare(password, user.password)
    requires user.loginAttempts + 1 >= MaxLoginAttempts
    ensures IsLocked(Login(user, password, now).user, later) <==> later < now + LockDuration
  {
  }

  /**
   * The counter is not reset when a lock expires: once the count has reached
   * 5, the first failure after the lock has lapsed locks the account again at
   * once, and the reply reports a negative number of attempts left.
   */
  lemma RelockAfterExpiry(user: User, password: string, now: int)
    requires user.loginAttempts >= MaxLoginAttempts
    requires !IsLocked(user, now) && !Compare(password, user.password)
    ensures IsLocked(Login(user, password, now).user, now)
    ensures Login(user, password, now).reply.InvalidCredentials?
    ensures Login(user, password, now).reply.remainingAttempts == MaxLoginAttempts - 1 - user.loginAttempts
    ensures Login(user, password, now).reply.remainingAttempts < 0
  {
  }

  // ---------------------------------------------------------------------------
  // Sequences of login requests against one account
  // ---------------------------------------------------------------------------

  datatype Attempt = Attempt(password: string, now: int)

  /** The record after the attempts have been made in order. */
  function Replay(user: User, attempts: seq<Attempt>): User
    decreases |attempts|
  {
    if attempts == [] then user
    else
      var last := attempts[|attempts| - 1];
      Login(Replay(user, attempts[..|attempts| - 1]), last.password, last.now).user
  }

  predicate AllWrong(user: User, attempts: seq<Attempt>)
  {
    forall k :: 0 <= k < |attempts| ==> !Compare(attempts[k].password, user.password)
  }

  /**
   * Starting from a fresh account, up to four failed logins only count, and
   * the fifth locks the account until 30 minutes after it was made.
   */
  lemma {:induction false} ConsecutiveFailures(user: User, attempts: seq<Attempt>)
    requires user.loginAttempts == 0 && user.lockUntil == None
    requires |attempts| <= MaxLoginAttempts
    requires AllWrong(user, attempts)
    ensures SameAccount(user, Replay(user, attempts))
    ensures Replay(user, attempts).loginAttempts == |attempts|
    ensures |attempts| < MaxLoginAttempts ==> Replay(user, attempts).lockUntil == None
    ensures |attempts| == MaxLoginAttempts ==>
              Replay(user, attempts).lockUntil == Some(attempts[MaxLoginAttempts - 1].now + LockDuration)
  {
    if attempts != [] {
      var prefix := attempts[..|attempts| - 1];
      assert AllWrong(user, prefix) by {
        forall k | 0 <= k < |prefix| ensures !Compare(prefix[k].password, user.password) {
          assert prefix[k] == attempts[k];
        }
      }
      ConsecutiveFailures(user, prefix);
    }
  }

  /**
   * After five failures, a sixth request made before the lock expires is
   * refused with the lock, whatever the password, and changes nothing.
   */
  lemma SixthAttemptRefused(user: User, attempts: seq<Attempt>, password: string, now: int)
    requires user.loginAttempts == 0 && user.lockUntil == None
    requires |attempts| == MaxLoginAttempts && AllWrong(user, attempts)
    requires now < attempts[MaxLoginAttempts - 1].now + LockDuration
    ensures var locked := Replay(user, attempts);
      && Login(locked, password, now).user == locked
      && Login(locked, password, now).reply == AccountLocked(attempts[MaxLoginAttempts - 1].now + LockDuration)
      && locked.loginAttempts == MaxLoginAttempts
  {
    ConsecutiveFailures(user, attempts);
  }

  /** Four failures followed by the right password: the counter is back to 0 and a token is issued. */
  lemma RecoveryAfterFourFailures(user: User, attempts: seq<Attempt>, password: string, now: int)
    requires user.loginAttempts == 0 && user.lockUntil == None
    requires |attempts| == MaxLoginAttempts - 1 && AllWrong(user, attempts)
    requires Compare(password, user.password)
    ensures var after := Login(Replay(user, attempts), password, now);
      && after.user.loginAttempts == 0 && after.user.lockUntil == None
      && after.reply == LoggedIn(Token(user.id, user.isAdmin, TokenLifetime), after.user)
  {
    ConsecutiveFailures(user, attempts);
  }
}
