/**
 * The request handlers of the user controller that read and write the user,
 * favourite and feedback collections. A `UserStore` holds the three
 * collections in insertion order; `findOne` returns the first document that
 * matches. Document ids are drawn from a counter, standing for the unique
 * `_id` the database assigns to every new document.
 *
 * A request field is "missing" when it is absent or is the empty string,
 * the two string values JavaScript treats as false.
 */
module Store {
  import opened Wrappers
  import opened Crypto
  import opened PasswordPolicy
  import opened Accounts

  /** A favourite as stored; `providerId` is the field `deleteUser` filters on. */
  datatype Favourite = Favourite(id: Id, userId: Id, vehicleId: Id, providerId: Option<Id>)

  datatype Feedback = Feedback(id: Id, vehicleId: Id, feedback: string, providerId: Option<Id>)

  /** The `{success, message}` body of a response. */
  datatype Reply = Reply(success: bool, message: string)

  const FieldsMissingMessage := "Please enter all fields."
  const UserExistsMessage := "User already exists."
  const UserCreatedMessage := "User created successfully."
  const AllFieldsRequiredMessage := "All fields are required"
  const AlreadyAddedMessage := "You've already added it"
  const FavouriteAddedMessage := "Added Favourite successfully"
  const FeedbackAddedMessage := "Added successfully"
  const NotFoundMessage := "Not found"
  const FavouriteRemovedMessage := "Favourite Removed"
  const UserDeletedMessage := "User deleted successfully"

  predicate Present(field: Option<string>)
  {
    field.Some? && field.value != ""
  }

  predicate EmailTaken(users: seq<User>, email: string)
  {
    exists i :: 0 <= i < |users| && users[i].email == email
  }

  predicate PairTaken(favourites: seq<Favourite>, userId: Id, vehicleId: Id)
  {
    exists i :: 0 <= i < |favourites| && favourites[i].userId == userId && favourites[i].vehicleId == vehicleId
  }

  // ---------------------------------------------------------------------------
  // Collections
  // ---------------------------------------------------------------------------

  /** Every two documents at different positions are related by `distinct`. */
  predicate Pairwise<T>(s: seq<T>, distinct: (T, T) -> bool)
  {
    forall i, j :: 0 <= i < j < |s| ==> distinct(s[i], s[j])
  }

  /** A stored user: an id already handed out, a consistent lock and its current password in its history. */
  predicate WellFormedUser(user: User, nextId: Id)
  {
    user.id < nextId && LockConsistent(user) && user.password in user.passwordHistory
  }

  predicate DistinctUsers(a: User, b: User)
  {
    a.id != b.id && a.email != b.email
  }

  predicate DistinctFavourites(a: Favourite, b: Favourite)
  {
    a.id != b.id && (a.userId != b.userId || a.vehicleId != b.vehicleId)
  }

  predicate DistinctFeedback(a: Feedback, b: Feedback)
  {
    a.id != b.id
  }

  /** `deleteMany(filter)`: the documents for which `keep` holds, in their order. */
  function Filter<T(!new)>(s: seq<T>, keep: T -> bool): (r: seq<T>)
    ensures |r| <= |s|
    ensures forall x :: x in r <==> x in s && keep(x)
  {
    if s == [] then []
    else
      var rest := Filter(s[1..], keep);
      if keep(s[0]) then [s[0]] + rest else rest
  }

  /** Filtering removes every copy of a rejected document and no copy of a kept one. */
  lemma {:induction false} FilterMultiplicity<T(!new)>(s: seq<T>, keep: T -> bool, x: T)
    ensures keep(x) ==> multiset(Filter(s, keep))[x] == multiset(s)[x]
    ensures !keep(x) ==> multiset(Filter(s, keep))[x] == 0
  {
    if s != [] {
      FilterMultiplicity(s[1..], keep, x);
      assert s == [s[0]] + s[1..];
      assert multiset(s) == multiset{s[0]} + multiset(s[1..]);
    }
  }

  /** When `keep` rejects only the document at `i`, filtering removes exactly that one. */
  lemma {:induction false} FilterRemovesOne<T(!new)>(s: seq<T>, i: nat, keep: T -> bool)
    requires i < |s| && !keep(s[i])
    requires forall j :: 0 <= j < |s| && j != i ==> keep(s[j])
    ensures Filter(s, keep) == s[..i] + s[i + 1..]
  {
    if i == 0 {
      FilterKeepsAll(s[1..], keep);
    } else {
      FilterRemovesOne(s[1..], i - 1, keep);
      assert s[1..][..i - 1] + s[1..][i..] == s[1..i] + s[i + 1..];
    }
  }

  /** Filtering with a `keep` that holds everywhere changes nothing. */
  lemma {:induction false} FilterKeepsAll<T(!new)>(s: seq<T>, keep: T -> bool)
    requires forall j :: 0 <= j < |s| ==> keep(s[j])
    ensures Filter(s, keep) == s
  {
    if s != [] {
      FilterKeepsAll(s[1..], keep);
    }
  }

  /** Filtering keeps the relative order, so any pairwise property survives it. */
  lemma {:induction false} FilterKeepsPairwise<T(!new)>(s: seq<T>, keep: T -> bool, distinct: (T, T) -> bool)
    requires Pairwise(s, distinct)
    ensures Pairwise(Filter(s, keep), distinct)
  {
    if s != [] {
      assert Pairwise(s[1..], distinct) by {
        forall i, j | 0 <= i < j < |s[1..]| ensures distinct(s[1..][i], s[1..][j]) {
          assert s[1..][i] == s[i + 1] && s[1..][j] == s[j + 1];
        }
      }
      FilterKeepsPairwise(s[1..], keep, distinct);
      var rest := Filter(s[1..], keep);
      if keep(s[0]) {
        forall i, j | 0 <= i < j < |[s[0]] + rest| ensures distinct(([s[0]] + rest)[i], ([s[0]] + rest)[j]) {
          if i == 0 {
            assert ([s[0]] + rest)[j] == rest[j - 1];
            assert rest[j - 1] in s[1..];
            var k :| 0 <= k < |s[1..]| && s[1..][k] == rest[j - 1];
            assert s[1..][k] == s[k + 1];
          } else {
            assert ([s[0]] + rest)[i] == rest[i - 1] && ([s[0]] + rest)[j] == rest[j - 1];
          }
        }
      }
    }
  }

  /** Every document that survives filtering was in the collection, so a property of each survives too. */
  lemma FilterKeepsEach<T(!new)>(s: seq<T>, keep: T -> bool, good: T -> bool)
    requires forall i :: 0 <= i < |s| ==> good(s[i])
    ensures forall i :: 0 <= i < |Filter(s, keep)| ==> good(Filter(s, keep)[i])
  {
    var r := Filter(s, keep);
    forall i | 0 <= i < |r| ensures good(r[i]) {
      assert r[i] in s;
    }
  }

  lemma PairwiseAppend<T>(s: seq<T>, x: T, distinct: (T, T) -> bool)
    requires Pairwise(s, distinct)
    requires forall i :: 0 <= i < |s| ==> distinct(s[i], x)
    ensures Pairwise(s + [x], distinct)
  {
    forall i, j | 0 <= i < j < |s + [x]| ensures distinct((s + [x])[i], (s + [x])[j]) {
      if j == |s| {
        assert (s + [x])[j] == x;
      }
    }
  }

  /**
   * `findOne` / `findById`: the position of the first document satisfying
   * `p`, or None when there is none.
   */
  method IndexWhere<T>(s: seq<T>, p: T -> bool) returns (r: Option<nat>)
    ensures r.Some? ==> r.value < |s| && p(s[r.value])
    ensures r.Some? ==> forall j :: 0 <= j < r.value ==> !p(s[j])
    ensures r.None? <==> forall j :: 0 <= j < |s| ==> !p(s[j])
  {
    var i := 0;
    while i < |s|
      invariant 0 <= i <= |s|
      invariant forall j :: 0 <= j < i ==> !p(s[j])
    {
      if p(s[i]) {
        return Some(i);
      }
      i := i + 1;
    }
    return None;
  }

  // ---------------------------------------------------------------------------
  // The store
  // ---------------------------------------------------------------------------

  class UserStore {
    var users: seq<User>
    var favourites: seq<Favourite>
    var feedback: seq<Feedback>
    /** Every id handed out so far is below this. */
    var nextId: Id

    /**
     * Ids are unique within each collection, as are emails and favourite
     * (userId, vehicleId) pairs; every user's current password is in its
     * history, and a lock is only present once the counter has reached 5.
     */
    ghost predicate Valid()
      reads this
    {
      && (forall i :: 0 <= i < |users| ==> WellFormedUser(users[i], nextId))
      && Pairwise(users, DistinctUsers)
      && (forall i :: 0 <= i < |favourites| ==> favourites[i].id < nextId)
      && Pairwise(favourites, DistinctFavourites)
      && (forall i :: 0 <= i < |feedback| ==> feedback[i].id < nextId)
      && Pairwise(feedback, DistinctFeedback)
    }

    constructor ()
      ensures Valid()
      ensures users == [] && favourites == [] && feedback == [] && nextId == 0
    {
      users, favourites, feedback, nextId := [], [], [], 0;
    }

    /**
     * `createUser`: the fields are checked first, then the password's
     * complexity, then whether the email is taken; any refusal leaves the
     * store as it was. Success appends one record whose history holds just
     * the new digest, with no failed attempts and no lock.
     */
    method CreateUser(firstName: Option<string>, lastName: Option<string>, email: Option<string>,
                      password: Option<string>, now: int) returns (reply: Reply)
      requires Valid()
      modifies this
      ensures Valid()
      ensures !(Present(firstName) && Present(lastName) && Present(email) && Present(password)) ==>
                reply == Reply(false, FieldsMissingMessage) && unchanged(this)
      ensures Present(firstName) && Present(lastName) && Present(email) && Present(password) ==>
                var validation := ValidatePassword(password.value);
                && (validation.Invalid? ==> reply == Reply(false, validation.message) && unchanged(this))
                && (validation.Valid? && EmailTaken(old(users), email.value) ==>
                      reply == Reply(false, UserExistsMessage) && unchanged(this))
                && (validation.Valid? && !EmailTaken(old(users), email.value) ==>
                      && reply == Reply(true, UserCreatedMessage)
                      && var digest := HashPassword(password.value);
                      && users == old(users) + [User(old(nextId), firstName.value, lastName.value, email.value,
                                                     digest, [digest], now, 0, None, false)]
                      && favourites == old(favourites) && feedback == old(feedback)
                      && nextId == old(nextId) + 1)
    {
      if !(Present(firstName) && Present(lastName) && Present(email) && Present(password)) {
        return Reply(false, FieldsMissingMessage);
      }
      var validation := ValidatePassword(password.value);
      if validation.Invalid? {
        return Reply(false, validation.message);
      }
      var existing := IndexWhere(users, (u: User) => u.email == email.value);
      if existing.Some? {
        return Reply(false, UserExistsMessage);
      }
      var digest := HashPassword(password.value);
      var user := User(nextId, firstName.value, lastName.value, email.value, digest, [digest], now, 0, None, false);
      PairwiseAppend(users, user, DistinctUsers);
      users := users + [user];
      nextId := nextId + 1;
      reply := Reply(true, UserCreatedMessage);
    }

    /**
     * `loginUser`: an unknown email changes nothing; otherwise the record
     * with that email becomes the one `Login` computes, and the reply is
     * `Login`'s.
     */
    method LoginUser(email: string, password: string, now: int) returns (reply: LoginReply)
      requires Valid()
      modifies this
      ensures Valid()
      ensures !EmailTaken(old(users), email) ==> reply == UserNotFound && unchanged(this)
      ensures forall i :: 0 <= i < |old(users)| && old(users)[i].email == email ==>
                && users == old(users)[i := Login(old(users)[i], password, now).user]
                && reply == Login(old(users)[i], password, now).reply
      ensures favourites == old(favourites) && feedback == old(feedback) && nextId == old(nextId)
    {
      var found := IndexWhere(users, (u: User) => u.email == email);
      if found.None? {
        return UserNotFound;
      }
      var i := found.value;
      var user := users[i];
      LoginPreservesAccount(user, password, now);
      if IsLocked(user, now) {
        return AccountLocked(user.lockUntil.value);
      }
      if !Compare(password, user.password) {
        user := user.(loginAttempts := user.loginAttempts + 1);
        if user.loginAttempts >= MaxLoginAttempts {
          user := user.(lockUntil := Some(now + LockDuration));
        }
        SaveUser(i, user);
        return InvalidCredentials(MaxLoginAttempts - user.loginAttempts, user.lockUntil);
      }
      user := user.(loginAttempts := 0);
      user := user.(lockUntil := None);
      SaveUser(i, user);
      reply := LoggedIn(Token(user.id, user.isAdmin, TokenLifetime), user);
    }

    /** `user.save()` for a record that keeps its id, email and credentials. */
    method SaveUser(i: nat, user: User)
      requires Valid()
      requires i < |users| && SameAccount(users[i], user) && LockConsistent(user)
      modifies this`users
      ensures Valid()
      ensures users == old(users)[i := user]
    {
      var updated := users[i := user];
      forall j, k | 0 <= j < k < |updated| ensures DistinctUsers(updated[j], updated[k]) {
        assert DistinctUsers(users[j], users[k]);
      }
      users := updated;
    }

    /**
     * `createFavourites`: a missing id or an existing (userId, vehicleId)
     * pair is refused and changes nothing; otherwise one favourite is
     * appended, so no two favourites ever share a pair, and the new
     * document, with its id, is returned as `data`.
     */
    method CreateFavourite(userId: Option<Id>, vehicleId: Option<Id>) returns (reply: Reply, data: Option<Favourite>)
      requires Valid()
      modifies this
      ensures Valid()
      ensures userId.None? || vehicleId.None? ==>
                reply == Reply(false, AllFieldsRequiredMessage) && data == None && unchanged(this)
      ensures userId.Some? && vehicleId.Some? && PairTaken(old(favourites), userId.value, vehicleId.value) ==>
                reply == Reply(false, AlreadyAddedMessage) && data == None && unchanged(this)
      ensures userId.Some? && vehicleId.Some? && !PairTaken(old(favourites), userId.value, vehicleId.value) ==>
                && reply == Reply(true, FavouriteAddedMessage)
                && favourites == old(favourites) + [Favourite(old(nextId), userId.value, vehicleId.value, None)]
                && data == Some(favourites[|favourites| - 1])
                && users == old(users) && feedback == old(feedback) && nextId == old(nextId) + 1
    {
      if userId.None? || vehicleId.None? {
        return Reply(false, AllFieldsRequiredMessage), None;
      }
      var existing := IndexWhere(favourites, (f: Favourite) => f.userId == userId.value && f.vehicleId == vehicleId.value);
      if existing.Some? {
        return Reply(false, AlreadyAddedMessage), None;
      }
      var favourite := Favourite(nextId, userId.value, vehicleId.value, None);
      PairwiseAppend(favourites, favourite, DistinctFavourites);
      favourites := favourites + [favourite];
      nextId := nextId + 1;
      reply, data := Reply(true, FavouriteAddedMessage), Some(favourite);
    }

    /**
     * `createFeedback`: refused without text, otherwise appended with no
     * uniqueness check, and the new document, with its id, is returned as
     * `data`.
     */
    method CreateFeedback(vehicleId: Id, text: Option<string>) returns (reply: Reply, data: Option<Feedback>)
      requires Valid()
      modifies this
      ensures Valid()
      ensures !Present(text) ==> reply == Reply(false, AllFieldsRequiredMessage) && data == None && unchanged(this)
      ensures Present(text) ==>
                && reply == Reply(true, FeedbackAddedMessage)
                && feedback == old(feedback) + [Feedback(old(nextId), vehicleId, text.value, None)]
                && data == Some(feedback[|feedback| - 1])
                && users == old(users) && favourites == old(favourites) && nextId == old(nextId) + 1
    {
      if !Present(text) {
        return Reply(false, AllFieldsRequiredMessage), None;
      }
      var entry := Feedback(nextId, vehicleId, text.value, None);
      PairwiseAppend(feedback, entry, DistinctFeedback);
      feedback := feedback + [entry];
      nextId := nextId + 1;
      reply, data := Reply(true, FeedbackAddedMessage), Some(entry);
    }

    /** `deleteFavourite`: removes the favourite with that id, or answers "Not found" and changes nothing. */
    method DeleteFavourite(id: Id) returns (reply: Reply)
      requires Valid()
      modifies this
      ensures Valid()
      ensures reply.success <==> exists i :: 0 <= i < |old(favourites)| && old(favourites)[i].id == id
      ensures !reply.success ==> reply == Reply(false, NotFoundMessage) && unchanged(this)
      ensures reply.success ==> reply == Reply(true, FavouriteRemovedMessage)
      ensures favourites == Filter(old(favourites), (f: Favourite) => f.id != id)
      ensures |favourites| == |old(favourites)| - (if reply.success then 1 else 0)
      ensures users == old(users) && feedback == old(feedback) && nextId == old(nextId)
    {
      var found := IndexWhere(favourites, (f: Favourite) => f.id == id);
      if found.None? {
        FilterKeepsAll(favourites, (f: Favourite) => f.id != id);
        return Reply(false, NotFoundMessage);
      }
      var i := found.value;
      forall j | 0 <= j < |favourites| && j != i ensures favourites[j].id != id {
        if j < i {
          assert DistinctFavourites(favourites[j], favourites[i]);
        } else {
          assert DistinctFavourites(favourites[i], favourites[j]);
        }
      }
      FilterRemovesOne(favourites, i, (f: Favourite) => f.id != id);
      FilterKeepsPairwise(favourites, (f: Favourite) => f.id != id, DistinctFavourites);
      favourites := favourites[..i] + favourites[i + 1..];
      reply := Reply(true, FavouriteRemovedMessage);
    }

    /**
     * `deleteUser`: removes the user with that id (if any), then every
     * favourite and every feedback whose `providerId` is that id, and
     * reports success in every case. The `providerId` filter is applied as
     * written; the favourite and feedback schemas are not part of this model.
     */
    method DeleteUser(id: Id) returns (reply: Reply)
      requires Valid()
      modifies this
      ensures Valid()
      ensures reply == Reply(true, UserDeletedMessage)
      ensures users == Filter(old(users), (u: User) => u.id != id)
      ensures favourites == Filter(old(favourites), (f: Favourite) => f.providerId != Some(id))
      ensures feedback == Filter(old(feedback), (b: Feedback) => b.providerId != Some(id))
      ensures nextId == old(nextId)
    {
      ghost var limit := nextId;
      FilterKeepsEach(users, (u: User) => u.id != id, (u: User) => WellFormedUser(u, limit));
      FilterKeepsPairwise(users, (u: User) => u.id != id, DistinctUsers);
      users := Filter(users, (u: User) => u.id != id);
      FilterKeepsEach(favourites, (f: Favourite) => f.providerId != Some(id), (f: Favourite) => f.id < limit);
      FilterKeepsPairwise(favourites, (f: Favourite) => f.providerId != Some(id), DistinctFavourites);
      favourites := Filter(favourites, (f: Favourite) => f.providerId != Some(id));
      FilterKeepsEach(feedback, (b: Feedback) => b.providerId != Some(id), (b: Feedback) => b.id < limit);
      FilterKeepsPairwise(feedback, (b: Feedback) => b.providerId != Some(id), DistinctFeedback);
      feedback := Filter(feedback, (b: Feedback) => b.providerId != Some(id));
      reply := Reply(true, UserDeletedMessage);
    }
  }
}
