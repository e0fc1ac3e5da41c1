/**
 * Sequences of requests against one store, proved from the handlers'
 * contracts alone.
 */
module Scenarios {
  import opened Wrappers
  import opened Crypto
  import opened PasswordPolicy
  import opened Accounts
  import opened Store

  /**
   * Registering the same email twice: the second request is refused with
   * "User already exists." whatever its password, provided that password
   * passes the complexity check, which runs first.
   */
  method RegisterTwice(store: UserStore, firstName: string, lastName: string, email: string,
                       password: string, otherPassword: string, now: int) returns (second: Reply)
    requires store.Valid()
    requires firstName != "" && lastName != "" && email != ""
    requires ValidatePassword(password).Valid? && ValidatePassword(otherPassword).Valid?
    modifies store
    ensures store.Valid()
    ensures second == Reply(false, UserExistsMessage)
    ensures EmailTaken(store.users, email)
  {
    assert password != "" && otherPassword != "";
    var first := store.CreateUser(Some(firstName), Some(lastName), Some(email), Some(password), now);
    assert store.users[|store.users| - 1].email == email || EmailTaken(old(store.users), email);
    second := store.CreateUser(Some(firstName), Some(lastName), Some(email), Some(otherPassword), now);
  }

  /**
   * Adding the same favourite twice: the second request is refused with
   * "You've already added it", and the pair is stored exactly once.
   */
  method AddFavouriteTwice(store: UserStore, userId: Id, vehicleId: Id) returns (second: Reply)
    requires store.Valid()
    modifies store
    ensures store.Valid()
    ensures second == Reply(false, AlreadyAddedMessage)
    ensures PairTaken(store.favourites, userId, vehicleId)
  {
    var first, firstData := store.CreateFavourite(Some(userId), Some(vehicleId));
    assert store.favourites[|store.favourites| - 1].userId == userId || PairTaken(old(store.favourites), userId, vehicleId);
    var secondData;
    second, secondData := store.CreateFavourite(Some(userId), Some(vehicleId));
  }

  /**
   * `deleteUser` filters favourites on `providerId`, which `createFavourites`
   * never sets. With that filter applied as written, as `DeleteUser` does, a
   * favourite the user added survives the user's deletion.
   */
  method DeletedUsersFavouriteSurvives(store: UserStore, userId: Id, vehicleId: Id)
    requires store.Valid()
    requires !PairTaken(store.favourites, userId, vehicleId)
    modifies store
    ensures store.Valid()
    ensures PairTaken(store.favourites, userId, vehicleId)
    ensures forall i :: 0 <= i < |store.users| ==> store.users[i].id != userId
  {
    var added, data := store.CreateFavourite(Some(userId), Some(vehicleId));
    var favourite := data.value;
    assert favourite.providerId == None && favourite.userId == userId && favourite.vehicleId == vehicleId;
    var deleted := store.DeleteUser(userId);
    assert favourite in store.favourites;
    forall i | 0 <= i < |store.users| ensures store.users[i].id != userId {
      assert store.users[i] in store.users;
    }
  }

  /**
   * Right after registration, the password history already refuses the
   * password the account was created with.
   */
  method NewAccountRefusesItsOwnPassword(store: UserStore, firstName: string, lastName: string, email: string,
                                         password: string, now: int) returns (unused: bool)
    requires store.Valid()
    requires firstName != "" && lastName != "" && email != ""
    requires ValidatePassword(password).Valid? && !EmailTaken(store.users, email)
    modifies store
    ensures store.Valid()
    ensures !unused
  {
    assert password != "";
    var reply := store.CreateUser(Some(firstName), Some(lastName), Some(email), Some(password), now);
    var user := store.users[|store.users| - 1];
    unused := CheckPasswordHistory(user.passwordHistory, password);
  }
}
