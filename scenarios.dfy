/**
 * A session against a fresh server, run through the controllers' contracts:
 * a user registers, fails to log in with a wrong password, adds an album,
 * adds it again, and lists their favorites.
 */
module Scenarios {

  import opened Wrappers
  import opened Crypto
  import opened AuthRoutes
  import AuthController
  import FavoritesController

  const ALICE := RegisterBody("alice@example.com", "alice", "secret1")
  const WRONG_LOGIN := LoginBody("alice@example.com", "wrong-password")
  const ALBUM := FavoritesController.AddBody("A1", "Album One", "Artist", None, None, None, None, None)

  /** The sample username and password are plain ASCII, so `isLength` counts every character. */
  lemma AliceLengths()
    ensures ValidatorLength(ALICE.username) == 5 && ValidatorLength(ALICE.password) == 7
  {
    forall i | 0 <= i < |ALICE.username| ensures !IsPresentationSelector(ALICE.username[i]) {
      assert ALICE.username[i] < '\U{80}';
    }
    forall i | 0 <= i < |ALICE.password| ensures !IsPresentationSelector(ALICE.password[i]) {
      assert ALICE.password[i] < '\U{80}';
    }
  }

  lemma AliceIsValid(isEmail: string -> bool, normalizeEmail: string -> string)
    requires isEmail(ALICE.email) && normalizeEmail(ALICE.email) == ALICE.email
    ensures RegisterValidation(ALICE, isEmail, normalizeEmail) == Checked([], ALICE)
  {
    AliceLengths();
    TrimOfTrimmed(ALICE.username);
  }

  lemma WrongLoginIsValid(isEmail: string -> bool, normalizeEmail: string -> string)
    requires isEmail(WRONG_LOGIN.email) && normalizeEmail(WRONG_LOGIN.email) == WRONG_LOGIN.email
    ensures LoginValidation(WRONG_LOGIN, isEmail, normalizeEmail) == Checked([], WRONG_LOGIN)
  {
  }

  /**
   * A fresh server registers alice and then refuses her wrong password; the
   * statuses of the two replies and the id her token carries. Every address
   * is taken as valid and already normalised.
   */
  method RegisterThenWrongLogin(salt: nat, now: nat) returns (statuses: seq<nat>, userId: nat)
    ensures statuses == [201, 401] && userId == 1
  {
    var isEmail := (s: string) => true;
    var normalizeEmail := (s: string) => s;
    var users := new AuthController.UsersController("");

    AliceIsValid(isEmail, normalizeEmail);
    var registered := users.Register(ALICE, isEmail, normalizeEmail, salt, now);
    userId := registered.body.user.id;

    WrongLoginIsValid(isEmail, normalizeEmail);
    assert users.users[0].email == WRONG_LOGIN.email;
    assert !Compare(WRONG_LOGIN.password, users.users[0].passwordHash);
    var rejected := users.Login(WRONG_LOGIN, isEmail, normalizeEmail, now);
    statuses := [registered.status, rejected.status];
  }

  /**
   * The round trip of the two auth handlers: on a fresh server, any body
   * that passes the register chain and is registered can then log in with
   * the same email and password, and the token names the registered id.
   */
  method RegisterThenLogin(raw: RegisterBody, isEmail: string -> bool, normalizeEmail: string -> string,
                           salt: nat, now: nat, later: nat)
    returns (registered: AuthController.Response, loggedIn: AuthController.Response)
    requires RegisterValidation(raw, isEmail, normalizeEmail).errors == []
    ensures registered.status == 201
    ensures loggedIn.status == 200 && loggedIn.body.Session?
    ensures registered.body.Session? && loggedIn.body.token.payload.id == registered.body.user.id
  {
    var users := new AuthController.UsersController("");
    registered := users.Register(raw, isEmail, normalizeEmail, salt, now);
    assert |users.users| == 1;

    var credentials := LoginBody(raw.email, raw.password);
    assert raw.password != "" by {
      assert ValidatorLength(raw.password) >= PASSWORD_MIN;
    }
    assert LoginValidation(credentials, isEmail, normalizeEmail).errors == [];
    assert users.users[0].email == normalizeEmail(raw.email);
    assert Compare(raw.password, users.users[0].passwordHash);
    loggedIn := users.Login(credentials, isEmail, normalizeEmail, later);
  }

  /**
   * On a fresh favorites table a user adds an album, is refused when adding
   * it again, and then lists exactly that one row.
   */
  method AddTwiceThenList(userId: nat, now: nat) returns (statuses: seq<nat>, listed: seq<FavoritesController.Favorite>)
    ensures statuses == [201, 400, 200]
    ensures |listed| == 1 && listed[0].userId == userId && listed[0].albumId == "A1"
  {
    var favorites := new FavoritesController.FavoritesStore();
    var added := favorites.AddFavorite(userId, ALBUM, now);
    var row := favorites.rows[0];
    assert row in favorites.rows && row.userId == userId && row.albumId == "A1";
    var again := favorites.AddFavorite(userId, ALBUM, now);
    var listing := favorites.GetAllFavorites(userId);

    assert multiset(listing.body.favorites) == multiset{row} by {
      assert favorites.rows == [row];
    }
    assert row in multiset(listing.body.favorites);
    listed := listing.body.favorites;
    statuses := [added.status, again.status, listing.status];
  }

  /** The whole first session: the five replies in order, and the one listed row, owned by alice. */
  method FirstSession(salt: nat, now: nat) returns (statuses: seq<nat>, listed: seq<FavoritesController.Favorite>)
    ensures statuses == [201, 401, 201, 400, 200]
    ensures |listed| == 1 && listed[0].userId == 1 && listed[0].albumId == "A1"
  {
    var authStatuses, userId := RegisterThenWrongLogin(salt, now);
    var favoriteStatuses;
    favoriteStatuses, listed := AddTwiceThenList(userId, now);
    statuses := authStatuses + favoriteStatuses;
  }
}
