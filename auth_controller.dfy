/**
 * The authentication controller over the `users` table: register, login,
 * profile read and update, and password change. Each request handler is one
 * atomic step of the `UsersController` object, whose `users` field is the
 * table. Status codes, messages and the columns each handler writes are those
 * of the controller; the table invariant (distinct ids, emails and usernames)
 * is kept by every handler.
 */
module AuthController {

  import opened Wrappers
  import opened Crypto
  import opened AuthRoutes

  // ------------------------------------------------------------------ rows

  /** A row of `users`; `lastLogin` is `None` until the first login. */
  datatype User = User(id: nat, email: string, username: string, passwordHash: Digest,
                       createdAt: nat, lastLogin: Option<nat>)

  /** `RETURNING id, email, username, created_at`: the view register, login and update hand out. */
  datatype PublicUser = PublicUser(id: nat, email: string, username: string, createdAt: nat)

  /** `SELECT id, email, username, created_at, last_login`: the view of the profile route. */
  datatype ProfileUser = ProfileUser(id: nat, email: string, username: string, createdAt: nat,
                                     lastLogin: Option<nat>)

  function Public(u: User): PublicUser
  {
    PublicUser(u.id, u.email, u.username, u.createdAt)
  }

  function ProfileOf(u: User): ProfileUser
  {
    ProfileUser(u.id, u.email, u.username, u.createdAt, u.lastLogin)
  }

  /** Neither view carries the password hash: rows that differ only in it look the same. */
  lemma ViewsOmitHash(u: User, h: Digest)
    ensures Public(u.(passwordHash := h)) == Public(u)
    ensures ProfileOf(u.(passwordHash := h)) == ProfileOf(u)
  {
  }

  // ---------------------------------------------------------------- tokens

  /** The claims signed into a session token. */
  datatype TokenPayload = TokenPayload(id: nat, email: string, username: string)

  /** A signed token, opaque apart from its claims and its lifetime. */
  datatype Token = Token(payload: TokenPayload, expiresIn: string)

  const DEFAULT_EXPIRE := "7d"

  /**
   * `generateToken`: the claims are exactly id, email and username, and the
   * lifetime is `JWT_EXPIRE`, or seven days when that is unset or empty.
   */
  function GenerateToken(u: PublicUser, jwtExpire: string): (t: Token)
    ensures t.payload.id == u.id && t.payload.email == u.email && t.payload.username == u.username
    ensures jwtExpire != "" ==> t.expiresIn == jwtExpire
    ensures jwtExpire == "" ==> t.expiresIn == DEFAULT_EXPIRE
  {
    Token(TokenPayload(u.id, u.email, u.username), if jwtExpire != "" then jwtExpire else DEFAULT_EXPIRE)
  }

  // ------------------------------------------------------------- responses

  datatype Body =
    | NoBody
    | ValidationErrors(errors: seq<FieldError>)
    | Session(token: Token, user: PublicUser)
    | ProfileBody(profile: ProfileUser)
    | Updated(updated: Option<PublicUser>)
    | ErrorDetail

  /** An HTTP reply: status, the `success` flag, `message` ("" when the reply has none) and the rest. */
  datatype Response = Response(status: nat, success: bool, message: string, body: Body)

  const DUPLICATE_USER := Response(400, false, "Email or username already exists", NoBody)
  const INVALID_CREDENTIALS := Response(401, false, "Invalid email or password", NoBody)
  const USER_NOT_FOUND := Response(404, false, "User not found", NoBody)
  const USERNAME_TAKEN := Response(400, false, "Username already taken", NoBody)
  const WRONG_PASSWORD := Response(401, false, "Current password is incorrect", NoBody)
  const PASSWORD_CHANGED := Response(200, true, "Password changed successfully", NoBody)
  /** The catch block of `changePassword`, reached when the id has no row. */
  const CHANGE_PASSWORD_FAILED := Response(500, false, "Error changing password", ErrorDetail)

  // ------------------------------------------------------------ SQL model

  /** The `WHERE` clauses the controller uses. */
  datatype Where =
    | EmailOrUsername(email: string, username: string)
    | EmailIs(email: string)
    | IdIs(id: nat)
    | UsernameOfOther(username: string, notId: nat)

  predicate Satisfies(u: User, w: Where)
  {
    match w
    case EmailOrUsername(e, n) => u.email == e || u.username == n
    case EmailIs(e) => u.email == e
    case IdIs(id) => u.id == id
    case UsernameOfOther(n, id) => u.username == n && u.id != id
  }

  /** `SELECT ... FROM users WHERE w`, in table order. */
  function Select(users: seq<User>, w: Where): (r: seq<User>)
    ensures |r| <= |users|
    ensures forall u :: u in r <==> u in users && Satisfies(u, w)
  {
    if users == [] then []
    else (if Satisfies(users[0], w) then [users[0]] else []) + Select(users[1..], w)
  }

  /** The columns an `UPDATE users SET ...` writes. */
  datatype Assignment = SetLastLogin(at: nat) | SetUsername(username: string) | SetPasswordHash(hash: Digest)

  /** The row `SET a` leaves: the assigned column takes its new value, every other column keeps its own. */
  function Assign(u: User, a: Assignment): (r: User)
    ensures r.id == u.id && r.email == u.email && r.createdAt == u.createdAt
    ensures r.lastLogin == if a.SetLastLogin? then Some(a.at) else u.lastLogin
    ensures r.username == if a.SetUsername? then a.username else u.username
    ensures r.passwordHash == if a.SetPasswordHash? then a.hash else u.passwordHash
  {
    match a
    case SetLastLogin(t) => u.(lastLogin := Some(t))
    case SetUsername(n) => u.(username := n)
    case SetPasswordHash(h) => u.(passwordHash := h)
  }

  /** `UPDATE users SET a WHERE id = $id`: the rows with that id get `a`, every other row stays. */
  function UpdateWhereId(users: seq<User>, id: nat, a: Assignment): (r: seq<User>)
    ensures |r| == |users|
    ensures forall i :: 0 <= i < |users| ==> r[i] == if users[i].id == id then Assign(users[i], a) else users[i]
  {
    if users == [] then []
    else [if users[0].id == id then Assign(users[0], a) else users[0]] + UpdateWhereId(users[1..], id, a)
  }

  // ------------------------------------------------------- table invariant

  predicate DistinctIds(users: seq<User>)
  {
    forall i, j | 0 <= i < j < |users| :: users[i].id != users[j].id
  }

  predicate DistinctEmails(users: seq<User>)
  {
    forall i, j | 0 <= i < j < |users| :: users[i].email != users[j].email
  }

  predicate DistinctUsernames(users: seq<User>)
  {
    forall i, j | 0 <= i < j < |users| :: users[i].username != users[j].username
  }

  /** Unique ids, emails and usernames, and every id below the next one to assign. */
  predicate WellFormed(users: seq<User>, nextId: nat)
  {
    && DistinctIds(users) && DistinctEmails(users) && DistinctUsernames(users)
    && forall i | 0 <= i < |users| :: users[i].id < nextId
  }

  // ------------------------------------------------------------ SQL lemmas

  /** Selecting from a concatenation selects from each part, in order. */
  lemma {:induction false} SelectAppend(a: seq<User>, b: seq<User>, w: Where)
    ensures Select(a + b, w) == Select(a, w) + Select(b, w)
  {
    if a == [] {
      assert a + b == b;
    } else {
      assert (a + b)[1..] == a[1..] + b;
      SelectAppend(a[1..], b, w);
    }
  }

  /** A query is empty exactly when no row satisfies its condition. */
  lemma SelectEmpty(users: seq<User>, w: Where)
    ensures Select(users, w) == [] <==> forall i | 0 <= i < |users| :: !Satisfies(users[i], w)
  {
    if Select(users, w) == [] {
      forall i | 0 <= i < |users| ensures !Satisfies(users[i], w) {
        assert users[i] in users;
      }
    }
  }

  /** No row satisfies `w`: the query is empty. */
  lemma SelectNone(users: seq<User>, w: Where)
    requires forall j | 0 <= j < |users| :: !Satisfies(users[j], w)
    ensures Select(users, w) == []
  {
  }

  /** When exactly the row at `k` satisfies `w`, the query returns that row alone. */
  lemma {:induction false} SelectSingle(users: seq<User>, w: Where, k: nat)
    requires k < |users| && Satisfies(users[k], w)
    requires forall j | 0 <= j < |users| && j != k :: !Satisfies(users[j], w)
    ensures Select(users, w) == [users[k]]
  {
    if k == 0 {
      forall j | 0 <= j < |users[1..]| ensures !Satisfies(users[1..][j], w) {
        assert users[1..][j] == users[j + 1];
      }
      SelectNone(users[1..], w);
    } else {
      assert !Satisfies(users[0], w);
      forall j | 0 <= j < |users[1..]| && j != k - 1 ensures !Satisfies(users[1..][j], w) {
        assert users[1..][j] == users[j + 1];
      }
      SelectSingle(users[1..], w, k - 1);
    }
  }

  /** In a well-formed table the row with a given id, if any, is the only answer to `WHERE id = $id`. */
  lemma SelectById(users: seq<User>, nextId: nat, k: nat)
    requires WellFormed(users, nextId) && k < |users|
    ensures Select(users, IdIs(users[k].id)) == [users[k]]
  {
    SelectSingle(users, IdIs(users[k].id), k);
  }

  /**
   * `WHERE id = $id` in a well-formed table: empty exactly when no row has
   * the id, and otherwise that row alone.
   */
  lemma SelectByIdCases(users: seq<User>, nextId: nat, id: nat)
    requires WellFormed(users, nextId)
    ensures Select(users, IdIs(id)) == [] <==> forall i | 0 <= i < |users| :: users[i].id != id
    ensures forall k | 0 <= k < |users| && users[k].id == id :: Select(users, IdIs(id)) == [users[k]]
  {
    forall k | 0 <= k < |users| && users[k].id == id ensures Select(users, IdIs(id)) == [users[k]] {
      SelectById(users, nextId, k);
    }
    SelectEmpty(users, IdIs(id));
  }

  /** In a well-formed table the row with a given email is the only answer to `WHERE email = $e`. */
  lemma SelectByEmail(users: seq<User>, nextId: nat, k: nat)
    requires WellFormed(users, nextId) && k < |users|
    ensures Select(users, EmailIs(users[k].email)) == [users[k]]
  {
    SelectSingle(users, EmailIs(users[k].email), k);
  }

  /** Inserting a row whose email and username nobody has, under the next id, keeps the invariant. */
  lemma InsertKeepsWellFormed(users: seq<User>, nextId: nat, u: User)
    requires WellFormed(users, nextId)
    requires Select(users, EmailOrUsername(u.email, u.username)) == [] && u.id == nextId
    ensures WellFormed(users + [u], nextId + 1)
  {
    forall i | 0 <= i < |users|
      ensures users[i].email != u.email && users[i].username != u.username
    {
      assert users[i] in users;
    }
  }

  /**
   * An update by id keeps the invariant; a new username must not belong to a
   * row with a different id.
   */
  lemma UpdateKeepsWellFormed(users: seq<User>, nextId: nat, id: nat, a: Assignment)
    requires WellFormed(users, nextId)
    requires a.SetUsername? ==> Select(users, UsernameOfOther(a.username, id)) == []
    ensures WellFormed(UpdateWhereId(users, id, a), nextId)
  {
    var r := UpdateWhereId(users, id, a);
    forall i | 0 <= i < |users| ensures r[i].id == users[i].id && r[i].email == users[i].email {
    }
    forall i, j | 0 <= i < j < |users| ensures r[i].username != r[j].username {
      if a.SetUsername? && users[i].id == id && users[j].id != id {
        assert users[j] in users;
      } else if a.SetUsername? && users[j].id == id && users[i].id != id {
        assert users[i] in users;
      }
    }
  }

  /** An update by the id of row `k` changes that row alone, and keeps the invariant. */
  lemma UpdateRowOutcome(users: seq<User>, nextId: nat, k: nat, a: Assignment)
    requires WellFormed(users, nextId) && k < |users|
    requires a.SetUsername? ==> Select(users, UsernameOfOther(a.username, users[k].id)) == []
    ensures var r := UpdateWhereId(users, users[k].id, a);
      && WellFormed(r, nextId)
      && |r| == |users|
      && (forall i :: 0 <= i < |r| ==> r[i] == if i == k then Assign(users[k], a) else users[i])
  {
    UpdateKeepsWellFormed(users, nextId, users[k].id, a);
  }

  /**
   * Renaming the row with `id` to a username no other row holds keeps the
   * invariant, changes that row's username only, and leaves the row, if any,
   * as the one answer to `WHERE id = $id`.
   */
  lemma RenameOutcome(users: seq<User>, nextId: nat, id: nat, username: string)
    requires WellFormed(users, nextId)
    requires forall i | 0 <= i < |users| :: users[i].username != username || users[i].id == id
    ensures var r := UpdateWhereId(users, id, SetUsername(username));
      && WellFormed(r, nextId)
      && |r| == |users|
      && (forall i :: 0 <= i < |r| ==> r[i] == if users[i].id == id then users[i].(username := username) else users[i])
      && (Select(r, IdIs(id)) == [] <==> forall i | 0 <= i < |r| :: r[i].id != id)
      && (forall k | 0 <= k < |r| && r[k].id == id :: Select(r, IdIs(id)) == [r[k]])
  {
    SelectEmpty(users, UsernameOfOther(username, id));
    UpdateKeepsWellFormed(users, nextId, id, SetUsername(username));
    SelectByIdCases(UpdateWhereId(users, id, SetUsername(username)), nextId, id);
  }

  /**
   * After a registration inserts `u` with `Hash(password, salt)`, a login
   * with the same email finds exactly `u`, and the password verifies.
   */
  lemma RegisteredUserCanLogIn(users: seq<User>, nextId: nat, u: User, password: string, salt: nat)
    requires WellFormed(users, nextId)
    requires Select(users, EmailOrUsername(u.email, u.username)) == []
    requires u.passwordHash == Hash(password, salt)
    ensures Select(users + [u], EmailIs(u.email)) == [u]
    ensures Compare(password, Select(users + [u], EmailIs(u.email))[0].passwordHash)
  {
    forall j | 0 <= j < |users| ensures !Satisfies(users[j], EmailIs(u.email)) {
      assert users[j] in users;
      assert !Satisfies(users[j], EmailOrUsername(u.email, u.username));
    }
    SelectNone(users, EmailIs(u.email));
    SelectSingle([u], EmailIs(u.email), 0);
    SelectAppend(users, [u], EmailIs(u.email));
  }

  // ------------------------------------------------------------ controller

  class UsersController {

    /** The `users` table. */
    var users: seq<User>
    /** The id the table's sequence hands out next. */
    var nextId: nat
    /** `JWT_EXPIRE`, "" when unset. */
    const jwtExpire: string

    ghost predicate Valid()
      reads this
    {
      WellFormed(users, nextId)
    }

    constructor (jwtExpire: string)
      ensures Valid() && users == [] && nextId == 1 && this.jwtExpire == jwtExpire
    {
      users := [];
      nextId := 1;
      this.jwtExpire := jwtExpire;
    }

    /**
     * `POST /api/auth/register`, its validation chain included. `salt` is
     * the one `bcrypt.hash` draws and `now` the insert time.
     */
    method Register(raw: RegisterBody, isEmail: string -> bool, normalizeEmail: string -> string,
                    salt: nat, now: nat) returns (res: Response)
      requires Valid()
      modifies this
      ensures Valid()
      ensures var c := RegisterValidation(raw, isEmail, normalizeEmail);
        c.errors != [] ==>
          res == Response(400, false, "", ValidationErrors(c.errors))
          && users == old(users) && nextId == old(nextId)
      ensures var c := RegisterValidation(raw, isEmail, normalizeEmail);
        c.errors == [] && (exists i :: 0 <= i < |old(users)|
                             && (old(users)[i].email == c.body.email || old(users)[i].username == c.body.username)) ==>
          res == DUPLICATE_USER && users == old(users) && nextId == old(nextId)
      ensures var c := RegisterValidation(raw, isEmail, normalizeEmail);
        c.errors == [] && (forall i :: 0 <= i < |old(users)|
                             ==> old(users)[i].email != c.body.email && old(users)[i].username != c.body.username) ==>
          var row := User(old(nextId), c.body.email, c.body.username, Hash(c.body.password, salt), now, None);
          && users == old(users) + [row]
          && nextId == old(nextId) + 1
          && res == Response(201, true, "User registered successfully",
                             Session(GenerateToken(Public(row), jwtExpire), Public(row)))
    {
      var checked := RegisterValidation(raw, isEmail, normalizeEmail);
      if checked.errors != [] {
        return Response(400, false, "", ValidationErrors(checked.errors));
      }
      res := CreateUser(checked.body, salt, now);
    }

    /**
     * The part of `register` after its validation chain passed: the check
     * for a row with the email or the username, then the insert and the
     * session reply.
     */
    method CreateUser(body: RegisterBody, salt: nat, now: nat) returns (res: Response)
      requires Valid()
      modifies this
      ensures Valid()
      ensures (exists i :: 0 <= i < |old(users)|
                 && (old(users)[i].email == body.email || old(users)[i].username == body.username)) ==>
        res == DUPLICATE_USER && users == old(users) && nextId == old(nextId)
      ensures (forall i :: 0 <= i < |old(users)|
                 ==> old(users)[i].email != body.email && old(users)[i].username != body.username) ==>
        var row := User(old(nextId), body.email, body.username, Hash(body.password, salt), now, None);
        && users == old(users) + [row]
        && nextId == old(nextId) + 1
        && res == Response(201, true, "User registered successfully",
                           Session(GenerateToken(Public(row), jwtExpire), Public(row)))
    {
      var existing := Select(users, EmailOrUsername(body.email, body.username));
      SelectEmpty(users, EmailOrUsername(body.email, body.username));
      if |existing| > 0 {
        return DUPLICATE_USER;
      }

      var passwordHash := Hash(body.password, salt);
      var row := User(nextId, body.email, body.username, passwordHash, now, None);
      InsertKeepsWellFormed(users, nextId, row);
      users := users + [row];
      nextId := nextId + 1;

      var created := Public(row);
      var token := GenerateToken(created, jwtExpire);
      res := Response(201, true, "User registered successfully", Session(token, created));
    }

    /**
     * `POST /api/auth/login`, its validation chain included. An unknown
     * email and a wrong password get the same reply and change nothing; a
     * good password sets that user's `last_login` to `now` and nothing else.
     */
    method Login(raw: LoginBody, isEmail: string -> bool, normalizeEmail: string -> string, now: nat)
      returns (res: Response)
      requires Valid()
      modifies this
      ensures Valid() && nextId == old(nextId)
      ensures var c := LoginValidation(raw, isEmail, normalizeEmail);
        c.errors != [] ==> res == Response(400, false, "", ValidationErrors(c.errors)) && users == old(users)
      ensures var c := LoginValidation(raw, isEmail, normalizeEmail);
        c.errors == [] && (forall i :: 0 <= i < |old(users)| ==> old(users)[i].email != c.body.email) ==>
          res == INVALID_CREDENTIALS && users == old(users)
      ensures var c := LoginValidation(raw, isEmail, normalizeEmail);
        forall k | c.errors == [] && 0 <= k < |old(users)| && old(users)[k].email == c.body.email ::
          var u := old(users)[k];
          if !Compare(c.body.password, u.passwordHash) then
            res == INVALID_CREDENTIALS && users == old(users)
          else
            && |users| == |old(users)|
            && (forall i :: 0 <= i < |users| ==>
                  users[i] == if i == k then u.(lastLogin := Some(now)) else old(users)[i])
            && res == Response(200, true, "Login successful",
                               Session(GenerateToken(Public(u), jwtExpire), Public(u)))
    {
      var checked := LoginValidation(raw, isEmail, normalizeEmail);
      if checked.errors != [] {
        return Response(400, false, "", ValidationErrors(checked.errors));
      }
      res := Authenticate(checked.body, now);
    }

    /**
     * The part of `login` after its validation chain passed: the lookup by
     * email, the password check and the `last_login` update.
     */
    method Authenticate(body: LoginBody, now: nat) returns (res: Response)
      requires Valid()
      modifies this
      ensures Valid() && nextId == old(nextId)
      ensures (forall i :: 0 <= i < |old(users)| ==> old(users)[i].email != body.email) ==>
        res == INVALID_CREDENTIALS && users == old(users)
      ensures forall k | 0 <= k < |old(users)| && old(users)[k].email == body.email ::
        var u := old(users)[k];
        if !Compare(body.password, u.passwordHash) then
          res == INVALID_CREDENTIALS && users == old(users)
        else
          && |users| == |old(users)|
          && (forall i :: 0 <= i < |users| ==>
                users[i] == if i == k then u.(lastLogin := Some(now)) else old(users)[i])
          && res == Response(200, true, "Login successful",
                             Session(GenerateToken(Public(u), jwtExpire), Public(u)))
    {
      var rows := Select(users, EmailIs(body.email));
      SelectEmpty(users, EmailIs(body.email));
      if |rows| == 0 {
        return INVALID_CREDENTIALS;
      }
      var user := rows[0];
      assert user in users;
      ghost var k :| 0 <= k < |users| && users[k] == user;
      SelectByEmail(users, nextId, k);
      forall j | 0 <= j < |users| && users[j].email == body.email ensures j == k {
      }

      var validPassword := Compare(body.password, user.passwordHash);
      if !validPassword {
        return INVALID_CREDENTIALS;
      }

      res := RecordLogin(k, user, now);
    }

    /**
     * The end of a login whose password verified for `user`, row `k`: its
     * `last_login` becomes `now`, and the reply carries a token for it.
     */
    method RecordLogin(ghost k: nat, user: User, now: nat) returns (res: Response)
      requires Valid() && k < |users| && users[k] == user
      modifies this
      ensures Valid() && nextId == old(nextId)
      ensures |users| == |old(users)|
      ensures forall i :: 0 <= i < |users| ==> users[i] == if i == k then user.(lastLogin := Some(now)) else old(users)[i]
      ensures res == Response(200, true, "Login successful", Session(GenerateToken(Public(user), jwtExpire), Public(user)))
    {
      UpdateRowOutcome(users, nextId, k, SetLastLogin(now));
      users := UpdateWhereId(users, user.id, SetLastLogin(now));

      var token := GenerateToken(Public(user), jwtExpire);
      res := Response(200, true, "Login successful", Session(token, Public(user)));
    }

    /** `GET /api/auth/profile` for the id the token check attached. */
    method GetProfile(id: nat) returns (res: Response)
      requires Valid()
      ensures (forall i :: 0 <= i < |users| ==> users[i].id != id) ==> res == USER_NOT_FOUND
      ensures forall k | 0 <= k < |users| && users[k].id == id ::
                res == Response(200, true, "", ProfileBody(ProfileOf(users[k])))
    {
      var rows := Select(users, IdIs(id));
      SelectByIdCases(users, nextId, id);
      if |rows| == 0 {
        return USER_NOT_FOUND;
      }
      assert rows[0] in users;
      res := Response(200, true, "", ProfileBody(ProfileOf(rows[0])));
    }

    /**
     * `PUT /api/auth/profile`. The new username is not validated; it is
     * refused only when a row with another id holds it, so a user may keep
     * their own. An id without a row gets a success reply with no user.
     */
    method UpdateProfile(id: nat, username: string) returns (res: Response)
      requires Valid()
      modifies this
      ensures Valid() && nextId == old(nextId)
      ensures (exists i :: 0 <= i < |old(users)| && old(users)[i].username == username && old(users)[i].id != id) ==>
        res == USERNAME_TAKEN && users == old(users)
      ensures (forall i :: 0 <= i < |old(users)| ==> old(users)[i].username != username || old(users)[i].id == id) ==>
        && |users| == |old(users)|
        && (forall i :: 0 <= i < |users| ==>
              users[i] == if old(users)[i].id == id then old(users)[i].(username := username) else old(users)[i])
        && ((forall i :: 0 <= i < |users| ==> users[i].id != id) ==>
              res == Response(200, true, "Profile updated successfully", Updated(None)))
        && (forall k | 0 <= k < |users| && users[k].id == id ::
              res == Response(200, true, "Profile updated successfully", Updated(Some(Public(users[k])))))
    {
      var existing := Select(users, UsernameOfOther(username, id));
      SelectEmpty(users, UsernameOfOther(username, id));
      if |existing| > 0 {
        return USERNAME_TAKEN;
      }

      RenameOutcome(users, nextId, id, username);
      users := UpdateWhereId(users, id, SetUsername(username));

      var returned := Select(users, IdIs(id));
      if |returned| == 0 {
        res := Response(200, true, "Profile updated successfully", Updated(None));
      } else {
        res := Response(200, true, "Profile updated successfully", Updated(Some(Public(returned[0]))));
      }
    }

    /**
     * `PUT /api/auth/change-password`. The new password has no length rule.
     * A body field that is absent is `None`; bcrypt rejects it, and so does
     * reading the hash of an id without a row: each makes the handler fail
     * and reply 500.
     */
    method ChangePassword(id: nat, currentPassword: Option<string>, newPassword: Option<string>, salt: nat)
      returns (res: Response)
      requires Valid()
      modifies this
      ensures Valid() && nextId == old(nextId)
      ensures (forall i :: 0 <= i < |old(users)| ==> old(users)[i].id != id) ==>
        res == CHANGE_PASSWORD_FAILED && users == old(users)
      ensures forall k | 0 <= k < |old(users)| && old(users)[k].id == id ::
        if currentPassword.None? then
          res == CHANGE_PASSWORD_FAILED && users == old(users)
        else if !Compare(currentPassword.value, old(users)[k].passwordHash) then
          res == WRONG_PASSWORD && users == old(users)
        else if newPassword.None? then
          res == CHANGE_PASSWORD_FAILED && users == old(users)
        else
          && res == PASSWORD_CHANGED
          && |users| == |old(users)|
          && (forall i :: 0 <= i < |users| ==>
                users[i] == if i == k then old(users)[k].(passwordHash := Hash(newPassword.value, salt))
                            else old(users)[i])
    {
      var rows := Select(users, IdIs(id));
      SelectByIdCases(users, nextId, id);
      if |rows| == 0 {
        return CHANGE_PASSWORD_FAILED;
      }
      var user := rows[0];
      assert user in users;

      if currentPassword.None? {
        return CHANGE_PASSWORD_FAILED;
      }
      var validPassword := Compare(currentPassword.value, user.passwordHash);
      if !validPassword {
        return WRONG_PASSWORD;
      }

      if newPassword.None? {
        return CHANGE_PASSWORD_FAILED;
      }
      var newPasswordHash := Hash(newPassword.value, salt);
      UpdateKeepsWellFormed(users, nextId, id, SetPasswordHash(newPasswordHash));
      users := UpdateWhereId(users, id, SetPasswordHash(newPasswordHash));
      res := PASSWORD_CHANGED;
    }
  }
}
