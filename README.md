# Spotify album finder: accounts, favorites and the client session, in Dafny

This project models the account and favorites core of the Spotify album
finder: an Express backend with a `users` table and a `favorites` table,
and the React frontend's API helper, its localStorage session store and the
favorites logic of the album page.

- **`AuthRoutes`** (`auth_routes.dfy`): the validation chains of the
  authentication router, meaning `trim()` and the length rules, with the
  validator library's `isEmail` and `normalizeEmail` given as parameters. It
  also holds the server's route table: which routes sit behind the token
  check, and the first-match lookup Express performs. Paths in the table are
  written below the `/api` prefix where the server mounts both routers.
- **`Crypto`** (`crypto.dfy`): bcrypt taken as an ideal salted hash. The
  salt is a parameter. A digest verifies exactly the password it was made
  from.
- **`AuthController`** (`auth_controller.dfy`): a `UsersController` object
  holds the `users` table as a sequence and the id generator as a counter.
  Each request handler is one atomic method. The `SELECT` and `UPDATE`
  queries are the functions `Select` and `UpdateWhereId`. Every handler keeps
  the table invariant: ids, emails and usernames are distinct, and every id
  is below the next one to be handed out.
- **`FavoritesController`** (`favorites_controller.dfy`): a `FavoritesStore`
  object over the `favorites` table. Its invariant is at most one row per
  (user, album). No handler reads or writes another user's rows.
- **`AuthStorage`** (`auth_storage.dfy`): the token and user helpers, as a
  `LocalStorage` object holding a string map.
- **`ApiClient`** (`api_client.dfy`): it covers:
  - the base-URL choice;
  - the header merge, with the bearer token as section 2.1 of RFC 6750 writes it;
  - how `apiCall` turns a reply or a network failure into data or an error message;
  - the endpoint and options of every `authAPI` / `favoritesAPI` call.

  Each call is shown to meet the server route of its handler, by path and
  verb.
- **`AppFavorites`** (`app.dfy`): the page's `favorites` and `showLogin`
  state as a `FavoritesPage` object. It models `isFavorite`,
  `toggleFavorite` and the effect that loads the list.
- **`Scenarios`** (`scenarios.dfy`): a first session, derived from the
  handler contracts alone. A user registers, is refused a wrong password,
  adds an album, is refused adding it again, and lists one favorite. Any
  body that passes the register chain can log in after registering.

Inputs the program gets from outside are parameters:

| Input | How the model takes it |
|---|---|
| the bcrypt salt | `salt` |
| `CURRENT_TIMESTAMP` and the `created_at` default | `now` |
| `JWT_EXPIRE` | `jwtExpire` |
| the validator functions | `isEmail`, `normalizeEmail` |
| what `fetch` and `JSON.parse` produced | `fetchOutcome`, `parse` |
| the outcome of each `favoritesAPI` call made by the page | `outcome` |
| `VITE_API_URL` and `window.location.hostname` | `viteApiUrl`, `hostname` |

Two handlers do not end where their replies suggest:

- `changePassword` for an id with no row reads a member of `undefined`. It
  ends in its catch block with 500 "Error changing password", not in a
  not-found reply.
- `updateProfile` for such an id replies 200 with no user, rather than
  returning a new profile.

## Model

| member | source | states |
|---|---|---|
| AuthRoutes.IsWhitespace | codedex-api-template/backend/routes/auth.js:17 | the characters `trim()` removes: those of the JavaScript `\s` class (ASCII tab to carriage return, space, no-break space, the Unicode space separators, the line and paragraph separators and the byte-order mark) |
| AuthRoutes.TrimStart | codedex-api-template/backend/routes/auth.js:17 | the result is a suffix of the input; everything removed is whitespace; the result does not start with whitespace |
| AuthRoutes.TrimEnd | codedex-api-template/backend/routes/auth.js:17 | the result is a prefix of the input; everything removed is whitespace; the result does not end with whitespace |
| AuthRoutes.StripsBothEnds | codedex-api-template/backend/routes/auth.js:17 | stripping the start and then the end leaves a middle part of the input with only whitespace before and after it |
| AuthRoutes.Trim | codedex-api-template/backend/routes/auth.js:17 | the trimmed username is a middle part of the input with only whitespace removed before and after it, and neither of its ends is whitespace |
| AuthRoutes.TrimOfTrimmed | codedex-api-template/backend/routes/auth.js:17 | a string whose ends are not whitespace is left as it is by `trim()` |
| AuthRoutes.TrimIdempotent | codedex-api-template/backend/routes/auth.js:17 | trimming twice is trimming once |
| AuthRoutes.ValidatorLength | codedex-api-template/backend/routes/auth.js:17-18 | the length `isLength` checks is the number of code points less the number of presentation selectors U+FE0E and U+FE0F; so it equals the character count when there is no selector and is smaller when there is one |
| AuthRoutes.SelectorCountFront | codedex-api-template/backend/routes/auth.js:17-18 | the selectors of a string can be counted from the front as well as from the back, which ties the front-to-back length count to the selector count |
| AuthRoutes.RegisterErrors | codedex-api-template/backend/routes/auth.js:15-19 | the three register rules give no error iff all pass, and each message iff its own rule fails |
| AuthRoutes.ErrorIf | codedex-api-template/backend/routes/auth.js:16-18 | a failed rule contributes exactly its own message, and a passing rule contributes nothing |
| AuthRoutes.RegisterValidation | codedex-api-template/backend/routes/auth.js:15-19 | no errors iff the email passes `isEmail`, the trimmed username is 3 to 30 characters long and the password is at least 6; each message is present iff its rule fails, and there are exactly as many errors as failing rules; the controller gets the normalised email and the trimmed username |
| AuthRoutes.LoginValidation | codedex-api-template/backend/routes/auth.js:21-24 | no errors iff the email passes `isEmail` and the password is non-empty, with no length rule; each message is present iff its rule fails; the email is normalised |
| AuthRoutes.Matches | codedex-api-template/backend/routes/favorites.js:18-19 | a fixed path matches itself only; a `:albumId` route matches its prefix followed by one non-empty segment without `/` |
| AuthRoutes.FindRoute | codedex-api-template/backend/routes/auth.js:27-31 | a route found serves the method and matches the path; when none is found, no route does both |
| AuthRoutes.FindRouteAt | codedex-api-template/backend/routes/auth.js:27-31 | the first route that serves a request is the one dispatched to |
| AuthRoutes.AuthRouteGuards | codedex-api-template/backend/routes/auth.js:27-31 | a route of the authentication router is behind the token check iff it is GET/PUT profile or change-password; register and login run their validation chains; update and change-password run none |
| AuthRoutes.FavoriteRoutesGuarded | codedex-api-template/backend/routes/favorites.js:13-19 | every favorites route is behind the token check and has no validation chain |
| Crypto.Hash | codedex-api-template/backend/controllers/authController.js:49 | the digest uses 10 salt rounds and verifies exactly the password it was made from, whatever the salt |
| Crypto.Compare | codedex-api-template/backend/controllers/authController.js:114-237 | `bcrypt.compare`: checks a password against a digest; with `Hash`, it holds exactly for the password the digest was made from |
| AuthController.Public | codedex-api-template/backend/controllers/authController.js:55 | the `RETURNING id, email, username, created_at` view of a row |
| AuthController.ProfileOf | codedex-api-template/backend/controllers/authController.js:157 | the profile view: id, email, username, `created_at` and `last_login` of a row |
| AuthController.ViewsOmitHash | codedex-api-template/backend/controllers/authController.js:55-72 | neither view depends on the password hash, so no reply carries it |
| AuthController.GenerateToken | codedex-api-template/backend/controllers/authController.js:9-19 | the token claims are exactly id, email and username; the lifetime is `JWT_EXPIRE`, or `7d` when that is unset |
| AuthController.Satisfies | codedex-api-template/backend/controllers/authController.js:37-230 | the four `WHERE` clauses on `users`: `email = $1 OR username = $2`, `email = $1`, `id = $1`, and `username = $1 AND id != $2` |
| AuthController.Assign | codedex-api-template/backend/controllers/authController.js:125-251 | the three `SET` clauses on `users` (`last_login`, `username`, `password_hash`): the assigned column takes its new value and id, email, `created_at` and the other columns keep theirs |
| AuthController.Select | codedex-api-template/backend/controllers/authController.js:36-39 | a query returns exactly the rows that satisfy its `WHERE`, and no more rows than the table has |
| AuthController.UpdateWhereId | codedex-api-template/backend/controllers/authController.js:124-127 | `UPDATE ... WHERE id` applies the assignment to the rows with that id and leaves every other row |
| AuthController.SelectAppend | codedex-api-template/backend/controllers/authController.js:36-39 | querying a concatenated table is querying each part, in order |
| AuthController.SelectEmpty | codedex-api-template/backend/controllers/authController.js:41 | a query is empty iff no row satisfies its condition |
| AuthController.SelectNone | codedex-api-template/backend/controllers/authController.js:104 | with no satisfying row, the answer is empty |
| AuthController.SelectSingle | codedex-api-template/backend/controllers/authController.js:111 | when exactly one row satisfies the condition, the answer is that row alone |
| AuthController.SelectById | codedex-api-template/backend/controllers/authController.js:156-159 | in a well-formed table, `WHERE id = $1` returns exactly the row with that id |
| AuthController.SelectByIdCases | codedex-api-template/backend/controllers/authController.js:156-166 | `WHERE id = $1` is empty iff no row has the id, and otherwise it is that row alone |
| AuthController.UpdateRowOutcome | codedex-api-template/backend/controllers/authController.js:124-127 | in a well-formed table an update by a row's id changes that row alone and keeps the invariant |
| AuthController.SelectByEmail | codedex-api-template/backend/controllers/authController.js:99-111 | in a well-formed table, the login query returns exactly the row with that email |
| AuthController.InsertKeepsWellFormed | codedex-api-template/backend/controllers/authController.js:36-57 | inserting a row whose email and username no row has, under the next id, keeps ids, emails and usernames distinct |
| AuthController.UpdateKeepsWellFormed | codedex-api-template/backend/controllers/authController.js:189-205 | an update by id keeps the invariant, provided a new username is held by no row with a different id |
| AuthController.RenameOutcome | codedex-api-template/backend/controllers/authController.js:189-211 | renaming to a username free of other ids changes that row's username only; the renamed row, if any, is the one row the update returns |
| AuthController.RegisteredUserCanLogIn | codedex-api-template/backend/controllers/authController.js:99-116 | after a registration inserts a user, a login with that email finds exactly that user, and the registered password verifies |
| AuthController.UsersController.Register | codedex-api-template/backend/controllers/authController.js:22-74 | validation errors give 400 with the errors; an existing user with the same email or username gives 400 "Email or username already exists"; neither changes the table; otherwise exactly one row is appended, with the hash of the password and no last login, and the reply is 201 with a token and the user without the hash |
| AuthController.UsersController.CreateUser | codedex-api-template/backend/controllers/authController.js:33-74 | for a body that passed the chain: 400 with nothing changed when a row has the email or the username, otherwise exactly the new row appended under the next id and the 201 session reply |
| AuthController.UsersController.Login | codedex-api-template/backend/controllers/authController.js:86-142 | validation errors give 400; an unknown email and a wrong password give the same 401 "Invalid email or password" and change nothing; a good password sets only that user's `last_login` and replies 200 with a token and the user without the hash |
| AuthController.UsersController.Authenticate | codedex-api-template/backend/controllers/authController.js:97-142 | for a body that passed the chain: an unknown email and a wrong password give the same 401 with nothing changed; a good password changes only that row's `last_login` and replies 200 with its session |
| AuthController.UsersController.RecordLogin | codedex-api-template/backend/controllers/authController.js:123-141 | only the given row's `last_login` becomes the current time, the invariant holds, and the reply carries a token for that user |
| AuthController.UsersController.GetProfile | codedex-api-template/backend/controllers/authController.js:154-171 | 404 "User not found" when the id has no row; otherwise 200 with the row's id, email, username, created_at and last_login and no hash |
| AuthController.UsersController.UpdateProfile | codedex-api-template/backend/controllers/authController.js:183-211 | 400 "Username already taken" exactly when another id holds the name, with nothing changed; otherwise only the username of the caller's row changes, the user may keep their own name, uniqueness is kept, and the reply is 200 with the updated user, or with none when the id has no row |
| AuthController.UsersController.ChangePassword | codedex-api-template/backend/controllers/authController.js:223-267 | 500 when the id has no row or a password field is absent, with nothing changed; 401 "Current password is incorrect" with the hash unchanged; otherwise only that user's hash is replaced by a hash of the new password, with no length rule |
| FavoritesController.Satisfies | codedex-api-template/backend/controllers/favoritesController.js:9-128 | the two `WHERE` clauses on `favorites`, `user_id = $1` and `user_id = $1 AND album_id = $2`: both name the owner |
| FavoritesController.Select | codedex-api-template/backend/controllers/favoritesController.js:52-55 | a query returns exactly the rows that satisfy its `WHERE` |
| FavoritesController.Delete | codedex-api-template/backend/controllers/favoritesController.js:94-97 | a delete keeps exactly the rows that do not satisfy its `WHERE` |
| FavoritesController.InsertByDate | codedex-api-template/backend/controllers/favoritesController.js:9 | inserting into a newest-first list keeps it newest first and adds exactly the new row |
| FavoritesController.SortNewestFirst | codedex-api-template/backend/controllers/favoritesController.js:9 | `ORDER BY created_at DESC` gives a permutation of the rows, newest first |
| FavoritesController.SelectNone | codedex-api-template/backend/controllers/favoritesController.js:57 | with no satisfying row, the answer is empty |
| FavoritesController.SelectAppend | codedex-api-template/backend/controllers/favoritesController.js:52-55 | querying a concatenated table is querying each part, in order |
| FavoritesController.InsertInvisible | codedex-api-template/backend/controllers/favoritesController.js:65-71 | inserting rows none of which satisfy a query does not change that query's answer |
| FavoritesController.DeleteKeepsOthers | codedex-api-template/backend/controllers/favoritesController.js:94-97 | deleting one user's (user, album) row leaves every other user's rows, in order |
| FavoritesController.AlbumQueryWithinOwner | codedex-api-template/backend/controllers/favoritesController.js:127-130 | a (user, album) query sees only that user's rows |
| FavoritesController.CheckSeesOnlyOwnRows | codedex-api-template/backend/controllers/favoritesController.js:127-130 | two tables that agree on a user's rows give that user the same answer about any album |
| FavoritesController.AtMostOnePerAlbum | codedex-api-template/backend/controllers/favoritesController.js:52-71 | in a well-formed table, a (user, album) query has at most one answer |
| FavoritesController.RemoveThenCheck | codedex-api-template/backend/controllers/favoritesController.js:127-135 | after the delete of a (user, album) pair, the check query for that pair finds nothing |
| FavoritesController.ConsWellFormed | codedex-api-template/backend/controllers/favoritesController.js:52-71 | a table is well formed iff its tail is, and its head differs from every later row in id and in (user, album) |
| FavoritesController.DeleteKeepsWellFormed | codedex-api-template/backend/controllers/favoritesController.js:94-97 | a delete keeps ids distinct and at most one row per (user, album) |
| FavoritesController.InsertKeepsWellFormed | codedex-api-template/backend/controllers/favoritesController.js:52-71 | inserting a row for a pair the table lacks, under the next id, keeps the invariant |
| FavoritesController.AddedOnce | codedex-api-template/backend/controllers/favoritesController.js:52-62 | after the first add of an album, the duplicate query for it returns exactly the new row |
| FavoritesController.DeleteNothing | codedex-api-template/backend/controllers/favoritesController.js:94-104 | a delete that matches no row leaves the table as it was |
| FavoritesController.FavoritesStore.GetAllFavorites | codedex-api-template/backend/controllers/favoritesController.js:4-17 | 200 with exactly the caller's rows, as a permutation of the owner query, newest created_at first, and a count equal to their number |
| FavoritesController.FavoritesStore.AddFavorite | codedex-api-template/backend/controllers/favoritesController.js:29-77 | an empty album id, album name or artist name gives 400 and inserts nothing; an existing (user, album) pair gives 400 "Album already in favorites" with the table unchanged; otherwise one row owned by the caller is appended and returned with 201; the invariant holds; other users' rows are unchanged |
| FavoritesController.FavoritesStore.RemoveFavorite | codedex-api-template/backend/controllers/favoritesController.js:89-110 | the caller's row for the album is deleted and returned with 200; with no such row the reply is 404 "Favorite not found" and the table is unchanged; afterwards the pair has no row; other users' rows are unchanged |
| FavoritesController.FavoritesStore.CheckFavorite | codedex-api-template/backend/controllers/favoritesController.js:122-136 | always 200; `isFavorite` iff the caller has a row for the album; `favorite` is that row exactly when there is one, and null otherwise |
| AuthStorage.LocalStorage.GetToken | codedex-api-template/src/utils/auth.js:10-12 | the stored token, or null when no token is stored |
| AuthStorage.LocalStorage.IsAuthenticated | codedex-api-template/src/utils/auth.js:38-40 | true iff a token is stored and it is not the empty string |
| AuthStorage.LocalStorage.GetUser | codedex-api-template/src/utils/auth.js:22-25 | null when no user is stored or the stored text is empty; otherwise the stored text |
| AuthStorage.LocalStorage.SetToken | codedex-api-template/src/utils/auth.js:6-8 | only the token key is written; `getToken` then returns the token |
| AuthStorage.LocalStorage.RemoveToken | codedex-api-template/src/utils/auth.js:14-16 | only the token key is removed; the stored user is untouched |
| AuthStorage.LocalStorage.SetUser | codedex-api-template/src/utils/auth.js:18-20 | only the user key is written; the token is untouched |
| AuthStorage.LocalStorage.RemoveUser | codedex-api-template/src/utils/auth.js:27-29 | only the user key is removed; the token is untouched |
| AuthStorage.LocalStorage.Logout | codedex-api-template/src/utils/auth.js:31-36 | exactly the token, user and legacy favorites keys are removed and every other key is kept; afterwards the session is not authenticated and `getUser` is null |
| ApiClient.GetApiBaseUrl | codedex-api-template/src/services/api.js:4-18 | `VITE_API_URL` whenever it is set; otherwise `http://<host>:3000/api`, where `127.0.0.1` counts as `localhost` |
| ApiClient.BearerHeader | codedex-api-template/src/services/api.js:33 | an Authorization header is present iff the token is truthy, and it is then "Bearer " followed by the token |
| ApiClient.RequestHeaders | codedex-api-template/src/services/api.js:29-36 | the keys are Content-Type, Authorization when there is a token, and the caller's; caller headers override; otherwise the JSON content type and the bearer header stand |
| ApiClient.JsTruthy | codedex-api-template/src/services/api.js:53 | the values `||` passes over are exactly `null`, `false`, `0` and the empty string |
| ApiClient.NatToString | codedex-api-template/src/services/api.js:53 | the status is written in decimal digits that denote it, with no leading zero |
| ApiClient.IntToString | codedex-api-template/src/services/api.js:53 | an integer's text starts with a minus sign iff the integer is negative; the digits after it denote its absolute value, with no leading zero |
| ApiClient.JsString | codedex-api-template/src/services/api.js:53 | `String(v)` as `new Error(v)` applies it: strings unchanged, numbers in decimal, `null`, booleans, arrays joined with commas, objects as "[object Object]" |
| ApiClient.JoinItems | codedex-api-template/src/services/api.js:53 | `join(",")` of an array, with `null` items written as empty strings |
| ApiClient.Member | codedex-api-template/src/services/api.js:53 | a member is defined iff the value is an object that has it, and it is then that field's value |
| ApiClient.Contains | codedex-api-template/src/services/api.js:45-59 | `includes`: the part occurs at some position of the string |
| ApiClient.IsOk | codedex-api-template/src/services/api.js:52 | `response.ok`: the status is between 200 and 299 |
| ApiClient.ResponseData | codedex-api-template/src/services/api.js:42-50 | with a JSON content type, the data is the parsed text, or `{}` for an empty text; otherwise it is the "Invalid response format" object |
| ApiClient.FailureMessage | codedex-api-template/src/services/api.js:52-54 | the thrown message is a truthy `message`; without one, a truthy `error`; without either, "API request failed with status N" in decimal, also for a reply that is not an object; reading the members of a null reply throws |
| ApiClient.Rethrown | codedex-api-template/src/services/api.js:57-63 | a message containing "Failed to fetch" becomes the connection hint; any other is rethrown unchanged |
| ApiClient.ApiCall | codedex-api-template/src/services/api.js:26-64 | the request is base URL plus endpoint, with GET by default and the merged headers; a network failure, a parse failure or a status outside 200-299 throws the mapped message; only an ok reply returns data |
| ApiClient.CallOptions | codedex-api-template/src/services/api.js:67-128 | no client call passes headers of its own |
| ApiClient.AuthCallsReachRoutes | codedex-api-template/src/services/api.js:67-99 | each `authAPI` call and the health check reaches the route of its own handler, and is behind the token check iff it needs one |
| ApiClient.FavoritesCallsReachRoutes | codedex-api-template/src/services/api.js:103-112 | listing and adding favorites reach their handlers, behind the token check |
| ApiClient.AlbumCallsReachRoutes | codedex-api-template/src/services/api.js:114-122 | removing and checking an album whose id is one path segment reach their handlers, behind the token check |
| AppFavorites.AlbumIdOf | codedex-api-template/src/App.jsx:121 | an appended album's `album_id` is its own id |
| AppFavorites.IdOf | codedex-api-template/src/App.jsx:121 | an appended album keeps its own id as `id` |
| AppFavorites.IsFavorite | codedex-api-template/src/App.jsx:129-131 | `isFavorite`: some entry's `album_id || id` is the album's id |
| AppFavorites.IsFavTest | codedex-api-template/src/App.jsx:103 | the toggle's test: some entry's `album_id` or `id` is the album's id |
| AppFavorites.Or | codedex-api-template/src/App.jsx:109 | `a || b` is `a` when `a` is truthy, and `b` otherwise |
| AppFavorites.KeyedBy | codedex-api-template/src/App.jsx:109-130 | `(fav.album_id \|\| fav.id) === id`, the test `isFavorite` and the remove filter share: the entry's `album_id` when truthy, otherwise its `id`, is the album's id |
| AppFavorites.MentionedBy | codedex-api-template/src/App.jsx:103 | `fav.album_id === id \|\| fav.id === id`, the toggle's test: either member is the album's id |
| AppFavorites.KeyedIsMentioned | codedex-api-template/src/App.jsx:103-109 | an entry the remove filter drops is one the toggle's test accepts |
| AppFavorites.FavoriteImpliesFavTest | codedex-api-template/src/App.jsx:103-131 | an album that `isFavorite` shows is one `toggleFavorite` treats as a favorite |
| AppFavorites.FavTestDoesNotImplyFavorite | codedex-api-template/src/App.jsx:103-131 | the converse fails: an entry with another `album_id` but this album's `id` passes the toggle's test and not `isFavorite` |
| AppFavorites.WithoutAlbum | codedex-api-template/src/App.jsx:109 | the filter keeps exactly the entries whose `album_id || id` is not the album; it keeps the whole list when none match; afterwards the album is not a favorite |
| AppFavorites.WithoutAlbumAppend | codedex-api-template/src/App.jsx:109 | the filter works front to back, so the kept entries stay in their order |
| AppFavorites.AppendedIsFavorite | codedex-api-template/src/App.jsx:121 | appending the album grows the list by one, keeps the old entries first, and makes the album a favorite |
| AppFavorites.FavoritesOf | codedex-api-template/src/App.jsx:53 | `response.favorites || []`: the items of the array in order, or no entries when the member is missing or falsy |
| AppFavorites.ListedAll | codedex-api-template/src/App.jsx:53 | each item of the listed array becomes one entry, in order |
| AppFavorites.AlbumData | codedex-api-template/src/App.jsx:112-119 | building the add body fails exactly when the album has no artist or no `external_urls`; otherwise the body has exactly the keys `album_id`, `album_name`, `artist_id`, `artist_name`, `image_url`, and `spotify_url` iff `external_urls.spotify` is set; album id and name come from the album, artist id and name from the first artist, and the image URL defaults to '' |
| AppFavorites.FavoritesPage.ToggleFavorite | codedex-api-template/src/App.jsx:97-127 | signed out, only `showLogin` is set and nothing is sent; a favorite is removed through `favoritesAPI.remove` and filtered out; otherwise `albumData` goes to `favoritesAPI.add` and the album is appended; a failing call, or an add body that cannot be built, raises the alert and changes nothing; after a toggle without alert, `isFavorite` holds iff the toggle's test did not |
| AppFavorites.FavoritesPage.LoadFavorites | codedex-api-template/src/App.jsx:48-63 | signed out, the list is emptied; signed in, `favoritesAPI.getAll` is called and its `favorites`, or [], become the list; a thrown call leaves the list as it was |
| Scenarios.AliceIsValid | codedex-api-template/backend/routes/auth.js:15-19 | the sample registration passes the register chain unchanged |
| Scenarios.WrongLoginIsValid | codedex-api-template/backend/routes/auth.js:21-24 | the sample login passes the login chain unchanged |
| Scenarios.RegisterThenLogin | codedex-api-template/backend/controllers/authController.js:22-142 | on a fresh server, any body that passes the register chain registers with 201, and a login with the same email and password then replies 200 with a session whose token carries the registered user's id |
| Scenarios.RegisterThenWrongLogin | codedex-api-template/backend/controllers/authController.js:22-121 | on a fresh table registration replies 201 with user id 1, and a wrong password then replies 401 |
| Scenarios.AddTwiceThenList | codedex-api-template/backend/controllers/favoritesController.js:4-77 | on a fresh table the first add replies 201, the second 400, and the listing 200 with exactly the one row |
| Scenarios.FirstSession | codedex-api-template/backend/controllers/favoritesController.js:29-62 | the five replies of the first session are 201, 401, 201, 400 and 200, and the listing shows the album owned by the new user |

## Left out

- Password hashing is an ideal function. bcrypt's algorithm, its cost and
  its 72-byte input limit are not modelled. Two passwords verify against the
  same digest only when they are equal.
- JSON Web Tokens (RFC 7519): signing with `JWT_SECRET` and checking
  expiry are not modelled. A token is its claims plus its lifetime text. `backend/middleware/auth.js` is not
  part of this model. Each handler behind it takes the id that the token
  check attached.
- `isEmail` and `normalizeEmail` belong to the validator library. They are
  parameters. `trim()` strips the characters of the JavaScript `\s` class,
  and `isLength` counts code points without the presentation selectors
  U+FE0E and U+FE0F.
- The database is two in-memory tables, and the connection pool and SQL
  execution are outside the model:
  - Every failure that would reach a handler's catch block and reply 500 is
    left out, apart from `changePassword` on a missing row or an absent
    password field.
  - No schema is available; table uniqueness comes only from the handlers'
    own checks.
  - Concurrent requests are not modelled: each handler runs as one atomic
    step, so the races between check and insert are out of scope.
- `ApiClient.AlbumCallsReachRoutes` and `ApiClient.AuthCallsReachRoutes`
  assume that the base URL ends in `/api`, as both fallbacks do; a
  `VITE_API_URL` that does not end that way is outside what they show. An
  album id containing `?`, `#` or `%` passes `IsSegment`, but `fetch` would
  end the path at `?` or `#` and the server would decode `%` escapes; those
  ids are outside the lemmas too (Spotify ids are base-62).
- Host and port are not modelled. The server listens on `PORT`, or 5000
  when it is unset (`backend/server.js:12`). The client's fallbacks use port
  3000 (`src/services/api.js:13`, `:17`). So the two agree only when
  `PORT=3000`, or when `VITE_API_URL` names the server's port.
- `ApiClient.FailureMessage`: a null reply body gives the TypeError message
  that V8 writes, "Cannot read properties of null (reading 'message')".
  Other JavaScript engines word this error differently.
- The server's mount points and the health route appear only as route table
  entries. CORS, body parsing, the 404 fallback and the error middleware
  (`backend/server.js`) are not modelled. Express's tolerance of a trailing
  slash is not modelled either.
- Request bodies carry strings. For register and login a missing field is
  the empty string, which is what the validation chain sees; a non-string
  value sent in JSON is not modelled.
- `AuthController.UsersController.UpdateProfile`: a body without `username`
  would bind SQL `NULL`; the model always has a string. Whether the column
  accepts `NULL` depends on a schema that is not part of this model.
- `AuthController.UsersController.ChangePassword`: absent password fields
  are modelled (`None`, reply 500); a non-string value is not.
- A validation error is its field and its message; the `value`, `type` and
  `location` members that express-validator adds to each entry are left out.
- Rows with equal `created_at` come in an order the model fixes;
  PostgreSQL leaves that order unspecified.
- `FavoritesController.FavoritesStore.GetAllFavorites`: the contract states
  that the listing is a newest-first permutation of the owner's rows. It
  does not state which of several such orders the database returns.
- The album id is put into the path unescaped, exactly as the client does.
  Only ids that form one path segment are shown to reach their routes.
- `JSON.stringify` and `JSON.parse` of the stored user are left out. The
  user is kept as serialised text.
- `ApiClient.FailureMessage`: a truthy `message` or `error` that is not a
  string is turned into text by a simplified `String()` that is not exact
  for JavaScript numbers beyond integers.
- `ApiClient.ApiCall`: `fetch`, reading the body and `console.error` are
  outside the model. What `fetch` produced is a parameter. Header names are
  compared exactly, without the case folding that `fetch` applies.
- `AppFavorites.FavoritesPage.LoadFavorites`: the reply may hold a truthy
  `favorites` that is not an array. The page stores it as it is, and its
  next `some` call throws. The model stores no entries in that case. The
  effect re-running when `user` changes is React scheduling and is not
  modelled.
- `AppFavorites.FavoritesPage.ToggleFavorite`: the `console.error` and the
  text of the alert are not modelled. An album's own fields are taken as
  strings, its artists as records and its `images` as always present, so the
  throw of `album.images[0]` on an album without `images` is not modelled. A `null` entry in the listed array is
  treated as an entry with no members, although the page throws on it.
- The Spotify token fetch, the search, scrolling, rendering and the login
  and register forms are on the page but outside the favorites logic, and
  are not modelled.
