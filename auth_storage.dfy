/**
 * The browser's session store: the token and the signed-in user kept in
 * `localStorage`, a map from keys to strings. The user is kept as the text
 * `JSON.stringify` made of it; turning it back into an object is left to the
 * JSON codec, so `GetUser` hands out that text.
 */
module AuthStorage {

  import opened Wrappers

  const TOKEN_KEY := "spotify_finder_token"
  const USER_KEY := "spotify_finder_user"
  /** Where an older version kept favorites; removed on logout. */
  const LEGACY_FAVORITES_KEY := "spotify-favorites"

  class LocalStorage {

    /** Every entry of `localStorage`, this application's and any other. */
    var items: map<string, string>

    constructor (initial: map<string, string>)
      ensures items == initial
    {
      items := initial;
    }

    /** `getToken`: `localStorage.getItem(TOKEN_KEY)`, `None` standing for `null`. */
    function GetToken(): (t: Option<string>)
      reads this
      ensures t.Some? <==> TOKEN_KEY in items
      ensures t.Some? ==> t.value == items[TOKEN_KEY]
    {
      if TOKEN_KEY in items then Some(items[TOKEN_KEY]) else None
    }

    /** `isAuthenticated`: a token is stored and it is not the empty string. */
    function IsAuthenticated(): (b: bool)
      reads this
      ensures b <==> TOKEN_KEY in items && items[TOKEN_KEY] != ""
    {
      var t := GetToken();
      t.Some? && t.value != ""
    }

    /** `getUser`: the stored text, or `None` when there is none or it is empty. */
    function GetUser(): (u: Option<string>)
      reads this
      ensures USER_KEY !in items ==> u == None
      ensures u.Some? <==> USER_KEY in items && items[USER_KEY] != ""
      ensures u.Some? ==> u.value == items[USER_KEY]
    {
      if USER_KEY in items && items[USER_KEY] != "" then Some(items[USER_KEY]) else None
    }

    method SetToken(token: string)
      modifies this
      ensures items == old(items)[TOKEN_KEY := token]
      ensures GetToken() == Some(token)
      ensures IsAuthenticated() <==> token != ""
    {
      items := items[TOKEN_KEY := token];
    }

    method RemoveToken()
      modifies this
      ensures items == old(items) - {TOKEN_KEY}
      ensures GetToken() == None && !IsAuthenticated()
      ensures GetUser() == old(GetUser())
    {
      items := items - {TOKEN_KEY};
    }

    /** `setUser` with the text `JSON.stringify(user)` produced. */
    method SetUser(serialized: string)
      modifies this
      ensures items == old(items)[USER_KEY := serialized]
      ensures serialized != "" ==> GetUser() == Some(serialized)
      ensures GetToken() == old(GetToken())
    {
      items := items[USER_KEY := serialized];
    }

    method RemoveUser()
      modifies this
      ensures items == old(items) - {USER_KEY}
      ensures GetUser() == None
      ensures GetToken() == old(GetToken())
    {
      items := items - {USER_KEY};
    }

    /** `logout`: three removals; every other key keeps its value. */
    method Logout()
      modifies this
      ensures items == old(items) - {TOKEN_KEY, USER_KEY, LEGACY_FAVORITES_KEY}
      ensures forall k :: k in old(items) && k !in {TOKEN_KEY, USER_KEY, LEGACY_FAVORITES_KEY} ==>
                k in items && items[k] == old(items)[k]
      ensures !IsAuthenticated() && GetUser() == None
    {
      RemoveToken();
      RemoveUser();
      items := items - {LEGACY_FAVORITES_KEY};
    }
  }
}
