/**
 * The favorites logic of the album page: whether an album shows as a
 * favorite, the toggle that removes or adds it through `favoritesAPI`, and
 * the effect that loads the list after sign-in. The page's `favorites`
 * state holds whatever the server listed plus the albums added since; the
 * outcome of each `favoritesAPI` call is a parameter, and the call the page
 * makes is returned.
 */
module AppFavorites {

  import opened Wrappers
  import opened AuthStorage
  import opened ApiClient

  // ----------------------------------------------------------- the values

  datatype Artist = Artist(id: string, name: string)

  /**
   * An album as the search returned it. `images` are the image objects;
   * `externalUrls` is the `external_urls` object, `None` when it is absent.
   */
  datatype Album = Album(id: string, name: string, artists: seq<Artist>, images: seq<Json>,
                         externalUrls: Option<map<string, Json>>)

  /**
   * An entry of the `favorites` state: an item of the list the server sent,
   * or an album the page appended as `{ ...album, album_id: album.id }`.
   */
  datatype FavEntry = Listed(item: Json) | Spread(album: Album)

  /** `fav.album_id`; `None` is `undefined`. */
  function AlbumIdOf(e: FavEntry): (v: Option<Json>)
    ensures e.Spread? ==> v == Some(JStr(e.album.id))
  {
    match e
    case Listed(item) => Member(item, "album_id")
    case Spread(album) => Some(JStr(album.id))
  }

  /** `fav.id`; a spread album keeps its own `id`. */
  function IdOf(e: FavEntry): (v: Option<Json>)
    ensures e.Spread? ==> v == Some(JStr(e.album.id))
  {
    match e
    case Listed(item) => Member(item, "id")
    case Spread(album) => Some(JStr(album.id))
  }

  /** Truthiness of a member that may be `undefined`. */
  predicate Present(v: Option<Json>)
  {
    v.Some? && JsTruthy(v.value)
  }

  /** `a || b` on members that may be `undefined`. */
  function Or(a: Option<Json>, b: Option<Json>): (r: Option<Json>)
    ensures Present(a) ==> r == a
    ensures !Present(a) ==> r == b
  {
    if Present(a) then a else b
  }

  /** `(fav.album_id || fav.id) === id`: the test `isFavorite` and the remove filter use. */
  predicate KeyedBy(e: FavEntry, id: string)
  {
    Or(AlbumIdOf(e), IdOf(e)) == Some(JStr(id))
  }

  /** `fav.album_id === id || fav.id === id`: the test `toggleFavorite` decides with. */
  predicate MentionedBy(e: FavEntry, id: string)
  {
    AlbumIdOf(e) == Some(JStr(id)) || IdOf(e) == Some(JStr(id))
  }

  /** `isFavorite(album)`. */
  predicate IsFavorite(favs: seq<FavEntry>, id: string)
  {
    exists i :: 0 <= i < |favs| && KeyedBy(favs[i], id)
  }

  /** The `isFav` of `toggleFavorite`. */
  predicate IsFavTest(favs: seq<FavEntry>, id: string)
  {
    exists i :: 0 <= i < |favs| && MentionedBy(favs[i], id)
  }

  /** An entry the album's favorite check accepts is also one the toggle's test accepts. */
  lemma KeyedIsMentioned(e: FavEntry, id: string)
    requires KeyedBy(e, id)
    ensures MentionedBy(e, id)
  {
    if Present(AlbumIdOf(e)) {
      assert AlbumIdOf(e) == Some(JStr(id));
    } else {
      assert IdOf(e) == Some(JStr(id));
    }
  }

  /** An album shown as a favorite is one the toggle treats as a favorite. */
  lemma FavoriteImpliesFavTest(favs: seq<FavEntry>, id: string)
    requires IsFavorite(favs, id)
    ensures IsFavTest(favs, id)
  {
    var i :| 0 <= i < |favs| && KeyedBy(favs[i], id);
    KeyedIsMentioned(favs[i], id);
  }

  /** A listed item whose `album_id` is another album but whose `id` is this album's. */
  const MIXED_ENTRY := Listed(JObj(map["album_id" := JStr("A"), "id" := JStr("B")]))

  /**
   * The converse fails: the toggle's test accepts this entry for album
   * `"B"`, while `isFavorite` reads its `album_id` and rejects it.
   */
  lemma FavTestDoesNotImplyFavorite()
    ensures IsFavTest([MIXED_ENTRY], "B") && !IsFavorite([MIXED_ENTRY], "B")
  {
    assert MentionedBy([MIXED_ENTRY][0], "B");
    assert Or(AlbumIdOf(MIXED_ENTRY), IdOf(MIXED_ENTRY)) == Some(JStr("A"));
  }

  // ------------------------------------------------------------ the lists

  /** `favorites.filter(fav => (fav.album_id || fav.id) !== id)`. */
  function WithoutAlbum(favs: seq<FavEntry>, id: string): (r: seq<FavEntry>)
    ensures |r| <= |favs|
    ensures forall e :: e in r <==> e in favs && !KeyedBy(e, id)
    ensures (forall k :: 0 <= k < |favs| ==> !KeyedBy(favs[k], id)) ==> r == favs
    ensures !IsFavorite(r, id)
  {
    if favs == [] then []
    else
      var rest := WithoutAlbum(favs[1..], id);
      assert forall e :: e in favs <==> e == favs[0] || e in favs[1..];
      if KeyedBy(favs[0], id) then rest else [favs[0]] + rest
  }

  /** The filter runs over the list front to back: the kept entries stay in their order. */
  lemma {:induction false} WithoutAlbumAppend(a: seq<FavEntry>, b: seq<FavEntry>, id: string)
    ensures WithoutAlbum(a + b, id) == WithoutAlbum(a, id) + WithoutAlbum(b, id)
  {
    if a == [] {
      assert a + b == b;
    } else {
      assert (a + b)[0] == a[0] && (a + b)[1..] == a[1..] + b;
      WithoutAlbumAppend(a[1..], b, id);
      var kept, rest := WithoutAlbum(a[1..], id), WithoutAlbum(b, id);
      assert [a[0]] + (kept + rest) == ([a[0]] + kept) + rest;
    }
  }

  /** Appending an album makes it a favorite, one entry longer, the old entries first. */
  lemma AppendedIsFavorite(favs: seq<FavEntry>, album: Album)
    ensures var r := favs + [Spread(album)];
      |r| == |favs| + 1 && r[..|favs|] == favs && IsFavorite(r, album.id)
  {
    var r := favs + [Spread(album)];
    assert KeyedBy(r[|favs|], album.id);
  }

  /**
   * `response.favorites || []` for a reply that is not `null`: the items of
   * the array, or no entries when the member is missing or falsy.
   */
  function FavoritesOf(data: Json): (r: seq<FavEntry>)
    ensures var m := Member(data, "favorites");
      (m.Some? && m.value.JArr?) ==>
        (|r| == |m.value.items| && forall k :: 0 <= k < |r| ==> r[k] == Listed(m.value.items[k]))
    ensures !Present(Member(data, "favorites")) ==> r == []
  {
    var m := Member(data, "favorites");
    if m.Some? && m.value.JArr? then ListedAll(m.value.items) else []
  }

  function ListedAll(items: seq<Json>): (r: seq<FavEntry>)
    ensures |r| == |items| && forall k :: 0 <= k < |r| ==> r[k] == Listed(items[k])
  {
    if items == [] then [] else [Listed(items[0])] + ListedAll(items[1..])
  }

  // ------------------------------------------------------------- requests

  /**
   * The `albumData` the page builds for `favoritesAPI.add`, or `None` when
   * building it throws: without an artist `album.artists[0].id` throws, and
   * without `external_urls` so does reading its `spotify`. A missing
   * `spotify` leaves `spotify_url` out of the serialised object.
   */
  function AlbumData(album: Album): (r: Option<Json>)
    ensures r.None? <==> |album.artists| == 0 || album.externalUrls.None?
    ensures r.Some? ==> r.value.JObj?
    ensures r.Some? ==>
      var f := r.value.fields;
      && f.Keys == {"album_id", "album_name", "artist_id", "artist_name", "image_url"}
                   + (if "spotify" in album.externalUrls.value then {"spotify_url"} else {})
      && f["album_id"] == JStr(album.id)
      && f["album_name"] == JStr(album.name)
      && f["artist_id"] == JStr(album.artists[0].id)
      && f["artist_name"] == JStr(album.artists[0].name)
      && f["image_url"] == (if |album.images| > 0 && Present(Member(album.images[0], "url"))
                            then Member(album.images[0], "url").value else JStr(""))
      && ("spotify_url" in f <==> "spotify" in album.externalUrls.value)
      && ("spotify_url" in f ==> f["spotify_url"] == album.externalUrls.value["spotify"])
  {
    if |album.artists| == 0 || album.externalUrls.None? then None
    else
      var url := if |album.images| > 0 then Member(album.images[0], "url") else None;
      var imageUrl := Or(url, Some(JStr(""))).value;
      var required := map["album_id" := JStr(album.id), "album_name" := JStr(album.name),
                          "artist_id" := JStr(album.artists[0].id), "artist_name" := JStr(album.artists[0].name),
                          "image_url" := imageUrl];
      var urls := album.externalUrls.value;
      Some(JObj(if "spotify" in urls then required["spotify_url" := urls["spotify"]] else required))
  }

  // ------------------------------------------------------------- the page

  /** The page state the favorites logic reads and writes. */
  class FavoritesPage {
    var favorites: seq<FavEntry>
    var showLogin: bool

    constructor()
      ensures favorites == [] && !showLogin
    {
      favorites := [];
      showLogin := false;
    }

    /** `isFavorite(album)` over the current state. */
    predicate ShowsFavorite(album: Album)
      reads this
    {
      IsFavorite(favorites, album.id)
    }

    /**
     * `toggleFavorite(album)`. Signed out, it only asks for the login form.
     * Signed in, it removes the album when the toggle's test finds it and
     * adds it otherwise; `outcome` is what the `favoritesAPI` call did. A
     * call that throws, or an album data that cannot be built, raises the
     * alert and changes nothing. `call` is the `favoritesAPI` request made.
     */
    method ToggleFavorite(session: LocalStorage, album: Album, outcome: CallResult)
      returns (call: Option<ClientCall>, alerted: bool)
      modifies this
      ensures !session.IsAuthenticated() ==>
        showLogin && favorites == old(favorites) && call == None && !alerted
      ensures session.IsAuthenticated() ==> showLogin == old(showLogin)
      ensures session.IsAuthenticated() && IsFavTest(old(favorites), album.id) ==>
        call == Some(FavoritesRemove(album.id)) &&
        alerted == outcome.Threw? &&
        favorites == (if outcome.Threw? then old(favorites) else WithoutAlbum(old(favorites), album.id))
      ensures session.IsAuthenticated() && !IsFavTest(old(favorites), album.id) ==>
        var data := AlbumData(album);
        call == (if data.None? then None else Some(FavoritesAdd(data.value))) &&
        alerted == (data.None? || outcome.Threw?) &&
        favorites == (if alerted then old(favorites) else old(favorites) + [Spread(album)])
      ensures session.IsAuthenticated() && !alerted ==> (ShowsFavorite(album) <==> !IsFavTest(old(favorites), album.id))
    {
      if !session.IsAuthenticated() {
        showLogin := true;
        return None, false;
      }
      var isFav := IsFavTest(favorites, album.id);
      alerted := false;
      if isFav {
        call := Some(FavoritesRemove(album.id));
        if outcome.Threw? {
          alerted := true;
        } else {
          favorites := WithoutAlbum(favorites, album.id);
        }
      } else {
        var data := AlbumData(album);
        if data.None? {
          call := None;
          alerted := true;
        } else {
          call := Some(FavoritesAdd(data.value));
          if outcome.Threw? {
            alerted := true;
          } else {
            AppendedIsFavorite(favorites, album);
            favorites := favorites + [Spread(album)];
          }
        }
      }
    }

    /**
     * The `loadFavorites` effect. Signed out, the list is emptied. Signed in,
     * it takes `response.favorites || []` from the reply; a thrown call, or
     * a `null` reply whose member read throws, is only logged.
     */
    method LoadFavorites(session: LocalStorage, outcome: CallResult) returns (call: Option<ClientCall>)
      modifies this
      ensures showLogin == old(showLogin)
      ensures !session.IsAuthenticated() ==> favorites == [] && call == None
      ensures session.IsAuthenticated() ==>
        call == Some(FavoritesGetAll) &&
        favorites == (if outcome.Returned? && outcome.data != JNull then FavoritesOf(outcome.data)
                      else old(favorites))
    {
      if !session.IsAuthenticated() {
        favorites := [];
        return None;
      }
      call := Some(FavoritesGetAll);
      if outcome.Returned? && outcome.data != JNull {
        favorites := FavoritesOf(outcome.data);
      }
    }
  }
}
