/**
 * The favorites controller over the `favorites` table. Every route reaches
 * it only after the token check, so each handler takes the id of an
 * authenticated user and touches only that user's rows. The table invariant
 * is "at most one row per (user, album)".
 */
module FavoritesController {

  import opened Wrappers

  // ------------------------------------------------------------------ rows

  /** A row of `favorites`; the optional columns are `NULL` when the request left them out. */
  datatype Favorite = Favorite(id: nat, userId: nat, albumId: string, albumName: string, artistName: string,
                               artistId: Option<string>, imageUrl: Option<string>, spotifyUrl: Option<string>,
                               releaseDate: Option<string>, totalTracks: Option<int>, createdAt: nat)

  /** The body of `POST /api/favorites`; a missing required field is the empty string. */
  datatype AddBody = AddBody(albumId: string, albumName: string, artistName: string,
                             artistId: Option<string>, imageUrl: Option<string>, spotifyUrl: Option<string>,
                             releaseDate: Option<string>, totalTracks: Option<int>)

  datatype Body =
    | NoBody
    | Listing(count: nat, favorites: seq<Favorite>)
    | One(favorite: Favorite)
    | Status(isFavorite: bool, found: Option<Favorite>)

  /** An HTTP reply: status, the `success` flag, `message` ("" when the reply has none) and the rest. */
  datatype Response = Response(status: nat, success: bool, message: string, body: Body)

  const MISSING_FIELDS := Response(400, false, "Album ID, name, and artist name are required", NoBody)
  const ALREADY_FAVORITE := Response(400, false, "Album already in favorites", NoBody)
  const FAVORITE_NOT_FOUND := Response(404, false, "Favorite not found", NoBody)

  // ------------------------------------------------------------ SQL model

  /** The `WHERE` clauses the controller uses; both name the owner. */
  datatype Where = OwnedBy(userId: nat) | OwnedAlbum(owner: nat, albumId: string)

  predicate Satisfies(f: Favorite, w: Where)
  {
    match w
    case OwnedBy(u) => f.userId == u
    case OwnedAlbum(u, a) => f.userId == u && f.albumId == a
  }

  /** `SELECT * FROM favorites WHERE w`, in table order. */
  function Select(rows: seq<Favorite>, w: Where): (r: seq<Favorite>)
    ensures |r| <= |rows|
    ensures forall f :: f in r <==> f in rows && Satisfies(f, w)
  {
    if rows == [] then []
    else (if Satisfies(rows[0], w) then [rows[0]] else []) + Select(rows[1..], w)
  }

  /** The rows `DELETE FROM favorites WHERE w` leaves, in table order. */
  function Delete(rows: seq<Favorite>, w: Where): (r: seq<Favorite>)
    ensures |r| <= |rows|
    ensures forall f :: f in r <==> f in rows && !Satisfies(f, w)
  {
    if rows == [] then []
    else (if Satisfies(rows[0], w) then [] else [rows[0]]) + Delete(rows[1..], w)
  }

  /** `ORDER BY created_at DESC`. */
  predicate NewestFirst(s: seq<Favorite>)
  {
    forall i, j | 0 <= i < j < |s| :: s[i].createdAt >= s[j].createdAt
  }

  /** Puts `f` into a newest-first list before the first row that is not newer. */
  function InsertByDate(f: Favorite, s: seq<Favorite>): (r: seq<Favorite>)
    requires NewestFirst(s)
    ensures NewestFirst(r)
    ensures multiset(r) == multiset(s) + multiset{f}
    ensures |r| == |s| + 1
    ensures r[0] == f || (s != [] && r[0] == s[0])
  {
    if s == [] || f.createdAt >= s[0].createdAt then
      [f] + s
    else
      var rest := InsertByDate(f, s[1..]);
      assert s == [s[0]] + s[1..];
      [s[0]] + rest
  }

  /** The rows newest first; rows created at the same time come in an order the model fixes. */
  function SortNewestFirst(s: seq<Favorite>): (r: seq<Favorite>)
    ensures NewestFirst(r)
    ensures multiset(r) == multiset(s)
    ensures |r| == |s|
  {
    if s == [] then []
    else
      assert s == [s[0]] + s[1..];
      InsertByDate(s[0], SortNewestFirst(s[1..]))
  }

  // ------------------------------------------------------- table invariant

  predicate DistinctIds(rows: seq<Favorite>)
  {
    forall i, j | 0 <= i < j < |rows| :: rows[i].id != rows[j].id
  }

  /** At most one row per (user_id, album_id). */
  predicate OnePerAlbum(rows: seq<Favorite>)
  {
    forall i, j | 0 <= i < j < |rows| :: rows[i].userId != rows[j].userId || rows[i].albumId != rows[j].albumId
  }

  predicate WellFormed(rows: seq<Favorite>, nextId: nat)
  {
    DistinctIds(rows) && OnePerAlbum(rows) && forall i | 0 <= i < |rows| :: rows[i].id < nextId
  }

  // ------------------------------------------------------------ SQL lemmas

  /** No row satisfies `w`: the query is empty. */
  lemma SelectNone(rows: seq<Favorite>, w: Where)
    requires forall j | 0 <= j < |rows| :: !Satisfies(rows[j], w)
    ensures Select(rows, w) == []
  {
  }

  lemma {:induction false} SelectAppend(a: seq<Favorite>, b: seq<Favorite>, w: Where)
    ensures Select(a + b, w) == Select(a, w) + Select(b, w)
  {
    if a == [] {
      assert a + b == b;
    } else {
      assert (a + b)[1..] == a[1..] + b;
      SelectAppend(a[1..], b, w);
    }
  }

  /** The rows that satisfy `w` stay put when `b` is inserted and nothing in `b` satisfies `w`. */
  lemma InsertInvisible(a: seq<Favorite>, b: seq<Favorite>, w: Where)
    requires forall j | 0 <= j < |b| :: !Satisfies(b[j], w)
    ensures Select(a + b, w) == Select(a, w)
  {
    SelectAppend(a, b, w);
    SelectNone(b, w);
  }

  /** Deleting one user's rows leaves every other user's rows, in order. */
  lemma {:induction false} DeleteKeepsOthers(rows: seq<Favorite>, owner: nat, albumId: string, other: nat)
    requires other != owner
    ensures Select(Delete(rows, OwnedAlbum(owner, albumId)), OwnedBy(other)) == Select(rows, OwnedBy(other))
  {
    if rows != [] {
      var head := if Satisfies(rows[0], OwnedAlbum(owner, albumId)) then [] else [rows[0]];
      DeleteKeepsOthers(rows[1..], owner, albumId, other);
      SelectAppend(head, Delete(rows[1..], OwnedAlbum(owner, albumId)), OwnedBy(other));
      if head == [] {
        assert Select([rows[0]], OwnedBy(other)) == [];
      }
    }
  }

  /** Asking for one of a user's albums sees only that user's rows. */
  lemma {:induction false} AlbumQueryWithinOwner(rows: seq<Favorite>, owner: nat, albumId: string)
    ensures Select(rows, OwnedAlbum(owner, albumId)) == Select(Select(rows, OwnedBy(owner)), OwnedAlbum(owner, albumId))
  {
    if rows != [] {
      AlbumQueryWithinOwner(rows[1..], owner, albumId);
      var head := if Satisfies(rows[0], OwnedBy(owner)) then [rows[0]] else [];
      SelectAppend(head, Select(rows[1..], OwnedBy(owner)), OwnedAlbum(owner, albumId));
    }
  }

  /** Two tables that agree on a user's rows give that user the same answer about any album. */
  lemma CheckSeesOnlyOwnRows(r1: seq<Favorite>, r2: seq<Favorite>, owner: nat, albumId: string)
    requires Select(r1, OwnedBy(owner)) == Select(r2, OwnedBy(owner))
    ensures Select(r1, OwnedAlbum(owner, albumId)) == Select(r2, OwnedAlbum(owner, albumId))
  {
    AlbumQueryWithinOwner(r1, owner, albumId);
    AlbumQueryWithinOwner(r2, owner, albumId);
  }

  /** In a well-formed table a (user, album) query has at most one answer. */
  lemma {:induction false} AtMostOnePerAlbum(rows: seq<Favorite>, nextId: nat, owner: nat, albumId: string)
    requires WellFormed(rows, nextId)
    ensures |Select(rows, OwnedAlbum(owner, albumId))| <= 1
  {
    if rows != [] {
      var tail := rows[1..];
      assert WellFormed(tail, nextId) by {
        forall i, j | 0 <= i < j < |tail|
          ensures tail[i].id != tail[j].id
          ensures tail[i].userId != tail[j].userId || tail[i].albumId != tail[j].albumId
        {
          assert tail[i] == rows[i + 1] && tail[j] == rows[j + 1];
        }
      }
      AtMostOnePerAlbum(tail, nextId, owner, albumId);
      if Satisfies(rows[0], OwnedAlbum(owner, albumId)) {
        forall j | 0 <= j < |tail| ensures !Satisfies(tail[j], OwnedAlbum(owner, albumId)) {
          assert tail[j] == rows[j + 1];
        }
        SelectNone(tail, OwnedAlbum(owner, albumId));
      }
    }
  }

  /** After deleting a (user, album) pair, asking for it finds nothing. */
  lemma RemoveThenCheck(rows: seq<Favorite>, owner: nat, albumId: string)
    ensures Select(Delete(rows, OwnedAlbum(owner, albumId)), OwnedAlbum(owner, albumId)) == []
  {
    var left := Delete(rows, OwnedAlbum(owner, albumId));
    forall j | 0 <= j < |left| ensures !Satisfies(left[j], OwnedAlbum(owner, albumId)) {
      assert left[j] in left;
    }
    SelectNone(left, OwnedAlbum(owner, albumId));
  }

  /** A row that differs from every row of `rest` in id and in (user, album) may go in front. */
  predicate FitsBefore(f: Favorite, rest: seq<Favorite>)
  {
    forall g | g in rest :: g.id != f.id && (g.userId != f.userId || g.albumId != f.albumId)
  }

  /** A well-formed table splits into a fitting head and a well-formed tail, and back. */
  lemma ConsWellFormed(f: Favorite, rest: seq<Favorite>, nextId: nat)
    ensures WellFormed([f] + rest, nextId) <==> WellFormed(rest, nextId) && FitsBefore(f, rest) && f.id < nextId
  {
    var r := [f] + rest;
    assert forall i | 0 <= i < |rest| :: r[i + 1] == rest[i];
    if WellFormed(r, nextId) {
      forall g | g in rest ensures g.id != f.id && (g.userId != f.userId || g.albumId != f.albumId) {
        var k :| 0 <= k < |rest| && rest[k] == g;
        assert r[0] == f && r[k + 1] == g;
      }
    }
    if WellFormed(rest, nextId) && FitsBefore(f, rest) && f.id < nextId {
      forall i, j | 0 <= i < j < |r|
        ensures r[i].id != r[j].id
        ensures r[i].userId != r[j].userId || r[i].albumId != r[j].albumId
      {
        if i == 0 {
          assert r[j] in rest;
        }
      }
    }
  }

  /** Deleting rows keeps the invariant. */
  lemma {:induction false} DeleteKeepsWellFormed(rows: seq<Favorite>, nextId: nat, w: Where)
    requires WellFormed(rows, nextId)
    ensures WellFormed(Delete(rows, w), nextId)
  {
    if rows != [] {
      assert rows == [rows[0]] + rows[1..];
      ConsWellFormed(rows[0], rows[1..], nextId);
      DeleteKeepsWellFormed(rows[1..], nextId, w);
      if !Satisfies(rows[0], w) {
        ConsWellFormed(rows[0], Delete(rows[1..], w), nextId);
      }
    }
  }

  /** Inserting a row for a (user, album) pair the table lacks, under the next id, keeps the invariant. */
  lemma InsertKeepsWellFormed(rows: seq<Favorite>, nextId: nat, f: Favorite)
    requires WellFormed(rows, nextId)
    requires Select(rows, OwnedAlbum(f.userId, f.albumId)) == [] && f.id == nextId
    ensures WellFormed(rows + [f], nextId + 1)
  {
    forall i | 0 <= i < |rows| ensures rows[i].userId != f.userId || rows[i].albumId != f.albumId {
      assert rows[i] in rows;
    }
  }

  /**
   * Adding an album twice: after the first insert the pair has exactly one
   * row, so the second request meets the duplicate check.
   */
  lemma AddedOnce(rows: seq<Favorite>, f: Favorite)
    requires Select(rows, OwnedAlbum(f.userId, f.albumId)) == []
    ensures Select(rows + [f], OwnedAlbum(f.userId, f.albumId)) == [f]
  {
    SelectAppend(rows, [f], OwnedAlbum(f.userId, f.albumId));
    assert [f][1..] == [];
  }

  // ------------------------------------------------------------ controller

  class FavoritesStore {

    /** The `favorites` table. */
    var rows: seq<Favorite>
    /** The id the table's sequence hands out next. */
    var nextId: nat

    ghost predicate Valid()
      reads this
    {
      WellFormed(rows, nextId)
    }

    constructor ()
      ensures Valid() && rows == [] && nextId == 1
    {
      rows := [];
      nextId := 1;
    }

    /** `GET /api/favorites`: exactly the caller's rows, newest first, and their count. */
    method GetAllFavorites(userId: nat) returns (res: Response)
      ensures res.status == 200 && res.success && res.message == "" && res.body.Listing?
      ensures forall f :: f in res.body.favorites <==> f in rows && f.userId == userId
      ensures multiset(res.body.favorites) == multiset(Select(rows, OwnedBy(userId)))
      ensures NewestFirst(res.body.favorites)
      ensures res.body.count == |res.body.favorites|
    {
      var owned := Select(rows, OwnedBy(userId));
      var ordered := SortNewestFirst(owned);
      forall f ensures f in ordered <==> f in owned {
        assert f in ordered <==> f in multiset(ordered);
      }
      res := Response(200, true, "", Listing(|ordered|, ordered));
    }

    /**
     * `POST /api/favorites`: each of album id, album name and artist name
     * must be non-empty, and the caller must not have the album yet; then one
     * row owned by the caller is inserted and returned.
     */
    method AddFavorite(userId: nat, body: AddBody, now: nat) returns (res: Response)
      requires Valid()
      modifies this
      ensures Valid()
      ensures body.albumId == "" || body.albumName == "" || body.artistName == "" ==>
        res == MISSING_FIELDS && rows == old(rows) && nextId == old(nextId)
      ensures body.albumId != "" && body.albumName != "" && body.artistName != ""
              && (exists f :: f in old(rows) && f.userId == userId && f.albumId == body.albumId) ==>
        res == ALREADY_FAVORITE && rows == old(rows) && nextId == old(nextId)
      ensures body.albumId != "" && body.albumName != "" && body.artistName != ""
              && (forall f :: f in old(rows) ==> f.userId != userId || f.albumId != body.albumId) ==>
        var row := Favorite(old(nextId), userId, body.albumId, body.albumName, body.artistName,
                            body.artistId, body.imageUrl, body.spotifyUrl, body.releaseDate, body.totalTracks, now);
        && rows == old(rows) + [row]
        && nextId == old(nextId) + 1
        && res == Response(201, true, "Favorite added successfully", One(row))
      ensures forall other :: other != userId ==> Select(rows, OwnedBy(other)) == Select(old(rows), OwnedBy(other))
    {
      if body.albumId == "" || body.albumName == "" || body.artistName == "" {
        return MISSING_FIELDS;
      }

      var existing := Select(rows, OwnedAlbum(userId, body.albumId));
      if |existing| > 0 {
        assert existing[0] in rows;
        return ALREADY_FAVORITE;
      }

      var row := Favorite(nextId, userId, body.albumId, body.albumName, body.artistName,
                          body.artistId, body.imageUrl, body.spotifyUrl, body.releaseDate, body.totalTracks, now);
      InsertKeepsWellFormed(rows, nextId, row);
      forall other | other != userId ensures Select(rows + [row], OwnedBy(other)) == Select(rows, OwnedBy(other)) {
        InsertInvisible(rows, [row], OwnedBy(other));
      }
      rows := rows + [row];
      nextId := nextId + 1;
      res := Response(201, true, "Favorite added successfully", One(row));
    }

    /**
     * `DELETE /api/favorites/:albumId`: deletes the caller's row for the
     * album and returns it; 404 when there is none.
     */
    method RemoveFavorite(userId: nat, albumId: string) returns (res: Response)
      requires Valid()
      modifies this
      ensures Valid() && nextId == old(nextId)
      ensures rows == Delete(old(rows), OwnedAlbum(userId, albumId))
      ensures (forall f :: f in old(rows) ==> f.userId != userId || f.albumId != albumId) ==>
        res == FAVORITE_NOT_FOUND && rows == old(rows)
      ensures forall f | f in old(rows) && f.userId == userId && f.albumId == albumId ::
        res == Response(200, true, "Favorite removed successfully", One(f))
      ensures Select(rows, OwnedAlbum(userId, albumId)) == []
      ensures forall other :: other != userId ==> Select(rows, OwnedBy(other)) == Select(old(rows), OwnedBy(other))
    {
      var deleted := Select(rows, OwnedAlbum(userId, albumId));
      DeleteKeepsWellFormed(rows, nextId, OwnedAlbum(userId, albumId));
      forall other | other != userId
        ensures Select(Delete(rows, OwnedAlbum(userId, albumId)), OwnedBy(other)) == Select(rows, OwnedBy(other))
      {
        DeleteKeepsOthers(rows, userId, albumId, other);
      }
      RemoveThenCheck(rows, userId, albumId);
      ghost var before := rows;
      rows := Delete(rows, OwnedAlbum(userId, albumId));

      if |deleted| == 0 {
        forall f | f in before ensures !Satisfies(f, OwnedAlbum(userId, albumId)) {
        }
        DeleteNothing(before, OwnedAlbum(userId, albumId));
        return FAVORITE_NOT_FOUND;
      }
      AtMostOnePerAlbum(before, nextId, userId, albumId);
      assert deleted[0] in before;
      forall f | f in before && f.userId == userId && f.albumId == albumId ensures f == deleted[0] {
        assert f in deleted;
      }
      res := Response(200, true, "Favorite removed successfully", One(deleted[0]));
    }

    /**
     * `GET /api/favorites/check/:albumId`: whether the caller has the album,
     * and the row when they do; absence is an answer, not an error.
     */
    method CheckFavorite(userId: nat, albumId: string) returns (res: Response)
      ensures res.status == 200 && res.success && res.message == "" && res.body.Status?
      ensures res.body.isFavorite <==> exists f :: f in rows && f.userId == userId && f.albumId == albumId
      ensures res.body.found.Some? <==> res.body.isFavorite
      ensures res.body.found.Some? ==>
        res.body.found.value in rows && res.body.found.value.userId == userId && res.body.found.value.albumId == albumId
    {
      var found := Select(rows, OwnedAlbum(userId, albumId));
      if |found| > 0 {
        assert found[0] in found;
      }
      res := Response(200, true, "", Status(|found| > 0, if |found| > 0 then Some(found[0]) else None));
    }
  }

  /** A delete that matches no row leaves the table as it was. */
  lemma {:induction false} DeleteNothing(rows: seq<Favorite>, w: Where)
    requires forall f | f in rows :: !Satisfies(f, w)
    ensures Delete(rows, w) == rows
  {
    if rows != [] {
      assert rows[0] in rows;
      DeleteNothing(rows[1..], w);
    }
  }
}
