/** The favourite routes of routes.py: listing, adding and removing a
    user's favourite restaurants. The favourites relation is a sequence of
    (user, restaurant) pairs in insertion order; `user.favorites` is the
    user's part of it in that order. */
module Favorites {
  import opened Common
  import opened Models
  import opened Database
  import opened Catalog

  /** `user.is_favorite(restaurant)`. */
  predicate IsFavorite(favorites: seq<Favorite>, userId: int, restaurantId: int)
  {
    Favorite(userId, restaurantId) in favorites
  }

  /** `user.unfavorite_restaurant(restaurant)`: the relation without the
      pair, the other pairs in their order. */
  function RemovePair(fs: seq<Favorite>, f: Favorite): (r: seq<Favorite>)
    ensures forall g :: g in r <==> g in fs && g != f
    ensures |r| <= |fs|
  {
    if fs == [] then []
    else
      var init := RemovePair(fs[..|fs| - 1], f);
      if fs[|fs| - 1] == f then init else init + [fs[|fs| - 1]]
  }

  /** Removing an absent pair changes nothing. */
  lemma {:induction false} RemoveAbsentPair(fs: seq<Favorite>, f: Favorite)
    requires f !in fs
    ensures RemovePair(fs, f) == fs
  {
    if fs != [] {
      var init := fs[..|fs| - 1];
      RemoveAbsentPair(init, f);
      assert init + [fs[|fs| - 1]] == fs;
    }
  }

  /** Removing keeps a relation free of duplicates, and then drops exactly
      one pair when the pair is present and none otherwise. */
  lemma {:induction false} RemovePairNoDup(fs: seq<Favorite>, f: Favorite)
    requires NoDup(fs)
    ensures NoDup(RemovePair(fs, f))
    ensures |RemovePair(fs, f)| == |fs| - (if f in fs then 1 else 0)
  {
    if fs != [] {
      var init := fs[..|fs| - 1];
      var last := fs[|fs| - 1];
      assert fs == init + [last];
      NoDupSnoc(init, last);
      RemovePairNoDup(init, f);
      if last != f {
        NoDupSnoc(RemovePair(init, f), last);
      }
    }
  }

  /** Removal keeps relation order: removing from a concatenation removes
      from each part, and the parts stay in order. */
  lemma {:induction false} RemovePairAppend(a: seq<Favorite>, b: seq<Favorite>, f: Favorite)
    ensures RemovePair(a + b, f) == RemovePair(a, f) + RemovePair(b, f)
  {
    if b == [] {
      assert a + b == a;
    } else {
      var init := b[..|b| - 1];
      assert (a + b)[..|a + b| - 1] == a + init;
      assert (a + b)[|a + b| - 1] == b[|b| - 1];
      RemovePairAppend(a, init, f);
    }
  }

  /** The restaurant ids of `user.favorites`, in relation order. */
  function FavoritesOf(fs: seq<Favorite>, userId: int): (rids: seq<int>)
    ensures forall rid :: rid in rids <==> Favorite(userId, rid) in fs
  {
    if fs == [] then []
    else
      var f := fs[|fs| - 1];
      FavoritesOf(fs[..|fs| - 1], userId) + (if f.userId == userId then [f.restaurantId] else [])
  }

  /** `POST /users/<user_id>/favorites` with body field `restaurant_id`
      (`None` when the field is absent): 404 unless both the user and the
      restaurant exist, then 400 for a pair already present, otherwise the
      pair is appended and 201 returned. */
  function AddFavoriteStep(db: Db, userId: int, restaurantId: Option<int>): (s: Step)
    ensures s.resp.status == 404 <==>
      !HasUser(db.users, userId) || restaurantId.None? || !HasRestaurant(db.restaurants, restaurantId.value)
    ensures s.resp.status == 404 ==> s.resp == Reply(404, "User or restaurant not found")
    ensures s.resp.status == 400 <==> s.resp.status != 404 && IsFavorite(db.favorites, userId, restaurantId.value)
    ensures s.resp.status == 400 ==> s.resp == Reply(400, "Already favorited")
    ensures s.resp.status != 201 ==> s.db == db
    ensures s.resp.status == 201 ==>
      s.resp == Reply(201, "Added to favorites") &&
      s.db == db.(favorites := db.favorites + [Favorite(userId, restaurantId.value)])
    ensures s.resp.status in {201, 400, 404}
  {
    if !HasUser(db.users, userId) || restaurantId.None? || !HasRestaurant(db.restaurants, restaurantId.value) then
      Step(db, Reply(404, "User or restaurant not found"))
    else if IsFavorite(db.favorites, userId, restaurantId.value) then
      Step(db, Reply(400, "Already favorited"))
    else
      Step(db.(favorites := db.favorites + [Favorite(userId, restaurantId.value)]),
           Reply(201, "Added to favorites"))
  }

  /** `DELETE /users/<user_id>/favorites/<restaurant_id>`: 404 unless both
      exist, then 400 for an absent pair, otherwise the pair is removed and
      200 returned. */
  function RemoveFavoriteStep(db: Db, userId: int, restaurantId: int): (s: Step)
    ensures s.resp.status == 404 <==>
      !HasUser(db.users, userId) || !HasRestaurant(db.restaurants, restaurantId)
    ensures s.resp.status == 404 ==> s.resp == Reply(404, "User or restaurant not found")
    ensures s.resp.status == 400 <==> s.resp.status != 404 && !IsFavorite(db.favorites, userId, restaurantId)
    ensures s.resp.status == 400 ==> s.resp == Reply(400, "Not in favorites")
    ensures s.resp.status != 200 ==> s.db == db
    ensures s.resp.status == 200 ==>
      s.resp == Reply(200, "Removed from favorites") &&
      s.db == db.(favorites := RemovePair(db.favorites, Favorite(userId, restaurantId)))
    ensures s.resp.status in {200, 400, 404}
  {
    if !HasUser(db.users, userId) || !HasRestaurant(db.restaurants, restaurantId) then
      Step(db, Reply(404, "User or restaurant not found"))
    else if !IsFavorite(db.favorites, userId, restaurantId) then
      Step(db, Reply(400, "Not in favorites"))
    else
      Step(db.(favorites := RemovePair(db.favorites, Favorite(userId, restaurantId))),
           Reply(200, "Removed from favorites"))
  }

  /** Every id names a restaurant of the store. */
  predicate AllPresent(db: Db, rids: seq<int>)
  {
    forall k :: 0 <= k < |rids| ==> HasRestaurant(db.restaurants, rids[k])
  }

  /** `GET /users/<user_id>/favorites`: 404 for an unknown user; a
      favourite whose restaurant row is gone makes `fav.restaurant` None
      and the handler fail (500 with no JSON body); otherwise one
      restaurant snapshot per favourite, in relation order. */
  function UserFavorites(db: Db, userId: int): (r: Response)
    ensures r.status == 404 <==> !HasUser(db.users, userId)
    ensures r.status == 404 ==> r == Reply(404, "User not found")
    ensures r.status != 404 ==> r.status in {200, 500}
    ensures r.status == 500 <==>
      HasUser(db.users, userId) &&
      exists rid :: Favorite(userId, rid) in db.favorites && !HasRestaurant(db.restaurants, rid)
    ensures r.status == 500 ==> r == Response(500, None)
    ensures r.status == 200 ==> r.body == Some(JArr(SnapshotsOf(db, FavoritesOf(db.favorites, userId))))
  {
    var rids := FavoritesOf(db.favorites, userId);
    if !HasUser(db.users, userId) then Reply(404, "User not found")
    else if !AllPresent(db, rids) then Response(500, None)
    else Response(200, Some(JArr(SnapshotsOf(db, rids))))
  }

  /** In a valid store the listing of a known user holds exactly the
      snapshot of each favourite restaurant, in relation order. */
  lemma UserFavoritesInValidStore(db: Db, userId: int)
    requires ValidDb(db) && HasUser(db.users, userId)
    ensures var rids := FavoritesOf(db.favorites, userId);
      var r := UserFavorites(db, userId);
      r.status == 200 && r.body.Some? && r.body.value.JArr? &&
      |r.body.value.items| == |rids| &&
      forall k :: 0 <= k < |rids| ==>
        r.body.value.items[k] == Snapshot(db, RestaurantById(db.restaurants, rids[k]).value)
  {
    var rids := FavoritesOf(db.favorites, userId);
    forall k | 0 <= k < |rids| ensures HasRestaurant(db.restaurants, rids[k]) {
      assert rids[k] in rids;
      var j :| 0 <= j < |db.favorites| && db.favorites[j] == Favorite(userId, rids[k]);
    }
    SnapshotsOfPresent(db, rids);
  }

  lemma AddFavoritePreservesValid(db: Db, userId: int, restaurantId: Option<int>)
    requires ValidDb(db)
    ensures ValidDb(AddFavoriteStep(db, userId, restaurantId).db)
  {
    var s := AddFavoriteStep(db, userId, restaurantId);
    if s.resp.status == 201 {
      NoDupSnoc(db.favorites, Favorite(userId, restaurantId.value));
    }
  }

  lemma RemoveFavoritePreservesValid(db: Db, userId: int, restaurantId: int)
    requires ValidDb(db)
    ensures ValidDb(RemoveFavoriteStep(db, userId, restaurantId).db)
  {
    var s := RemoveFavoriteStep(db, userId, restaurantId);
    if s.resp.status == 200 {
      RemovePairPreservesValid(db, Favorite(userId, restaurantId));
    }
  }

  /** Removing any pair, present or not, keeps the store valid. */
  lemma RemovePairPreservesValid(db: Db, f: Favorite)
    requires ValidDb(db)
    ensures ValidDb(db.(favorites := RemovePair(db.favorites, f)))
  {
    RemovePairNoDup(db.favorites, f);
    var fs := RemovePair(db.favorites, f);
    forall k | 0 <= k < |fs|
      ensures HasUser(db.users, fs[k].userId) && HasRestaurant(db.restaurants, fs[k].restaurantId)
    {
      assert fs[k] in db.favorites;
      var j :| 0 <= j < |db.favorites| && db.favorites[j] == fs[k];
    }
  }

  /** Adding the same favourite twice: the second request is refused and
      changes nothing. */
  lemma SecondAddConflicts(db: Db, userId: int, restaurantId: int)
    requires AddFavoriteStep(db, userId, Some(restaurantId)).resp.status == 201
    ensures var db' := AddFavoriteStep(db, userId, Some(restaurantId)).db;
      AddFavoriteStep(db', userId, Some(restaurantId)) == Step(db', Reply(400, "Already favorited"))
  {
  }

  /** Removing a favourite just added restores the store. */
  lemma AddThenRemove(db: Db, userId: int, restaurantId: int)
    requires AddFavoriteStep(db, userId, Some(restaurantId)).resp.status == 201
    ensures var db' := AddFavoriteStep(db, userId, Some(restaurantId)).db;
      RemoveFavoriteStep(db', userId, restaurantId) == Step(db, Reply(200, "Removed from favorites"))
  {
    var f := Favorite(userId, restaurantId);
    var fs := db.favorites + [f];
    RemoveAbsentPair(db.favorites, f);
    assert fs[..|fs| - 1] == db.favorites;
  }

  /** After a successful removal the pair is gone, so a second removal is
      refused, and adding it back succeeds with the same set of pairs. */
  lemma RemoveThenAdd(db: Db, userId: int, restaurantId: int)
    requires RemoveFavoriteStep(db, userId, restaurantId).resp.status == 200
    ensures var db' := RemoveFavoriteStep(db, userId, restaurantId).db;
      RemoveFavoriteStep(db', userId, restaurantId) == Step(db', Reply(400, "Not in favorites")) &&
      AddFavoriteStep(db', userId, Some(restaurantId)).resp.status == 201 &&
      forall g :: g in AddFavoriteStep(db', userId, Some(restaurantId)).db.favorites <==> g in db.favorites
  {
  }

  /** An add or a remove for one pair leaves every other pair as it was. */
  lemma OtherPairsUnchanged(db: Db, userId: int, restaurantId: int, g: Favorite)
    requires g != Favorite(userId, restaurantId)
    ensures g in AddFavoriteStep(db, userId, Some(restaurantId)).db.favorites <==> g in db.favorites
    ensures g in RemoveFavoriteStep(db, userId, restaurantId).db.favorites <==> g in db.favorites
  {
  }

  lemma {:induction false} FavoritesOfSnoc(fs: seq<Favorite>, f: Favorite, userId: int)
    ensures FavoritesOf(fs + [f], userId) ==
      FavoritesOf(fs, userId) + (if f.userId == userId then [f.restaurantId] else [])
  {
    assert (fs + [f])[..|fs|] == fs;
  }

  /** A user's listing keeps relation order: the listing of a
      concatenation is the listing of each part, one after the other. */
  lemma {:induction false} FavoritesOfAppend(fs: seq<Favorite>, gs: seq<Favorite>, userId: int)
    ensures FavoritesOf(fs + gs, userId) == FavoritesOf(fs, userId) + FavoritesOf(gs, userId)
  {
    if gs != [] {
      var init := gs[..|gs| - 1];
      var last := gs[|gs| - 1];
      assert fs + gs == (fs + init) + [last];
      assert gs == init + [last];
      FavoritesOfAppend(fs, init, userId);
      FavoritesOfSnoc(fs + init, last, userId);
      FavoritesOfSnoc(init, last, userId);
    } else {
      assert fs + gs == fs;
    }
  }

  /** Adding a favourite appends its restaurant's snapshot to that user's
      listing. */
  lemma ListingAfterAdd(db: Db, userId: int, restaurantId: int)
    requires AddFavoriteStep(db, userId, Some(restaurantId)).resp.status == 201
    requires UserFavorites(db, userId).status == 200
    ensures UserFavorites(AddFavoriteStep(db, userId, Some(restaurantId)).db, userId) ==
      Response(200, Some(JArr(SnapshotsOf(db, FavoritesOf(db.favorites, userId)) +
        [Snapshot(db, RestaurantById(db.restaurants, restaurantId).value)])))
  {
    var f := Favorite(userId, restaurantId);
    var db' := AddFavoriteStep(db, userId, Some(restaurantId)).db;
    FavoritesOfSnoc(db.favorites, f, userId);
    var rids := FavoritesOf(db.favorites, userId);
    var rids' := rids + [restaurantId];
    assert FavoritesOf(db'.favorites, userId) == rids';
    assert AllPresent(db, rids);
    assert AllPresent(db', rids') by {
      forall k | 0 <= k < |rids'| ensures HasRestaurant(db'.restaurants, rids'[k]) {
        if k < |rids| {
          assert rids'[k] == rids[k];
        }
      }
    }
    SnapshotsOfSnoc(db, rids, restaurantId);
    SnapshotsOfSameCatalog(db, db', rids');
  }

  /** Adding a favourite leaves every other user's listing as it was. */
  lemma OtherListingsAfterAdd(db: Db, userId: int, restaurantId: int, other: int)
    requires other != userId
    ensures UserFavorites(AddFavoriteStep(db, userId, Some(restaurantId)).db, other) == UserFavorites(db, other)
  {
    var s := AddFavoriteStep(db, userId, Some(restaurantId));
    if s.resp.status == 201 {
      var db' := s.db;
      FavoritesOfSnoc(db.favorites, Favorite(userId, restaurantId), other);
      var rids := FavoritesOf(db.favorites, other);
      assert FavoritesOf(db'.favorites, other) == rids;
      assert db'.users == db.users && db'.restaurants == db.restaurants;
      assert AllPresent(db', rids) == AllPresent(db, rids);
      SnapshotsOfSameCatalog(db, db', rids);
    }
  }

  /** Snapshots depend only on the restaurants and products. */
  lemma {:induction false} SnapshotsOfSameCatalog(db: Db, db': Db, ids: seq<int>)
    requires db.restaurants == db'.restaurants && db.products == db'.products
    ensures SnapshotsOf(db, ids) == SnapshotsOf(db', ids)
  {
    if ids != [] {
      SnapshotsOfSameCatalog(db, db', ids[..|ids| - 1]);
    }
  }

  /** Adding restaurant 2 to user 1's empty favourites lists exactly that
      restaurant. */
  lemma AddThenListExample(db: Db)
    requires ValidDb(db) && HasUser(db.users, 1) && HasRestaurant(db.restaurants, 2)
    requires FavoritesOf(db.favorites, 1) == []
    ensures var s := AddFavoriteStep(db, 1, Some(2));
      s.resp == Reply(201, "Added to favorites") &&
      UserFavorites(s.db, 1) == Response(200, Some(JArr([Snapshot(db, RestaurantById(db.restaurants, 2).value)]))) &&
      RestaurantById(db.restaurants, 2).value.id == Some(2)
  {
    assert !IsFavorite(db.favorites, 1, 2);
    assert UserFavorites(db, 1).status == 200;
    ListingAfterAdd(db, 1, 2);
    assert SnapshotsOf(db, []) == [];
    assert SnapshotsOf(db, FavoritesOf(db.favorites, 1)) == [];
    var snap := Snapshot(db, RestaurantById(db.restaurants, 2).value);
    assert [] + [snap] == [snap];
    assert AddFavoriteStep(db, 1, Some(2)).resp == Reply(201, "Added to favorites");
    assert UserFavorites(AddFavoriteStep(db, 1, Some(2)).db, 1) == Response(200, Some(JArr([snap])));
  }
}
