/** The store the state-changing routes of routes.py act on: the four
    tables as the session holds them, changed in place by `signup`,
    `add_favorite` and `remove_favorite` and committed on success. Each
    method is proved to have the effect and the reply of the matching
    step function of the Registration and Favorites modules. */
module Backend {
  import opened Common
  import opened Models
  import opened Database
  import opened Registration
  import opened Favorites

  class Store {
    var users: seq<User>
    var restaurants: seq<Restaurant>
    var products: seq<Product>
    var favorites: seq<Favorite>
    /** The id the store assigns to the next user row; above every id in
        use. */
    var nextUserId: int

    /** The tables as a value. */
    function State(): Db
      reads this
    {
      Db(users, restaurants, products, favorites)
    }

    ghost predicate Valid()
      reads this
    {
      ValidDb(State()) &&
      forall k :: 0 <= k < |users| ==> users[k].id.Some? && users[k].id.value < nextUserId
    }

    constructor(db: Db, nextUserId: int)
      requires ValidDb(db)
      requires forall k :: 0 <= k < |db.users| ==> db.users[k].id.Some? && db.users[k].id.value < nextUserId
      ensures State() == db && this.nextUserId == nextUserId
      ensures Valid()
    {
      users := db.users;
      restaurants := db.restaurants;
      products := db.products;
      favorites := db.favorites;
      this.nextUserId := nextUserId;
    }

    /** `/signup`: the checks, then the new user row under the next id. */
    method Signup(req: SignupRequest) returns (resp: Response)
      requires Valid()
      modifies this
      ensures Valid()
      ensures Step(State(), resp) == SignupStep(old(State()), req, old(nextUserId))
      ensures nextUserId == if resp.status == 201 then old(nextUserId) + 1 else old(nextUserId)
    {
      var failure := SignupCheck(users, req);
      if failure.Some? {
        resp := Reply(400, ErrorMessage(failure.value));
        return;
      }
      ghost var before := State();
      assert !HasUser(users, nextUserId);
      SignupPreservesValid(before, req, nextUserId);
      users := users + [SignedUpUser(req, nextUserId)];
      nextUserId := nextUserId + 1;
      resp := Reply(201, "User created successfully");
    }

    /** `user.favorite_restaurant(restaurant)`: the pair is appended. */
    method FavoriteRestaurant(userId: int, restaurantId: int)
      requires Valid() && !IsFavorite(favorites, userId, restaurantId)
      requires HasUser(users, userId) && HasRestaurant(restaurants, restaurantId)
      modifies this
      ensures Valid()
      ensures favorites == old(favorites) + [Favorite(userId, restaurantId)]
      ensures users == old(users) && restaurants == old(restaurants) && products == old(products)
      ensures nextUserId == old(nextUserId)
    {
      AddFavoritePreservesValid(State(), userId, Some(restaurantId));
      favorites := favorites + [Favorite(userId, restaurantId)];
    }

    /** `user.unfavorite_restaurant(restaurant)`: one pass over the relation
        keeping every other pair in order. */
    method UnfavoriteRestaurant(userId: int, restaurantId: int)
      requires Valid()
      modifies this
      ensures Valid()
      ensures favorites == RemovePair(old(favorites), Favorite(userId, restaurantId))
      ensures users == old(users) && restaurants == old(restaurants) && products == old(products)
      ensures nextUserId == old(nextUserId)
    {
      var f := Favorite(userId, restaurantId);
      var kept: seq<Favorite> := [];
      var i := 0;
      while i < |favorites|
        invariant 0 <= i <= |favorites|
        invariant kept == RemovePair(favorites[..i], f)
      {
        assert favorites[..i + 1][..i] == favorites[..i];
        if favorites[i] != f {
          kept := kept + [favorites[i]];
        }
        i := i + 1;
      }
      assert favorites[..i] == favorites;
      RemovePairPreservesValid(State(), f);
      favorites := kept;
    }

    /** `POST /users/<user_id>/favorites`. */
    method AddFavorite(userId: int, restaurantId: Option<int>) returns (resp: Response)
      requires Valid()
      modifies this
      ensures Valid()
      ensures Step(State(), resp) == AddFavoriteStep(old(State()), userId, restaurantId)
      ensures nextUserId == old(nextUserId)
    {
      var user := UserById(users, userId);
      var restaurant := if restaurantId.None? then None else RestaurantById(restaurants, restaurantId.value);
      if user.None? || restaurant.None? {
        return Reply(404, "User or restaurant not found");
      }
      if IsFavorite(favorites, userId, restaurantId.value) {
        return Reply(400, "Already favorited");
      }
      FavoriteRestaurant(userId, restaurantId.value);
      resp := Reply(201, "Added to favorites");
    }

    /** `DELETE /users/<user_id>/favorites/<restaurant_id>`. */
    method RemoveFavorite(userId: int, restaurantId: int) returns (resp: Response)
      requires Valid()
      modifies this
      ensures Valid()
      ensures Step(State(), resp) == RemoveFavoriteStep(old(State()), userId, restaurantId)
      ensures nextUserId == old(nextUserId)
    {
      var user := UserById(users, userId);
      var restaurant := RestaurantById(restaurants, restaurantId);
      if user.None? || restaurant.None? {
        return Reply(404, "User or restaurant not found");
      }
      if !IsFavorite(favorites, userId, restaurantId) {
        return Reply(400, "Not in favorites");
      }
      UnfavoriteRestaurant(userId, restaurantId);
      resp := Reply(200, "Removed from favorites");
    }
  }
}
