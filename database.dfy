/** The store behind the routes: the rows of the four tables, in store
    order, with the integrity constraints models.py declares (unique
    primary keys, unique user email, the product and favourite foreign
    keys) and one favourite per user and restaurant. */
module Database {
  import opened Common
  import opened Models

  datatype Db = Db(
    users: seq<User>,
    restaurants: seq<Restaurant>,
    products: seq<Product>,
    favorites: seq<Favorite>)

  predicate HasUser(users: seq<User>, id: int)
  {
    exists k :: 0 <= k < |users| && users[k].id == Some(id)
  }

  predicate HasRestaurant(restaurants: seq<Restaurant>, id: int)
  {
    exists k :: 0 <= k < |restaurants| && restaurants[k].id == Some(id)
  }

  ghost predicate UsersValid(users: seq<User>)
  {
    (forall k :: 0 <= k < |users| ==> users[k].id.Some?) &&
    (forall i, j :: 0 <= i < j < |users| ==> users[i].id != users[j].id) &&
    (forall i, j :: 0 <= i < j < |users| ==> users[i].email != users[j].email)
  }

  ghost predicate RestaurantsValid(restaurants: seq<Restaurant>)
  {
    (forall k :: 0 <= k < |restaurants| ==> restaurants[k].id.Some?) &&
    (forall i, j :: 0 <= i < j < |restaurants| ==> restaurants[i].id != restaurants[j].id)
  }

  ghost predicate ProductsValid(products: seq<Product>, restaurants: seq<Restaurant>)
  {
    (forall k :: 0 <= k < |products| ==> products[k].id.Some?) &&
    (forall i, j :: 0 <= i < j < |products| ==> products[i].id != products[j].id) &&
    (forall k :: 0 <= k < |products| ==> HasRestaurant(restaurants, products[k].restaurantId))
  }

  ghost predicate FavoritesValid(db: Db)
  {
    NoDup(db.favorites) &&
    forall k :: 0 <= k < |db.favorites| ==>
      HasUser(db.users, db.favorites[k].userId) &&
      HasRestaurant(db.restaurants, db.favorites[k].restaurantId)
  }

  /** A handler's outcome: the store after the request and the reply. */
  datatype Step = Step(db: Db, resp: Response)

  /** The integrity constraints of the store. */
  ghost predicate ValidDb(db: Db)
  {
    UsersValid(db.users) && RestaurantsValid(db.restaurants) &&
    ProductsValid(db.products, db.restaurants) && FavoritesValid(db)
  }

  /** `User.query.get(id)`. */
  function UserById(users: seq<User>, id: int): (r: Option<User>)
    ensures r.Some? <==> HasUser(users, id)
    ensures r.Some? ==> r.value in users && r.value.id == Some(id)
  {
    match FirstIndex(users, (u: User) => u.id == Some(id))
    case None => None
    case Some(k) => Some(users[k])
  }

  /** `Restaurant.query.get(id)`. */
  function RestaurantById(restaurants: seq<Restaurant>, id: int): (r: Option<Restaurant>)
    ensures r.Some? <==> HasRestaurant(restaurants, id)
    ensures r.Some? ==> r.value in restaurants && r.value.id == Some(id)
  {
    match FirstIndex(restaurants, (x: Restaurant) => x.id == Some(id))
    case None => None
    case Some(k) => Some(restaurants[k])
  }

  /** `Product.query.get(id)`. */
  function ProductById(products: seq<Product>, id: int): (r: Option<Product>)
    ensures r.Some? <==> exists k :: 0 <= k < |products| && products[k].id == Some(id)
    ensures r.Some? ==> r.value in products && r.value.id == Some(id)
  {
    match FirstIndex(products, (p: Product) => p.id == Some(id))
    case None => None
    case Some(k) => Some(products[k])
  }

  /** `User.query.filter_by(email=email).first()`: the first user, in store
      order, with exactly that email. */
  function UserByEmail(users: seq<User>, email: string): (r: Option<nat>)
    ensures r.Some? ==> r.value < |users| && users[r.value].email == email
    ensures r.Some? ==> forall j :: 0 <= j < r.value ==> users[j].email != email
    ensures r.None? ==> forall j :: 0 <= j < |users| ==> users[j].email != email
  {
    FirstIndex(users, (u: User) => u.email == email)
  }

  /** In a valid store a restaurant id names exactly one row. */
  lemma RestaurantByIdUnique(restaurants: seq<Restaurant>, id: int, k: nat)
    requires RestaurantsValid(restaurants)
    requires k < |restaurants| && restaurants[k].id == Some(id)
    ensures RestaurantById(restaurants, id) == Some(restaurants[k])
  {
    var r := RestaurantById(restaurants, id).value;
    var j :| 0 <= j < |restaurants| && restaurants[j] == r;
    assert j == k;
  }

  /** A row appended under a fresh email is the one found for it. */
  lemma UserByEmailSnoc(users: seq<User>, u: User)
    requires forall j :: 0 <= j < |users| ==> users[j].email != u.email
    ensures UserByEmail(users + [u], u.email) == Some(|users|)
  {
    var all := users + [u];
    assert all[|users|] == u;
    forall j | 0 <= j < |users| ensures all[j].email != u.email {
      assert all[j] == users[j];
    }
  }
}
