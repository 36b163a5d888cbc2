/** The lookup routes of routes.py: `/restaurants/<id>` and
    `/products/<id>/restaurants`. */
module Catalog {
  import opened Common
  import opened Models
  import opened Database

  /** The snapshot of one restaurant, its products drawn from the store. */
  function Snapshot(db: Db, r: Restaurant): Json
  {
    JObj(RestaurantToDict(r, db.products))
  }

  /** `[restaurant.to_dict() for restaurant in rs]`. */
  function Snapshots(db: Db, rs: seq<Restaurant>): (js: seq<Json>)
    ensures |js| == |rs|
    ensures forall k :: 0 <= k < |rs| ==> js[k] == Snapshot(db, rs[k])
  {
    if rs == [] then [] else [Snapshot(db, rs[0])] + Snapshots(db, rs[1..])
  }

  /** `/restaurants`: every restaurant's snapshot, in store order. */
  function GetRestaurants(db: Db): (r: Response)
    ensures r.status == 200 && r.body.Some? && r.body.value.JArr?
    ensures |r.body.value.items| == |db.restaurants|
    ensures forall k :: 0 <= k < |db.restaurants| ==> r.body.value.items[k] == Snapshot(db, db.restaurants[k])
  {
    Response(200, Some(JArr(Snapshots(db, db.restaurants))))
  }

  /** `/products`: every product's snapshot, in store order. */
  function GetProducts(db: Db): (r: Response)
    ensures r.status == 200 && r.body.Some? && r.body.value.JArr?
    ensures |r.body.value.items| == |db.products|
    ensures forall k :: 0 <= k < |db.products| ==> r.body.value.items[k] == JObj(ProductToDict(db.products[k]))
  {
    Response(200, Some(JArr(ProductDicts(db.products))))
  }

  /** `/restaurants/<id>`: 404 when no restaurant has that id, otherwise
      that restaurant's snapshot with the default status 200. */
  function GetRestaurant(db: Db, id: int): (r: Response)
    ensures r.status == 404 <==> !HasRestaurant(db.restaurants, id)
    ensures r.status == 404 ==> r == Reply(404, "Restaurant not found")
    ensures r.status != 404 ==>
      r.status == 200 &&
      exists k :: 0 <= k < |db.restaurants| && db.restaurants[k].id == Some(id) &&
        r.body == Some(Snapshot(db, db.restaurants[k]))
  {
    match RestaurantById(db.restaurants, id)
    case None => Reply(404, "Restaurant not found")
    case Some(x) => Response(200, Some(Snapshot(db, x)))
  }

  /** The restaurants the join of restaurant and product yields for
      product `p`: those whose id is the product's foreign key, in store
      order. */
  function RestaurantsOf(db: Db, restaurants: seq<Restaurant>, p: Product): (js: seq<Json>)
    ensures |js| <= |restaurants|
    ensures forall j :: j in js ==>
      exists r :: r in restaurants && r.id == Some(p.restaurantId) && j == Snapshot(db, r)
    ensures forall r :: r in restaurants && r.id == Some(p.restaurantId) ==> Snapshot(db, r) in js
  {
    if restaurants == [] then []
    else
      (if restaurants[0].id == Some(p.restaurantId) then [Snapshot(db, restaurants[0])] else []) +
      RestaurantsOf(db, restaurants[1..], p)
  }

  /** `/products/<id>/restaurants`: 404 when no product has that id,
      otherwise the restaurants offering it. */
  function GetRestaurantsByProduct(db: Db, id: int): (r: Response)
    ensures r.status == 404 <==> forall k :: 0 <= k < |db.products| ==> db.products[k].id != Some(id)
    ensures r.status == 404 ==> r == Reply(404, "Product not found")
    ensures r.status != 404 ==> r.status == 200 && r.body.Some? && r.body.value.JArr?
  {
    match ProductById(db.products, id)
    case None => Reply(404, "Product not found")
    case Some(p) => Response(200, Some(JArr(RestaurantsOf(db, db.restaurants, p))))
  }

  lemma {:induction false} RestaurantsOfSingle(db: Db, restaurants: seq<Restaurant>, p: Product, k: nat)
    requires RestaurantsValid(restaurants)
    requires k < |restaurants| && restaurants[k].id == Some(p.restaurantId)
    ensures RestaurantsOf(db, restaurants, p) == [Snapshot(db, restaurants[k])]
  {
    if k == 0 {
      RestaurantsOfNone(db, restaurants[1..], p);
    } else {
      assert restaurants[0].id != restaurants[k].id;
      RestaurantsOfSingle(db, restaurants[1..], p, k - 1);
    }
  }

  lemma {:induction false} RestaurantsOfNone(db: Db, restaurants: seq<Restaurant>, p: Product)
    requires forall k :: 0 <= k < |restaurants| ==> restaurants[k].id != Some(p.restaurantId)
    ensures RestaurantsOf(db, restaurants, p) == []
  {
    if restaurants != [] {
      RestaurantsOfNone(db, restaurants[1..], p);
    }
  }

  /** In a valid store a known product yields exactly one restaurant: the
      one its foreign key names. */
  lemma RestaurantsByProductInValidStore(db: Db, id: int)
    requires ValidDb(db)
    requires exists k :: 0 <= k < |db.products| && db.products[k].id == Some(id)
    ensures var p := ProductById(db.products, id).value;
      RestaurantById(db.restaurants, p.restaurantId).Some? &&
      GetRestaurantsByProduct(db, id) ==
        Response(200, Some(JArr([Snapshot(db, RestaurantById(db.restaurants, p.restaurantId).value)])))
  {
    var p := ProductById(db.products, id).value;
    var i :| 0 <= i < |db.products| && db.products[i] == p;
    assert HasRestaurant(db.restaurants, p.restaurantId);
    var k :| 0 <= k < |db.restaurants| && db.restaurants[k].id == Some(p.restaurantId);
    RestaurantByIdUnique(db.restaurants, p.restaurantId, k);
    RestaurantsOfSingle(db, db.restaurants, p, k);
  }

  /** The snapshots of the restaurants with the given ids, in that order. */
  function SnapshotsOf(db: Db, ids: seq<int>): seq<Json>
  {
    if ids == [] then []
    else
      SnapshotsOf(db, ids[..|ids| - 1]) +
      match RestaurantById(db.restaurants, ids[|ids| - 1])
      case None => []
      case Some(r) => [Snapshot(db, r)]
  }

  lemma SnapshotsOfSnoc(db: Db, ids: seq<int>, id: int)
    requires HasRestaurant(db.restaurants, id)
    ensures SnapshotsOf(db, ids + [id]) == SnapshotsOf(db, ids) + [Snapshot(db, RestaurantById(db.restaurants, id).value)]
  {
    assert (ids + [id])[..|ids|] == ids;
  }

  /** When every id names a restaurant, there is one snapshot per id. */
  lemma {:induction false} SnapshotsOfPresent(db: Db, ids: seq<int>)
    requires forall k :: 0 <= k < |ids| ==> HasRestaurant(db.restaurants, ids[k])
    ensures |SnapshotsOf(db, ids)| == |ids|
    ensures forall k :: 0 <= k < |ids| ==>
      SnapshotsOf(db, ids)[k] == Snapshot(db, RestaurantById(db.restaurants, ids[k]).value)
  {
    if ids != [] {
      var init := ids[..|ids| - 1];
      SnapshotsOfPresent(db, init);
      SnapshotsOfSnoc(db, init, ids[|ids| - 1]);
      assert init + [ids[|ids| - 1]] == ids;
    }
  }
}
