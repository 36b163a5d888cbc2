/** The three entities of models.py, the favourite relation between users
    and restaurants, and their `to_dict` snapshots. An `id` is `None` from
    construction until the store assigns one. Floating-point columns
    (price, latitude, longitude) are kept as `real` values that are only
    copied, never computed with. */
module Models {
  import opened Common

  /** models.py `User`: name, email and password are NOT NULL; gender and
      level may be NULL. */
  datatype User = User(
    id: Option<int>,
    name: string,
    gender: Option<string>,
    email: string,
    level: Option<int>,
    password: string)

  /** models.py `Restaurant`: only the image URL may be NULL. */
  datatype Restaurant = Restaurant(
    id: Option<int>,
    name: string,
    address: string,
    district: string,
    imageUrl: Option<string>,
    latitude: real,
    longitude: real)

  /** models.py `Product`: only the image URL may be NULL; `restaurantId`
      is the foreign key to its restaurant. */
  datatype Product = Product(
    id: Option<int>,
    name: string,
    price: real,
    imageUrl: Option<string>,
    restaurantId: int)

  /** One row of the favourite relation: user `userId` has favourited
      restaurant `restaurantId`. */
  datatype Favorite = Favorite(userId: int, restaurantId: int)

  /** `User(name, gender, email, level, password)`. */
  function NewUser(name: string, gender: Option<string>, email: string,
                   level: Option<int>, password: string): (u: User)
    ensures u.id.None?
    ensures u.name == name && u.gender == gender && u.email == email
    ensures u.level == level && u.password == password
  {
    User(None, name, gender, email, level, password)
  }

  /** `Restaurant(name, address, district, image_url, latitude, longitude)`. */
  function NewRestaurant(name: string, address: string, district: string,
                         imageUrl: Option<string>, latitude: real, longitude: real): (r: Restaurant)
    ensures r.id.None?
    ensures r.name == name && r.address == address && r.district == district
    ensures r.imageUrl == imageUrl && r.latitude == latitude && r.longitude == longitude
  {
    Restaurant(None, name, address, district, imageUrl, latitude, longitude)
  }

  /** `Product(name, price, image_url, restaurant_id)`. */
  function NewProduct(name: string, price: real, imageUrl: Option<string>,
                      restaurantId: int): (p: Product)
    ensures p.id.None?
    ensures p.name == name && p.price == price && p.imageUrl == imageUrl
    ensures p.restaurantId == restaurantId
  {
    Product(None, name, price, imageUrl, restaurantId)
  }

  const UserKeys: set<string> := {"id", "name", "gender", "email", "level"}
  const ProductKeys: set<string> := {"productID", "productName", "price", "imageUrl", "restaurantID"}
  const RestaurantKeys: set<string> :=
    {"restaurantID", "restaurantName", "address", "district", "imageUrl", "latitude", "longitude", "products"}

  /** `User.to_dict()`: the public fields, and never the password. */
  function UserToDict(u: User): (d: map<string, Json>)
    ensures d.Keys == UserKeys
    ensures "password" !in d
  {
    map["id" := OptInt(u.id), "name" := JStr(u.name), "gender" := OptStr(u.gender),
        "email" := JStr(u.email), "level" := OptInt(u.level)]
  }

  /** `Product.to_dict()`. */
  function ProductToDict(p: Product): (d: map<string, Json>)
    ensures d.Keys == ProductKeys
  {
    map["productID" := OptInt(p.id), "productName" := JStr(p.name), "price" := JNum(p.price),
        "imageUrl" := OptStr(p.imageUrl), "restaurantID" := JInt(p.restaurantId)]
  }

  /** The `products` back-reference of a restaurant: the products whose
      foreign key names it, in store order. */
  function OwnedProducts(r: Restaurant, products: seq<Product>): (owned: seq<Product>)
    ensures |owned| <= |products|
    ensures forall p :: p in owned <==> p in products && r.id == Some(p.restaurantId)
  {
    if products == [] then []
    else
      (if r.id == Some(products[0].restaurantId) then [products[0]] else []) +
      OwnedProducts(r, products[1..])
  }

  /** The back-reference keeps store order: the products of a concatenation
      are those of each part, one after the other. With the one-product
      case of the definition, this fixes the list completely. */
  lemma {:induction false} OwnedProductsAppend(r: Restaurant, a: seq<Product>, b: seq<Product>)
    ensures OwnedProducts(r, a + b) == OwnedProducts(r, a) + OwnedProducts(r, b)
  {
    if a == [] {
      assert a + b == b;
    } else {
      assert (a + b)[1..] == a[1..] + b;
      OwnedProductsAppend(r, a[1..], b);
    }
  }

  /** Each owned product appears as often as it is stored, and no other
      product appears. */
  lemma {:induction false} OwnedProductsCount(r: Restaurant, products: seq<Product>, p: Product)
    ensures multiset(OwnedProducts(r, products))[p] ==
      if r.id == Some(p.restaurantId) then multiset(products)[p] else 0
  {
    if products != [] {
      OwnedProductsCount(r, products[1..], p);
      assert products == [products[0]] + products[1..];
    }
  }

  /** `[product.to_dict() for product in ps]`. */
  function ProductDicts(ps: seq<Product>): (js: seq<Json>)
    ensures |js| == |ps|
    ensures forall k :: 0 <= k < |ps| ==> js[k] == JObj(ProductToDict(ps[k]))
  {
    if ps == [] then [] else [JObj(ProductToDict(ps[0]))] + ProductDicts(ps[1..])
  }

  /** `Restaurant.to_dict()`, given the store's products for the
      back-reference. */
  function RestaurantToDict(r: Restaurant, products: seq<Product>): (d: map<string, Json>)
    ensures d.Keys == RestaurantKeys
  {
    map["restaurantID" := OptInt(r.id), "restaurantName" := JStr(r.name),
        "address" := JStr(r.address), "district" := JStr(r.district),
        "imageUrl" := OptStr(r.imageUrl), "latitude" := JNum(r.latitude),
        "longitude" := JNum(r.longitude),
        "products" := JArr(ProductDicts(OwnedProducts(r, products)))]
  }

  // Reading snapshots back. These are the inverses of the `to_dict`
  // functions and show what each snapshot preserves.

  function DecodeOptInt(j: Json): Option<Option<int>>
  {
    match j
    case JNull => Some(None)
    case JInt(v) => Some(Some(v))
    case _ => None
  }

  function DecodeOptStr(j: Json): Option<Option<string>>
  {
    match j
    case JNull => Some(None)
    case JStr(v) => Some(Some(v))
    case _ => None
  }

  /** The user a `User.to_dict()` snapshot describes, with the password
      supplied separately because the snapshot does not hold it. */
  function UserFromDict(d: map<string, Json>, password: string): Option<User>
  {
    if d.Keys == UserKeys && d["name"].JStr? && d["email"].JStr? &&
       DecodeOptInt(d["id"]).Some? && DecodeOptStr(d["gender"]).Some? &&
       DecodeOptInt(d["level"]).Some?
    then
      Some(User(DecodeOptInt(d["id"]).value, d["name"].s, DecodeOptStr(d["gender"]).value,
                d["email"].s, DecodeOptInt(d["level"]).value, password))
    else None
  }

  function ProductFromDict(d: map<string, Json>): Option<Product>
  {
    if d.Keys == ProductKeys && d["productName"].JStr? && d["price"].JNum? &&
       d["restaurantID"].JInt? && DecodeOptInt(d["productID"]).Some? &&
       DecodeOptStr(d["imageUrl"]).Some?
    then
      Some(Product(DecodeOptInt(d["productID"]).value, d["productName"].s, d["price"].r,
                   DecodeOptStr(d["imageUrl"]).value, d["restaurantID"].i))
    else None
  }

  function ProductsFromJson(js: seq<Json>): Option<seq<Product>>
  {
    if js == [] then Some([])
    else if !js[0].JObj? then None
    else
      match (ProductFromDict(js[0].fields), ProductsFromJson(js[1..]))
      case (Some(p), Some(ps)) => Some([p] + ps)
      case _ => None
  }

  /** The restaurant a `Restaurant.to_dict()` snapshot describes, with the
      products listed in it. */
  function RestaurantFromDict(d: map<string, Json>): Option<(Restaurant, seq<Product>)>
  {
    if d.Keys == RestaurantKeys && d["restaurantName"].JStr? && d["address"].JStr? &&
       d["district"].JStr? && d["latitude"].JNum? && d["longitude"].JNum? &&
       DecodeOptInt(d["restaurantID"]).Some? && DecodeOptStr(d["imageUrl"]).Some? &&
       d["products"].JArr? && ProductsFromJson(d["products"].items).Some?
    then
      Some((Restaurant(DecodeOptInt(d["restaurantID"]).value, d["restaurantName"].s,
                       d["address"].s, d["district"].s, DecodeOptStr(d["imageUrl"]).value,
                       d["latitude"].r, d["longitude"].r),
            ProductsFromJson(d["products"].items).value))
    else None
  }

  /** A user snapshot keeps every field but the password. */
  lemma UserDictRoundTrip(u: User)
    ensures UserFromDict(UserToDict(u), u.password) == Some(u)
  {
  }

  /** The password has no influence on the snapshot. */
  lemma UserDictIgnoresPassword(u: User, password: string)
    ensures UserToDict(u.(password := password)) == UserToDict(u)
  {
  }

  /** A product snapshot renames the fields and keeps their values. */
  lemma ProductDictRoundTrip(p: Product)
    ensures ProductFromDict(ProductToDict(p)) == Some(p)
  {
  }

  lemma {:induction false} ProductDictsRoundTrip(ps: seq<Product>)
    ensures ProductsFromJson(ProductDicts(ps)) == Some(ps)
  {
    if ps != [] {
      ProductDictsRoundTrip(ps[1..]);
      ProductDictRoundTrip(ps[0]);
      assert ProductDicts(ps)[1..] == ProductDicts(ps[1..]);
      assert [ps[0]] + ps[1..] == ps;
    }
  }

  /** A restaurant snapshot keeps its seven fields and lists exactly the
      products it owns, in store order. */
  lemma RestaurantDictRoundTrip(r: Restaurant, products: seq<Product>)
    ensures RestaurantFromDict(RestaurantToDict(r, products)) == Some((r, OwnedProducts(r, products)))
  {
    ProductDictsRoundTrip(OwnedProducts(r, products));
  }
}
