# DineMap-Pro backend, modelled in Dafny

DineMap-Pro is a Flask and SQLAlchemy backend for a restaurant-finder app. This project models its request handlers as functions over the database tables, and proves the promises those handlers make. The handlers covered are:

- sign-up and login, including the e-mail regular expression and the ordered validation chain;
- the catalogue lookups;
- the two fuzzy searches;
- the favourites routes.

It also models the three entities and their `to_dict` serialisations, and the choice of database URL at start-up.

The modules follow the backend's files:

| module | models |
|---|---|
| `Common` | `Option`, the JSON values a handler returns (`Json`), and a reply as status plus optional JSON body (`Response`) |
| `Text` | the Python string operations the handlers use: `strip`, `lower`, `startswith`, `in`, `replace(…, 1)` |
| `Config` | the `DATABASE_URL` chain of config.py |
| `Models` | `User`, `Restaurant`, `Product`, the favourite pair, and each `to_dict`, with decoders that prove the dictionaries lose nothing but the password |
| `Database` | the four tables as one value (`Db`), the store invariant (`ValidDb`: every row has an id, ids and emails are unique, foreign keys name stored rows, no favourite pair twice), and the lookups `query.get` and `filter_by(email=…).first()` |
| `Registration` | `/signup`, `/login`, `/users` |
| `Catalog` | `/restaurants`, `/restaurants/<id>`, `/products`, `/products/<id>/restaurants` |
| `Search` | `/search/products` and `/search/restaurants_by_product_name` |
| `Favorites` | the three favourites routes, as step functions from a store to a new store and a reply |
| `Backend` | class `Store`: the tables as fields that `signup`, `add_favorite` and `remove_favorite` update in place, each method proved equal to its step function |

The two searches are methods with the handlers' loops. `/search/products` sorts its hits by descending rounded score using Python's stable `list.sort`. The model does this with an insertion sort (`SortHits`). `StableSortUnique` proves that every stable descending sort of the same hits gives the same sequence, so the model's result is Python's result.

The following are parameters of the model:

- `difflib.SequenceMatcher(...).ratio()` is a `Scorer`;
- `round(x, 2)` is a `Rounding`, with `Round2` as its exact model on reals;
- the environment variable, and the directory of config.py, are parameters of `Config.DatabaseUrl`;
- user ids come from the `Store.nextUserId` counter, standing for the table's autoincrement.

## Model

| member | source | states |
|---|---|---|
| Config.DatabaseUrl | DineMap-Pro/backend/config.py:17-37 | the URL chain itself, given the environment value and the module directory; its behaviour is stated by `PostgresRewritten`, `PostgresqlRewritten`, `OtherUrlsKept`, `SqliteFallback`, `RewrittenHasDriverScheme` and `DatabaseUrlIdempotent` |
| Config.DatabaseUrlIdempotent | DineMap-Pro/backend/config.py:17-37 | choosing the URL again from an already chosen URL gives the same URL |
| Config.PostgresRewritten | DineMap-Pro/backend/config.py:22-23 | a `postgres://` URL has that prefix replaced by `postgresql+psycopg2://` and keeps the rest |
| Config.PostgresqlRewritten | DineMap-Pro/backend/config.py:25-27 | a `postgresql://` URL gets the driver scheme when `+psycopg2` occurs nowhere in it, and is kept as it is otherwise |
| Config.OtherUrlsKept | DineMap-Pro/backend/config.py:29-31 | any other non-empty URL, including one that already has the driver scheme, is used unchanged |
| Config.SqliteFallback | DineMap-Pro/backend/config.py:32-37 | an unset or empty variable selects `sqlite:///<basedir>/food_delivery.db` |
| Config.RewrittenHasDriverScheme | DineMap-Pro/backend/config.py:20-27 | every rewritten URL starts with `postgresql+psycopg2://` |
| Config.DriverSchemeIsFixed | DineMap-Pro/backend/config.py:22-29 | a URL with the driver scheme matches neither of the two rewritten schemes |
| Config.PathJoin | DineMap-Pro/backend/config.py:36-37 | `os.path.join`: an absolute second part wins; otherwise the result starts with the directory and ends with the file name |
| Models.NewUser | DineMap-Pro/backend/models.py:10-15 | the constructor stores each argument in its field and leaves the id unassigned |
| Models.NewRestaurant | DineMap-Pro/backend/models.py:35-41 | the constructor stores each argument in its field and leaves the id unassigned |
| Models.NewProduct | DineMap-Pro/backend/models.py:64-68 | the constructor stores each argument, the foreign key included, and leaves the id unassigned |
| Models.UserToDict | DineMap-Pro/backend/models.py:16-23 | the dictionary has exactly the keys id, name, gender, email and level, and never the password |
| Models.ProductToDict | DineMap-Pro/backend/models.py:70-77 | the dictionary has exactly the keys productID, productName, price, imageUrl and restaurantID |
| Models.RestaurantToDict | DineMap-Pro/backend/models.py:43-53 | the dictionary has exactly the eight keys, `products` among them |
| Models.OwnedProducts | DineMap-Pro/backend/models.py:52-62 | the `products` backref holds exactly the products whose foreign key is the restaurant's id; `OwnedProductsCount` and `OwnedProductsAppend` give the multiplicity and the store order |
| Models.OwnedProductsCount | DineMap-Pro/backend/models.py:52-62 | each owned product occurs in the backref as often as it is stored, and no other product occurs |
| Models.OwnedProductsAppend | DineMap-Pro/backend/models.py:52-62 | the backref of a concatenation is the backref of each part, one after the other, so store order is kept |
| Models.ProductDicts | DineMap-Pro/backend/models.py:52 | one product dictionary per product, in order |
| Models.UserDictRoundTrip | DineMap-Pro/backend/models.py:16-23 | decoding a user's dictionary, given the password, gives back the user |
| Models.UserDictIgnoresPassword | DineMap-Pro/backend/models.py:16-23 | changing the password does not change the dictionary |
| Models.ProductDictRoundTrip | DineMap-Pro/backend/models.py:70-77 | decoding a product's dictionary gives back the product |
| Models.ProductDictsRoundTrip | DineMap-Pro/backend/models.py:52 | decoding the list of product dictionaries gives back the products |
| Models.RestaurantDictRoundTrip | DineMap-Pro/backend/models.py:43-53 | decoding a restaurant's dictionary gives back the restaurant and exactly its own products |
| Database.ValidDb | DineMap-Pro/backend/models.py:4-61 | the integrity constraints the tables declare: every row has its primary key, primary keys are unique (models.py:4, 27, 57), emails are unique (models.py:7), every product's `restaurant_id` names a stored restaurant (models.py:61), and every favourite names a stored user and restaurant with no pair stored twice |
| Database.UserById | DineMap-Pro/backend/routes.py:162 | `User.query.get` finds a user exactly when one with that id is stored, and returns that user |
| Database.RestaurantById | DineMap-Pro/backend/routes.py:89 | `Restaurant.query.get` finds a restaurant exactly when one with that id is stored, and returns that restaurant |
| Database.ProductById | DineMap-Pro/backend/routes.py:103 | `Product.query.get` finds a product exactly when one with that id is stored, and returns that product |
| Database.UserByEmail | DineMap-Pro/backend/routes.py:30 | `filter_by(email=…).first()` returns the first user with that email, or none when no user has it |
| Database.RestaurantByIdUnique | DineMap-Pro/backend/models.py:27 | with unique primary keys, the lookup returns the one restaurant with that id |
| Database.UserByEmailSnoc | DineMap-Pro/backend/models.py:7 | a user appended with a fresh email is the one the email lookup finds |
| Text.TrimStart | DineMap-Pro/backend/routes.py:113 | drops exactly the leading whitespace: the result is a suffix, what it drops is whitespace, and it does not start with whitespace |
| Text.TrimEnd | DineMap-Pro/backend/routes.py:113 | drops exactly the trailing whitespace: the result is a prefix, what it drops is whitespace, and it does not end with whitespace |
| Text.Strip | DineMap-Pro/backend/routes.py:113 | `str.strip()`, as `TrimEnd` after `TrimStart`; stated by `StripIsTrimmedSlice`, `StripEnds` and `StripEmptyIffBlank` |
| Text.StripIsTrimmedSlice | DineMap-Pro/backend/routes.py:113 | `strip()` gives a contiguous slice of the input, with only whitespace around it |
| Text.StripEnds | DineMap-Pro/backend/routes.py:113 | a non-empty stripped string neither starts nor ends with whitespace |
| Text.StripEmptyIffBlank | DineMap-Pro/backend/routes.py:113-115 | the stripped string is empty exactly when the input is all whitespace |
| Text.StartsWith | DineMap-Pro/backend/config.py:22-29 | `str.startswith`: the string has the prefix as its first characters |
| Text.Lower | DineMap-Pro/backend/routes.py:113 | `lower()` keeps the length and lowers each character |
| Text.Contains | DineMap-Pro/backend/config.py:25 | `t in s` for strings; `ContainsAt` states it holds exactly when `t` occurs at some position |
| Text.ContainsAt | DineMap-Pro/backend/config.py:25 | `x in url` holds exactly when `x` occurs at some position |
| Text.ReplaceFirst | DineMap-Pro/backend/config.py:23 | `replace(pat, rep, 1)` changes nothing without an occurrence, and on a prefix occurrence swaps that prefix |
| Registration.IsEmail | DineMap-Pro/backend/routes.py:21 | a scanner for the pattern without its `$`; `IsEmailIffShape`, `IsEmailHasShape` and `ShapeIsEmail` prove it accepts exactly the pattern's shape |
| Registration.IsEmailIffShape | DineMap-Pro/backend/routes.py:21 | the scanner accepts exactly the strings the regular expression describes: a local part, `@`, a host, a dot, and a top-level part, each over its character class |
| Registration.IsEmailHasShape | DineMap-Pro/backend/routes.py:21 | every accepted string has that shape |
| Registration.ShapeIsEmail | DineMap-Pro/backend/routes.py:21 | every string with that shape is accepted, whichever dot splits it |
| Registration.EmailMatches | DineMap-Pro/backend/routes.py:21-27 | `re.match` with the pattern, `$` included; `EmailMatchesIffShape` states what it accepts |
| Registration.EmailMatchesIffShape | DineMap-Pro/backend/routes.py:21-27 | with `$` matching before one final newline, `re.match` succeeds exactly for the shape, or the shape followed by a newline |
| Registration.EmailAccepted | DineMap-Pro/backend/app.py:60 | the sample address `omar@gmail.com` is accepted |
| Registration.EmailTrailingNewlineAccepted | DineMap-Pro/backend/routes.py:21-27 | the address with a trailing newline is also accepted |
| Registration.EmailWithoutDotRejected | DineMap-Pro/backend/routes.py:21-27 | an address with no dot after the `@` is rejected |
| Registration.SignupCheck | DineMap-Pro/backend/routes.py:24-43 | the validation chain in source order; `SignupCheckFirstViolated` and `CheckAgrees` state that it reports the first failing check |
| Registration.SignupCheckFirstViolated | DineMap-Pro/backend/routes.py:24-43 | the chain reports error `e` exactly when check `e` fails and every earlier check passes, and reports nothing exactly when every check passes |
| Registration.RankInjective | DineMap-Pro/backend/routes.py:24-43 | no two checks hold the same place in the chain |
| Registration.CheckAgrees | DineMap-Pro/backend/routes.py:24-43 | a failing check is reported at its place or earlier; the check reported fails; checks after the one reported are not consulted |
| Registration.SignupStep | DineMap-Pro/backend/routes.py:24-56 | the whole `/signup` handler as a store step; stated by `SignupOutcome`, `SignupPreservesValid`, `LoginAfterSignup` and `SecondSignupRejected` |
| Registration.SignupOutcome | DineMap-Pro/backend/routes.py:24-56 | 201 exactly when every check passes, and then exactly one user holding the request's fields is added; otherwise the store is unchanged and the reply is 400 with the first failing check's message |
| Registration.SignupPreservesValid | DineMap-Pro/backend/routes.py:47-56 | an accepted sign-up keeps ids unique, emails unique and foreign keys present |
| Registration.CurlSignupRejected | DineMap-Pro/backend/app.py:60 | the sample request, which has level 5, is refused with "Invalid level" |
| Registration.SignupGenderAndLevel | DineMap-Pro/backend/routes.py:36-53 | "MALE" passes the gender check and is stored as given; level 0 skips the level check and is stored |
| Registration.LowerMale | DineMap-Pro/backend/routes.py:36 | both spellings lower to "male" |
| Registration.CurlRequestPassesEarlyChecks | DineMap-Pro/backend/app.py:60 | on an empty store, the sample request passes the field, email, uniqueness, length and confirmation checks |
| Registration.GetUsers | DineMap-Pro/backend/routes.py:59-62 | `/users` is 200 with one user dictionary per stored user, in order, none holding a password |
| Registration.UserDicts | DineMap-Pro/backend/routes.py:62 | one user dictionary per user, in order |
| Registration.Login | DineMap-Pro/backend/routes.py:65-78 | 400 exactly when either field is missing or empty; 200 with the user's name exactly when the first user with that email has that password; otherwise the same 401 |
| Registration.LoginAfterSignup | DineMap-Pro/backend/routes.py:47-78 | after a sign-up, logging in with its email and password succeeds with its name, and any other non-empty password gives 401 |
| Registration.SecondSignupRejected | DineMap-Pro/backend/routes.py:30-31 | repeating an accepted sign-up gives "Email already exists" and changes nothing |
| Catalog.Snapshot | DineMap-Pro/backend/routes.py:92 | `restaurant.to_dict()` over the store, as used at routes.py:85, 92, 107, 150 and 165: the restaurant's dictionary, its `products` drawn from the store's product table |
| Catalog.Snapshots | DineMap-Pro/backend/routes.py:85 | one restaurant dictionary per restaurant, in order |
| Catalog.GetRestaurants | DineMap-Pro/backend/routes.py:82-85 | `/restaurants` is 200 with each stored restaurant's dictionary, in store order |
| Catalog.GetProducts | DineMap-Pro/backend/routes.py:96-99 | `/products` is 200 with each stored product's dictionary, in store order |
| Catalog.GetRestaurant | DineMap-Pro/backend/routes.py:87-92 | 404 "Restaurant not found" exactly when no restaurant has the id; otherwise 200 with the dictionary of a restaurant with that id |
| Catalog.RestaurantsOf | DineMap-Pro/backend/routes.py:106 | every entry is the dictionary of a restaurant whose id is the product's foreign key, every such restaurant has its dictionary in the list, and there are at most as many entries as restaurants |
| Catalog.GetRestaurantsByProduct | DineMap-Pro/backend/routes.py:101-107 | 404 "Product not found" exactly when no product has the id; otherwise 200 with a JSON list |
| Catalog.RestaurantsByProductInValidStore | DineMap-Pro/backend/routes.py:101-107 | in a valid store, a known product's reply is the one-element list holding its restaurant's dictionary |
| Catalog.RestaurantsOfSingle | DineMap-Pro/backend/routes.py:106 | with unique restaurant ids, the join yields exactly the matching restaurant |
| Catalog.RestaurantsOfNone | DineMap-Pro/backend/routes.py:106 | the join yields nothing when no restaurant has the foreign key |
| Catalog.SnapshotsOf | DineMap-Pro/backend/routes.py:165 | the restaurant dictionaries for a list of ids, skipping ids with no row; it builds both the favourites listing and the dictionary values at routes.py:150; stated by `SnapshotsOfSnoc` and `SnapshotsOfPresent` |
| Catalog.SnapshotsOfSnoc | DineMap-Pro/backend/routes.py:150 | one more present id adds one more restaurant dictionary at the end |
| Catalog.SnapshotsOfPresent | DineMap-Pro/backend/routes.py:165 | when every id names a restaurant, there is one dictionary per id, each that restaurant's |
| Search.NormalizeQuery | DineMap-Pro/backend/routes.py:113-115 | `q.strip().lower()`, shared with routes.py:138; `QueryMissingIffBlank` states when it is empty |
| Search.QueryMissingIffBlank | DineMap-Pro/backend/routes.py:113-115 | the query counts as missing exactly when the raw `q` is all whitespace, the absent parameter included |
| Search.Matches | DineMap-Pro/backend/routes.py:123 | the filter `ratio() > 0.5` on the query and the lowered product name, shared with routes.py:147; it compares the raw score, not the rounded one |
| Search.MatchHits | DineMap-Pro/backend/routes.py:117-127 | the hits the loop collects, in store order; stated by `MatchHitsMembers`, `MatchHitsNoDup` and `MatchHitsStep` |
| Search.MatchHitsMembers | DineMap-Pro/backend/routes.py:117-127 | a hit is collected exactly for a stored product scoring above 0.5 against the query, and carries its rounded score |
| Search.MatchHitsNoDup | DineMap-Pro/backend/routes.py:117-127 | distinct products give distinct hits |
| Search.ProductsNoDup | DineMap-Pro/backend/models.py:57 | a valid store holds each product once |
| Search.WithKeyAppend | DineMap-Pro/backend/routes.py:129 | the hits with a given score in a concatenation are those of each part, in order |
| Search.WithKeyCons | DineMap-Pro/backend/routes.py:129 | the same, for one hit in front |
| Search.WithKeyNone | DineMap-Pro/backend/routes.py:129 | when every hit scores below a value, no hit has that value as its score |
| Search.WithKeyMembers | DineMap-Pro/backend/routes.py:129 | the hits with a score are exactly the members with that score |
| Search.InsertHit | DineMap-Pro/backend/routes.py:129 | inserting after every hit scoring at least as high keeps the order, adds exactly the hit, and keeps each score's hits in arrival order |
| Search.InsertKeepsOrder | DineMap-Pro/backend/routes.py:129 | insertion at the insertion point keeps the order descending |
| Search.InsertKeepsKey | DineMap-Pro/backend/routes.py:129 | insertion at the insertion point puts the new hit after the others with its score |
| Search.SortHits | DineMap-Pro/backend/routes.py:129 | the result is sorted by descending score, is a permutation of the input, and keeps equal-score hits in input order |
| Search.StableSortUnique | DineMap-Pro/backend/routes.py:129 | two descending sequences that are permutations of each other and agree per score are equal, so any stable sort gives `SortHits`'s result |
| Search.SortedHeadsEqual | DineMap-Pro/backend/routes.py:129 | such sequences start with the same hit |
| Search.HeadScoreBound | DineMap-Pro/backend/routes.py:129 | the head of a descending sequence scores at least as high as the head of any per-score-equal sequence |
| Search.MultisetTail | DineMap-Pro/backend/routes.py:129 | removing an equal head keeps the permutation |
| Search.SortedTail | DineMap-Pro/backend/routes.py:129 | the tail of a descending sequence is descending |
| Search.WithKeyTails | DineMap-Pro/backend/routes.py:129 | removing an equal head keeps per-score agreement |
| Search.HitsJson | DineMap-Pro/backend/routes.py:124-127 | one `{product, matchScore}` object per hit, in order |
| Search.SearchProducts | DineMap-Pro/backend/routes.py:111-134 | 400 "Missing search query" for a blank query; otherwise the matching hits, sorted descending in a stable order, as a permutation of the collected hits; 204 and no body when there are none, 200 with the list otherwise |
| Search.MatchHitsStep | DineMap-Pro/backend/routes.py:119-127 | one loop iteration appends the product's hit exactly when it matches |
| Search.Round2 | DineMap-Pro/backend/routes.py:126 | `round(score, 2)` on exact reals: to the nearest hundredth, ties to the even hundredth; `Round2Bounds` states the nearness and `Round2Tie` the tie rule |
| Search.Round2Tie | DineMap-Pro/backend/routes.py:126 | a score exactly halfway between two hundredths rounds to the even one |
| Search.Round2Bounds | DineMap-Pro/backend/routes.py:126 | the rounded score is a whole number of hundredths, at most half a hundredth from the score |
| Search.RoundedScoreMayEqualThreshold | DineMap-Pro/backend/routes.py:123-126 | the threshold uses the raw score, so a product scoring 0.501 is returned with the reported score 0.5 |
| Search.ShawermaExample | DineMap-Pro/backend/app.py:28-39 | on the seeded products, " Shawerma " matches Chicken Shawerma (ratio 2/3) and not V7 Cola (ratio 2/15) |
| Search.NormalizedShawerma | DineMap-Pro/backend/routes.py:113 | " Shawerma " normalises to "shawerma" |
| Search.LowerShawerma | DineMap-Pro/backend/routes.py:113 | "Shawerma" lowers to "shawerma" |
| Search.LowerChickenName | DineMap-Pro/backend/routes.py:120 | "Chicken Shawerma" lowers to "chicken shawerma" |
| Search.LowerColaName | DineMap-Pro/backend/routes.py:120 | "V7 Cola" lowers to "v7 cola" |
| Search.OwnerIds | DineMap-Pro/backend/routes.py:145-149 | the ids of existing restaurants owning a matching product, with repetitions, in product order; stated by `OwnerIdsMembers` |
| Search.OwnerIdsMembers | DineMap-Pro/backend/routes.py:145-149 | an id is collected exactly when it names a stored restaurant that owns a matching product |
| Search.Dedup | DineMap-Pro/backend/routes.py:143-150 | the keys of `matched_restaurants` in insertion order; stated by `DedupMembers`, `DedupNoDup` and `DedupFirstOccurrenceOrder` |
| Search.DedupMembers | DineMap-Pro/backend/routes.py:149-150 | the dictionary's keys are exactly the ids collected |
| Search.DedupNoDup | DineMap-Pro/backend/routes.py:149-150 | no restaurant appears twice |
| Search.DedupFirstOccurrenceOrder | DineMap-Pro/backend/routes.py:149-155 | keys follow first-insertion order: a key listed earlier occurred before any occurrence of a later key |
| Search.OwnersStep | DineMap-Pro/backend/routes.py:145-150 | one loop iteration adds the product's restaurant exactly when the product matches, the restaurant exists and its id is new |
| Search.MatchRestaurants | DineMap-Pro/backend/routes.py:142-150 | the loop yields the deduplicated owner ids and, for each, that restaurant's dictionary |
| Search.SearchRestaurantsByProductName | DineMap-Pro/backend/routes.py:136-155 | 400 "Missing search query" for a blank query; otherwise 404 "No restaurants found offering a similar product" when no restaurant is found, and 200 with one dictionary per restaurant, in first-match order |
| Search.RestaurantSearchResult | DineMap-Pro/backend/routes.py:142-155 | the result lists each restaurant at most once, and lists it exactly when it exists and owns a product scoring above 0.5 |
| Favorites.IsFavorite | DineMap-Pro/backend/routes.py:176 | `user.is_favorite(restaurant)`, also used at routes.py:188, as membership of the pair; its use is stated by `AddFavoriteStep`, `RemoveFavoriteStep` and `SecondAddConflicts` |
| Favorites.RemovePair | DineMap-Pro/backend/routes.py:190 | unfavouriting removes exactly that pair and keeps every other |
| Favorites.RemoveAbsentPair | DineMap-Pro/backend/routes.py:190 | removing an absent pair changes nothing |
| Favorites.RemovePairNoDup | DineMap-Pro/backend/routes.py:190 | removal keeps the relation duplicate-free, and drops exactly one pair when the pair is present and none otherwise |
| Favorites.RemovePairAppend | DineMap-Pro/backend/routes.py:190 | removing from a concatenation removes from each part and keeps the parts in order, so the remaining favourites keep their relation order |
| Favorites.FavoritesOf | DineMap-Pro/backend/routes.py:165 | a user's favourites are exactly the restaurants paired with that user |
| Favorites.AddFavoriteStep | DineMap-Pro/backend/routes.py:168-180 | 404 exactly when the user, the restaurant or the field is missing; 400 "Already favorited" exactly for a pair already present; otherwise the pair is appended and 201 returned; nothing changes on an error |
| Favorites.RemoveFavoriteStep | DineMap-Pro/backend/routes.py:182-192 | 404 exactly when the user or restaurant is missing; 400 "Not in favorites" exactly for an absent pair; otherwise the pair is removed and 200 returned; nothing changes on an error |
| Favorites.UserFavorites | DineMap-Pro/backend/routes.py:160-166 | 404 "User not found" exactly for an unknown user; 500 with no body exactly when the user is known and one of the user's favourite pairs names a missing restaurant; otherwise 200 with the dictionaries of the favourite restaurants, in relation order |
| Favorites.UserFavoritesInValidStore | DineMap-Pro/backend/routes.py:160-166 | in a valid store, a known user gets 200 and one dictionary per favourite, in relation order |
| Favorites.AddFavoritePreservesValid | DineMap-Pro/backend/routes.py:168-180 | adding keeps foreign keys present and pairs unique |
| Favorites.RemoveFavoritePreservesValid | DineMap-Pro/backend/routes.py:182-192 | removing keeps foreign keys present and pairs unique |
| Favorites.RemovePairPreservesValid | DineMap-Pro/backend/routes.py:190 | removing any pair, present or absent, keeps the store valid |
| Favorites.SecondAddConflicts | DineMap-Pro/backend/routes.py:176-177 | adding the same pair twice gives "Already favorited" the second time and changes nothing |
| Favorites.AddThenRemove | DineMap-Pro/backend/routes.py:168-192 | removing a pair just added restores the original store and answers 200 |
| Favorites.RemoveThenAdd | DineMap-Pro/backend/routes.py:182-192 | after a removal a second removal is refused, and adding the pair back gives the same set of pairs |
| Favorites.OtherPairsUnchanged | DineMap-Pro/backend/routes.py:168-192 | adding or removing a pair leaves every other pair as it was |
| Favorites.FavoritesOfSnoc | DineMap-Pro/backend/routes.py:165 | appending a pair extends only that user's favourites, at the end |
| Favorites.FavoritesOfAppend | DineMap-Pro/backend/routes.py:165 | the listing of a concatenated relation is the listing of each part, one after the other, so `user.favorites` keeps relation order |
| Favorites.ListingAfterAdd | DineMap-Pro/backend/routes.py:160-180 | after an add, the user's listing is the old listing followed by the new restaurant's dictionary |
| Favorites.OtherListingsAfterAdd | DineMap-Pro/backend/routes.py:160-180 | an add leaves every other user's listing unchanged |
| Favorites.SnapshotsOfSameCatalog | DineMap-Pro/backend/routes.py:165 | the dictionaries depend only on the restaurant and product tables |
| Favorites.AddThenListExample | DineMap-Pro/backend/routes.py:160-180 | user 1 favouriting restaurant 2 gets 201, and then lists exactly restaurant 2 |
| Backend.Store.constructor | DineMap-Pro/backend/models.py:3-77 | the store holds the given valid tables and counter |
| Backend.Store.Signup | DineMap-Pro/backend/routes.py:10-56 | the in-place sign-up leaves the tables and the reply of `SignupStep`, keeps the store valid, and advances the id counter only on 201 |
| Backend.Store.FavoriteRestaurant | DineMap-Pro/backend/routes.py:178 | for a new pair of an existing user and restaurant, appends the pair, keeps the store valid and changes no other table |
| Backend.Store.UnfavoriteRestaurant | DineMap-Pro/backend/routes.py:190 | the loop leaves the relation equal to `RemovePair` of the old one, keeps the store valid and changes no other table |
| Backend.Store.AddFavorite | DineMap-Pro/backend/routes.py:168-180 | the in-place add leaves the tables and the reply of `AddFavoriteStep` and keeps the store valid |
| Backend.Store.RemoveFavorite | DineMap-Pro/backend/routes.py:182-192 | the in-place removal leaves the tables and the reply of `RemoveFavoriteStep` and keeps the store valid |

## Left out

- Flask routing, request parsing, `jsonify` and HTTP framing are left out. A handler receives its already-decoded arguments, and a reply is a status with an optional JSON body.
- SQLAlchemy sessions, transactions and concurrent requests are left out. Each handler is one atomic step on the tables, and `commit` is that step's result.
- `difflib.SequenceMatcher.ratio` is not modelled. It is the `Scorer` parameter. Python's `round` is the `Rounding` parameter, and `Round2` is given for examples.
- Floating point is not modelled. Prices, coordinates and scores are exact reals.
- The `print` calls in config.py and routes.py are left out: they only write logs.
- The psycopg2 import probe in config.py is left out. When psycopg2 is missing, config.py re-raises the `ImportError` and start-up fails before any URL is chosen, the SQLite fallback included. The model assumes the import succeeds.
- `os.environ` and `os.path.abspath(os.path.dirname(__file__))` become parameters of `Config.DatabaseUrl`.
- app.py's start-up, table creation and seeding are left out. The seeded product names appear only in `Search.ShawermaExample` and its helpers `Search.LowerChickenName` and `Search.LowerColaName`.
- routes.py imports `requests` and the `math` functions, but the routes modelled do not use them.
- `Text.Lower` lowers ASCII letters only. Python's `lower()` also maps non-ASCII letters. That makes no difference to the gender check, which compares against ASCII words. In the two searches it does: a query or product name with non-ASCII capitals reaches the `Scorer` as a different string from the one Python passes to `SequenceMatcher`.
- Column lengths (`String(100)` and so on) are not enforced. The `nullable` flags are kept by typing: a NOT NULL column has a plain type and a nullable one an `Option`. `ValidDb` states that every stored row has an id, that ids and emails are unique, that foreign keys name stored rows, and that no favourite pair is stored twice. Other database constraints are not modelled.
- JSON fields that are not strings, such as a numeric `name`, are not modelled. Signup fields are optional strings, and `level` is an optional integer.
- Flask answers an uncaught exception with status 500 and an HTML error page. The model keeps the status and has no body (`None`), so the page's content is not modelled. The only such case modelled is a favourite whose restaurant row is missing in `Favorites.UserFavorites`.
- The user table's autoincrement is modelled by the `Store.nextUserId` counter. Restaurant and product ids are taken as stored.
- `add_favorite` can receive a `restaurant_id` of a non-integer JSON type; the model treats the value as either absent or an integer.
- The `is_favorite`, `favorite_restaurant` and `unfavorite_restaurant` helpers and the `favorites` relationship are called by routes.py, but they are absent from models.py. They are modelled as membership in the user–restaurant pair relation, append, and removal of that pair. The favourite row's own id and timestamp are not modelled.
- Catalog.GetRestaurantsByProduct: its own contract states the 404 case and that the reply is a list. The list's content is stated by `Catalog.RestaurantsOf` (each entry is a matching restaurant's dictionary), and in a valid store by `Catalog.RestaurantsByProductInValidStore` (exactly one entry).
- Catalog.RestaurantsOf: its own contract states membership both ways and a length bound, not the number of entries per restaurant. The exact list is stated by `Catalog.RestaurantsOfSingle` (one matching row gives exactly its dictionary) and `Catalog.RestaurantsOfNone` (no matching row gives an empty list).
- Favorites.UserFavorites: the 200 body is stated through `SnapshotsOf`. `Favorites.UserFavoritesInValidStore` gives the elements one by one.
