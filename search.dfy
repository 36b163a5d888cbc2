/** The two search routes of routes.py: `/search/products` and
    `/search/restaurants_by_product_name`. The similarity ratio of
    difflib's `SequenceMatcher` and Python's `round(score, 2)` are
    parameters of the model. */
module Search {
  import opened Common
  import opened Text
  import opened Models
  import opened Database
  import opened Catalog

  /** `SequenceMatcher(None, query, name).ratio()`. */
  type Scorer = (string, string) -> real

  /** `round(score, 2)`. */
  type Rounding = real -> real

  const Threshold: real := 0.5

  /** `request.args.get('q', '').strip().lower()`. */
  function NormalizeQuery(q: string): string
  {
    Lower(Strip(q))
  }

  /** The query counts as missing exactly when it is all whitespace. */
  lemma QueryMissingIffBlank(q: string)
    ensures NormalizeQuery(q) == [] <==> forall k :: 0 <= k < |q| ==> IsSpace(q[k])
  {
    StripEmptyIffBlank(q);
  }

  /** Whether product `p` is similar enough to the normalised query; the
      comparison uses the raw, unrounded score. */
  predicate Matches(score: Scorer, query: string, p: Product)
  {
    score(query, Lower(p.name)) > Threshold
  }

  // ---------------------------------------------------------------------
  // Product search

  /** One entry of the product search result. */
  datatype Hit = Hit(product: Product, matchScore: real)

  function HitOf(score: Scorer, round: Rounding, query: string, p: Product): Hit
  {
    Hit(p, round(score(query, Lower(p.name))))
  }

  /** `matched_products` before the sort: one hit per matching product,
      in store order. */
  function MatchHits(score: Scorer, round: Rounding, query: string, ps: seq<Product>): seq<Hit>
  {
    if ps == [] then []
    else
      var p := ps[|ps| - 1];
      MatchHits(score, round, query, ps[..|ps| - 1]) +
      (if Matches(score, query, p) then [HitOf(score, round, query, p)] else [])
  }

  /** A hit is listed exactly when its product is in the store and
      matches, and it carries that product's rounded score. */
  lemma {:induction false} MatchHitsMembers(score: Scorer, round: Rounding, query: string, ps: seq<Product>, h: Hit)
    ensures h in MatchHits(score, round, query, ps) <==>
      h.product in ps && Matches(score, query, h.product) && h == HitOf(score, round, query, h.product)
  {
    if ps != [] {
      var init := ps[..|ps| - 1];
      MatchHitsMembers(score, round, query, init, h);
      assert ps == init + [ps[|ps| - 1]];
    }
  }

  /** Each matching product appears once in a store without duplicates. */
  lemma {:induction false} MatchHitsNoDup(score: Scorer, round: Rounding, query: string, ps: seq<Product>)
    requires NoDup(ps)
    ensures NoDup(MatchHits(score, round, query, ps))
  {
    if ps != [] {
      var init := ps[..|ps| - 1];
      var p := ps[|ps| - 1];
      assert ps == init + [p];
      NoDupSnoc(init, p);
      MatchHitsNoDup(score, round, query, init);
      var m := MatchHits(score, round, query, init);
      if Matches(score, query, p) {
        MatchHitsMembers(score, round, query, init, HitOf(score, round, query, p));
        NoDupSnoc(m, HitOf(score, round, query, p));
      }
    }
  }

  /** No two products of a valid store are equal. */
  lemma ProductsNoDup(db: Db)
    requires ValidDb(db)
    ensures NoDup(db.products)
  {
  }

  ghost predicate SortedDesc(hs: seq<Hit>)
  {
    forall i, j :: 0 <= i < j < |hs| ==> hs[i].matchScore >= hs[j].matchScore
  }

  /** The hits with score `k`, in their order. */
  function WithKey(hs: seq<Hit>, k: real): seq<Hit>
  {
    if hs == [] then []
    else WithKey(hs[..|hs| - 1], k) + (if hs[|hs| - 1].matchScore == k then [hs[|hs| - 1]] else [])
  }

  lemma {:induction false} WithKeyAppend(a: seq<Hit>, b: seq<Hit>, k: real)
    ensures WithKey(a + b, k) == WithKey(a, k) + WithKey(b, k)
    decreases |b|
  {
    if b == [] {
      assert a + b == a;
    } else {
      var b' := b[..|b| - 1];
      assert (a + b)[..|a + b| - 1] == a + b';
      assert (a + b)[|a + b| - 1] == b[|b| - 1];
      WithKeyAppend(a, b', k);
    }
  }

  lemma WithKeyCons(x: Hit, t: seq<Hit>, k: real)
    ensures WithKey([x] + t, k) == (if x.matchScore == k then [x] else []) + WithKey(t, k)
  {
    WithKeyAppend([x], t, k);
    assert [x][..0] == [];
  }

  lemma {:induction false} WithKeyNone(hs: seq<Hit>, k: real)
    requires forall i :: 0 <= i < |hs| ==> hs[i].matchScore < k
    ensures WithKey(hs, k) == []
  {
    if hs != [] {
      WithKeyNone(hs[..|hs| - 1], k);
    }
  }

  lemma {:induction false} WithKeyMembers(hs: seq<Hit>, k: real, h: Hit)
    ensures h in WithKey(hs, k) <==> h in hs && h.matchScore == k
  {
    if hs != [] {
      WithKeyMembers(hs[..|hs| - 1], k, h);
      assert hs == hs[..|hs| - 1] + [hs[|hs| - 1]];
    }
  }

  /** Insertion of one hit after every hit with a score at least as high:
      the step of a stable sort by descending score. */
  method InsertHit(r: seq<Hit>, x: Hit) returns (r': seq<Hit>)
    requires SortedDesc(r)
    ensures SortedDesc(r')
    ensures multiset(r') == multiset(r) + multiset{x}
    ensures forall k :: WithKey(r', k) == WithKey(r, k) + WithKey([x], k)
  {
    var j := 0;
    while j < |r| && r[j].matchScore >= x.matchScore
      invariant 0 <= j <= |r|
      invariant forall i :: 0 <= i < j ==> r[i].matchScore >= x.matchScore
    {
      j := j + 1;
    }
    r' := r[..j] + [x] + r[j..];
    InsertKeepsOrder(r, j, x);
    assert r == r[..j] + r[j..];
    forall k ensures WithKey(r', k) == WithKey(r, k) + WithKey([x], k) {
      InsertKeepsKey(r, j, x, k);
    }
  }

  ghost predicate InsertionPoint(r: seq<Hit>, j: nat, x: Hit)
  {
    j <= |r| &&
    (forall i :: 0 <= i < j ==> r[i].matchScore >= x.matchScore) &&
    (j < |r| ==> r[j].matchScore < x.matchScore)
  }

  lemma InsertKeepsOrder(r: seq<Hit>, j: nat, x: Hit)
    requires SortedDesc(r) && InsertionPoint(r, j, x)
    ensures SortedDesc(r[..j] + [x] + r[j..])
  {
    var r' := r[..j] + [x] + r[j..];
    forall i, i' | 0 <= i < i' < |r'| ensures r'[i].matchScore >= r'[i'].matchScore {
      if i' < j {
        assert r'[i] == r[i] && r'[i'] == r[i'];
      } else if i' == j {
        assert r'[i] == r[i] && r'[i'] == x;
      } else if i == j {
        assert r'[i] == x && r'[i'] == r[i' - 1];
        assert r[j].matchScore >= r[i' - 1].matchScore;
      } else if i < j {
        assert r'[i] == r[i] && r'[i'] == r[i' - 1];
      } else {
        assert r'[i] == r[i - 1] && r'[i'] == r[i' - 1];
      }
    }
  }

  lemma InsertKeepsKey(r: seq<Hit>, j: nat, x: Hit, k: real)
    requires SortedDesc(r) && InsertionPoint(r, j, x)
    ensures WithKey(r[..j] + [x] + r[j..], k) == WithKey(r, k) + WithKey([x], k)
  {
    assert r == r[..j] + r[j..];
    WithKeyAppend(r[..j] + [x], r[j..], k);
    WithKeyAppend(r[..j], [x], k);
    WithKeyAppend(r[..j], r[j..], k);
    if k == x.matchScore {
      forall i | 0 <= i < |r[j..]| ensures r[j..][i].matchScore < k {
        assert r[j..][i] == r[j + i];
        assert r[j].matchScore >= r[j + i].matchScore;
      }
      WithKeyNone(r[j..], k);
    } else {
      assert [x][..0] == [];
    }
  }

  /** `matched_products.sort(key=lambda x: x['matchScore'], reverse=True)`:
      a stable sort by descending score. */
  method SortHits(hs: seq<Hit>) returns (r: seq<Hit>)
    ensures SortedDesc(r)
    ensures multiset(r) == multiset(hs)
    ensures forall k :: WithKey(r, k) == WithKey(hs, k)
  {
    r := [];
    var i := 0;
    while i < |hs|
      invariant 0 <= i <= |hs|
      invariant SortedDesc(r)
      invariant multiset(r) == multiset(hs[..i])
      invariant forall k :: WithKey(r, k) == WithKey(hs[..i], k)
    {
      r := InsertHit(r, hs[i]);
      assert hs[..i + 1] == hs[..i] + [hs[i]];
      forall k ensures WithKey(r, k) == WithKey(hs[..i + 1], k) {
        WithKeyAppend(hs[..i], [hs[i]], k);
      }
      i := i + 1;
    }
    assert hs[..i] == hs;
  }

  /** A sequence sorted by descending score in which the hits of each
      score keep a given order is determined uniquely: any stable sort,
      Python's included, yields the result of `SortHits`. */
  lemma {:induction false} StableSortUnique(r1: seq<Hit>, r2: seq<Hit>)
    requires SortedDesc(r1) && SortedDesc(r2)
    requires multiset(r1) == multiset(r2)
    requires forall k :: WithKey(r1, k) == WithKey(r2, k)
    ensures r1 == r2
    decreases |r1|
  {
    assert |r1| == |multiset(r1)| == |multiset(r2)| == |r2|;
    if r1 != [] {
      SortedHeadsEqual(r1, r2);
      var x, t1, t2 := r1[0], r1[1..], r2[1..];
      assert r1 == [x] + t1 && r2 == [x] + t2;
      WithKeyTails(x, t1, t2);
      MultisetTail(r1, r2);
      SortedTail(r1);
      SortedTail(r2);
      StableSortUnique(t1, t2);
    }
  }

  lemma MultisetTail(r1: seq<Hit>, r2: seq<Hit>)
    requires r1 != [] && r2 != [] && r1[0] == r2[0]
    requires multiset(r1) == multiset(r2)
    ensures multiset(r1[1..]) == multiset(r2[1..])
  {
    assert r1 == [r1[0]] + r1[1..] && r2 == [r2[0]] + r2[1..];
    assert multiset(r1) == multiset{r1[0]} + multiset(r1[1..]);
    assert multiset(r2) == multiset{r2[0]} + multiset(r2[1..]);
    assert multiset(r1[1..]) == multiset(r1) - multiset{r1[0]};
    assert multiset(r2[1..]) == multiset(r2) - multiset{r2[0]};
  }

  lemma SortedTail(r: seq<Hit>)
    requires r != [] && SortedDesc(r)
    ensures SortedDesc(r[1..])
  {
    forall i, j | 0 <= i < j < |r| - 1 ensures r[1..][i].matchScore >= r[1..][j].matchScore {
      assert r[1..][i] == r[i + 1] && r[1..][j] == r[j + 1];
    }
  }

  /** Two sorted sequences that agree per key start with the same hit. */
  lemma SortedHeadsEqual(r1: seq<Hit>, r2: seq<Hit>)
    requires r1 != [] && r2 != []
    requires SortedDesc(r1) && SortedDesc(r2)
    requires forall k :: WithKey(r1, k) == WithKey(r2, k)
    ensures r1[0] == r2[0]
  {
    var x1, x2 := r1[0], r2[0];
    HeadScoreBound(r1, r2);
    HeadScoreBound(r2, r1);
    var k := x1.matchScore;
    assert r1 == [x1] + r1[1..] && r2 == [x2] + r2[1..];
    WithKeyCons(x1, r1[1..], k);
    WithKeyCons(x2, r2[1..], k);
    assert WithKey(r1, k)[0] == x1;
    assert WithKey(r2, k)[0] == x2;
  }

  /** The head of a sorted sequence scores at least the head of any
      sequence that agrees with it per key. */
  lemma HeadScoreBound(r1: seq<Hit>, r2: seq<Hit>)
    requires r1 != [] && r2 != []
    requires SortedDesc(r1)
    requires forall k :: WithKey(r1, k) == WithKey(r2, k)
    ensures r1[0].matchScore >= r2[0].matchScore
  {
    var x2 := r2[0];
    WithKeyMembers(r2, x2.matchScore, x2);
    WithKeyMembers(r1, x2.matchScore, x2);
    var i :| 0 <= i < |r1| && r1[i] == x2;
  }

  lemma WithKeyTails(x: Hit, t1: seq<Hit>, t2: seq<Hit>)
    requires forall k :: WithKey([x] + t1, k) == WithKey([x] + t2, k)
    ensures forall k :: WithKey(t1, k) == WithKey(t2, k)
  {
    forall k ensures WithKey(t1, k) == WithKey(t2, k) {
      WithKeyCons(x, t1, k);
      WithKeyCons(x, t2, k);
      var h := if x.matchScore == k then [x] else [];
      assert WithKey(t1, k) == WithKey([x] + t1, k)[|h|..];
      assert WithKey(t2, k) == WithKey([x] + t2, k)[|h|..];
    }
  }

  /** One entry of the JSON answer: the product snapshot and the score. */
  function HitJson(h: Hit): Json
  {
    JObj(map["product" := JObj(ProductToDict(h.product)), "matchScore" := JNum(h.matchScore)])
  }

  function HitsJson(hs: seq<Hit>): (js: seq<Json>)
    ensures |js| == |hs|
    ensures forall k :: 0 <= k < |hs| ==> js[k] == HitJson(hs[k])
  {
    if hs == [] then [] else [HitJson(hs[0])] + HitsJson(hs[1..])
  }

  /** `/search/products`: 400 for a missing query before any product is
      read; otherwise the matching products' hits, sorted stably by
      descending rounded score, with 204 and no body when there are none. */
  method SearchProducts(db: Db, q: string, score: Scorer, round: Rounding)
    returns (resp: Response, hits: seq<Hit>)
    ensures NormalizeQuery(q) == [] ==> resp == Reply(400, "Missing search query") && hits == []
    ensures NormalizeQuery(q) != [] ==>
      var expected := MatchHits(score, round, NormalizeQuery(q), db.products);
      SortedDesc(hits) && multiset(hits) == multiset(expected) &&
      (forall k :: WithKey(hits, k) == WithKey(expected, k)) &&
      resp == if hits == [] then Response(204, None) else Response(200, Some(JArr(HitsJson(hits))))
  {
    var query := NormalizeQuery(q);
    if query == [] {
      return Reply(400, "Missing search query"), [];
    }
    var matched: seq<Hit> := [];
    var i := 0;
    while i < |db.products|
      invariant 0 <= i <= |db.products|
      invariant matched == MatchHits(score, round, query, db.products[..i])
    {
      var product := db.products[i];
      var name := Lower(product.name);
      var s := score(query, name);
      MatchHitsStep(score, round, query, db.products, i);
      if s > Threshold {
        matched := matched + [Hit(product, round(s))];
      }
      i := i + 1;
    }
    assert db.products[..i] == db.products;
    hits := SortHits(matched);
    if |hits| == 0 {
      resp := Response(204, None);
    } else {
      resp := Response(200, Some(JArr(HitsJson(hits))));
    }
  }

  /** One step of the product search loop. */
  lemma MatchHitsStep(score: Scorer, round: Rounding, query: string, ps: seq<Product>, i: nat)
    requires i < |ps|
    ensures MatchHits(score, round, query, ps[..i + 1]) ==
      MatchHits(score, round, query, ps[..i]) +
      (if Matches(score, query, ps[i]) then [HitOf(score, round, query, ps[i])] else [])
  {
    assert ps[..i + 1][..i] == ps[..i];
  }

  /** Python's `round(x, 2)` on the exact value of `x`: to the nearest
      hundredth, ties to the even hundredth. */
  function Round2(x: real): real
  {
    var n := (x * 100.0).Floor;
    var frac := x * 100.0 - n as real;
    var m := if frac > 0.5 || (frac == 0.5 && n % 2 != 0) then n + 1 else n;
    m as real / 100.0
  }

  /** The rounded score is a whole number of hundredths, at most half a
      hundredth from the score. */
  lemma Round2Bounds(x: real)
    ensures (Round2(x) * 100.0).Floor as real == Round2(x) * 100.0
    ensures x - 0.005 <= Round2(x) <= x + 0.005
  {
    var n := (x * 100.0).Floor;
    var frac := x * 100.0 - n as real;
    var m := if frac > 0.5 || (frac == 0.5 && n % 2 != 0) then n + 1 else n;
    assert Round2(x) == m as real / 100.0;
    assert Round2(x) * 100.0 == m as real;
    assert (m as real).Floor == m;
    assert 0.0 <= frac < 1.0;
    assert -0.5 <= m as real - x * 100.0 <= 0.5;
  }

  /** A score exactly halfway between two hundredths rounds to the even
      one. */
  lemma Round2Tie(x: real)
    requires x * 100.0 - (x * 100.0).Floor as real == 0.5
    ensures (Round2(x) * 100.0).Floor % 2 == 0
  {
    var n := (x * 100.0).Floor;
    var m := if n % 2 != 0 then n + 1 else n;
    assert Round2(x) * 100.0 == m as real;
    assert (m as real).Floor == m;
  }

  /** The threshold applies to the raw score: a product scoring 0.501 is
      returned with the rounded score 0.5. */
  lemma RoundedScoreMayEqualThreshold(p: Product)
    ensures MatchHits((a: string, b: string) => 0.501, Round2, "x", [p]) == [Hit(p, 0.5)]
  {
    assert (0.501 * 100.0).Floor == 50;
    assert [p][..0] == [];
  }

  /** The seed products Chicken Shawerma and V7 Cola searched for
      " Shawerma ", with the ratios difflib gives (16/24 and 2/15): only
      the first is returned. */
  lemma ShawermaExample(score: Scorer, round: Rounding, q: string, chicken: Product, cola: Product)
    requires q == " Shawerma "
    requires chicken.name == "Chicken Shawerma" && cola.name == "V7 Cola"
    requires score("shawerma", "chicken shawerma") == 16.0 / 24.0
    requires score("shawerma", "v7 cola") == 2.0 / 15.0
    ensures MatchHits(score, round, NormalizeQuery(q), [chicken, cola]) ==
      [Hit(chicken, round(16.0 / 24.0))]
  {
    var query := NormalizeQuery(q);
    NormalizedShawerma(q);
    LowerChickenName(chicken.name);
    LowerColaName(cola.name);
    assert Matches(score, query, chicken) by {
      assert score(query, Lower(chicken.name)) == 16.0 / 24.0;
    }
    assert !Matches(score, query, cola) by {
      assert score(query, Lower(cola.name)) == 2.0 / 15.0;
    }
    assert HitOf(score, round, query, chicken) == Hit(chicken, round(16.0 / 24.0));
    var ps := [chicken, cola];
    MatchHitsStep(score, round, query, ps, 0);
    MatchHitsStep(score, round, query, ps, 1);
    assert ps[..0] == [] && ps[..2] == ps;
  }

  lemma NormalizedShawerma(s: string)
    requires s == " Shawerma "
    ensures NormalizeQuery(s) == "shawerma"
  {
    assert IsSpace(s[0]) && !IsSpace(s[1]);
    assert s[1..] == "Shawerma ";
    var t := s[1..];
    assert TrimStart(t) == t;
    assert IsSpace(t[8]) && !IsSpace(t[7]);
    assert t[..8] == "Shawerma";
    assert TrimEnd(t[..8]) == t[..8];
    LowerShawerma(t[..8]);
  }

  lemma LowerShawerma(name: string)
    requires name == "Shawerma"
    ensures Lower(name) == "shawerma"
  {
    var lowered := "shawerma";
    forall k | 0 <= k < |name| ensures LowerChar(name[k]) == lowered[k] {
    }
    LowerWord(name, lowered);
  }

  lemma LowerChickenName(name: string)
    requires name == "Chicken Shawerma"
    ensures Lower(name) == "chicken shawerma"
  {
    var lowered := "chicken shawerma";
    forall k | 0 <= k < |name| ensures LowerChar(name[k]) == lowered[k] {
    }
    LowerWord(name, lowered);
  }

  lemma LowerColaName(name: string)
    requires name == "V7 Cola"
    ensures Lower(name) == "v7 cola"
  {
    var lowered := "v7 cola";
    forall k | 0 <= k < |name| ensures LowerChar(name[k]) == lowered[k] {
    }
    LowerWord(name, lowered);
  }

  // ---------------------------------------------------------------------
  // Restaurant search by product name

  /** The restaurant ids of the matching products whose restaurant exists,
      with repetitions, in product order. */
  function OwnerIds(db: Db, score: Scorer, query: string, ps: seq<Product>): seq<int>
  {
    if ps == [] then []
    else
      var p := ps[|ps| - 1];
      OwnerIds(db, score, query, ps[..|ps| - 1]) +
      (if Matches(score, query, p) && HasRestaurant(db.restaurants, p.restaurantId)
       then [p.restaurantId] else [])
  }

  lemma {:induction false} OwnerIdsMembers(db: Db, score: Scorer, query: string, ps: seq<Product>, id: int)
    ensures id in OwnerIds(db, score, query, ps) <==>
      HasRestaurant(db.restaurants, id) &&
      exists k :: 0 <= k < |ps| && Matches(score, query, ps[k]) && ps[k].restaurantId == id
  {
    if ps != [] {
      var init := ps[..|ps| - 1];
      OwnerIdsMembers(db, score, query, init, id);
      if k :| 0 <= k < |ps| && Matches(score, query, ps[k]) && ps[k].restaurantId == id {
        if k < |init| {
          assert init[k] == ps[k];
        }
      }
      if k :| 0 <= k < |init| && Matches(score, query, init[k]) && init[k].restaurantId == id {
        assert ps[k] == init[k];
      }
    }
  }

  /** The keys of an insertion-ordered dict filled from `s`, first
      insertion winning. */
  function Dedup(s: seq<int>): seq<int>
  {
    if s == [] then []
    else
      var d := Dedup(s[..|s| - 1]);
      if s[|s| - 1] in d then d else d + [s[|s| - 1]]
  }

  lemma {:induction false} DedupMembers(s: seq<int>, x: int)
    ensures x in Dedup(s) <==> x in s
  {
    if s != [] {
      DedupMembers(s[..|s| - 1], x);
      assert s == s[..|s| - 1] + [s[|s| - 1]];
    }
  }

  lemma {:induction false} DedupNoDup(s: seq<int>)
    ensures NoDup(Dedup(s))
  {
    if s != [] {
      var d := Dedup(s[..|s| - 1]);
      DedupNoDup(s[..|s| - 1]);
      NoDupSnoc(d, s[|s| - 1]);
    }
  }

  /** Keys are in order of first occurrence: every occurrence of a later
      key comes after an occurrence of each earlier key. */
  lemma {:induction false} DedupFirstOccurrenceOrder(s: seq<int>, a: nat, b: nat, j: nat)
    requires a < b < |Dedup(s)|
    requires j < |s| && s[j] == Dedup(s)[b]
    ensures Dedup(s)[a] in s[..j]
  {
    var init := s[..|s| - 1];
    var x := s[|s| - 1];
    var d := Dedup(init);
    DedupMembers(init, Dedup(s)[a]);
    if x in d {
      if j < |init| {
        DedupFirstOccurrenceOrder(init, a, b, j);
        assert init[..j] == s[..j];
      } else {
        assert s[..j] == init;
      }
    } else if b < |d| {
      assert j < |init| by {
        assert s[j] == d[b] && d[b] in d && x !in d;
      }
      DedupFirstOccurrenceOrder(init, a, b, j);
      assert init[..j] == s[..j];
    } else {
      DedupMembers(init, x);
      assert x !in init;
      assert j >= |init| by {
        assert forall t :: 0 <= t < |init| ==> s[t] == init[t] && init[t] in init;
      }
      assert s[..j] == init;
    }
  }

  /** One step of the restaurant search loop. */
  lemma OwnersStep(db: Db, score: Scorer, query: string, ps: seq<Product>, i: nat)
    requires i < |ps|
    ensures var d := Dedup(OwnerIds(db, score, query, ps[..i]));
      var p := ps[i];
      Dedup(OwnerIds(db, score, query, ps[..i + 1])) ==
        if Matches(score, query, p) && HasRestaurant(db.restaurants, p.restaurantId) &&
           p.restaurantId !in d
        then d + [p.restaurantId] else d
  {
    var s := OwnerIds(db, score, query, ps[..i]);
    var p := ps[i];
    assert ps[..i + 1][..i] == ps[..i];
    assert ps[..i + 1][i] == p;
    var e := if Matches(score, query, p) && HasRestaurant(db.restaurants, p.restaurantId)
      then [p.restaurantId] else [];
    assert OwnerIds(db, score, query, ps[..i + 1]) == s + e;
    if e != [] {
      assert (s + e)[..|s|] == s;
    } else {
      assert s + e == s;
    }
  }

  /** The loop filling `matched_restaurants`: its keys in insertion order
      and the snapshots stored under them. */
  method MatchRestaurants(db: Db, query: string, score: Scorer)
    returns (ids: seq<int>, snapshots: seq<Json>)
    ensures ids == Dedup(OwnerIds(db, score, query, db.products))
    ensures snapshots == SnapshotsOf(db, ids)
  {
    ids := [];
    snapshots := [];
    var i := 0;
    while i < |db.products|
      invariant 0 <= i <= |db.products|
      invariant ids == Dedup(OwnerIds(db, score, query, db.products[..i]))
      invariant snapshots == SnapshotsOf(db, ids)
    {
      var product := db.products[i];
      var productName := Lower(product.name);
      OwnersStep(db, score, query, db.products, i);
      if score(query, productName) > Threshold {
        var restaurant := RestaurantById(db.restaurants, product.restaurantId);
        if restaurant.Some? && restaurant.value.id.value !in ids {
          var id := restaurant.value.id.value;
          assert id == product.restaurantId && HasRestaurant(db.restaurants, id);
          SnapshotsOfSnoc(db, ids, id);
          ids := ids + [id];
          snapshots := snapshots + [Snapshot(db, restaurant.value)];
        } else {
          assert !HasRestaurant(db.restaurants, product.restaurantId) || product.restaurantId in ids;
        }
      } else {
        assert !Matches(score, query, product);
      }
      i := i + 1;
    }
    assert db.products[..i] == db.products;
  }

  /** `/search/restaurants_by_product_name`: 400 for a missing query;
      otherwise the restaurants of the matching products, each once, in
      the order of its first matching product, and 404 when there are
      none. */
  method SearchRestaurantsByProductName(db: Db, q: string, score: Scorer)
    returns (resp: Response, ids: seq<int>)
    ensures NormalizeQuery(q) == [] ==> resp == Reply(400, "Missing search query") && ids == []
    ensures NormalizeQuery(q) != [] ==>
      ids == Dedup(OwnerIds(db, score, NormalizeQuery(q), db.products)) &&
      resp == if ids == [] then Reply(404, "No restaurants found offering a similar product")
              else Response(200, Some(JArr(SnapshotsOf(db, ids))))
  {
    var query := NormalizeQuery(q);
    if query == [] {
      return Reply(400, "Missing search query"), [];
    }
    var snapshots;
    ids, snapshots := MatchRestaurants(db, query, score);
    if |ids| == 0 {
      resp := Reply(404, "No restaurants found offering a similar product");
    } else {
      resp := Response(200, Some(JArr(snapshots)));
    }
  }

  /** The restaurant search lists a restaurant exactly when one of its
      products matches, never twice, in order of first matching product. */
  lemma RestaurantSearchResult(db: Db, score: Scorer, query: string, id: int)
    ensures var ids := Dedup(OwnerIds(db, score, query, db.products));
      NoDup(ids) &&
      (id in ids <==>
        HasRestaurant(db.restaurants, id) &&
        exists k :: 0 <= k < |db.products| && Matches(score, query, db.products[k]) &&
          db.products[k].restaurantId == id)
  {
    var s := OwnerIds(db, score, query, db.products);
    DedupNoDup(s);
    DedupMembers(s, id);
    OwnerIdsMembers(db, score, query, db.products, id);
  }
}
