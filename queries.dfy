/** The read-only handlers of the listing endpoints: filtering by category,
    pagination, case-insensitive search by name, and the per-category counts. */
module Queries {
  import opened Products
  import opened Sequences

  // ----- Category filter -----

  /** The test `p.category === category` of the filter callback. */
  function InCategory(category: string): (keep: Product -> bool)
    ensures forall p :: keep(p) <==> p.category == category
  {
    (p: Product) => p.category == category
  }

  /** The products of one category, in store order. */
  function FilterByCategory(ps: seq<Product>, category: string): (r: seq<Product>)
    ensures forall p :: p in r <==> p in ps && p.category == category
  {
    Filter(ps, InCategory(category))
  }

  /** The category-filter handler: a non-empty `category` query value selects
      the products of that category; a missing or empty one (falsy in
      JavaScript) lists the whole store. */
  function ListByCategory(ps: seq<Product>, category: Option<string>): (r: Response)
    ensures category.Some? && category.value != "" ==>
      r.Respond? && r.status == 200 && r.body.Items? &&
      r.body.products == FilterByCategory(ps, category.value) &&
      (forall p :: p in r.body.products <==> p in ps && p.category == category.value)
    ensures category.None? || category.value == "" ==> r == Respond(200, Items(ps))
  {
    if category.Some? && category.value != "" then
      Respond(200, Items(FilterByCategory(ps, category.value)))
    else
      Respond(200, Items(ps))
  }

  /** The filter keeps each product of the category as often as the store
      holds it, drops every other product, and keeps store order across any
      split of the store. */
  lemma FilterByCategoryExact(ps: seq<Product>, qs: seq<Product>, category: string, p: Product)
    ensures multiset(FilterByCategory(ps, category))[p] ==
            if p.category == category then multiset(ps)[p] else 0
    ensures FilterByCategory(ps + qs, category) ==
            FilterByCategory(ps, category) + FilterByCategory(qs, category)
  {
    FilterCounts(ps, InCategory(category), p);
    FilterAppend(ps, qs, InCategory(category));
  }

  // ----- Pagination -----

  /** The pagination handler. `page` and `limit` are the query values already
      read as integers, defaulting to 1 and 10; the window starts at
      `(page - 1) * limit` and is cut with JavaScript's `slice`. `total` is
      the length of the whole store. */
  function ListPage(ps: seq<Product>, page: Option<int>, limit: Option<int>): (r: Response)
    ensures r.Respond? && r.status == 200 && r.body.PageOf?
    ensures r.body.total == |ps| && |r.body.products| <= |ps|
    ensures r.body.page == page.GetOr(1) && r.body.limit == limit.GetOr(10)
  {
    var p, l := page.GetOr(1), limit.GetOr(10);
    var start := (p - 1) * l;
    var end := start + l;
    Respond(200, PageOf(|ps|, p, l, Slice(ps, start, end)))
  }

  /** For a page of at least 1 and a non-negative limit, the page holds the
      store's elements from `(page - 1) * limit` up to `limit` further, cut
      at the end of the store: never more than `limit` products, and none
      once the window starts past the end. */
  lemma PageWindow(ps: seq<Product>, page: int, limit: int)
    requires page >= 1 && limit >= 0
    ensures var s := (page - 1) * limit;
      var r := ListPage(ps, Some(page), Some(limit));
      && s >= 0
      && r.body.products == ps[Min(s, |ps|)..Min(s + limit, |ps|)]
      && |r.body.products| <= limit
      && (s >= |ps| ==> r.body.products == [])
      && r.body.total == |ps|
  {
    var s := (page - 1) * limit;
    PageStartNonNegative(page, limit);
    var r := ListPage(ps, Some(page), Some(limit));
    assert r.body.products == Slice(ps, s, s + limit);
  }

  /** The start of a page numbered from 1 is never before the first product. */
  lemma PageStartNonNegative(page: int, limit: int)
    requires page >= 1 && limit >= 0
    ensures (page - 1) * limit >= 0
  {
  }

  /** Without query values a page is the first ten products. */
  lemma DefaultPage(ps: seq<Product>)
    ensures ListPage(ps, None, None).body.products == ps[..Min(10, |ps|)]
  {
  }

  /** Page 2 with limit 1 on a three-product store is exactly the second
      product, and the total is 3. */
  lemma SecondPageOfThree(a: Product, b: Product, c: Product)
    ensures ListPage([a, b, c], Some(2), Some(1)) == Respond(200, PageOf(3, 2, 1, [b]))
  {
    assert [a, b, c][1..2] == [b];
  }

  // ----- Search by name -----

  /** ASCII case folding of one character. */
  function LowerChar(c: char): (r: char)
    ensures 'A' <= c <= 'Z' ==> 'a' <= r <= 'z' && r as int - 'a' as int == c as int - 'A' as int
    ensures !('A' <= c <= 'Z') ==> r == c
  {
    if 'A' <= c <= 'Z' then (c as int + 32) as char else c
  }

  /** `toLowerCase` restricted to ASCII letters. */
  function Lower(s: string): (r: string)
    ensures |r| == |s|
    ensures forall i :: 0 <= i < |s| ==> r[i] == LowerChar(s[i])
    ensures forall i :: 0 <= i < |r| ==> !('A' <= r[i] <= 'Z')
    ensures forall i :: 0 <= i < |s| && !('A' <= s[i] <= 'Z') ==> r[i] == s[i]
    ensures forall i :: 0 <= i < |s| && 'A' <= s[i] <= 'Z' ==> r[i] as int - 'a' as int == s[i] as int - 'A' as int
  {
    seq(|s|, i requires 0 <= i < |s| => LowerChar(s[i]))
  }

  /** Folding case twice is folding it once. */
  lemma LowerIdempotent(s: string)
    ensures Lower(Lower(s)) == Lower(s)
  {
    var once := Lower(s);
    forall i | 0 <= i < |s| ensures Lower(once)[i] == once[i] {
      assert once[i] == LowerChar(s[i]);
    }
  }

  ghost predicate OccursAt(hay: string, needle: string, i: int) {
    0 <= i && i + |needle| <= |hay| && hay[i..i + |needle|] == needle
  }

  /** `hay.includes(needle)`, as a recursive scan of the positions. */
  function Includes(hay: string, needle: string): (b: bool)
    ensures b <==> exists i :: OccursAt(hay, needle, i)
  {
    if |needle| <= |hay| && hay[..|needle|] == needle then
      assert OccursAt(hay, needle, 0);
      true
    else if |hay| <= |needle| then
      assert forall i :: OccursAt(hay, needle, i) ==> i == 0;
      false
    else
      var b := Includes(hay[1..], needle);
      assert forall i :: 0 <= i ==> (OccursAt(hay[1..], needle, i) <==> OccursAt(hay, needle, i + 1));
      assert forall i :: OccursAt(hay, needle, i) ==> i > 0 && OccursAt(hay[1..], needle, i - 1);
      b
  }

  /** The search's filter callback for one query: a product matches when its
      lower-cased name contains the lower-cased query. */
  function MatchesName(query: string): (test: Product -> bool)
    ensures forall p :: test(p) <==> exists i :: OccursAt(Lower(p.name), Lower(query), i)
  {
    (p: Product) => Includes(Lower(p.name), Lower(query))
  }

  /** The search handler: a missing or empty `query` is answered with 400;
      otherwise the answer lists, in store order, the products whose name
      contains the query regardless of case. */
  function Search(ps: seq<Product>, query: Option<string>): (r: Response)
    ensures query.None? || query.value == "" ==> r == Respond(400, Message(QUERY_REQUIRED))
    ensures query.Some? && query.value != "" ==>
      r.Respond? && r.status == 200 && r.body.Items? &&
      r.body.products == Filter(ps, MatchesName(query.value)) &&
      (forall p :: p in r.body.products <==> p in ps && MatchesName(query.value)(p))
  {
    if query.None? || query.value == "" then
      Respond(400, Message(QUERY_REQUIRED))
    else
      Respond(200, Items(Filter(ps, MatchesName(query.value))))
  }

  /** The search ignores the case of the query: two queries that fold to
      the same lower-case text get the same answer, so in particular a query
      and its lower-cased form do. */
  lemma SearchIgnoresQueryCase(ps: seq<Product>, q1: string, q2: string)
    requires Lower(q1) == Lower(q2)
    ensures Search(ps, Some(q1)) == Search(ps, Some(q2))
    ensures Search(ps, Some(Lower(q1))) == Search(ps, Some(q1))
  {
    LowerIdempotent(q1);
    FilterSame(ps, MatchesName(q1), MatchesName(q2));
    FilterSame(ps, MatchesName(Lower(q1)), MatchesName(q1));
  }

  /** The query "phone" finds the product named "Smartphone". */
  lemma PhoneFindsSmartphone(p: Product)
    requires p.name == "Smartphone"
    ensures MatchesName("phone")(p)
  {
    assert Lower("phone") == "phone";
    assert Lower("Smartphone") == "smartphone";
    assert OccursAt("smartphone", "phone", 5);
  }

  // ----- Per-category counts -----

  /** One step of the `reduce`: `acc[c] = (acc[c] || 0) + 1`. */
  function Bump(acc: map<string, nat>, c: string): (r: map<string, nat>)
    ensures r.Keys == acc.Keys + {c}
    ensures r[c] == (if c in acc then acc[c] else 0) + 1
    ensures forall k :: k in acc && k != c ==> r[k] == acc[k]
  {
    acc[c := (if c in acc then acc[c] else 0) + 1]
  }

  /** The `reduce` over the store from a given accumulator. */
  function CountInto(acc: map<string, nat>, ps: seq<Product>): (r: map<string, nat>)
    ensures acc.Keys <= r.Keys
    ensures forall k :: k in acc ==> acc[k] <= r[k]
    ensures forall k :: k in r && k !in acc ==> r[k] >= 1
    ensures forall i :: 0 <= i < |ps| ==> ps[i].category in r
    decreases |ps|
  {
    if ps == [] then acc else CountInto(Bump(acc, ps[0].category), ps[1..])
  }

  /** The stats handler's result: the `reduce` from the empty object. */
  function Stats(ps: seq<Product>): (r: map<string, nat>)
    ensures forall c :: c in r ==> r[c] >= 1
    ensures forall i :: 0 <= i < |ps| ==> ps[i].category in r
  {
    CountInto(map[], ps)
  }

  /** The stats handler. */
  function StatsHandler(ps: seq<Product>): (r: Response)
    ensures r.Respond? && r.status == 200 && r.body.Counts?
    ensures r.body.stats.Keys == Categories(ps)
    ensures forall c :: c in r.body.stats ==> r.body.stats[c] == |FilterByCategory(ps, c)| >= 1
    ensures Total(r.body.stats) == |ps|
  {
    StatsCounts(ps);
    StatsTotal(ps);
    Respond(200, Counts(Stats(ps)))
  }

  function Categories(ps: seq<Product>): set<string> {
    set p | p in ps :: p.category
  }

  /** One step of the fold, seen through one category: the products of
      category c in the store are the first product when it is of c, then
      those of the rest. */
  lemma FilterByCategoryStep(ps: seq<Product>, c: string)
    requires ps != []
    ensures |FilterByCategory(ps, c)| ==
            (if ps[0].category == c then 1 else 0) + |FilterByCategory(ps[1..], c)|
    ensures Categories(ps) == {ps[0].category} + Categories(ps[1..])
  {
    assert InCategory(c)(ps[0]) == (ps[0].category == c);
    assert ps == [ps[0]] + ps[1..];
    forall x | x in Categories(ps) ensures x in {ps[0].category} + Categories(ps[1..]) {
      var p :| p in ps && p.category == x;
      if p != ps[0] {
        assert p in ps[1..];
      }
    }
  }

  /** The fold counts into the accumulator: a category is a key afterwards
      exactly when it was one before or some product has it, and its count is
      what the accumulator had plus the number of products of that category. */
  lemma {:induction false} CountIntoAt(acc: map<string, nat>, ps: seq<Product>, c: string)
    ensures c in CountInto(acc, ps) <==> c in acc || c in Categories(ps)
    ensures c in CountInto(acc, ps) ==>
      CountInto(acc, ps)[c] == (if c in acc then acc[c] else 0) + |FilterByCategory(ps, c)|
    decreases |ps|
  {
    if ps == [] {
      assert Categories(ps) == {};
    } else {
      FilterByCategoryStep(ps, c);
      CountIntoAt(Bump(acc, ps[0].category), ps[1..], c);
    }
  }

  /** The stats object has exactly the categories present in the store as
      keys, and each maps to the number of products of that category, which
      is at least one. */
  lemma StatsCounts(ps: seq<Product>)
    ensures Stats(ps).Keys == Categories(ps)
    ensures forall c :: c in Stats(ps) ==> Stats(ps)[c] == |FilterByCategory(ps, c)| >= 1
  {
    forall c ensures c in Stats(ps) <==> c in Categories(ps) {
      CountIntoAt(map[], ps, c);
    }
    forall c | c in Stats(ps) ensures Stats(ps)[c] == |FilterByCategory(ps, c)| >= 1 {
      CountIntoAt(map[], ps, c);
      var p :| p in ps && p.category == c;
      assert p in FilterByCategory(ps, c);
    }
  }

  /** The sum of the values of a map. */
  ghost function Total(m: map<string, nat>): nat
    decreases |m|
  {
    if m == map[] then 0
    else
      var k :| k in m;
      m[k] + Total(m - {k})
  }

  /** The sum does not depend on which key is taken out first. */
  lemma {:induction false} TotalWithout(m: map<string, nat>, k: string)
    requires k in m
    ensures Total(m) == m[k] + Total(m - {k})
    decreases |m|
  {
    var j :| j in m && Total(m) == m[j] + Total(m - {j});
    if j != k {
      var mj, mk := m - {j}, m - {k};
      assert mj - {k} == mk - {j};
      TotalWithout(mj, k);
      TotalWithout(mk, j);
    }
  }

  /** Counting one more product of a category adds one to the sum. */
  lemma TotalBump(acc: map<string, nat>, c: string)
    ensures Total(Bump(acc, c)) == Total(acc) + 1
  {
    var b := Bump(acc, c);
    TotalWithout(b, c);
    assert b - {c} == acc - {c};
    if c in acc {
      TotalWithout(acc, c);
    } else {
      assert acc - {c} == acc;
    }
  }

  lemma {:induction false} TotalCountInto(acc: map<string, nat>, ps: seq<Product>)
    ensures Total(CountInto(acc, ps)) == Total(acc) + |ps|
    decreases |ps|
  {
    if ps != [] {
      TotalBump(acc, ps[0].category);
      TotalCountInto(Bump(acc, ps[0].category), ps[1..]);
    }
  }

  /** The counts of the stats object add up to the number of products. */
  lemma StatsTotal(ps: seq<Product>)
    ensures Total(Stats(ps)) == |ps|
  {
    TotalCountInto(map[], ps);
  }

  /** On the three products the service starts with, the stats are two
      electronics products and one kitchen product. */
  lemma SeedStats(laptopId: Id, phoneId: Id, coffeeId: Id)
    ensures Stats(Seed(laptopId, phoneId, coffeeId)) == map["electronics" := 2, "kitchen" := 1]
  {
    var ps := Seed(laptopId, phoneId, coffeeId);
    var one := map["electronics" := 1];
    var two := map["electronics" := 2];
    var three := map["electronics" := 2, "kitchen" := 1];
    assert Bump(map[], "electronics") == one;
    assert Bump(one, "electronics") == two;
    assert Bump(two, "kitchen") == three;
    calc {
      Stats(ps);
      CountInto(one, ps[1..]);
      { assert ps[1..][0].category == "electronics" && ps[1..][1..] == ps[2..]; }
      CountInto(two, ps[2..]);
      { assert ps[2..][0].category == "kitchen" && ps[2..][1..] == []; }
      CountInto(three, []);
    }
  }
}
