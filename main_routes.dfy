/** The public listing pages (app/routes/main.py): the paginated index of
    available apartments and the search form's chain of filters. The
    apartment table is a sequence in insertion order; a query without
    `ORDER BY` is taken to return rows in that order. */
module MainRoutes {
  import opened Wrappers
  import opened Text
  import opened ApartmentModel

  /** The rows of `s` satisfying `p`, in order: one `.filter(...)` of a query. */
  function Filter(s: seq<Apartment>, p: Apartment -> bool): (r: seq<Apartment>)
    ensures |r| <= |s|
    ensures forall a :: a in r <==> a in s && p(a)
  {
    if s == [] then []
    else (if p(s[0]) then [s[0]] else []) + Filter(s[1..], p)
  }

  /** Filtering by predicates that agree on every row gives the same rows. */
  lemma {:induction false} FilterAgrees(s: seq<Apartment>, p: Apartment -> bool, q: Apartment -> bool)
    requires forall a :: p(a) == q(a)
    ensures Filter(s, p) == Filter(s, q)
  {
    if s != [] {
      FilterAgrees(s[1..], p, q);
    }
  }

  /** Two filters in a row are one filter by their conjunction. */
  lemma {:induction false} FilterTwice(s: seq<Apartment>, p: Apartment -> bool, q: Apartment -> bool,
                                       pq: Apartment -> bool)
    requires forall a :: pq(a) == (p(a) && q(a))
    ensures Filter(Filter(s, p), q) == Filter(s, pq)
  {
    if s != [] {
      FilterTwice(s[1..], p, q, pq);
      var t := Filter(s[1..], p);
      if p(s[0]) {
        assert Filter(s, p) == [s[0]] + t;
        assert ([s[0]] + t)[1..] == t;
      } else {
        assert Filter(s, p) == t;
      }
    }
  }

  /** A filter applied only when its form field was filled in: the same as
      one filter whose condition holds trivially when the field was empty. */
  lemma {:induction false} OptionalFilter(s: seq<Apartment>, p: Apartment -> bool, given: bool,
                                          q: Apartment -> bool, pq: Apartment -> bool)
    requires forall a :: pq(a) == (p(a) && (!given || q(a)))
    ensures (if given then Filter(Filter(s, p), q) else Filter(s, p)) == Filter(s, pq)
  {
    if given {
      FilterTwice(s, p, q, pq);
    } else {
      FilterAgrees(s, p, pq);
    }
  }

  /** `Apartment.query.filter_by(is_available=True)`. */
  function Available(apartments: seq<Apartment>): (r: seq<Apartment>)
    ensures forall a :: a in r <==> a in apartments && a.isAvailable
  {
    Filter(apartments, (a: Apartment) => a.isAvailable)
  }

  // ---- the index page ----

  /** `per_page=9` (the same number as the configuration's `POSTS_PER_PAGE`). */
  const PageSize := 9

  /** The page `paginate(..., error_out=False)` serves: a missing or
      non-numeric `page` argument is page 1, and so is any page below 1. */
  function PageNumber(pageArg: Option<int>): (p: int)
    ensures p >= 1
    ensures pageArg.Some? && pageArg.value >= 1 ==> p == pageArg.value
  {
    if pageArg.None? || pageArg.value < 1 then 1 else pageArg.value
  }

  /** Rows `lo` up to `lo + PageSize` of `av`, or none when `lo` is past the end. */
  function PageSlice(av: seq<Apartment>, lo: int): (r: seq<Apartment>)
    requires lo >= 0
    ensures |r| <= PageSize
    ensures forall i :: 0 <= i < |r| ==> lo + i < |av| && r[i] == av[lo + i]
    ensures lo + PageSize <= |av| ==> |r| == PageSize
  {
    if lo >= |av| then []
    else if lo + PageSize < |av| then av[lo..lo + PageSize]
    else av[lo..]
  }

  /** The apartments listed on the index page: the available ones, nine to
      a page; a page past the end is empty. */
  function IndexPage(apartments: seq<Apartment>, pageArg: Option<int>): (r: seq<Apartment>)
    ensures |r| <= PageSize
    ensures forall a :: a in r ==> a in apartments && a.isAvailable
  {
    var av := Available(apartments);
    var r := PageSlice(av, (PageNumber(pageArg) - 1) * PageSize);
    assert forall a :: a in r ==> a in av;
    r
  }

  /** The `k`-th available apartment is shown at position `k % 9` of page
      `k / 9 + 1`, so paging through the index shows every available
      apartment, each on exactly one page. */
  lemma {:induction false} IndexPageShows(apartments: seq<Apartment>, k: int)
    requires 0 <= k < |Available(apartments)|
    ensures k % PageSize < |IndexPage(apartments, Some(k / PageSize + 1))|
    ensures IndexPage(apartments, Some(k / PageSize + 1))[k % PageSize] == Available(apartments)[k]
  {
    var av := Available(apartments);
    var q, m := k / 9, k % 9;
    assert k == 9 * q + m && 0 <= m < 9 && q >= 0;
    var r := PageSlice(av, 9 * q);
    assert IndexPage(apartments, Some(q + 1)) == r;
    if 9 * q + 9 <= |av| {
      assert |r| == 9;
    } else {
      assert |r| == |av| - 9 * q by {
        assert r == av[9 * q..];
      }
    }
  }

  /** A page is full unless it is the last one. */
  lemma {:induction false} IndexPageFull(apartments: seq<Apartment>, page: int)
    requires page >= 1 && page * PageSize <= |Available(apartments)|
    ensures |IndexPage(apartments, Some(page))| == PageSize
  {
    assert IndexPage(apartments, Some(page)) == PageSlice(Available(apartments), 9 * page - 9);
  }

  // ---- the search page ----

  /** The free-text condition: `q` occurs in the title, the description or
      the address. */
  predicate MatchesQuery(a: Apartment, query: string) {
    Contains(a.title, query) || Contains(a.description, query) || Contains(a.address, query)
  }

  /** `city ILIKE '%city%'`: the city contains the text, ignoring letter case. */
  predicate MatchesCity(a: Apartment, city: string) {
    Contains(Lower(a.city), Lower(city))
  }

  /** `price_per_month >= min_price` when a minimum was given. */
  predicate AtLeast(a: Apartment, minPrice: Option<real>) {
    minPrice.Some? ==> a.pricePerMonth >= minPrice.value
  }

  /** `price_per_month <= max_price` when a maximum was given. */
  predicate AtMost(a: Apartment, maxPrice: Option<real>) {
    maxPrice.Some? ==> a.pricePerMonth <= maxPrice.value
  }

  /** What a search result satisfies: available, and every filled-in
      criterion holds, both price bounds inclusive. */
  predicate SearchMatch(a: Apartment, query: string, city: string, minPrice: Option<real>, maxPrice: Option<real>) {
    && a.isAvailable
    && (query != "" ==> MatchesQuery(a, query))
    && (city != "" ==> MatchesCity(a, city))
    && AtLeast(a, minPrice)
    && AtMost(a, maxPrice)
  }

  /** The `/search` route's query: available apartments, narrowed by each
      criterion given, in this order. A price argument that is missing or
      does not parse as a float is `None`. */
  function Search(apartments: seq<Apartment>, query: string, city: string,
                  minPrice: Option<real>, maxPrice: Option<real>): seq<Apartment>
  {
    var s0 := Available(apartments);
    var s1 := if query != "" then Filter(s0, a => MatchesQuery(a, query)) else s0;
    var s2 := if city != "" then Filter(s1, a => MatchesCity(a, city)) else s1;
    var s3 := if minPrice.Some? then Filter(s2, a => AtLeast(a, minPrice)) else s2;
    if maxPrice.Some? then Filter(s3, a => AtMost(a, maxPrice)) else s3
  }

  /** The chain of filters is one filter by `SearchMatch`: same rows, same order. */
  lemma {:induction false} SearchIsOneFilter(apartments: seq<Apartment>, query: string, city: string,
                                             minPrice: Option<real>, maxPrice: Option<real>)
    ensures Search(apartments, query, city, minPrice, maxPrice)
            == Filter(apartments, a => SearchMatch(a, query, city, minPrice, maxPrice))
  {
    var avail := (a: Apartment) => a.isAvailable;
    var p1 := (a: Apartment) => a.isAvailable && (query != "" ==> MatchesQuery(a, query));
    var p2 := (a: Apartment) => p1(a) && (city != "" ==> MatchesCity(a, city));
    var p3 := (a: Apartment) => p2(a) && AtLeast(a, minPrice);
    var p4 := (a: Apartment) => SearchMatch(a, query, city, minPrice, maxPrice);
    OptionalFilter(apartments, avail, query != "", a => MatchesQuery(a, query), p1);
    var s1 := Filter(apartments, p1);
    OptionalFilter(apartments, p1, city != "", a => MatchesCity(a, city), p2);
    OptionalFilter(apartments, p2, minPrice.Some?, a => AtLeast(a, minPrice), p3);
    OptionalFilter(apartments, p3, maxPrice.Some?, a => AtMost(a, maxPrice), p4);
  }

  /** An apartment is in the results exactly when it is in the table and
      meets every criterion given. */
  lemma {:induction false} SearchMembers(apartments: seq<Apartment>, query: string, city: string,
                                         minPrice: Option<real>, maxPrice: Option<real>, a: Apartment)
    ensures a in Search(apartments, query, city, minPrice, maxPrice)
            <==> a in apartments && SearchMatch(a, query, city, minPrice, maxPrice)
  {
    SearchIsOneFilter(apartments, query, city, minPrice, maxPrice);
  }

  /** An empty form lists every available apartment, in table order. */
  lemma {:induction false} EmptySearchListsAvailable(apartments: seq<Apartment>)
    ensures Search(apartments, "", "", None, None) == Available(apartments)
  {
  }

  /** Adding a criterion only narrows: an apartment a search finds is still
      found when any one of its criteria is dropped. */
  lemma {:induction false} SearchNarrows(apartments: seq<Apartment>, query: string, city: string,
                                         minPrice: Option<real>, maxPrice: Option<real>, a: Apartment)
    requires a in Search(apartments, query, city, minPrice, maxPrice)
    ensures a in Search(apartments, "", city, minPrice, maxPrice)
    ensures a in Search(apartments, query, "", minPrice, maxPrice)
    ensures a in Search(apartments, query, city, None, maxPrice)
    ensures a in Search(apartments, query, city, minPrice, None)
  {
    SearchMembers(apartments, query, city, minPrice, maxPrice, a);
    SearchMembers(apartments, "", city, minPrice, maxPrice, a);
    SearchMembers(apartments, query, "", minPrice, maxPrice, a);
    SearchMembers(apartments, query, city, None, maxPrice, a);
    SearchMembers(apartments, query, city, minPrice, None, a);
  }
}
