/** The collection page's derived state: the filtered and searched product list, the
    state the page starts from, and the result count label. */
module CollectionPage {
  import opened Seqs
  import opened Ascii
  import opened CatalogTypes
  import opened Facets
  import opened FilterApply

  /** The name matches the query ignoring ASCII case. */
  predicate NameMatches(p: Product, query: string)
  {
    Contains(Lower(p.name), Lower(query))
  }

  /** `filteredProducts`: the filters first, then, for a non-empty query, the products
      whose name contains it. */
  function FilteredProducts(ps: seq<Product>, active: ActiveFilters, query: string): (r: seq<Product>)
    ensures IsSubsequence(r, ps) && |r| <= |ps|
    ensures forall p :: p in r <==> p in ps && Satisfies(p, active) && (query == "" || NameMatches(p, query))
    ensures forall p ::
      multiset(r)[p] == (if Satisfies(p, active) && (query == "" || NameMatches(p, query)) then multiset(ps)[p] else 0)
  {
    var filtered := ApplyFilters(ps, active);
    if query == "" then filtered
    else
      var keep := (p: Product) => NameMatches(p, query);
      var r := Filter(filtered, keep);
      FilterIsSubsequence(filtered, keep);
      SubsequenceTransitive(r, filtered, ps);
      SubsequenceLength(r, ps);
      forall p ensures p in r <==> p in ps && Satisfies(p, active) && NameMatches(p, query) {
        FilterMembers(filtered, keep, p);
      }
      forall p ensures multiset(r)[p] == if Satisfies(p, active) && NameMatches(p, query) then multiset(ps)[p] else 0 {
        FilterCount(filtered, keep, p);
      }
      r
  }

  /** Without a query the page shows exactly the filtered products. */
  lemma EmptyQueryIsFilterOnly(ps: seq<Product>, active: ActiveFilters)
    ensures FilteredProducts(ps, active, "") == ApplyFilters(ps, active)
  {
  }

  /** With a query the page shows, in order, every occurrence of a filtered product
      whose name matches, and nothing else. */
  lemma QueryRefinesFilter(ps: seq<Product>, active: ActiveFilters, query: string)
    requires query != ""
    ensures IsSubsequence(FilteredProducts(ps, active, query), ApplyFilters(ps, active))
    ensures forall i :: 0 <= i < |FilteredProducts(ps, active, query)| ==>
      NameMatches(FilteredProducts(ps, active, query)[i], query)
    ensures forall p ::
      multiset(FilteredProducts(ps, active, query))[p] == (if NameMatches(p, query) then multiset(ApplyFilters(ps, active))[p] else 0)
  {
    var keep := (p: Product) => NameMatches(p, query);
    FilterIsSubsequence(ApplyFilters(ps, active), keep);
    FilterAllKept(ApplyFilters(ps, active), keep);
    forall p ensures multiset(FilteredProducts(ps, active, query))[p] ==
      (if NameMatches(p, query) then multiset(ApplyFilters(ps, active))[p] else 0)
    {
      FilterCount(ApplyFilters(ps, active), keep, p);
    }
  }

  /** Queries that differ only in ASCII case show the same products. */
  lemma SearchIgnoresCase(ps: seq<Product>, active: ActiveFilters, q1: string, q2: string)
    requires Lower(q1) == Lower(q2)
    ensures FilteredProducts(ps, active, q1) == FilteredProducts(ps, active, q2)
  {
    assert |q1| == |Lower(q1)| == |Lower(q2)| == |q2|;
    if q1 != "" {
      var f := ApplyFilters(ps, active);
      FilterCongruent(f, (p: Product) => NameMatches(p, q1), (p: Product) => NameMatches(p, q2));
    }
  }

  /** The number the page reports. */
  function ResultCount(ps: seq<Product>, active: ActiveFilters, query: string): (n: nat)
    ensures n <= |ps|
    ensures n == |FilteredProducts(ps, active, query)|
  {
    |FilteredProducts(ps, active, query)|
  }

  /** The suffix after "product" in the count label. */
  function PluralSuffix(count: nat): (s: string)
    ensures s == "s" <==> count != 1
    ensures s == "" <==> count == 1
  {
    if count != 1 then "s" else ""
  }

  /** The facets the page shows before any products arrive. */
  const InitialAvailableFilters: AvailableFilters :=
    AvailableFilters(PriceRange(0, 1000), [], [], false)

  /** The filter state the page starts from, and returns to on a collection change: `{}`. */
  const InitialActiveFilters: ActiveFilters := NoFilters

  /** The starting facets are the facets of no products. */
  lemma InitialFacetsOfNoProducts()
    ensures InitialAvailableFilters == AvailableFiltersOf([])
  {
  }

  /** From the starting state the page shows every product it has, in order. */
  lemma InitialStateShowsAll(ps: seq<Product>)
    ensures FilteredProducts(ps, InitialActiveFilters, "") == ps
  {
    NoFiltersKeepsAll(ps);
  }
}
