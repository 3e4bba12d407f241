/** Filter application: the products that pass every active constraint, in their
    original order (`applyFilters`). */
module FilterApply {
  import opened Seqs
  import opened CatalogTypes

  /** The per-product test, as the source writes it: a chain of early rejections. */
  predicate Matches(p: Product, a: ActiveFilters)
  {
    if a.priceMin.Some? && p.price < a.priceMin.value then false
    else if a.priceMax.Some? && p.price > a.priceMax.value then false
    else if a.sizes.Some? && |a.sizes.value| > 0 &&
      !(exists s :: s in p.sizes && s in a.sizes.value) then false
    else if a.colors.Some? && |a.colors.value| > 0 &&
      !(exists c :: c in p.colors && c.hex in a.colors.value) then false
    else if a.inStockOnly == Some(true) && !p.inStock then false
    else true
  }

  // The constraints one dimension at a time, stated independently of the test above.

  /** Inclusive price bounds, each only when it is set. */
  predicate WithinPrice(p: Product, a: ActiveFilters)
  {
    (a.priceMin.None? || a.priceMin.value <= p.price) &&
    (a.priceMax.None? || p.price <= a.priceMax.value)
  }

  /** A non-empty size selection is met by any one shared size. */
  predicate SizeSelected(p: Product, a: ActiveFilters)
  {
    a.sizes.GetOr([]) == [] || exists i :: 0 <= i < |p.sizes| && p.sizes[i] in a.sizes.value
  }

  /** A non-empty colour selection is met by any one shared hex. */
  predicate ColorSelected(p: Product, a: ActiveFilters)
  {
    a.colors.GetOr([]) == [] || exists i :: 0 <= i < |p.colors| && p.colors[i].hex in a.colors.value
  }

  predicate StockSelected(p: Product, a: ActiveFilters)
  {
    a.inStockOnly != Some(true) || p.inStock
  }

  /** All constraints together: AND across dimensions, OR inside a selection. */
  predicate Satisfies(p: Product, a: ActiveFilters)
  {
    WithinPrice(p, a) && SizeSelected(p, a) && ColorSelected(p, a) && StockSelected(p, a)
  }

  /** The early-rejection chain accepts exactly the products meeting every constraint. */
  lemma MatchesIffSatisfies(p: Product, a: ActiveFilters)
    ensures Matches(p, a) <==> Satisfies(p, a)
  {
    if a.sizes.Some? && |a.sizes.value| > 0 {
      if exists s :: s in p.sizes && s in a.sizes.value {
        var s :| s in p.sizes && s in a.sizes.value;
        var i :| 0 <= i < |p.sizes| && p.sizes[i] == s;
      }
    }
    if a.colors.Some? && |a.colors.value| > 0 {
      if exists c :: c in p.colors && c.hex in a.colors.value {
        var c :| c in p.colors && c.hex in a.colors.value;
        var i :| 0 <= i < |p.colors| && p.colors[i] == c;
      }
    }
  }

  /** `applyFilters`: the products the test accepts, in order. The result is a
      subsequence of the input and holds every occurrence of each input meeting every
      constraint, and nothing else. */
  function ApplyFilters(ps: seq<Product>, a: ActiveFilters): (r: seq<Product>)
    ensures IsSubsequence(r, ps) && |r| <= |ps|
    ensures forall p :: p in r <==> p in ps && Satisfies(p, a)
    ensures forall i :: 0 <= i < |r| ==> Satisfies(r[i], a)
    ensures forall p {:trigger multiset(r)[p]} :: multiset(r)[p] == if Satisfies(p, a) then multiset(ps)[p] else 0
  {
    var keep := (p: Product) => Matches(p, a);
    assert forall p :: keep(p) == Satisfies(p, a) by {
      forall p ensures keep(p) == Satisfies(p, a) {
        MatchesIffSatisfies(p, a);
      }
    }
    FilterBySatisfies(ps, a, keep);
    Filter(ps, keep)
  }

  /** Filtering with any test that agrees with `Satisfies` keeps exactly the products
      meeting every constraint, each as often as it occurs. */
  lemma FilterBySatisfies(ps: seq<Product>, a: ActiveFilters, keep: Product -> bool)
    requires forall p :: keep(p) == Satisfies(p, a)
    ensures IsSubsequence(Filter(ps, keep), ps) && |Filter(ps, keep)| <= |ps|
    ensures forall p :: p in Filter(ps, keep) <==> p in ps && Satisfies(p, a)
    ensures forall i :: 0 <= i < |Filter(ps, keep)| ==> Satisfies(Filter(ps, keep)[i], a)
    ensures forall p {:trigger multiset(Filter(ps, keep))[p]} ::
      multiset(Filter(ps, keep))[p] == if Satisfies(p, a) then multiset(ps)[p] else 0
  {
    var r := Filter(ps, keep);
    FilterIsSubsequence(ps, keep);
    FilterAllKept(ps, keep);
    forall p ensures p in r <==> p in ps && Satisfies(p, a) {
      FilterMembers(ps, keep, p);
    }
    forall p ensures multiset(r)[p] == if Satisfies(p, a) then multiset(ps)[p] else 0 {
      FilterCount(ps, keep, p);
    }
  }

  /** The products are tested one at a time, front to back. */
  lemma ApplyFiltersFront(ps: seq<Product>, a: ActiveFilters)
    requires ps != []
    ensures ApplyFilters(ps, a) == (if Matches(ps[0], a) then [ps[0]] else []) + ApplyFilters(ps[1..], a)
  {
  }

  /** With no constraints every product is kept, in order. */
  lemma NoFiltersKeepsAll(ps: seq<Product>)
    ensures ApplyFilters(ps, NoFilters) == ps
  {
    FilterKeepsAll(ps, (p: Product) => Matches(p, NoFilters));
  }

  /** Two filter objects that accept the same products give the same result. */
  lemma SameTestSameResult(ps: seq<Product>, a: ActiveFilters, b: ActiveFilters)
    requires forall p :: Satisfies(p, a) <==> Satisfies(p, b)
    ensures ApplyFilters(ps, a) == ApplyFilters(ps, b)
  {
    forall i | 0 <= i < |ps| ensures Matches(ps[i], a) == Matches(ps[i], b) {
      MatchesIffSatisfies(ps[i], a);
      MatchesIffSatisfies(ps[i], b);
    }
    FilterCongruent(ps, (p: Product) => Matches(p, a), (p: Product) => Matches(p, b));
  }

  /** An empty size or colour list filters exactly like an absent one, and so does
      `inStockOnly: false`. */
  lemma EmptySelectionsAreAbsent(ps: seq<Product>, a: ActiveFilters)
    ensures ApplyFilters(ps, a.(sizes := Some([]))) == ApplyFilters(ps, a.(sizes := None))
    ensures ApplyFilters(ps, a.(colors := Some([]))) == ApplyFilters(ps, a.(colors := None))
    ensures ApplyFilters(ps, a.(inStockOnly := Some(false))) == ApplyFilters(ps, a.(inStockOnly := None))
  {
    EmptySizesAreAbsent(ps, a);
    EmptyColorsAreAbsent(ps, a);
    FalseStockIsAbsent(ps, a);
  }

  lemma EmptySizesAreAbsent(ps: seq<Product>, a: ActiveFilters)
    ensures ApplyFilters(ps, a.(sizes := Some([]))) == ApplyFilters(ps, a.(sizes := None))
  {
    SameTestSameResult(ps, a.(sizes := Some([])), a.(sizes := None));
  }

  lemma EmptyColorsAreAbsent(ps: seq<Product>, a: ActiveFilters)
    ensures ApplyFilters(ps, a.(colors := Some([]))) == ApplyFilters(ps, a.(colors := None))
  {
    SameTestSameResult(ps, a.(colors := Some([])), a.(colors := None));
  }

  lemma FalseStockIsAbsent(ps: seq<Product>, a: ActiveFilters)
    ensures ApplyFilters(ps, a.(inStockOnly := Some(false))) == ApplyFilters(ps, a.(inStockOnly := None))
  {
    SameTestSameResult(ps, a.(inStockOnly := Some(false)), a.(inStockOnly := None));
  }

  /** Applying the same filters twice is applying them once. */
  lemma ApplyFiltersIdempotent(ps: seq<Product>, a: ActiveFilters)
    ensures ApplyFilters(ApplyFilters(ps, a), a) == ApplyFilters(ps, a)
  {
    FilterIdempotent(ps, (p: Product) => Matches(p, a));
  }
}
