/** The filter panel's state edits: each handler builds a new filter object (or a
    new list of expanded sections) from the current one. */
module FilterPanel {
  import opened Seqs
  import opened CatalogTypes
  import opened FilterApply

  /** Adds `x` at the end when absent, otherwise drops every occurrence of it. */
  function Toggle(list: seq<string>, x: string): (r: seq<string>)
    ensures x in r <==> x !in list
    ensures forall y :: y != x ==> (y in r <==> y in list)
  {
    var r := if x in list then Without(list, x) else list + [x];
    assert forall y :: y in r <==> (y in list && y != x) || (x !in list && y in list + [x]) by {
      forall y ensures y in r <==> (y in list && y != x) || (x !in list && y in list + [x]) {
        WithoutMembers(list, x, y);
      }
    }
    r
  }

  /** Toggling an absent value appends it at the end. */
  lemma ToggleAbsentAppends(list: seq<string>, x: string)
    requires x !in list
    ensures Toggle(list, x)[..|list|] == list
    ensures |Toggle(list, x)| == |list| + 1 && Toggle(list, x)[|list|] == x
  {
  }

  /** Toggling a present value removes every occurrence and keeps the rest, with
      their multiplicities, in their relative order. */
  lemma TogglePresentRemoves(list: seq<string>, x: string)
    requires x in list
    ensures IsSubsequence(Toggle(list, x), list)
    ensures multiset(Toggle(list, x)) == multiset(list)[x := 0]
  {
    WithoutIsSubsequence(list, x);
    WithoutMultiset(list, x);
  }

  /** Toggling an absent value twice restores the list. */
  lemma ToggleTwiceRestores(list: seq<string>, x: string)
    requires x !in list
    ensures Toggle(Toggle(list, x), x) == list
  {
    WithoutAppend(list, [x], x);
    assert Without([x], x) == [] by {
      WithoutIsSubsequence([x], x);
      SubsequenceLength(Without([x], x), [x]);
      WithoutMembers([x], x, x);
    }
    WithoutAbsent(list, x);
  }

  /** The sections open when the panel first renders. */
  const InitialSections: seq<string> := ["price", "size", "color", "availability"]

  /** Every section starts expanded, so the first click on any header of the panel
      collapses that section and leaves the other three expanded. */
  lemma FirstClickCollapses(section: string)
    requires section in InitialSections
    ensures section !in ToggleSection(InitialSections, section)
    ensures forall s :: s in InitialSections && s != section ==> s in ToggleSection(InitialSections, section)
  {
  }

  /** `toggleSection`: opens a closed section at the end, closes an open one. */
  function ToggleSection(expanded: seq<string>, section: string): (r: seq<string>)
    ensures section in r <==> section !in expanded
    ensures forall s :: s != section ==> (s in r <==> s in expanded)
  {
    Toggle(expanded, section)
  }

  /** `currentPriceRange`: each set bound, otherwise the facet's bound. */
  function CurrentPriceRange(available: AvailableFilters, active: ActiveFilters): (r: (int, int))
    ensures active.priceMin.Some? ==> r.0 == active.priceMin.value
    ensures active.priceMin.None? ==> r.0 == available.price.min
    ensures active.priceMax.Some? ==> r.1 == active.priceMax.value
    ensures active.priceMax.None? ==> r.1 == available.price.max
  {
    (active.priceMin.GetOr(available.price.min), active.priceMax.GetOr(available.price.max))
  }

  /** `updatePrice`: sets both bounds and nothing else. */
  function UpdatePrice(a: ActiveFilters, min: int, max: int): (r: ActiveFilters)
    ensures r.priceMin == Some(min) && r.priceMax == Some(max)
    ensures r.sizes == a.sizes && r.colors == a.colors && r.inStockOnly == a.inStockOnly
  {
    a.(priceMin := Some(min), priceMax := Some(max))
  }

  /** `toggleSize`: flips one size in the selection (an absent selection counts as
      empty) and changes nothing else. */
  function ToggleSize(a: ActiveFilters, size: string): (r: ActiveFilters)
    ensures r.sizes.Some?
    ensures size in r.sizes.value <==> size !in a.sizes.GetOr([])
    ensures forall s :: s != size ==> (s in r.sizes.value <==> s in a.sizes.GetOr([]))
    ensures r.priceMin == a.priceMin && r.priceMax == a.priceMax
    ensures r.colors == a.colors && r.inStockOnly == a.inStockOnly
  {
    a.(sizes := Some(Toggle(a.sizes.GetOr([]), size)))
  }

  /** `toggleColor`: flips one hex in the selection and changes nothing else. */
  function ToggleColor(a: ActiveFilters, hex: string): (r: ActiveFilters)
    ensures r.colors.Some?
    ensures hex in r.colors.value <==> hex !in a.colors.GetOr([])
    ensures forall h :: h != hex ==> (h in r.colors.value <==> h in a.colors.GetOr([]))
    ensures r.priceMin == a.priceMin && r.priceMax == a.priceMax
    ensures r.sizes == a.sizes && r.inStockOnly == a.inStockOnly
  {
    a.(colors := Some(Toggle(a.colors.GetOr([]), hex)))
  }

  /** `toggleStock`: records the checkbox and changes nothing else. */
  function ToggleStock(a: ActiveFilters, checked: bool): (r: ActiveFilters)
    ensures r.inStockOnly == Some(checked)
    ensures r.priceMin == a.priceMin && r.priceMax == a.priceMax
    ensures r.sizes == a.sizes && r.colors == a.colors
  {
    a.(inStockOnly := Some(checked))
  }

  /** `clearFilters`: the empty filter object, which keeps every product. */
  function ClearFilters(): (r: ActiveFilters)
    ensures forall ps :: ApplyFilters(ps, r) == ps
  {
    forall ps ensures ApplyFilters(ps, NoFilters) == ps {
      NoFiltersKeepsAll(ps);
    }
    NoFilters
  }

  /** Selecting a size the selection lacks and then deselecting it leaves the
      displayed products as they were. */
  lemma ToggleSizeTwiceFiltersAlike(ps: seq<Product>, a: ActiveFilters, size: string)
    requires size !in a.sizes.GetOr([])
    ensures ApplyFilters(ps, ToggleSize(ToggleSize(a, size), size)) == ApplyFilters(ps, a)
  {
    ToggleTwiceRestores(a.sizes.GetOr([]), size);
    if a.sizes.None? {
      EmptySelectionsAreAbsent(ps, a);
    } else {
      assert ToggleSize(ToggleSize(a, size), size) == a;
    }
  }

  /** Selecting a hex the selection lacks and then deselecting it leaves the
      displayed products as they were. */
  lemma ToggleColorTwiceFiltersAlike(ps: seq<Product>, a: ActiveFilters, hex: string)
    requires hex !in a.colors.GetOr([])
    ensures ApplyFilters(ps, ToggleColor(ToggleColor(a, hex), hex)) == ApplyFilters(ps, a)
  {
    ToggleTwiceRestores(a.colors.GetOr([]), hex);
    if a.colors.None? {
      EmptySelectionsAreAbsent(ps, a);
    } else {
      assert ToggleColor(ToggleColor(a, hex), hex) == a;
    }
  }
}
