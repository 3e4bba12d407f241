/** Worked examples: two products shaped like the black and pink abayas of the
    catalog, and the facets and filter results they give. */
module Scenarios {
  import opened Seqs
  import opened Ascii
  import opened CatalogTypes
  import opened Facets
  import opened FilterApply
  import opened ProductsData

  /** A product at 485 in the five canonical sizes and one colour of hex `#1a1a1a`,
      and one at 525 in S, M and L and one colour of hex `#FFC0CB`, both in stock. */
  predicate ExamplePair(p0: Product, p1: Product)
  {
    && p0.price == 485 && p0.sizes == ["XS", "S", "M", "L", "XL"]
    && |p0.colors| == 1 && p0.colors[0].hex == "#1a1a1a" && p0.inStock
    && p1.price == 525 && p1.sizes == ["S", "M", "L"]
    && |p1.colors| == 1 && p1.colors[0].hex == "#FFC0CB" && p1.inStock
  }

  /** The first two catalog products form such a pair. */
  lemma CatalogHasExamplePair()
    ensures ExamplePair(Products[0], Products[1])
  {
  }

  /** A price ceiling of 500 keeps only the first product. */
  lemma PriceCeilingScenario(p0: Product, p1: Product)
    requires ExamplePair(p0, p1)
    ensures ApplyFilters([p0, p1], NoFilters.(priceMax := Some(500))) == [p0]
  {
    var a := NoFilters.(priceMax := Some(500));
    var ps := [p0, p1];
    assert Matches(p0, a) && !Matches(p1, a);
    ApplyFiltersFront(ps, a);
    ApplyFiltersFront(ps[1..], a);
  }

  /** Selecting the hex `#FFC0CB` keeps only the second product. */
  lemma ColorScenario(p0: Product, p1: Product)
    requires ExamplePair(p0, p1)
    ensures ApplyFilters([p0, p1], NoFilters.(colors := Some(["#FFC0CB"]))) == [p1]
  {
    var a := NoFilters.(colors := Some(["#FFC0CB"]));
    assert "#1a1a1a" != "#FFC0CB" by {
      assert "#1a1a1a"[1] != "#FFC0CB"[1];
    }
    assert !Matches(p0, a);
    assert Matches(p1, a) by {
      assert p1.colors[0] in p1.colors && p1.colors[0].hex in a.colors.value;
    }
    var ps := [p0, p1];
    ApplyFiltersFront(ps, a);
    ApplyFiltersFront(ps[1..], a);
  }

  /** The stock filter drops exactly the out-of-stock product and keeps the order. */
  lemma StockScenario(p0: Product, p1: Product, p2: Product)
    requires p0.inStock && !p1.inStock && p2.inStock
    ensures ApplyFilters([p0, p1, p2], NoFilters.(inStockOnly := Some(true))) == [p0, p2]
  {
    var a := NoFilters.(inStockOnly := Some(true));
    var ps := [p0, p1, p2];
    assert Matches(p0, a) && !Matches(p1, a) && Matches(p2, a);
    ApplyFiltersFront(ps[1..][1..], a);
    assert ApplyFilters(ps[1..][1..], a) == [p2];
    ApplyFiltersFront(ps[1..], a);
    assert ApplyFilters(ps[1..], a) == [p2];
    ApplyFiltersFront(ps, a);
  }

  /** The price facet of the pair. */
  lemma PriceFacetScenario(p0: Product, p1: Product)
    requires ExamplePair(p0, p1)
    ensures PriceRangeOf([p0, p1]) == PriceRange(485, 525)
  {
    assert [p0, p1][1..] == [p1];
  }

  /** The sizes as the `Set` receives them: the first product's five, then nothing new. */
  lemma SizeSetScenario(p0: Product, p1: Product)
    requires ExamplePair(p0, p1)
    ensures FirstSeenSizes([p0, p1]) == ["XS", "S", "M", "L", "XL"]
  {
    var five: seq<string> := ["XS", "S", "M", "L", "XL"];
    var extra: seq<string> := ["S", "M", "L"];
    assert [p0, p1][..1] == [p0] && [p0][..0] == [];
    assert AllSizes([p0]) == AllSizes([]) + five;
    assert AllSizes([p0, p1]) == five + extra;
    assert NoDup(five);
    DedupOfNoDup(five);
    DedupAbsorbs(five, extra);
  }

  /** The five catalog sizes sit at their vocabulary positions. */
  lemma FivePositions(i: int)
    requires 0 <= i < 5
    ensures CanonicalIndex(["XS", "S", "M", "L", "XL"][i]) == i
  {
    var five: seq<string> := ["XS", "S", "M", "L", "XL"];
    assert five[i] == SizeOrder[i];
    CanonicalAt(five[i], i);
  }

  /** Five canonical sizes already in vocabulary order stay as they are. */
  lemma SortedSizesScenario()
    ensures SortSizes(["XS", "S", "M", "L", "XL"]) == ["XS", "S", "M", "L", "XL"]
  {
    var five: seq<string> := ["XS", "S", "M", "L", "XL"];
    forall i, j | 0 <= i < j < |five| ensures SizeCompare(five[j], five[i]) >= 0 {
      FivePositions(i);
      FivePositions(j);
    }
    SortByOrdered(five, SizeCompare);
  }

  /** One entry per hex, in first-seen order, captioned by the colour's name. */
  lemma ColorMapScenario(p0: Product, p1: Product)
    requires ExamplePair(p0, p1)
    ensures FirstSeenColors([p0, p1]) ==
      [ColorOption(p0.colors[0].name, "#1a1a1a"), ColorOption(p1.colors[0].name, "#FFC0CB")]
  {
    var c0, c1 := p0.colors[0], p1.colors[0];
    assert [p0, p1] == [p0] + [p1] && [p0] == [] + [p0];
    AllColorsSnoc([], p0);
    AllColorsSnoc([p0], p1);
    assert AllColors([p0, p1]) == [c0] + [c1];
    assert [c0] == [] + [c0];
    FirstByHexSnoc([], c0);
    FirstByHexSnoc([c0], c1);
    assert "#1a1a1a" != "#FFC0CB" by {
      assert "#1a1a1a"[1] != "#FFC0CB"[1];
    }
  }

  /** The facets of the pair: 485 to 525, the five sizes in vocabulary order, the
      two hexes in first-seen order, and stock. */
  lemma FacetsScenario(p0: Product, p1: Product)
    requires ExamplePair(p0, p1)
    ensures AvailableFiltersOf([p0, p1]) == AvailableFilters(
      PriceRange(485, 525),
      ["XS", "S", "M", "L", "XL"],
      [ColorOption(p0.colors[0].name, "#1a1a1a"), ColorOption(p1.colors[0].name, "#FFC0CB")],
      true)
  {
    SizeSetScenario(p0, p1);
    SortedSizesScenario();
    ColorMapScenario(p0, p1);
    PriceFacetScenario(p0, p1);
    assert [p0, p1][1..] == [p1];
  }
}
