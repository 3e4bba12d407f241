/** Facet computation: the price range, size list, colour list and stock flag that
    the filter panel offers for a list of products (`computeAvailableFilters`). */
module Facets {
  import opened Seqs
  import opened Ascii
  import opened CatalogTypes

  // ----- price range -----

  /** `Math.min` over the prices of a non-empty product list. */
  function MinPrice(ps: seq<Product>): (m: int)
    requires |ps| > 0
    ensures forall i :: 0 <= i < |ps| ==> m <= ps[i].price
    ensures exists i :: 0 <= i < |ps| && ps[i].price == m
  {
    if |ps| == 1 then ps[0].price
    else
      var rest := MinPrice(ps[1..]);
      assert forall i :: 1 <= i < |ps| ==> ps[i] == ps[1..][i - 1];
      if ps[0].price <= rest then ps[0].price else rest
  }

  /** `Math.max` over the prices of a non-empty product list. */
  function MaxPrice(ps: seq<Product>): (m: int)
    requires |ps| > 0
    ensures forall i :: 0 <= i < |ps| ==> ps[i].price <= m
    ensures exists i :: 0 <= i < |ps| && ps[i].price == m
  {
    if |ps| == 1 then ps[0].price
    else
      var rest := MaxPrice(ps[1..]);
      assert forall i :: 1 <= i < |ps| ==> ps[i] == ps[1..][i - 1];
      if ps[0].price >= rest then ps[0].price else rest
  }

  /** The price facet: the lowest and highest price, or 0 to 1000 for no products. */
  function PriceRangeOf(ps: seq<Product>): (r: PriceRange)
    ensures r.min <= r.max
    ensures |ps| == 0 ==> r == PriceRange(0, 1000)
    ensures |ps| > 0 ==> forall i :: 0 <= i < |ps| ==> r.min <= ps[i].price <= r.max
    ensures |ps| > 0 ==> exists i :: 0 <= i < |ps| && ps[i].price == r.min
    ensures |ps| > 0 ==> exists i :: 0 <= i < |ps| && ps[i].price == r.max
  {
    if |ps| == 0 then PriceRange(0, 1000)
    else PriceRange(MinPrice(ps), MaxPrice(ps))
  }

  // ----- sizes -----

  /** Every size of every product, product by product, duplicates included. */
  function AllSizes(ps: seq<Product>): seq<string>
  {
    if ps == [] then [] else AllSizes(ps[..|ps| - 1]) + ps[|ps| - 1].sizes
  }

  lemma AllSizesSnoc(ps: seq<Product>, p: Product)
    ensures AllSizes(ps + [p]) == AllSizes(ps) + p.sizes
  {
    assert (ps + [p])[..|ps|] == ps;
  }

  lemma {:induction false} AllSizesMembers(ps: seq<Product>, s: string)
    ensures s in AllSizes(ps) <==> exists i :: 0 <= i < |ps| && s in ps[i].sizes
  {
    if ps != [] {
      var init := ps[..|ps| - 1];
      AllSizesMembers(init, s);
      assert forall i :: 0 <= i < |init| ==> init[i] == ps[i];
    }
  }

  /** The sizes in the order a `Set` receives them: each once, where it first occurs. */
  function FirstSeenSizes(ps: seq<Product>): seq<string>
  {
    Dedup(AllSizes(ps))
  }

  /** What a first-seen size list promises: no repeats, exactly the sizes of the
      products, and the order of their first occurrences. */
  lemma FirstSeenSizesFacts(ps: seq<Product>)
    ensures NoDup(FirstSeenSizes(ps))
    ensures forall s :: s in FirstSeenSizes(ps) <==> exists i :: 0 <= i < |ps| && s in ps[i].sizes
    ensures forall i, j :: 0 <= i < j < |FirstSeenSizes(ps)| ==>
      FirstSeenSizes(ps)[i] in AllSizes(ps) && FirstSeenSizes(ps)[j] in AllSizes(ps) &&
      FirstIndex(AllSizes(ps), FirstSeenSizes(ps)[i]) < FirstIndex(AllSizes(ps), FirstSeenSizes(ps)[j])
  {
    DedupNoDup(AllSizes(ps));
    DedupMembers(AllSizes(ps));
    DedupFirstSeenOrder(AllSizes(ps));
    forall s ensures s in FirstSeenSizes(ps) <==> exists i :: 0 <= i < |ps| && s in ps[i].sizes {
      AllSizesMembers(ps, s);
    }
  }

  /** The canonical size vocabulary, smallest first. */
  const SizeOrder: seq<string> := ["XS", "S", "M", "L", "XL", "XXL", "ONE SIZE"]

  /** The position of a size in the vocabulary, ignoring ASCII case; -1 when it is not
      a canonical size. */
  function CanonicalIndex(a: string): (i: int)
    ensures -1 <= i < |SizeOrder|
    ensures i == -1 <==> Upper(a) !in SizeOrder
    ensures i >= 0 ==> SizeOrder[i] == Upper(a)
  {
    IndexOf(SizeOrder, Upper(a))
  }

  /** A vocabulary entry, met first at position `k`, sits at position `k`. */
  lemma CanonicalAt(a: string, k: int)
    requires 0 <= k < |SizeOrder| && SizeOrder[k] == a
    requires forall j :: 0 <= j < k ==> SizeOrder[j] != a
    requires forall i :: 0 <= i < |a| ==> !('a' <= a[i] <= 'z')
    ensures CanonicalIndex(a) == k
  {
    UpperIdentity(a);
    FirstIndexUnique(SizeOrder, a, k);
  }

  predicate IsCanonical(a: string)
  {
    CanonicalIndex(a) != -1
  }

  /** Lexicographic comparison by character code, standing in for `localeCompare`. */
  function LexCompare(a: string, b: string): (c: int)
    ensures -1 <= c <= 1
    ensures c == 0 <==> a == b
  {
    if a == [] && b == [] then 0
    else if a == [] then -1
    else if b == [] then 1
    else if a[0] < b[0] then -1
    else if a[0] > b[0] then 1
    else
      var c := LexCompare(a[1..], b[1..]);
      assert a == [a[0]] + a[1..] && b == [b[0]] + b[1..];
      c
  }

  /** Swapping the operands negates the comparison: an order, not just a test. */
  lemma {:induction false} LexCompareAntisymmetric(a: string, b: string)
    ensures LexCompare(b, a) == -LexCompare(a, b)
  {
    if a != [] && b != [] && a[0] == b[0] {
      LexCompareAntisymmetric(a[1..], b[1..]);
    }
  }

  /** The size comparator: canonical positions when both sizes are canonical,
      otherwise the lexicographic fallback. */
  function SizeCompare(a: string, b: string): (r: int)
    ensures IsCanonical(a) && IsCanonical(b) ==> (r < 0 <==> CanonicalIndex(a) < CanonicalIndex(b))
    ensures IsCanonical(a) && IsCanonical(b) ==> (r == 0 <==> Upper(a) == Upper(b))
    ensures !(IsCanonical(a) && IsCanonical(b)) ==> (r == 0 <==> a == b)
  {
    var ia := CanonicalIndex(a);
    var ib := CanonicalIndex(b);
    if ia != -1 && ib != -1 then ia - ib else LexCompare(a, b)
  }

  /** Swapping the operands negates the size comparison, in both of its branches. */
  lemma SizeCompareAntisymmetric(a: string, b: string)
    ensures SizeCompare(b, a) == -SizeCompare(a, b)
  {
    LexCompareAntisymmetric(a, b);
  }

  /** `Array.prototype.sort` with the size comparator. */
  function SortSizes(s: seq<string>): (r: seq<string>)
    ensures multiset(r) == multiset(s)
  {
    SortBy(s, SizeCompare)
  }

  /** Non-decreasing by position in the canonical vocabulary. */
  predicate SortedByCanonical(s: seq<string>)
  {
    SortedByKey(s, CanonicalIndex)
  }

  /** Sorting a duplicate-free size list keeps it duplicate-free. */
  lemma SortSizesNoDup(s: seq<string>)
    requires NoDup(s)
    ensures NoDup(SortSizes(s))
  {
    SortByNoDup(s, SizeCompare);
  }

  /** When every size is canonical, the sorted list follows the vocabulary order. */
  lemma SortSizesCanonical(s: seq<string>)
    requires forall i :: 0 <= i < |s| ==> IsCanonical(s[i])
    ensures SortedByCanonical(SortSizes(s))
  {
    forall a, b | a in s && b in s
      ensures SizeCompare(a, b) < 0 <==> CanonicalIndex(a) < CanonicalIndex(b)
    {
    }
    SortBySorted(s, SizeCompare, CanonicalIndex);
  }

  /** The comparator is not transitive once canonical and other labels mix:
      XS sorts before S, S before Small, and Small before XS. */
  lemma ComparatorCycle()
    ensures SizeCompare("XS", "S") < 0
    ensures SizeCompare("S", "Small") < 0
    ensures SizeCompare("Small", "XS") < 0
  {
    CanonicalAt("XS", 0);
    CanonicalAt("S", 1);
    SmallIsNotCanonical();
    assert LexCompare("S", "Small") == LexCompare("", "mall");
  }

  /** "Small" is no vocabulary entry in any case: none of them has five letters. */
  lemma SmallIsNotCanonical()
    ensures CanonicalIndex("Small") == -1
  {
    assert |Upper("Small")| == 5;
    assert forall i :: 0 <= i < |SizeOrder| ==> |SizeOrder[i]| != 5;
  }

  // ----- colours -----

  /** Every colour of every product, product by product, duplicates included. */
  function AllColors(ps: seq<Product>): seq<Color>
  {
    if ps == [] then [] else AllColors(ps[..|ps| - 1]) + ps[|ps| - 1].colors
  }

  lemma AllColorsSnoc(ps: seq<Product>, p: Product)
    ensures AllColors(ps + [p]) == AllColors(ps) + p.colors
  {
    assert (ps + [p])[..|ps|] == ps;
  }

  lemma {:induction false} AllColorsMembers(ps: seq<Product>, c: Color)
    ensures c in AllColors(ps) <==> exists i :: 0 <= i < |ps| && c in ps[i].colors
  {
    if ps != [] {
      var init := ps[..|ps| - 1];
      AllColorsMembers(init, c);
      assert forall i :: 0 <= i < |init| ==> init[i] == ps[i];
    }
  }

  function Hexes(cs: seq<Color>): (r: seq<string>)
    ensures |r| == |cs| && forall i :: 0 <= i < |cs| ==> r[i] == cs[i].hex
  {
    if cs == [] then [] else Hexes(cs[..|cs| - 1]) + [cs[|cs| - 1].hex]
  }

  /** The keys of the colour map's entries, in order. */
  function Values(os: seq<ColorOption>): (r: seq<string>)
    ensures |r| == |os| && forall i :: 0 <= i < |os| ==> r[i] == os[i].value
  {
    if os == [] then [] else Values(os[..|os| - 1]) + [os[|os| - 1].value]
  }

  /** The colour `Map` keyed by hex, in insertion order: a colour is entered only
      when its hex has not been seen, so the first name for a hex is kept. */
  function FirstByHex(cs: seq<Color>): seq<ColorOption>
  {
    if cs == [] then []
    else
      var d := FirstByHex(cs[..|cs| - 1]);
      var c := cs[|cs| - 1];
      if c.hex in Values(d) then d else d + [ColorOption(c.name, c.hex)]
  }

  lemma FirstByHexSnoc(cs: seq<Color>, c: Color)
    ensures FirstByHex(cs + [c]) ==
      if c.hex in Values(FirstByHex(cs)) then FirstByHex(cs) else FirstByHex(cs) + [ColorOption(c.name, c.hex)]
  {
    assert (cs + [c])[..|cs|] == cs;
  }

  /** `FirstByHex` of a growing prefix `before + cs[..j]`, one colour at a time. */
  lemma FirstByHexStep(before: seq<Color>, cs: seq<Color>, j: int)
    requires 0 <= j < |cs|
    ensures FirstByHex(before + cs[..j + 1]) ==
      if cs[j].hex in Values(FirstByHex(before + cs[..j])) then FirstByHex(before + cs[..j])
      else FirstByHex(before + cs[..j]) + [ColorOption(cs[j].name, cs[j].hex)]
  {
    assert cs[..j + 1] == cs[..j] + [cs[j]];
    assert before + cs[..j + 1] == (before + cs[..j]) + [cs[j]];
    FirstByHexSnoc(before + cs[..j], cs[j]);
  }

  /** The hex values of the colour facet are the hexes de-duplicated first-seen. */
  lemma {:induction false} FirstByHexValues(cs: seq<Color>)
    ensures Values(FirstByHex(cs)) == Dedup(Hexes(cs))
  {
    if cs != [] {
      var init := cs[..|cs| - 1];
      FirstByHexValues(init);
      assert Hexes(cs)[..|cs| - 1] == Hexes(init);
      var d := FirstByHex(init);
      var c := cs[|cs| - 1];
      if c.hex !in Values(d) {
        assert (d + [ColorOption(c.name, c.hex)])[..|d|] == d;
      }
    }
  }

  /** Each entry of the colour facet is captioned by the name of the first colour
      carrying its hex. */
  lemma {:induction false} FirstByHexCaption(cs: seq<Color>)
    ensures forall i :: 0 <= i < |FirstByHex(cs)| ==> FirstByHex(cs)[i].value in Hexes(cs)
    ensures forall i :: 0 <= i < |FirstByHex(cs)| ==>
      FirstByHex(cs)[i].caption == cs[FirstIndex(Hexes(cs), FirstByHex(cs)[i].value)].name
  {
    if cs != [] {
      var init, c := cs[..|cs| - 1], cs[|cs| - 1];
      FirstByHexCaption(init);
      FirstByHexValues(init);
      DedupMembers(Hexes(init));
      var d := FirstByHex(init);
      assert Hexes(cs) == Hexes(init) + [c.hex];
      forall i | 0 <= i < |FirstByHex(cs)|
        ensures FirstByHex(cs)[i].value in Hexes(cs)
        ensures FirstByHex(cs)[i].caption == cs[FirstIndex(Hexes(cs), FirstByHex(cs)[i].value)].name
      {
        if i < |d| {
          assert FirstByHex(cs)[i] == d[i];
          FirstIndexPrefix(Hexes(init), [c.hex], d[i].value);
          assert cs[FirstIndex(Hexes(init), d[i].value)] == init[FirstIndex(Hexes(init), d[i].value)];
        } else {
          assert FirstByHex(cs)[i] == ColorOption(c.name, c.hex);
          assert c.hex !in Values(d);
          assert c.hex !in Hexes(init);
          assert FirstIndex(Hexes(cs), c.hex) == |init|;
        }
      }
    }
  }

  /** The colour facet of a product list. */
  function FirstSeenColors(ps: seq<Product>): seq<ColorOption>
  {
    FirstByHex(AllColors(ps))
  }

  lemma HexesMembers(ps: seq<Product>, h: string)
    ensures h in Hexes(AllColors(ps)) <==>
      exists i, c :: 0 <= i < |ps| && c in ps[i].colors && c.hex == h
  {
    var all := AllColors(ps);
    if h in Hexes(all) {
      var k := FirstIndex(Hexes(all), h);
      AllColorsMembers(ps, all[k]);
    }
    if exists i, c :: 0 <= i < |ps| && c in ps[i].colors && c.hex == h {
      var i, c :| 0 <= i < |ps| && c in ps[i].colors && c.hex == h;
      AllColorsMembers(ps, c);
      var k :| 0 <= k < |all| && all[k] == c;
      assert Hexes(all)[k] == h;
    }
  }

  /** What the colour facet promises: one entry per distinct hex of the products,
      nothing else, in first-seen order, captioned by the first name for the hex. */
  lemma FirstSeenColorsFacts(ps: seq<Product>)
    ensures NoDup(Values(FirstSeenColors(ps)))
    ensures forall h :: h in Values(FirstSeenColors(ps)) <==>
      exists i, c :: 0 <= i < |ps| && c in ps[i].colors && c.hex == h
    ensures forall i, j :: 0 <= i < j < |FirstSeenColors(ps)| ==>
      FirstSeenColors(ps)[i].value in Hexes(AllColors(ps)) &&
      FirstSeenColors(ps)[j].value in Hexes(AllColors(ps)) &&
      FirstIndex(Hexes(AllColors(ps)), FirstSeenColors(ps)[i].value) <
      FirstIndex(Hexes(AllColors(ps)), FirstSeenColors(ps)[j].value)
    ensures forall i :: 0 <= i < |FirstSeenColors(ps)| ==>
      FirstSeenColors(ps)[i].value in Hexes(AllColors(ps)) &&
      FirstSeenColors(ps)[i].caption ==
        AllColors(ps)[FirstIndex(Hexes(AllColors(ps)), FirstSeenColors(ps)[i].value)].name
  {
    var hs := Hexes(AllColors(ps));
    FirstByHexValues(AllColors(ps));
    DedupNoDup(hs);
    DedupMembers(hs);
    DedupFirstSeenOrder(hs);
    FirstByHexCaption(AllColors(ps));
    forall h ensures h in Values(FirstSeenColors(ps)) <==>
      exists i, c :: 0 <= i < |ps| && c in ps[i].colors && c.hex == h
    {
      HexesMembers(ps, h);
    }
  }

  // ----- stock -----

  /** `products.some(p => p.inStock)`. */
  function AnyInStock(ps: seq<Product>): (b: bool)
    ensures b <==> exists i :: 0 <= i < |ps| && ps[i].inStock
  {
    if ps == [] then false
    else
      assert forall i :: 1 <= i < |ps| ==> ps[i] == ps[1..][i - 1];
      ps[0].inStock || AnyInStock(ps[1..])
  }

  // ----- the facets together -----

  /** The facets of a product list, as `computeAvailableFilters` returns them. */
  function AvailableFiltersOf(ps: seq<Product>): AvailableFilters
  {
    AvailableFilters(PriceRangeOf(ps), SortSizes(FirstSeenSizes(ps)), FirstSeenColors(ps), AnyInStock(ps))
  }

  /** The facets of no products: the default price range and nothing else. */
  lemma EmptyFacets()
    ensures AvailableFiltersOf([]) == AvailableFilters(PriceRange(0, 1000), [], [], false)
  {
  }

  /** The sizes facet is duplicate-free and holds exactly the products' sizes. */
  lemma SizeFacetMembers(ps: seq<Product>)
    ensures NoDup(AvailableFiltersOf(ps).sizes)
    ensures forall s :: s in AvailableFiltersOf(ps).sizes <==> exists i :: 0 <= i < |ps| && s in ps[i].sizes
  {
    var seen := FirstSeenSizes(ps);
    var sorted := SortSizes(seen);
    assert AvailableFiltersOf(ps).sizes == sorted;
    FirstSeenSizesFacts(ps);
    SortSizesNoDup(seen);
    forall s ensures s in sorted <==> s in seen {
      assert s in sorted <==> s in multiset(sorted);
      assert s in seen <==> s in multiset(seen);
    }
  }

  /** When every size of every product is canonical, the sizes facet follows the
      vocabulary order. */
  lemma SizeFacetCanonical(ps: seq<Product>)
    requires forall i, s :: 0 <= i < |ps| && s in ps[i].sizes ==> IsCanonical(s)
    ensures SortedByCanonical(AvailableFiltersOf(ps).sizes)
  {
    var seen := FirstSeenSizes(ps);
    assert AvailableFiltersOf(ps).sizes == SortSizes(seen);
    FirstSeenSizesFacts(ps);
    forall k | 0 <= k < |seen| ensures IsCanonical(seen[k]) {
      assert seen[k] in seen;
    }
    SortSizesCanonical(seen);
  }

  /** The inner loop of the size `Set` fill: one product's sizes, each added once. */
  method AddNewSizes(sizeSet0: seq<string>, sizes: seq<string>, ghost before: seq<string>)
    returns (sizeSet: seq<string>)
    requires sizeSet0 == Dedup(before)
    ensures sizeSet == Dedup(before + sizes)
  {
    sizeSet := sizeSet0;
    var j := 0;
    assert before + sizes[..0] == before;
    while j < |sizes|
      invariant 0 <= j <= |sizes|
      invariant sizeSet == Dedup(before + sizes[..j])
    {
      DedupStep(before, sizes, j);
      if sizes[j] !in sizeSet {
        sizeSet := sizeSet + [sizes[j]];
      }
      j := j + 1;
    }
    assert sizes[..j] == sizes;
  }

  /** Builds the `Set` of sizes the way the source does, product by product and size by size. */
  method CollectSizes(ps: seq<Product>) returns (sizeSet: seq<string>)
    ensures sizeSet == FirstSeenSizes(ps)
  {
    sizeSet := [];
    var i := 0;
    while i < |ps|
      invariant 0 <= i <= |ps|
      invariant sizeSet == Dedup(AllSizes(ps[..i]))
    {
      sizeSet := AddNewSizes(sizeSet, ps[i].sizes, AllSizes(ps[..i]));
      assert ps[..i + 1] == ps[..i] + [ps[i]];
      AllSizesSnoc(ps[..i], ps[i]);
      i := i + 1;
    }
    assert ps[..i] == ps;
  }

  /** The inner loop of the colour `Map` fill: one product's colours, each entered
      only when its hex is not a key yet. */
  method AddNewHexes(colorMap0: seq<ColorOption>, colors: seq<Color>, ghost before: seq<Color>)
    returns (colorMap: seq<ColorOption>)
    requires colorMap0 == FirstByHex(before)
    ensures colorMap == FirstByHex(before + colors)
  {
    colorMap := colorMap0;
    var j := 0;
    assert before + colors[..0] == before;
    while j < |colors|
      invariant 0 <= j <= |colors|
      invariant colorMap == FirstByHex(before + colors[..j])
    {
      var c := colors[j];
      FirstByHexStep(before, colors, j);
      if c.hex !in Values(colorMap) {
        colorMap := colorMap + [ColorOption(c.name, c.hex)];
      }
      j := j + 1;
    }
    assert colors[..j] == colors;
  }

  /** Builds the colour `Map` the way the source does, product by product and colour
      by colour, keyed by hex with the first entry kept. */
  method CollectColors(ps: seq<Product>) returns (colorMap: seq<ColorOption>)
    ensures colorMap == FirstSeenColors(ps)
  {
    colorMap := [];
    var i := 0;
    while i < |ps|
      invariant 0 <= i <= |ps|
      invariant colorMap == FirstByHex(AllColors(ps[..i]))
    {
      colorMap := AddNewHexes(colorMap, ps[i].colors, AllColors(ps[..i]));
      assert ps[..i + 1] == ps[..i] + [ps[i]];
      AllColorsSnoc(ps[..i], ps[i]);
      i := i + 1;
    }
    assert ps[..i] == ps;
  }

  /** `computeAvailableFilters`: the price range, the sorted size set, the colour map's
      entries and the stock flag. */
  method ComputeAvailableFilters(ps: seq<Product>) returns (r: AvailableFilters)
    ensures r == AvailableFiltersOf(ps)
  {
    var price := PriceRangeOf(ps);
    var sizeSet := CollectSizes(ps);
    var sortedSizes := SortSizes(sizeSet);
    var colors := CollectColors(ps);
    var hasStock := AnyInStock(ps);
    r := AvailableFilters(price, sortedSizes, colors, hasStock);
  }
}
