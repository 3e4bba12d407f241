/** The static catalog: the collections and products tables and the lookups over them. */
module ProductsData {
  import opened Seqs
  import opened CatalogTypes
  import opened Facets

  const Collections: seq<Collection> := [
    Collection("1", "Abayas", "abayas",
      "Elegant and modest abayas crafted for the modern woman.",
      "https://images.unsplash.com/photo-1490481651871-ab68de25d43d?w=1920&q=80", 4)
  ]

  const Black := Color("Black", "#1a1a1a")
  const White := Color("White", "#fafafa")
  const Maroon := Color("Maroon", "#800000")
  const Pink := Color("Pink", "#FFC0CB")

  /** The bundled image assets, by their paths in the repository. */
  const BlackAbayaImage := "src/assets/abayas/black_abaya.webp"
  const MaroonAbayaImage := "src/assets/abayas/maroon_abaya.webp"
  const PinkAbayaImage := "src/assets/abayas/pink_abaya.webp"
  const WhiteAbayaImage := "src/assets/abayas/white_abaya.webp"
  const WhiteAbayaImage2 := "src/assets/abayas/white_abaya_2.webp"

  const Products: seq<Product> := [
    Product("a1", "Black Abaya", 485,
      "A timeless black abaya featuring elegant draping and premium fabric.",
      "Abayas", "abayas", [BlackAbayaImage], ["XS", "S", "M", "L", "XL"], [Black], true),
    Product("a2", "Pink Abaya", 525,
      "Soft pink abaya with delicate details, perfect for special occasions.",
      "Abayas", "abayas", [PinkAbayaImage], ["S", "M", "L"], [Pink], true),
    Product("a3", "Maroon Abaya", 495,
      "Deep maroon abaya adding a touch of bold elegance to your wardrobe.",
      "Abayas", "abayas", [MaroonAbayaImage], ["S", "M", "L", "XL"], [Maroon], true),
    Product("a4", "White Abaya", 545,
      "Pristine white abaya, a limited edition piece radiating purity and grace.",
      "Abayas", "abayas", [WhiteAbayaImage, WhiteAbayaImage2], ["XS", "S", "M", "L"], [White], true)
  ]

  /** `getProductsByCollection`: the products of one collection, in table order. */
  function GetProductsByCollection(slug: string): (r: seq<Product>)
    ensures IsSubsequence(r, Products)
    ensures forall p :: p in r <==> p in Products && p.collectionSlug == slug
  {
    var keep := (p: Product) => p.collectionSlug == slug;
    FilterIsSubsequence(Products, keep);
    forall p ensures p in Filter(Products, keep) <==> p in Products && p.collectionSlug == slug {
      FilterMembers(Products, keep, p);
    }
    Filter(Products, keep)
  }

  /** Position `i` holds the first collection of `cs` with the slug. */
  predicate FirstWithSlug(cs: seq<Collection>, i: int, slug: string)
  {
    0 <= i < |cs| && cs[i].slug == slug && forall j :: 0 <= j < i ==> cs[j].slug != slug
  }

  /** `getCollectionBySlug`: the first collection with the slug, if any. */
  function GetCollectionBySlug(slug: string): (r: Option<Collection>)
    ensures r.None? <==> forall i :: 0 <= i < |Collections| ==> Collections[i].slug != slug
    ensures r.Some? ==> r.value in Collections && r.value.slug == slug
    ensures r.Some? ==> exists i :: FirstWithSlug(Collections, i, slug) && Collections[i] == r.value
  {
    FindFirst(Collections, (c: Collection) => c.slug == slug)
  }

  /** `getAllSizes`: every size of the catalog once, in first-seen order. */
  method GetAllSizes() returns (sizes: seq<string>)
    ensures sizes == FirstSeenSizes(Products)
    ensures NoDup(sizes)
    ensures forall s :: s in sizes <==> exists i :: 0 <= i < |Products| && s in Products[i].sizes
  {
    sizes := CollectSizes(Products);
    FirstSeenSizesFacts(Products);
  }

  function Names(cs: seq<Color>): (r: seq<string>)
    ensures |r| == |cs| && forall i :: 0 <= i < |cs| ==> r[i] == cs[i].name
  {
    if cs == [] then [] else Names(cs[..|cs| - 1]) + [cs[|cs| - 1].name]
  }

  /** `Map.set` under the colour's name, on the map's entries in insertion order: a
      present name keeps its place and takes the new colour, a new one goes last. */
  function SetByName(d: seq<Color>, c: Color): seq<Color>
  {
    if c.name in Names(d) then d[FirstIndex(Names(d), c.name) := c] else d + [c]
  }

  /** A `Map` keyed by colour name filled with `set`: a name keeps the place where it
      was first set and holds the colour it was set to last. */
  function LastByName(cs: seq<Color>): seq<Color>
  {
    if cs == [] then [] else SetByName(LastByName(cs[..|cs| - 1]), cs[|cs| - 1])
  }

  lemma LastByNameSnoc(cs: seq<Color>, c: Color)
    ensures LastByName(cs + [c]) == SetByName(LastByName(cs), c)
  {
    assert (cs + [c])[..|cs|] == cs;
  }

  lemma {:induction false} LastByNameNames(cs: seq<Color>)
    ensures Names(LastByName(cs)) == Dedup(Names(cs))
  {
    if cs != [] {
      var init, c := cs[..|cs| - 1], cs[|cs| - 1];
      LastByNameNames(init);
      NamesSnoc(init, c);
      DedupSnoc(Names(init), c.name);
      var d := LastByName(init);
      if c.name in Names(d) {
        NamesUpdate(d, FirstIndex(Names(d), c.name), c);
      } else {
        NamesSnoc(d, c);
      }
    }
  }

  lemma NamesSnoc(cs: seq<Color>, c: Color)
    ensures Names(cs + [c]) == Names(cs) + [c.name]
  {
    assert (cs + [c])[..|cs|] == cs;
  }

  /** Replacing an entry by a colour of the same name keeps the names. */
  lemma NamesUpdate(cs: seq<Color>, k: int, c: Color)
    requires 0 <= k < |cs| && cs[k].name == c.name
    ensures Names(cs[k := c]) == Names(cs)
  {
    assert forall i :: 0 <= i < |cs| ==> Names(cs[k := c])[i] == Names(cs)[i];
  }

  /** Each entry is the last colour in `cs` carrying its name. */
  lemma {:induction false} LastByNameLastWins(cs: seq<Color>)
    ensures forall i :: 0 <= i < |LastByName(cs)| ==> LastByName(cs)[i].name in Names(cs)
    ensures forall i :: 0 <= i < |LastByName(cs)| ==>
      LastByName(cs)[i] == cs[LastIndex(Names(cs), LastByName(cs)[i].name)]
  {
    if cs != [] {
      var init, c := cs[..|cs| - 1], cs[|cs| - 1];
      LastByNameLastWins(init);
      var d := LastByName(init);
      var ns := Names(cs);
      assert ns == Names(init) + [c.name];
      var r := LastByName(cs);
      forall i | 0 <= i < |r| ensures r[i].name in ns && r[i] == cs[LastIndex(ns, r[i].name)] {
        LastByNameEntry(init, c, i);
        if r[i] == c {
          LastIndexUnique(ns, c.name, |init|);
        } else {
          LastIndexPrefix(Names(init), [c.name], d[i].name);
          assert cs[LastIndex(Names(init), d[i].name)] == init[LastIndex(Names(init), d[i].name)];
        }
      }
    }
  }

  /** After one more `set`, an entry is the new colour or an old entry of another name. */
  lemma LastByNameEntry(init: seq<Color>, c: Color, i: int)
    requires 0 <= i < |LastByName(init + [c])|
    ensures LastByName(init + [c])[i] == c ||
      (i < |LastByName(init)| && LastByName(init + [c])[i] == LastByName(init)[i] &&
       LastByName(init)[i].name != c.name)
  {
    assert (init + [c])[..|init|] == init;
    var d := LastByName(init);
    LastByNameNames(init);
    DedupNoDup(Names(init));
    if c.name in Names(d) {
      var k := FirstIndex(Names(d), c.name);
      if i != k {
        assert Names(d)[i] == d[i].name && Names(d)[k] == d[k].name;
      }
    }
  }

  /** The inner loop of `getAllColors`: one product's colours `set` in order. */
  method SetAllByName(colors0: seq<Color>, pcs: seq<Color>, ghost before: seq<Color>) returns (colors: seq<Color>)
    requires colors0 == LastByName(before)
    ensures colors == LastByName(before + pcs)
  {
    colors := colors0;
    var j := 0;
    SetByNameStart(before, pcs);
    while j < |pcs|
      invariant 0 <= j <= |pcs|
      invariant colors == LastByName(before + pcs[..j])
    {
      SetByNameStep(before, pcs, j);
      colors := SetByName(colors, pcs[j]);
      j := j + 1;
    }
    assert pcs[..j] == pcs;
  }

  lemma SetByNameStart(before: seq<Color>, pcs: seq<Color>)
    ensures LastByName(before + pcs[..0]) == LastByName(before)
  {
    assert before + pcs[..0] == before;
  }

  /** One more colour `set` extends the colours seen by that colour. */
  lemma SetByNameStep(before: seq<Color>, pcs: seq<Color>, j: int)
    requires 0 <= j < |pcs|
    ensures LastByName(before + pcs[..j + 1]) == SetByName(LastByName(before + pcs[..j]), pcs[j])
  {
    assert pcs[..j + 1] == pcs[..j] + [pcs[j]];
    assert before + pcs[..j + 1] == (before + pcs[..j]) + [pcs[j]];
    LastByNameSnoc(before + pcs[..j], pcs[j]);
  }

  /** The colour map fill of `getAllColors`, over any product list: product by
      product, colour by colour, `set` under the colour's name. */
  method CollectColorsByName(ps: seq<Product>) returns (colors: seq<Color>)
    ensures colors == LastByName(AllColors(ps))
  {
    colors := [];
    var i := 0;
    while i < |ps|
      invariant 0 <= i <= |ps|
      invariant colors == LastByName(AllColors(ps[..i]))
    {
      colors := SetAllByName(colors, ps[i].colors, AllColors(ps[..i]));
      assert ps[..i + 1] == ps[..i] + [ps[i]];
      AllColorsSnoc(ps[..i], ps[i]);
      i := i + 1;
    }
    assert ps[..i] == ps;
  }

  /** Names once each, in first-seen order, each holding the last colour of that name. */
  lemma LastByNameFacts(cs: seq<Color>)
    ensures NoDup(Names(LastByName(cs)))
    ensures forall n :: n in Names(LastByName(cs)) <==> n in Names(cs)
    ensures forall i, j :: 0 <= i < j < |LastByName(cs)| ==>
      LastByName(cs)[i].name in Names(cs) && LastByName(cs)[j].name in Names(cs) &&
      FirstIndex(Names(cs), LastByName(cs)[i].name) < FirstIndex(Names(cs), LastByName(cs)[j].name)
    ensures forall i :: 0 <= i < |LastByName(cs)| ==> (LastByName(cs)[i].name in Names(cs) &&
      LastByName(cs)[i] == cs[LastIndex(Names(cs), LastByName(cs)[i].name)])
  {
    LastByNameNames(cs);
    DedupNoDup(Names(cs));
    DedupMembers(Names(cs));
    DedupFirstSeenOrder(Names(cs));
    LastByNameLastWins(cs);
    var r := LastByName(cs);
    assert forall i :: 0 <= i < |r| ==> Names(r)[i] == r[i].name;
  }

  /** `getAllColors`: every colour name of the catalog once, with the colour it was
      last given. */
  method GetAllColors() returns (colors: seq<Color>)
    ensures colors == LastByName(AllColors(Products))
    ensures NoDup(Names(colors))
    ensures forall n :: n in Names(colors) <==> n in Names(AllColors(Products))
    ensures forall i :: 0 <= i < |colors| ==> (colors[i].name in Names(AllColors(Products)) &&
      colors[i] == AllColors(Products)[LastIndex(Names(AllColors(Products)), colors[i].name)])
  {
    colors := CollectColorsByName(Products);
    LastByNameFacts(AllColors(Products));
  }

  /** `getPriceRange`: the lowest and highest catalog price. */
  function GetPriceRange(): (r: (int, int))
    ensures r.0 <= r.1
    ensures forall i :: 0 <= i < |Products| ==> r.0 <= Products[i].price <= r.1
    ensures r == (485, 545)
  {
    var lo, hi := MinPrice(Products), MaxPrice(Products);
    assert Products[0].price == 485 && Products[3].price == 545;
    (lo, hi)
  }

  /** The abayas collection announces as many products as the table holds for it. */
  lemma AbayasProductCount()
    ensures |GetProductsByCollection("abayas")| == Collections[0].productCount
  {
    FilterKeepsAll(Products, (p: Product) => p.collectionSlug == "abayas");
  }
}
