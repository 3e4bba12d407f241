# AMORA storefront catalog, modelled in Dafny

This project models the logic inside the AMORA storefront that filters the catalog:

- **Facets.** `computeAvailableFilters` turns a list of products into facets: a price range, a size list in canonical order, a colour list keyed by hex, and a stock flag.
- **Filtering.** `applyFilters` keeps, in order, the products that pass every active constraint.
- **Filter panel.** Its handlers edit the filter state by toggling list membership.
- **Product card.** It is a small state machine: an image carousel, swipe handling, size selection and an add-to-bag latch.
- **Collection page.** It derives the displayed list (filters, then a case-insensitive name search), shows a result count and its plural suffix, and starts from a fixed initial state.
- **Static catalog.** The collection and product tables, and the lookups over them in `products.ts` and in the local catalog service.

Modules, one per file:

| file | module | models |
|---|---|---|
| `seqs.dfy` | `Seqs` | Generic sequence reasoning: `Option`, no-duplicates, order-preserving `Filter`, subsequences, first-seen `Dedup`, index lookups, `find`, and a stable insertion sort standing in for `Array.prototype.sort`. |
| `ascii.dfy` | `Ascii` | ASCII `toUpperCase`/`toLowerCase` and substring `includes`. |
| `catalog_types.dfy` | `CatalogTypes` | `Product`, `Color`, `Collection`, `Category`, `AvailableFilters`, `ActiveFilters` (optional fields as `Option`). |
| `facets.dfy` | `Facets` | `computeAvailableFilters`: reference functions for each facet, their lemmas, and the method that fills the size `Set` and colour `Map` with nested loops. |
| `apply_filters.dfy` | `FilterApply` | `applyFilters`: the early-return test, an independent per-dimension reading of it, and lemmas. |
| `filter_panel.dfy` | `FilterPanel` | The filter panel's handlers. |
| `product_card.dfy` | `ProductCard` | The product card as a class `Card`, whose fields the handlers update. |
| `collection_page.dfy` | `CollectionPage` | `filteredProducts`, the initial state, and the count label. |
| `products_data.dfy` | `ProductsData` | The static tables and the lookups of `products.ts`; `getAllSizes` and `getAllColors` as loop methods. |
| `catalog_local.dfy` | `CatalogLocal` | The local catalog service, modelled by the values its promises resolve to. |
| `scenarios.dfy` | `Scenarios` | Worked examples on two products shaped like the first two catalog entries. |

JavaScript's `Set` and `Map` keep insertion order. Both are modelled as sequences of distinct entries in that order. A `Map` becomes its list of entries, and the colour facet is `Array.from(colorMap.values())`.

## Definitions

These are the definitions the contracts below are stated over. Each is written to read as the source line it models and carries no contract of its own. The lemmas named in the last column state their properties.

| definition | source | models | see |
|---|---|---|---|
| Facets.FirstSeenSizes | src/services/catalog/filters.ts:8-12 | The `Set` of sizes filled product by product, as a list of distinct sizes in insertion order. | FirstSeenSizesFacts, CollectSizes |
| Facets.AllSizes | src/services/catalog/filters.ts:9-11 | The sizes of all products, flattened in order. | AllSizesMembers |
| Facets.SizeOrder | src/services/catalog/filters.ts:15 | The size vocabulary: XS, S, M, L, XL, XXL, ONE SIZE. | CanonicalIndex, FivePositions |
| Facets.IsCanonical | src/services/catalog/filters.ts:17-19 | The upper-cased size is in the vocabulary (`indexOf` is not -1). | SizeCompare |
| Facets.AllColors | src/services/catalog/filters.ts:24-26 | The colours of all products, flattened in order. | AllColorsMembers |
| Facets.FirstByHex | src/services/catalog/filters.ts:23-32 | The colour `Map` keyed by hex: a colour is entered only when its hex is not yet a key. | FirstByHexValues, FirstByHexCaption |
| Facets.FirstSeenColors | src/services/catalog/filters.ts:23-40 | The colour facet, `Array.from(colorMap.values())`. | FirstSeenColorsFacts, CollectColors |
| Facets.AvailableFiltersOf | src/services/catalog/filters.ts:37-42 | The four facets as `computeAvailableFilters` returns them. | ComputeAvailableFilters, EmptyFacets |
| FilterApply.Matches | src/services/catalog/filters.ts:46-66 | The early-rejection test inside `applyFilters`, branch by branch. | MatchesIffSatisfies |
| FilterApply.WithinPrice | src/services/catalog/filters.ts:48-49 | Inclusive price bounds, each only when set. | MatchesIffSatisfies |
| FilterApply.SizeSelected | src/services/catalog/filters.ts:52-55 | An empty or absent size selection, or a shared size. | MatchesIffSatisfies |
| FilterApply.ColorSelected | src/services/catalog/filters.ts:58-61 | An empty or absent colour selection, or a shared hex. | MatchesIffSatisfies |
| FilterApply.StockSelected | src/services/catalog/filters.ts:64 | `inStockOnly` is not true, or the product is in stock. | MatchesIffSatisfies |
| FilterApply.Satisfies | src/services/catalog/filters.ts:46-66 | The four constraints together, one dimension at a time. | MatchesIffSatisfies, ApplyFilters |
| FilterPanel.InitialSections | src/components/FilterPanel.tsx:24 | All four sections start expanded. | FirstClickCollapses |
| ProductCard.SwipeThreshold | src/components/ProductCard.tsx:66-70 | A swipe must move more than 50 to change the image. | Card.HandleTouchEnd |
| ProductCard.Placeholder | src/components/ProductCard.tsx:92 | The image shown when the indexed image is missing or empty. | ImageSource |
| ProductCard.CanAddWith | src/components/ProductCard.tsx:31-36 | `canAdd`: in stock, not just added, a size chosen when sizes exist, and a first colour. | Card.HandleAddToCart, Card.TimerFires |
| ProductCard.Card.CanAdd | src/components/ProductCard.tsx:31-36 | `canAdd` on the card's current state. | Card.HandleAddToCart, DoubleClickAddsOnce |
| ProductCard.Card.Valid | src/components/ProductCard.tsx:17-27 | The card invariant: the index is within the images, the selected size is one of the product's (or "" when it has none), and a timer is pending exactly while the latch is set. | every `Card` method |
| ProductCard.Card.ImageCount | src/components/ProductCard.tsx:17-18 | The number of images. | Card.NextImage, Card.MouseEnter |
| CollectionPage.NameMatches | src/pages/Collection.tsx:88-89 | The lower-cased name contains the lower-cased query. | FilteredProducts, SearchIgnoresCase |
| CollectionPage.InitialAvailableFilters | src/pages/Collection.tsx:39-44 | The facets shown before products arrive. | InitialFacetsOfNoProducts |
| CollectionPage.InitialActiveFilters | src/pages/Collection.tsx:46 | The empty filter object `{}`. | InitialStateShowsAll |
| Ascii.Contains | src/pages/Collection.tsx:89 | `includes`, by recursion on the haystack. | ContainsAt |
| ProductsData.Collections | src/data/products.ts:8-17 | The one-entry collection table. | GetCollectionBySlug, AbayasProductCount |
| ProductsData.Black, White, Maroon, Pink | src/data/products.ts:19-24 | The four named colours. | CatalogHasExamplePair |
| ProductsData.Products | src/data/products.ts:26-75 | The four-product table. | GetPriceRange, AbayasProductCount |
| ProductsData.SetByName | src/data/products.ts:93 | `Map.set` under a colour's name on the map's entries: a present name keeps its place and takes the new colour, a new name goes last. | SetAllByName, LastByNameLastWins |
| ProductsData.LastByName | src/data/products.ts:92-93 | The name-keyed `Map` filled with `set`, colour by colour. | LastByNameFacts, CollectColorsByName |

## Model

| member | source | states |
|---|---|---|
| Facets.MinPrice | src/services/catalog/filters.ts:4-5 | The minimum price is at most every product's price and is the price of some product. |
| Facets.MaxPrice | src/services/catalog/filters.ts:4-6 | The maximum price is at least every product's price and is the price of some product. |
| Facets.PriceRangeOf | src/services/catalog/filters.ts:4-6 | With no products, the price facet is 0 to 1000. Otherwise it runs from the lowest to the highest price: both bounds are attained and every price lies between them. In both cases min <= max. |
| Facets.AllSizesMembers | src/services/catalog/filters.ts:9-12 | A size occurs in the flattened size list iff some product lists it. |
| Facets.FirstSeenSizesFacts | src/services/catalog/filters.ts:8-12 | The sizes as the `Set` holds them have no duplicates and are exactly the products' sizes. They come in the order of their first occurrences. |
| Facets.CanonicalIndex | src/services/catalog/filters.ts:15-18 | `indexOf` of the upper-cased size in the vocabulary. The result is -1 iff the upper-cased size is not in the vocabulary; otherwise the vocabulary entry at the result is the upper-cased size. |
| Facets.CanonicalAt | src/services/catalog/filters.ts:15-17 | An upper-case vocabulary entry gets the index of its first position. |
| Facets.LexCompare | src/services/catalog/filters.ts:20 | The comparison is -1, 0 or 1, and 0 exactly for equal strings. |
| Facets.LexCompareAntisymmetric | src/services/catalog/filters.ts:20 | Swapping the two strings negates the comparison. |
| Facets.SizeCompare | src/services/catalog/filters.ts:16-21 | For two canonical sizes, the result is negative iff the first sits earlier in the vocabulary, and zero iff they upper-case alike. Otherwise it is zero iff the two strings are equal. |
| Facets.SizeCompareAntisymmetric | src/services/catalog/filters.ts:16-21 | Swapping the two sizes negates the comparison, in both branches of the comparator. |
| Facets.SortSizes | src/services/catalog/filters.ts:16-21 | The sorted sizes are a permutation of the size set (same multiset). |
| Facets.SortSizesNoDup | src/services/catalog/filters.ts:16-21 | Sorting a duplicate-free size list keeps it duplicate-free. |
| Facets.SortSizesCanonical | src/services/catalog/filters.ts:15-19 | When every size is canonical, the sorted list is non-decreasing by canonical index. |
| Facets.ComparatorCycle | src/services/catalog/filters.ts:16-21 | The comparator is not transitive on mixed labels. XS sorts before S, S before "Small", and "Small" before XS. |
| Facets.AllColorsMembers | src/services/catalog/filters.ts:24-26 | A colour occurs in the flattened colour list iff some product lists it. |
| Facets.Values | src/services/catalog/filters.ts:24-31 | The map's keys have one hex per entry, entry by entry: the key under which `set` stored that entry. |
| Facets.Hexes | src/services/catalog/filters.ts:25-28 | The hexes of a colour list have one entry per colour, in order. |
| Facets.FirstByHexValues | src/services/catalog/filters.ts:23-32 | The colour map's keys are the products' hexes de-duplicated in first-seen order. |
| Facets.FirstByHexCaption | src/services/catalog/filters.ts:28-29 | Each entry's label is the name of the first colour carrying that entry's hex. |
| Facets.HexesMembers | src/services/catalog/filters.ts:24-26 | A hex occurs among the flattened colours iff some product has a colour with that hex. |
| Facets.FirstSeenColorsFacts | src/services/catalog/filters.ts:23-32 | The colour facet has one entry per distinct hex of the products and nothing else. Entries come in first-seen order, and each is captioned by the first name given to its hex. |
| Facets.AnyInStock | src/services/catalog/filters.ts:35 | `hasStock` holds iff some product is in stock. |
| Facets.EmptyFacets | src/services/catalog/filters.ts:4-42 | No products give the range 0 to 1000, no sizes, no colours and no stock. |
| Facets.SizeFacetMembers | src/services/catalog/filters.ts:8-21 | The sizes facet has no duplicates and holds exactly the sizes some product lists. |
| Facets.SizeFacetCanonical | src/services/catalog/filters.ts:15-21 | When every product size is canonical, the sizes facet follows the vocabulary order. |
| Facets.AddNewSizes | src/services/catalog/filters.ts:10-11 | Adding one product's sizes to the set, in order, gives the first-seen de-duplication of everything seen so far. |
| Facets.CollectSizes | src/services/catalog/filters.ts:8-12 | The nested `forEach` fill of the size `Set` yields the first-seen size list. |
| Facets.AddNewHexes | src/services/catalog/filters.ts:25-31 | Entering one product's colours, each only when its hex is not yet a key, extends the first-wins colour map. |
| Facets.CollectColors | src/services/catalog/filters.ts:23-32 | The nested `forEach` fill of the colour `Map` yields the first-wins facet. |
| Facets.ComputeAvailableFilters | src/services/catalog/filters.ts:3-43 | The method's result equals the facet functions proved above. |
| Ascii.Upper | src/services/catalog/filters.ts:17 | Upper-casing keeps the length and maps each ASCII letter to upper case, leaving other characters as they are. |
| Ascii.Lower | src/pages/Collection.tsx:88-89 | Lower-casing keeps the length and maps each ASCII letter to lower case, leaving other characters as they are. |
| Ascii.UpperIdentity | src/services/catalog/filters.ts:17 | A string without lower-case ASCII letters is its own upper-casing. |
| Ascii.ContainsAt | src/pages/Collection.tsx:89 | `includes` holds iff the query occurs as a contiguous block at some position. |
| FilterApply.MatchesIffSatisfies | src/services/catalog/filters.ts:46-66 | The early-return test accepts a product iff it meets every constraint. The constraints are: the set price bounds (inclusive), a shared size with a non-empty size list, a shared hex with a non-empty colour list, and stock when `inStockOnly` is true. |
| FilterApply.ApplyFilters | src/services/catalog/filters.ts:45-68 | The result is an order-preserving subsequence of the input. A product is in it iff it is in the input and meets every constraint. It occurs in the result exactly as often as in the input when it meets every constraint, and not at all otherwise. |
| FilterApply.FilterBySatisfies | src/services/catalog/filters.ts:45-68 | Filtering with any test that agrees with the constraints keeps an order-preserving subsequence holding exactly the products that meet them, each as often as it occurs. |
| FilterApply.ApplyFiltersFront | src/services/catalog/filters.ts:45-46 | The products are tested one at a time from the front: a non-empty list filters to its accepted head followed by the filtered rest. |
| FilterApply.NoFiltersKeepsAll | src/services/catalog/filters.ts:45-68 | The empty filter object keeps every product, in order. |
| FilterApply.SameTestSameResult | src/services/catalog/filters.ts:45-68 | Two filter objects that accept the same products give the same list. |
| FilterApply.EmptySelectionsAreAbsent | src/services/catalog/filters.ts:52-64 | An empty size list, an empty colour list and `inStockOnly: false` each filter exactly like the absent field. |
| FilterApply.EmptySizesAreAbsent | src/services/catalog/filters.ts:52-55 | An empty size list filters exactly like an absent one. |
| FilterApply.EmptyColorsAreAbsent | src/services/catalog/filters.ts:58-61 | An empty colour list filters exactly like an absent one. |
| FilterApply.FalseStockIsAbsent | src/services/catalog/filters.ts:64 | `inStockOnly: false` filters exactly like an absent flag. |
| FilterApply.ApplyFiltersIdempotent | src/services/catalog/filters.ts:45-68 | Applying the same filters twice equals applying them once. |
| FilterPanel.Toggle | src/components/FilterPanel.tsx:47-49 | Toggling flips the value's membership and leaves every other value's membership alone. |
| FilterPanel.ToggleAbsentAppends | src/components/FilterPanel.tsx:47-49 | Toggling an absent value appends it at the end and keeps the list before it. |
| FilterPanel.TogglePresentRemoves | src/components/FilterPanel.tsx:47-48 | Toggling a present value removes every occurrence. The rest keep their order and their multiplicities. |
| FilterPanel.ToggleTwiceRestores | src/components/FilterPanel.tsx:47-49 | Toggling an absent value twice restores the list. |
| FilterPanel.ToggleSection | src/components/FilterPanel.tsx:31-35 | The section's membership flips and other sections' memberships stay. |
| FilterPanel.FirstClickCollapses | src/components/FilterPanel.tsx:24-35 | Every section starts expanded. The first click on a header collapses that section and leaves the other three expanded. |
| FilterPanel.CurrentPriceRange | src/components/FilterPanel.tsx:26-29 | Each displayed bound is the active bound when set, otherwise the facet's bound. |
| FilterPanel.UpdatePrice | src/components/FilterPanel.tsx:37-43 | Both bounds are set and every other field is unchanged. |
| FilterPanel.ToggleSize | src/components/FilterPanel.tsx:45-51 | The size's membership flips, with an absent list read as empty. Other sizes and every other field are unchanged. |
| FilterPanel.ToggleColor | src/components/FilterPanel.tsx:53-59 | The hex's membership flips, with an absent list read as empty. Other hexes and every other field are unchanged. |
| FilterPanel.ToggleStock | src/components/FilterPanel.tsx:61-63 | `inStockOnly` becomes the checkbox value and every other field is unchanged. |
| FilterPanel.ClearFilters | src/components/FilterPanel.tsx:65-67 | The cleared filter keeps every product list unchanged. |
| FilterPanel.ToggleSizeTwiceFiltersAlike | src/components/FilterPanel.tsx:45-51 | Selecting and then deselecting a size leaves the filtered products as they were, even when the size list was absent. |
| FilterPanel.ToggleColorTwiceFiltersAlike | src/components/FilterPanel.tsx:53-59 | Selecting and then deselecting a hex leaves the filtered products as they were, even when the colour list was absent. |
| ProductCard.NextIndex | src/components/ProductCard.tsx:50 | The next index stays in range and wraps from the last image to the first. |
| ProductCard.PrevIndex | src/components/ProductCard.tsx:55 | The previous index stays in range and wraps from the first image to the last. |
| ProductCard.PrevUndoesNext | src/components/ProductCard.tsx:50-55 | Stepping back after stepping forward returns to the same image. |
| ProductCard.NextUndoesPrev | src/components/ProductCard.tsx:50-55 | Stepping forward after stepping back returns to the same image. |
| ProductCard.FixedColor | src/components/ProductCard.tsx:22 | The fixed colour is the first colour, or none when there are no colours. |
| ProductCard.InitialSize | src/components/ProductCard.tsx:24 | The initial size is the first size, or "" when there are none. |
| ProductCard.ImageSource | src/components/ProductCard.tsx:92 | The image shown is the indexed image when it exists and is non-empty, otherwise the placeholder. |
| ProductCard.Card.DisplayedImage | src/components/ProductCard.tsx:92 | The card always shows one of the product's own images or the placeholder, and the placeholder when the product has no images. |
| ProductCard.Card.constructor | src/components/ProductCard.tsx:15-27 | The card starts at image 0 with no touch, the first size selected, the latch released, no timer pending and no calls to the bag store. |
| ProductCard.Card.NextImage | src/components/ProductCard.tsx:48-51 | With several images, the index advances cyclically; otherwise it is unchanged. The card invariant is kept. |
| ProductCard.Card.PrevImage | src/components/ProductCard.tsx:53-56 | With several images, the index steps back cyclically; otherwise it is unchanged. The card invariant is kept. |
| ProductCard.Card.HandleTouchStart | src/components/ProductCard.tsx:58-60 | The touch's start coordinate is recorded. |
| ProductCard.Card.HandleTouchEnd | src/components/ProductCard.tsx:62-72 | With no touch recorded, nothing moves. A left swipe of more than 50 shows the next image and a right swipe the previous. A shorter swipe keeps the index. The touch is forgotten in every case. |
| ProductCard.Card.MouseEnter | src/components/ProductCard.tsx:84 | With several images, hovering shows the second; otherwise the index is unchanged. |
| ProductCard.Card.MouseLeave | src/components/ProductCard.tsx:85 | Leaving shows the first image. |
| ProductCard.Card.SelectSize | src/components/ProductCard.tsx:167-174 | A size button selects one of the product's own sizes, so the selected size stays among them. |
| ProductCard.Card.HandleAddToCart | src/components/ProductCard.tsx:31-41 | When adding is allowed, the product is added once with the selected size and the first colour, and the latch is set. Otherwise nothing changes. Either way adding is not allowed afterwards. |
| ProductCard.Card.TimerFires | src/components/ProductCard.tsx:42-45 | The callback releases the latch and opens the bag. Adding is then allowed again exactly when the other three conditions hold. |
| ProductCard.DoubleClickAddsOnce | src/components/ProductCard.tsx:31-46 | Two quick clicks on a fresh card add the product at most once. It is added exactly when a fresh card allows adding. |
| CollectionPage.FilteredProducts | src/pages/Collection.tsx:84-93 | The displayed list is an order-preserving subsequence of the products. A product is in it iff it meets the filters and, for a non-empty query, its lower-cased name contains the lower-cased query. Such a product occurs as often as in the products, and any other not at all. |
| CollectionPage.EmptyQueryIsFilterOnly | src/pages/Collection.tsx:85-87 | With an empty query the page shows exactly the filtered products. |
| CollectionPage.QueryRefinesFilter | src/pages/Collection.tsx:87-90 | With a query, the page shows an order-preserving subsequence of the filtered products whose names all match the query. Every filtered product whose name matches keeps all its occurrences, and the others are dropped. |
| CollectionPage.SearchIgnoresCase | src/pages/Collection.tsx:88-89 | Queries that differ only in ASCII case give the same list. |
| CollectionPage.ResultCount | src/pages/Collection.tsx:198 | The count is the length of the displayed list and at most the number of products. |
| CollectionPage.PluralSuffix | src/pages/Collection.tsx:220 | The label gets "s" iff the count is not 1. |
| CollectionPage.InitialFacetsOfNoProducts | src/pages/Collection.tsx:39-44 | The initial facets are the facets computed for no products. |
| CollectionPage.InitialStateShowsAll | src/pages/Collection.tsx:46-47 | From the initial empty filter and empty query, the page shows every product, in order. |
| ProductsData.GetProductsByCollection | src/data/products.ts:77-79 | The result is an order-preserving subsequence of the table, holding exactly the products with the slug. |
| ProductsData.GetCollectionBySlug | src/data/products.ts:81-83 | The result is none iff no collection has the slug; otherwise it is the first collection of the table with that slug. |
| ProductsData.GetAllSizes | src/data/products.ts:85-89 | The result has no duplicates and holds exactly the catalog's sizes, in first-seen order. |
| ProductsData.Names | src/data/products.ts:92-93 | The names of a colour list have one entry per colour, in order: the keys the name-keyed map is set under. |
| ProductsData.LastByNameNames | src/data/products.ts:92-93 | The names of the name-keyed map are the colour names de-duplicated in first-seen order. |
| ProductsData.LastByNameLastWins | src/data/products.ts:93 | Each entry of the name-keyed map is the last colour given that name. |
| ProductsData.SetAllByName | src/data/products.ts:93 | Setting one product's colours under their names, in order, extends the map by exactly those `set` calls. |
| ProductsData.CollectColorsByName | src/data/products.ts:92-93 | The nested `forEach` fill of the name-keyed `Map` yields the map of all catalog colours. |
| ProductsData.LastByNameFacts | src/data/products.ts:91-95 | The entries carry distinct names, exactly the names that occur, in first-seen order, and each holds the last colour of its name. |
| ProductsData.GetAllColors | src/data/products.ts:91-95 | The result is one colour per distinct name of the catalog, placed at that name's first occurrence and equal to the last colour given that name. |
| ProductsData.GetPriceRange | src/data/products.ts:97-100 | The result is min <= max, bounds every catalog price, and is (485, 545) on the static table. |
| ProductsData.AbayasProductCount | src/data/products.ts:15 | The abayas collection's announced count, 4, equals the number of products with its slug. |
| CatalogLocal.GetAllProducts | src/services/catalog/catalog.local.ts:4-6 | The whole product table, unchanged. |
| CatalogLocal.GetProductsByCategorySlug | src/services/catalog/catalog.local.ts:8-10 | The result is an order-preserving subsequence of all products, holding exactly those with the slug. |
| CatalogLocal.GetCategories | src/services/catalog/catalog.local.ts:12-19 | The result has one category per collection, in order, carrying that collection's name and slug. |
| CatalogLocal.CategoriesOf | src/services/catalog/catalog.local.ts:14-17 | The mapping keeps the length, entry by entry. |
| CatalogLocal.GetCollectionBySlug | src/services/catalog/catalog.local.ts:21-23 | The result is none iff no collection has the slug; otherwise it is the first collection of the table with that slug. |
| CatalogLocal.GetCollections | src/services/catalog/catalog.local.ts:25-27 | The whole collection table, unchanged. |
| CatalogLocal.CategoriesResolve | src/services/catalog/catalog.local.ts:12-23 | Every listed category's slug looks up a collection with that slug. |
| Scenarios.CatalogHasExamplePair | src/data/products.ts:27-50 | The black and pink abayas have the prices, sizes, hexes and stock the scenarios assume. |
| Scenarios.PriceCeilingScenario | src/services/catalog/filters.ts:49 | A ceiling of 500 keeps the 485 product and drops the 525 one. |
| Scenarios.ColorScenario | src/services/catalog/filters.ts:58-61 | Selecting `#FFC0CB` keeps only the product of that hex. |
| Scenarios.StockScenario | src/services/catalog/filters.ts:64 | `inStockOnly` drops the out-of-stock product and keeps the others in order. |
| Scenarios.PriceFacetScenario | src/services/catalog/filters.ts:4-6 | The pair's price facet is 485 to 525. |
| Scenarios.SizeSetScenario | src/services/catalog/filters.ts:8-12 | The size set of the pair is the first product's five sizes; the second adds none. |
| Scenarios.FivePositions | src/services/catalog/filters.ts:15-17 | XS, S, M, L and XL sit at vocabulary positions 0 to 4. |
| Scenarios.SortedSizesScenario | src/services/catalog/filters.ts:16-21 | Five canonical sizes already in vocabulary order are left as they are by the sort. |
| Scenarios.ColorMapScenario | src/services/catalog/filters.ts:23-32 | The pair's colour facet has two entries, in first-seen order, captioned by the colour names. |
| Scenarios.FacetsScenario | src/services/catalog/filters.ts:3-43 | The full facets of the pair are 485 to 525, the five sizes, the two colours, and stock. |

## Left out

- Rendering: the JSX markup, framer-motion animation and the home page (`src/pages/Home.tsx`) have no checkable behaviour.
- Async loading: the collection page's effect (`src/pages/Collection.tsx:50-81`) runs `Promise.all` with try/catch and resets the filters and query on a slug change. It is not modelled. Each catalog service call is modelled by the value its `Promise.resolve` yields.
- Timing: the 800 ms `setTimeout` is the `TimerFires` method, called when the callback runs; no clock is modelled. While the latch is set, adding is refused, so at most one callback is pending (`timerPending == isAdded` is part of the card invariant).
- The bag store (`useCartStore`, `addItem` and `openCart` in `src/store/cart`) is not part of this model. The card records its calls into the store in order, as `cartCalls`.
- `formatPrice` and `cn` (`src/lib/utils`) only format output and are not part of this model. The base `Product` type (`src/types`) is not part of this model either; its fields are read off the static table.
- The static content modules (`src/services/content/*`) are literal data with no logic.
- Facets.SortSizes: the engine's sort algorithm is not specified, so the model stands in a stable insertion sort. `localeCompare` is modelled as comparison by character code, without locale rules. The comparator is intransitive on mixed canonical and other labels (`ComparatorCycle`), so the sorted order of such lists depends on the engine. Only the permutation, no-duplicates and the all-canonical ordering are proved.
- Numbers: prices and touch coordinates are `int`. Floating point, `Math.min()` of an empty list (never reached through the empty-input branch) and the parsing of numbers from input fields are not modelled.
- Ascii.Upper, Ascii.Lower: `toUpperCase` and `toLowerCase` are modelled on ASCII letters only; Unicode case mapping is not modelled.
- The product fields `sizes`, `colors` and `images` are always present. The `?? []` and `|| []` fallbacks are therefore identities here.
- The colour facet entry's `label` field is named `caption`, because `label` is a Dafny keyword.
- The image imports of the static table are modelled as their asset paths.
- ProductsData.GetAllSizes: its order promise is stated through `FirstSeenSizes` and `Facets.FirstSeenSizesFacts` rather than restated on the static table.
- Concrete results on the static table are stated only for its price range and the abayas count. The facets and colour list of the whole four-product table are not evaluated. The worked examples use two products shaped like its first two entries instead (`Scenarios.CatalogHasExamplePair`).
