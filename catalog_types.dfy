/** The catalog's records: products and collections as the static data lays them
    out, the facets offered to the shopper and the filters the shopper has chosen. */
module CatalogTypes {
  import opened Seqs

  /** A colour: `name` is for display, `hex` is the key filters match on. */
  datatype Color = Color(name: string, hex: string)

  /** A product. `sizes`, `colors` and `images` are always present, possibly empty;
      prices are whole currency units. */
  datatype Product = Product(
    id: string,
    name: string,
    price: int,
    description: string,
    collection: string,
    collectionSlug: string,
    images: seq<string>,
    sizes: seq<string>,
    colors: seq<Color>,
    inStock: bool)

  datatype Collection = Collection(
    id: string,
    name: string,
    slug: string,
    description: string,
    image: string,
    productCount: int)

  datatype Category = Category(name: string, slug: string)

  datatype PriceRange = PriceRange(min: int, max: int)

  /** One entry of the colour facet: the label shown (`caption`, since `label` is a Dafny keyword) and the hex value it filters on. */
  datatype ColorOption = ColorOption(caption: string, value: string)

  /** The facets derived from a product list. */
  datatype AvailableFilters = AvailableFilters(
    price: PriceRange,
    sizes: seq<string>,
    colors: seq<ColorOption>,
    hasStock: bool)

  /** The shopper's selections; `None` is an absent field of the JavaScript object. */
  datatype ActiveFilters = ActiveFilters(
    priceMin: Option<int>,
    priceMax: Option<int>,
    sizes: Option<seq<string>>,
    colors: Option<seq<string>>,
    inStockOnly: Option<bool>)

  /** The empty filter object `{}`. */
  const NoFilters := ActiveFilters(None, None, None, None, None)
}
