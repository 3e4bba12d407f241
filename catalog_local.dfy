/** The local catalog service: the static tables behind the asynchronous service
    interface. Each call resolves immediately, so each is modelled by the value it
    resolves to. */
module CatalogLocal {
  import opened Seqs
  import opened CatalogTypes
  import opened ProductsData

  /** `getAllProducts`: the whole product table, in table order. */
  function GetAllProducts(): (r: seq<Product>)
    ensures |r| == |Products| && forall i :: 0 <= i < |r| ==> r[i] == Products[i]
  {
    Products
  }

  /** `getProductsByCategorySlug`: a category is a collection, so this is the
      collection lookup of the static tables. */
  function GetProductsByCategorySlug(slug: string): (r: seq<Product>)
    ensures IsSubsequence(r, GetAllProducts())
    ensures forall p :: p in r <==> p in GetAllProducts() && p.collectionSlug == slug
  {
    GetProductsByCollection(slug)
  }

  /** `getCategories`: each collection's name and slug, in table order. */
  function GetCategories(): (r: seq<Category>)
    ensures |r| == |Collections|
    ensures forall i :: 0 <= i < |r| ==> r[i].name == Collections[i].name && r[i].slug == Collections[i].slug
  {
    CategoriesOf(Collections)
  }

  function CategoriesOf(cs: seq<Collection>): (r: seq<Category>)
    ensures |r| == |cs|
    ensures forall i :: 0 <= i < |r| ==> r[i] == Category(cs[i].name, cs[i].slug)
  {
    if cs == [] then [] else [Category(cs[0].name, cs[0].slug)] + CategoriesOf(cs[1..])
  }

  /** `getCollectionBySlug`: the first collection with the slug, or nothing. */
  function GetCollectionBySlug(slug: string): (r: Option<Collection>)
    ensures r.None? <==> forall c :: c in GetCollections() ==> c.slug != slug
    ensures r.Some? ==> r.value in GetCollections() && r.value.slug == slug
    ensures r.Some? ==> exists i :: FirstWithSlug(GetCollections(), i, slug) && GetCollections()[i] == r.value
  {
    ProductsData.GetCollectionBySlug(slug)
  }

  /** `getCollections`: the whole collection table. */
  function GetCollections(): (r: seq<Collection>)
    ensures |r| == |Collections| && forall i :: 0 <= i < |r| ==> r[i] == Collections[i]
  {
    Collections
  }

  /** Every listed category leads to a collection with its slug. */
  lemma CategoriesResolve()
    ensures forall i :: 0 <= i < |GetCategories()| ==>
      GetCollectionBySlug(GetCategories()[i].slug).Some? &&
      GetCollectionBySlug(GetCategories()[i].slug).value.slug == GetCategories()[i].slug
  {
    var cats := GetCategories();
    forall i | 0 <= i < |cats|
      ensures GetCollectionBySlug(cats[i].slug).Some?
    {
      assert Collections[i].slug == cats[i].slug;
    }
  }
}
