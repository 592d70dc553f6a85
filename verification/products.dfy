/** The catalogue store: the products reducer, its initial state, the
    `filteredProducts` selector and the two dispatches of one fetch. */
module Products {
  import opened Common
  import opened StringOrder

  /** The star rating as received; the model never computes with it. */
  datatype Rating = Rating(rate: real, count: nat)

  /** A catalogue entry. `price` is in pence so that sums are exact. */
  datatype Product = Product(
    id: int,
    title: string,
    price: nat,
    description: string,
    category: string,
    image: string,
    rating: Rating)

  datatype ProductsState = ProductsState(
    products: seq<Product>,
    categories: seq<string>,
    loading: bool,
    error: Option<string>,
    selectedCategory: Option<string>)

  datatype ProductsAction =
    | FetchStart
    | FetchSuccess(payload: seq<Product>)
    | FetchError(message: string)
    | SetCategory(category: Option<string>)

  /** The only message a failed fetch ever reports. */
  const FetchFailedMessage: string := "Failed to load products. Please try again later."

  /** The store before anything has been dispatched: no products, fetch in flight. */
  const Initial: ProductsState := ProductsState([], [], true, None, None)

  /** `payload.map(product => product.category)`. */
  function CategoryColumn(products: seq<Product>): (r: seq<string>)
    ensures |r| == |products|
    ensures forall i :: 0 <= i < |products| ==> r[i] == products[i].category
  {
    if |products| == 0 then [] else [products[0].category] + CategoryColumn(products[1..])
  }

  /** Some product of the list has category `c`. */
  predicate HasCategory(products: seq<Product>, c: string) {
    exists i :: 0 <= i < |products| && products[i].category == c
  }

  /** The category list derived on a successful fetch: every category some
      product has, once each, in ascending order. */
  function CategoriesOf(products: seq<Product>): (cats: seq<string>)
    ensures StrictlySorted(cats)
    ensures Distinct(cats)
    ensures forall c :: c in cats <==> HasCategory(products, c)
  {
    var column := CategoryColumn(products);
    var cats := SortedSet(column);
    StrictlySortedIsDistinct(cats);
    assert forall c :: c in column <==> HasCategory(products, c) by {
      forall c ensures c in column <==> HasCategory(products, c) {
        if c in column {
          var i :| 0 <= i < |column| && column[i] == c;
          assert products[i].category == c;
        }
        if HasCategory(products, c) {
          var i :| 0 <= i < |products| && products[i].category == c;
          assert column[i] == c;
        }
      }
    }
    cats
  }

  /** The reducer. Each action changes only the fields it names. */
  function Reduce(s: ProductsState, a: ProductsAction): (r: ProductsState)
    ensures a.FetchStart? ==>
      r.loading && r.error == None
      && r.products == s.products && r.categories == s.categories
      && r.selectedCategory == s.selectedCategory
    ensures a.FetchSuccess? ==>
      r.products == a.payload && !r.loading && r.error == None
      && r.selectedCategory == s.selectedCategory
      && StrictlySorted(r.categories)
      && (forall c :: c in r.categories <==> HasCategory(a.payload, c))
    ensures a.FetchError? ==>
      !r.loading && r.error == Some(a.message)
      && r.products == s.products && r.categories == s.categories
      && r.selectedCategory == s.selectedCategory
    ensures a.SetCategory? ==> r == s.(selectedCategory := a.category)
  {
    match a
    case FetchStart => s.(loading := true, error := None)
    case FetchSuccess(payload) =>
      s.(products := payload, categories := CategoriesOf(payload), loading := false, error := None)
    case FetchError(message) => s.(loading := false, error := Some(message))
    case SetCategory(category) => s.(selectedCategory := category)
  }

  /** Dispatching a list of actions one after the other. */
  function ReduceAll(s: ProductsState, actions: seq<ProductsAction>): ProductsState
    decreases |actions|
  {
    if |actions| == 0 then s else ReduceAll(Reduce(s, actions[0]), actions[1..])
  }

  /** `p => p.category === c`. */
  function InCategory(c: string): Product -> bool {
    (p: Product) => p.category == c
  }

  /** The products of category `c`, in catalogue order. */
  function ProductsIn(products: seq<Product>, c: string): (r: seq<Product>)
    ensures IsSubsequence(r, products)
    ensures forall i :: 0 <= i < |r| ==> r[i].category == c
    ensures forall p :: p in products && p.category == c ==> p in r
    ensures forall p :: multiset(r)[p] == if p.category == c then multiset(products)[p] else 0
  {
    Filter(products, InCategory(c))
  }

  /** The `filteredProducts` selector: the whole list unless the selection is
      truthy, otherwise the products of the selected category in order. */
  function Filtered(s: ProductsState): (r: seq<Product>)
    ensures !Truthy(s.selectedCategory) ==> r == s.products
    ensures Truthy(s.selectedCategory) ==>
      IsSubsequence(r, s.products)
      && (forall i :: 0 <= i < |r| ==> r[i].category == s.selectedCategory.value)
      && (forall p :: p in s.products && p.category == s.selectedCategory.value ==> p in r)
      && (forall p :: multiset(r)[p] ==
            if p.category == s.selectedCategory.value then multiset(s.products)[p] else 0)
  {
    if Truthy(s.selectedCategory) then ProductsIn(s.products, s.selectedCategory.value)
    else s.products
  }

  /** What one call of the provider's fetch dispatches: a start, then either the
      payload the service returned or the fixed failure message. `None` stands
      for a rejected request. */
  function FetchDispatches(response: Option<seq<Product>>): (actions: seq<ProductsAction>)
    ensures |actions| == 2 && actions[0] == FetchStart
    ensures response.Some? ==> actions[1] == FetchSuccess(response.value)
    ensures response.None? ==> actions[1] == FetchError(FetchFailedMessage)
  {
    match response
    case Some(payload) => [FetchStart, FetchSuccess(payload)]
    case None => [FetchStart, FetchError(FetchFailedMessage)]
  }

  /** The store's invariant: the category list is the sorted set of the
      products' categories, and a loading store reports no error. */
  ghost predicate Consistent(s: ProductsState) {
    && StrictlySorted(s.categories)
    && (forall c :: c in s.categories <==> HasCategory(s.products, c))
    && (s.loading ==> s.error == None)
  }

  /** The initial state is consistent, selects nothing, and shows no products. */
  lemma InitialConsistent()
    ensures Consistent(Initial)
    ensures Filtered(Initial) == []
    ensures CategoriesOf(Initial.products) == Initial.categories
  {
    NoMembersMeansEmpty(CategoriesOf([]));
  }

  /** Every action keeps the store consistent. */
  lemma ReducePreservesConsistent(s: ProductsState, a: ProductsAction)
    requires Consistent(s)
    ensures Consistent(Reduce(s, a))
  {
  }

  /** Any sequence of dispatches keeps the store consistent. */
  lemma {:induction false} ReduceAllPreservesConsistent(s: ProductsState, actions: seq<ProductsAction>)
    requires Consistent(s)
    ensures Consistent(ReduceAll(s, actions))
    decreases |actions|
  {
    if |actions| > 0 {
      ReducePreservesConsistent(s, actions[0]);
      ReduceAllPreservesConsistent(Reduce(s, actions[0]), actions[1..]);
    }
  }

  /** In a consistent store the category list is determined by the products:
      it is exactly the list a fresh successful fetch would derive. */
  lemma CategoriesDetermined(s: ProductsState)
    requires Consistent(s)
    ensures s.categories == CategoriesOf(s.products)
  {
    SortedListingUnique(s.categories, CategoriesOf(s.products));
  }

  /** The derived list is the one strictly sorted listing of the categories
      the products have. */
  lemma CategoriesListing(products: seq<Product>, want: seq<string>)
    requires StrictlySorted(want)
    requires forall x :: HasCategory(products, x) <==> x in want
    ensures CategoriesOf(products) == want
  {
    SortedListingUnique(CategoriesOf(products), want);
  }

  /** `[electronics, clothing, electronics]` gives `[clothing, electronics]`. */
  lemma CategoriesExample(a: Product, b: Product, c: Product)
    requires a.category == "electronics" && b.category == "clothing" && c.category == "electronics"
    ensures CategoriesOf([a, b, c]) == ["clothing", "electronics"]
  {
    var ps := [a, b, c];
    var want := ["clothing", "electronics"];
    forall x ensures HasCategory(ps, x) <==> x in want {
      if x in want {
        assert ps[if x == "clothing" then 1 else 0].category == x;
      }
    }
    assert Less("clothing", "electronics");
    CategoriesListing(ps, want);
  }

  /** A successful empty fetch leaves nothing to show, whatever is selected. */
  lemma EmptyPayload(s: ProductsState)
    ensures Reduce(s, FetchSuccess([])).products == []
    ensures Reduce(s, FetchSuccess([])).categories == []
    ensures Filtered(Reduce(s, FetchSuccess([]))) == []
  {
    NoMembersMeansEmpty(Reduce(s, FetchSuccess([])).categories);
  }

  /** A fetch, once both dispatches are applied, leaves the store settled:
      not loading; on success the payload with its categories and no error;
      on failure the fixed message with the previous products and categories.
      The selection survives either way. */
  lemma FetchSettles(s: ProductsState, response: Option<seq<Product>>)
    ensures var r := ReduceAll(s, FetchDispatches(response));
      && !r.loading
      && r.selectedCategory == s.selectedCategory
      && (response.Some? ==>
            r.products == response.value && r.error == None
            && r.categories == CategoriesOf(response.value))
      && (response.None? ==>
            r.error == Some(FetchFailedMessage)
            && r.products == s.products && r.categories == s.categories)
  {
    var actions := FetchDispatches(response);
    var mid := Reduce(s, actions[0]);
    assert ReduceAll(s, actions) == ReduceAll(Reduce(mid, actions[1]), actions[2..]);
  }

  /** The first fetch failing leaves an empty catalogue with the fixed message. */
  lemma FirstFetchFails()
    ensures var r := ReduceAll(Initial, FetchDispatches(None));
      r.products == [] && r.categories == [] && !r.loading
      && r.error == Some(FetchFailedMessage) && Filtered(r) == []
  {
    FetchSettles(Initial, None);
  }

  /** Choosing a category changes the selection and nothing else: the fetched
      data and the fetch status are untouched, so no refetch is implied. */
  lemma SetCategoryOnlySelects(s: ProductsState, c: Option<string>)
    ensures var r := Reduce(s, SetCategory(c));
      r.products == s.products && r.categories == s.categories
      && r.loading == s.loading && r.error == s.error
      && r.selectedCategory == c
  {
  }

  /** With no truthy selection everything is shown; a selection no product
      has shows nothing. */
  lemma {:induction false} FilterBoundaries(s: ProductsState)
    ensures s.selectedCategory == None ==> Filtered(s) == s.products
    ensures s.selectedCategory == Some("") ==> Filtered(s) == s.products
    ensures Truthy(s.selectedCategory) && !HasCategory(s.products, s.selectedCategory.value) ==>
      Filtered(s) == []
  {
    if Truthy(s.selectedCategory) && !HasCategory(s.products, s.selectedCategory.value) {
      NoMembersMeansEmpty(Filtered(s));
    }
  }
}
