# Storefront state model

A Dafny model of the client-side state of a small Next.js storefront:

- **the catalogue store**:
  - the `productsReducer` over its four actions, and its initial state;
  - the `filteredProducts` selector;
  - the two dispatches one fetch makes;
- **the cart store**: add, remove, update quantity, clear and total;
- **the components that compute over these stores**:
  - the plus/minus quantity button;
  - the cart panel: its rows, buttons, subtotals, total and empty branch;
  - the navigation bar's item count and home-page test;
  - the category filter bar;
  - the product detail page:
    - the route id read with JavaScript's `parseInt`;
    - the product lookup and the related products;
    - the one-time redirect decision and the render branches.

Both stores are immutable datatypes, and every operation is a pure function.

Prices are whole pence (`nat`), so every total is exact.

A `string | null` is an `Option<string>`. Where the source tests a value for JavaScript truthiness, `Common.Truthy` makes `null` and `""` alike.

Modules, in dependency order:

| module | file | what it holds |
|---|---|---|
| `Common` | `common.dfy` | `Option`, truthiness, duplicate-freedom, `Array.prototype.filter`, subsequences |
| `StringOrder` | `string_order.dfy` | the order `sort()` uses on strings, `new Set` de-duplication, the sorted category list |
| `Products` | `products.dfy` | catalogue state and actions, the reducer, the selector, the fetch dispatches, the store invariant |
| `Cart` | `cart.dfy` | cart lines, the four cart operations, the total, the test scenarios |
| `QuantityButton`, `CartPanel`, `Navbar` | `cart_views.dfy` | the components over the cart |
| `CategoryFilter` | `category_filter.dfy` | the filter bar |
| `JsParseInt`, `ProductPage` | `product_page.dfy` | `parseInt` and the product detail page |

Two behaviours of the source are worth knowing. Both are stated as lemmas.

- A product whose category is the empty string gets a filter button. Its count is the number of such products, but clicking it shows the whole catalogue, because `""` is falsy in the selector. See `CategoryFilter.EmptyCategoryCountDiffers`.
- The product page's "Loading product..." branch can never be rendered. A page without a product is always caught by an earlier branch. See `ProductPage.ProductLoaderUnreachable`.

The cart implementation file (`src/contexts/CartContext.tsx`) is not part of this model. Its operations are modelled from the assertions of its test file. Where those assertions leave a case open, the model makes a choice, and "## Left out" names each one.

## Model

| member | source | states |
|---|---|---|
| Common.Filter | src/contexts/ProductsContext.tsx:94 | the kept elements are exactly those of the input that satisfy the predicate, with their multiplicities, as an order-preserving subsequence |
| Common.Truthy | src/contexts/ProductsContext.tsx:93 | the definition of JavaScript truthiness of a string or `null`: `null` and `""` are falsy, every other string is truthy; also the `state.error` test at src/components/product/product-page-client.tsx:35 |
| StringOrder.Less | src/contexts/ProductsContext.tsx:39 | the definition of the order `sort()` uses: first differing character, a proper prefix first |
| StringOrder.LessTransitive | src/contexts/ProductsContext.tsx:39 | the string order used by `sort()` is transitive |
| StringOrder.LessTotal | src/contexts/ProductsContext.tsx:39 | any two different strings are ordered one way or the other |
| StringOrder.Dedup | src/contexts/ProductsContext.tsx:37-38 | `Array.from(new Set(xs))` has no duplicates and the same members as `xs` |
| StringOrder.Insert | src/contexts/ProductsContext.tsx:39 | inserting a new string into a strictly sorted list keeps it strictly sorted and adds exactly that string |
| StringOrder.Sort | src/contexts/ProductsContext.tsx:39 | sorting a duplicate-free list gives a strictly ascending permutation of it |
| StringOrder.SortedSet | src/contexts/ProductsContext.tsx:37-39 | the result is strictly ascending and holds exactly the strings of the input |
| StringOrder.SortedListingUnique | src/contexts/ProductsContext.tsx:37-39 | two strictly sorted lists with the same members are equal, so the category list is determined by its members |
| Products.CategoryColumn | src/contexts/ProductsContext.tsx:38 | position by position, the category of each product |
| Products.CategoriesOf | src/contexts/ProductsContext.tsx:37-39 | the derived categories are strictly sorted, duplicate-free, and a string is one of them exactly when some product has it |
| Products.Reduce | src/contexts/ProductsContext.tsx:30-59 | the effect of each action on each field: start sets loading and clears the error; success stores the payload with its sorted categories; error stores the message; select changes only the selection; every other field is kept |
| Products.ReduceAll | src/contexts/ProductsContext.tsx:70 | the definition of `useReducer` dispatching: the actions are applied one after another, in order |
| Products.ProductsIn | src/components/category-filter.tsx:31 | the products of one category: an order-preserving subsequence holding every product of that category and nothing else |
| Products.Filtered | src/contexts/ProductsContext.tsx:93-95 | a falsy selection (null or "") shows every product; a truthy one shows, in order, exactly the products of that category, each as many times as the catalogue holds it |
| Products.FetchDispatches | src/contexts/ProductsContext.tsx:72-83 | a fetch dispatches a start, then the payload on success or the fixed failure message on rejection |
| Products.Initial | src/contexts/ProductsContext.tsx:61-67 | the definition of the initial store: no products, no categories, loading, no error, no selection |
| Products.InitialConsistent | src/contexts/ProductsContext.tsx:61-67 | the initial store satisfies the store invariant, shows nothing, and its empty category list is the one its empty catalogue derives |
| Products.ReducePreservesConsistent | src/contexts/ProductsContext.tsx:30-59 | every action keeps the category list equal to the sorted set of product categories, and keeps a loading store free of errors |
| Products.ReduceAllPreservesConsistent | src/contexts/ProductsContext.tsx:70 | any sequence of dispatches from a consistent store leaves it consistent |
| Products.CategoriesDetermined | src/contexts/ProductsContext.tsx:37-39 | in a consistent store the category list is exactly what a fresh fetch of the same products derives |
| Products.CategoriesListing | src/contexts/ProductsContext.tsx:37-39 | the derived category list is the one strictly sorted listing of the categories the products have |
| Products.CategoriesExample | src/contexts/__tests__/ProductsContext.test.tsx:117-128 | electronics, clothing, electronics gives the categories clothing, electronics |
| Products.EmptyPayload | src/contexts/__tests__/ProductsContext.test.tsx:130-142 | an empty payload leaves no products, no categories and nothing to show |
| Products.FetchSettles | src/contexts/ProductsContext.tsx:72-83 | after a fetch the store is not loading and keeps its selection; success installs the payload and its categories with no error; failure keeps the old catalogue and reports the fixed message |
| Products.FirstFetchFails | src/contexts/__tests__/ProductsContext.test.tsx:102-115 | a failing first fetch leaves an empty catalogue, not loading, with the fixed message |
| Products.SetCategoryOnlySelects | src/contexts/ProductsContext.tsx:89-91 | selecting a category changes the selection and no other field |
| Products.FilterBoundaries | src/contexts/ProductsContext.tsx:93-95 | null and "" both show everything; a truthy category no product has shows nothing |
| Cart.LineSubtotal | src/components/Cart.tsx:56 | the definition of a row's subtotal: price times quantity |
| Cart.Total | src/contexts/__tests__/CartContext.test.tsx:127-137 | the definition of `state.total`: the line subtotals added up |
| Cart.IncrementLine | src/contexts/__tests__/CartContext.test.tsx:51-61 | incrementing keeps the same ids in the same order and keeps every quantity positive |
| Cart.IncrementLineLines | src/contexts/__tests__/CartContext.test.tsx:51-61 | position by position, every line keeps its product; the line for the id has one more unit and every other line its old quantity |
| Cart.IncrementLineQuantity | src/contexts/__tests__/CartContext.test.tsx:51-61 | the line for the id gains exactly one unit and no other line changes |
| Cart.IncrementLineTotal | src/contexts/__tests__/CartContext.test.tsx:51-61 | with one line per id, incrementing adds that line's unit price to the total |
| Cart.SetLineQuantity | src/contexts/__tests__/CartContext.test.tsx:90-100 | the line for the id gets the new quantity; ids and other quantities are unchanged; an absent id changes nothing |
| Cart.SetLineLines | src/contexts/__tests__/CartContext.test.tsx:90-100 | position by position, every line keeps its product; the line for the id has the new quantity and every other line its old one |
| Cart.SetLineTotal | src/contexts/__tests__/CartContext.test.tsx:98-99 | with one line per id, setting a quantity replaces that line's subtotal in the total by the new quantity times its price |
| Cart.RemoveLine | src/contexts/__tests__/CartContext.test.tsx:76-88 | the remaining lines are an order-preserving subsequence, holding every id except the removed one |
| Cart.RemoveLineQuantity | src/contexts/__tests__/CartContext.test.tsx:76-88 | other quantities are unchanged, and removing an absent id changes nothing |
| Cart.RemoveLineDistinct | src/contexts/__tests__/CartContext.test.tsx:76-88 | removal keeps ids unique and drops exactly one line when the id was present |
| Cart.RemoveLineTotal | src/contexts/__tests__/CartContext.test.tsx:76-88 | removal takes exactly that line's subtotal off the total |
| Cart.AddToCart | src/contexts/__tests__/CartContext.test.tsx:38-73 | a new product is appended with quantity 1; a present one gains one unit with the ids in the same order; every existing line keeps its place and product; other quantities are unchanged; the cart invariant is kept |
| Cart.AppendFacts | src/contexts/__tests__/CartContext.test.tsx:38-48 | appending a line for a new id extends the ids, adds its quantity and adds its subtotal to the total |
| Cart.AddToCartTotal | src/contexts/__tests__/CartContext.test.tsx:38-73 | one add raises the total by exactly one unit price |
| Cart.RemoveFromCart | src/contexts/__tests__/CartContext.test.tsx:76-88 | the id's line is gone, the others stay in order with their quantities, the invariant is kept, and an absent id changes nothing |
| Cart.RemoveFromCartTotal | src/contexts/__tests__/CartContext.test.tsx:76-88 | removal lowers the total by exactly the removed line's subtotal |
| Cart.UpdateQuantity | src/contexts/__tests__/CartContext.test.tsx:90-112 | a quantity of zero or less is a removal; a positive one sets that line's quantity, and every line keeps its place, its product and, for other ids, its quantity; an absent id changes nothing; the invariant is kept |
| Cart.UpdateQuantityTotal | src/contexts/__tests__/CartContext.test.tsx:90-100 | in a well-formed cart a positive update changes the total by the new quantity times the line's price less the line's old subtotal |
| Cart.ClearCart | src/contexts/__tests__/CartContext.test.tsx:114-125 | clearing leaves no lines and a zero total |
| Cart.EmptyCart | src/contexts/__tests__/CartContext.test.tsx:31-35 | the definition of the initial cart: no lines, so a total of 0 |
| Cart.ScenarioAdd | src/contexts/__tests__/CartContext.test.tsx:38-62 | one add gives one line of quantity 1 at the product's price; a second add gives quantity 2 and twice the price |
| Cart.ScenarioRemove | src/contexts/__tests__/CartContext.test.tsx:76-88 | add 1, add 2, remove 1 leaves only product 2's line, and the total is its price |
| Cart.ScenarioUpdate | src/contexts/__tests__/CartContext.test.tsx:90-112 | setting quantity 5 gives five times the price; setting 0 empties the cart |
| Cart.ScenarioTotal | src/contexts/__tests__/CartContext.test.tsx:127-138 | A at 10.00 twice, B at 20.00 once, then B set to 3, totals 80.00 over two lines |
| Cart.AddAllQuantities | src/contexts/__tests__/CartContext.test.tsx:51-73 | after any series of adds each quantity grows by the number of times its id was added, and lines exist exactly for ids present or added |
| Cart.AddAllFromEmpty | src/contexts/__tests__/CartContext.test.tsx:51-73 | adds into an empty cart give one line per distinct id, each holding the number of times it was added |
| QuantityButton.NewQuantity | src/components/cart/edit-item-quantity-button.tsx:23-25 | minus asks for one less, never below zero; plus asks for one more |
| QuantityButton.Click | src/components/cart/edit-item-quantity-button.tsx:22-27 | the request always targets the button's own product id, with a non-negative quantity |
| QuantityButton.Apply | src/components/cart/edit-item-quantity-button.tsx:26 | the definition of sending the request to the cart: `updateQuantity(item.product.id, newQuantity)` |
| QuantityButton.PlusMinusInverse | src/components/cart/edit-item-quantity-button.tsx:23-25 | minus undoes plus, and plus undoes minus on a positive quantity |
| QuantityButton.SetOneMoreIsIncrement | src/components/cart/edit-item-quantity-button.tsx:25-26 | with one line per id, setting one more unit equals incrementing the line |
| QuantityButton.PlusIsAddToCart | src/components/cart/edit-item-quantity-button.tsx:25-26 | plus on a line has the same effect as adding its product again |
| QuantityButton.MinusEffect | src/components/cart/edit-item-quantity-button.tsx:24-26 | minus on quantity 1 removes the line; on a larger quantity it takes one unit off; the invariant is kept |
| CartPanel.Rows | src/components/Cart.tsx:23-24 | one row per line in cart order, keyed by product id, showing the quantity and price times quantity |
| CartPanel.Decrease | src/components/Cart.tsx:40 | the definition of the decrease request: one less, never below zero |
| CartPanel.Increase | src/components/Cart.tsx:48 | the definition of the increase request: one more |
| CartPanel.Remove | src/components/Cart.tsx:58 | the definition of the remove request: the line's own id |
| CartPanel.ShowsEmpty | src/components/Cart.tsx:10 | the definition of the empty-cart branch: the cart has no lines |
| CartPanel.ButtonsAgree | src/components/Cart.tsx:40-58 | decrease and increase send the same requests as the minus and plus buttons; remove sends the line's own id |
| CartPanel.QuantityTwoExample | src/components/Cart.tsx:40-48 | on quantity 2, decrease asks for 1 and increase asks for 3 |
| CartPanel.RowsAddUpToTotal | src/components/Cart.tsx:56-71 | the row subtotals add up to the total shown at the bottom |
| CartPanel.RowKeysUnique | src/components/Cart.tsx:24 | row keys are unique exactly when the cart has one line per product |
| CartPanel.EmptyBranch | src/components/Cart.tsx:10-17 | the empty message shows exactly when there are no rows, exactly when the navigation bar shows no badge, and the total is then zero |
| CartPanel.RemoveEffect | src/components/Cart.tsx:58 | remove takes out that line only and keeps the cart well formed |
| Navbar.IsHomePage | src/components/layout/navbar.tsx:16 | the definition of the home-page test: the path is "/" |
| Navbar.HomeLinkClick | src/components/layout/navbar.tsx:26-34 | a click on the home link always leaves the browser on the home page; on the home page it changes nothing, elsewhere it navigates |
| Navbar.HomeLinkSettles | src/components/layout/navbar.tsx:26-34 | a second click on the home link does nothing |
| Navbar.HomeLinkFromProducts | src/components/layout/navbar.tsx:26-34 | a click on the home link from "/products" leads to "/" |
| Navbar.BadgeIffLines | src/components/layout/navbar.tsx:15-59 | with positive quantities the count is at least the number of lines, and the badge shows exactly when there are lines |
| Navbar.ItemCount | src/components/layout/navbar.tsx:15 | the definition of the badge count: the quantities of the lines added up |
| Navbar.BadgeShown | src/components/layout/navbar.tsx:59 | the definition of the badge test: the count is positive |
| Navbar.ItemCountIsQuantitySum | src/components/layout/navbar.tsx:15 | with one line per id, the count is the sum over the cart's ids of the quantity held for each |
| Navbar.IncrementCount | src/components/layout/navbar.tsx:15 | incrementing an existing line raises the count by one |
| Navbar.AppendCount | src/components/layout/navbar.tsx:15 | appending a line raises the count by its quantity |
| Navbar.AddToCartCount | src/components/layout/navbar.tsx:15 | any add raises the badge count by exactly one |
| Navbar.AddAllCount | src/components/layout/navbar.tsx:15 | n adds raise the count by n |
| Navbar.EmptyCartNoBadge | src/components/layout/navbar.tsx:15-59 | an empty or cleared cart counts 0 and shows no badge |
| CategoryFilter.Visible | src/components/category-filter.tsx:9-11 | the definition of when the bar renders: not loading and some category |
| CategoryFilter.CategoryCount | src/components/category-filter.tsx:31 | the definition of a category button's count: the number of products of that category |
| CategoryFilter.Highlighted | src/components/category-filter.tsx:23 | the definition of the highlight test: the button's value is the selection |
| CategoryFilter.Buttons | src/components/category-filter.tsx:19-46 | "All" (a null selection) first, then one button per category in order |
| CategoryFilter.AllCount | src/components/category-filter.tsx:28 | the definition of the "All Products (n)" count: the number of products in the store |
| CategoryFilter.Click | src/components/category-filter.tsx:20-35 | the definition of a button click: "All" selects null, a category button selects its category |
| CategoryFilter.AllCountMatches | src/components/category-filter.tsx:20-28 | clicking "All" shows every product, as many as its count says |
| CategoryFilter.CategoryCountMatches | src/components/category-filter.tsx:31-35 | clicking a non-empty category shows exactly the products its count counts; the "" category shows everything |
| CategoryFilter.EmptyCategoryCountDiffers | src/components/category-filter.tsx:31-35 | a catalogue whose "" button counts 1 but shows 2 products |
| CategoryFilter.CategoryCountPositive | src/components/category-filter.tsx:30-31 | in a consistent store every category button counts at least one product |
| CategoryFilter.SumCountsCons | src/components/category-filter.tsx:31 | one more product adds one to the count of each button showing its category |
| CategoryFilter.SumCountsIsTotal | src/components/category-filter.tsx:28-31 | when each product's category has exactly one button, the counts sum to the product count |
| CategoryFilter.CountsAddUp | src/components/category-filter.tsx:28-31 | in a consistent store the category counts add up to the "All" count |
| CategoryFilter.HighlightAtMostOne | src/components/category-filter.tsx:23-38 | at most one button is highlighted; exactly one when the selection is null or a listed category |
| CategoryFilter.VisibleIffProducts | src/components/category-filter.tsx:9-11 | a settled, consistent store shows the bar exactly when it has products |
| JsParseInt.ParseInt | src/components/product/product-page-client.tsx:44 | the definition of `parseInt` without a radix: skip white space, read a sign, read digits of radix 16 behind `0x` and of radix 10 otherwise, NaN when there is no digit; its properties are the lemmas below |
| JsParseInt.TrimStartFacts | src/components/product/product-page-client.tsx:44 | exactly the leading white space is dropped |
| JsParseInt.DigitPrefix | src/components/product/product-page-client.tsx:44 | the longest prefix made of digits of the radix |
| JsParseInt.NatToStringValue | src/components/product/product-page-client.tsx:44 | the decimal digits of n denote n |
| JsParseInt.DigitPrefixStops | src/components/product/product-page-client.tsx:44 | digits are read up to the first non-digit |
| JsParseInt.UnsignedDecimal | src/components/product/product-page-client.tsx:44 | a decimal run that is not a 0x prefix reads as the number it denotes |
| JsParseInt.SignedDigits | src/components/product/product-page-client.tsx:44 | a leading minus negates the reading |
| JsParseInt.RoundTrip | src/components/product/product-page-client.tsx:44 | parseInt reads back String(n) for every integer n, with any trailing non-digit text that cannot form a 0x prefix |
| JsParseInt.NotANumber | src/components/product/product-page-client.tsx:44 | text with no sign or digit after the white space is NaN |
| JsParseInt.NaNExamples | src/components/product/product-page-client.tsx:44 | "", "abc" and "x1" are NaN |
| JsParseInt.DecimalExample | src/components/product/product-page-client.tsx:44 | "12abc" is 12 |
| JsParseInt.NegativeExample | src/components/product/product-page-client.tsx:44 | "-3" is -3 |
| JsParseInt.SpaceExample | src/components/product/product-page-client.tsx:44 | "  7" is 7: leading spaces are skipped |
| JsParseInt.HexExample | src/components/product/product-page-client.tsx:44 | "0x1A" is 26 |
| ProductPage.FirstWithId | src/components/product/product-page-client.tsx:45 | the first index with that id, or the length when none has it |
| ProductPage.FindById | src/components/product/product-page-client.tsx:45 | `find` gives the first product with that id, and nothing exactly when no product has it |
| ProductPage.Lookup | src/components/product/product-page-client.tsx:44-45 | a NaN id names nothing; a found product has the parsed id and is in the catalogue |
| ProductPage.Related | src/components/product/product-page-client.tsx:53-55 | at most four, the first ones that qualify, and all of them when fewer than four qualify |
| ProductPage.RelatedFacts | src/components/product/product-page-client.tsx:53-55 | each related product shares the category and not the id, in catalogue order |
| ProductPage.RelatedNonEmptyIff | src/components/product/product-page-client.tsx:53-55 | there are related products exactly when another product shares the category |
| ProductPage.ShouldRedirect | src/components/product/product-page-client.tsx:35 | the definition of the redirect condition: not yet redirected, and a truthy error or a fetch in flight with no products |
| ProductPage.Decide | src/components/product/product-page-client.tsx:35-61 | redirect exactly when not yet redirected and there is a truthy error or an empty loading catalogue; otherwise, for a non-empty id over a loaded catalogue, show exactly when the lookup finds a product (with its related products), keep exactly when it finds none and the server found one, and mark not found when neither found one; with no id or no products, nothing happens |
| ProductPage.ApplyEffect | src/components/product/product-page-client.tsx:37-59 | a redirect only sets the flag; a hit stores the found product and its related list and nothing else; a miss with no server product clears the product and nothing else; keep changes nothing; the flag is set exactly after a redirect |
| ProductPage.InitialPage | src/components/product/product-page-client.tsx:22-24 | the definition of the page state at first render: the server's product, no related products, not yet redirected |
| ProductPage.RedirectsAtMostOnce | src/components/product/product-page-client.tsx:35-39 | across any sequence of store states the page redirects at most once, and never after it has |
| ProductPage.RedirectSkipsLookup | src/components/product/product-page-client.tsx:35-40 | a redirecting run leaves the product and related products unchanged |
| ProductPage.Render | src/components/product/product-page-client.tsx:72-109 | the loading view exactly when loading; the empty-catalogue branch exactly when settled and empty; not found exactly when settled, non-empty and without a product; the detail view exactly otherwise, showing the page's product and related list |
| ProductPage.ProductLoaderUnreachable | src/components/product/product-page-client.tsx:83-109 | the "Loading product..." branch is never rendered; a settled non-empty page with a product shows it |
| ProductPage.ColdStart | src/components/product/product-page-client.tsx:35-39 | on the initial store the page redirects once, renders the redirecting loader, and does not redirect again |
| ProductPage.FoundRendersDetail | src/components/product/product-page-client.tsx:43-56 | a loaded id that names a product renders its detail view, carrying the related list the effect computed: at most four products of the same category with other ids, in catalogue order, non-empty exactly when another product shares the category (rendered at line 141) |
| ProductPage.MissingRendersNotFound | src/components/product/product-page-client.tsx:57-60 | a loaded id that names nothing, with no server product, renders not found |
| ProductPage.ServerProductKept | src/components/product/product-page-client.tsx:57 | a client-side miss keeps the product the server found |
| ProductPage.ErrorRedirects | src/components/product/product-page-client.tsx:35 | a truthy error redirects exactly when the page has not redirected yet, even with products loaded |

## Left out

- The network is not modelled: the product service, axios and the fetch-on-mount effect. A fetch is represented by the actions it dispatches (`Products.FetchDispatches`), with the service's answer as a parameter.
- `refetch`, and the race between overlapping fetches, are not modelled. The model applies dispatches in a given order.
- `scripts/health-check.js` is not modelled: it does HTTP, timeouts and process exit codes.
- Rendering is not modelled beyond which branch is taken and what it shows: markup, styles, images, transitions, `router.push`, `window.scrollTo` and console logging.
- The errors for using a context outside its provider are not modelled: they belong to React plumbing, not to the stores.
- Floating-point prices and their display are not modelled: `toFixed(2)`, the currency sign, and the rating's `Math.floor`. Prices are whole pence, so sums are exact. The rating is carried but never computed with.
- `toUpperCase` on category headings and the `Loading` size map are not modelled: both are presentational.
- StringOrder.Less: orders strings by code point. `sort()` orders by UTF-16 code unit, so the two differ only between characters above U+FFFF and characters in U+E000..U+FFFF.
- JsParseInt.ParseInt: values are unbounded integers. JavaScript numbers lose precision above 2^53, and ids that large do not occur.
- JsParseInt.IntToString: gives plain decimal digits. `String(n)` switches to exponent notation from 10^21, outside any realistic id.
- Cart.UpdateQuantity: a negative quantity removes the line, as zero does, and an update for an id with no line changes nothing. The tests exercise only quantity 0 on a present line, so both are modelling choices.
- Cart.RemoveFromCart: removing an id with no line changes nothing. No test exercises it, so this is a modelling choice.
- Cart.AddToCart: when the product is already in the cart, the line keeps the product object it was first added with. The tests do not say which object is kept.
- The cart implementation file is not part of this model. The cart is specified by its test assertions, with the choices listed above where they leave a case open.
- The product page's second effect is not modelled: it scrolls to the top when a product is set.
- The server-side lookup of the route page is not modelled. Its result enters as the `initialProduct` parameter.
