/** JavaScript's `parseInt(string)` with no radix argument, as the product
    route uses it on its `id` segment. */
module JsParseInt {
  import opened Common

  /** The characters `parseInt` skips at the start: white space and line terminators. */
  predicate IsJsWhiteSpace(ch: char) {
    || ch in {'\t', '\n', '\U{B}', '\U{C}', '\r', ' ', '\U{A0}', '\U{1680}'}
    || ch in {'\U{2028}', '\U{2029}', '\U{202F}', '\U{205F}', '\U{3000}', '\U{FEFF}'}
    || ('\U{2000}' <= ch <= '\U{200A}')
  }

  /** Drops leading white space. */
  function TrimStart(s: string): (r: string)
    ensures |r| <= |s|
  {
    if |s| > 0 && IsJsWhiteSpace(s[0]) then TrimStart(s[1..]) else s
  }

  /** What is dropped is all white space, what is kept is the rest of the
      text and does not start with white space. */
  lemma {:induction false} TrimStartFacts(s: string)
    ensures var r := TrimStart(s);
      && r == s[|s| - |r|..]
      && (|r| > 0 ==> !IsJsWhiteSpace(r[0]))
      && (forall i :: 0 <= i < |s| - |r| ==> IsJsWhiteSpace(s[i]))
  {
    if |s| > 0 && IsJsWhiteSpace(s[0]) {
      TrimStartFacts(s[1..]);
    }
  }

  /** The value of a digit in radix up to 36: `0`-`9`, then `a`-`z` or `A`-`Z`;
      36 for every other character. */
  function DigitValue(ch: char): (d: nat)
    ensures d <= 36
    ensures d < 10 <==> '0' <= ch <= '9'
  {
    if '0' <= ch <= '9' then ch as int - '0' as int
    else if 'a' <= ch <= 'z' then ch as int - 'a' as int + 10
    else if 'A' <= ch <= 'Z' then ch as int - 'A' as int + 10
    else 36
  }

  predicate IsDigitIn(ch: char, radix: nat) {
    DigitValue(ch) < radix
  }

  /** The longest prefix of `s` made of digits of the radix. */
  function DigitPrefix(s: string, radix: nat): (r: string)
    ensures |r| <= |s| && r == s[..|r|]
    ensures forall i :: 0 <= i < |r| ==> IsDigitIn(r[i], radix)
    ensures |r| < |s| ==> !IsDigitIn(s[|r|], radix)
  {
    if |s| > 0 && IsDigitIn(s[0], radix) then [s[0]] + DigitPrefix(s[1..], radix) else []
  }

  /** The number a digit string denotes, most significant digit first. */
  function DigitsValue(ds: string, radix: nat): nat
    decreases |ds|
  {
    if |ds| == 0 then 0
    else radix * DigitsValue(ds[..|ds| - 1], radix) + DigitValue(ds[|ds| - 1])
  }

  /** The text starts with `0x` or `0X`. */
  predicate HexPrefixed(u: string) {
    |u| >= 2 && u[0] == '0' && (u[1] == 'x' || u[1] == 'X')
  }

  /** The digits after any sign: radix 16 behind a `0x` or `0X` prefix,
      radix 10 otherwise; no digit at all gives `None`. */
  function Unsigned(u: string): (r: Option<int>)
    ensures r.Some? ==> r.value >= 0
    ensures |u| > 0 && !IsDigitIn(u[0], 10) ==> r == None
  {
    var radix := if HexPrefixed(u) then 16 else 10;
    var ds := DigitPrefix(if HexPrefixed(u) then u[2..] else u, radix);
    if |ds| == 0 then None else Some(DigitsValue(ds, radix))
  }

  /** `parseInt(s)`: skip white space, read an optional sign, then the digits.
      No digit at all gives `NaN`, here `None`. */
  function ParseInt(s: string): (r: Option<int>)
  {
    var t := TrimStart(s);
    if |t| > 0 && t[0] == '-' then
      match Unsigned(t[1..])
      case None => None
      case Some(v) => Some(-v)
    else if |t| > 0 && t[0] == '+' then Unsigned(t[1..])
    else Unsigned(t)
  }

  /** A run of decimal digits, not read as a `0x` prefix, followed by a
      non-digit or nothing, reads as the number the run denotes. */
  lemma UnsignedDecimal(digits: string, rest: string)
    requires |digits| > 0 && forall i :: 0 <= i < |digits| ==> IsDigitIn(digits[i], 10)
    requires |rest| == 0 || !IsDigitIn(rest[0], 10)
    requires !HexPrefixed(digits + rest)
    ensures Unsigned(digits + rest) == Some(DigitsValue(digits, 10))
  {
    DigitPrefixStops(digits, rest, 10);
  }

  function DigitChar(d: nat): (ch: char)
    requires d < 10
    ensures DigitValue(ch) == d
  {
    (48 + d) as char
  }

  /** `String(n)` for a natural number: its decimal digits, no leading zero. */
  function NatToString(n: nat): (r: string)
    ensures |r| > 0
    ensures forall i :: 0 <= i < |r| ==> IsDigitIn(r[i], 10)
    ensures n > 0 ==> r[0] != '0'
  {
    if n < 10 then [DigitChar(n)] else NatToString(n / 10) + [DigitChar(n % 10)]
  }

  /** `String(n)` for an integer. */
  function IntToString(n: int): string {
    if n < 0 then "-" + NatToString(-n) else NatToString(n)
  }

  lemma {:induction false} NatToStringValue(n: nat)
    ensures DigitsValue(NatToString(n), 10) == n
  {
    if n >= 10 {
      var r := NatToString(n);
      assert r[..|r| - 1] == NatToString(n / 10);
      NatToStringValue(n / 10);
    }
  }

  /** Digits followed by a non-digit (or nothing) are read up to the non-digit. */
  lemma {:induction false} DigitPrefixStops(ds: string, rest: string, radix: nat)
    requires forall i :: 0 <= i < |ds| ==> IsDigitIn(ds[i], radix)
    requires |rest| == 0 || !IsDigitIn(rest[0], radix)
    ensures DigitPrefix(ds + rest, radix) == ds
  {
    if |ds| > 0 {
      assert (ds + rest)[1..] == ds[1..] + rest;
      DigitPrefixStops(ds[1..], rest, radix);
    } else {
      assert ds + rest == rest;
    }
  }

  /** A string that starts with a decimal digit is read without sign or
      white space; a minus sign in front of it negates the reading. */
  lemma SignedDigits(u: string)
    requires |u| > 0 && IsDigitIn(u[0], 10)
    ensures ParseInt(u) == Unsigned(u)
    ensures Unsigned(u).Some? ==> ParseInt("-" + u) == Some(-Unsigned(u).value)
  {
    assert !IsJsWhiteSpace(u[0]);
    assert TrimStart(u) == u;
    var s := "-" + u;
    assert s[0] == '-';
    assert !IsJsWhiteSpace(s[0]);
    assert TrimStart(s) == s;
    assert s[1..] == u;
  }

  /** Reading back what `String(n)` wrote gives `n`, whatever non-digit text
      follows, so long as it cannot turn a lone `0` into a `0x` prefix. */
  lemma RoundTrip(n: int, rest: string)
    requires |rest| == 0 || !IsDigitIn(rest[0], 10)
    requires n == 0 && |rest| > 0 ==> rest[0] != 'x' && rest[0] != 'X'
    ensures ParseInt(IntToString(n) + rest) == Some(n)
  {
    if n < 0 {
      NegRoundTrip(-n, rest);
    } else {
      NatRoundTrip(n, rest);
    }
  }

  lemma ConcatAssoc<T>(a: seq<T>, b: seq<T>, c: seq<T>)
    ensures (a + b) + c == a + (b + c)
  {
  }

  lemma NegRoundTrip(m: nat, rest: string)
    requires m > 0
    requires |rest| == 0 || !IsDigitIn(rest[0], 10)
    ensures ParseInt("-" + NatToString(m) + rest) == Some(-(m as int))
  {
    var d := NatToString(m);
    var u := d + rest;
    NatRoundTrip(m, rest);
    ConcatAssoc("-", d, rest);
    assert u[0] == d[0];
    SignedDigits(u);
    var v: int := m;
    assert Unsigned(u) == Some(v);
    assert ParseInt("-" + u) == Some(-v);
  }

  lemma NatRoundTrip(m: nat, rest: string)
    requires |rest| == 0 || !IsDigitIn(rest[0], 10)
    requires m == 0 && |rest| > 0 ==> rest[0] != 'x' && rest[0] != 'X'
    ensures Unsigned(NatToString(m) + rest) == Some(m)
    ensures ParseInt(NatToString(m) + rest) == Some(m)
  {
    var digits := NatToString(m);
    var u := digits + rest;
    NoHex(m, rest);
    UnsignedDecimal(digits, rest);
    NatToStringValue(m);
    assert u[0] == digits[0];
    SignedDigits(u);
  }

  lemma NoHex(m: nat, rest: string)
    requires |rest| == 0 || !IsDigitIn(rest[0], 10)
    requires m == 0 && |rest| > 0 ==> rest[0] != 'x' && rest[0] != 'X'
    ensures !HexPrefixed(NatToString(m) + rest)
  {
    var digits := NatToString(m);
    var u := digits + rest;
    if |digits| >= 2 {
      assert u[1] == digits[1];
    } else if |u| >= 2 {
      assert u[1] == rest[0];
    }
  }

  /** Text that, after white space, is empty or starts with neither a sign
      nor a decimal digit is `NaN`. */
  lemma NotANumber(s: string)
    requires var t := TrimStart(s);
      |t| == 0 || (!IsDigitIn(t[0], 10) && t[0] != '-' && t[0] != '+')
    ensures ParseInt(s) == None
  {
  }

  /** Text without a leading number is `NaN`. */
  lemma NaNExamples()
    ensures ParseInt("") == None
    ensures ParseInt("abc") == None
    ensures ParseInt("x1") == None
  {
    NotANumber("");
    NotANumber("abc");
    NotANumber("x1");
  }

  /** Decimal text is read up to the first non-digit. */
  lemma DecimalExample()
    ensures ParseInt("12abc") == Some(12)
  {
    var s := "12abc";
    assert s == "12" + "abc";
    UnsignedDecimal("12", "abc");
    assert DigitsValue("12", 10) == 10 * DigitsValue("1", 10) + 2;
    SignedDigits(s);
  }

  /** A minus sign negates the reading. */
  lemma NegativeExample()
    ensures ParseInt("-3") == Some(-3)
  {
    UnsignedDecimal("3", "");
    assert "3" + "" == "3";
    SignedDigits("3");
    assert "-" + "3" == "-3";
  }

  /** Leading white space is skipped. */
  lemma SpaceExample()
    ensures ParseInt("  7") == Some(7)
  {
    var s := "  7";
    assert IsJsWhiteSpace(s[0]) && IsJsWhiteSpace(s[1]) && !IsJsWhiteSpace(s[2]);
    assert s[1..][1..] == "7";
    assert TrimStart(s) == "7";
    UnsignedDecimal("7", "");
    assert "7" + "" == "7";
  }

  /** A `0x` prefix switches to radix 16. */
  lemma HexExample()
    ensures ParseInt("0x1A") == Some(26)
  {
    var s := "0x1A";
    assert !IsJsWhiteSpace(s[0]);
    assert TrimStart(s) == s;
    assert HexPrefixed(s);
    assert s[2..] == "1A";
    assert DigitPrefix("1A", 16) == "1A";
    assert DigitsValue("1A", 16) == 16 * DigitsValue("1", 16) + 10;
  }
}

/** The product detail page: which product the route id names, the related
    products, the one-time redirect to the home page, and which of its views
    is rendered. */
module ProductPage {
  import opened Common
  import opened Products
  import opened JsParseInt

  /** The index of the first product with id `id`, or `|products|` when none has it. */
  function FirstWithId(products: seq<Product>, id: int): (k: nat)
    ensures k <= |products|
    ensures forall j :: 0 <= j < k ==> products[j].id != id
    ensures k < |products| ==> products[k].id == id
  {
    if |products| == 0 then 0
    else if products[0].id == id then 0
    else 1 + FirstWithId(products[1..], id)
  }

  /** `products.find(p => p.id === id)`. */
  function FindById(products: seq<Product>, id: int): (r: Option<Product>)
    ensures r.None? <==> forall i :: 0 <= i < |products| ==> products[i].id != id
    ensures r.Some? ==> r.value.id == id && exists k :: (0 <= k < |products| && products[k] == r.value
      && forall j :: 0 <= j < k ==> products[j].id != id)
  {
    var k := FirstWithId(products, id);
    if k < |products| then Some(products[k]) else None
  }

  /** The product the route segment names; a segment `parseInt` reads as
      `NaN` names none, since `NaN` equals no id. */
  function Lookup(products: seq<Product>, productId: string): (r: Option<Product>)
    ensures ParseInt(productId) == None ==> r == None
    ensures r.Some? ==> ParseInt(productId) == Some(r.value.id) && r.value in products
    ensures ParseInt(productId).Some? ==> r == FindById(products, ParseInt(productId).value)
  {
    match ParseInt(productId)
    case None => None
    case Some(id) => FindById(products, id)
  }

  /** `p => p.category === current.category && p.id !== current.id`. */
  function IsRelated(current: Product): Product -> bool {
    (p: Product) => p.category == current.category && p.id != current.id
  }

  /** Up to four products sharing the category of `current` but not its id,
      the first ones in catalogue order. */
  function Related(products: seq<Product>, current: Product): (r: seq<Product>)
    ensures |r| <= 4
    ensures var all := Filter(products, IsRelated(current));
      |r| <= |all| && r == all[..|r|] && (|r| < 4 ==> r == all)
  {
    var all := Filter(products, IsRelated(current));
    all[..if |all| < 4 then |all| else 4]
  }

  /** Every related product shares the category and has another id, and they
      keep their catalogue order. */
  lemma RelatedFacts(products: seq<Product>, current: Product)
    ensures var r := Related(products, current);
      (forall i :: 0 <= i < |r| ==> r[i].category == current.category && r[i].id != current.id)
      && IsSubsequence(r, products)
  {
    var all := Filter(products, IsRelated(current));
    var r := Related(products, current);
    forall i | 0 <= i < |r| ensures r[i].category == current.category && r[i].id != current.id {
      assert r[i] == all[i];
      assert IsRelated(current)(all[i]);
    }
    PrefixOfSubsequence(all, products, |r|);
  }

  lemma {:induction false} PrefixOfSubsequence<T>(sub: seq<T>, s: seq<T>, k: nat)
    requires IsSubsequence(sub, s) && k <= |sub|
    ensures IsSubsequence(sub[..k], s)
    decreases |s|
  {
    if k > 0 {
      if sub[0] == s[0] && IsSubsequence(sub[1..], s[1..]) {
        PrefixOfSubsequence(sub[1..], s[1..], k - 1);
        assert sub[..k][1..] == sub[1..][..k - 1];
      } else {
        PrefixOfSubsequence(sub, s[1..], k);
      }
    }
  }

  /** The page's own state: the product shown, its related products, and
      whether the one redirect has been issued. */
  datatype PageState = PageState(product: Option<Product>, related: seq<Product>, hasRedirected: bool)

  /** The page as first rendered, with the product the server looked up. */
  function InitialPage(initialProduct: Option<Product>): PageState {
    PageState(initialProduct, [], false)
  }

  /** What one run of the page's effect does. */
  datatype Effect =
    | Redirect
    | Show(product: Product, related: seq<Product>)
    | MarkNotFound
    | Keep

  /** The redirect condition: not yet redirected, and either a truthy error or
      a fetch in flight with nothing loaded. */
  predicate ShouldRedirect(s: ProductsState, page: PageState) {
    !page.hasRedirected && (Truthy(s.error) || (s.loading && |s.products| == 0))
  }

  /** The effect's decision for the current store and page state. A redirect
      skips the lookup; the lookup runs only for a non-empty id over a loaded
      catalogue; a miss clears the product only when the server found none. */
  function Decide(productId: string, initialProduct: Option<Product>, s: ProductsState, page: PageState): (e: Effect)
    ensures e.Redirect? <==> ShouldRedirect(s, page)
    ensures e.Show? ==>
      productId != "" && Lookup(s.products, productId) == Some(e.product)
      && e.related == Related(s.products, e.product)
    ensures e.MarkNotFound? ==>
      productId != "" && |s.products| > 0
      && Lookup(s.products, productId) == None && initialProduct == None
    ensures !ShouldRedirect(s, page) && productId != "" && |s.products| > 0 ==>
      (e.Show? <==> Lookup(s.products, productId).Some?)
      && (e.Keep? <==> Lookup(s.products, productId) == None && initialProduct.Some?)
    ensures productId == "" || |s.products| == 0 ==> e.Redirect? || e.Keep?
  {
    if ShouldRedirect(s, page) then Redirect
    else if productId != "" && |s.products| > 0 then
      match Lookup(s.products, productId)
      case Some(p) => Show(p, Related(s.products, p))
      case None => if initialProduct.None? then MarkNotFound else Keep
    else Keep
  }

  /** The state setters one run calls: `setHasRedirected(true)` for a
      redirect, `setProduct` and `setRelatedProducts` for a hit, and
      `setProduct(null)` for a miss with no server product. */
  function ApplyEffect(page: PageState, e: Effect): (r: PageState)
    ensures e.Redirect? ==> r == page.(hasRedirected := true)
    ensures e.Show? ==> r == page.(product := Some(e.product), related := e.related)
    ensures e.MarkNotFound? ==> r == page.(product := None)
    ensures e.Keep? ==> r == page
    ensures r.hasRedirected == (page.hasRedirected || e.Redirect?)
  {
    match e
    case Redirect => page.(hasRedirected := true)
    case Show(p, related) => page.(product := Some(p), related := related)
    case MarkNotFound => page.(product := None)
    case Keep => page
  }

  /** One run of the effect against the store as it stands. */
  function Step(productId: string, initialProduct: Option<Product>, s: ProductsState, page: PageState): PageState {
    ApplyEffect(page, Decide(productId, initialProduct, s, page))
  }

  /** The effect run once per store state, in order. */
  function Steps(productId: string, initialProduct: Option<Product>, states: seq<ProductsState>, page: PageState): PageState
    decreases |states|
  {
    if |states| == 0 then page
    else Steps(productId, initialProduct, states[1..], Step(productId, initialProduct, states[0], page))
  }

  /** How many of those runs redirect. */
  function RedirectCount(productId: string, initialProduct: Option<Product>, states: seq<ProductsState>, page: PageState): nat
    decreases |states|
  {
    if |states| == 0 then 0
    else
      (if Decide(productId, initialProduct, states[0], page).Redirect? then 1 else 0)
      + RedirectCount(productId, initialProduct, states[1..], Step(productId, initialProduct, states[0], page))
  }

  /** However the store evolves, the page redirects at most once, and never
      once it has. */
  lemma {:induction false} RedirectsAtMostOnce(productId: string, initialProduct: Option<Product>,
                                               states: seq<ProductsState>, page: PageState)
    ensures RedirectCount(productId, initialProduct, states, page) <= 1
    ensures page.hasRedirected ==> RedirectCount(productId, initialProduct, states, page) == 0
    ensures page.hasRedirected ==> Steps(productId, initialProduct, states, page).hasRedirected
    decreases |states|
  {
    if |states| > 0 {
      var next := Step(productId, initialProduct, states[0], page);
      RedirectsAtMostOnce(productId, initialProduct, states[1..], next);
    }
  }

  /** A redirecting run leaves the product and the related list as they were. */
  lemma RedirectSkipsLookup(productId: string, initialProduct: Option<Product>, s: ProductsState, page: PageState)
    requires ShouldRedirect(s, page)
    ensures var r := Step(productId, initialProduct, s, page);
      r.product == page.product && r.related == page.related && r.hasRedirected
  {
  }

  /** The views the page can render. */
  datatype View =
    | RedirectingLoader
    | PushHome
    | NotFoundView
    | ProductLoader
    | Detail(product: Product, related: seq<Product>)

  /** The render branches, tried in source order. */
  function Render(s: ProductsState, page: PageState): (v: View)
    ensures v.RedirectingLoader? <==> s.loading
    ensures v.PushHome? <==> !s.loading && |s.products| == 0
    ensures v.NotFoundView? <==> !s.loading && |s.products| > 0 && page.product.None?
    ensures v.Detail? <==> !s.loading && |s.products| > 0 && page.product.Some?
    ensures v.Detail? ==> page.product == Some(v.product) && v.related == page.related
  {
    if s.loading then RedirectingLoader
    else if |s.products| == 0 then PushHome
    else if |s.products| > 0 && page.product.None? then NotFoundView
    else if page.product.None? then ProductLoader
    else Detail(page.product.value, page.related)
  }

  /** The "Loading product..." branch is never reached: a page without a
      product has already been caught by one of the branches before it. */
  lemma ProductLoaderUnreachable(s: ProductsState, page: PageState)
    ensures Render(s, page) != ProductLoader
    ensures !s.loading && |s.products| > 0 && page.product.Some? ==> Render(s, page).Detail?
  {
  }

  /** A cold start on the product route: the store is still loading with no
      products, so the page redirects once and shows the redirecting loader. */
  lemma ColdStart(productId: string, initialProduct: Option<Product>)
    ensures Decide(productId, initialProduct, Initial, InitialPage(initialProduct)) == Redirect
    ensures Render(Initial, InitialPage(initialProduct)) == RedirectingLoader
    ensures var next := Step(productId, initialProduct, Initial, InitialPage(initialProduct));
      next.hasRedirected && next.product == initialProduct
      && Decide(productId, initialProduct, Initial, next) == Keep
  {
  }

  /** The related section appears exactly when some other product shares
      the category. */
  lemma RelatedNonEmptyIff(products: seq<Product>, p: Product)
    ensures |Related(products, p)| > 0 <==>
      exists q :: q in products && q.category == p.category && q.id != p.id
  {
    var all := Filter(products, IsRelated(p));
    var r := Related(products, p);
    if exists q :: q in products && q.category == p.category && q.id != p.id {
      var q :| q in products && q.category == p.category && q.id != p.id;
      assert IsRelated(p)(q);
      assert q in all;
    }
    if |r| > 0 {
      assert r[0] == all[0];
      assert all[0] in products && IsRelated(p)(all[0]);
    }
  }

  /** With the catalogue loaded and no redirect due, an id that names a product
      renders that product's detail view with its related products: up to four
      others of its category, in catalogue order. The related grid appears
      exactly when some other product shares the category. */
  lemma FoundRendersDetail(productId: string, initialProduct: Option<Product>, s: ProductsState,
                           page: PageState, p: Product)
    requires !ShouldRedirect(s, page) && !s.loading && productId != ""
    requires Lookup(s.products, productId) == Some(p)
    ensures Render(s, Step(productId, initialProduct, s, page)) == Detail(p, Related(s.products, p))
    ensures |Related(s.products, p)| <= 4
    ensures var r := Related(s.products, p);
      (forall i :: 0 <= i < |r| ==> r[i].category == p.category && r[i].id != p.id)
      && IsSubsequence(r, s.products)
    ensures |Related(s.products, p)| > 0 <==>
      exists q :: q in s.products && q.category == p.category && q.id != p.id
  {
    assert |s.products| > 0;
    RelatedNonEmptyIff(s.products, p);
    RelatedFacts(s.products, p);
  }

  /** With the catalogue loaded, no redirect due and no product from the
      server, an id that names no product, or is not a number at all, renders
      the not-found view. */
  lemma MissingRendersNotFound(productId: string, s: ProductsState, page: PageState)
    requires !ShouldRedirect(s, page) && !s.loading && productId != "" && |s.products| > 0
    requires Lookup(s.products, productId) == None
    ensures Render(s, Step(productId, None, s, page)) == NotFoundView
  {
  }

  /** A product the server found is kept on a client-side miss. */
  lemma ServerProductKept(productId: string, s: ProductsState, page: PageState, q: Product)
    requires !ShouldRedirect(s, page) && Lookup(s.products, productId) == None
    ensures Step(productId, Some(q), s, page) == page
  {
  }

  /** A failed fetch redirects even when products are already loaded, unless
      the page has redirected before. */
  lemma ErrorRedirects(productId: string, initialProduct: Option<Product>, s: ProductsState, page: PageState)
    requires Truthy(s.error)
    ensures Decide(productId, initialProduct, s, page).Redirect? <==> !page.hasRedirected
  {
  }
}
