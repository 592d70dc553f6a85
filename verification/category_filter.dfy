/** The category filter bar: when it shows, the count on each button, which
    button is highlighted, and what a click selects. */
module CategoryFilter {
  import opened Common
  import opened StringOrder
  import opened Products

  /** The bar renders nothing while loading or when there are no categories. */
  predicate Visible(s: ProductsState) {
    !s.loading && |s.categories| > 0
  }

  /** The count on the "All" button. */
  function AllCount(s: ProductsState): nat {
    |s.products|
  }

  /** The count on the button of category `c`. */
  function CategoryCount(s: ProductsState, c: string): nat {
    |ProductsIn(s.products, c)|
  }

  /** The buttons in display order: "All" (a `null` selection) then one per category. */
  function Buttons(s: ProductsState): (bs: seq<Option<string>>)
    ensures |bs| == |s.categories| + 1 && bs[0] == None
    ensures forall i :: 0 <= i < |s.categories| ==> bs[i + 1] == Some(s.categories[i])
  {
    [None] + seq(|s.categories|, i requires 0 <= i < |s.categories| => Some(s.categories[i]))
  }

  /** A button is highlighted when it is the current selection. */
  predicate Highlighted(s: ProductsState, b: Option<string>) {
    b == s.selectedCategory
  }

  function HighlightedButtons(s: ProductsState): seq<Option<string>> {
    Filter(Buttons(s), (b: Option<string>) => Highlighted(s, b))
  }

  /** Clicking a button dispatches a selection of that button's value. */
  function Click(s: ProductsState, b: Option<string>): ProductsState {
    Reduce(s, SetCategory(b))
  }

  /** After clicking "All" the view shows every product, as its count says. */
  lemma AllCountMatches(s: ProductsState)
    ensures Filtered(Click(s, None)) == s.products
    ensures |Filtered(Click(s, None))| == AllCount(s)
  {
  }

  /** After clicking a category button the view shows exactly that button's count
      of products; the empty-string category is the exception, since `""` is
      falsy and selecting it shows the whole catalogue. */
  lemma CategoryCountMatches(s: ProductsState, c: string)
    ensures c != "" ==> Filtered(Click(s, Some(c))) == ProductsIn(s.products, c)
    ensures c != "" ==> |Filtered(Click(s, Some(c)))| == CategoryCount(s, c)
    ensures c == "" ==> Filtered(Click(s, Some(c))) == s.products
  {
  }

  /** A catalogue where the `""` category's button count disagrees with what it shows. */
  lemma EmptyCategoryCountDiffers(a: Product, b: Product)
    requires a.category == "" && b.category == "books"
    ensures var s := Reduce(Initial, FetchSuccess([a, b]));
      "" in s.categories && CategoryCount(s, "") == 1
      && |Filtered(Click(s, Some("")))| == 2
  {
    assert HasCategory([a, b], "") by { assert [a, b][0].category == ""; }
    var keep := InCategory("");
    assert Filter([b], keep) == Filter([], keep) by { assert [b][1..] == []; }
    assert Filter([a, b], keep) == [a] + Filter([b], keep) by { assert [a, b][1..] == [b]; }
  }

  /** Each category button of a consistent store counts at least one product. */
  lemma CategoryCountPositive(s: ProductsState, c: string)
    requires Consistent(s) && c in s.categories
    ensures CategoryCount(s, c) >= 1
  {
    var i :| 0 <= i < |s.products| && s.products[i].category == c;
    assert s.products[i] in ProductsIn(s.products, c);
  }

  /** How many times `x` occurs in `xs`. */
  function Count(xs: seq<string>, x: string): nat {
    if |xs| == 0 then 0 else (if xs[0] == x then 1 else 0) + Count(xs[1..], x)
  }

  lemma {:induction false} CountDistinct(xs: seq<string>, x: string)
    requires Distinct(xs)
    ensures Count(xs, x) == if x in xs then 1 else 0
  {
    if |xs| > 0 {
      assert xs == [xs[0]] + xs[1..];
      DistinctCons(xs[0], xs[1..]);
      CountDistinct(xs[1..], x);
    }
  }

  /** The counts on the category buttons, added up. */
  function SumCounts(cats: seq<string>, products: seq<Product>): nat {
    if |cats| == 0 then 0 else |ProductsIn(products, cats[0])| + SumCounts(cats[1..], products)
  }

  lemma {:induction false} SumCountsCons(cats: seq<string>, p: Product, rest: seq<Product>)
    ensures SumCounts(cats, [p] + rest) == Count(cats, p.category) + SumCounts(cats, rest)
  {
    if |cats| > 0 {
      SumCountsCons(cats[1..], p, rest);
      assert ([p] + rest)[1..] == rest;
    }
  }

  /** When every product's category has exactly one button, the category
      counts add up to the "All" count. */
  lemma {:induction false} SumCountsIsTotal(cats: seq<string>, products: seq<Product>)
    requires Distinct(cats)
    requires forall i :: 0 <= i < |products| ==> products[i].category in cats
    ensures SumCounts(cats, products) == |products|
    decreases |products|
  {
    if |products| == 0 {
      SumCountsEmpty(cats);
    } else {
      assert products == [products[0]] + products[1..];
      SumCountsCons(cats, products[0], products[1..]);
      CountDistinct(cats, products[0].category);
      SumCountsIsTotal(cats, products[1..]);
    }
  }

  lemma {:induction false} SumCountsEmpty(cats: seq<string>)
    ensures SumCounts(cats, []) == 0
  {
    if |cats| > 0 {
      SumCountsEmpty(cats[1..]);
    }
  }

  /** In a consistent store the category buttons' counts add up to the "All" count. */
  lemma CountsAddUp(s: ProductsState)
    requires Consistent(s)
    ensures SumCounts(s.categories, s.products) == AllCount(s)
  {
    StrictlySortedIsDistinct(s.categories);
    forall i | 0 <= i < |s.products| ensures s.products[i].category in s.categories {
      assert HasCategory(s.products, s.products[i].category);
    }
    SumCountsIsTotal(s.categories, s.products);
  }

  /** With duplicate-free categories no two buttons share a value. */
  lemma ButtonsDistinct(s: ProductsState)
    requires Distinct(s.categories)
    ensures Distinct(Buttons(s))
  {
    var bs := Buttons(s);
    forall i, j | 0 <= i < j < |bs| ensures bs[i] != bs[j] {
      if i > 0 {
        assert bs[i] == Some(s.categories[i - 1]) && bs[j] == Some(s.categories[j - 1]);
      }
    }
  }

  /** The selection is a button's value exactly when it is `null` or a listed category. */
  lemma SelectionHasButton(s: ProductsState)
    ensures s.selectedCategory in Buttons(s) <==>
      s.selectedCategory == None || s.selectedCategory.value in s.categories
  {
    var bs := Buttons(s);
    var sel := s.selectedCategory;
    if sel.Some? && sel.value in s.categories {
      var k :| 0 <= k < |s.categories| && s.categories[k] == sel.value;
      assert bs[k + 1] == sel;
    }
    if sel in bs && sel != None {
      var k :| 0 <= k < |bs| && bs[k] == sel;
      assert sel == Some(s.categories[k - 1]);
    }
  }

  /** At most one button is highlighted; exactly one when the selection is
      `null` or one of the categories, none otherwise. */
  lemma HighlightAtMostOne(s: ProductsState)
    requires Consistent(s)
    ensures |HighlightedButtons(s)| <= 1
    ensures |HighlightedButtons(s)| == 1 <==>
      s.selectedCategory == None || s.selectedCategory.value in s.categories
  {
    var bs := Buttons(s);
    var hs := HighlightedButtons(s);
    StrictlySortedIsDistinct(s.categories);
    ButtonsDistinct(s);
    SubsequenceOfDistinct(hs, bs);
    RepeatedNotDistinct(hs, s.selectedCategory);
    SelectionHasButton(s);
    if s.selectedCategory !in bs {
      NoMembersMeansEmpty(hs);
    }
  }

  /** A settled, consistent store shows the bar exactly when it has products. */
  lemma VisibleIffProducts(s: ProductsState)
    requires Consistent(s) && !s.loading
    ensures Visible(s) <==> |s.products| > 0
  {
    if |s.products| > 0 {
      assert HasCategory(s.products, s.products[0].category);
      assert s.products[0].category in s.categories;
    } else {
      forall c ensures c !in s.categories {
        assert !HasCategory(s.products, c);
      }
      NoMembersMeansEmpty(s.categories);
    }
  }
}
