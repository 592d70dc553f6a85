/** The plus/minus button of the cart drawer: the quantity it requests and
    for which product. */
module QuantityButton {
  import opened Common
  import opened Cart

  datatype Direction = Plus | Minus

  /** The arguments of one `updateQuantity(id, quantity)` call. */
  datatype QuantityRequest = QuantityRequest(id: int, quantity: int)

  /** The quantity the button asks for: one less, never below zero, or one more. */
  function NewQuantity(dir: Direction, q: nat): (n: int)
    ensures n >= 0
    ensures dir.Plus? ==> n == q + 1
    ensures dir.Minus? ==> n <= q && (q >= 1 ==> n == q - 1)
  {
    match dir
    case Minus => if q - 1 > 0 then q - 1 else 0
    case Plus => q + 1
  }

  /** What a click on the button for `item` asks the cart to do. */
  function Click(item: CartItem, dir: Direction): (r: QuantityRequest)
    ensures r.id == item.product.id
    ensures r.quantity >= 0
  {
    QuantityRequest(item.product.id, NewQuantity(dir, item.quantity))
  }

  /** Applying a request to the cart. */
  function Apply(c: CartState, r: QuantityRequest): CartState {
    UpdateQuantity(c, r.id, r.quantity)
  }

  /** Minus undoes plus, and plus undoes minus on any positive quantity. */
  lemma PlusMinusInverse(q: nat)
    ensures NewQuantity(Minus, NewQuantity(Plus, q) as nat) == q
    ensures q >= 1 ==> NewQuantity(Plus, NewQuantity(Minus, q) as nat) == q
  {
  }

  /** Incrementing a quantity in place is the same as setting it to one more. */
  lemma SetOneMoreIsIncrement(items: seq<CartItem>, id: int)
    requires Distinct(Ids(items))
    ensures SetLineQuantity(items, id, QuantityOf(items, id) + 1) == IncrementLine(items, id)
  {
    UniqueIdsIffDistinct(items);
    UniqueSetOneMore(items, id);
  }

  lemma {:induction false} UniqueSetOneMore(items: seq<CartItem>, id: int)
    requires UniqueIds(items)
    ensures SetLineQuantity(items, id, QuantityOf(items, id) + 1) == IncrementLine(items, id)
  {
    if |items| > 0 {
      var h := items[0];
      var tail := items[1..];
      if h.product.id == id {
        IncrementAbsent(tail, id);
        assert SetLineQuantity(items, id, h.quantity + 1) == [h.(quantity := h.quantity + 1)] + tail;
      } else {
        UniqueSetOneMore(tail, id);
        assert QuantityOf(items, id) == QuantityOf(tail, id);
      }
    }
  }

  /** Plus on a line of the cart does exactly what adding its product again does. */
  lemma PlusIsAddToCart(c: CartState, i: nat)
    requires WellFormed(c) && i < |c.items|
    ensures Apply(c, Click(c.items[i], Plus)) == AddToCart(c, c.items[i].product)
  {
    UniqueIdsIffDistinct(c.items);
    UniquePlus(c, i);
  }

  lemma UniquePlus(c: CartState, i: nat)
    requires UniqueIds(c.items) && i < |c.items|
    ensures Apply(c, Click(c.items[i], Plus)) == AddToCart(c, c.items[i].product)
  {
    var item := c.items[i];
    UniqueIdsIffDistinct(c.items);
    PlusOnLine(c.items, i);
    RaiseIsSet(c, item.product.id, item.quantity + 1);
    AddExisting(c, i);
  }

  /** Adding the product of line `i` increments that line. */
  lemma AddExisting(c: CartState, i: nat)
    requires i < |c.items|
    ensures AddToCart(c, c.items[i].product) == CartState(IncrementLine(c.items, c.items[i].product.id))
  {
    assert Ids(c.items)[i] == c.items[i].product.id;
  }

  /** A positive request only sets the line's quantity. */
  lemma RaiseIsSet(c: CartState, id: int, q: int)
    requires q > 0
    ensures Apply(c, QuantityRequest(id, q)) == CartState(SetLineQuantity(c.items, id, q))
  {
  }

  /** On the lines themselves: one more unit on line `i` is its increment. */
  lemma PlusOnLine(items: seq<CartItem>, i: nat)
    requires Distinct(Ids(items)) && i < |items|
    ensures SetLineQuantity(items, items[i].product.id, items[i].quantity + 1)
      == IncrementLine(items, items[i].product.id)
  {
    var id := items[i].product.id;
    var q: nat := items[i].quantity;
    LineLookup(items, i);
    assert QuantityOf(items, id) == q;
    SetOneMoreIsIncrement(items, id);
    assert SetLineQuantity(items, id, QuantityOf(items, id) + 1) == IncrementLine(items, id);
    assert SetLineQuantity(items, id, q + 1) == IncrementLine(items, id);
  }

  /** Minus on a line with one unit removes the line; on a larger quantity
      it takes one unit off. The cart stays well formed either way. */
  lemma MinusEffect(c: CartState, i: nat)
    requires WellFormed(c) && i < |c.items|
    ensures var id := c.items[i].product.id;
      var r := Apply(c, Click(c.items[i], Minus));
      && WellFormed(r)
      && (c.items[i].quantity == 1 ==> r == RemoveFromCart(c, id) && !HasLine(r.items, id))
      && (c.items[i].quantity > 1 ==> QuantityOf(r.items, id) == c.items[i].quantity - 1)
  {
    var id := c.items[i].product.id;
    LineLookup(c.items, i);
    assert HasLine(c.items, id) by { assert Ids(c.items)[i] == id; }
  }
}

/** The cart panel: its empty branch, the rows it renders, and the requests
    its decrease, increase and remove buttons send. */
module CartPanel {
  import opened Common
  import opened Cart
  import QuantityButton
  import Navbar

  /** What a button of a row asks the cart to do. */
  datatype PanelRequest = UpdateRequest(id: int, quantity: int) | RemoveRequest(id: int)

  /** One rendered row: the React key, the quantity shown and the line subtotal. */
  datatype Row = Row(key: int, quantity: nat, subtotal: nat)

  /** The "Your cart is empty" branch is taken exactly when there are no lines. */
  predicate ShowsEmpty(c: CartState) {
    |c.items| == 0
  }

  function Decrease(item: CartItem): PanelRequest {
    UpdateRequest(item.product.id, if item.quantity - 1 > 0 then item.quantity - 1 else 0)
  }

  function Increase(item: CartItem): PanelRequest {
    UpdateRequest(item.product.id, item.quantity + 1)
  }

  function Remove(item: CartItem): PanelRequest {
    RemoveRequest(item.product.id)
  }

  function Dispatch(c: CartState, r: PanelRequest): CartState {
    match r
    case UpdateRequest(id, q) => UpdateQuantity(c, id, q)
    case RemoveRequest(id) => RemoveFromCart(c, id)
  }

  /** `state.items.map(...)`: one row per line, keyed by product id. */
  function Rows(c: CartState): (rows: seq<Row>)
    ensures |rows| == |c.items|
    ensures forall i :: 0 <= i < |rows| ==>
      rows[i].key == c.items[i].product.id
      && rows[i].quantity == c.items[i].quantity
      && rows[i].subtotal == c.items[i].product.price * c.items[i].quantity
  {
    seq(|c.items|, i requires 0 <= i < |c.items| =>
      Row(c.items[i].product.id, c.items[i].quantity, LineSubtotal(c.items[i])))
  }

  function SumSubtotals(rows: seq<Row>): nat {
    if |rows| == 0 then 0 else rows[0].subtotal + SumSubtotals(rows[1..])
  }

  /** The panel's decrease and increase buttons send the same requests as the
      drawer's minus and plus buttons, and remove sends the line's own id. */
  lemma ButtonsAgree(item: CartItem)
    ensures var d := QuantityButton.Click(item, QuantityButton.Minus);
      Decrease(item) == UpdateRequest(d.id, d.quantity)
    ensures var p := QuantityButton.Click(item, QuantityButton.Plus);
      Increase(item) == UpdateRequest(p.id, p.quantity)
    ensures Remove(item).id == item.product.id
  {
  }

  /** A line with quantity 2 asks for 1 on decrease and 3 on increase. */
  lemma QuantityTwoExample(item: CartItem)
    requires item.quantity == 2
    ensures Decrease(item) == UpdateRequest(item.product.id, 1)
    ensures Increase(item) == UpdateRequest(item.product.id, 3)
  {
  }

  /** The subtotals shown on the rows add up to the total shown at the bottom. */
  lemma {:induction false} RowsAddUpToTotal(c: CartState)
    ensures SumSubtotals(Rows(c)) == Total(c.items)
    decreases |c.items|
  {
    if |c.items| > 0 {
      var tail := CartState(c.items[1..]);
      RowsAddUpToTotal(tail);
      assert Rows(c)[1..] == Rows(tail);
    }
  }

  /** Row keys are unique exactly when the cart has one line per product. */
  lemma RowKeysUnique(c: CartState)
    ensures (forall i, j :: 0 <= i < j < |Rows(c)| ==> Rows(c)[i].key != Rows(c)[j].key)
      <==> Distinct(Ids(c.items))
  {
    var rows := Rows(c);
    var ids := Ids(c.items);
    assert |rows| == |ids|;
    assert forall i :: 0 <= i < |rows| ==> rows[i].key == ids[i];
  }

  /** The empty message shows exactly when no row would be rendered; when
      every line holds a unit, that is exactly when the navigation bar shows
      no badge, and the total is then zero. */
  lemma EmptyBranch(c: CartState)
    requires Positive(c.items)
    ensures ShowsEmpty(c) <==> |Rows(c)| == 0
    ensures ShowsEmpty(c) <==> !Navbar.BadgeShown(c)
    ensures ShowsEmpty(c) ==> Total(c.items) == 0
  {
    Navbar.BadgeIffLines(c);
  }

  /** Removing through the panel takes the line out and leaves a well-formed cart. */
  lemma RemoveEffect(c: CartState, i: nat)
    requires WellFormed(c) && i < |c.items|
    ensures var r := Dispatch(c, Remove(c.items[i]));
      WellFormed(r) && !HasLine(r.items, c.items[i].product.id) && |r.items| == |c.items| - 1
  {
    assert HasLine(c.items, c.items[i].product.id) by { assert Ids(c.items)[i] == c.items[i].product.id; }
  }
}

/** The navigation bar: the badge count over the cart and the home-page test. */
module Navbar {
  import opened Common
  import opened Products
  import opened Cart

  /** `items.reduce((total, item) => total + item.quantity, 0)`. */
  function ItemCount(items: seq<CartItem>): nat {
    if |items| == 0 then 0 else items[0].quantity + ItemCount(items[1..])
  }

  predicate BadgeShown(c: CartState) {
    ItemCount(c.items) > 0
  }

  predicate IsHomePage(pathname: string) {
    pathname == "/"
  }

  /** The path a click on the home link leaves the browser at: on the home
      page the click is prevented, elsewhere the link goes to `/`. */
  function HomeLinkClick(pathname: string): (r: string)
    ensures IsHomePage(r)
    ensures IsHomePage(pathname) ==> r == pathname
    ensures !IsHomePage(pathname) ==> r != pathname
  {
    if IsHomePage(pathname) then pathname else "/"
  }

  /** A second click on the home link does nothing: it is disabled where the
      first click lands. */
  lemma HomeLinkSettles(pathname: string)
    ensures HomeLinkClick(HomeLinkClick(pathname)) == HomeLinkClick(pathname)
  {
  }

  /** From another page the home link navigates to "/". */
  lemma HomeLinkFromProducts()
    ensures HomeLinkClick("/products") == "/"
  {
  }

  /** In a well-formed cart the badge is shown exactly when the cart has lines;
      the count is at least the number of lines. */
  lemma {:induction false} BadgeIffLines(c: CartState)
    requires Positive(c.items)
    ensures ItemCount(c.items) >= |c.items|
    ensures BadgeShown(c) <==> |c.items| > 0
    decreases |c.items|
  {
    if |c.items| > 0 {
      BadgeIffLines(CartState(c.items[1..]));
    }
  }

  /** The quantities of the lines for `ids`, added up. */
  function QuantitySum(items: seq<CartItem>, ids: seq<int>): nat {
    if |ids| == 0 then 0 else QuantityOf(items, ids[0]) + QuantitySum(items, ids[1..])
  }

  /** In a cart with one line per id, the badge count is the sum over the ids
      in the cart of the quantity held for each id. */
  lemma ItemCountIsQuantitySum(items: seq<CartItem>)
    requires Distinct(Ids(items))
    ensures ItemCount(items) == QuantitySum(items, Ids(items))
  {
    UniqueIdsIffDistinct(items);
    UniqueItemCount(items);
  }

  lemma {:induction false} UniqueItemCount(items: seq<CartItem>)
    requires UniqueIds(items)
    ensures ItemCount(items) == QuantitySum(items, Ids(items))
  {
    if |items| > 0 {
      var h := items[0];
      var tail := items[1..];
      UniqueItemCount(tail);
      assert items == [h] + tail;
      assert Ids(items)[1..] == Ids(tail);
      QuantitySumSkip(h, tail, Ids(tail));
    }
  }

  /** A line whose id is not asked for does not change the sum. */
  lemma {:induction false} QuantitySumSkip(h: CartItem, tail: seq<CartItem>, ids: seq<int>)
    requires h.product.id !in ids
    ensures QuantitySum([h] + tail, ids) == QuantitySum(tail, ids)
  {
    if |ids| > 0 {
      assert ([h] + tail)[1..] == tail;
      QuantitySumSkip(h, tail, ids[1..]);
    }
  }

  lemma {:induction false} IncrementCount(items: seq<CartItem>, id: int)
    requires Distinct(Ids(items)) && HasLine(items, id)
    ensures ItemCount(IncrementLine(items, id)) == ItemCount(items) + 1
  {
    var h := items[0];
    var tail := items[1..];
    assert Ids(items) == [h.product.id] + Ids(tail);
    DistinctCons(h.product.id, Ids(tail));
    if h.product.id == id {
      IncrementAbsent(tail, id);
    } else {
      IncrementCount(tail, id);
    }
  }

  lemma {:induction false} AppendCount(items: seq<CartItem>, line: CartItem)
    ensures ItemCount(items + [line]) == ItemCount(items) + line.quantity
  {
    if |items| > 0 {
      AppendCount(items[1..], line);
      assert (items + [line])[1..] == items[1..] + [line];
    }
  }

  /** Adding any product raises the badge count by exactly one. */
  lemma AddToCartCount(c: CartState, p: Product)
    requires WellFormed(c)
    ensures ItemCount(AddToCart(c, p).items) == ItemCount(c.items) + 1
  {
    if HasLine(c.items, p.id) {
      IncrementCount(c.items, p.id);
    } else {
      AppendCount(c.items, CartItem(p, 1));
    }
  }

  /** Adding `n` products to a well-formed cart raises the badge count by `n`. */
  lemma {:induction false} AddAllCount(c: CartState, ps: seq<Product>)
    requires WellFormed(c)
    ensures ItemCount(AddAll(c, ps).items) == ItemCount(c.items) + |ps|
    decreases |ps|
  {
    if |ps| > 0 {
      AddToCartCount(c, ps[0]);
      AddAllCount(AddToCart(c, ps[0]), ps[1..]);
    }
  }

  /** An empty or cleared cart shows no badge. */
  lemma EmptyCartNoBadge(c: CartState)
    ensures ItemCount(EmptyCart.items) == 0 && !BadgeShown(EmptyCart)
    ensures !BadgeShown(ClearCart(c))
  {
  }
}
