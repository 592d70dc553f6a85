/** The cart store as its tests pin it down: an ordered list of line items,
    at most one per product id, each with a positive quantity, and a total
    derived from the lines on every read. */
module Cart {
  import opened Common
  import opened Products

  datatype CartItem = CartItem(product: Product, quantity: nat)

  datatype CartState = CartState(items: seq<CartItem>)

  const EmptyCart: CartState := CartState([])

  /** The product id of each line, in cart order. */
  function Ids(items: seq<CartItem>): (ids: seq<int>)
    ensures |ids| == |items|
    ensures forall i :: 0 <= i < |items| ==> ids[i] == items[i].product.id
  {
    if |items| == 0 then [] else [items[0].product.id] + Ids(items[1..])
  }

  predicate HasLine(items: seq<CartItem>, id: int) {
    id in Ids(items)
  }

  /** Every line holds at least one unit. */
  predicate Positive(items: seq<CartItem>) {
    forall i :: 0 <= i < |items| ==> items[i].quantity >= 1
  }

  lemma PositiveCons(h: CartItem, t: seq<CartItem>)
    ensures Positive([h] + t) <==> h.quantity >= 1 && Positive(t)
  {
    var s := [h] + t;
    assert s[0] == h;
    assert forall i :: 0 <= i < |t| ==> s[i + 1] == t[i];
  }

  lemma PositiveTail(items: seq<CartItem>)
    requires |items| > 0
    ensures Positive(items) <==> items[0].quantity >= 1 && Positive(items[1..])
  {
    assert items == [items[0]] + items[1..];
    PositiveCons(items[0], items[1..]);
  }

  /** The cart invariant: one line per product id, no line with quantity zero. */
  predicate WellFormed(c: CartState) {
    Distinct(Ids(c.items)) && Positive(c.items)
  }

  /** The quantity on the line for `id`, 0 when there is none. */
  function QuantityOf(items: seq<CartItem>, id: int): (q: nat)
    ensures !HasLine(items, id) ==> q == 0
  {
    if |items| == 0 then 0
    else if items[0].product.id == id then items[0].quantity
    else QuantityOf(items[1..], id)
  }

  /** Price times quantity of one line. */
  function LineSubtotal(item: CartItem): nat {
    item.product.price * item.quantity
  }

  /** The unit price stored on the line for `id`, 0 when there is none. */
  function PriceOf(items: seq<CartItem>, id: int): nat {
    if |items| == 0 then 0
    else if items[0].product.id == id then items[0].product.price
    else PriceOf(items[1..], id)
  }

  /** The subtotal of the line for `id`, 0 when there is none. */
  function SubtotalOf(items: seq<CartItem>, id: int): nat {
    if |items| == 0 then 0
    else if items[0].product.id == id then LineSubtotal(items[0])
    else SubtotalOf(items[1..], id)
  }

  /** `state.total`: the sum of the line subtotals. */
  function Total(items: seq<CartItem>): nat {
    if |items| == 0 then 0 else LineSubtotal(items[0]) + Total(items[1..])
  }

  /** In a cart with one line per id, the line at position `i` is the line for its id. */
  lemma {:induction false} LineLookup(items: seq<CartItem>, i: nat)
    requires Distinct(Ids(items)) && i < |items|
    ensures QuantityOf(items, items[i].product.id) == items[i].quantity
    ensures PriceOf(items, items[i].product.id) == items[i].product.price
  {
    if i > 0 {
      assert Ids(items) == [items[0].product.id] + Ids(items[1..]);
      DistinctCons(items[0].product.id, Ids(items[1..]));
      assert items[i].product.id == Ids(items[1..])[i - 1];
      LineLookup(items[1..], i - 1);
    }
  }

  lemma {:induction false} SubtotalAbsent(items: seq<CartItem>, id: int)
    ensures !HasLine(items, id) ==> SubtotalOf(items, id) == 0
  {
    if |items| > 0 {
      assert Ids(items) == [items[0].product.id] + Ids(items[1..]);
      SubtotalAbsent(items[1..], id);
    }
  }

  lemma {:induction false} PriceAbsent(items: seq<CartItem>, id: int)
    ensures !HasLine(items, id) ==> PriceOf(items, id) == 0
  {
    if |items| > 0 {
      assert Ids(items) == [items[0].product.id] + Ids(items[1..]);
      PriceAbsent(items[1..], id);
    }
  }

  /** The lines with the line for `id` given one more unit. */
  function IncrementLine(items: seq<CartItem>, id: int): (r: seq<CartItem>)
    ensures Ids(r) == Ids(items)
    ensures Positive(items) ==> Positive(r)
  {
    if |items| == 0 then []
    else
      var head := if items[0].product.id == id then items[0].(quantity := items[0].quantity + 1) else items[0];
      var rest := IncrementLine(items[1..], id);
      assert ([head] + rest)[1..] == rest;
      PositiveTail(items);
      PositiveCons(head, rest);
      [head] + rest
  }

  /** Incrementing adds one unit to the line for `id` and to no other. */
  lemma {:induction false} IncrementLineQuantity(items: seq<CartItem>, id: int)
    ensures forall y :: (QuantityOf(IncrementLine(items, id), y) ==
                         QuantityOf(items, y) + if y == id && HasLine(items, id) then 1 else 0)
  {
    if |items| > 0 {
      IncrementLineQuantity(items[1..], id);
      assert IncrementLine(items, id)[1..] == IncrementLine(items[1..], id);
      assert Ids(items) == [items[0].product.id] + Ids(items[1..]);
    }
  }

  /** Line by line: every line keeps its product and its place; the line for
      `id` gains one unit and every other keeps its quantity. */
  lemma {:induction false} IncrementLineLines(items: seq<CartItem>, id: int)
    ensures |IncrementLine(items, id)| == |items|
    ensures forall i :: 0 <= i < |items| ==>
      IncrementLine(items, id)[i].product == items[i].product
      && IncrementLine(items, id)[i].quantity == items[i].quantity + if items[i].product.id == id then 1 else 0
  {
    if |items| > 0 {
      var r := IncrementLine(items, id);
      var rest := IncrementLine(items[1..], id);
      IncrementLineLines(items[1..], id);
      assert r[1..] == rest;
      forall i | 1 <= i < |items|
        ensures r[i].product == items[i].product
        ensures r[i].quantity == items[i].quantity + if items[i].product.id == id then 1 else 0
      {
        assert r[i] == rest[i - 1] && items[i] == items[1..][i - 1];
      }
    }
  }

  /** Incrementing a line that is not there changes nothing. */
  lemma {:induction false} IncrementAbsent(items: seq<CartItem>, id: int)
    requires !HasLine(items, id)
    ensures IncrementLine(items, id) == items
  {
    if |items| > 0 {
      assert Ids(items) == [items[0].product.id] + Ids(items[1..]);
      IncrementAbsent(items[1..], id);
      assert items == [items[0]] + items[1..];
    }
  }

  /** One line per id, stated line by line: no line's id recurs later. */
  predicate UniqueIds(items: seq<CartItem>) {
    |items| == 0 || (!HasLine(items[1..], items[0].product.id) && UniqueIds(items[1..]))
  }

  lemma {:induction false} UniqueIdsIffDistinct(items: seq<CartItem>)
    ensures UniqueIds(items) <==> Distinct(Ids(items))
  {
    if |items| > 0 {
      assert Ids(items) == [items[0].product.id] + Ids(items[1..]);
      DistinctCons(items[0].product.id, Ids(items[1..]));
      UniqueIdsIffDistinct(items[1..]);
    }
  }

  /** Incrementing the line for `id` adds its unit price to the total. */
  lemma IncrementLineTotal(items: seq<CartItem>, id: int)
    requires Distinct(Ids(items))
    ensures Total(IncrementLine(items, id)) == Total(items) + PriceOf(items, id)
  {
    UniqueIdsIffDistinct(items);
    UniqueIncrementTotal(items, id);
  }

  lemma {:induction false} UniqueIncrementTotal(items: seq<CartItem>, id: int)
    requires UniqueIds(items)
    ensures Total(IncrementLine(items, id)) == Total(items) + PriceOf(items, id)
  {
    if |items| > 0 {
      var h := items[0];
      var tail := items[1..];
      var r := IncrementLine(items, id);
      if h.product.id == id {
        IncrementAbsent(tail, id);
        assert r == [h.(quantity := h.quantity + 1)] + tail;
        OneMoreUnit(h);
      } else {
        UniqueIncrementTotal(tail, id);
        assert r == [h] + IncrementLine(tail, id);
      }
    }
  }

  /** One more unit on a line adds one unit price to its subtotal. */
  lemma OneMoreUnit(line: CartItem)
    ensures LineSubtotal(line.(quantity := line.quantity + 1)) == LineSubtotal(line) + line.product.price
  {
    assert line.product.price * (line.quantity + 1) == line.product.price * line.quantity + line.product.price;
  }

  /** The lines with the line for `id` set to quantity `q`. */
  function SetLineQuantity(items: seq<CartItem>, id: int, q: nat): (r: seq<CartItem>)
    ensures Ids(r) == Ids(items)
    ensures Positive(items) && q >= 1 ==> Positive(r)
    ensures forall y :: QuantityOf(r, y) == if y == id && HasLine(items, id) then q else QuantityOf(items, y)
    ensures !HasLine(items, id) ==> r == items
  {
    if |items| == 0 then []
    else
      var head := if items[0].product.id == id then items[0].(quantity := q) else items[0];
      var rest := SetLineQuantity(items[1..], id, q);
      var r := [head] + rest;
      assert r[1..] == rest;
      assert Ids(items) == [items[0].product.id] + Ids(items[1..]);
      assert items == [items[0]] + items[1..];
      PositiveTail(items);
      PositiveCons(head, rest);
      r
  }

  /** Line by line: every line keeps its product and its place; the line for
      `id` gets quantity `q` and every other keeps its quantity. */
  lemma {:induction false} SetLineLines(items: seq<CartItem>, id: int, q: nat)
    ensures |SetLineQuantity(items, id, q)| == |items|
    ensures forall i :: 0 <= i < |items| ==>
      SetLineQuantity(items, id, q)[i].product == items[i].product
      && SetLineQuantity(items, id, q)[i].quantity == if items[i].product.id == id then q else items[i].quantity
  {
    if |items| > 0 {
      var r := SetLineQuantity(items, id, q);
      var rest := SetLineQuantity(items[1..], id, q);
      SetLineLines(items[1..], id, q);
      assert r[1..] == rest;
      forall i | 1 <= i < |items|
        ensures r[i].product == items[i].product
        ensures r[i].quantity == if items[i].product.id == id then q else items[i].quantity
      {
        assert r[i] == rest[i - 1] && items[i] == items[1..][i - 1];
      }
    }
  }

  /** With one line per id, setting the line for `id` to `q` replaces its
      subtotal by `q` units of its price. */
  lemma SetLineTotal(items: seq<CartItem>, id: int, q: nat)
    requires Distinct(Ids(items))
    ensures Total(SetLineQuantity(items, id, q)) == Total(items) - SubtotalOf(items, id) + PriceOf(items, id) * q
  {
    UniqueIdsIffDistinct(items);
    UniqueSetTotal(items, id, q);
  }

  lemma {:induction false} UniqueSetTotal(items: seq<CartItem>, id: int, q: nat)
    requires UniqueIds(items)
    ensures Total(SetLineQuantity(items, id, q)) + SubtotalOf(items, id) == Total(items) + PriceOf(items, id) * q
  {
    if |items| > 0 {
      var h := items[0];
      var tail := items[1..];
      var r := SetLineQuantity(items, id, q);
      if h.product.id == id {
        assert SetLineQuantity(tail, id, q) == tail;
        assert r == [h.(quantity := q)] + tail;
      } else {
        UniqueSetTotal(tail, id, q);
        assert r == [h] + SetLineQuantity(tail, id, q);
      }
    }
  }

  /** The lines without the line for `id`, the others in their order. */
  function RemoveLine(items: seq<CartItem>, id: int): (r: seq<CartItem>)
    ensures IsSubsequence(r, items)
    ensures forall y :: HasLine(r, y) <==> HasLine(items, y) && y != id
    ensures Positive(items) ==> Positive(r)
  {
    if |items| == 0 then []
    else
      var rest := RemoveLine(items[1..], id);
      assert Ids(items) == [items[0].product.id] + Ids(items[1..]);
      if items[0].product.id == id then
        rest
      else
        var r := [items[0]] + rest;
        assert r[1..] == rest;
        assert Ids(r) == [items[0].product.id] + Ids(rest);
        assert forall y :: HasLine(r, y) <==> y == items[0].product.id || HasLine(rest, y);
        r
  }

  /** Removing the line for `id` leaves every other quantity as it was, and
      changes nothing when there is no such line. */
  lemma {:induction false} RemoveLineQuantity(items: seq<CartItem>, id: int)
    ensures forall y :: y != id ==> QuantityOf(RemoveLine(items, id), y) == QuantityOf(items, y)
    ensures !HasLine(items, id) ==> RemoveLine(items, id) == items
  {
    if |items| > 0 {
      RemoveLineQuantity(items[1..], id);
      assert Ids(items) == [items[0].product.id] + Ids(items[1..]);
      assert items == [items[0]] + items[1..];
      if items[0].product.id != id {
        assert RemoveLine(items, id)[1..] == RemoveLine(items[1..], id);
      }
    }
  }

  /** In a cart with one line per id, removing the line for `id` keeps ids
      unique, drops exactly one line if there was one, and takes its
      subtotal off the total. */
  lemma {:induction false} RemoveLineDistinct(items: seq<CartItem>, id: int)
    ensures Distinct(Ids(items)) ==>
      Distinct(Ids(RemoveLine(items, id)))
      && |RemoveLine(items, id)| == |items| - (if HasLine(items, id) then 1 else 0)
  {
    if |items| > 0 && Distinct(Ids(items)) {
      var h := items[0];
      var tail := items[1..];
      assert Ids(items) == [h.product.id] + Ids(tail);
      DistinctCons(h.product.id, Ids(tail));
      if h.product.id == id {
        RemoveLineQuantity(tail, id);
        assert RemoveLine(items, id) == tail;
      } else {
        RemoveLineDistinct(tail, id);
        var rest := RemoveLine(tail, id);
        assert !HasLine(rest, h.product.id);
        assert Ids(RemoveLine(items, id)) == [h.product.id] + Ids(rest);
        DistinctCons(h.product.id, Ids(rest));
      }
    }
  }

  /** Removing the line for `id` takes its subtotal off the total. */
  lemma {:induction false} RemoveLineTotal(items: seq<CartItem>, id: int)
    requires Distinct(Ids(items))
    ensures Total(RemoveLine(items, id)) == Total(items) - SubtotalOf(items, id)
  {
    if |items| > 0 {
      var h := items[0];
      var tail := items[1..];
      assert Ids(items) == [h.product.id] + Ids(tail);
      DistinctCons(h.product.id, Ids(tail));
      if h.product.id == id {
        RemoveLineQuantity(tail, id);
        SubtotalAbsent(tail, id);
      } else {
        RemoveLineTotal(tail, id);
      }
    }
  }

  /** `addToCart(product)`: one more unit on the product's line, or a new
      line with quantity 1 at the end. */
  function AddToCart(c: CartState, p: Product): (r: CartState)
    ensures WellFormed(c) ==> WellFormed(r)
    ensures forall id :: HasLine(r.items, id) <==> HasLine(c.items, id) || id == p.id
    ensures !HasLine(c.items, p.id) ==> r.items == c.items + [CartItem(p, 1)]
    ensures HasLine(c.items, p.id) ==> |r.items| == |c.items|
    ensures QuantityOf(r.items, p.id) == QuantityOf(c.items, p.id) + 1
    ensures forall id :: id != p.id ==> QuantityOf(r.items, id) == QuantityOf(c.items, id)
    ensures HasLine(c.items, p.id) ==> Ids(r.items) == Ids(c.items)
    ensures |r.items| >= |c.items|
    ensures forall i :: 0 <= i < |c.items| ==> r.items[i].product == c.items[i].product
  {
    if HasLine(c.items, p.id) then
      IncrementLineQuantity(c.items, p.id);
      IncrementLineLines(c.items, p.id);
      CartState(IncrementLine(c.items, p.id))
    else
      AppendFacts(c.items, CartItem(p, 1));
      CartState(c.items + [CartItem(p, 1)])
  }

  /** What appending a line for a new id does to ids, quantities and the total. */
  lemma {:induction false} AppendFacts(items: seq<CartItem>, line: CartItem)
    requires !HasLine(items, line.product.id)
    ensures Ids(items + [line]) == Ids(items) + [line.product.id]
    ensures forall y :: (QuantityOf(items + [line], y) ==
                         if y == line.product.id then line.quantity else QuantityOf(items, y))
    ensures Total(items + [line]) == Total(items) + LineSubtotal(line)
  {
    if |items| > 0 {
      assert Ids(items) == [items[0].product.id] + Ids(items[1..]);
      AppendFacts(items[1..], line);
      assert (items + [line])[1..] == items[1..] + [line];
    }
  }

  /** `removeFromCart(id)`: the line for `id` goes, the others stay in order. */
  function RemoveFromCart(c: CartState, id: int): (r: CartState)
    ensures !HasLine(r.items, id)
    ensures IsSubsequence(r.items, c.items)
    ensures forall y :: HasLine(r.items, y) <==> HasLine(c.items, y) && y != id
    ensures forall y :: y != id ==> QuantityOf(r.items, y) == QuantityOf(c.items, y)
    ensures !HasLine(c.items, id) ==> r == c
    ensures WellFormed(c) ==> WellFormed(r)
    ensures WellFormed(c) ==> |r.items| == |c.items| - (if HasLine(c.items, id) then 1 else 0)
  {
    RemoveLineQuantity(c.items, id);
    RemoveLineDistinct(c.items, id);
    CartState(RemoveLine(c.items, id))
  }

  /** `updateQuantity(id, q)`: a quantity of zero or less removes the line;
      a positive one replaces the line's quantity. */
  function UpdateQuantity(c: CartState, id: int, q: int): (r: CartState)
    ensures q <= 0 ==> r == RemoveFromCart(c, id)
    ensures q > 0 ==> Ids(r.items) == Ids(c.items)
    ensures q > 0 ==> QuantityOf(r.items, id) == if HasLine(c.items, id) then q else 0
    ensures forall y :: y != id ==> QuantityOf(r.items, y) == QuantityOf(c.items, y)
    ensures !HasLine(c.items, id) ==> r == c
    ensures WellFormed(c) ==> WellFormed(r)
    ensures q > 0 ==> |r.items| == |c.items| && forall i :: 0 <= i < |c.items| ==>
      r.items[i].product == c.items[i].product
      && r.items[i].quantity == if c.items[i].product.id == id then q else c.items[i].quantity
  {
    if q <= 0 then RemoveFromCart(c, id)
    else
      SetLineLines(c.items, id, q);
      CartState(SetLineQuantity(c.items, id, q))
  }

  /** In a well-formed cart a positive update replaces the line's subtotal by
      `q` units of its price. */
  lemma UpdateQuantityTotal(c: CartState, id: int, q: int)
    requires WellFormed(c) && q > 0
    ensures Total(UpdateQuantity(c, id, q).items) == Total(c.items) - SubtotalOf(c.items, id) + PriceOf(c.items, id) * q
  {
    UniqueIdsIffDistinct(c.items);
    UniqueUpdateTotal(c, id, q);
  }

  lemma UniqueUpdateTotal(c: CartState, id: int, q: int)
    requires UniqueIds(c.items) && q > 0
    ensures Total(UpdateQuantity(c, id, q).items) == Total(c.items) - SubtotalOf(c.items, id) + PriceOf(c.items, id) * q
  {
    UniqueSetTotal(c.items, id, q);
  }

  /** `clearCart()`. */
  function ClearCart(c: CartState): (r: CartState)
    ensures |r.items| == 0 && Total(r.items) == 0
    ensures forall id :: !HasLine(r.items, id)
  {
    EmptyCart
  }

  // ----- Total -----

  /** Adding a unit adds one unit price to the total: the stored line's price
      if the product is already in the cart, the product's own otherwise. */
  lemma AddToCartTotal(c: CartState, p: Product)
    requires WellFormed(c)
    ensures Total(AddToCart(c, p).items) ==
      Total(c.items) + if HasLine(c.items, p.id) then PriceOf(c.items, p.id) else p.price
  {
    if HasLine(c.items, p.id) {
      IncrementLineTotal(c.items, p.id);
    } else {
      AppendFacts(c.items, CartItem(p, 1));
    }
  }

  /** Removing the line for `id` takes exactly its subtotal off the total. */
  lemma RemoveFromCartTotal(c: CartState, id: int)
    requires WellFormed(c)
    ensures Total(RemoveFromCart(c, id).items) == Total(c.items) - SubtotalOf(c.items, id)
  {
    RemoveLineTotal(c.items, id);
  }

  /** Test scenario: add A (10.00) twice, add B (20.00), set B to 3: 80.00. */
  lemma ScenarioTotal(a: Product, b: Product)
    requires a.id == 1 && a.price == 1000 && b.id == 2 && b.price == 2000
    ensures var c := UpdateQuantity(AddToCart(AddToCart(AddToCart(EmptyCart, a), a), b), 2, 3);
      Total(c.items) == 8000 && |c.items| == 2
  {
    ScenarioAdd(a);
    var c2 := AddToCart(AddToCart(EmptyCart, a), a);
    assert c2 == CartState([CartItem(a, 2)]);
    AddSecondLine(CartItem(a, 2), b);
    UpdateSecondLine(CartItem(a, 2), CartItem(b, 1), 3);
  }

  /** Adding a new product to a one-line cart appends its line. */
  lemma AddSecondLine(x: CartItem, p: Product)
    requires x.product.id != p.id
    ensures AddToCart(CartState([x]), p) == CartState([x, CartItem(p, 1)])
  {
    assert !HasLine([x], p.id) by { assert Ids([x]) == [x.product.id]; }
  }

  /** Updating the second of two lines with different ids to a positive quantity. */
  lemma UpdateSecondLine(x: CartItem, y: CartItem, q: nat)
    requires x.product.id != y.product.id && q > 0
    ensures UpdateQuantity(CartState([x, y]), y.product.id, q) == CartState([x, y.(quantity := q)])
    ensures Total([x, y.(quantity := q)]) == LineSubtotal(x) + y.product.price * q
  {
    SetSecondLine(x, y, q);
  }

  /** Setting the quantity of the second of two lines with different ids. */
  lemma SetSecondLine(x: CartItem, y: CartItem, q: nat)
    requires x.product.id != y.product.id
    ensures SetLineQuantity([x, y], y.product.id, q) == [x, y.(quantity := q)]
    ensures Total([x, y.(quantity := q)]) == LineSubtotal(x) + y.product.price * q
  {
    assert [x, y][1..] == [y];
    assert SetLineQuantity([y], y.product.id, q) == [y.(quantity := q)] + SetLineQuantity([], y.product.id, q);
    var z := y.(quantity := q);
    assert [x, z][1..] == [z] && [z][1..] == [];
    assert Total([x, z]) == LineSubtotal(x) + LineSubtotal(z) + Total([]);
  }

  /** Test scenarios: one add gives one line of quantity 1; a second add of
      the same product raises it to 2 and doubles the total. */
  lemma ScenarioAdd(a: Product)
    ensures AddToCart(EmptyCart, a).items == [CartItem(a, 1)]
    ensures Total(AddToCart(EmptyCart, a).items) == a.price
    ensures AddToCart(AddToCart(EmptyCart, a), a).items == [CartItem(a, 2)]
    ensures Total(AddToCart(AddToCart(EmptyCart, a), a).items) == 2 * a.price
  {
    var c1 := AddToCart(EmptyCart, a);
    assert c1.items == [CartItem(a, 1)];
    assert AddToCart(c1, a).items == [CartItem(a, 2)];
  }

  /** Test scenario: add products 1 and 2, remove 1: product 2's line is left. */
  lemma ScenarioRemove(a: Product, b: Product)
    requires a.id == 1 && b.id == 2
    ensures var c := RemoveFromCart(AddToCart(AddToCart(EmptyCart, a), b), 1);
      c.items == [CartItem(b, 1)] && Total(c.items) == b.price
  {
    var c2 := AddToCart(AddToCart(EmptyCart, a), b);
    assert c2.items == [CartItem(a, 1), CartItem(b, 1)];
    assert RemoveLine(c2.items, 1) == RemoveLine([CartItem(b, 1)], 1);
    assert RemoveLine([CartItem(b, 1)], 1) == [CartItem(b, 1)] + RemoveLine([], 1);
  }

  /** Test scenarios: setting product 1 to 5 gives quantity 5 and five times
      the price; setting it to 0 empties the cart. */
  lemma ScenarioUpdate(a: Product)
    requires a.id == 1
    ensures var c := UpdateQuantity(AddToCart(EmptyCart, a), 1, 5);
      c.items == [CartItem(a, 5)] && Total(c.items) == 5 * a.price
    ensures var c := UpdateQuantity(AddToCart(EmptyCart, a), 1, 0);
      c.items == [] && Total(c.items) == 0
  {
    var c1 := AddToCart(EmptyCart, a);
    assert c1.items == [CartItem(a, 1)];
    assert SetLineQuantity(c1.items, 1, 5) == [CartItem(a, 5)] + SetLineQuantity([], 1, 5);
    assert RemoveLine(c1.items, 1) == RemoveLine([], 1);
  }

  // ----- Repeated adds -----

  /** Adding each product of the list in turn. */
  function AddAll(c: CartState, ps: seq<Product>): CartState
    decreases |ps|
  {
    if |ps| == 0 then c else AddAll(AddToCart(c, ps[0]), ps[1..])
  }

  /** How many products of the list carry `id`. */
  function Occurrences(ps: seq<Product>, id: int): nat {
    if |ps| == 0 then 0 else (if ps[0].id == id then 1 else 0) + Occurrences(ps[1..], id)
  }

  /** The ids of a product list. */
  function ProductIds(ps: seq<Product>): (ids: seq<int>)
    ensures |ids| == |ps|
    ensures forall i :: 0 <= i < |ps| ==> ids[i] == ps[i].id
  {
    if |ps| == 0 then [] else [ps[0].id] + ProductIds(ps[1..])
  }

  /** After any series of adds each product's line holds the number of times
      that id was added, and there is a line exactly for the ids added. */
  lemma {:induction false} AddAllQuantities(c: CartState, ps: seq<Product>)
    requires WellFormed(c)
    ensures WellFormed(AddAll(c, ps))
    ensures forall id :: QuantityOf(AddAll(c, ps).items, id) == QuantityOf(c.items, id) + Occurrences(ps, id)
    ensures forall id :: HasLine(AddAll(c, ps).items, id) <==> HasLine(c.items, id) || id in ProductIds(ps)
    decreases |ps|
  {
    if |ps| > 0 {
      assert ProductIds(ps) == [ps[0].id] + ProductIds(ps[1..]);
      AddAllQuantities(AddToCart(c, ps[0]), ps[1..]);
    }
  }

  /** The number of lines equals the number of distinct ids in a well-formed cart. */
  lemma {:induction false} LineCountIsIdCount(items: seq<CartItem>)
    requires Distinct(Ids(items))
    ensures |items| == |set id | id in Ids(items)|
  {
    if |items| > 0 {
      assert Ids(items) == [items[0].product.id] + Ids(items[1..]);
      DistinctCons(items[0].product.id, Ids(items[1..]));
      var t := set id | id in Ids(items[1..]);
      assert (set id | id in Ids(items)) == t + {items[0].product.id};
      LineCountIsIdCount(items[1..]);
    }
  }

  /** Adding products to an empty cart: one line per distinct id, each with
      the number of times that id was added. */
  lemma AddAllFromEmpty(ps: seq<Product>)
    ensures var c := AddAll(EmptyCart, ps);
      && WellFormed(c)
      && |c.items| == |set id | id in ProductIds(ps)|
      && forall id :: QuantityOf(c.items, id) == Occurrences(ps, id)
  {
    var c := AddAll(EmptyCart, ps);
    AddAllQuantities(EmptyCart, ps);
    LineCountIsIdCount(c.items);
    assert Ids(EmptyCart.items) == [];
    SameMembersSameSet(Ids(c.items), ProductIds(ps));
  }

  lemma SameMembersSameSet(a: seq<int>, b: seq<int>)
    requires forall x :: x in a <==> x in b
    ensures (set x | x in a) == (set x | x in b)
  {
    var sa := set x | x in a;
    var sb := set x | x in b;
    forall x ensures x in sa <==> x in sb {
      assert x in sa <==> x in a;
      assert x in sb <==> x in b;
    }
  }
}
