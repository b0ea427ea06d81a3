/** The shopping cart (javascript/test_failure/src/cart.js): a list of
    line items, each a product and a quantity, merged by product id, with
    an optional coupon code and a tax rate. Prices are whole cents; the
    getters are the functions on items below, applied to the cart's fields. */
module ShoppingCart {
  import opened Wrappers
  import opened Text
  import Discounts
  import Shipping

  datatype Product = Product(id: int, name: string, price: int)
  datatype Item = Item(product: Product, quantity: int)

  /** `items.find(item => item.product.id === id)`, as the index found. */
  function Find(items: seq<Item>, id: int): (r: Option<nat>)
    ensures r.Some? ==> r.value < |items| && items[r.value].product.id == id
    ensures r.Some? ==> forall j :: 0 <= j < r.value ==> items[j].product.id != id
    ensures r.None? ==> forall j :: 0 <= j < |items| ==> items[j].product.id != id
  {
    if items == [] then None
    else if items[0].product.id == id then Some(0)
    else match Find(items[1..], id)
      case None => None
      case Some(k) => Some(k + 1)
  }

  /** No two line items carry the same product id. */
  ghost predicate UniqueIds(items: seq<Item>) {
    forall i, j :: 0 <= i < j < |items| ==> items[i].product.id != items[j].product.id
  }

  /** The quantity an item contributes to product `id`. */
  function Share(item: Item, id: int): int {
    if item.product.id == id then item.quantity else 0
  }

  /** The total quantity of product `id` over all line items. */
  function QuantityOf(items: seq<Item>, id: int): int {
    if items == [] then 0 else QuantityOf(items[..|items| - 1], id) + Share(items[|items| - 1], id)
  }

  lemma {:induction false} QuantityConcat(a: seq<Item>, b: seq<Item>, id: int)
    ensures QuantityOf(a + b, id) == QuantityOf(a, id) + QuantityOf(b, id)
    decreases |b|
  {
    if b == [] {
      assert a + b == a;
    } else {
      QuantityConcat(a, b[..|b| - 1], id);
      assert (a + b)[..|a + b| - 1] == a + b[..|b| - 1];
    }
  }

  lemma {:induction false} QuantityAbsent(items: seq<Item>, id: int)
    requires forall j :: 0 <= j < |items| ==> items[j].product.id != id
    ensures QuantityOf(items, id) == 0
    decreases |items|
  {
    if items != [] {
      QuantityAbsent(items[..|items| - 1], id);
    }
  }

  /** Writing `x` over item `i` changes each product's quantity by the
      difference of the two items' shares. */
  lemma QuantityReplace(items: seq<Item>, i: nat, x: Item, id: int)
    requires i < |items|
    ensures QuantityOf(items[i := x], id) == QuantityOf(items, id) - Share(items[i], id) + Share(x, id)
  {
    var before, after := items[..i], items[i + 1..];
    assert items == before + [items[i]] + after;
    assert items[i := x] == before + [x] + after;
    QuantityConcat(before + [items[i]], after, id);
    QuantityConcat(before, [items[i]], id);
    QuantityConcat(before + [x], after, id);
    QuantityConcat(before, [x], id);
  }

  /** Dropping item `i` takes away exactly its share. */
  lemma QuantityRemove(items: seq<Item>, i: nat, id: int)
    requires i < |items|
    ensures QuantityOf(items[..i] + items[i + 1..], id) == QuantityOf(items, id) - Share(items[i], id)
  {
    var before, after := items[..i], items[i + 1..];
    assert items == before + [items[i]] + after;
    QuantityConcat(before + [items[i]], after, id);
    QuantityConcat(before, [items[i]], id);
    QuantityConcat(before, after, id);
  }

  /** With unique ids, a product's quantity is that of its one line item,
      or 0 when it is not in the cart. */
  lemma QuantityOfFound(items: seq<Item>, id: int)
    requires UniqueIds(items)
    ensures QuantityOf(items, id) == match Find(items, id)
      case None => 0
      case Some(i) => items[i].quantity
  {
    match Find(items, id)
    case None =>
      QuantityAbsent(items, id);
    case Some(i) =>
      var before, after := items[..i], items[i + 1..];
      assert items == before + [items[i]] + after;
      QuantityAbsent(before, id);
      QuantityAbsent(after, id);
      QuantityConcat(before + [items[i]], after, id);
      QuantityConcat(before, [items[i]], id);
  }

  /** `items.reduce((sum, item) => sum + item.quantity, 0)`. */
  function TotalQuantity(items: seq<Item>): int {
    if items == [] then 0 else TotalQuantity(items[..|items| - 1]) + items[|items| - 1].quantity
  }

  /** `parseInt(price)` on a price in cents: the whole dollars, truncated
      toward zero. */
  function WholeDollars(price: int): (r: int)
    ensures r % 100 == 0
    ensures 0 <= price ==> 0 <= r <= price < r + 100
  {
    if price >= 0 then price / 100 * 100 else -((-price) / 100 * 100)
  }

  /** `calculateSubtotal(items)` as written: each price cut to whole dollars
      before it is multiplied by the quantity. */
  function Subtotal(items: seq<Item>): int {
    if items == [] then 0
    else Subtotal(items[..|items| - 1]) + WholeDollars(items[|items| - 1].product.price) * items[|items| - 1].quantity
  }

  /** The subtotal the prices add up to: price times quantity, summed. */
  function ExactSubtotal(items: seq<Item>): int {
    if items == [] then 0
    else ExactSubtotal(items[..|items| - 1]) + items[|items| - 1].product.price * items[|items| - 1].quantity
  }

  /** Prices and quantities that are not negative. */
  predicate NonNegative(items: seq<Item>) {
    forall i :: 0 <= i < |items| ==> 0 <= items[i].product.price && 0 <= items[i].quantity
  }

  /** Cutting prices to whole dollars loses less than a dollar per unit
      bought, and never adds anything. */
  lemma {:induction false} SubtotalTruncation(items: seq<Item>)
    requires NonNegative(items)
    ensures 0 <= Subtotal(items) <= ExactSubtotal(items)
    ensures ExactSubtotal(items) - Subtotal(items) <= 99 * TotalQuantity(items)
    decreases |items|
  {
    if items != [] {
      var init, last := items[..|items| - 1], items[|items| - 1];
      assert NonNegative(init) by {
        forall i | 0 <= i < |init| ensures 0 <= init[i].product.price && 0 <= init[i].quantity {
          assert init[i] == items[i];
        }
      }
      SubtotalTruncation(init);
      LineTruncation(last.product.price, last.quantity);
    }
  }

  lemma LineTruncation(price: int, quantity: int)
    requires 0 <= price && 0 <= quantity
    ensures 0 <= WholeDollars(price) * quantity <= price * quantity
    ensures price * quantity - WholeDollars(price) * quantity <= 99 * quantity
  {
    var w := WholeDollars(price);
    MulMonotone(0, w, quantity);
    MulMonotone(w, price, quantity);
    MulMonotone(price - w, 99, quantity);
    assert price * quantity - w * quantity == (price - w) * quantity;
  }

  lemma MulMonotone(a: int, b: int, k: int)
    requires a <= b && 0 <= k
    ensures a * k <= b * k
  {
    assert b * k - a * k == (b - a) * k;
  }

  /** As written, $25.00 twice and $45.50 once come to $95.00 instead of
      $95.50, and three $5.99 socks to $15.00 instead of $17.97. */
  lemma SubtotalDropsCents()
    ensures var items := [Item(Product(1, "T-Shirt", 2500), 2), Item(Product(2, "Jeans", 4550), 1)];
      Subtotal(items) == 9500 && ExactSubtotal(items) == 9550
    ensures var items := [Item(Product(5, "Socks", 599), 3)];
      Subtotal(items) == 1500 && ExactSubtotal(items) == 1797
  {
    var items := [Item(Product(1, "T-Shirt", 2500), 2), Item(Product(2, "Jeans", 4550), 1)];
    assert items[..1] == [items[0]];
    assert [items[0]][..0] == [];
    var socks := [Item(Product(5, "Socks", 599), 3)];
    assert socks[..0] == [];
  }

  /** `if (this.discountCode)`: `null` and `''` are falsy. */
  predicate Truthy(code: Option<string>) {
    code.Some? && code.value != ""
  }

  /** The coupon part of `getDiscount`. */
  function CouponDiscount(subtotal: int, code: Option<string>): int {
    if Truthy(code) then Discounts.ApplyDiscount(subtotal, code.value) else 0
  }

  /** `getDiscount()` as written: the coupon and the bulk discount, added. */
  function Discount(items: seq<Item>, code: Option<string>): (d: int)
    ensures !Truthy(code) && TotalQuantity(items) <= 10 ==> d == 0
  {
    var subtotal := Subtotal(items);
    CouponDiscount(subtotal, code) + Discounts.BulkDiscount(subtotal, TotalQuantity(items))
  }

  /** As written, the coupon and the bulk discount stack: eleven $25.00
      shirts with SAVE10 get $27.50 + $13.75 off, more than either alone. */
  lemma StackedDiscountExample()
    ensures var items := [Item(Product(1, "T-Shirt", 2500), 11)];
      var code := Some("SAVE10");
      && CouponDiscount(Subtotal(items), code) == 2750
      && Discounts.BulkDiscount(Subtotal(items), TotalQuantity(items)) == 1375
      && Discount(items, code) == 4125
  {
    var items := [Item(Product(1, "T-Shirt", 2500), 11)];
    assert items[..0] == [];
    assert ToUpper("SAVE10") == "SAVE10";
  }

  /** The better of the coupon (capped at the subtotal) and the bulk
      discount (inclusive tiers), both on the exact subtotal: they do not
      stack. */
  function BestDiscount(items: seq<Item>, code: Option<string>): (d: int)
    ensures var s := ExactSubtotal(items);
      var coupon := if Truthy(code) then Discounts.CappedDiscount(s, code.value) else 0;
      var bulk := Discounts.InclusiveBulkDiscount(s, TotalQuantity(items));
      (d == coupon || d == bulk) && coupon <= d && bulk <= d
  {
    var s := ExactSubtotal(items);
    var coupon := if Truthy(code) then Discounts.CappedDiscount(s, code.value) else 0;
    var bulk := Discounts.InclusiveBulkDiscount(s, TotalQuantity(items));
    if coupon < bulk then bulk else coupon
  }

  lemma {:induction false} NonNegativeTotals(items: seq<Item>)
    requires NonNegative(items)
    ensures 0 <= ExactSubtotal(items) && 0 <= TotalQuantity(items)
    decreases |items|
  {
    if items != [] {
      var init := items[..|items| - 1];
      assert NonNegative(init) by {
        forall i | 0 <= i < |init| ensures 0 <= init[i].product.price && 0 <= init[i].quantity {
          assert init[i] == items[i];
        }
      }
      NonNegativeTotals(init);
    }
  }

  /** The unstacked discount never takes more than the cart is worth. */
  lemma BestDiscountWithinSubtotal(items: seq<Item>, code: Option<string>)
    requires NonNegative(items)
    ensures 0 <= BestDiscount(items, code) <= ExactSubtotal(items)
  {
    NonNegativeTotals(items);
    if Truthy(code) {
      Discounts.CappedWithinSubtotal(ExactSubtotal(items), code.value);
    }
  }

  /** `roundCurrency` of an exact amount of cents: half up to the cent. */
  function RoundCents(x: real): (r: int)
    ensures x - 0.5 < r as real <= x + 0.5
  {
    (x + 0.5).Floor
  }

  /** `roundCurrency(amount * taxRate)`. */
  function TaxOn(amount: int, taxRate: real): (tax: int)
    ensures 0 <= amount && 0.0 <= taxRate ==> 0 <= tax
  {
    var exact := amount as real * taxRate;
    NonNegativeProduct(amount as real, taxRate);
    RoundCents(exact)
  }

  lemma NonNegativeProduct(a: real, b: real)
    ensures 0.0 <= a && 0.0 <= b ==> 0.0 <= a * b
  {
  }

  /** `getTax()`: the rate applied to the whole subtotal. */
  function Tax(items: seq<Item>, taxRate: real): int {
    TaxOn(Subtotal(items), taxRate)
  }

  /** `getShipping()`: `calculateShipping(subtotal)` with the standard
      method, which never fails. */
  function ShippingCharge(items: seq<Item>): (c: int)
    ensures Shipping.CalculateShipping(Subtotal(items), "standard") == Ok(c)
  {
    assert Shipping.Methods[0] == "standard";
    Shipping.CalculateShipping(Subtotal(items), "standard").value
  }

  /** `getTotal()` as written: subtotal + tax + shipping - discount. */
  function Total(items: seq<Item>, code: Option<string>, taxRate: real): int {
    Subtotal(items) + Tax(items, taxRate) + ShippingCharge(items) - Discount(items, code)
  }

  /** As written, an empty cart without a code costs nothing. */
  lemma EmptyCartTotal(taxRate: real)
    ensures Total([], None, taxRate) == 0
  {
  }

  /** As written, a $5.00 cart with FLAT10 and no tax totals -$5.00: the
      uncapped coupon drives the total below zero. */
  lemma TotalCanBeNegative()
    ensures Total([Item(Product(10, "Test", 500), 1)], Some("FLAT10"), 0.0) == -500
  {
    var items := [Item(Product(10, "Test", 500), 1)];
    assert items[..0] == [];
    assert Subtotal(items) == 500 && TotalQuantity(items) == 1;
    assert ToUpper("FLAT10") == "FLAT10";
    assert CouponDiscount(500, Some("FLAT10")) == 1000;
    assert Discount(items, Some("FLAT10")) == 1000;
    assert Tax(items, 0.0) == 0;
    assert ShippingCharge(items) == 0;
  }

  /** The total the cart's tests describe: the better single discount, then
      tax and shipping on the discounted amount. */
  function CorrectedTotal(items: seq<Item>, code: Option<string>, taxRate: real): int {
    var discounted := ExactSubtotal(items) - BestDiscount(items, code);
    discounted + TaxOn(discounted, taxRate) + Shipping.CorrectedShipping(discounted, "standard").value
  }

  /** With non-negative prices, quantities and rate, the corrected total is
      never below the discounted amount, so never negative. */
  lemma CorrectedTotalNonNegative(items: seq<Item>, code: Option<string>, taxRate: real)
    requires NonNegative(items) && 0.0 <= taxRate
    ensures 0 <= ExactSubtotal(items) - BestDiscount(items, code) <= CorrectedTotal(items, code, taxRate)
  {
    BestDiscountWithinSubtotal(items, code);
    var discounted := ExactSubtotal(items) - BestDiscount(items, code);
    var tax := TaxOn(discounted, taxRate);
    assert "standard" in Shipping.Methods by {
      assert Shipping.Methods[0] == "standard";
    }
    var shipping := Shipping.CorrectedShipping(discounted, "standard");
    assert shipping.Ok? && shipping.value >= 0;
    assert CorrectedTotal(items, code, taxRate) == discounted + tax + shipping.value;
  }

  /** At a 10% rate, $100.00 with SAVE10 costs $99.00 once corrected; the
      code as written charges $105.99 (tax and shipping on the undiscounted
      $100.00). */
  lemma CorrectedTotalExamples()
    ensures CorrectedTotal([Item(Product(10, "Test", 10000), 1)], Some("SAVE10"), 0.10) == 9900
    ensures Total([Item(Product(10, "Test", 10000), 1)], Some("SAVE10"), 0.10) == 10599
  {
    var a := [Item(Product(10, "Test", 10000), 1)];
    assert a[..0] == [];
    assert ToUpper("SAVE10") == "SAVE10";
    assert ExactSubtotal(a) == 10000 && Subtotal(a) == 10000 && TotalQuantity(a) == 1;
    assert BestDiscount(a, Some("SAVE10")) == 1000;
    assert TaxOn(9000, 0.10) == 900;
    assert TaxOn(10000, 0.10) == 1000;
  }

  /** At a 10% rate, $25.00 without a code costs $33.49 and $40.00 with
      FLAT5 costs $44.49 once corrected. */
  lemma CorrectedTotalSmallCarts()
    ensures CorrectedTotal([Item(Product(1, "T-Shirt", 2500), 1)], None, 0.10) == 3349
    ensures CorrectedTotal([Item(Product(10, "Test", 4000), 1)], Some("FLAT5"), 0.10) == 4449
  {
    var b := [Item(Product(1, "T-Shirt", 2500), 1)];
    var c := [Item(Product(10, "Test", 4000), 1)];
    assert b[..0] == [] && c[..0] == [];
    assert ToUpper("FLAT5") == "FLAT5";
    assert BestDiscount(b, None) == 0;
    assert BestDiscount(c, Some("FLAT5")) == 500;
    assert TaxOn(2500, 0.10) == 250;
    assert TaxOn(3500, 0.10) == 350;
  }

  /** `new Error(`Product ${productId} not in cart`)`. */
  function NotInCart(productId: int): string {
    "Product " + IntToString(productId) + " not in cart"
  }

  class Cart {
    var items: seq<Item>
    var discountCode: Option<string>
    var taxRate: real

    /** `addItem` merges by id, so each product has one line item. */
    ghost predicate Valid()
      reads this
    {
      UniqueIds(items)
    }

    /** An empty cart, no code, 8% tax. */
    constructor()
      ensures Valid() && items == [] && discountCode == None && taxRate == 0.08
    {
      items := [];
      discountCode := None;
      taxRate := 0.08;
    }

    /** `addItem(product, quantity)`: a product already in the cart gets the
        quantity added to its line; a new one is appended. Either way the
        product's quantity grows by `quantity` and no other changes. */
    method AddItem(product: Product, quantity: int)
      requires Valid()
      modifies this
      ensures Valid() && discountCode == old(discountCode) && taxRate == old(taxRate)
      ensures match Find(old(items), product.id)
        case Some(i) => items == old(items)[i := Item(old(items)[i].product, old(items)[i].quantity + quantity)]
        case None => items == old(items) + [Item(product, quantity)]
      ensures Find(items, product.id).Some?
      ensures forall id :: QuantityOf(items, id) == QuantityOf(old(items), id) + (if id == product.id then quantity else 0)
    {
      match Find(items, product.id)
      case Some(i) =>
        var merged := Item(items[i].product, items[i].quantity + quantity);
        forall id ensures QuantityOf(items[i := merged], id) == QuantityOf(items, id) + (if id == product.id then quantity else 0) {
          QuantityReplace(items, i, merged, id);
        }
        items := items[i := merged];
        assert items[i].product.id == product.id;
      case None =>
        var added := Item(product, quantity);
        forall id ensures QuantityOf(items + [added], id) == QuantityOf(items, id) + (if id == product.id then quantity else 0) {
          QuantityConcat(items, [added], id);
          assert [added][..0] == [];
        }
        items := items + [added];
        assert items[|items| - 1].product.id == product.id;
    }

    /** `removeItem(productId)`: an error when the product is not in the
        cart; otherwise its line is spliced out and nothing else moves. */
    method RemoveItem(productId: int) returns (r: Result<(), string>)
      requires Valid()
      modifies this
      ensures Valid() && discountCode == old(discountCode) && taxRate == old(taxRate)
      ensures Find(old(items), productId).None? ==> r == Err(NotInCart(productId)) && items == old(items)
      ensures Find(old(items), productId).Some? ==>
        var i := Find(old(items), productId).value;
        r.Ok? && items == old(items)[..i] + old(items)[i + 1..]
      ensures Find(items, productId).None?
      ensures forall id :: id != productId ==> QuantityOf(items, id) == QuantityOf(old(items), id)
    {
      match Find(items, productId)
      case None =>
        r := Err(NotInCart(productId));
      case Some(i) =>
        var rest := items[..i] + items[i + 1..];
        forall id | id != productId ensures QuantityOf(rest, id) == QuantityOf(items, id) {
          QuantityRemove(items, i, id);
        }
        forall j | 0 <= j < |rest| ensures rest[j].product.id != productId {
          if j < i {
            assert rest[j] == items[j];
          } else {
            assert rest[j] == items[j + 1];
          }
        }
        items := rest;
        r := Ok(());
    }

    /** `updateQuantity(productId, quantity)`: an error when the product is
        not in the cart; a quantity of 0 or less removes its line; any
        other quantity replaces the line's quantity. */
    method UpdateQuantity(productId: int, quantity: int) returns (r: Result<(), string>)
      requires Valid()
      modifies this
      ensures Valid() && discountCode == old(discountCode) && taxRate == old(taxRate)
      ensures Find(old(items), productId).None? ==> r == Err(NotInCart(productId)) && items == old(items)
      ensures Find(old(items), productId).Some? ==>
        var i := Find(old(items), productId).value;
        && r.Ok?
        && (quantity <= 0 ==> items == old(items)[..i] + old(items)[i + 1..])
        && (quantity > 0 ==> items == old(items)[i := Item(old(items)[i].product, quantity)])
      ensures r.Ok? ==> QuantityOf(items, productId) == if quantity <= 0 then 0 else quantity
      ensures forall id :: id != productId ==> QuantityOf(items, id) == QuantityOf(old(items), id)
    {
      match Find(items, productId)
      case None =>
        r := Err(NotInCart(productId));
      case Some(i) =>
        if quantity <= 0 {
          r := RemoveItem(productId);
          QuantityAbsent(items, productId);
        } else {
          var updated := Item(items[i].product, quantity);
          forall id ensures QuantityOf(items[i := updated], id) == QuantityOf(items, id) - Share(items[i], id) + Share(updated, id) {
            QuantityReplace(items, i, updated, id);
          }
          QuantityOfFound(items, productId);
          items := items[i := updated];
          r := Ok(());
        }
    }

    /** `applyDiscountCode(code)`. */
    method ApplyDiscountCode(code: Option<string>)
      modifies this
      ensures discountCode == code && items == old(items) && taxRate == old(taxRate)
    {
      discountCode := code;
    }

    /** `clear()`: no items and no code, so the cart costs nothing. */
    method Clear()
      modifies this
      ensures Valid() && items == [] && discountCode == None && taxRate == old(taxRate)
      ensures Total(items, discountCode, taxRate) == 0
    {
      items := [];
      discountCode := None;
      EmptyCartTotal(taxRate);
    }
  }
}
