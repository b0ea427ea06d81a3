/** Coupon codes and bulk-quantity discounts of the shopping cart
    (javascript/test_failure/src/discounts.js). Amounts are whole cents; a
    percentage of an amount is rounded half up to the cent, which is what
    `roundCurrency` does to an exact value. */
module Discounts {
  import opened Wrappers
  import opened Text
  import opened Sorting

  datatype Coupon = Percentage(percent: int) | Fixed(cents: int)

  /** The upper-case keys of `DISCOUNT_CODES`. */
  const CodeKeys: seq<string> := ["SAVE10", "SAVE20", "FLAT5", "FLAT10", "HALF"]

  /** `DISCOUNT_CODES`, looked up by an already upper-cased key. */
  function CodeTable(key: string): (c: Option<Coupon>)
    ensures c.Some? <==> key in CodeKeys
  {
    if key == "SAVE10" then Some(Percentage(10))
    else if key == "SAVE20" then Some(Percentage(20))
    else if key == "FLAT5" then Some(Fixed(500))
    else if key == "FLAT10" then Some(Fixed(1000))
    else if key == "HALF" then Some(Percentage(50))
    else None
  }

  /** `DISCOUNT_CODES[code.toUpperCase()]`. */
  function Lookup(code: string): Option<Coupon> {
    CodeTable(ToUpper(code))
  }

  /** `roundCurrency(amount * percent / 100)` on cents: the exact share,
      rounded half up. */
  function PercentOf(amount: int, percent: int): (r: int)
    ensures amount * percent - 50 < 100 * r <= amount * percent + 50
    ensures 0 <= amount && 0 <= percent <= 100 ==> 0 <= r <= amount
  {
    (amount * percent + 50) / 100
  }

  /** `applyDiscount(subtotal, code)`: the coupon's share of the subtotal,
      its fixed amount whatever the subtotal, or 0 for an unknown code. */
  function ApplyDiscount(subtotal: int, code: string): (d: int)
    ensures Lookup(code) == None ==> d == 0
    ensures Lookup(code).Some? && Lookup(code).value.Percentage? ==>
      subtotal * Lookup(code).value.percent - 50 < 100 * d <= subtotal * Lookup(code).value.percent + 50
    ensures Lookup(code).Some? && Lookup(code).value.Fixed? ==> d == Lookup(code).value.cents
  {
    match Lookup(code)
    case None => 0
    case Some(Percentage(p)) => PercentOf(subtotal, p)
    case Some(Fixed(c)) => c
  }

  /** `validateDiscountCode`: a non-empty code whose upper-cased form is a
      key of the table (`null` and `''` are falsy). */
  function ValidateDiscountCode(code: Option<string>): (ok: bool)
    ensures ok <==> code.Some? && code.value != "" && ToUpper(code.value) in CodeKeys
  {
    code.Some? && code.value != "" && Lookup(code.value).Some?
  }

  /** A code that does not validate gives no discount. */
  lemma InvalidCodeGivesNothing(subtotal: int, code: string)
    requires code != "" && !ValidateDiscountCode(Some(code))
    ensures ApplyDiscount(subtotal, code) == 0
  {
  }

  lemma UpperOfLowerChar(c: char)
    ensures UpperChar(LowerChar(c)) == UpperChar(c)
  {
  }

  lemma UpperOfLower(s: string)
    ensures ToUpper(ToLower(s)) == ToUpper(s)
  {
    var a, b := ToUpper(ToLower(s)), ToUpper(s);
    forall i | 0 <= i < |s| ensures a[i] == b[i] {
      UpperOfLowerChar(s[i]);
    }
  }

  /** The lookup ignores case: a code and its lower-case spelling give the
      same discount, and so does every spelling with the same upper case. */
  lemma DiscountIgnoresCase(subtotal: int, code: string, other: string)
    requires ToUpper(other) == ToUpper(code)
    ensures ApplyDiscount(subtotal, ToLower(code)) == ApplyDiscount(subtotal, code)
    ensures ApplyDiscount(subtotal, other) == ApplyDiscount(subtotal, code)
  {
    UpperOfLower(code);
  }

  /** 10% of $89.99 is $9.00 after rounding, in any case spelling. */
  lemma PercentageExample()
    ensures ApplyDiscount(8999, "save10") == 900
    ensures ApplyDiscount(10000, "SAVE20") == 2000
  {
    var u := ToUpper("save10");
    assert u[0] == 'S' && u[1] == 'A' && u[2] == 'V' && u[3] == 'E' && u[4] == '1' && u[5] == '0';
    assert u == "SAVE10";
    assert ToUpper("SAVE20") == "SAVE20";
  }

  /** As written, a fixed coupon exceeds a smaller subtotal: $10 off a
      $5.99 cart. */
  lemma FixedCouponExceedsSubtotal()
    ensures ApplyDiscount(599, "FLAT10") == 1000 > 599
  {
    assert ToUpper("FLAT10") == "FLAT10";
  }

  /** A fixed coupon capped at the subtotal (`Math.min(value, subtotal)`). */
  function CappedDiscount(subtotal: int, code: string): int {
    match Lookup(code)
    case None => 0
    case Some(Percentage(p)) => PercentOf(subtotal, p)
    case Some(Fixed(c)) => if c < subtotal then c else subtotal
  }

  /** Every coupon in the table takes between 0 and 100 percent or a
      non-negative fixed amount. */
  lemma TableBounds(code: string)
    ensures Lookup(code).Some? && Lookup(code).value.Percentage? ==> 0 <= Lookup(code).value.percent <= 100
    ensures Lookup(code).Some? && Lookup(code).value.Fixed? ==> 0 <= Lookup(code).value.cents
  {
  }

  /** With the cap, no coupon takes more than the subtotal, and it differs
      from the code as written only for a fixed coupon above the subtotal. */
  lemma CappedWithinSubtotal(subtotal: int, code: string)
    requires 0 <= subtotal
    ensures 0 <= CappedDiscount(subtotal, code) <= subtotal
    ensures CappedDiscount(subtotal, code) <= ApplyDiscount(subtotal, code)
    ensures ApplyDiscount(subtotal, code) <= subtotal ==> CappedDiscount(subtotal, code) == ApplyDiscount(subtotal, code)
  {
    TableBounds(code);
  }

  // ----- bulk tiers -----

  datatype Tier = Tier(minQuantity: int, percent: int)

  /** `BULK_TIERS`. */
  const BulkTiers: seq<Tier> := [Tier(10, 5), Tier(25, 10), Tier(50, 15)]

  /** A tier applies when the quantity passes its minimum: strictly as
      written (`>`), or at the minimum too when `inclusive`. */
  predicate Applies(t: Tier, quantity: int, inclusive: bool) {
    if inclusive then quantity >= t.minQuantity else quantity > t.minQuantity
  }

  /** `BULK_TIERS.filter(...)`. */
  function Qualifying(tiers: seq<Tier>, quantity: int, inclusive: bool): (r: seq<Tier>)
    ensures forall t :: t in r <==> t in tiers && Applies(t, quantity, inclusive)
  {
    if tiers == [] then [] else
      var head := if Applies(tiers[0], quantity, inclusive) then [tiers[0]] else [];
      head + Qualifying(tiers[1..], quantity, inclusive)
  }

  /** The key of `.sort((a, b) => b.discount - a.discount)`. */
  function ByPercentDesc(t: Tier): real {
    -(t.percent as real)
  }

  /** `[0]` of the sorted qualifying tiers, if any. */
  function BestTier(quantity: int, inclusive: bool): Option<Tier> {
    var sorted := SortBy(Qualifying(BulkTiers, quantity, inclusive), ByPercentDesc);
    if sorted == [] then None else Some(sorted[0])
  }

  /** The chosen tier is a qualifying tier with the highest percentage;
      there is none exactly when no tier qualifies. */
  lemma BestTierIsHighest(quantity: int, inclusive: bool)
    ensures BestTier(quantity, inclusive).None? <==> Qualifying(BulkTiers, quantity, inclusive) == []
    ensures BestTier(quantity, inclusive).Some? ==>
      var b := BestTier(quantity, inclusive).value;
      && b in BulkTiers && Applies(b, quantity, inclusive)
      && forall t :: t in BulkTiers && Applies(t, quantity, inclusive) ==> t.percent <= b.percent
  {
    var q := Qualifying(BulkTiers, quantity, inclusive);
    if q != [] {
      SortHead(q, ByPercentDesc);
    }
  }

  /** The bulk percentage for a total quantity, written out per tier. */
  lemma BulkPercentTable(quantity: int, inclusive: bool)
    ensures var b := BestTier(quantity, inclusive);
      b.None? <==> !Applies(BulkTiers[0], quantity, inclusive)
    ensures var b := BestTier(quantity, inclusive);
      b.Some? ==>
        b.value.percent == if Applies(BulkTiers[2], quantity, inclusive) then 15
          else if Applies(BulkTiers[1], quantity, inclusive) then 10 else 5
  {
    BestTierIsHighest(quantity, inclusive);
    var q := Qualifying(BulkTiers, quantity, inclusive);
    if Applies(BulkTiers[0], quantity, inclusive) {
      assert BulkTiers[0] in q;
    }
    if Applies(BulkTiers[1], quantity, inclusive) {
      assert BulkTiers[1] in q;
    }
    if Applies(BulkTiers[2], quantity, inclusive) {
      assert BulkTiers[2] in q;
    }
  }

  function TierDiscount(subtotal: int, quantity: int, inclusive: bool): int {
    match BestTier(quantity, inclusive)
    case None => 0
    case Some(t) => PercentOf(subtotal, t.percent)
  }

  /** `getBulkDiscount(subtotal, totalQuantity)` as written. */
  function BulkDiscount(subtotal: int, totalQuantity: int): (d: int)
    ensures totalQuantity <= 10 ==> d == 0
    ensures totalQuantity > 10 ==>
      d == PercentOf(subtotal, if totalQuantity > 50 then 15 else if totalQuantity > 25 then 10 else 5)
  {
    BulkPercentTable(totalQuantity, false);
    TierDiscount(subtotal, totalQuantity, false)
  }

  /** As written, exactly ten items get no bulk discount: $59.90 of socks
      earn nothing instead of $3.00. */
  lemma BulkSkipsTenItems()
    ensures BulkDiscount(5990, 10) == 0
  {
  }

  /** Each tier's minimum quantity qualifies (`>=`). */
  function InclusiveBulkDiscount(subtotal: int, totalQuantity: int): (d: int)
    ensures totalQuantity < 10 ==> d == 0
    ensures totalQuantity >= 10 ==>
      d == PercentOf(subtotal, if totalQuantity >= 50 then 15 else if totalQuantity >= 25 then 10 else 5)
  {
    BulkPercentTable(totalQuantity, true);
    TierDiscount(subtotal, totalQuantity, true)
  }

  /** The inclusive tiers give the amounts the cart's tests expect: 5% of
      $59.90 at ten items, 10% of $149.75 at twenty-five. */
  lemma InclusiveBulkExamples()
    ensures InclusiveBulkDiscount(5990, 10) == 300
    ensures InclusiveBulkDiscount(14975, 25) == 1498
  {
  }

  /** The two readings differ only at a tier's exact minimum quantity. */
  lemma BulkReadingsAgreeOffMinimum(subtotal: int, totalQuantity: int)
    requires totalQuantity != 10 && totalQuantity != 25 && totalQuantity != 50
    ensures BulkDiscount(subtotal, totalQuantity) == InclusiveBulkDiscount(subtotal, totalQuantity)
  {
  }
}
