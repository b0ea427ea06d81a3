/** Shipping charges of the shopping cart
    (javascript/test_failure/src/shipping.js). Amounts are whole cents; a
    shipping method is named by its string. */
module Shipping {
  import opened Wrappers
  import opened Text

  /** `FREE_SHIPPING_THRESHOLD`: $50.00. */
  const FreeShippingThreshold := 5000

  /** The keys of `SHIPPING_RATES`, in their insertion order. */
  const Methods: seq<string> := ["standard", "express", "overnight"]

  /** `SHIPPING_RATES[method]`: $5.99, $12.99 and $24.99. */
  function RateOf(methodName: string): (rate: Option<int>)
    ensures rate.Some? <==> methodName in Methods
    ensures rate.Some? ==> rate.value > 0
  {
    if methodName == "standard" then Some(599)
    else if methodName == "express" then Some(1299)
    else if methodName == "overnight" then Some(2499)
    else None
  }

  /** `calculateShipping(subtotal, method)` as written: nothing to pay below
      the threshold, whatever the method; from the threshold on, the
      method's rate, or an error for an unknown method. */
  function CalculateShipping(subtotal: int, methodName: string): (r: Result<int, string>)
    ensures subtotal < FreeShippingThreshold ==> r == Ok(0)
    ensures subtotal >= FreeShippingThreshold ==> (r.Err? <==> methodName !in Methods)
    ensures subtotal >= FreeShippingThreshold && r.Ok? ==> r.value > 0 && Some(r.value) == RateOf(methodName)
    ensures r.Err? ==> r.error == "Unknown shipping method: " + methodName
  {
    if subtotal < FreeShippingThreshold then Ok(0)
    else match RateOf(methodName)
      case None => Err("Unknown shipping method: " + methodName)
      case Some(rate) => Ok(rate)
  }

  datatype ShippingOption = ShippingOption(methodName: string, rate: int, estimatedDays: int, caption: string)

  /** `getEstimatedDays` for the three methods. */
  function EstimatedDays(methodName: string): int {
    if methodName == "standard" then 3
    else if methodName == "express" then 7
    else if methodName == "overnight" then 1
    else 5
  }

  /** `labels[method] || method`. */
  function MethodLabel(methodName: string): string {
    if methodName == "standard" then "Standard Shipping"
    else if methodName == "express" then "Express Shipping"
    else if methodName == "overnight" then "Overnight Shipping"
    else methodName
  }

  /** `(cents / 100).toFixed(2)` for a non-negative amount. */
  function Dollars(cents: nat): (s: string)
    ensures |s| >= 4 && s[|s| - 3] == '.'
  {
    NatToString(cents / 100) + "." + [DigitChar(cents / 10 % 10), DigitChar(cents % 10)]
  }

  /** `formatShippingLabel`. */
  function ShippingLabel(methodName: string, rate: nat): string {
    if rate == 0 then MethodLabel(methodName) + " (FREE)"
    else MethodLabel(methodName) + " ($" + Dollars(rate) + ")"
  }

  /** Standard shipping is free from the threshold on (`>=`). */
  predicate StandardIsFree(subtotal: int, methodName: string) {
    subtotal >= FreeShippingThreshold && methodName == "standard"
  }

  /** `getShippingOptions(subtotal)`: one option per method in table order;
      only standard shipping is ever free, and only from the threshold on. */
  function GetShippingOptions(subtotal: int): (options: seq<ShippingOption>)
    ensures |options| == |Methods|
    ensures forall i :: 0 <= i < |options| ==>
      && options[i].methodName == Methods[i]
      && (options[i].rate == 0 <==> StandardIsFree(subtotal, Methods[i]))
      && (options[i].rate != 0 ==> Some(options[i].rate) == RateOf(Methods[i]))
      && options[i].estimatedDays == EstimatedDays(Methods[i])
      && options[i].caption == ShippingLabel(Methods[i], options[i].rate)
      && (options[i].rate == 0 ==> options[i].caption == MethodLabel(Methods[i]) + " (FREE)")
  {
    seq(|Methods|, i requires 0 <= i < |Methods| =>
      var methodName := Methods[i];
      var rate := if StandardIsFree(subtotal, methodName) then 0 else RateOf(methodName).value;
      ShippingOption(methodName, rate, EstimatedDays(methodName), ShippingLabel(methodName, rate)))
  }

  /** Two rates written as `toFixed(2)` prints them. */
  lemma DollarsExamples()
    ensures Dollars(599) == "5.99"
    ensures Dollars(1299) == "12.99"
  {
    assert NatToString(5) == "5";
    assert NatToString(12) == "12";
  }

  /** The labels read "Standard Shipping (FREE)" at $50.00 and
      "Standard Shipping ($5.99)" just below. */
  lemma ShippingLabelExamples()
    ensures GetShippingOptions(5000)[0].caption == "Standard Shipping (FREE)"
    ensures GetShippingOptions(4999)[0].caption == "Standard Shipping ($5.99)"
    ensures GetShippingOptions(5000)[1].caption == "Express Shipping ($12.99)"
  {
    var low, high := GetShippingOptions(4999), GetShippingOptions(5000);
    assert high[0].rate == 0 && low[0].rate == 599 && high[1].rate == 1299;
    LabelTexts();
  }

  lemma LabelTexts()
    ensures ShippingLabel("standard", 0) == "Standard Shipping (FREE)"
    ensures ShippingLabel("standard", 599) == "Standard Shipping ($5.99)"
    ensures ShippingLabel("express", 1299) == "Express Shipping ($12.99)"
  {
    DollarsExamples();
  }

  /** `qualifiesForFreeShipping` as written: strictly above the threshold. */
  predicate QualifiesForFreeShipping(subtotal: int) {
    subtotal > FreeShippingThreshold
  }

  /** As written, $25.00 ships for nothing and $50.00 pays the standard
      rate, the reverse of the options the same module offers; and exactly
      $50.00 does not qualify for free shipping although its standard
      option is free. */
  lemma ShippingInverted()
    ensures CalculateShipping(2500, "standard") == Ok(0) && GetShippingOptions(2500)[0].rate == 599
    ensures CalculateShipping(5000, "standard") == Ok(599) && GetShippingOptions(5000)[0].rate == 0
    ensures !QualifiesForFreeShipping(5000) && GetShippingOptions(5000)[0].rate == 0
  {
  }

  /** Shipping as the options and the cart's tests price it: standard is
      free from the threshold on, every other case pays the rate. */
  function CorrectedShipping(subtotal: int, methodName: string): Result<int, string> {
    match RateOf(methodName)
    case None => Err("Unknown shipping method: " + methodName)
    case Some(rate) => if StandardIsFree(subtotal, methodName) then Ok(0) else Ok(rate)
  }

  /** Free shipping from the threshold on (`>=`). */
  predicate CorrectedQualifiesForFreeShipping(subtotal: int) {
    subtotal >= FreeShippingThreshold
  }

  /** The corrected charge is exactly the rate of the matching option, and
      the corrected test says whether the standard option is free. */
  lemma CorrectedShippingMatchesOptions(subtotal: int)
    ensures forall i :: 0 <= i < |Methods| ==>
      CorrectedShipping(subtotal, Methods[i]) == Ok(GetShippingOptions(subtotal)[i].rate)
    ensures CorrectedQualifiesForFreeShipping(subtotal) <==> GetShippingOptions(subtotal)[0].rate == 0
    ensures CorrectedShipping(subtotal, "standard") == Ok(0) <==> CorrectedQualifiesForFreeShipping(subtotal)
  {
    var options := GetShippingOptions(subtotal);
    assert Methods[0] == "standard";
    forall i | 0 <= i < |Methods|
      ensures CorrectedShipping(subtotal, Methods[i]) == Ok(options[i].rate)
    {
      assert Methods[i] in Methods;
    }
  }
}
