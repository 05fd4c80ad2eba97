/** What a text request is charged (relay/controller/text.go, relay/controller/helper.go), with
    reals in place of float64. */
module Pricing {
  import opened Basics

  /** `price` is the per-request price of the model, if it has one. */
  datatype Billing = Billing(
    byRequest: bool,
    modelRatioEnabled: bool,
    tokenBilling: bool,
    price: Option<real>,
    quotaPerUnit: real
  )

  predicate UsesPrice(b: Billing) {
    b.byRequest && (!b.modelRatioEnabled || b.tokenBilling) && b.price.Some?
  }

  /** The conversion int(x), which drops the fraction. */
  function Truncate(x: real): int {
    if x >= 0.0 then x.Floor else -((-x).Floor)
  }

  const DEFAULT_PRE_TOKENS := 500

  /** The amount handed to preConsumeQuota. */
  function PreCharge(prompt: int, configured: int, modelRatio: real, groupRatio: real, b: Billing): int {
    var fallback := if configured <= 0 then DEFAULT_PRE_TOKENS else configured;
    var tokens := if prompt <= 0 then fallback else prompt;
    if UsesPrice(b) then Truncate(b.price.value * groupRatio * b.quotaPerUnit)
    else Scaled(tokens, modelRatio * groupRatio)
  }

  /** int(float64(n) * ratio). */
  function Scaled(n: int, ratio: real): int {
    Truncate(n as real * ratio)
  }

  /** The tokens counted before the ratio is applied. */
  function Tokens(prompt: int, completion: int, completionRatio: real): int {
    prompt + Scaled(completion, completionRatio)
  }

  /** The two truncations of token billing. */
  function Metered(prompt: int, completion: int, completionRatio: real, ratio: real): int {
    Scaled(Tokens(prompt, completion, completionRatio), ratio)
  }

  /** The quota settled by postConsumeQuota; `images` is the count parsed from a Stability answer. */
  function FinalQuota(prompt: int, completion: int, completionRatio: real, modelRatio: real, groupRatio: real, b: Billing, images: Option<int>): int {
    var ratio := if UsesPrice(b) then b.price.value * groupRatio else modelRatio * groupRatio;
    var quota := if UsesPrice(b) then Truncate(ratio * b.quotaPerUnit) else Metered(prompt, completion, completionRatio, ratio);
    var atLeastOne := if ratio != 0.0 && quota <= 0 then 1 else quota;
    var charged := if prompt + completion == 0 then 0 else atLeastOne;
    match images case Some(n) => charged * n case None => charged
  }

  lemma ProductNonNegative(a: real, b: real, p: real)
    requires 0.0 <= a && 0.0 <= b && p == a * b
    ensures 0.0 <= p
  {}

  lemma Distribute(a: real, b: real, r: real)
    ensures (a - b) * r == a * r - b * r
  {}

  /** Scaling keeps the order. */
  lemma ScaledOrder(m: int, n: int, ratio: real)
    requires 0 <= m <= n && 0.0 <= ratio
    ensures 0 <= Scaled(m, ratio) <= Scaled(n, ratio)
  {
    var x, y, d := m as real * ratio, n as real * ratio, (n as real - m as real) * ratio;
    Distribute(n as real, m as real, ratio);
    ProductNonNegative(n as real - m as real, ratio, d);
    ProductNonNegative(m as real, ratio, x);
    assert 0.0 <= x <= y;
    FloorOrder(x, y);
  }

  lemma FloorOrder(x: real, y: real)
    requires 0.0 <= x <= y
    ensures 0 <= Truncate(x) <= Truncate(y)
  {}

  /** A product with a number less than one above `n` is truncated by less than ratio + 1. */
  lemma ScaledLoss(n: nat, exact: real, ratio: real, e: real)
    requires n as real <= exact < n as real + 1.0 && 0.0 <= ratio && e == exact * ratio
    ensures e - (ratio + 1.0) < Scaled(n, ratio) as real <= e
  {
    var d := exact - n as real;
    var p, q, s := n as real * ratio, d * ratio, (1.0 - d) * ratio;
    assert e == p + q by { Distribute(exact, n as real, ratio); }
    assert s == ratio - q by { Distribute(1.0, d, ratio); }
    ProductNonNegative(n as real, ratio, p);
    ProductNonNegative(d, ratio, q);
    ProductNonNegative(1.0 - d, ratio, s);
    FloorLoss(p, e, ratio);
  }

  lemma FloorLoss(p: real, e: real, ratio: real)
    requires 0.0 <= p <= e <= p + ratio
    ensures e - (ratio + 1.0) < Truncate(p) as real <= e
  {}

  lemma ScaledFloor(n: nat, ratio: real, e: real)
    requires 0.0 <= ratio && e == n as real * ratio
    ensures Scaled(n, ratio) >= 0 && Scaled(n, ratio) as real <= e < Scaled(n, ratio) as real + 1.0
  {
    ProductNonNegative(n as real, ratio, e);
    FloorNear(e);
  }

  lemma FloorNear(e: real)
    requires 0.0 <= e
    ensures Truncate(e) >= 0 && Truncate(e) as real <= e < Truncate(e) as real + 1.0
  {}

  /** The conversion drops the fraction on both sides of zero. */
  lemma TruncateTowardsZero(x: real)
    ensures Truncate(-x) == -Truncate(x)
    ensures 0.0 <= x ==> Truncate(x) as real <= x < Truncate(x) as real + 1.0
  {}

  /** The pre-charge by cases: by price when there is one to be used; else by tokens, the prompt's,
      or 500, or as configured. */
  lemma PreChargeCases(prompt: int, configured: int, modelRatio: real, groupRatio: real, b: Billing)
    ensures b.byRequest && (!b.modelRatioEnabled || b.tokenBilling) && b.price.Some? ==>
              PreCharge(prompt, configured, modelRatio, groupRatio, b) == Truncate(b.price.value * groupRatio * b.quotaPerUnit)
    ensures !b.byRequest || (b.modelRatioEnabled && !b.tokenBilling) || b.price.None? ==>
              var ratio := modelRatio * groupRatio;
              && (prompt > 0 ==> PreCharge(prompt, configured, modelRatio, groupRatio, b) == Truncate(prompt as real * ratio))
              && (prompt <= 0 < configured ==> PreCharge(prompt, configured, modelRatio, groupRatio, b) == Truncate(configured as real * ratio))
              && (prompt <= 0 && configured <= 0 ==> PreCharge(prompt, configured, modelRatio, groupRatio, b) == Truncate(500.0 * ratio))
  {}

  /** The final charge by cases: nothing for no tokens; else what is metered or the price, but at
      least one where the ratio is not zero; times the image count if one is reported. */
  lemma FinalQuotaCases(prompt: nat, completion: nat, completionRatio: real, modelRatio: real, groupRatio: real, b: Billing, n: int)
    ensures var f := FinalQuota(prompt, completion, completionRatio, modelRatio, groupRatio, b, None);
            && FinalQuota(prompt, completion, completionRatio, modelRatio, groupRatio, b, Some(n)) == f * n
            && (prompt == completion == 0 ==> f == 0)
            && (prompt + completion > 0 && !UsesPrice(b) ==>
                  var metered := Metered(prompt, completion, completionRatio, modelRatio * groupRatio);
                  f == if modelRatio * groupRatio != 0.0 && metered <= 0 then 1 else metered)
            && (prompt + completion > 0 && UsesPrice(b) ==>
                  var priced := Truncate(b.price.value * groupRatio * b.quotaPerUnit);
                  f == if b.price.value * groupRatio != 0.0 && priced <= 0 then 1 else priced)
  {}

  /** Token billing never charges more than the exact amount, or one where that is less. */
  lemma FinalAtMostExact(prompt: nat, completion: nat, completionRatio: real, modelRatio: real, groupRatio: real, b: Billing, c: real, e: real)
    requires !UsesPrice(b) && 0.0 <= completionRatio && 0.0 <= modelRatio * groupRatio
    requires c == completion as real * completionRatio && e == (prompt as real + c) * (modelRatio * groupRatio)
    ensures var f := FinalQuota(prompt, completion, completionRatio, modelRatio, groupRatio, b, None);
            0 <= f && (f as real <= e || f == 1)
            && (prompt + completion > 0 ==> e - (modelRatio * groupRatio + 1.0) < f as real)
  {
    MeteredWithinRatioPlusOne(prompt, completion, completionRatio, modelRatio * groupRatio, c, e);
    MeteredMonotone(0, 0, prompt, completion, completionRatio, modelRatio * groupRatio);
    var f := FinalQuota(prompt, completion, completionRatio, modelRatio, groupRatio, b, None);
    if prompt + completion == 0 {
      assert c == 0.0;
    }
  }

  /** Truncating twice loses less than ratio + 1 and never overcharges; `c` is the exact
      completion part and `e` the exact charge. */
  lemma MeteredWithinRatioPlusOne(prompt: nat, completion: nat, completionRatio: real, ratio: real, c: real, e: real)
    requires 0.0 <= completionRatio && 0.0 <= ratio
    requires c == completion as real * completionRatio && e == (prompt as real + c) * ratio
    ensures e - (ratio + 1.0) < Metered(prompt, completion, completionRatio, ratio) as real <= e
  {
    ScaledFloor(completion, completionRatio, c);
    ScaledLoss(Tokens(prompt, completion, completionRatio), prompt as real + c, ratio, e);
  }

  lemma MeteredMonotone(p1: nat, c1: nat, p2: nat, c2: nat, completionRatio: real, ratio: real)
    requires 0.0 <= completionRatio && 0.0 <= ratio && p1 <= p2 && c1 <= c2
    ensures 0 <= Metered(p1, c1, completionRatio, ratio) <= Metered(p2, c2, completionRatio, ratio)
  {
    ScaledOrder(c1, c2, completionRatio);
    ScaledOrder(Tokens(p1, c1, completionRatio), Tokens(p2, c2, completionRatio), ratio);
  }

  lemma TimesCount(charged: int, n: int)
    requires charged >= 0
    ensures n >= 1 ==> charged * n >= charged
    ensures n < 0 ==> (charged * n >= 0 <==> charged == 0)
  {}

  lemma PlainCoversPreCharge(prompt: nat, completion: nat, configured: int, completionRatio: real, modelRatio: real, groupRatio: real, b: Billing)
    requires prompt > 0 && 0.0 <= completionRatio && 0.0 <= modelRatio * groupRatio
    ensures var plain := FinalQuota(prompt, completion, completionRatio, modelRatio, groupRatio, b, None);
            0 <= plain && PreCharge(prompt, configured, modelRatio, groupRatio, b) <= plain
  {
    if !UsesPrice(b) {
      ScaledOrder(0, completion, completionRatio);
      ScaledOrder(prompt, Tokens(prompt, completion, completionRatio), modelRatio * groupRatio);
    }
  }

  /** When usage reports the prompt count that was pre-charged, settling never pays back, whether
      tokens or requests are billed, and whatever positive count a Stability answer reports. */
  lemma FinalCoversPreCharge(prompt: nat, completion: nat, configured: int, completionRatio: real, modelRatio: real, groupRatio: real, b: Billing, images: Option<int>)
    requires prompt > 0 && 0.0 <= completionRatio && 0.0 <= modelRatio * groupRatio
    requires images.Some? ==> images.value >= 1
    ensures PreCharge(prompt, configured, modelRatio, groupRatio, b)
            <= FinalQuota(prompt, completion, completionRatio, modelRatio, groupRatio, b, images)
  {
    PlainCoversPreCharge(prompt, completion, configured, completionRatio, modelRatio, groupRatio, b);
    if images.Some? {
      TimesCount(FinalQuota(prompt, completion, completionRatio, modelRatio, groupRatio, b, None), images.value);
    }
  }

  /** A count that is not positive pays back, unless there is nothing to pay back. */
  lemma NoImagesPayBackIff(prompt: nat, completion: nat, configured: int, completionRatio: real, modelRatio: real, groupRatio: real, b: Billing, n: int)
    requires prompt > 0 && 0.0 <= completionRatio && 0.0 <= modelRatio * groupRatio && n <= 0
    requires UsesPrice(b) ==> 0.0 <= b.price.value * groupRatio * b.quotaPerUnit
    ensures var pre, plain := PreCharge(prompt, configured, modelRatio, groupRatio, b),
                              FinalQuota(prompt, completion, completionRatio, modelRatio, groupRatio, b, None);
            pre <= FinalQuota(prompt, completion, completionRatio, modelRatio, groupRatio, b, Some(n))
            <==> if n == 0 then pre == 0 else plain == 0
  {
    var plain := FinalQuota(prompt, completion, completionRatio, modelRatio, groupRatio, b, None);
    PlainCoversPreCharge(prompt, completion, configured, completionRatio, modelRatio, groupRatio, b);
    if UsesPrice(b) {
      FloorNear(b.price.value * groupRatio * b.quotaPerUnit);
    } else {
      ScaledOrder(prompt, prompt, modelRatio * groupRatio);
    }
    TimesCount(plain, n);
  }
}
