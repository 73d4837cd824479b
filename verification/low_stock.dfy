/** The low-stock widget of the business summary: the status badge, the
    critical alert and its restock suggestion, the progress bar towards
    twice the threshold, and how its thresholds compare with the badge of
    the stock page. */
module LowStock {
  import opened Options
  import opened JsNumber
  import opened JsText
  import Inventory

  /** The record `webhook/low-stock` answers with. */
  datatype LowStockItem = LowStockItem(
    id: string, item: string, quantity: int, unit: string,
    price: Decimal, minThreshold: int, status: Option<string>)

  datatype Tone = Red | Orange | Green | Grey

  datatype Icon = AlertTriangle | PackageIcon | CheckCircle | Package2

  /** `getStatusColor`: the status compared without regard to case; a
      missing or unknown status is grey. */
  function StatusColor(status: Option<string>): (t: Tone)
    ensures t == Red <==> status.Some? && ToLower(status.value) == "low"
    ensures t == Orange <==> status.Some? && ToLower(status.value) == "medium"
    ensures t == Green <==> status.Some? && ToLower(status.value) == "high"
  {
    match status
    case None => Grey
    case Some(s) =>
      var key := ToLower(s);
      if key == "low" then Red
      else if key == "medium" then Orange
      else if key == "high" then Green
      else Grey
  }

  /** `getStatusIcon` */
  function StatusIcon(status: Option<string>): (i: Icon)
    ensures i == AlertTriangle <==> status.Some? && ToLower(status.value) == "low"
    ensures i == PackageIcon <==> status.Some? && ToLower(status.value) == "medium"
    ensures i == CheckCircle <==> status.Some? && ToLower(status.value) == "high"
  {
    match status
    case None => Package2
    case Some(s) =>
      var key := ToLower(s);
      if key == "low" then AlertTriangle
      else if key == "medium" then PackageIcon
      else if key == "high" then CheckCircle
      else Package2
  }

  /** The icon that goes with each colour. */
  function IconFor(t: Tone): Icon {
    match t
    case Red => AlertTriangle
    case Orange => PackageIcon
    case Green => CheckCircle
    case Grey => Package2
  }

  /** Badge colour and icon always agree, and neither depends on case. */
  lemma BadgeAgrees(status: Option<string>)
    ensures StatusIcon(status) == IconFor(StatusColor(status))
    ensures status.Some? ==> StatusColor(Some(ToLower(status.value))) == StatusColor(status)
  {
    if status.Some? {
      ToLowerIdempotent(status.value);
    }
  }

  // ------------------------------------------------------- alert and order

  /** The critical alert shows while the stock is strictly below the
      threshold: exactly when the suggested order is more than the threshold
      itself, and, for a non-negative stock, only while the bar is less than
      half full. */
  function Alert(quantity: int, minThreshold: int): (b: bool)
    ensures b <==> SuggestedOrder(quantity, minThreshold) > minThreshold
    ensures b && quantity >= 0 ==>
      Progress(quantity, minThreshold).Finite? && Progress(quantity, minThreshold).value < 50.0
  {
    AlertedBar(quantity, minThreshold);
    quantity < minThreshold
  }

  /** Below a positive threshold the bar is less than half full. */
  lemma AlertedBar(quantity: int, minThreshold: int)
    ensures 0 <= quantity < minThreshold ==>
      Progress(quantity, minThreshold).Finite? && Progress(quantity, minThreshold).value < 50.0
  {
    if 0 <= quantity < minThreshold {
      var d := (2 * minThreshold) as real;
      BelowHalf(Progress(quantity, minThreshold).value, d, quantity as real * 100.0);
    }
  }

  /** A share `v` of a positive `d` that gives less than half of `100 * d`
      is less than 50. */
  lemma BelowHalf(v: real, d: real, x: real)
    requires d > 0.0 && v * d == x && x < 50.0 * d
    ensures v < 50.0
  {
    assert (v - 50.0) * d == x - 50.0 * d;
  }

  /** "Suggested order": enough to reach twice the threshold. */
  function SuggestedOrder(quantity: int, minThreshold: int): (n: int)
    ensures quantity + n == 2 * minThreshold
  {
    minThreshold * 2 - quantity
  }

  /** "Estimated cost" of the suggested order. */
  function EstimatedCost(it: LowStockItem): (c: real)
    ensures c == SuggestedOrder(it.quantity, it.minThreshold) as real * it.price.Value()
  {
    (it.minThreshold * 2 - it.quantity) as real * it.price.Value()
  }

  /** "Stock Worth": the stock at its unit price; nothing in stock or a
      free item is worth nothing, and a real stock at a real price is worth
      something. */
  function TotalValue(it: LowStockItem): (v: real)
    ensures v == 0.0 <==> it.quantity == 0 || it.price.IsZero()
    ensures it.quantity >= 0 && it.price.units >= 0 ==> v >= 0.0
  {
    SignOfValue(it.price);
    it.quantity as real * it.price.Value()
  }

  /** Whenever the alert shows for a non-negative stock, the suggestion is
      a positive amount, more than the threshold itself, and its cost is not
      negative for a non-negative price; ordering it and adding the current
      worth gives the worth of twice the threshold. */
  lemma SuggestionWhenAlerted(it: LowStockItem)
    requires Alert(it.quantity, it.minThreshold) && it.quantity >= 0
    ensures SuggestedOrder(it.quantity, it.minThreshold) > it.minThreshold > 0
    ensures it.price.units >= 0 ==> EstimatedCost(it) >= 0.0
    ensures EstimatedCost(it) + TotalValue(it) == (2 * it.minThreshold) as real * it.price.Value()
  {
    SignOfValue(it.price);
    var n := SuggestedOrder(it.quantity, it.minThreshold);
    assert (n + it.quantity) as real * it.price.Value() == n as real * it.price.Value() + it.quantity as real * it.price.Value();
  }

  // ---------------------------------------------------------- progress bar

  /** A JavaScript number as the bar's width uses it. */
  datatype Ratio = Finite(value: real) | NegInfinity | NotANumber

  /** `Math.min(quantity / (minThreshold * 2) * 100, 100)`: a zero
      threshold divides by zero, giving `Infinity` (capped to 100),
      `-Infinity` or `NaN`. */
  function Progress(quantity: int, minThreshold: int): (p: Ratio)
    ensures p.Finite? ==> p.value <= 100.0
    ensures minThreshold > 0 && quantity >= 0 ==> p.Finite? && p.value >= 0.0
    ensures minThreshold > 0 && quantity >= 2 * minThreshold ==> p == Finite(100.0)
    ensures minThreshold > 0 && quantity < 2 * minThreshold ==>
      p.Finite? && p.value * (2 * minThreshold) as real == quantity as real * 100.0
    ensures minThreshold == 0 ==> (p == Finite(100.0) <==> quantity > 0)
    ensures minThreshold == 0 && quantity < 0 ==> p == NegInfinity
    ensures minThreshold == 0 && quantity == 0 ==> p == NotANumber
  {
    if minThreshold == 0 then
      if quantity > 0 then Finite(100.0)
      else if quantity < 0 then NegInfinity
      else NotANumber
    else
      var x := quantity as real;
      var d := (minThreshold * 2) as real;
      var share := x / d * 100.0;
      ShareOf(x, d);
      Finite(if share < 100.0 then share else 100.0)
  }

  /** `x / d * 100`: for a positive `d`, below 100 exactly when `x < d`
      and non-negative for a non-negative `x`; for any non-zero `d`,
      `x * 100` once multiplied back by `d`. */
  lemma ShareOf(x: real, d: real)
    ensures d > 0.0 ==> (x / d * 100.0 < 100.0 <==> x < d)
    ensures d > 0.0 && x >= 0.0 ==> x / d * 100.0 >= 0.0
    ensures d != 0.0 ==> x / d * 100.0 * d == x * 100.0
  {
    if d > 0.0 {
      var s := x / d;
      assert s * d == x;
      assert d - x == (1.0 - s) * d;
      if s < 1.0 {
        assert (1.0 - s) * d > 0.0;
      } else {
        assert (1.0 - s) * d <= 0.0;
      }
      if x >= 0.0 {
        assert s >= 0.0;
      }
    }
    if d != 0.0 {
      var s := x / d;
      assert s * d == x;
      assert s * 100.0 * d == s * d * 100.0;
    }
  }

  /** The bar's colour: red below the threshold, orange below one and a
      half times it, green from there on. */
  function BarColor(quantity: int, minThreshold: int): (t: Tone)
    ensures t == Red <==> quantity < minThreshold
    ensures t == Orange <==> minThreshold <= quantity && 2 * quantity < 3 * minThreshold
    ensures t == Green <==> minThreshold <= quantity && 2 * quantity >= 3 * minThreshold
  {
    if quantity < minThreshold then Red
    else if (quantity as real) < minThreshold as real * 1.5 then Orange
    else Green
  }

  /** Ordering the suggestion fills the bar, in green. */
  lemma SuggestionFillsBar(quantity: int, minThreshold: int)
    requires minThreshold > 0
    ensures var after := quantity + SuggestedOrder(quantity, minThreshold);
      Progress(after, minThreshold) == Finite(100.0) && BarColor(after, minThreshold) == Green
  {
  }

  // ------------------------------------ against the badge of the stock page

  /** The widget's alert is stricter than the page's "Low Stock" badge:
      every alerted record is Low on the page, but a record exactly at its
      threshold is Low there and raises no alert here. */
  lemma AlertStricterThanPage(quantity: int, minThreshold: int)
    ensures Alert(quantity, minThreshold) ==> Inventory.StatusOf(quantity, minThreshold) == Inventory.Low
    ensures Inventory.StatusOf(minThreshold, minThreshold) == Inventory.Low && !Alert(minThreshold, minThreshold)
    ensures BarColor(minThreshold, minThreshold) != Red
  {
  }

  /** At exactly one and a half times the threshold the page still says
      Medium while the widget's bar is already green; everywhere else
      above the threshold the two agree. */
  lemma BarAndPageSplitAtOneAndAHalf(k: int)
    requires k > 0
    ensures Inventory.StatusOf(3 * k, 2 * k) == Inventory.Medium
    ensures BarColor(3 * k, 2 * k) == Green
    ensures forall q, m :: m <= q && 2 * q != 3 * m && q != m ==>
      (Inventory.StatusOf(q, m) == Inventory.Medium <==> BarColor(q, m) == Orange)
  {
  }
}
