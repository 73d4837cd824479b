/** The stock records of the inventory (`IStock`, `IReplenishEntry`), the
    records the stock API returns, and the field-name bridges between them. */
module StockTypes {
  import opened Options
  import opened JsNumber
  import opened Json

  /** `IStock`: one inventory line as the views use it. */
  datatype Stock = Stock(id: string, itemName: string, quantity: int, unit: string, minT: int, price: Decimal)

  /** `IReplenishEntry`: an item and the quantity to add to it. */
  datatype Entry = Entry(item: Stock, quantity: int)

  /** `text || fallback` for a string property that may be missing. */
  function TextOr(text: Option<string>, fallback: string): (r: string)
    ensures text.Some? && text.value != "" ==> r == text.value
    ensures text.None? || text.value == "" ==> r == fallback
  {
    if text.Some? && text.value != "" then text.value else fallback
  }

  /** `n || 0` for a number property that may be missing. */
  function IntOrZero(n: Option<int>): (r: int)
    ensures n.Some? ==> r == n.value
    ensures n.None? ==> r == 0
  {
    if n.Some? && n.value != 0 then n.value else 0
  }

  /** `d || 0` for a decimal property that may be missing. */
  function DecimalOrZero(d: Option<Decimal>): (r: Decimal)
    ensures d.Some? && !d.value.IsZero() ==> r == d.value
    ensures d.None? || d.value.IsZero() ==> r == Zero
  {
    if d.Some? && !d.value.IsZero() then d.value else Zero
  }

  // ------------------------------------------------------- Types/stock.ts

  /** `IApiStockItem` of the shared types: the capitalised `Item`, `Unit` and
      `MinThreshold` names; `None` stands for a missing property (and, for
      `quantity`, for any value that is not a number). */
  datatype ApiStockItem = ApiStockItem(
    id: string, item: Option<string>, quantity: Option<int>,
    unitName: Option<string>, price: Option<Decimal>, minThreshold: Option<int>)

  /** `mapApiToStock` */
  function MapApiToStock(a: ApiStockItem): (s: Stock)
    ensures s.id == a.id
    ensures s.itemName != "" && s.unit != ""
    ensures a.item.Some? && a.item.value != "" ==> s.itemName == a.item.value
    ensures a.item.None? || a.item.value == "" ==> s.itemName == "Unknown Item"
    ensures s.quantity == if a.quantity.Some? then a.quantity.value else 0
    ensures a.unitName.Some? && a.unitName.value != "" ==> s.unit == a.unitName.value
    ensures a.unitName.None? || a.unitName.value == "" ==> s.unit == "unit"
    ensures s.minT == if a.minThreshold.Some? then a.minThreshold.value else 0
    ensures s.price.Value() == if a.price.Some? then a.price.value.Value() else 0.0
  {
    SignOfValue(a.price.GetOr(Zero));
    Stock(a.id, TextOr(a.item, "Unknown Item"), a.quantity.GetOr(0), TextOr(a.unitName, "unit"),
          IntOrZero(a.minThreshold), DecimalOrZero(a.price))
  }

  /** `ICreateStockRequest` */
  datatype StockRequest = StockRequest(itemName: string, quantity: int, price: Decimal, unit: string, minT: int)

  /** `mapStockToApi`: the id is dropped and every other field is copied. */
  function MapStockToApi(s: Stock): (r: StockRequest)
    ensures r.itemName == s.itemName && r.quantity == s.quantity && r.price == s.price
    ensures r.unit == s.unit && r.minT == s.minT
  {
    StockRequest(s.itemName, s.quantity, s.price, s.unit, s.minT)
  }

  /** An API record whose fields are all present and non-empty survives the
      trip to the view record and on to a request unchanged. */
  lemma ApiRoundTrip(a: ApiStockItem)
    requires a.item.Some? && a.item.value != ""
    requires a.quantity.Some?
    requires a.unitName.Some? && a.unitName.value != ""
    requires a.price.Some? && !a.price.value.IsZero()
    requires a.minThreshold.Some?
    ensures MapStockToApi(MapApiToStock(a))
         == StockRequest(a.item.value, a.quantity.value, a.price.value, a.unitName.value, a.minThreshold.value)
  {
  }

  /** The API record that carries a view record under the API's names. */
  function ApiOf(s: Stock): ApiStockItem {
    ApiStockItem(s.id, Some(s.itemName), Some(s.quantity), Some(s.unit), Some(s.price), Some(s.minT))
  }

  /** Mapping the API spelling of a record gives the record back, as long as
      its name and unit are non-empty and a zero price is spelled `0`: the
      fallbacks only ever replace values that are missing. */
  lemma MapApiToStockInverts(s: Stock)
    requires s.itemName != "" && s.unit != ""
    requires !s.price.IsZero() || s.price == Zero
    ensures MapApiToStock(ApiOf(s)) == s
  {
  }

  // ------------------------------------- raw rows of the stock endpoint

  /** The `id` property of a raw row: a number (as the page expects), a
      string, or missing. */
  datatype RawId = IdNumber(n: int) | IdText(text: string) | IdMissing

  /** The `price` property of a raw row: "number | string", or missing. */
  datatype RawPrice = PriceMissing | PriceNumber(d: Decimal) | PriceText(text: string)

  /** A row of `webhook/get-stock` before any mapping, with the lower-case
      `unit` this endpoint uses. */
  datatype ApiRow = ApiRow(
    id: RawId, item: Option<string>, quantity: Option<int>,
    unit: Option<string>, price: RawPrice, minThreshold: Option<int>)

  /** `String(item.id)` */
  function IdString(id: RawId): (r: string)
    ensures id.IdText? ==> r == id.text
    ensures id.IdMissing? ==> r == "undefined"
    ensures id.IdNumber? ==> ParseInt(r) == Some(id.n)
  {
    match id
    case IdNumber(n) => ParseIntOfIntToString(n); IntToString(n)
    case IdText(t) => t
    case IdMissing => "undefined"
  }

  /** `item.price?.toString()` */
  function PriceString(p: RawPrice): Option<string> {
    match p
    case PriceMissing => None
    case PriceNumber(d) => Some(ShowDecimal(d))
    case PriceText(t) => Some(t)
  }

  /** `parseFloat("0")` */
  lemma ParseFloatOfZero()
    ensures ParseFloat("0") == Some(Zero)
  {
    ParseFloatOfShow(Zero);
    assert ShowDecimal(Zero) == "0";
  }

  /** What `parseFloat` makes of `item.price?.toString() || "0"`, case by
      case: the number itself for a number, the text's leading decimal for
      non-empty text, and zero otherwise. */
  lemma CoercedText(p: RawPrice)
    ensures p.PriceMissing? ==> ParseFloat(TextOr(PriceString(p), "0")) == Some(Zero)
    ensures p.PriceNumber? ==> ParseFloat(TextOr(PriceString(p), "0")) == Some(Normalize(p.d))
    ensures p.PriceText? && p.text != "" ==> ParseFloat(TextOr(PriceString(p), "0")) == ParseFloat(p.text)
    ensures p.PriceText? && p.text == "" ==> ParseFloat(TextOr(PriceString(p), "0")) == Some(Zero) && ParseFloat(p.text).None?
  {
    match p
    case PriceMissing =>
      FallbackText(PriceString(p));
    case PriceNumber(d) =>
      assert TextOr(PriceString(p), "0") == ShowDecimal(d);
      ParseFloatOfShow(d);
    case PriceText(t) =>
      if t == "" {
        FallbackText(PriceString(p));
        EmptyText(t);
      }
  }

  /** The fallback `"0"` parses to zero. */
  lemma FallbackText(text: Option<string>)
    requires text.None? || text.value == ""
    ensures ParseFloat(TextOr(text, "0")) == Some(Zero)
  {
    var z := TextOr(text, "0");
    assert z == "0";
    ParseFloatOfZero();
  }

  /** `parseFloat("")` is `NaN`. */
  lemma EmptyText(t: string)
    requires t == ""
    ensures ParseFloat(t).None?
  {
    assert JsText.TrimStart(t) == t;
    assert SignLength(t) == 0 && t[0..] == t;
    assert LeadingDigits(t) == 0;
  }

  /** `parseFloat(item.price?.toString() || "0") || 0`, the price coercion
      that the stock slice and the stock page both apply. A number comes back
      as itself (in its shortest spelling); text comes back as its leading
      decimal; anything else, and every zero, becomes `0`. */
  function CoercePrice(p: RawPrice): (r: Decimal)
    ensures p.PriceMissing? ==> r == Zero
    ensures p.PriceNumber? ==> r == Normalize(p.d)
    ensures (p.PriceText? && ParseFloat(p.text).Some? && !ParseFloat(p.text).value.IsZero())
        ==> r == ParseFloat(p.text).value
    ensures p.PriceText? && (ParseFloat(p.text).None? || ParseFloat(p.text).value.IsZero()) ==> r == Zero
  {
    CoercedText(p);
    NonZeroOr(ParseFloat(TextOr(PriceString(p), "0")))
  }

  /** `x || 0` for a parsed number: `NaN` and zero become `0`. */
  function NonZeroOr(x: Option<Decimal>): (r: Decimal)
    ensures x.Some? && !x.value.IsZero() ==> r == x.value
    ensures x.None? || x.value.IsZero() ==> r == Zero
  {
    match x
    case None => Zero
    case Some(v) => if v.IsZero() then Zero else v
  }
}
