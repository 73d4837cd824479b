/** The edit dialog: the form filled from the chosen record, the submit
    guards, the update request, the merge of the server's answer into the
    record handed back to the page, and the error text. */
module EditModal {
  import opened Options
  import opened JsNumber
  import opened JsText
  import opened Json
  import opened Cache
  import opened StockTypes
  import opened StockForm
  import StockApi

  /** `x?.toString() || "0"` */
  function TextOrZero(text: string): (r: string)
    ensures text != "" ==> r == text
  {
    if text != "" then text else "0"
  }

  /** The prefill effect: name and unit as they are, the numbers spelled
      out. Each number reads back as itself. */
  function Prefill(item: Stock): (f: Form)
    ensures f.itemName == item.itemName && f.unit == item.unit
    ensures ParseInt(f.quantity) == Some(item.quantity) && ToNumber(f.quantity) == Some(Decimal(item.quantity, 0))
    ensures ParseFloat(f.price) == Some(Normalize(item.price)) && ToNumber(f.price) == Some(Normalize(item.price))
    ensures ParseInt(f.minT) == Some(item.minT) && ToNumber(f.minT) == Some(Decimal(item.minT, 0))
  {
    ParseIntOfIntToString(item.quantity);
    ToNumberOfIntToString(item.quantity);
    ParseIntOfIntToString(item.minT);
    ToNumberOfIntToString(item.minT);
    ParseFloatOfShow(item.price);
    Form(item.itemName, TextOrZero(IntToString(item.quantity)), TextOrZero(ShowDecimal(item.price)),
         item.unit, TextOrZero(IntToString(item.minT)))
  }

  /** How the awaited update came back. The mutation is awaited without
      `unwrap`, so a server error still resolves, with no `data`
      (`Answer(JUndef)`); `Threw` is an exception raised inside the `try`. */
  datatype Response = Answer(data: Json) | Threw(error: Json)

  /** The record built from the form alone (`updatedItem`). */
  function FromForm(id: string, f: Form): (s: Stock)
    ensures s.id == id && s.itemName == f.itemName && s.unit == f.unit
    ensures ParseInt(f.quantity).Some? ==> s.quantity == ParseInt(f.quantity).value
    ensures ParseFloat(f.price).Some? ==> s.price == ParseFloat(f.price).value
    ensures ParseInt(f.minT).Some? ==> s.minT == ParseInt(f.minT).value
  {
    Stock(id, f.itemName, ParseInt(f.quantity).GetOr(0), f.unit, ParseInt(f.minT).GetOr(0), ParseFloat(f.price).GetOr(Zero))
  }

  /** `v || fallback` for a text field: a non-empty string wins. */
  function TextFrom(v: Json, fallback: string): (r: string)
    ensures v.JStr? && v.s != "" ==> r == v.s
    ensures !(v.JStr? && v.s != "") ==> r == fallback
  {
    if v.JStr? && v.s != "" then v.s else fallback
  }

  /** `v || fallback` for a whole-number field: a non-zero whole number wins. */
  function WholeFrom(v: Json, fallback: int): (r: int)
    ensures v.JNum? && Normalize(v.n).scale == 0 && v.n.units != 0 ==> r as real == v.n.Value()
    ensures !(v.JNum? && Normalize(v.n).scale == 0 && v.n.units != 0) ==> r == fallback
  {
    if v.JNum? && Normalize(v.n).scale == 0 && v.n.units != 0 then Normalize(v.n).units else fallback
  }

  /** `v || fallback` for the price: a non-zero number wins. */
  function DecimalFrom(v: Json, fallback: Decimal): (r: Decimal)
    ensures v.JNum? && !v.n.IsZero() ==> r == v.n
    ensures !(v.JNum? && !v.n.IsZero()) ==> r == fallback
  {
    if v.JNum? && !v.n.IsZero() then v.n else fallback
  }

  /** `responseItem`: each field from the answer when it is there, under
      either of its names, and otherwise from the record built from the
      form. */
  function Merge(api: Object, form: Stock): (s: Stock)
    ensures s.id == if Truthy(Get(api, "id")) then Stringify(api["id"]) else form.id
    ensures s.itemName == TextFrom(Get(api, "itemName"), TextFrom(Get(api, "Item"), form.itemName))
    ensures s.unit == TextFrom(Get(api, "unit"), form.unit)
    ensures s.quantity == WholeFrom(Get(api, "quantity"), form.quantity)
    ensures s.minT == WholeFrom(Get(api, "MinT"), WholeFrom(Get(api, "MinThreshold"), form.minT))
    ensures s.price == DecimalFrom(Get(api, "price"), form.price)
  {
    Stock(Stringify(Or(Get(api, "id"), JStr(form.id))),
          TextFrom(Get(api, "itemName"), TextFrom(Get(api, "Item"), form.itemName)),
          WholeFrom(Get(api, "quantity"), form.quantity),
          TextFrom(Get(api, "unit"), form.unit),
          WholeFrom(Get(api, "MinT"), WholeFrom(Get(api, "MinThreshold"), form.minT)),
          DecimalFrom(Get(api, "price"), form.price))
  }

  /** An answer that carries none of the fields (or only falsy ones) gives
      the record built from the form, with the dialog's id. */
  lemma MergeOfEmptyAnswer(api: Object, form: Stock)
    requires forall k :: k in api ==> !Truthy(api[k])
    ensures Merge(api, form) == form
  {
    assert Or(Get(api, "id"), JStr(form.id)) == JStr(form.id);
  }

  /** A full answer wins over the form, field by field. */
  lemma MergePrefersAnswer(form: Stock, s: Stock)
    requires s.itemName != "" && s.unit != ""
    requires s.quantity != 0 && s.minT != 0 && !s.price.IsZero()
    ensures var api := map["id" := JStr(s.id), "itemName" := JStr(s.itemName), "quantity" := JNum(FromInt(s.quantity)),
                           "unit" := JStr(s.unit), "MinT" := JNum(FromInt(s.minT)), "price" := JNum(s.price)];
      Merge(api, form) == s.(id := if s.id != "" then s.id else form.id)
  {
    var api := map["id" := JStr(s.id), "itemName" := JStr(s.itemName), "quantity" := JNum(FromInt(s.quantity)),
                   "unit" := JStr(s.unit), "MinT" := JNum(FromInt(s.minT)), "price" := JNum(s.price)];
    assert Get(api, "id") == JStr(s.id);
    assert Normalize(FromInt(s.quantity)) == FromInt(s.quantity);
    assert Normalize(FromInt(s.minT)) == FromInt(s.minT);
  }

  const MissingIdAlert := "Error: Item ID is missing. Cannot update this item."
  const DefaultError := "Failed to update item. Please try again."

  /** The alert text of the `catch`: the server's message, then the
      error's own message, then the fixed text. */
  function ErrorMessage(error: Json): (m: string)
    ensures Truthy(Member(Member(error, "data"), "message")) ==> m == Stringify(Member(Member(error, "data"), "message"))
    ensures !Truthy(Member(Member(error, "data"), "message")) && Truthy(Member(error, "message")) ==> m == Stringify(Member(error, "message"))
    ensures !Truthy(Member(Member(error, "data"), "message")) && !Truthy(Member(error, "message")) ==> m == DefaultError
  {
    var fromData := Member(Member(error, "data"), "message");
    if Truthy(fromData) then Stringify(fromData)
    else if Truthy(Member(error, "message")) then Stringify(Member(error, "message"))
    else DefaultError
  }

  /** The alert never comes up empty. */
  lemma ErrorMessageNonEmpty(error: Json)
    ensures ErrorMessage(error) != ""
  {
    var fromData := Member(Member(error, "data"), "message");
    if fromData.JNum? { assert |ShowDecimal(fromData.n)| >= 1; }
    var own := Member(error, "message");
    if own.JNum? { assert |ShowDecimal(own.n)| >= 1; }
  }

  /** What `handleSubmit` leaves behind: the request, the form state, the
      record handed to `onEdit`, the alert shown, and whether the dialog
      asked to close. */
  datatype Edited = Edited(request: Option<Request>, state: FormState, edited: Option<Stock>, alert: Option<string>, closes: bool)

  /** The id guard `!item.id || item.id === "undefined"`: it catches a
      record whose row came without an id, and never one whose id is a
      number. */
  function MissingId(id: string): (b: bool)
    ensures id == IdString(IdMissing) ==> b
    ensures (exists n :: id == IdString(IdNumber(n))) ==> !b
  {
    NumericIdIsText(id);
    id == "" || id == "undefined"
  }

  lemma NumericIdIsText(id: string)
    ensures (exists n :: id == IdString(IdNumber(n))) ==> id != "" && id != "undefined"
  {
    if exists n :: id == IdString(IdNumber(n)) {
      var n :| id == IdString(IdNumber(n));
      IntToStringStart(n);
    }
  }

  /** `handleSubmit` */
  function Submit(item: Option<Stock>, st: FormState, response: Response): (r: Edited)
    ensures r.state == FormState(st.form, Validate(st.form))
    ensures r.request.Some? <==> Valid(st.form) && item.Some? && !MissingId(item.value.id)
    ensures r.request.Some? ==> r.request == Some(StockApi.UpdateRequest(item.value.id, Body(st.form)))
    ensures Valid(st.form) && item.Some? && MissingId(item.value.id) ==> r.alert == Some(MissingIdAlert) && r.edited.None?
    ensures r.request.Some? && response.Answer? ==>
      && r.closes && r.alert.None?
      && r.edited == Some(if response.data.JObj? then Merge(response.data.fields, FromForm(item.value.id, st.form))
                          else FromForm(item.value.id, st.form))
    ensures r.request.Some? && response.Threw? ==> r.edited.None? && r.alert == Some(ErrorMessage(response.error)) && !r.closes
    ensures r.edited.Some? ==> r.request.Some?
  {
    var errors := Validate(st.form);
    var state := FormState(st.form, errors);
    if errors != map[] || item.None? then Edited(None, state, None, None, false)
    else if MissingId(item.value.id) then Edited(None, state, None, Some(MissingIdAlert), false)
    else
      var id := item.value.id;
      var request := Some(StockApi.UpdateRequest(id, Body(st.form)));
      match response
      case Answer(data) =>
        var edited := if data.JObj? then Merge(data.fields, FromForm(id, st.form)) else FromForm(id, st.form);
        Edited(request, state, Some(edited), None, true)
      case Threw(error) => Edited(request, state, None, Some(ErrorMessage(error)), false)
  }

  /** The prefilled texts are the numbers' own spellings. */
  lemma PrefillTexts(item: Stock)
    ensures Prefill(item) == Form(item.itemName, IntToString(item.quantity), ShowDecimal(item.price),
                                  item.unit, IntToString(item.minT))
  {
    RulesOnWholeNumbers(item.quantity);
    RulesOnWholeNumbers(item.minT);
    RulesOnDecimals(item.price);
  }

  /** A record that would pass the rules gives a prefilled form that does. */
  lemma PrefillValid(item: Stock)
    requires !IsBlank(item.itemName) && !IsBlank(item.unit)
    requires item.quantity > 0 && item.price.units > 0 && item.minT >= 0
    ensures Valid(Prefill(item))
  {
    PrefillTexts(item);
    ValidOnNumbers(Prefill(item), item.quantity, item.price, item.minT);
  }

  /** Submitting the prefilled form unchanged, when the server sends no
      data back, hands the page the record it started from (its price in
      the shortest spelling), and the request carries the same values. */
  lemma UnchangedEditRoundTrip(item: Stock)
    requires !MissingId(item.id)
    requires !IsBlank(item.itemName) && !IsBlank(item.unit)
    requires item.quantity > 0 && item.price.units > 0 && item.minT >= 0
    ensures var r := Submit(Some(item), FormState(Prefill(item), map[]), Answer(JUndef));
      && r.edited == Some(item.(price := Normalize(item.price)))
      && r.request.value.body["quantity"] == JNum(FromInt(item.quantity))
      && r.request.value.body["price"] == JNum(Normalize(item.price))
      && r.request.value.body["MinT"] == JNum(FromInt(item.minT))
      && r.request.value.body["id"] == JStr(item.id)
  {
    var f := Prefill(item);
    PrefillValid(item);
    var r := Submit(Some(item), FormState(f, map[]), Answer(JUndef));
    assert r.request == Some(StockApi.UpdateRequest(item.id, Body(f)));
    AnsweredWithoutData(item, f, r);
    UnchangedBody(item, f, Body(f));
  }

  /** An accepted submit whose answer carries no data hands back the record
      built from the form. */
  lemma AnsweredWithoutData(item: Stock, f: Form, r: Edited)
    requires r == Submit(Some(item), FormState(f, map[]), Answer(JUndef)) && r.request.Some?
    ensures r.edited == Some(FromForm(item.id, f))
  {
  }

  /** The body built from the prefilled form, once the id is added. */
  lemma UnchangedBody(item: Stock, f: Form, body: Object)
    requires f == Prefill(item) && body == Body(f)
    ensures var b := StockApi.UpdateRequest(item.id, body).body;
      && b["quantity"] == JNum(FromInt(item.quantity))
      && b["price"] == JNum(Normalize(item.price))
      && b["MinT"] == JNum(FromInt(item.minT))
      && b["id"] == JStr(item.id)
  {
  }
}
