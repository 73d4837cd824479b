/** The five-field stock form shared by the add and edit dialogs: its
    values, the per-field validation rules and messages, per-field error
    clearing, and the reset on close. */
module StockForm {
  import opened Options
  import opened JsNumber
  import opened JsText
  import opened Json

  datatype Field = ItemName | Quantity | Price | Unit | MinT

  /** `IStockFormData`: every value is the raw text of its input. */
  datatype Form = Form(itemName: string, quantity: string, price: string, unit: string, minT: string)

  const Empty := Form("", "", "", "", "")

  /** `IStockFormErrors`: a message per field; a cleared error stays as "". */
  type Errors = map<Field, string>

  datatype FormState = FormState(form: Form, errors: Errors)

  const Blank := FormState(Empty, map[])

  function ValueOf(f: Form, field: Field): string {
    match field
    case ItemName => f.itemName
    case Quantity => f.quantity
    case Price => f.price
    case Unit => f.unit
    case MinT => f.minT
  }

  function WithValue(f: Form, field: Field, value: string): (r: Form)
    ensures ValueOf(r, field) == value
    ensures forall other :: other != field ==> ValueOf(r, other) == ValueOf(f, other)
  {
    match field
    case ItemName => f.(itemName := value)
    case Quantity => f.(quantity := value)
    case Price => f.(price := value)
    case Unit => f.(unit := value)
    case MinT => f.(minT := value)
  }

  function Message(field: Field): string {
    match field
    case ItemName => "Item name is required"
    case Quantity => "Quantity must be greater than zero"
    case Price => "Price must be greater than zero"
    case Unit => "Unit is required"
    case MinT => "Minimum threshold must be zero or greater"
  }

  /** `Number(text) <= 0`: false when the text is not a number. */
  predicate NumberAtMostZero(text: string) {
    ToNumber(text).Some? && ToNumber(text).value.units <= 0
  }

  /** `Number(text) < 0` */
  predicate NumberBelowZero(text: string) {
    ToNumber(text).Some? && ToNumber(text).value.units < 0
  }

  /** The rule of one field fails on the form. */
  predicate Fails(f: Form, field: Field) {
    var text := ValueOf(f, field);
    match field
    case ItemName => IsBlank(text)
    case Unit => IsBlank(text)
    case Quantity => text == "" || NumberAtMostZero(text)
    case Price => text == "" || NumberAtMostZero(text)
    case MinT => text == "" || NumberBelowZero(text)
  }

  /** The errors object `validateForm` builds, given which of the five
      rules fail: the rules are checked in order, each failing one adding
      its own message. */
  function Collect(name: bool, quantity: bool, price: bool, unit: bool, minT: bool): (errors: Errors) {
    var e0: Errors := map[];
    var e1 := if name then e0[ItemName := "Item name is required"] else e0;
    var e2 := if quantity then e1[Quantity := "Quantity must be greater than zero"] else e1;
    var e3 := if price then e2[Price := "Price must be greater than zero"] else e2;
    var e4 := if unit then e3[Unit := "Unit is required"] else e3;
    if minT then e4[MinT := "Minimum threshold must be zero or greater"] else e4
  }

  lemma CollectFields(name: bool, quantity: bool, price: bool, unit: bool, minT: bool)
    ensures var e := Collect(name, quantity, price, unit, minT);
      && (ItemName in e <==> name) && (Quantity in e <==> quantity) && (Price in e <==> price)
      && (Unit in e <==> unit) && (MinT in e <==> minT)
      && forall field :: field in e ==> e[field] == Message(field)
  {
  }

  /** `validateForm` */
  function Validate(f: Form): (errors: Errors)
    ensures forall field :: field in errors <==> Fails(f, field)
    ensures forall field :: field in errors ==> errors[field] == Message(field)
    ensures errors == map[] <==> Valid(f)
  {
    var name := Fails(f, ItemName);
    var quantity := Fails(f, Quantity);
    var price := Fails(f, Price);
    var unit := Fails(f, Unit);
    var minT := Fails(f, MinT);
    CollectFields(name, quantity, price, unit, minT);
    var e := Collect(name, quantity, price, unit, minT);
    assert forall field :: field in e <==> Fails(f, field) by {
      forall field ensures field in e <==> Fails(f, field) {
        FieldCases(field);
      }
    }
    assert e == map[] <==> forall field :: field !in e;
    e
  }

  lemma FieldCases(field: Field)
    ensures field == ItemName || field == Quantity || field == Price || field == Unit || field == MinT
  {
  }

  /** The form passes validation. */
  predicate Valid(f: Form) {
    forall field :: !Fails(f, field)
  }

  lemma ZeroText()
    ensures ToNumber("0") == Some(Zero)
  {
    ToNumberOfIntToString(0);
    assert IntToString(0) == "0";
  }

  lemma BlankText(s: string)
    requires s == " " || s == "  "
    ensures IsBlank(s) && ToNumber(s) == Some(Zero)
  {
    assert TrimStart(s) == "";
  }

  lemma LetterText()
    ensures ToNumber("x") == None
  {
    assert TrimStart("x") == "x";
    assert TrimEnd("x") == "x";
    assert LeadingDigits("x") == 0;
  }

  /** `Number("0.5")` is one half: "0.5" is how one half is spelled. */
  lemma HalfNumber()
    ensures ToNumber("0.5") == Some(Decimal(5, 1))
  {
    assert Pow10(1) == 10;
    assert NatToDigits(0) == "0" && NatToDigits(5) == "5";
    assert PointedText(false, 0, 5, 1) == "0.5";
    PointedRoundTrip(Decimal(5, 1), 0, 5);
  }

  /** `parseInt("0.5")` stops at the point and reads `0`. */
  lemma HalfInt()
    ensures ParseInt("0.5") == Some(0)
  {
    TrimStartKeeps("0.5");
    assert "0.5" == "0" + ".5";
    LeadingDigitsOf("0", ".5");
    assert "0.5"[..1] == "0";
  }

  /** On a whole number spelled out, the quantity and price rule fails
      exactly on the numbers up to zero, and the threshold rule exactly on
      the negative ones. */
  lemma RulesOnWholeNumbers(n: int)
    ensures IntToString(n) != ""
    ensures NumberAtMostZero(IntToString(n)) <==> n <= 0
    ensures NumberBelowZero(IntToString(n)) <==> n < 0
  {
    ToNumberOfIntToString(n);
  }

  /** On a decimal spelled out, the price rule fails exactly on the numbers
      up to zero. */
  lemma RulesOnDecimals(d: Decimal)
    ensures ShowDecimal(d) != ""
    ensures NumberAtMostZero(ShowDecimal(d)) <==> d.units <= 0
  {
    ParseFloatOfShow(d);
    SignOfValue(d);
    SignOfValue(Normalize(d));
  }

  /** Valid means each of the five rules passes. */
  lemma ValidIffFive(f: Form)
    ensures Valid(f) <==> !IsBlank(f.itemName) && !Fails(f, Quantity) && !Fails(f, Price) && !IsBlank(f.unit) && !Fails(f, MinT)
  {
    if !IsBlank(f.itemName) && !Fails(f, Quantity) && !Fails(f, Price) && !IsBlank(f.unit) && !Fails(f, MinT) {
      forall field ensures !Fails(f, field) {
        FieldCases(field);
      }
    } else {
      assert Fails(f, ItemName) || Fails(f, Quantity) || Fails(f, Price) || Fails(f, Unit) || Fails(f, MinT);
    }
  }

  lemma QuantityRuleOnNumber(f: Form, n: int)
    requires f.quantity == IntToString(n)
    ensures Fails(f, Quantity) <==> n <= 0
  {
    RulesOnWholeNumbers(n);
    QuantityRule(f);
  }

  lemma PriceRuleOnNumber(f: Form, d: Decimal)
    requires f.price == ShowDecimal(d)
    ensures Fails(f, Price) <==> d.units <= 0
  {
    RulesOnDecimals(d);
    PriceRule(f);
  }

  lemma MinTRuleOnNumber(f: Form, n: int)
    requires f.minT == IntToString(n)
    ensures Fails(f, MinT) <==> n < 0
  {
    RulesOnWholeNumbers(n);
    MinTRule(f);
  }

  /** A form whose numbers are spelled-out numbers passes exactly when the
      name and unit are not blank, the quantity and price are positive and
      the threshold is not negative. */
  lemma ValidOnNumbers(f: Form, quantity: int, price: Decimal, minT: int)
    requires f.quantity == IntToString(quantity) && f.price == ShowDecimal(price) && f.minT == IntToString(minT)
    ensures Valid(f) <==> !IsBlank(f.itemName) && !IsBlank(f.unit) && quantity > 0 && price.units > 0 && minT >= 0
  {
    QuantityRuleOnNumber(f, quantity);
    PriceRuleOnNumber(f, price);
    MinTRuleOnNumber(f, minT);
    ValidIffFive(f);
  }

  /** The quantity rule in terms of the quantity text alone. */
  lemma QuantityRule(f: Form)
    ensures Fails(f, Quantity) <==> f.quantity == "" || NumberAtMostZero(f.quantity)
  {
  }

  /** The price rule in terms of the price text alone. */
  lemma PriceRule(f: Form)
    ensures Fails(f, Price) <==> f.price == "" || NumberAtMostZero(f.price)
  {
  }

  /** The threshold rule in terms of the threshold text alone. */
  lemma MinTRule(f: Form)
    ensures Fails(f, MinT) <==> f.minT == "" || NumberBelowZero(f.minT)
  {
  }

  /** Where the quantity rule draws its line: "0" fails, and "0.5" passes
      although `parseInt` will send `0` for it. */
  lemma QuantityBoundary(f: Form)
    ensures Fails(f.(quantity := "0"), Quantity)
    ensures !Fails(f.(quantity := "0.5"), Quantity) && ParseInt("0.5") == Some(0)
  {
    assert NumberAtMostZero("0") by { ZeroText(); }
    assert !NumberAtMostZero("0.5") by { HalfNumber(); }
    QuantityRule(f.(quantity := "0"));
    QuantityRule(f.(quantity := "0.5"));
    HalfInt();
  }

  /** A zero price fails. */
  lemma PriceBoundary(f: Form)
    ensures Fails(f.(price := "0"), Price)
  {
    assert NumberAtMostZero("0") by { ZeroText(); }
    PriceRule(f.(price := "0"));
  }

  /** A zero threshold passes, and so does a blank one, which `Number`
      reads as zero; only the empty threshold fails. */
  lemma MinTBoundary(f: Form)
    ensures !Fails(f.(minT := "0"), MinT)
    ensures !Fails(f.(minT := " "), MinT)
    ensures Fails(f.(minT := ""), MinT)
  {
    assert !NumberBelowZero("0") by { ZeroText(); }
    assert !NumberBelowZero(" ") by { BlankText(" "); }
    MinTRule(f.(minT := "0"));
    MinTRule(f.(minT := " "));
    MinTRule(f.(minT := ""));
  }

  /** A name of blanks fails. */
  lemma NameBoundary(f: Form)
    ensures Fails(f.(itemName := "  "), ItemName)
  {
    BlankText("  ");
  }

  /** `handleInputChange`: the field takes the new text, and its error, if
      it has a non-empty one, becomes "". Nothing else changes. */
  function InputChange(st: FormState, field: Field, value: string): (r: FormState)
    ensures ValueOf(r.form, field) == value
    ensures forall other :: other != field ==> ValueOf(r.form, other) == ValueOf(st.form, other)
    ensures r.errors.Keys == st.errors.Keys
    ensures field in st.errors ==> r.errors[field] == ""
    ensures forall other :: other in st.errors && other != field ==> r.errors[other] == st.errors[other]
  {
    var errors := if field in st.errors && st.errors[field] != "" then st.errors[field := ""] else st.errors;
    FormState(WithValue(st.form, field, value), errors)
  }

  /** A field with no pending error keeps its (absent) error however often
      it is edited, and editing one field twice is editing it once with the
      second text. */
  lemma InputChangeTwice(st: FormState, field: Field, a: string, b: string)
    ensures InputChange(InputChange(st, field, a), field, b) == InputChange(st, field, b)
  {
    var once := InputChange(st, field, a);
    var f1 := WithValue(once.form, field, b);
    var f2 := WithValue(st.form, field, b);
    assert forall g :: ValueOf(f1, g) == ValueOf(f2, g);
    match field
    case ItemName =>
    case Quantity =>
    case Price =>
    case Unit =>
    case MinT =>
  }

  /** `handleClose` of both dialogs: an empty form with no errors,
      whatever was there. */
  function Close(st: FormState): (r: FormState)
    ensures forall field :: ValueOf(r.form, field) == "" && field !in r.errors
  {
    Blank
  }

  /** `JSON.stringify` of a parsed integer: `NaN` becomes `null`. */
  function IntJson(n: Option<int>): (v: Json)
    ensures n.Some? ==> v == JNum(FromInt(n.value))
    ensures n.None? ==> v == JNull
  {
    match n
    case Some(k) => JNum(FromInt(k))
    case None => JNull
  }

  /** `JSON.stringify` of a parsed decimal. */
  function DecimalJson(d: Option<Decimal>): (v: Json)
    ensures d.Some? ==> v == JNum(d.value)
    ensures d.None? ==> v == JNull
  {
    match d
    case Some(x) => JNum(x)
    case None => JNull
  }

  /** The request body both dialogs build from the form:
      `parseInt` for quantity and threshold, `parseFloat` for the price, the
      texts as typed. */
  function Body(f: Form): (b: Object)
    ensures b.Keys == {"itemName", "quantity", "price", "unit", "MinT"}
    ensures b["itemName"] == JStr(f.itemName) && b["unit"] == JStr(f.unit)
    ensures b["quantity"] == IntJson(ParseInt(f.quantity))
    ensures b["price"] == DecimalJson(ParseFloat(f.price))
    ensures b["MinT"] == IntJson(ParseInt(f.minT))
  {
    BodyOf(f.itemName, IntJson(ParseInt(f.quantity)), DecimalJson(ParseFloat(f.price)),
           f.unit, IntJson(ParseInt(f.minT)))
  }

  /** The body with its five values already converted. */
  function BodyOf(itemName: string, quantity: Json, price: Json, unit: string, minT: Json): (b: Object)
    ensures b.Keys == {"itemName", "quantity", "price", "unit", "MinT"}
    ensures b["itemName"] == JStr(itemName) && b["unit"] == JStr(unit)
    ensures b["quantity"] == quantity && b["price"] == price && b["MinT"] == minT
  {
    BodyKeysDiffer();
    map["itemName" := JStr(itemName), "quantity" := quantity, "price" := price,
        "unit" := JStr(unit), "MinT" := minT]
  }

  /** The five keys of the body are five different names: each starts with
      its own letter. */
  lemma BodyKeysDiffer()
    ensures "itemName" != "quantity" && "itemName" != "price" && "itemName" != "unit" && "itemName" != "MinT"
    ensures "quantity" != "price" && "quantity" != "unit" && "quantity" != "MinT"
    ensures "price" != "unit" && "price" != "MinT" && "unit" != "MinT"
  {
    assert "itemName"[0] == 'i' && "quantity"[0] == 'q' && "price"[0] == 'p';
    assert "unit"[0] == 'u' && "MinT"[0] == 'M';
  }
}
