/** The add dialog's submit: validation first, then one create request
    built from the parsed form, and a reset once the request succeeds. */
module AddModal {
  import opened Options
  import opened JsNumber
  import opened Json
  import opened Cache
  import opened StockForm
  import StockApi

  /** What `handleSubmit` leaves behind: the request it sent, the form
      state, and whether it asked for the dialog to close. */
  datatype Submitted = Submitted(request: Option<Request>, state: FormState, closes: bool)

  /** `handleSubmit`. An invalid form only shows its errors. A valid one is
      sent; when the create succeeds the form is emptied and the dialog
      closes, and when it fails the form stays as it was. */
  function Submit(st: FormState, outcome: Outcome): (r: Submitted)
    ensures !Valid(st.form) ==> r.request.None? && r.state == FormState(st.form, Validate(st.form)) && !r.closes
    ensures Valid(st.form) ==> r.request == Some(StockApi.CreateRequest(Body(st.form)))
    ensures Valid(st.form) && outcome == Fulfilled ==> r.state == Blank && r.closes
    ensures Valid(st.form) && outcome == Rejected ==> r.state == FormState(st.form, map[]) && !r.closes
  {
    var errors := Validate(st.form);
    if errors != map[] then Submitted(None, FormState(st.form, errors), false)
    else
      var request := StockApi.CreateRequest(Body(st.form));
      if outcome == Fulfilled then Submitted(Some(request), Blank, true)
      else Submitted(Some(request), FormState(st.form, errors), false)
  }

  /** A successful submit leaves the same form state as closing the dialog. */
  lemma SuccessIsClose(st: FormState)
    requires Valid(st.form)
    ensures Submit(st, Fulfilled).state == Close(st)
  {
  }

  /** A request is sent exactly when every rule passes, whatever the server
      answers. */
  lemma SendsIffValid(st: FormState, outcome: Outcome)
    ensures Submit(st, outcome).request.Some? <==> forall field :: !Fails(st.form, field)
  {
  }

  /** For whole-number texts the request carries the numbers typed, and a
      valid form then sends a positive quantity and a non-negative
      threshold. */
  lemma WholeNumbersSent(st: FormState, quantity: int, minT: int)
    requires st.form.quantity == IntToString(quantity) && st.form.minT == IntToString(minT)
    requires Valid(st.form)
    ensures var body := Submit(st, Fulfilled).request.value.body;
      body["quantity"] == JNum(FromInt(quantity)) && body["MinT"] == JNum(FromInt(minT))
    ensures quantity > 0 && minT >= 0
  {
    ParseIntOfIntToString(quantity);
    ParseIntOfIntToString(minT);
    QuantityRuleOnNumber(st.form, quantity);
    MinTRuleOnNumber(st.form, minT);
    var body := Body(st.form);
    assert Submit(st, Fulfilled).request == Some(StockApi.CreateRequest(body));
  }
}
