/** The replenish dialog: a pending list of (record, quantity to add)
    entries that the user builds one selection at a time and then commits as
    one add-quantity request per entry. */
module ReplenishModal {
  import opened Options
  import opened JsNumber
  import opened Json
  import opened Cache
  import opened StockTypes
  import StockApi
  import Inventory
  import Lists

  /** The dialog's own state: the chosen record, the quantity text, whether
      the item dropdown is open, and the pending list. */
  datatype State = State(selected: Option<Stock>, amountText: string, dropdownOpen: bool, entries: seq<Entry>)

  const Initial := State(None, "", false, [])

  function EntryId(e: Entry): string {
    e.item.id
  }

  /** `handleItemSelect` */
  function Select(st: State, item: Stock): (r: State)
    ensures r.selected == Some(item) && r.amountText == "" && !r.dropdownOpen
    ensures r.entries == st.entries
  {
    st.(selected := Some(item), dropdownOpen := false, amountText := "")
  }

  /** Typing into the quantity field. */
  function SetAmount(st: State, text: string): (r: State)
    ensures r.amountText == text && r.selected == st.selected && r.entries == st.entries
    ensures r.dropdownOpen == st.dropdownOpen
  {
    st.(amountText := text)
  }

  /** The early return of `handleAddToList`: nothing selected, an empty
      quantity, or a quantity that is a number no greater than zero. Text
      that is not a number at all (`NaN`) is not caught here. */
  predicate Refused(st: State) {
    || st.selected.None?
    || st.amountText == ""
    || (ToNumber(st.amountText).Some? && ToNumber(st.amountText).value.units <= 0)
  }

  /** `Number(quantityToAdd)` when it is a whole number. */
  function WholeAmount(text: string): (r: Option<int>)
    ensures r.Some? ==> ToNumber(text).Some? && r.value as real == ToNumber(text).value.Value()
  {
    match ToNumber(text)
    case None => None
    case Some(d) =>
      var n := Normalize(d);
      if n.scale == 0 then Some(n.units) else None
  }

  /** `handleAddToList`. An accepted whole amount overwrites the quantity of
      the entry that already has the record's id (keeping that entry's
      record), or is appended as a new entry; selection and text are then
      cleared. */
  function AddToList(st: State): (r: State)
    ensures Refused(st) ==> r == st
    ensures !Refused(st) && WholeAmount(st.amountText).Some? ==>
      var item := st.selected.value;
      var n := WholeAmount(st.amountText).value;
      && n > 0
      && r.selected.None? && r.amountText == "" && r.dropdownOpen == st.dropdownOpen
      && ((exists i :: 0 <= i < |st.entries| && st.entries[i].item.id == item.id) ==>
           && |r.entries| == |st.entries|
           && forall i :: 0 <= i < |st.entries| ==>
                r.entries[i] == if i == Lists.FindIndex(st.entries, (e: Entry) => e.item.id == item.id)
                                then st.entries[i].(quantity := n) else st.entries[i])
      && ((forall i :: 0 <= i < |st.entries| ==> st.entries[i].item.id != item.id) ==>
           r.entries == st.entries + [Entry(item, n)])
  {
    if Refused(st) then st
    else
      match WholeAmount(st.amountText)
      case None => st
      case Some(n) =>
        var item := st.selected.value;
        AcceptedAmountPositive(st);
        var k := Lists.FindIndex(st.entries, (e: Entry) => e.item.id == item.id);
        var entries := if k == -1 then st.entries + [Entry(item, n)] else st.entries[k := st.entries[k].(quantity := n)];
        st.(entries := entries, selected := None, amountText := "")
  }

  /** Adding the same record twice leaves one entry carrying the second
      amount: amounts are replaced, never summed. */
  lemma AddTwiceKeepsLast(st: State, item: Stock, first: int, second: int)
    requires first > 0 && second > 0
    requires forall i :: 0 <= i < |st.entries| ==> st.entries[i].item.id != item.id
    ensures var once := AddToList(SetAmount(Select(st, item), IntToString(first)));
      var twice := AddToList(SetAmount(Select(once, item), IntToString(second)));
      twice.entries == st.entries + [Entry(item, second)]
  {
    var s1 := SetAmount(Select(st, item), IntToString(first));
    TypedWhole(st, item, first);
    AddNew(s1, item, first);
    AddSecond(st, AddToList(s1), item, first, second);
  }

  /** The second addition for a record that the first one appended last. */
  lemma AddSecond(st: State, once: State, item: Stock, first: int, second: int)
    requires second > 0
    requires forall i :: 0 <= i < |st.entries| ==> st.entries[i].item.id != item.id
    requires once.entries == st.entries + [Entry(item, first)]
    ensures AddToList(SetAmount(Select(once, item), IntToString(second))).entries == st.entries + [Entry(item, second)]
  {
    var s2 := SetAmount(Select(once, item), IntToString(second));
    TypedWhole(once, item, second);
    var k := |st.entries|;
    assert s2.entries[k].item.id == item.id;
    AddAgain(s2, item, second, k);
    assert s2.entries[k := s2.entries[k].(quantity := second)] == st.entries + [Entry(item, second)];
  }

  /** Choosing a record and typing a positive whole number gives a state
      that adds that number for that record. */
  lemma TypedWhole(st: State, item: Stock, n: int)
    requires n > 0
    ensures var s := SetAmount(Select(st, item), IntToString(n));
      && !Refused(s) && WholeAmount(s.amountText) == Some(n)
      && s.selected == Some(item) && s.entries == st.entries
  {
    ToNumberOfIntToString(n);
    assert Normalize(Decimal(n, 0)) == Decimal(n, 0);
  }

  /** An accepted amount for a record not yet in the list is appended. */
  lemma AddNew(st: State, item: Stock, n: int)
    requires !Refused(st) && st.selected == Some(item) && WholeAmount(st.amountText) == Some(n)
    requires forall i :: 0 <= i < |st.entries| ==> st.entries[i].item.id != item.id
    ensures AddToList(st).entries == st.entries + [Entry(item, n)]
  {
  }

  /** An accepted amount for a record already in the list, first at `k`,
      replaces that entry's amount. */
  lemma AddAgain(st: State, item: Stock, n: int, k: nat)
    requires !Refused(st) && st.selected == Some(item) && WholeAmount(st.amountText) == Some(n)
    requires k < |st.entries| && st.entries[k].item.id == item.id
    requires forall j :: 0 <= j < k ==> st.entries[j].item.id != item.id
    ensures AddToList(st).entries == st.entries[k := st.entries[k].(quantity := n)]
  {
    var p := (e: Entry) => e.item.id == item.id;
    assert p(st.entries[k]);
    assert Lists.FindIndex(st.entries, p) == k;
  }

  /** `handleRemoveFromList`: every entry with the id goes, the others stay
      in order. */
  function RemoveFromList(st: State, id: string): (r: State)
    ensures forall e :: e in r.entries <==> e in st.entries && e.item.id != id
    ensures r.entries == Lists.Filter(st.entries, (e: Entry) => e.item.id != id)
    ensures r.selected == st.selected && r.amountText == st.amountText && r.dropdownOpen == st.dropdownOpen
  {
    var keep := (e: Entry) => e.item.id != id;
    forall e ensures e in Lists.Filter(st.entries, keep) <==> e in st.entries && keep(e) {
      Lists.FilterMembership(st.entries, keep, e);
    }
    st.(entries := Lists.Filter(st.entries, keep))
  }

  /** The add-quantity request for one entry: the record's quantity at the
      time it was chosen plus the pending amount. */
  function QuantityRequest(e: Entry): (r: Request)
    ensures r.verb == PUT && r.url == "webhook/add-quantity"
    ensures r.body == map["id" := JStr(e.item.id), "quantity" := JNum(FromInt(e.item.quantity + e.quantity))]
  {
    StockApi.AddQuantityRequest(e.item.id, map["quantity" := JNum(FromInt(e.item.quantity + e.quantity))])
  }

  /** What `handleUpdateStock` does: the requests it awaits, in order; the
      list handed to `onReplenish`; the dialog state after it; and whether
      it asks the page to close the dialog. */
  datatype Commit = Commit(requests: seq<Request>, replenished: Option<seq<Entry>>, state: State, closes: bool)

  /** `handleUpdateStock`. An empty list does nothing. Otherwise one
      request per entry, in list order, then the list goes to the page and
      the dialog is cleared and closed. The requests are awaited without
      `unwrap`, so a failed one does not stop the rest. */
  method CommitList(st: State) returns (c: Commit)
    ensures st.entries == [] ==> c == Commit([], None, st, false)
    ensures st.entries != [] ==>
      && |c.requests| == |st.entries|
      && (forall i :: 0 <= i < |st.entries| ==>
           && c.requests[i] == QuantityRequest(st.entries[i])
           && c.requests[i].verb == PUT && c.requests[i].url == "webhook/add-quantity"
           && c.requests[i].body.Keys == {"id", "quantity"}
           && c.requests[i].body["id"] == JStr(st.entries[i].item.id)
           && c.requests[i].body["quantity"] == JNum(FromInt(st.entries[i].item.quantity + st.entries[i].quantity)))
      && c.replenished == Some(st.entries)
      && c.state == State(None, "", st.dropdownOpen, []) && c.closes
  {
    if st.entries == [] {
      return Commit([], None, st, false);
    }
    var requests: seq<Request> := [];
    var i := 0;
    while i < |st.entries|
      invariant 0 <= i <= |st.entries|
      invariant |requests| == i
      invariant forall j :: 0 <= j < i ==> requests[j] == QuantityRequest(st.entries[j])
    {
      requests := requests + [QuantityRequest(st.entries[i])];
      i := i + 1;
    }
    c := Commit(requests, Some(st.entries), State(None, "", st.dropdownOpen, []), true);
  }

  /** The quantity each request sends is the quantity the page then shows
      for that record, as long as the page still holds the record as it was
      when it was chosen and the list has one entry per id. */
  lemma RequestMatchesPage(inventory: seq<Stock>, entries: seq<Entry>, i: int, j: int)
    requires Lists.Distinct(entries, EntryId)
    requires 0 <= i < |inventory| && 0 <= j < |entries|
    requires inventory[i] == entries[j].item
    ensures QuantityRequest(entries[j]).body["quantity"] == JNum(FromInt(Inventory.Replenish(inventory, entries)[i].quantity))
  {
    forall k | 0 <= k < j ensures entries[k].item.id != inventory[i].id {
      assert EntryId(entries[k]) != EntryId(entries[j]);
    }
    assert Inventory.FirstEntryAt(entries, inventory[i].id, j);
    Inventory.ReplenishQuantities(inventory, entries, i);
  }

  /** `handleClose`: everything is cleared, whatever the state was. */
  function Close(st: State): (r: State)
    ensures r.entries == [] && r.selected.None? && r.amountText == "" && !r.dropdownOpen
  {
    Initial
  }

  // --------------------------------------------------- runs of the dialog

  datatype Action =
    | ToggleDropdown | SelectItem(item: Stock) | TypeAmount(text: string) | Add | Remove(id: string) | CloseDialog

  /** One user action in the dialog. Only adding, removing and closing
      touch the pending list; closing clears everything. */
  function Step(st: State, a: Action): (r: State)
    ensures a.ToggleDropdown? || a.SelectItem? || a.TypeAmount? ==> r.entries == st.entries
    ensures a.ToggleDropdown? ==> r.dropdownOpen != st.dropdownOpen && r.selected == st.selected
    ensures a.CloseDialog? ==> r == Initial
  {
    match a
    case ToggleDropdown => st.(dropdownOpen := !st.dropdownOpen)
    case SelectItem(item) => Select(st, item)
    case TypeAmount(text) => SetAmount(st, text)
    case Add => AddToList(st)
    case Remove(id) => RemoveFromList(st, id)
    case CloseDialog => Close(st)
  }

  /** A sequence of user actions. Ending with a close leaves the dialog as
      it first opened; actions that never add leave no entry behind an
      empty list. */
  function Run(st: State, actions: seq<Action>): (r: State)
    ensures actions != [] && actions[|actions| - 1].CloseDialog? ==> r == Initial
    ensures (forall i :: 0 <= i < |actions| ==> !actions[i].Add?) && st.entries == [] ==> r.entries == []
    decreases |actions|
  {
    if actions == [] then st else Run(Step(st, actions[0]), actions[1..])
  }

  /** The pending list has one entry per id, and every pending amount is
      positive. */
  predicate WellFormed(st: State) {
    && Lists.Distinct(st.entries, EntryId)
    && forall i :: 0 <= i < |st.entries| ==> st.entries[i].quantity > 0
  }

  lemma AddKeepsWellFormed(st: State)
    requires WellFormed(st)
    ensures WellFormed(AddToList(st))
  {
    if !Refused(st) && WholeAmount(st.amountText).Some? {
      var item := st.selected.value;
      var n := WholeAmount(st.amountText).value;
      AcceptedAmountPositive(st);
      var k := Lists.FindIndex(st.entries, (e: Entry) => e.item.id == item.id);
      if k == -1 {
        AddNew(st, item, n);
        AppendKeepsWellFormed(st, AddToList(st), Entry(item, n));
      } else {
        AddAgain(st, item, n, k);
        ReplaceKeepsWellFormed(st, AddToList(st), k, n);
      }
    }
  }

  /** An amount that passes the early return and is whole is positive. */
  lemma AcceptedAmountPositive(st: State)
    requires !Refused(st) && WholeAmount(st.amountText).Some?
    ensures WholeAmount(st.amountText).value > 0
  {
    var d := ToNumber(st.amountText).value;
    SignOfValue(d);
    SignOfValue(Normalize(d));
  }

  /** Appending a positive entry for a new id keeps the list well formed. */
  lemma AppendKeepsWellFormed(st: State, r: State, e: Entry)
    requires WellFormed(st) && e.quantity > 0
    requires forall i :: 0 <= i < |st.entries| ==> st.entries[i].item.id != e.item.id
    requires r.entries == st.entries + [e]
    ensures WellFormed(r)
  {
    forall i, j | 0 <= i < j < |r.entries| ensures EntryId(r.entries[i]) != EntryId(r.entries[j]) {
      if j == |st.entries| {
        assert EntryId(r.entries[i]) == st.entries[i].item.id;
      } else {
        assert EntryId(st.entries[i]) != EntryId(st.entries[j]);
      }
    }
  }

  /** Replacing the amount at `k` by a positive one keeps the list well formed. */
  lemma ReplaceKeepsWellFormed(st: State, r: State, k: int, n: int)
    requires WellFormed(st) && n > 0 && 0 <= k < |st.entries|
    requires r.entries == st.entries[k := st.entries[k].(quantity := n)]
    ensures WellFormed(r)
  {
    forall i, j | 0 <= i < j < |r.entries| ensures EntryId(r.entries[i]) != EntryId(r.entries[j]) {
      assert EntryId(st.entries[i]) != EntryId(st.entries[j]);
    }
  }

  lemma StepKeepsWellFormed(st: State, a: Action)
    requires WellFormed(st)
    ensures WellFormed(Step(st, a))
  {
    match a
    case Add => AddKeepsWellFormed(st);
    case Remove(id) =>
      var keep := (e: Entry) => e.item.id != id;
      Lists.FilterDistinct(st.entries, keep, EntryId);
      var r := RemoveFromList(st, id);
      forall i | 0 <= i < |r.entries| ensures r.entries[i].quantity > 0 {
        assert r.entries[i] in st.entries;
      }
    case _ =>
  }

  /** Whatever the user does in the dialog, the pending list never holds two
      entries for one id and never holds a non-positive amount. */
  lemma {:induction false} RunKeepsWellFormed(st: State, actions: seq<Action>)
    requires WellFormed(st)
    ensures WellFormed(Run(st, actions))
    decreases |actions|
  {
    if actions != [] {
      StepKeepsWellFormed(st, actions[0]);
      RunKeepsWellFormed(Step(st, actions[0]), actions[1..]);
    }
  }
}
