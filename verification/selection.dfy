/** What the list widget shows, and how a selected row reaches the ledger.
    A screen pairs the ledger with the ledger positions of the rows on
    display, top to bottom. */
module Selection {
  import opened Wrappers
  import opened Transactions
  import opened Ledgers
  import opened Filtering

  datatype Screen = Screen(ledger: Ledger, rows: seq<nat>)

  /** Every row on display shows some record of the ledger. */
  predicate Valid(s: Screen) {
    forall k :: 0 <= k < |s.rows| ==> s.rows[k] < |s.ledger|
  }

  /** The records on display, top to bottom. */
  function Shown(s: Screen): (r: seq<Transaction>)
    requires Valid(s)
    ensures |r| == |s.rows|
    ensures forall k :: 0 <= k < |r| ==> r[k] == s.ledger[s.rows[k]]
  {
    seq(|s.rows|, k requires 0 <= k < |s.rows| => s.ledger[s.rows[k]])
  }

  /** The list redrawn from the whole ledger, as after every add and delete. */
  function FullView(l: Ledger): (s: Screen)
    ensures Valid(s) && s.ledger == l
    ensures Shown(s) == l
  {
    Screen(l, seq(|l|, j => j))
  }

  /** The list redrawn by the filter box: the matching records, or the
      whole ledger when the selection is empty. */
  function FilteredView(l: Ledger, selected: string): (s: Screen)
    ensures Valid(s) && s.ledger == l
    ensures Shown(s) == FilterTransactions(l, selected)
  {
    if selected == "" then FullView(l)
    else
      PositionsRead(l, selected);
      Screen(l, Positions(l, selected))
  }

  /** The delete button as written: the selected row's number in the list
      is used as a position in the ledger. */
  function DeleteRowAsWritten(s: Screen, selected: Option<nat>): (r: Step<DeleteError>)
    requires Valid(s)
    requires selected.Some? ==> selected.value < |s.rows|
    ensures selected.None? ==> r == Step(s.ledger, Some(NothingSelected))
    ensures selected.Some? && selected.value >= |s.ledger| ==> r == Step(s.ledger, Some(IndexOutOfRange))
    ensures selected.Some? && selected.value < |s.ledger| ==>
              r.error.None? && r.ledger == RemoveAt(s.ledger, selected.value)
  {
    DeleteTransaction(s.ledger, selected)
  }

  /** The delete button as intended: the selected row is mapped to the
      ledger position of the record it shows, and exactly that record goes. */
  function DeleteRow(s: Screen, selected: Option<nat>): (r: Step<DeleteError>)
    requires Valid(s)
    requires selected.Some? ==> selected.value < |s.rows|
    ensures selected.None? ==> r == Step(s.ledger, Some(NothingSelected))
    ensures selected.Some? ==>
              && r.error.None?
              && r.ledger == RemoveAt(s.ledger, s.rows[selected.value])
              && multiset(r.ledger) + multiset{Shown(s)[selected.value]} == multiset(s.ledger)
  {
    match selected
    case None => Step(s.ledger, Some(NothingSelected))
    case Some(k) => DeleteTransaction(s.ledger, Some(s.rows[k]))
  }

  /** While the whole ledger is on display, row numbers are ledger
      positions, and the delete as written does what was intended. */
  lemma DeleteAgreesOnFullView(l: Ledger, selected: Option<nat>)
    requires selected.Some? ==> selected.value < |l|
    ensures DeleteRowAsWritten(FullView(l), selected) == DeleteRow(FullView(l), selected)
  {
  }

  /** After filtering a two-record ledger on its second record's category,
      that record is the only row. Deleting it as written removes the other,
      hidden record instead; the intended delete removes the one shown. */
  lemma DeleteAfterFilterRemovesHiddenRecord()
    ensures var food := Transaction("Food", 12.0, "2024-01-02", Expense);
            var rent := Transaction("Rent", 500.0, "2024-01-01", Expense);
            var s := FilteredView([food, rent], "Rent");
            && Shown(s) == [rent]
            && DeleteRowAsWritten(s, Some(0)).ledger == [rent]
            && DeleteRow(s, Some(0)).ledger == [food]
  {
    var food := Transaction("Food", 12.0, "2024-01-02", Expense);
    var rent := Transaction("Rent", 500.0, "2024-01-01", Expense);
    var l := [food, rent];
    assert "Food" != "Rent" by {
      assert "Food"[0] != "Rent"[0];
    }
    assert l[..1] == [food];
    assert [food][..0] == [];
    assert Positions([food], "Rent") == [];
    assert Positions(l, "Rent") == [1];
  }

  /** The add button on screen: a refused add changes nothing, not even the
      list on display; an accepted one redraws the whole ledger. */
  function OnAdd(s: Screen, category: string, amountText: string, date: string, kind: string,
                 parse: AmountParser): (r: Screen)
    requires Valid(s)
    ensures Valid(r)
    ensures AddTransaction(s.ledger, category, amountText, date, kind, parse).error.Some? ==> r == s
    ensures AddTransaction(s.ledger, category, amountText, date, kind, parse).error.None? ==>
              && Shown(r) == r.ledger && |r.ledger| == |s.ledger| + 1 && r.ledger[..|s.ledger|] == s.ledger
              && r.ledger[|s.ledger|] == Transaction(category, parse(amountText).value, date, kind)
  {
    var step := AddTransaction(s.ledger, category, amountText, date, kind, parse);
    if step.error.Some? then s else FullView(step.ledger)
  }

  /** The delete button on screen, with the intended row mapping: without
      a selection nothing changes; otherwise the record shown in the
      selected row leaves the ledger and the whole ledger is redrawn. */
  function OnDelete(s: Screen, selected: Option<nat>): (r: Screen)
    requires Valid(s)
    requires selected.Some? ==> selected.value < |s.rows|
    ensures Valid(r)
    ensures selected.None? ==> r == s
    ensures selected.Some? ==>
              && Shown(r) == r.ledger
              && r.ledger == RemoveAt(s.ledger, s.rows[selected.value])
              && multiset(r.ledger) + multiset{Shown(s)[selected.value]} == multiset(s.ledger)
  {
    var step := DeleteRow(s, selected);
    if step.error.Some? then s else FullView(step.ledger)
  }

  /** The delete button on screen as written: the row number is taken as a
      ledger position; on success the whole ledger is redrawn. */
  function OnDeleteAsWritten(s: Screen, selected: Option<nat>): (r: Screen)
    requires Valid(s)
    requires selected.Some? ==> selected.value < |s.rows|
    ensures Valid(r)
    ensures selected.None? ==> r == s
    ensures selected.Some? && selected.value >= |s.ledger| ==> r == s
    ensures selected.Some? && selected.value < |s.ledger| ==>
              Shown(r) == r.ledger && r.ledger == RemoveAt(s.ledger, selected.value)
  {
    var step := DeleteRowAsWritten(s, selected);
    if step.error.Some? then s else FullView(step.ledger)
  }

  /** The filter box on screen: the ledger is untouched, only the list
      changes. */
  function OnFilter(s: Screen, selected: string): (r: Screen)
    ensures Valid(r) && r.ledger == s.ledger
    ensures Shown(r) == FilterTransactions(s.ledger, selected)
  {
    FilteredView(s.ledger, selected)
  }
}
