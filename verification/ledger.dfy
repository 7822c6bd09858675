/** The ledger: the ordered, in-memory list of records, changed only by
    appending a validated record and by deleting the record at a position. */
module Ledgers {
  import opened Wrappers
  import opened Transactions

  /** Insertion order is display order. */
  type Ledger = seq<Transaction>

  /** The ledger after an operation, and the error that stopped it, if any. */
  datatype Step<+E> = Step(ledger: Ledger, error: Option<E>)

  /** Why a delete does nothing. */
  datatype DeleteError =
    | NothingSelected  // no row is selected
    | IndexOutOfRange  // the position is past the end of the ledger

  /** The add button: validate the form, then append. A refused add leaves
      the ledger exactly as it was; an accepted one appends exactly one
      record at the end and keeps every earlier record in place. */
  function AddTransaction(l: Ledger, category: string, amountText: string, date: string, kind: string,
                          parse: AmountParser): (r: Step<AddError>)
    ensures r.error.Some? ==> r.ledger == l
    ensures r.error == Some(MissingField) <==> category == "" || amountText == "" || date == ""
    ensures r.error == Some(AmountNotNumber) <==>
              category != "" && amountText != "" && date != "" && !ParsesAsNumber(parse, amountText)
    ensures r.error.None? ==>
              && ParsesAsNumber(parse, amountText)
              && |r.ledger| == |l| + 1
              && r.ledger[..|l|] == l
              && r.ledger[|l|] == Transaction(category, parse(amountText).value, date, kind)
  {
    match MakeTransaction(category, amountText, date, kind, parse)
    case Failure(e) => Step(l, Some(e))
    case Success(t) => Step(l + [t], None)
  }

  /** Removing the record at position `i`: the records before it keep their
      positions, the records after it move down by one. */
  function RemoveAt(l: Ledger, i: nat): (r: Ledger)
    requires i < |l|
    ensures |r| == |l| - 1
    ensures forall j :: 0 <= j < i ==> r[j] == l[j]
    ensures forall j :: i <= j < |r| ==> r[j] == l[j + 1]
  {
    l[..i] + l[i + 1..]
  }

  /** A ledger is its part before `i`, the record at `i`, and its part
      after `i`; removing `i` joins the two parts. */
  lemma SplitAt(l: Ledger, i: nat)
    requires i < |l|
    ensures l == l[..i] + [l[i]] + l[i + 1..]
    ensures RemoveAt(l, i) == l[..i] + l[i + 1..]
    ensures l[..i + 1] == l[..i] + [l[i]]
  {
  }

  /** Putting `t` back at position `i`; the inverse of `RemoveAt`. */
  function InsertAt(l: Ledger, i: nat, t: Transaction): (r: Ledger)
    requires i <= |l|
    ensures |r| == |l| + 1 && r[i] == t
    ensures forall j :: 0 <= j < i ==> r[j] == l[j]
    ensures forall j :: i < j < |r| ==> r[j] == l[j - 1]
  {
    l[..i] + [t] + l[i..]
  }

  /** The delete button, given the ledger position of the selected row, or
      `None` when no row is selected. Without a selection, or with a position
      past the end, the ledger is unchanged. */
  function DeleteTransaction(l: Ledger, selected: Option<nat>): (r: Step<DeleteError>)
    ensures selected.None? ==> r == Step(l, Some(NothingSelected))
    ensures selected.Some? && selected.value >= |l| ==> r == Step(l, Some(IndexOutOfRange))
    ensures selected.Some? && selected.value < |l| ==>
              && r.error.None?
              && r.ledger == RemoveAt(l, selected.value)
              && multiset(r.ledger) + multiset{l[selected.value]} == multiset(l)
  {
    match selected
    case None => Step(l, Some(NothingSelected))
    case Some(i) =>
      if i < |l| then
        assert l == l[..i] + [l[i]] + l[i + 1..];
        Step(RemoveAt(l, i), None)
      else
        Step(l, Some(IndexOutOfRange))
  }

  /** Removing an entry and putting it back where it was restores the ledger. */
  lemma RemoveThenInsert(l: Ledger, i: nat)
    requires i < |l|
    ensures InsertAt(RemoveAt(l, i), i, l[i]) == l
  {
  }

  /** Inserting an entry and removing it again restores the ledger. */
  lemma InsertThenRemove(l: Ledger, i: nat, t: Transaction)
    requires i <= |l|
    ensures RemoveAt(InsertAt(l, i, t), i) == l
  {
  }

  /** Deleting the last position right after an accepted add undoes the add. */
  lemma DeleteUndoesAdd(l: Ledger, category: string, amountText: string, date: string, kind: string,
                        parse: AmountParser)
    requires AddTransaction(l, category, amountText, date, kind, parse).error.None?
    ensures DeleteTransaction(AddTransaction(l, category, amountText, date, kind, parse).ledger, Some(|l|))
            == Step(l, None)
  {
    var after := AddTransaction(l, category, amountText, date, kind, parse).ledger;
    assert RemoveAt(after, |l|) == after[..|l|];
  }

  /** The four text fields of one press of the add button. */
  datatype FormInput = FormInput(category: string, amountText: string, date: string, kind: string)

  /** The ledger after pressing the add button once per input, in order,
      refused presses included. */
  function AddAll(l: Ledger, inputs: seq<FormInput>, parse: AmountParser): Ledger
    decreases |inputs|
  {
    if |inputs| == 0 then l
    else
      var f := inputs[0];
      AddAll(AddTransaction(l, f.category, f.amountText, f.date, f.kind, parse).ledger, inputs[1..], parse)
  }

  /** The records the accepted presses produce, in press order: an
      independent description of what a run of adds appends. */
  function Accepted(inputs: seq<FormInput>, parse: AmountParser): (r: seq<Transaction>)
    ensures |r| <= |inputs|
    decreases |inputs|
  {
    if |inputs| == 0 then []
    else
      var f := inputs[0];
      var rest := Accepted(inputs[1..], parse);
      match MakeTransaction(f.category, f.amountText, f.date, f.kind, parse)
      case Success(t) => [t] + rest
      case Failure(_) => rest
  }

  /** A run of adds appends exactly the accepted records, in press order,
      and never disturbs what was already there. */
  lemma {:induction false} AddAllAppendsAccepted(l: Ledger, inputs: seq<FormInput>, parse: AmountParser)
    ensures AddAll(l, inputs, parse) == l + Accepted(inputs, parse)
    decreases |inputs|
  {
    if |inputs| > 0 {
      var f := inputs[0];
      var step := AddTransaction(l, f.category, f.amountText, f.date, f.kind, parse);
      AddAllAppendsAccepted(step.ledger, inputs[1..], parse);
      match MakeTransaction(f.category, f.amountText, f.date, f.kind, parse)
      case Success(t) =>
        assert step.ledger == l + [t];
        assert l + [t] + Accepted(inputs[1..], parse) == l + ([t] + Accepted(inputs[1..], parse));
      case Failure(_) =>
        assert step.ledger == l;
    }
  }

  /** When every press is valid, the ledger grows by exactly one record per
      press. */
  lemma {:induction false} AllValidAddsCount(inputs: seq<FormInput>, parse: AmountParser)
    requires forall k :: 0 <= k < |inputs| ==>
               MakeTransaction(inputs[k].category, inputs[k].amountText, inputs[k].date, inputs[k].kind, parse).Success?
    ensures |Accepted(inputs, parse)| == |inputs|
    decreases |inputs|
  {
    if |inputs| > 0 {
      assert MakeTransaction(inputs[0].category, inputs[0].amountText, inputs[0].date, inputs[0].kind, parse).Success?;
      forall k | 0 <= k < |inputs[1..]|
        ensures MakeTransaction(inputs[1..][k].category, inputs[1..][k].amountText, inputs[1..][k].date,
                                inputs[1..][k].kind, parse).Success?
      {
        assert inputs[1..][k] == inputs[k + 1];
      }
      AllValidAddsCount(inputs[1..], parse);
    }
  }
}
