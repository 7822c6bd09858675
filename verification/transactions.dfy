/** One recorded income or expense event, and how the entry form turns
    four raw text fields into one. */
module Transactions {
  import opened Wrappers

  /** The two type labels the type box offers. The box is editable and its
      text is stored as typed, so a record may carry any other string. */
  const Income: string := "Income"
  const Expense: string := "Expense"

  /** A ledger record. The amount is an exact number rather than a binary
      float; `kind` is the text of the type box, never checked. */
  datatype Transaction = Transaction(category: string, amount: real, date: string, kind: string)

  /** Why the form refuses to add a record. */
  datatype AddError =
    | MissingField     // category, amount text or date is empty
    | AmountNotNumber  // the amount text is not accepted as a number

  /** The number conversion applied to the amount text: `Some(x)` when the
      text is accepted and denotes `x`, `None` when the conversion fails. */
  type AmountParser = string -> Option<real>

  predicate ParsesAsNumber(parse: AmountParser, s: string) {
    parse(s).Some?
  }

  /** Validates the raw form fields, in the form's order: first that no text
      field is empty, then that the amount converts; only then is a record
      built, carrying the fields verbatim and the converted amount. */
  function MakeTransaction(category: string, amountText: string, date: string, kind: string,
                           parse: AmountParser): (r: Result<Transaction, AddError>)
    ensures r == Failure(MissingField) <==> category == "" || amountText == "" || date == ""
    ensures r == Failure(AmountNotNumber) <==>
              category != "" && amountText != "" && date != "" && !ParsesAsNumber(parse, amountText)
    ensures r.Success? <==>
              category != "" && amountText != "" && date != "" && ParsesAsNumber(parse, amountText)
    ensures r.Success? ==>
              && r.value.category == category && r.value.date == date && r.value.kind == kind
              && parse(amountText) == Some(r.value.amount)
  {
    if category == "" || amountText == "" || date == "" then
      Failure(MissingField)
    else
      match parse(amountText)
      case None => Failure(AmountNotNumber)
      case Some(x) => Success(Transaction(category, x, date, kind))
  }
}
