/** The summary line: income total, expense total and balance, recomputed
    from the whole ledger after every change. */
module Summaries {
  import opened Transactions
  import opened Ledgers

  /** What one record adds to the total of `kind`: its amount when its type
      text is exactly `kind`, nothing otherwise. */
  function Contribution(t: Transaction, kind: string): real {
    if t.kind == kind then t.amount else 0.0
  }

  /** The total of the amounts whose type text is exactly `kind`, summed from
      the first record to the last. */
  function SumOfKind(l: Ledger, kind: string): real
    decreases |l|
  {
    if |l| == 0 then 0.0 else SumOfKind(l[..|l| - 1], kind) + Contribution(l[|l| - 1], kind)
  }

  datatype Totals = Totals(income: real, expenses: real, balance: real)

  /** Income counts the records typed exactly "Income", expenses those typed
      exactly "Expense"; records with any other type count toward neither. */
  function Summarize(l: Ledger): Totals {
    var income := SumOfKind(l, Income);
    var expenses := SumOfKind(l, Expense);
    Totals(income, expenses, income - expenses)
  }

  /** One pass over the ledger totalling the amounts of one type, as each of
      the summary's two generator sums does. */
  method TotalOf(l: Ledger, kind: string) returns (total: real)
    ensures total == SumOfKind(l, kind)
  {
    total := 0.0;
    for i := 0 to |l|
      invariant total == SumOfKind(l[..i], kind)
    {
      assert l[..i + 1][..i] == l[..i];
      if l[i].kind == kind {
        total := total + l[i].amount;
      }
    }
    assert l[..|l|] == l;
  }

  /** The summary as the program computes it: two passes, then the
      difference. */
  method ComputeSummary(l: Ledger) returns (income: real, expenses: real, balance: real)
    ensures Totals(income, expenses, balance) == Summarize(l)
    ensures balance == income - expenses
  {
    income := TotalOf(l, Income);
    expenses := TotalOf(l, Expense);
    balance := income - expenses;
  }

  /** An empty ledger shows zero income, zero expenses and a zero balance. */
  lemma SummaryOfEmpty()
    ensures Summarize([]) == Totals(0.0, 0.0, 0.0)
  {
  }

  /** A type total splits over any division of the ledger into two parts. */
  lemma {:induction false} SumOfKindConcat(a: Ledger, b: Ledger, kind: string)
    ensures SumOfKind(a + b, kind) == SumOfKind(a, kind) + SumOfKind(b, kind)
    decreases |b|
  {
    if |b| > 0 {
      var b' := b[..|b| - 1];
      assert (a + b)[..|a + b| - 1] == a + b';
      SumOfKindConcat(a, b', kind);
    } else {
      assert a + b == a;
    }
  }

  /** The total of one type is the sum of what each record contributes,
      however the ledger is cut: the entry at position `i` adds exactly its
      own contribution. */
  lemma SumOfKindSplitAt(l: Ledger, i: nat, kind: string)
    requires i < |l|
    ensures SumOfKind(l, kind) == SumOfKind(RemoveAt(l, i), kind) + Contribution(l[i], kind)
  {
    assert l == l[..i] + [l[i]] + l[i + 1..];
    SumOfKindConcat(l[..i] + [l[i]], l[i + 1..], kind);
    SumOfKindConcat(l[..i], [l[i]], kind);
    SumOfKindConcat(l[..i], l[i + 1..], kind);
    assert SumOfKind([l[i]], kind) == Contribution(l[i], kind) by {
      assert [l[i]][..0] == [];
    }
  }

  /** Appending a record moves the summary by that record alone: an
      "Income" record of amount a raises income and balance by a, an
      "Expense" record raises expenses by a and lowers the balance by a, and
      a record of any other type changes nothing. */
  lemma SummaryAfterAppend(l: Ledger, t: Transaction)
    ensures var before, after := Summarize(l), Summarize(l + [t]);
            if t.kind == Income then
              after == Totals(before.income + t.amount, before.expenses, before.balance + t.amount)
            else if t.kind == Expense then
              after == Totals(before.income, before.expenses + t.amount, before.balance - t.amount)
            else
              after == before
  {
    assert (l + [t])[..|l|] == l;
  }

  /** Deleting a record moves the summary back by that record alone. */
  lemma SummaryAfterRemove(l: Ledger, i: nat)
    requires i < |l|
    ensures var before, after := Summarize(l), Summarize(RemoveAt(l, i));
            if l[i].kind == Income then
              after == Totals(before.income - l[i].amount, before.expenses, before.balance - l[i].amount)
            else if l[i].kind == Expense then
              after == Totals(before.income, before.expenses - l[i].amount, before.balance + l[i].amount)
            else
              after == before
  {
    SumOfKindSplitAt(l, i, Income);
    SumOfKindSplitAt(l, i, Expense);
  }

  /** Records whose type is neither "Income" nor "Expense" are invisible to
      the summary, wherever they sit in the ledger. */
  lemma SummaryIgnoresOtherTypes(a: Ledger, t: Transaction, b: Ledger)
    requires t.kind != Income && t.kind != Expense
    ensures Summarize(a + [t] + b) == Summarize(a + b)
  {
    forall kind | kind == Income || kind == Expense
      ensures SumOfKind(a + [t] + b, kind) == SumOfKind(a + b, kind)
    {
      SumOfKindConcat(a + [t], b, kind);
      SumOfKindConcat(a, [t], kind);
      SumOfKindConcat(a, b, kind);
      assert [t][..0] == [];
    }
  }
}
