# Personal finance tracker: the transaction ledger

A Dafny model of the data logic of the desktop finance tracker in
`Task_4/Finance_tracker.py`. The application keeps an in-memory list of
transactions (category, amount, date, type). Its five operations on that
list are modelled as pure functions over `seq<Transaction>`:

- **add**: check that the form's fields are filled in, convert the amount, and append a record;
- **delete**: remove the record at the selected position;
- **summary**: income total, expense total and balance;
- **categories**: the distinct categories, offered as options in the filter box;
- **filter**: the records whose category equals the one selected, in ledger order.

A small screen model sits on top. It holds the ledger and the rows the list
widget shows. It ties the button and selection handlers together and exposes a
defect in how a selected row reaches the ledger (see "## Findings").

Modules, one per concern:

- `Wrappers` (`wrappers.dfy`): `Option` and `Result`.
- `Transactions` (`transactions.dfy`): the record, the two type labels, and form validation.
- `Ledgers` (`ledger.dfy`): the ledger, add and delete, and runs of adds.
- `Summaries` (`summary.dfy`): the summary totals.
- `CategorySet` (`categories.dfy`): the filter options.
- `Filtering` (`filter.dfy`): the category filter and the positions of its matches.
- `Selection` (`selection.dfy`): the screen, row selection, and the three handlers.
- `Scenarios` (`scenarios.dfy`): worked examples over concrete records.

Modelling decisions:

- Amounts are exact `real` numbers, not binary floats, so sums and the balance are exact.
- The program converts the amount text with Python's `float`. Here that conversion is a parameter `parse: string -> Option<real>` (`AmountParser`). `None` means the text is refused.
- The type is a plain string. The type box is editable, its text is stored as typed, and nothing checks it against "Income" and "Expense". A record with any other type counts toward neither total.
- Delete takes the ledger position of the selected row, or `None` when nothing is selected. A position past the end makes Python's list deletion raise before the list changes. It is modelled as the error `IndexOutOfRange` with the ledger unchanged.

Behaviour of the code worth stating explicitly:

- **Filter.** For a non-empty category that no record carries, the code shows an empty list. It does not fall back to the whole ledger. Only an empty selection shows everything.
- **Type.** The type is free text, not a two-value enumeration.
- **Delete.** The code returns nothing from a delete. The removed record is `l[i]`, and the contracts state that exactly it leaves the ledger.
- **Categories.** The code produces a list built from a hash set. The model gives both the set (`Categories`) and a duplicate-free list in unspecified order (`CategoryList`).

## Model

| member | source | states |
|---|---|---|
| Transactions.MakeTransaction | Task_4/Finance_tracker.py:76-98 | an empty category, amount text or date gives the missing-field error, and this check comes first; an amount the conversion refuses gives the not-a-number error; otherwise the record carries the three text fields verbatim and the converted amount |
| Ledgers.AddTransaction | Task_4/Finance_tracker.py:74-98 | a refused add leaves the ledger exactly unchanged and names the right error in both directions; an accepted add grows the ledger by one, keeps every earlier record in place and puts the new record last |
| Ledgers.RemoveAt | Task_4/Finance_tracker.py:117-118 | removing position i shortens the ledger by one; records before i keep their positions and records after i move down by one |
| Ledgers.DeleteTransaction | Task_4/Finance_tracker.py:110-118 | no selection leaves the ledger unchanged with a nothing-selected error; a position past the end leaves it unchanged with an out-of-range error; otherwise exactly the record at that position leaves the ledger (multiset difference) |
| Ledgers.RemoveThenInsert | Task_4/Finance_tracker.py:117-118 | putting the removed record back at its position restores the ledger |
| Ledgers.InsertThenRemove | Task_4/Finance_tracker.py:117-118 | removing a record just inserted at a position restores the ledger |
| Ledgers.DeleteUndoesAdd | Task_4/Finance_tracker.py:93-118 | deleting the last position right after an accepted add gives back the ledger from before the add |
| Ledgers.AddAllAppendsAccepted | Task_4/Finance_tracker.py:74-98 | any run of add presses appends exactly the records of the accepted presses, in press order, after the untouched old ledger |
| Ledgers.AllValidAddsCount | Task_4/Finance_tracker.py:93-98 | when every press is valid, the number of records appended equals the number of presses |
| Summaries.TotalOf | Task_4/Finance_tracker.py:143-144 | the one-pass loop totals exactly the amounts whose type equals the given label |
| Summaries.ComputeSummary | Task_4/Finance_tracker.py:142-145 | the two passes and the difference give the reference totals: income over type "Income", expenses over type "Expense", balance equal to income minus expenses |
| Summaries.SummaryOfEmpty | Task_4/Finance_tracker.py:143-145 | an empty ledger gives income, expenses and balance all zero |
| Summaries.SumOfKindConcat | Task_4/Finance_tracker.py:143-144 | a type total over two ledger parts joined is the sum of the parts' totals |
| Summaries.SumOfKindSplitAt | Task_4/Finance_tracker.py:143-144 | the record at any position contributes exactly its own amount to its type's total and nothing to the other |
| Summaries.SummaryAfterAppend | Task_4/Finance_tracker.py:143-145 | appending an "Income" record of amount a raises income and balance by a; an "Expense" record raises expenses by a and lowers the balance by a; any other type changes nothing |
| Summaries.SummaryAfterRemove | Task_4/Finance_tracker.py:143-145 | deleting a record reverses its effect on the summary in the same three cases |
| Summaries.SummaryIgnoresOtherTypes | Task_4/Finance_tracker.py:143-144 | a record whose type is neither label leaves the summary unchanged wherever it sits |
| CategorySet.Categories | Task_4/Finance_tracker.py:150 | there are never more distinct categories than records |
| CategorySet.CategoriesMembership | Task_4/Finance_tracker.py:150 | a string is among the categories exactly when some record carries it |
| CategorySet.CategoryList | Task_4/Finance_tracker.py:149-151 | the filter options hold no duplicates, hold exactly the categories present, and number as many as there are distinct categories |
| CategorySet.CategoriesConcat | Task_4/Finance_tracker.py:150 | the categories of two ledger parts joined are the union of theirs |
| CategorySet.CategoriesAfterAppend | Task_4/Finance_tracker.py:150 | an accepted add adds exactly its own category to the options |
| CategorySet.CategoriesSplice | Task_4/Finance_tracker.py:150 | taking one record out of the middle of a ledger leaves the categories of the rest, and the old categories are those plus the removed record's category |
| CategorySet.CategoriesAfterRemove | Task_4/Finance_tracker.py:150 | a delete can only drop the removed record's category; the old options are the new ones plus that category |
| CategorySet.CategorySurvivesRemove | Task_4/Finance_tracker.py:150 | the removed record's category stays an option exactly when another record shares it |
| Filtering.Matching | Task_4/Finance_tracker.py:156 | the filtered list is no longer than the ledger and every record in it has the selected category |
| Filtering.MatchingCounts | Task_4/Finance_tracker.py:156 | each record occurs in the filtered list as often as in the ledger if its category matches, and never otherwise |
| Filtering.FilterTransactions | Task_4/Finance_tracker.py:153-166 | an empty selection shows the ledger unchanged; a non-empty one shows only records of that category |
| Filtering.Positions | Task_4/Finance_tracker.py:156 | every matching position lies inside the ledger |
| Filtering.PositionsIncrease | Task_4/Finance_tracker.py:156 | the matching positions strictly increase |
| Filtering.PositionsComplete | Task_4/Finance_tracker.py:156 | every position holding the selected category is a matching position |
| Filtering.PositionsRead | Task_4/Finance_tracker.py:156 | reading the ledger at the matching positions gives the filtered list element by element, so the filtered list keeps ledger order |
| Filtering.FilterRows | Task_4/Finance_tracker.py:155-166 | the one-pass comprehension loop builds exactly the filtered list |
| Filtering.MatchingConcat | Task_4/Finance_tracker.py:156 | the matches of two ledger parts joined are the matches of the first part followed by those of the second |
| Filtering.MatchingAllMatch | Task_4/Finance_tracker.py:156 | a ledger whose records all have the selected category passes the filter whole |
| Filtering.FilterIdempotent | Task_4/Finance_tracker.py:155-166 | filtering twice by the same selection equals filtering once |
| Filtering.FilterEmptyIffUnknown | Task_4/Finance_tracker.py:155-156 | a non-empty selection shows nothing exactly when no record has that category; there is no fallback to the whole ledger |
| Filtering.FilterAfterAppend | Task_4/Finance_tracker.py:155-166 | after an append, the same selection shows the old list plus the new record exactly when it matches or nothing is selected |
| Selection.FullView | Task_4/Finance_tracker.py:125-140 | redrawing the list shows the whole ledger in order |
| Selection.FilteredView | Task_4/Finance_tracker.py:153-166 | the list redrawn by the filter box shows exactly the filtered list, and every row points into the ledger |
| Selection.DeleteRowAsWritten | Task_4/Finance_tracker.py:110-118 | as written, the selected row's number is used as a ledger position: that ledger position is removed, whatever the row shows |
| Selection.DeleteRow | Task_4/Finance_tracker.py:110-118 | the corrected delete: with a row selected, the delete always succeeds and removes exactly the record shown in that row; with none, nothing changes |
| Selection.DeleteAgreesOnFullView | Task_4/Finance_tracker.py:117-118 | while the whole ledger is on display, the delete as written and the intended delete agree |
| Selection.DeleteAfterFilterRemovesHiddenRecord | Task_4/Finance_tracker.py:117-118 | after filtering two records on the second one's category, deleting the only row removes the hidden first record as written; the intended delete removes the second |
| Selection.OnAdd | Task_4/Finance_tracker.py:74-108 | a refused add changes neither the ledger nor the list on display; an accepted one appends exactly the record built from the form and redraws the whole ledger |
| Selection.OnDelete | Task_4/Finance_tracker.py:110-123 | the delete handler with the corrected row mapping: without a selection nothing changes; otherwise exactly the record shown in the selected row leaves the ledger, the others keep their order, and the whole ledger is redrawn |
| Selection.OnDeleteAsWritten | Task_4/Finance_tracker.py:110-123 | the delete handler as written: without a selection nothing changes; otherwise the ledger position equal to the row number is removed, the others keep their order, and the whole ledger is redrawn |
| Selection.OnFilter | Task_4/Finance_tracker.py:153-166 | choosing a filter leaves the ledger untouched and shows the filtered list |
| Scenarios.IncomeAndExpenseSummary | Task_4/Finance_tracker.py:143-145 | an income of 100 and an expense of 40 give totals 100 and 40 and a balance of 60 |
| Scenarios.TwoDistinctCategories | Task_4/Finance_tracker.py:150 | records in "Food", "Food" and "Rent" give exactly the two options "Food" and "Rent" |
| Scenarios.FilterFoodKeepsOrder | Task_4/Finance_tracker.py:155-166 | filtering Food, Rent, Food on "Food" gives the two food records in order; an empty selection gives all three |
| Scenarios.SalaryThenGroceries | Task_4/Finance_tracker.py:74-145 | adding a salary of 1500 and then groceries of 60.5 accepts both, in that order, and gives totals 1500 and 60.5 and a balance of 1439.5 |
| Scenarios.DeleteSalary | Task_4/Finance_tracker.py:110-145 | deleting position 0 of that ledger leaves only the groceries and gives totals 0 and 60.5 and a balance of -60.5 |

## Left out

- Widget construction, grid layout and colour tags (lines 18-72) are not modelled. They are presentation only.
- The alternating-row branch (lines 131-134) is not modelled. It sets the same tags either way.
- Error dialogs (lines 83, 89, 113) are not modelled. They become error values, with the ledger left unchanged.
- Clearing the entry fields after an accepted add (lines 100-103) is not modelled. It is widget state only.
- Currency formatting of amounts and of the summary line (lines 137, 147, 161) is not modelled. It is two-decimal float presentation.
- Python's `float` grammar is not modelled. It is the `AmountParser` parameter.
- Non-finite amounts (`inf`, `nan`), which `float` accepts, are not modelled. Amounts are reals.
- Binary floating-point rounding of the sums is not modelled. Sums are exact.
- The list widget allows selecting several rows at once. The model takes one selected row or none. What the index lookup does with several rows is Tk behaviour outside this code.
- The initial contents of the type box ("Income", lines 37-39) are not modelled as state. The type text is a parameter of add.
- The text of the filter box when its selection event fires is not modelled as state. It is a parameter of the filter.
- The summary label and the filter options are recomputed from the ledger after every change. They are modelled as functions of the ledger, not as fields of the screen.
- The `__main__` block and the event loop (lines 169-172) are not modelled. They are process start-up and I/O.

## Findings

| source | as written | input that shows it | evidently intended | confidence | as-written member | corrected member |
|---|---|---|---|---|---|---|
| Task_4/Finance_tracker.py:117-118 | the number of the selected row in the list widget is used as a position in the ledger, even when the list shows a filtered subsequence | ledger [Food 12.0, Rent 500.0]; filter on "Rent", so the only row shows the Rent record; select it and press delete: the Food record is removed and the Rent record stays | delete the record shown in the selected row | high (the filter redraws the list with only the matches, and the row number indexes the whole ledger); not executed | Selection.DeleteRowAsWritten | Selection.DeleteRow |
