/** Worked examples of the ledger's behaviour, each stated over concrete
    records. */
module Scenarios {
  import opened Wrappers
  import opened Transactions
  import opened Ledgers
  import opened Summaries
  import opened CategorySet
  import opened Filtering

  /** An income of 100 and an expense of 40 give a balance of 60. */
  lemma IncomeAndExpenseSummary()
    ensures Summarize([Transaction("Pay", 100.0, "2024-01-01", Income),
                       Transaction("Shop", 40.0, "2024-01-02", Expense)])
            == Totals(100.0, 40.0, 60.0)
  {
    var a := Transaction("Pay", 100.0, "2024-01-01", Income);
    var b := Transaction("Shop", 40.0, "2024-01-02", Expense);
    SummaryAfterAppend([], a);
    SummaryAfterAppend([a], b);
    assert [a] + [b] == [a, b];
  }

  /** Three records over two categories give two filter options. */
  lemma TwoDistinctCategories()
    ensures var food1 := Transaction("Food", 5.0, "2024-01-01", Income);
            var food2 := Transaction("Food", 7.0, "2024-01-02", Expense);
            var rent := Transaction("Rent", 9.0, "2024-01-03", Expense);
            Categories([food1, food2, rent]) == {"Food", "Rent"} && |Categories([food1, food2, rent])| == 2
  {
    var food1 := Transaction("Food", 5.0, "2024-01-01", Income);
    var food2 := Transaction("Food", 7.0, "2024-01-02", Expense);
    var rent := Transaction("Rent", 9.0, "2024-01-03", Expense);
    CategoriesAfterAppend([], food1);
    CategoriesAfterAppend([food1], food2);
    CategoriesAfterAppend([food1, food2], rent);
    assert [food1] + [food2] == [food1, food2];
    assert [food1, food2] + [rent] == [food1, food2, rent];
    assert "Food" != "Rent" by {
      assert "Food"[0] != "Rent"[0];
    }
  }

  /** Filtering on "Food" keeps the two food records in their order; an
      empty selection keeps all three. */
  lemma FilterFoodKeepsOrder()
    ensures var a := Transaction("Food", 5.0, "2024-01-01", Income);
            var b := Transaction("Rent", 9.0, "2024-01-02", Expense);
            var c := Transaction("Food", 7.0, "2024-01-03", Expense);
            && FilterTransactions([a, b, c], "Food") == [a, c]
            && FilterTransactions([a, b, c], "") == [a, b, c]
  {
    var a := Transaction("Food", 5.0, "2024-01-01", Income);
    var b := Transaction("Rent", 9.0, "2024-01-02", Expense);
    var c := Transaction("Food", 7.0, "2024-01-03", Expense);
    assert "Food" != "Rent" by {
      assert "Food"[0] != "Rent"[0];
    }
    assert FilterTransactions([a], "Food") == [a] by {
      FilterAfterAppend([], a, "Food");
    }
    assert FilterTransactions([a, b], "Food") == [a] by {
      FilterAfterAppend([a], b, "Food");
      assert [a] + [b] == [a, b];
    }
    assert FilterTransactions([a, b, c], "Food") == [a, c] by {
      FilterAfterAppend([a, b], c, "Food");
      assert [a, b] + [c] == [a, b, c];
    }
  }

  /** Salary then groceries: both adds are accepted, in order, and the
      summary counts the salary as income and the groceries as expense. */
  lemma SalaryThenGroceries(parse: AmountParser)
    requires parse("1500") == Some(1500.0) && parse("60.5") == Some(60.5)
    ensures var s1 := AddTransaction([], "Salary", "1500", "2024-01-01", Income, parse);
            var s2 := AddTransaction(s1.ledger, "Groceries", "60.5", "2024-01-03", Expense, parse);
            && s2 == Step([Transaction("Salary", 1500.0, "2024-01-01", Income),
                           Transaction("Groceries", 60.5, "2024-01-03", Expense)], None)
            && Summarize(s2.ledger) == Totals(1500.0, 60.5, 1439.5)
  {
    var salary := Transaction("Salary", 1500.0, "2024-01-01", Income);
    var groceries := Transaction("Groceries", 60.5, "2024-01-03", Expense);
    assert [salary] + [groceries] == [salary, groceries];
    SummaryAfterAppend([], salary);
    SummaryAfterAppend([salary], groceries);
  }

  /** Deleting position 0 of that ledger leaves only the groceries, and the
      balance turns negative. */
  lemma DeleteSalary()
    ensures var salary := Transaction("Salary", 1500.0, "2024-01-01", Income);
            var groceries := Transaction("Groceries", 60.5, "2024-01-03", Expense);
            var s3 := DeleteTransaction([salary, groceries], Some(0));
            && s3 == Step([groceries], None)
            && Summarize(s3.ledger) == Totals(0.0, 60.5, -60.5)
  {
    var groceries := Transaction("Groceries", 60.5, "2024-01-03", Expense);
    SummaryAfterAppend([], groceries);
  }
}
