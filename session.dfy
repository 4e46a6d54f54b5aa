/**
 The session's two record lists, which the entry forms extend in place one
 record at a time. Loading the lists from their files and writing them back
 after each submit is not part of this model: the loaded lists are the
 constructor's parameters.
 */
module Session {
  import opened Records
  import opened Aggregation

  class Ledger {
    var expenses: seq<Expense>
    var contributions: seq<Contribution>

    /**
     Every amount is non-negative, as the forms' number inputs (minimum 0.0)
     guarantee; loaded files need not satisfy it, so it is reported, not assumed.
     */
    ghost predicate AmountsNonNegative()
      reads this
    {
      ExpensesNonNegative(expenses) && ContributionsNonNegative(contributions)
    }

    /** A session starts from the lists loaded from the two files. */
    constructor (loadedExpenses: seq<Expense>, loadedContributions: seq<Contribution>)
      ensures expenses == loadedExpenses && contributions == loadedContributions
    {
      expenses := loadedExpenses;
      contributions := loadedContributions;
    }

    /**
     Submitting the expense form (lines 46-52): exactly one record joins the
     end of the expense list, every earlier record and the contributions are
     left as they were, and the total expense grows by the amount.
     */
    method AddExpense(date: string, category: string, description: string, amount: real)
      modifies this
      ensures expenses == old(expenses) + [Expense(date, category, description, amount)]
      ensures contributions == old(contributions)
      ensures TotalExpenses(expenses) == TotalExpenses(old(expenses)) + amount
      ensures AmountsNonNegative() <==> old(AmountsNonNegative()) && amount >= 0.0
    {
      var e := Expense(date, category, description, amount);
      TotalExpensesSnoc(expenses, e);
      var before := expenses;
      expenses := expenses + [e];
      assert expenses[|before|] == e;
      assert forall i :: 0 <= i < |before| ==> expenses[i] == before[i];
    }

    /**
     Submitting the contribution form (line 85): exactly one record joins
     the end of the contribution list, every earlier record and the
     expenses are left as they were, the total grows by the amount, and the
     settlement's name list only ever gains the new name at its end.
     */
    method AddContribution(name: string, amount: real, date: string)
      modifies this
      ensures contributions == old(contributions) + [Contribution(name, amount, date)]
      ensures expenses == old(expenses)
      ensures TotalContributions(contributions) == TotalContributions(old(contributions)) + amount
      ensures DistinctNames(contributions) ==
        if name in DistinctNames(old(contributions)) then DistinctNames(old(contributions))
        else DistinctNames(old(contributions)) + [name]
      ensures AmountsNonNegative() <==> old(AmountsNonNegative()) && amount >= 0.0
    {
      var c := Contribution(name, amount, date);
      TotalContributionsSnoc(contributions, c);
      DistinctNamesSnoc(contributions, c);
      contributions := contributions + [c];
    }
  }
}
