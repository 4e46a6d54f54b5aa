/**
 The two kinds of record the tracker stores, as flat values.
 Dates are opaque strings (the form stores `str(date)`) and take no part in
 the arithmetic; amounts are exact reals.
 */
module Records {

  datatype Option<T> = None | Some(value: T)

  /** The choices offered by the expense form's category selector. */
  const Categories: seq<string> := ["Market", "Utilities", "Rent", "Other", "Worker Payment"]

  /** The category whose amounts the summary reports separately: the selector's last choice. */
  const WorkerPayment: string := Categories[4]

  /** An expense row: {Date, Category, Description, Amount}. */
  datatype Expense = Expense(date: string, category: string, description: string, amount: real)

  /** A fixed-contribution row: {Name, Amount, Date}. */
  datatype Contribution = Contribution(name: string, amount: real, date: string)

  /** Every amount is at least 0, as the number inputs of both forms enforce. */
  predicate ExpensesNonNegative(es: seq<Expense>) {
    forall i :: 0 <= i < |es| ==> es[i].amount >= 0.0
  }

  predicate ContributionsNonNegative(cs: seq<Contribution>) {
    forall i :: 0 <= i < |cs| ==> cs[i].amount >= 0.0
  }

  /** The Name column of the contributions table, row by row. */
  function Names(cs: seq<Contribution>): (r: seq<string>)
    ensures |r| == |cs|
    ensures forall i :: 0 <= i < |cs| ==> r[i] == cs[i].name
  {
    seq(|cs|, i requires 0 <= i < |cs| => cs[i].name)
  }

  predicate NoDuplicates<T(==)>(s: seq<T>) {
    forall i, j :: 0 <= i < j < |s| ==> s[i] != s[j]
  }
}
