/**
 Column sums, the category selection and the group-by-name of the
 contributions: the figures of the Fixed Contributions page and the inputs
 of the settlement.
 */
module Aggregation {
  import opened Records

  /** Sum of a column, left to right; 0 for an empty column. */
  function Sum(xs: seq<real>): real {
    if xs == [] then 0.0 else Sum(xs[..|xs| - 1]) + xs[|xs| - 1]
  }

  /** A column of non-negative values has a non-negative sum. */
  lemma {:induction false} SumNonNegative(xs: seq<real>)
    requires forall i :: 0 <= i < |xs| ==> xs[i] >= 0.0
    ensures Sum(xs) >= 0.0
  {
    if xs != [] {
      SumNonNegative(xs[..|xs| - 1]);
    }
  }

  lemma {:induction false} SumConcat(a: seq<real>, b: seq<real>)
    ensures Sum(a + b) == Sum(a) + Sum(b)
  {
    if b == [] {
      assert a + b == a;
    } else {
      var b' := b[..|b| - 1];
      assert (a + b)[..|a + b| - 1] == a + b';
      SumConcat(a, b');
    }
  }

  /** The Amount column of the expenses table. */
  function ExpenseAmounts(es: seq<Expense>): (r: seq<real>)
    ensures |r| == |es|
    ensures forall i :: 0 <= i < |es| ==> r[i] == es[i].amount
  {
    seq(|es|, i requires 0 <= i < |es| => es[i].amount)
  }

  /** The Amount column of the contributions table. */
  function ContributionAmounts(cs: seq<Contribution>): (r: seq<real>)
    ensures |r| == |cs|
    ensures forall i :: 0 <= i < |cs| ==> r[i] == cs[i].amount
  {
    seq(|cs|, i requires 0 <= i < |cs| => cs[i].amount)
  }

  /** `expense_df["Amount"].sum()`, and 0.0 when the table is empty. */
  function TotalExpenses(es: seq<Expense>): (r: real)
    ensures es == [] ==> r == 0.0
    ensures ExpensesNonNegative(es) ==> r >= 0.0
  {
    if ExpensesNonNegative(es) then SumNonNegative(ExpenseAmounts(es)); Sum(ExpenseAmounts(es))
    else Sum(ExpenseAmounts(es))
  }

  /** `fixed_df["Amount"].sum()`. */
  function TotalContributions(cs: seq<Contribution>): (r: real)
    ensures cs == [] ==> r == 0.0
    ensures ContributionsNonNegative(cs) ==> r >= 0.0
  {
    if ContributionsNonNegative(cs) then SumNonNegative(ContributionAmounts(cs)); Sum(ContributionAmounts(cs))
    else Sum(ContributionAmounts(cs))
  }

  /** Splitting the expense list anywhere splits its total. */
  lemma TotalExpensesConcat(a: seq<Expense>, b: seq<Expense>)
    ensures TotalExpenses(a + b) == TotalExpenses(a) + TotalExpenses(b)
  {
    assert ExpenseAmounts(a + b) == ExpenseAmounts(a) + ExpenseAmounts(b);
    SumConcat(ExpenseAmounts(a), ExpenseAmounts(b));
  }

  /** Splitting the contribution list anywhere splits its total. */
  lemma TotalContributionsConcat(a: seq<Contribution>, b: seq<Contribution>)
    ensures TotalContributions(a + b) == TotalContributions(a) + TotalContributions(b)
  {
    assert ContributionAmounts(a + b) == ContributionAmounts(a) + ContributionAmounts(b);
    SumConcat(ContributionAmounts(a), ContributionAmounts(b));
  }

  /** Appending one expense raises the total by exactly its amount. */
  lemma TotalExpensesSnoc(es: seq<Expense>, e: Expense)
    ensures TotalExpenses(es + [e]) == TotalExpenses(es) + e.amount
  {
    TotalExpensesConcat(es, [e]);
    assert ExpenseAmounts([e]) == [e.amount];
    assert Sum([e.amount]) == Sum([]) + e.amount;
  }

  /** Appending one contribution raises the total by exactly its amount. */
  lemma TotalContributionsSnoc(cs: seq<Contribution>, c: Contribution)
    ensures TotalContributions(cs + [c]) == TotalContributions(cs) + c.amount
  {
    TotalContributionsConcat(cs, [c]);
    assert ContributionAmounts([c]) == [c.amount];
    assert Sum([c.amount]) == Sum([]) + c.amount;
  }

  /**
   The rows whose Category equals `c` (when `matching`) or differs from it
   (otherwise), in their original order: the boolean-mask selection
   `expense_df[expense_df["Category"] == c]` and its complement.
   */
  function SelectCategory(es: seq<Expense>, c: string, matching: bool): (r: seq<Expense>)
    ensures forall i :: 0 <= i < |r| ==> (r[i].category == c) == matching
    ensures forall e :: multiset(r)[e] == if (e.category == c) == matching then multiset(es)[e] else 0
    ensures ExpensesNonNegative(es) ==> ExpensesNonNegative(r)
  {
    if es == [] then []
    else
      var rest := SelectCategory(es[..|es| - 1], c, matching);
      var last := es[|es| - 1];
      assert es == es[..|es| - 1] + [last];
      if (last.category == c) == matching then rest + [last] else rest
  }

  /** Every expense is either in category `c` or not: the two selections split the total. */
  lemma {:induction false} CategoryPartition(es: seq<Expense>, c: string)
    ensures TotalExpenses(es) == TotalExpenses(SelectCategory(es, c, true)) + TotalExpenses(SelectCategory(es, c, false))
  {
    if es != [] {
      var p, last := es[..|es| - 1], es[|es| - 1];
      assert es == p + [last];
      CategoryPartition(p, c);
      TotalExpensesSnoc(p, last);
      if last.category == c {
        TotalExpensesSnoc(SelectCategory(p, c, true), last);
      } else {
        TotalExpensesSnoc(SelectCategory(p, c, false), last);
      }
    }
  }

  /**
   The "Worker Payment" subtotal (line 98). With non-negative amounts it lies
   between 0 and the total of all expenses, which includes it.
   */
  function WorkerPayments(es: seq<Expense>): (r: real)
    ensures es == [] ==> r == 0.0
    ensures ExpensesNonNegative(es) ==> 0.0 <= r <= TotalExpenses(es)
  {
    CategoryPartition(es, WorkerPayment);
    TotalExpenses(SelectCategory(es, WorkerPayment, true))
  }

  /** `contrib_totals.get(name, 0)`. */
  function Get(m: map<string, real>, k: string): real {
    if k in m then m[k] else 0.0
  }

  /**
   The contribution rows whose Name is `n`, in their original order: every
   such row is kept, as often as it occurs, and no other row.
   */
  function WithName(cs: seq<Contribution>, n: string): (r: seq<Contribution>)
    ensures forall i :: 0 <= i < |r| ==> r[i].name == n
    ensures forall c :: multiset(r)[c] == if c.name == n then multiset(cs)[c] else 0
    ensures r == [] <==> n !in Names(cs)
  {
    if cs == [] then []
    else
      var rest := WithName(cs[..|cs| - 1], n);
      var last := cs[|cs| - 1];
      assert cs == cs[..|cs| - 1] + [last];
      assert Names(cs) == Names(cs[..|cs| - 1]) + [last.name];
      if last.name == n then rest + [last] else rest
  }

  /** One group of the group-by: the sum of Amount over the rows named `n`. */
  function PersonTotal(cs: seq<Contribution>, n: string): real {
    TotalContributions(WithName(cs, n))
  }

  /**
   `fixed_df.groupby("Name")["Amount"].sum()` as a dictionary, built by
   folding the rows into the running per-name totals.
   */
  function GroupByName(cs: seq<Contribution>): map<string, real> {
    if cs == [] then map[]
    else
      var m := GroupByName(cs[..|cs| - 1]);
      var last := cs[|cs| - 1];
      m[last.name := Get(m, last.name) + last.amount]
  }

  /** A name is a key of the group-by exactly when some row carries it. */
  lemma {:induction false} GroupByNameHasKey(cs: seq<Contribution>, n: string)
    ensures n in GroupByName(cs) <==> n in Names(cs)
  {
    if cs != [] {
      var p := cs[..|cs| - 1];
      assert Names(cs) == Names(p) + [cs[|cs| - 1].name];
      GroupByNameHasKey(p, n);
    }
  }

  /** The keys of the group-by are exactly the distinct names. */
  lemma GroupByNameKeys(cs: seq<Contribution>)
    ensures forall n :: n in GroupByName(cs) <==> n in DistinctNames(cs)
  {
    forall n ensures n in GroupByName(cs) <==> n in DistinctNames(cs) {
      GroupByNameHasKey(cs, n);
    }
  }

  /** Each value of the group-by is the sum of the Amount column over that name's rows. */
  lemma {:induction false} GroupByNameIsPersonTotal(cs: seq<Contribution>, n: string)
    ensures Get(GroupByName(cs), n) == PersonTotal(cs, n)
  {
    if cs != [] {
      var p, last := cs[..|cs| - 1], cs[|cs| - 1];
      GroupByNameIsPersonTotal(p, n);
      if last.name == n {
        TotalContributionsSnoc(WithName(p, n), last);
      }
    }
  }

  /**
   `fixed_df["Name"].unique()`: each name once, in the order of its first row.
   */
  function DistinctNames(cs: seq<Contribution>): (r: seq<string>)
    ensures NoDuplicates(r)
    ensures forall n :: n in r <==> n in Names(cs)
    ensures |r| <= |cs|
  {
    if cs == [] then []
    else
      var d := DistinctNames(cs[..|cs| - 1]);
      var n := cs[|cs| - 1].name;
      assert Names(cs) == Names(cs[..|cs| - 1]) + [n];
      if n in d then d else d + [n]
  }

  /** Position of the first occurrence of `n` in `s`. */
  function FirstIndex(s: seq<string>, n: string): (k: nat)
    requires n in s
    ensures k < |s| && s[k] == n
    ensures forall j :: 0 <= j < k ==> s[j] != n
  {
    if s[0] == n then 0 else 1 + FirstIndex(s[1..], n)
  }

  lemma FirstIndexSnoc(s: seq<string>, x: string, n: string)
    requires n in s
    ensures FirstIndex(s + [x], n) == FirstIndex(s, n)
  {
    var k, k' := FirstIndex(s + [x], n), FirstIndex(s, n);
    assert (s + [x])[k'] == n;
    assert s[k] == n;
  }

  /** The distinct names come out in the order in which each is first seen. */
  lemma {:induction false} DistinctNamesFirstSeenOrder(cs: seq<Contribution>)
    ensures forall i, j :: 0 <= i < j < |DistinctNames(cs)| ==>
      FirstIndex(Names(cs), DistinctNames(cs)[i]) < FirstIndex(Names(cs), DistinctNames(cs)[j])
  {
    if cs != [] {
      var p, last := cs[..|cs| - 1], cs[|cs| - 1];
      var d, r := DistinctNames(p), DistinctNames(cs);
      assert Names(cs) == Names(p) + [last.name];
      DistinctNamesFirstSeenOrder(p);
      forall i | 0 <= i < |d|
        ensures FirstIndex(Names(cs), d[i]) == FirstIndex(Names(p), d[i]) < |p|
      {
        FirstIndexSnoc(Names(p), last.name, d[i]);
      }
      if last.name !in d {
        assert last.name !in Names(p);
        assert FirstIndex(Names(cs), last.name) == |p|;
      }
    }
  }

  /** Sum of the map's values at the keys `ks` (0 for an absent key). */
  function TotalOver(m: map<string, real>, ks: seq<string>): real {
    if ks == [] then 0.0 else TotalOver(m, ks[..|ks| - 1]) + Get(m, ks[|ks| - 1])
  }

  lemma {:induction false} TotalOverUpdateAbsent(m: map<string, real>, ks: seq<string>, k: string, v: real)
    requires k !in ks
    ensures TotalOver(m[k := v], ks) == TotalOver(m, ks)
  {
    if ks != [] {
      TotalOverUpdateAbsent(m, ks[..|ks| - 1], k, v);
    }
  }

  lemma {:induction false} TotalOverUpdatePresent(m: map<string, real>, ks: seq<string>, k: string, v: real)
    requires k in ks && NoDuplicates(ks)
    ensures TotalOver(m[k := v], ks) == TotalOver(m, ks) - Get(m, k) + v
  {
    var q, x := ks[..|ks| - 1], ks[|ks| - 1];
    assert ks == q + [x];
    if x == k {
      assert k !in q;
      TotalOverUpdateAbsent(m, q, k, v);
    } else {
      TotalOverUpdatePresent(m, q, k, v);
    }
  }

  /** Adding `a` under key `k`: the sum over the key list (extended by `k` if new) grows by `a`. */
  lemma {:induction false} AddUnderKey(m: map<string, real>, ks: seq<string>, k: string, a: real)
    requires NoDuplicates(ks)
    requires k in m <==> k in ks
    ensures TotalOver(m[k := Get(m, k) + a], if k in ks then ks else ks + [k]) == TotalOver(m, ks) + a
  {
    if k in ks {
      TotalOverUpdatePresent(m, ks, k, Get(m, k) + a);
    } else {
      var ks' := ks + [k];
      assert ks'[..|ks'| - 1] == ks;
      TotalOverUpdateAbsent(m, ks, k, Get(m, k) + a);
    }
  }

  /**
   The recursive step of `GroupByName` restated at `p + [c]`, an unfolding
   helper: the new row adds its amount to its own name's total only.
   */
  lemma GroupByNameSnoc(p: seq<Contribution>, c: Contribution)
    ensures GroupByName(p + [c]) == GroupByName(p)[c.name := Get(GroupByName(p), c.name) + c.amount]
  {
    var cs := p + [c];
    assert cs[..|cs| - 1] == p;
  }

  /**
   The recursive step of `DistinctNames` restated at `p + [c]`, an unfolding
   helper: the new name joins the end unless it is already there.
   */
  lemma DistinctNamesSnoc(p: seq<Contribution>, c: Contribution)
    ensures DistinctNames(p + [c]) == if c.name in DistinctNames(p) then DistinctNames(p) else DistinctNames(p) + [c.name]
  {
    var cs := p + [c];
    assert cs[..|cs| - 1] == p;
  }

  /** One more contribution row keeps the per-person totals adding up to the total. */
  lemma GroupingStep(p: seq<Contribution>, last: Contribution)
    requires TotalOver(GroupByName(p), DistinctNames(p)) == TotalContributions(p)
    ensures TotalOver(GroupByName(p + [last]), DistinctNames(p + [last])) == TotalContributions(p + [last])
  {
    GroupByNameSnoc(p, last);
    DistinctNamesSnoc(p, last);
    TotalContributionsSnoc(p, last);
    GroupByNameHasKey(p, last.name);
    AddUnderKey(GroupByName(p), DistinctNames(p), last.name, last.amount);
  }

  /**
   Grouping preserves mass: the per-person totals, one per distinct name,
   add up to the total of all contributions.
   */
  lemma {:induction false} GroupingPreservesTotal(cs: seq<Contribution>)
    ensures TotalOver(GroupByName(cs), DistinctNames(cs)) == TotalContributions(cs)
  {
    if cs != [] {
      var p, last := cs[..|cs| - 1], cs[|cs| - 1];
      assert cs == p + [last];
      GroupingPreservesTotal(p);
      GroupingStep(p, last);
    }
  }

  /** The figures the Fixed Contributions page shows (lines 94-110). */
  datatype Summary = Summary(
    totalContributions: real,
    totalExpenses: real,
    workerPayments: real,
    availableBalance: real,
    perPerson: map<string, real>)

  /**
   The page shows its figures only once a contribution exists. The balance
   left is what was paid in minus every expense, Worker Payments included.
   */
  function ContributionSummary(cs: seq<Contribution>, es: seq<Expense>): (r: Option<Summary>)
    ensures r.None? <==> cs == []
    ensures r.Some? ==>
      r.value.totalContributions == TotalContributions(cs) &&
      r.value.totalExpenses == TotalExpenses(es) &&
      r.value.workerPayments == WorkerPayments(es) &&
      r.value.perPerson == GroupByName(cs)
    ensures r.Some? ==> r.value.availableBalance == TotalContributions(cs) - TotalExpenses(es)
    ensures r.Some? ==>
      r.value.totalExpenses == r.value.workerPayments + TotalExpenses(SelectCategory(es, WorkerPayment, false))
    ensures r.Some? ==>
      r.value.availableBalance + r.value.workerPayments
        + TotalExpenses(SelectCategory(es, WorkerPayment, false)) == r.value.totalContributions
    ensures r.Some? && ExpensesNonNegative(es) ==> 0.0 <= r.value.workerPayments <= r.value.totalExpenses
    ensures r.Some? ==> forall n :: n in r.value.perPerson <==> n in DistinctNames(cs)
  {
    if cs == [] then None
    else
      var totalContributions := TotalContributions(cs);
      var totalExpenses := TotalExpenses(es);
      CategoryPartition(es, WorkerPayment);
      GroupByNameKeys(cs);
      Some(Summary(totalContributions, totalExpenses, WorkerPayments(es),
                   totalContributions - totalExpenses, GroupByName(cs)))
  }
}
