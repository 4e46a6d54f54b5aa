/**
 The Settlements page: an equal split of all expenses over the distinct
 contributors, each person's signed balance against that share, and the
 "should pay" / "should receive" lines.
 */
module Settlement {
  import opened Records
  import opened Aggregation
  import opened Rounding

  /**
   `total_expense / num_people if num_people else 0`: the share is what,
   taken once per person, makes up the total; with nobody it is 0 and
   nothing is divided.
   */
  function EqualShare(totalExpense: real, numPeople: nat): (r: real)
    ensures numPeople == 0 ==> r == 0.0
    ensures numPeople > 0 ==> numPeople as real * r == totalExpense
  {
    if numPeople > 0 then totalExpense / numPeople as real else 0.0
  }

  /** `n` copies of `x` added up. */
  function Times(n: nat, x: real): real {
    if n == 0 then 0.0 else Times(n - 1, x) + x
  }

  lemma {:induction false} TimesIsProduct(n: nat, x: real)
    ensures Times(n, x) == n as real * x
  {
    if n > 0 {
      TimesIsProduct(n - 1, x);
      assert n as real * x == (n - 1) as real * x + x;
    }
  }

  /** A row of the settlement table: {Name, Contributed, Owes/Receives}. */
  datatype Settlement = Settlement(name: string, contributed: real, balance: real)

  /** `paid - equal_share` with `paid = contrib_totals.get(name, 0)`, before rounding. */
  function Balance(totals: map<string, real>, name: string, equalShare: real): real {
    Get(totals, name) - equalShare
  }

  /** The row the loop appends for `name`. */
  function Entry(name: string, totals: map<string, real>, equalShare: real): Settlement {
    Settlement(name, Get(totals, name), Round2(Balance(totals, name, equalShare)))
  }

  /** The settlement table: one row per name, in the order of `names`. */
  function Settlements(names: seq<string>, totals: map<string, real>, equalShare: real): seq<Settlement> {
    seq(|names|, i requires 0 <= i < |names| => Entry(names[i], totals, equalShare))
  }

  /**
   The loop of lines 132-136: one row per name, in the order of `names`,
   each carrying the name's total and its balance rounded to cents.
   */
  method BuildSettlements(names: seq<string>, totals: map<string, real>, equalShare: real)
    returns (settlements: seq<Settlement>)
    ensures settlements == Settlements(names, totals, equalShare)
    ensures |settlements| == |names|
    ensures forall i :: 0 <= i < |names| ==>
      && settlements[i].name == names[i]
      && settlements[i].contributed == Get(totals, names[i])
      && settlements[i].balance == Round2(settlements[i].contributed - equalShare)
  {
    settlements := [];
    for i := 0 to |names|
      invariant |settlements| == i
      invariant forall k :: 0 <= k < i ==> settlements[k] == Entry(names[k], totals, equalShare)
    {
      var name := names[i];
      var paid := Get(totals, name);
      var balance := paid - equalShare;
      settlements := settlements + [Settlement(name, paid, Round2(balance))];
    }
  }

  /** What the Settlements page shows. */
  datatype SettlementView =
    | NoExpensesToSettle
      // no expense recorded: the page says so and computes nothing
    | MissingNameColumn
      // expenses but no contribution: `groupby("Name")` on a table without
      // columns raises before any settlement is built
    | Report(totalExpense: real, equalShare: real, settlements: seq<Settlement>)

  /**
   The Settlements page (lines 116-136): nothing without expenses, a failure
   without contributions, and otherwise every expense split equally over the
   distinct contributors, one row each in first-seen order (the properties of
   that table are the lemmas below).
   */
  method SettlementsPage(es: seq<Expense>, cs: seq<Contribution>) returns (view: SettlementView)
    ensures view == NoExpensesToSettle <==> es == []
    ensures view == MissingNameColumn <==> es != [] && cs == []
    ensures view.Report? ==>
      && view.totalExpense == TotalExpenses(es)
      && view.equalShare == EqualShare(view.totalExpense, |DistinctNames(cs)|)
      && view.settlements == Settlements(DistinctNames(cs), GroupByName(cs), view.equalShare)
  {
    if es == [] {
      return NoExpensesToSettle;
    }
    var totalExpense := TotalExpenses(es);
    var names := DistinctNames(cs);
    var numPeople := |names|;
    var equalShare := EqualShare(totalExpense, numPeople);
    if cs == [] {
      return MissingNameColumn;
    }
    var contribTotals := GroupByName(cs);
    var settlements := BuildSettlements(names, contribTotals, equalShare);
    view := Report(totalExpense, equalShare, settlements);
  }

  /** Some contribution exists exactly when some name does. */
  lemma DistinctNamesNonEmpty(cs: seq<Contribution>)
    ensures |DistinctNames(cs)| > 0 <==> cs != []
  {
    if cs != [] {
      assert Names(cs)[0] in Names(cs);
    }
  }

  /**
   The Settlements page with the per-person totals guarded the way the name
   list already is (an empty dictionary when no contribution exists): once
   an expense exists the page always reports, and without contributions it
   reports a zero share and an empty table.
   */
  method SettlementsPageGuarded(es: seq<Expense>, cs: seq<Contribution>) returns (view: SettlementView)
    ensures view == NoExpensesToSettle <==> es == []
    ensures view != MissingNameColumn
    ensures view.Report? ==>
      && view.totalExpense == TotalExpenses(es)
      && view.equalShare == EqualShare(view.totalExpense, |DistinctNames(cs)|)
      && view.settlements == Settlements(DistinctNames(cs), GroupByName(cs), view.equalShare)
    ensures es != [] && cs == [] ==> view == Report(TotalExpenses(es), 0.0, [])
  {
    if es == [] {
      return NoExpensesToSettle;
    }
    var totalExpense := TotalExpenses(es);
    var names := DistinctNames(cs);
    var numPeople := |names|;
    var equalShare := EqualShare(totalExpense, numPeople);
    var contribTotals := if cs == [] then map[] else GroupByName(cs);
    var settlements := BuildSettlements(names, contribTotals, equalShare);
    view := Report(totalExpense, equalShare, settlements);
  }

  /**
   With at least one contribution the equal share, taken once per distinct
   name, makes up the total expense.
   */
  lemma EqualShareCoversExpenses(es: seq<Expense>, cs: seq<Contribution>)
    requires cs != []
    ensures
      var names := DistinctNames(cs);
      Times(|names|, EqualShare(TotalExpenses(es), |names|)) == TotalExpenses(es)
  {
    var names := DistinctNames(cs);
    DistinctNamesNonEmpty(cs);
    TimesIsProduct(|names|, EqualShare(TotalExpenses(es), |names|));
  }

  /**
   The settlement table over the distinct names has one row per name, in
   first-seen order, whose Contributed is that name's grouped total: the
   `get(name, 0)` default is never used.
   */
  lemma SettlementRows(cs: seq<Contribution>, share: real)
    ensures
      var names := DistinctNames(cs);
      var ss := Settlements(names, GroupByName(cs), share);
      && |ss| == |names|
      && forall i :: 0 <= i < |ss| ==>
           && ss[i].name == names[i]
           && names[i] in GroupByName(cs)
           && ss[i].contributed == PersonTotal(cs, names[i])
  {
    var names := DistinctNames(cs);
    forall i | 0 <= i < |names|
      ensures names[i] in GroupByName(cs) && Get(GroupByName(cs), names[i]) == PersonTotal(cs, names[i])
    {
      RowTotal(cs, names[i]);
    }
  }

  /** A distinct name is a key of the group-by, and its value is that name's total. */
  lemma RowTotal(cs: seq<Contribution>, n: string)
    requires n in DistinctNames(cs)
    ensures n in GroupByName(cs) && Get(GroupByName(cs), n) == PersonTotal(cs, n)
  {
    GroupByNameHasKey(cs, n);
    GroupByNameIsPersonTotal(cs, n);
  }

  /** The unrounded balances, one per name. */
  function Balances(names: seq<string>, totals: map<string, real>, equalShare: real): seq<real> {
    seq(|names|, i requires 0 <= i < |names| => Balance(totals, names[i], equalShare))
  }

  /** The Owes/Receives column of a settlement table. */
  function BalanceColumn(ss: seq<Settlement>): seq<real> {
    seq(|ss|, i requires 0 <= i < |ss| => ss[i].balance)
  }

  /** Sum of the Owes/Receives column. */
  function BalanceTotal(ss: seq<Settlement>): real {
    Sum(BalanceColumn(ss))
  }

  /** The unrounded balances add up to the names' totals less one share per name. */
  lemma {:induction false} BalancesSum(names: seq<string>, totals: map<string, real>, equalShare: real)
    ensures Sum(Balances(names, totals, equalShare)) == TotalOver(totals, names) - Times(|names|, equalShare)
  {
    if names != [] {
      var q, last := names[..|names| - 1], names[|names| - 1];
      var bs := Balances(names, totals, equalShare);
      assert bs[..|names| - 1] == Balances(q, totals, equalShare);
      assert Sum(bs) == Sum(Balances(q, totals, equalShare)) + Balance(totals, last, equalShare);
      assert TotalOver(totals, names) == TotalOver(totals, q) + Get(totals, last);
      BalancesSum(q, totals, equalShare);
    }
  }

  /** Two columns that differ by at most half a cent per row have sums at most half a cent per row apart. */
  lemma {:induction false} SumWithinHalfCents(xs: seq<real>, ys: seq<real>)
    requires |xs| == |ys|
    requires forall i :: 0 <= i < |xs| ==> -0.005 <= xs[i] - ys[i] <= 0.005
    ensures -(|xs| as real * 0.005) <= Sum(xs) - Sum(ys) <= |xs| as real * 0.005
  {
    if xs != [] {
      var n := |xs| - 1;
      SumWithinHalfCents(xs[..n], ys[..n]);
    }
  }

  /**
   Conservation: with at least one contributor, the unrounded balances add
   up to total contributions minus total expenses.
   */
  lemma BalancesConserve(es: seq<Expense>, cs: seq<Contribution>)
    requires cs != []
    ensures
      var names := DistinctNames(cs);
      Sum(Balances(names, GroupByName(cs), EqualShare(TotalExpenses(es), |names|)))
        == TotalContributions(cs) - TotalExpenses(es)
  {
    var names, totals := DistinctNames(cs), GroupByName(cs);
    var share := EqualShare(TotalExpenses(es), |names|);
    EqualShareCoversExpenses(es, cs);
    BalancesSum(names, totals, share);
    GroupingPreservesTotal(cs);
  }

  /**
   After rounding, the balances in the settlement table add up to total
   contributions minus total expenses within half a cent per contributor.
   */
  lemma RoundedBalancesConserve(es: seq<Expense>, cs: seq<Contribution>)
    requires cs != []
    ensures
      var ss := Settlements(DistinctNames(cs), GroupByName(cs), EqualShare(TotalExpenses(es), |DistinctNames(cs)|));
      -(|ss| as real * 0.005) <= BalanceTotal(ss) - (TotalContributions(cs) - TotalExpenses(es)) <= |ss| as real * 0.005
  {
    var names := DistinctNames(cs);
    var share := EqualShare(TotalExpenses(es), |names|);
    var ss := Settlements(names, GroupByName(cs), share);
    BalancesConserve(es, cs);
    SumWithinHalfCents(BalanceColumn(ss), Balances(names, GroupByName(cs), share));
  }

  /** A line of the "Who Owes Whom" list. */
  datatype Line = ShouldPay(name: string, amount: real) | ShouldReceive(name: string, amount: real)

  /** Lines 143-146: a negative balance pays its absolute value, a positive one receives it, 0 gives no line. */
  function Classify(s: Settlement): Option<Line> {
    if s.balance < 0.0 then Some(ShouldPay(s.name, -s.balance))
    else if s.balance > 0.0 then Some(ShouldReceive(s.name, s.balance))
    else None
  }

  /**
   Read against the unrounded balance b: a person pays when b < -0.005,
   receives when b > 0.005 and gets no line otherwise; the amount is a whole
   number of cents within half a cent of |b|.
   */
  lemma ClassifyEntry(name: string, totals: map<string, real>, equalShare: real)
    ensures
      var b := Balance(totals, name, equalShare);
      match Classify(Entry(name, totals, equalShare))
      case None => -0.005 <= b <= 0.005
      case Some(ShouldPay(n, a)) => n == name && b < -0.005 && IsCents(-a) && -0.005 <= a + b <= 0.005
      case Some(ShouldReceive(n, a)) => n == name && b > 0.005 && IsCents(a) && -0.005 <= a - b <= 0.005
  {
  }

  /** The lines the loop of lines 142-146 writes, in table order: at most one per row. */
  function WhoOwesWhom(ss: seq<Settlement>): (r: seq<Line>)
    ensures |r| <= |ss|
  {
    if ss == [] then []
    else
      var rest := WhoOwesWhom(ss[..|ss| - 1]);
      match Classify(ss[|ss| - 1])
      case None => rest
      case Some(line) => rest + [line]
  }

  /** Money received counts positive, money paid negative. */
  function Signed(l: Line): real {
    match l
    case ShouldPay(_, a) => -a
    case ShouldReceive(_, a) => a
  }

  function NetOfLines(ls: seq<Line>): real {
    if ls == [] then 0.0 else NetOfLines(ls[..|ls| - 1]) + Signed(ls[|ls| - 1])
  }

  /** Appending a row adds its balance to the column's sum. */
  lemma BalanceTotalSnoc(ss: seq<Settlement>)
    requires ss != []
    ensures BalanceTotal(ss) == BalanceTotal(ss[..|ss| - 1]) + ss[|ss| - 1].balance
  {
    assert BalanceColumn(ss)[..|ss| - 1] == BalanceColumn(ss[..|ss| - 1]);
  }

  /** One more row adds exactly its balance to what the lines net. */
  lemma WhoOwesWhomSnoc(ss: seq<Settlement>)
    requires ss != []
    ensures NetOfLines(WhoOwesWhom(ss)) == NetOfLines(WhoOwesWhom(ss[..|ss| - 1])) + ss[|ss| - 1].balance
  {
    var rest, last := WhoOwesWhom(ss[..|ss| - 1]), ss[|ss| - 1];
    if Classify(last).Some? {
      var ls := rest + [Classify(last).value];
      assert ls[..|rest|] == rest;
    }
  }

  /** Every line carries a positive amount. */
  lemma {:induction false} WhoOwesWhomPositive(ss: seq<Settlement>)
    ensures forall i :: 0 <= i < |WhoOwesWhom(ss)| ==> WhoOwesWhom(ss)[i].amount > 0.0
  {
    if ss != [] {
      WhoOwesWhomPositive(ss[..|ss| - 1]);
    }
  }

  /**
   What the lines say is received less what they say is paid is the sum of
   the Owes/Receives column.
   */
  lemma {:induction false} WhoOwesWhomNet(ss: seq<Settlement>)
    ensures NetOfLines(WhoOwesWhom(ss)) == BalanceTotal(ss)
  {
    if ss != [] {
      WhoOwesWhomNet(ss[..|ss| - 1]);
      BalanceTotalSnoc(ss);
      WhoOwesWhomSnoc(ss);
    }
  }

  /**
   Alice pays in 100 and Bob 50 against 90 of expenses: the share is 45,
   Alice is owed 55 and Bob 5, and both get a "should receive" line.
   */
  lemma ScenarioBothReceive()
    ensures
      var cs := [Contribution("Alice", 100.0, "2024-05-01"), Contribution("Bob", 50.0, "2024-05-01")];
      var es := [Expense("2024-05-02", "Market", "groceries", 90.0)];
      var share := EqualShare(TotalExpenses(es), |DistinctNames(cs)|);
      var ss := Settlements(DistinctNames(cs), GroupByName(cs), share);
      share == 45.0 &&
      ss == [Settlement("Alice", 100.0, 55.0), Settlement("Bob", 50.0, 5.0)] &&
      WhoOwesWhom(ss) == [ShouldReceive("Alice", 55.0), ShouldReceive("Bob", 5.0)]
  {
    var cs := [Contribution("Alice", 100.0, "2024-05-01"), Contribution("Bob", 50.0, "2024-05-01")];
    var es := [Expense("2024-05-02", "Market", "groceries", 90.0)];
    TotalExpensesSnoc([], es[0]);
    assert [] + [es[0]] == es;
    assert cs[..1] == [cs[0]];
    assert [cs[0]][..0] == [];
    assert DistinctNames(cs) == ["Alice", "Bob"];
    assert GroupByName(cs) == map["Alice" := 100.0, "Bob" := 50.0];
    Round2OfCents(55.0);
    Round2OfCents(5.0);
    var ss := [Settlement("Alice", 100.0, 55.0), Settlement("Bob", 50.0, 5.0)];
    assert ss[..1] == [ss[0]];
    assert [ss[0]][..0] == [];
  }

  /**
   Alice and Bob pay in 50 each against 150 of expenses: the share is 75 and
   each owes 25.
   */
  lemma ScenarioBothPay()
    ensures
      var cs := [Contribution("Alice", 50.0, "2024-05-01"), Contribution("Bob", 50.0, "2024-05-01")];
      var es := [Expense("2024-05-02", "Rent", "flat", 150.0)];
      var share := EqualShare(TotalExpenses(es), |DistinctNames(cs)|);
      var ss := Settlements(DistinctNames(cs), GroupByName(cs), share);
      share == 75.0 &&
      ss == [Settlement("Alice", 50.0, -25.0), Settlement("Bob", 50.0, -25.0)] &&
      WhoOwesWhom(ss) == [ShouldPay("Alice", 25.0), ShouldPay("Bob", 25.0)]
  {
    var cs := [Contribution("Alice", 50.0, "2024-05-01"), Contribution("Bob", 50.0, "2024-05-01")];
    var es := [Expense("2024-05-02", "Rent", "flat", 150.0)];
    TotalExpensesSnoc([], es[0]);
    assert [] + [es[0]] == es;
    assert cs[..1] == [cs[0]];
    assert [cs[0]][..0] == [];
    assert DistinctNames(cs) == ["Alice", "Bob"];
    assert GroupByName(cs) == map["Alice" := 50.0, "Bob" := 50.0];
    Round2OfCents(-25.0);
    var ss := [Settlement("Alice", 50.0, -25.0), Settlement("Bob", 50.0, -25.0)];
    assert ss[..1] == [ss[0]];
    assert [ss[0]][..0] == [];
  }
}
