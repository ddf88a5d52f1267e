/** The SELECT queries of the store, each a function of the current contents
    of the two tables. */
module Queries {
  import opened Relational
  import opened Ordering
  import opened Text
  import opened Records

  // ------------------------------------------------------ get_transactions

  /** `a` may come before `b` under ORDER BY date DESC, id DESC. */
  predicate NewerFirst(a: Transaction, b: Transaction) {
    if a.date == b.date then a.id >= b.id else LexLe(b.date, a.date)
  }

  lemma {:induction false} NewerFirstTotalPreorder()
    ensures TotalPreorder(NewerFirst)
  {
    forall x: Transaction, y: Transaction ensures NewerFirst(x, y) || NewerFirst(y, x) {
      LexLeTotal(x.date, y.date);
    }
    forall x: Transaction, y: Transaction, z: Transaction | NewerFirst(x, y) && NewerFirst(y, z)
      ensures NewerFirst(x, z)
    {
      assert LexLe(y.date, x.date) by {
        if y.date == x.date { LexLeReflexive(y.date); }
      }
      assert LexLe(z.date, y.date) by {
        if z.date == y.date { LexLeReflexive(z.date); }
      }
      LexLeTransitive(z.date, y.date, x.date);
      if z.date == x.date {
        LexLeAntisymmetric(z.date, y.date);
      }
    }
  }

  /** `SELECT ... FROM transactions ORDER BY date DESC, id DESC`: every row
      once, newest date first, and within a date the highest id first. */
  function ListTransactions(ts: seq<Transaction>): (r: seq<Transaction>)
    ensures multiset(r) == multiset(ts)
    ensures SortedBy(r, NewerFirst)
  {
    NewerFirstTotalPreorder();
    Sort(ts, NewerFirst)
  }

  /** Two rows that NewerFirst orders both ways share date and id. */
  lemma {:induction false} NewerFirstTies(x: Transaction, y: Transaction)
    requires NewerFirst(x, y) && NewerFirst(y, x)
    ensures x.date == y.date && x.id == y.id
  {
    if LexLe(x.date, y.date) && LexLe(y.date, x.date) {
      LexLeAntisymmetric(x.date, y.date);
    }
  }

  /** With the primary key unique, no two rows tie under the ORDER BY. */
  lemma {:induction false} UniqueIdsNoTies(ts: seq<Transaction>)
    requires DistinctKeys(ts, TxId)
    ensures NoTies(ts, NewerFirst)
  {
    forall x, y | x in ts && y in ts && NewerFirst(x, y) && NewerFirst(y, x) ensures x == y {
      NewerFirstTies(x, y);
      var i :| 0 <= i < |ts| && ts[i] == x;
      var j :| 0 <= j < |ts| && ts[j] == y;
      assert TxId(ts[i]) == TxId(ts[j]);
    }
  }

  /** So the ORDER BY leaves no choice: any sorted permutation of the table is
      the listing. */
  lemma {:induction false} ListTransactionsDetermined(ts: seq<Transaction>, s: seq<Transaction>)
    requires DistinctKeys(ts, TxId)
    requires multiset(s) == multiset(ts) && SortedBy(s, NewerFirst)
    ensures s == ListTransactions(ts)
  {
    UniqueIdsNoTies(ts);
    NoTiesPermutation(ts, s, NewerFirst);
    SortedPermutationsEqual(s, ListTransactions(ts), NewerFirst);
  }

  // ----------------------------------------------------------- get_budgets

  /** `a` may come before `b` under ORDER BY category. */
  predicate CategoryFirst(a: Budget, b: Budget) {
    LexLe(a.category, b.category)
  }

  lemma {:induction false} CategoryFirstTotalPreorder()
    ensures TotalPreorder(CategoryFirst)
  {
    forall x: Budget, y: Budget ensures CategoryFirst(x, y) || CategoryFirst(y, x) {
      LexLeTotal(x.category, y.category);
    }
    forall x: Budget, y: Budget, z: Budget | CategoryFirst(x, y) && CategoryFirst(y, z)
      ensures CategoryFirst(x, z)
    {
      LexLeTransitive(x.category, y.category, z.category);
    }
  }

  /** `SELECT id, category, amount FROM budgets ORDER BY category`. */
  function ListBudgets(bs: seq<Budget>): (r: seq<Budget>)
    ensures multiset(r) == multiset(bs)
    ensures SortedBy(r, CategoryFirst)
  {
    CategoryFirstTotalPreorder();
    Sort(bs, CategoryFirst)
  }

  /** The UNIQUE category makes the listing unique as well. */
  lemma {:induction false} UniqueCategoriesNoTies(bs: seq<Budget>)
    requires DistinctKeys(bs, BudgetCategory)
    ensures NoTies(bs, CategoryFirst)
  {
    forall x, y | x in bs && y in bs && CategoryFirst(x, y) && CategoryFirst(y, x) ensures x == y {
      if LexLe(x.category, y.category) && LexLe(y.category, x.category) {
        LexLeAntisymmetric(x.category, y.category);
      }
      var i :| 0 <= i < |bs| && bs[i] == x;
      var j :| 0 <= j < |bs| && bs[j] == y;
      assert BudgetCategory(bs[i]) == BudgetCategory(bs[j]);
    }
  }

  lemma {:induction false} ListBudgetsDetermined(bs: seq<Budget>, s: seq<Budget>)
    requires DistinctKeys(bs, BudgetCategory)
    requires multiset(s) == multiset(bs) && SortedBy(s, CategoryFirst)
    ensures s == ListBudgets(bs)
  {
    UniqueCategoriesNoTies(bs);
    NoTiesPermutation(bs, s, CategoryFirst);
    SortedPermutationsEqual(s, ListBudgets(bs), CategoryFirst);
  }

  // ----------------------------------------------------------- get_summary

  /** WHERE type = kind. */
  function KindIs(kind: string): Transaction -> bool {
    HasKey(KindOf, kind)
  }

  /** CASE WHEN type = kind THEN amount ELSE 0 END. */
  function CaseAmount(kind: string): Transaction -> int {
    Masked(AmountOf, KindIs(kind))
  }

  /** Helper: unfolds `KindIs` for the solver. */
  lemma {:induction false} KindIsMeans(kind: string)
    ensures forall x :: KindIs(kind)(x) <==> x.kind == kind
  {
    forall x ensures KindIs(kind)(x) <==> x.kind == kind {
      assert KindIs(kind) == HasKey(KindOf, kind);
      assert KindOf(x) == x.kind;
    }
  }

  /** Helper: unfolds `CaseAmount` for the solver. */
  lemma {:induction false} CaseAmountMeans(kind: string, x: Transaction)
    ensures CaseAmount(kind)(x) == if x.kind == kind then x.amount else 0
  {
    KindIsMeans(kind);
    assert CaseAmount(kind) == Masked(AmountOf, KindIs(kind));
    assert AmountOf(x) == x.amount;
  }

  /** SUM(f): NULL over no rows. Once `or 0.0` has turned NULL into zero,
      it is the plain sum on every table, the empty one included. */
  function SqlSum<T>(rows: seq<T>, f: T -> int): (r: Nullable<int>)
    ensures OrZero(r) == SumBy(rows, f)
  {
    if rows == [] then Null else NotNull(SumBy(rows, f))
  }

  /** Python's `x or 0.0` on the fetched SUM: NULL (and zero) become zero. */
  function OrZero(n: Nullable<int>): int {
    match n
    case Null => 0
    case NotNull(v) => v
  }

  /** `SELECT SUM(amount) FROM transactions WHERE type = kind`, then `or 0.0`. */
  function TotalOfKind(ts: seq<Transaction>, kind: string): (total: int)
    ensures total == SumBy(ts, CaseAmount(kind))
    ensures (forall t :: t in ts ==> t.kind != kind) ==> total == 0
  {
    SumByFilter(ts, KindIs(kind), AmountOf);
    KindIsMeans(kind);
    var rows := Filter(ts, KindIs(kind));
    assert rows != [] ==> rows[0] in rows;
    OrZero(SqlSum(rows, AmountOf))
  }

  datatype Summary = Summary(income: int, expense: int, net: int)

  /** get_summary: total income, total expense and their difference. */
  function GetSummary(ts: seq<Transaction>): (r: Summary)
    ensures r.income == SumBy(ts, CaseAmount(Income))
    ensures r.expense == SumBy(ts, CaseAmount(Expense))
    ensures r.net == r.income - r.expense
    ensures (forall t :: t in ts ==> t.kind != Income) ==> r.income == 0
    ensures (forall t :: t in ts ==> t.kind != Expense) ==> r.expense == 0
    ensures ts == [] ==> r == Summary(0, 0, 0)
  {
    var income := TotalOfKind(ts, Income);
    var expense := TotalOfKind(ts, Expense);
    Summary(income, expense, income - expense)
  }

  /** Adding a row moves exactly the total of its own type by its amount. */
  lemma {:induction false} SummaryAfterAdd(ts: seq<Transaction>, t: Transaction)
    ensures GetSummary(ts + [t]).income
         == GetSummary(ts).income + (if t.kind == Income then t.amount else 0)
    ensures GetSummary(ts + [t]).expense
         == GetSummary(ts).expense + (if t.kind == Expense then t.amount else 0)
  {
    assert [t][1..] == [];
    CaseAmountMeans(Income, t);
    CaseAmountMeans(Expense, t);
    SumByConcat(ts, [t], CaseAmount(Income));
    SumByConcat(ts, [t], CaseAmount(Expense));
  }

  // ---------------------------------------------- get_expenses_by_category

  /** One row of `SELECT category, SUM(amount) ... GROUP BY category`. */
  datatype CategoryTotal = CategoryTotal(category: string, total: int)

  function EntryCategory(e: CategoryTotal): string { e.category }
  function EntryTotal(e: CategoryTotal): int { e.total }

  /** `WHERE type='Expense' GROUP BY category`. */
  function CategoryGroups(ts: seq<Transaction>): seq<Group<Transaction, string>> {
    GroupBy(Filter(ts, KindIs(Expense)), CategoryOf)
  }

  /** The group rows before ORDER BY: each category with the SUM of its group. */
  function CategoryTotals(ts: seq<Transaction>): seq<CategoryTotal> {
    var gs := CategoryGroups(ts);
    seq(|gs|, i requires 0 <= i < |gs| => CategoryTotal(gs[i].key, SumBy(gs[i].rows, AmountOf)))
  }

  /** `a` may come before `b` under ORDER BY SUM(amount) DESC. */
  predicate TotalAtLeast(a: CategoryTotal, b: CategoryTotal) {
    a.total >= b.total
  }

  lemma {:induction false} TotalAtLeastTotalPreorder()
    ensures TotalPreorder(TotalAtLeast)
  {
  }

  /** get_expenses_by_category: the per-category expense totals, largest first.
      Equal totals may come in any order. */
  function ExpensesByCategory(ts: seq<Transaction>): (r: seq<CategoryTotal>)
    ensures multiset(r) == multiset(CategoryTotals(ts))
    ensures SortedBy(r, TotalAtLeast)
  {
    TotalAtLeastTotalPreorder();
    Sort(CategoryTotals(ts), TotalAtLeast)
  }

  /** The expenses of category `c`, summed with a WHERE clause over the whole
      table: the reference the grouped totals are checked against. */
  function CategoryExpense(ts: seq<Transaction>, c: string): int {
    SumBy(Filter(ts, Both(KindIs(Expense), HasKey(CategoryOf, c))), AmountOf)
  }

  /** The categories with at least one expense row. */
  function ExpenseCategories(ts: seq<Transaction>): set<string> {
    set t | t in ts && t.kind == Expense :: t.category
  }

  function EntryCategories(es: seq<CategoryTotal>): set<string> {
    set e | e in es :: e.category
  }

  lemma {:induction false} CategoryTotalsDistinct(ts: seq<Transaction>)
    ensures DistinctKeys(CategoryTotals(ts), EntryCategory)
  {
    var gs := CategoryGroups(ts);
    var es := CategoryTotals(ts);
    assert Distinct(KeysOf(gs));
    forall i, j | 0 <= i < j < |es| ensures EntryCategory(es[i]) != EntryCategory(es[j]) {
      assert KeysOf(gs)[i] != KeysOf(gs)[j];
    }
  }

  /** The `i`th group row holds the expense sum of its category, and that
      category has an expense row. */
  lemma {:induction false} CategoryTotalAt(ts: seq<Transaction>, i: int)
    requires 0 <= i < |CategoryTotals(ts)|
    ensures CategoryTotals(ts)[i].total == CategoryExpense(ts, CategoryTotals(ts)[i].category)
    ensures CategoryTotals(ts)[i].category in ExpenseCategories(ts)
  {
    var rows := Filter(ts, KindIs(Expense));
    var gs := CategoryGroups(ts);
    GroupByIsGrouping(rows, CategoryOf);
    var c := gs[i].key;
    assert gs[i].rows == Filter(rows, HasKey(CategoryOf, c));
    FilterBoth(ts, KindIs(Expense), HasKey(CategoryOf, c));
    var t := gs[i].rows[0];
    assert t in gs[i].rows;
    KindIsMeans(Expense);
    assert CategoryOf(t) == t.category;
  }

  /** Every category with an expense row has a group row. */
  lemma {:induction false} CategoryTotalsCover(ts: seq<Transaction>, c: string)
    requires c in ExpenseCategories(ts)
    ensures c in EntryCategories(CategoryTotals(ts))
  {
    var rows := Filter(ts, KindIs(Expense));
    var gs := CategoryGroups(ts);
    var es := CategoryTotals(ts);
    var t :| t in ts && t.kind == Expense && t.category == c;
    KindIsMeans(Expense);
    assert t in rows;
    GroupByIsGrouping(rows, CategoryOf);
    assert CategoryOf(t) in KeysOf(gs);
    var i :| 0 <= i < |gs| && KeysOf(gs)[i] == CategoryOf(t);
    assert es[i] in es;
  }

  /** One entry per category that has an expense and none for any other
      category; each entry's total is that category's expense sum. */
  lemma {:induction false} ExpensesByCategoryContents(ts: seq<Transaction>)
    ensures DistinctKeys(ExpensesByCategory(ts), EntryCategory)
    ensures forall e :: e in ExpensesByCategory(ts) ==> e.total == CategoryExpense(ts, e.category)
    ensures EntryCategories(ExpensesByCategory(ts)) == ExpenseCategories(ts)
  {
    var es := CategoryTotals(ts);
    var r := ExpensesByCategory(ts);
    CategoryTotalsDistinct(ts);
    SortDistinctKeys(es, TotalAtLeast, EntryCategory);
    forall e | e in r ensures e.total == CategoryExpense(ts, e.category) && e.category in ExpenseCategories(ts) {
      assert e in multiset(es);
      var i :| 0 <= i < |es| && es[i] == e;
      CategoryTotalAt(ts, i);
    }
    forall c | c in ExpenseCategories(ts) ensures c in EntryCategories(r) {
      CategoryTotalsCover(ts, c);
      var e :| e in es && e.category == c;
      assert e in multiset(r);
    }
  }

  /** With every amount positive, as the application's input checks make them,
      no category is listed with a zero or negative total. */
  lemma {:induction false} ExpensesByCategoryPositive(ts: seq<Transaction>)
    requires forall t :: t in ts ==> t.amount > 0
    ensures forall e :: e in ExpensesByCategory(ts) ==> e.total > 0
  {
    var rows := Filter(ts, KindIs(Expense));
    var gs := CategoryGroups(ts);
    var es := CategoryTotals(ts);
    GroupByIsGrouping(rows, CategoryOf);
    forall e | e in ExpensesByCategory(ts) ensures e.total > 0 {
      assert e in multiset(es);
      var i :| 0 <= i < |es| && es[i] == e;
      assert gs[i].rows == Filter(rows, HasKey(CategoryOf, gs[i].key));
      forall x | x in gs[i].rows ensures AmountOf(x) > 0 {
        assert x in rows;
        assert AmountOf(x) == x.amount;
      }
      SumByPositive(gs[i].rows, AmountOf);
    }
  }

  /** The per-category totals add up to the summary's total expense. */
  lemma {:induction false} ExpensesByCategoryAddsUp(ts: seq<Transaction>)
    ensures SumBy(ExpensesByCategory(ts), EntryTotal) == GetSummary(ts).expense
  {
    var rows := Filter(ts, KindIs(Expense));
    var gs := CategoryGroups(ts);
    var es := CategoryTotals(ts);
    SumBySort(es, TotalAtLeast, EntryTotal);
    forall i | 0 <= i < |es| ensures EntryTotal(es[i]) == RowsSum(AmountOf)(gs[i]) {
      assert RowsSum<Transaction, string>(AmountOf)(gs[i]) == SumBy(gs[i].rows, AmountOf);
    }
    SumByPointwise(es, gs, EntryTotal, RowsSum(AmountOf));
    GroupByPartition(rows, CategoryOf, AmountOf);
    SumByFilter(ts, KindIs(Expense), AmountOf);
    assert CaseAmount(Expense) == Masked(AmountOf, KindIs(Expense));
  }

  // --------------------------------------------------- get_monthly_summary

  /** One row of the monthly query: a `YYYY-MM` key and two CASE sums. */
  datatype MonthTotal = MonthTotal(month: string, income: int, expense: int)

  function EntryMonth(e: MonthTotal): string { e.month }
  function EntryIncome(e: MonthTotal): int { e.income }
  function EntryExpense(e: MonthTotal): int { e.expense }

  /** `substr(date, 1, 7) AS month`. */
  function MonthKey(t: Transaction): (m: string)
    ensures |m| <= 7 && m <= t.date
    ensures |t.date| >= 7 ==> |m| == 7
    ensures |t.date| < 7 ==> m == t.date
  {
    MonthOf(t.date)
  }

  /** `GROUP BY month`, over every row whatever its type. */
  function MonthGroups(ts: seq<Transaction>): seq<Group<Transaction, string>> {
    GroupBy(ts, MonthKey)
  }

  /** The group rows before ORDER BY, each with its two CASE sums. */
  function MonthTotals(ts: seq<Transaction>): seq<MonthTotal> {
    var gs := MonthGroups(ts);
    seq(|gs|, i requires 0 <= i < |gs| =>
      MonthTotal(gs[i].key, SumBy(gs[i].rows, CaseAmount(Income)), SumBy(gs[i].rows, CaseAmount(Expense))))
  }

  /** `a` may come before `b` under ORDER BY month. */
  predicate MonthFirst(a: MonthTotal, b: MonthTotal) {
    LexLe(a.month, b.month)
  }

  lemma {:induction false} MonthFirstTotalPreorder()
    ensures TotalPreorder(MonthFirst)
  {
    forall x: MonthTotal, y: MonthTotal ensures MonthFirst(x, y) || MonthFirst(y, x) {
      LexLeTotal(x.month, y.month);
    }
    forall x: MonthTotal, y: MonthTotal, z: MonthTotal | MonthFirst(x, y) && MonthFirst(y, z)
      ensures MonthFirst(x, z)
    {
      LexLeTransitive(x.month, y.month, z.month);
    }
  }

  /** get_monthly_summary: income and expense per month, months ascending. */
  function MonthlySummary(ts: seq<Transaction>): (r: seq<MonthTotal>)
    ensures multiset(r) == multiset(MonthTotals(ts))
    ensures SortedBy(r, MonthFirst)
  {
    MonthFirstTotalPreorder();
    Sort(MonthTotals(ts), MonthFirst)
  }

  /** The amounts of type `kind` in month `m`, summed with a WHERE clause over
      the whole table. */
  function MonthKindTotal(ts: seq<Transaction>, m: string, kind: string): int {
    SumBy(Filter(ts, Both(HasKey(MonthKey, m), KindIs(kind))), AmountOf)
  }

  function TransactionMonths(ts: seq<Transaction>): set<string> {
    set t | t in ts :: MonthOf(t.date)
  }

  function EntryMonths(es: seq<MonthTotal>): set<string> {
    set e | e in es :: e.month
  }

  lemma {:induction false} MonthTotalsDistinct(ts: seq<Transaction>)
    ensures DistinctKeys(MonthTotals(ts), EntryMonth)
  {
    var gs := MonthGroups(ts);
    var es := MonthTotals(ts);
    assert Distinct(KeysOf(gs));
    forall i, j | 0 <= i < j < |es| ensures EntryMonth(es[i]) != EntryMonth(es[j]) {
      assert KeysOf(gs)[i] != KeysOf(gs)[j];
    }
  }

  /** A CASE sum over one month's rows is the WHERE-filtered sum of the rows of
      that month and type: rows of any other type add nothing. */
  lemma {:induction false} MonthCaseSum(ts: seq<Transaction>, g: Group<Transaction, string>, kind: string)
    requires g.rows == Filter(ts, HasKey(MonthKey, g.key))
    ensures SumBy(g.rows, CaseAmount(kind)) == MonthKindTotal(ts, g.key, kind)
  {
    SumByFilter(g.rows, KindIs(kind), AmountOf);
    assert CaseAmount(kind) == Masked(AmountOf, KindIs(kind));
    FilterBoth(ts, HasKey(MonthKey, g.key), KindIs(kind));
  }

  lemma {:induction false} MonthTotalAt(ts: seq<Transaction>, i: int)
    requires 0 <= i < |MonthTotals(ts)|
    ensures MonthTotals(ts)[i].income == MonthKindTotal(ts, MonthTotals(ts)[i].month, Income)
    ensures MonthTotals(ts)[i].expense == MonthKindTotal(ts, MonthTotals(ts)[i].month, Expense)
    ensures MonthTotals(ts)[i].month in TransactionMonths(ts)
  {
    var gs := MonthGroups(ts);
    GroupByIsGrouping(ts, MonthKey);
    assert gs[i].rows == Filter(ts, HasKey(MonthKey, gs[i].key));
    MonthCaseSum(ts, gs[i], Income);
    MonthCaseSum(ts, gs[i], Expense);
    var t := gs[i].rows[0];
    assert t in gs[i].rows;
    assert MonthKey(t) == MonthOf(t.date);
  }

  lemma {:induction false} MonthTotalsCover(ts: seq<Transaction>, m: string)
    requires m in TransactionMonths(ts)
    ensures m in EntryMonths(MonthTotals(ts))
  {
    var gs := MonthGroups(ts);
    var es := MonthTotals(ts);
    var t :| t in ts && MonthOf(t.date) == m;
    GroupByIsGrouping(ts, MonthKey);
    assert MonthKey(t) in KeysOf(gs);
    var i :| 0 <= i < |gs| && KeysOf(gs)[i] == MonthKey(t);
    assert es[i] in es;
  }

  /** Months come in strictly ascending order: ORDER BY month, with no month
      twice. */
  lemma {:induction false} MonthlySummaryAscending(ts: seq<Transaction>)
    ensures forall i, j :: 0 <= i < j < |MonthlySummary(ts)| ==>
      LexLt(MonthlySummary(ts)[i].month, MonthlySummary(ts)[j].month)
  {
    var r := MonthlySummary(ts);
    MonthTotalsDistinct(ts);
    SortDistinctKeys(MonthTotals(ts), MonthFirst, EntryMonth);
    forall i, j | 0 <= i < j < |r| ensures LexLt(r[i].month, r[j].month) {
      assert MonthFirst(r[i], r[j]);
      assert EntryMonth(r[i]) != EntryMonth(r[j]);
    }
  }

  /** The listing is chronological: every date of an earlier-listed month
      sorts before every date of a later one. */
  lemma {:induction false} MonthlySummaryChronological(ts: seq<Transaction>, i: int, j: int, d: string, e: string)
    requires 0 <= i < j < |MonthlySummary(ts)|
    requires MonthOf(d) == MonthlySummary(ts)[i].month
    requires MonthOf(e) == MonthlySummary(ts)[j].month
    ensures LexLt(d, e)
  {
    var r := MonthlySummary(ts);
    MonthlySummaryAscending(ts);
    assert LexLt(r[i].month, r[j].month);
    LexLeTotal(d, e);
    if LexLe(e, d) {
      MonthOfMonotone(e, d);
      LexLeAntisymmetric(r[i].month, r[j].month);
    }
  }

  /** Each entry's totals sum only the rows of its month and type, and each
      entry's month has a row. */
  lemma {:induction false} MonthlySummaryTotals(ts: seq<Transaction>)
    ensures forall e :: e in MonthlySummary(ts) ==>
      && e.income == MonthKindTotal(ts, e.month, Income)
      && e.expense == MonthKindTotal(ts, e.month, Expense)
      && e.month in TransactionMonths(ts)
  {
    var es := MonthTotals(ts);
    forall e | e in MonthlySummary(ts)
      ensures e.income == MonthKindTotal(ts, e.month, Income)
      ensures e.expense == MonthKindTotal(ts, e.month, Expense)
      ensures e.month in TransactionMonths(ts)
    {
      assert e in multiset(es);
      var i :| 0 <= i < |es| && es[i] == e;
      MonthTotalAt(ts, i);
    }
  }

  /** One entry per month that has a row, and no other entry. */
  lemma {:induction false} MonthlySummaryMonths(ts: seq<Transaction>)
    ensures EntryMonths(MonthlySummary(ts)) == TransactionMonths(ts)
  {
    var es := MonthTotals(ts);
    var r := MonthlySummary(ts);
    MonthlySummaryTotals(ts);
    forall m | m in TransactionMonths(ts) ensures m in EntryMonths(r) {
      MonthTotalsCover(ts, m);
      var e :| e in es && e.month == m;
      assert e in multiset(r);
    }
  }

  /** Summed over the months, the monthly totals are the summary's totals. */
  lemma {:induction false} MonthlySummaryAddsUp(ts: seq<Transaction>)
    ensures SumBy(MonthlySummary(ts), EntryIncome) == GetSummary(ts).income
    ensures SumBy(MonthlySummary(ts), EntryExpense) == GetSummary(ts).expense
  {
    var gs := MonthGroups(ts);
    var es := MonthTotals(ts);
    SumBySort(es, MonthFirst, EntryIncome);
    SumBySort(es, MonthFirst, EntryExpense);
    forall i | 0 <= i < |es|
      ensures EntryIncome(es[i]) == RowsSum(CaseAmount(Income))(gs[i])
      ensures EntryExpense(es[i]) == RowsSum(CaseAmount(Expense))(gs[i])
    {
      assert RowsSum<Transaction, string>(CaseAmount(Income))(gs[i]) == SumBy(gs[i].rows, CaseAmount(Income));
      assert RowsSum<Transaction, string>(CaseAmount(Expense))(gs[i]) == SumBy(gs[i].rows, CaseAmount(Expense));
    }
    SumByPointwise(es, gs, EntryIncome, RowsSum(CaseAmount(Income)));
    SumByPointwise(es, gs, EntryExpense, RowsSum(CaseAmount(Expense)));
    GroupByPartition(ts, MonthKey, CaseAmount(Income));
    GroupByPartition(ts, MonthKey, CaseAmount(Expense));
  }

  // ---------------------------------------------------- get_all_categories

  function TransactionCategories(ts: seq<Transaction>): seq<string> {
    seq(|ts|, i requires 0 <= i < |ts| => ts[i].category)
  }

  function BudgetCategories(bs: seq<Budget>): seq<string> {
    seq(|bs|, i requires 0 <= i < |bs| => bs[i].category)
  }

  /** Python's `if c`: the empty string is falsy. */
  predicate NonEmpty(c: string) {
    c != ""
  }

  /** `sorted(..., key=lambda s: s.lower())`: compare the lower-cased keys. */
  predicate CaseInsensitiveLe(a: string, b: string)
    ensures Lower(a) == Lower(b) ==> CaseInsensitiveLe(a, b)
  {
    LexLeReflexive(Lower(a));
    LexLe(Lower(a), Lower(b))
  }

  lemma {:induction false} CaseInsensitiveTotalPreorder()
    ensures TotalPreorder(CaseInsensitiveLe)
  {
    forall x: string, y: string ensures CaseInsensitiveLe(x, y) || CaseInsensitiveLe(y, x) {
      LexLeTotal(Lower(x), Lower(y));
    }
    forall x: string, y: string, z: string | CaseInsensitiveLe(x, y) && CaseInsensitiveLe(y, z)
      ensures CaseInsensitiveLe(x, z)
    {
      LexLeTransitive(Lower(x), Lower(y), Lower(z));
    }
  }

  /** The union of both tables' categories without the empty one, each once. */
  function CategoryPool(ts: seq<Transaction>, bs: seq<Budget>): seq<string> {
    Dedup(Filter(TransactionCategories(ts) + BudgetCategories(bs), NonEmpty))
  }

  /** get_all_categories: no duplicates, sorted by the lower-cased name;
      names that lower-case alike may come in any order. */
  function AllCategories(ts: seq<Transaction>, bs: seq<Budget>): (r: seq<string>)
    ensures multiset(r) == multiset(CategoryPool(ts, bs))
    ensures Distinct(r)
    ensures SortedBy(r, CaseInsensitiveLe)
  {
    var pool := CategoryPool(ts, bs);
    CaseInsensitiveTotalPreorder();
    DistinctAsKeys(pool);
    SortDistinctKeys(pool, CaseInsensitiveLe, Itself);
    DistinctAsKeys(Sort(pool, CaseInsensitiveLe));
    Sort(pool, CaseInsensitiveLe)
  }

  lemma {:induction false} CategoryPoolMembers(ts: seq<Transaction>, bs: seq<Budget>)
    ensures forall c :: c in CategoryPool(ts, bs) <==>
      c in TransactionCategories(ts) + BudgetCategories(bs) && c != ""
  {
    var all := TransactionCategories(ts) + BudgetCategories(bs);
    forall c ensures c in CategoryPool(ts, bs) <==> c in all && c != "" {
      assert c in Filter(all, NonEmpty) <==> c in all && NonEmpty(c);
    }
  }

  lemma {:induction false} TableCategories(ts: seq<Transaction>, bs: seq<Budget>)
    ensures (set c | c in TransactionCategories(ts) + BudgetCategories(bs))
         == (set t | t in ts :: t.category) + (set b | b in bs :: b.category)
  {
    var all := TransactionCategories(ts) + BudgetCategories(bs);
    forall c | c in all ensures c in (set t | t in ts :: t.category) + (set b | b in bs :: b.category) {
      var i :| 0 <= i < |all| && all[i] == c;
      if i < |ts| {
        assert ts[i] in ts;
      } else {
        assert bs[i - |ts|] in bs;
      }
    }
    forall t | t in ts ensures t.category in all {
      var i :| 0 <= i < |ts| && ts[i] == t;
      assert all[i] == t.category;
    }
    forall b | b in bs ensures b.category in all {
      var i :| 0 <= i < |bs| && bs[i] == b;
      assert all[|ts| + i] == b.category;
    }
  }

  /** Its members are exactly the non-empty categories found in either
      table. */
  lemma {:induction false} AllCategoriesMembers(ts: seq<Transaction>, bs: seq<Budget>)
    ensures (set c | c in AllCategories(ts, bs))
         == ((set t | t in ts :: t.category) + (set b | b in bs :: b.category)) - {""}
  {
    var r := AllCategories(ts, bs);
    var pool := CategoryPool(ts, bs);
    forall c ensures c in r <==> c in pool {
      assert c in multiset(r) <==> c in multiset(pool);
    }
    CategoryPoolMembers(ts, bs);
    TableCategories(ts, bs);
  }
}
