# Personal finance store: a Dafny model of `Database`

This project models the `Database` class of the personal finance application
(`database.py`). The class keeps two SQLite tables:

- `transactions`: each row is an id, a `YYYY-MM-DD` date, a type (`Income` or
  `Expense`), a category, a description and an amount;
- `budgets`: each row is an id, a UNIQUE category and an amount.

The model maps the source onto Dafny as follows:

- **Tables.** `FinanceDatabase.Database` keeps each table as a sequence of rows,
  oldest row first.
- **Id counters.** Each table has an AUTOINCREMENT counter, the
  `sqlite_sequence` value. It is the largest id the table has ever handed out.
  Two ghost sets track every id issued so far, including ids of deleted rows.
- **Writes.** The four writing operations are methods that change these fields
  in place:
  - `add_transaction`, `delete_transaction` and `delete_budget`;
  - `add_budget`, which is `INSERT OR REPLACE`.
- **Queries.** The six SELECT queries are functions of the table contents, in
  module `Queries`. They are built from generic relational pieces:
  - `Relational`: WHERE, DELETE, SUM, GROUP BY and DISTINCT over a sequence of
    rows;
  - `Ordering`: ORDER BY, as a sort under a total preorder, with the fact that
    a sorted permutation is unique when nothing ties;
  - `Text`: SQLite's BINARY collation, `substr(date, 1, 7)` and `str.lower()`.

The SQL and Python behaviour the model reproduces:

- **AUTOINCREMENT.** A new row gets the id `counter + 1`, so ids are never
  reused, even after a delete. At the largest rowid, 2^63 - 1, the INSERT fails
  with SQLITE_FULL and changes nothing. The model returns `Full` in that case.
- **`INSERT OR REPLACE` on the UNIQUE category.** The row already holding the
  category is deleted, and a new row with a new id is appended.
  The docstring of `add_budget` says the budget is "updated". The code instead
  replaces the row, so the budget's id changes. The model follows the code.
- **TEXT ordering.** `ORDER BY` on TEXT uses BINARY collation. Python's `<` on
  `str` gives the same order: lexicographic order on characters.
- **`substr(date, 1, 7)`.** This is the first seven characters, or the whole
  string when it is shorter.
- **NULL sums.** `SUM` over no rows is NULL, and `or 0.0` turns it into 0.
- **`get_all_categories`.** It takes the set union of both tables' categories,
  drops the empty string (Python's `if c`), and sorts by `s.lower()`.

## Model

| member | source | states |
|---|---|---|
| `FinanceDatabase.Database.constructor` | database.py:59-85 | a new store has both tables empty and both AUTOINCREMENT counters at 0 |
| `FinanceDatabase.Database.AddTransaction` | database.py:87-103 | appends exactly one row holding the given fields under id `counter + 1`, which is larger than every id issued before (deleted ones included); existing rows and the budgets table are unchanged; at the largest rowid nothing changes and `Full` is returned; primary keys stay unique |
| `FinanceDatabase.Database.DeleteTransaction` | database.py:113-117 | removes exactly the row with that id and keeps every other row in order; an id no row holds changes nothing; the budgets table and both counters are unchanged |
| `FinanceDatabase.Database.AddBudget` | database.py:119-131 | the table becomes the upsert `ReplaceBudget` of the old table with a fresh-id row; afterwards exactly one budget holds the category, with the given amount; rows of other categories are unchanged; the category and id stay unique; `Full` at the largest rowid |
| `FinanceDatabase.Database.DeleteBudget` | database.py:139-143 | removes exactly the budget with that id; a missing id is a no-op; the transactions table and both counters are unchanged; the category and id stay unique |
| `Records.ReplaceBudget` | database.py:128 | a row is in the result exactly when it is the new row or an old row of another category; the table grows by at most one row |
| `Records.ReplaceBudgetSpec` | database.py:80 | after the upsert the new row is the only one holding its category; deleting that category from the result or from the old table gives the same rows; the UNIQUE category and the primary key remain unique |
| `Records.ReplaceBudgetInserts` | database.py:119-131 | a category with no budget yet gets one more row at the end |
| `Records.ReplaceBudgetReplaces` | database.py:119-131 | an existing budget for the category is removed from its position and the new row goes last: a replacement, not an in-place update |
| `Records.ReplaceBudgetTwice` | database.py:119-131 | two upserts of one category leave the same table as the second one alone |
| `Relational.Filter` | database.py:153 | WHERE: the result holds exactly the rows satisfying the condition, and is no longer than the table |
| `Relational.DeleteWhere` | database.py:116 | DELETE ... WHERE key = v keeps exactly the rows whose key differs from v |
| `Relational.DeleteWhereRemovesOne` | database.py:116 | on a unique key, DELETE removes only the row at the position holding v and keeps the rest in order |
| `Relational.DeleteWhereAbsent` | database.py:142 | DELETE by a key value no row holds leaves the table as it was |
| `Relational.DeleteAfterAppend` | database.py:128 | deleting by the key of a just-appended row whose key no other row holds gives back the old table |
| `Relational.DeleteWhereDistinctKeys` | database.py:80 | DELETE keeps every unique column unique |
| `Relational.Dedup` | database.py:205-209 | DISTINCT: the result has no duplicates and holds exactly the values of the input |
| `Relational.GroupBy` | database.py:170 | GROUP BY yields each key value at most once |
| `Relational.GroupByIsGrouping` | database.py:170 | GROUP BY yields one non-empty group per key value present, each holding exactly the rows with that key |
| `Relational.GroupByPartition` | database.py:188-192 | summing within each group and then over the groups equals summing over all rows |
| `Relational.SumBy` | database.py:153 | SUM over the rows: 0 over no rows, and never negative when no term is negative |
| `Relational.SumByFilter` | database.py:189-190 | a SUM over the WHERE-filtered rows equals a SUM over all rows of CASE WHEN cond THEN f ELSE 0, which `Masked` defines |
| `Ordering.Sort` | database.py:109 | ORDER BY returns a permutation of its input, sorted whenever the order is a total preorder |
| `Ordering.SortedPermutationsEqual` | database.py:109 | when the order ties no two distinct rows, any two sorted permutations of a table are equal, so ORDER BY fixes the listing |
| `Ordering.SumBySort` | database.py:170 | ORDER BY leaves a SUM over the rows unchanged |
| `Ordering.SortDistinctKeys` | database.py:170 | ORDER BY keeps a unique column unique |
| `Text.LexLe` | database.py:109 | BINARY collation: a string sorts no later than any string it is a prefix of |
| `Text.LexLeFirstDifference` | database.py:136 | after a common prefix the first differing character decides the order, as memcmp does |
| `Text.LexLeTotal` | database.py:136 | BINARY collation compares every two strings |
| `Text.LexLeTransitive` | database.py:136 | BINARY collation is transitive |
| `Text.LexLeAntisymmetric` | database.py:136 | two strings that collate both ways are equal |
| `Text.MonthOf` | database.py:188 | `substr(date, 1, 7)` is a prefix of the date of length seven, or the whole date when it is shorter |
| `Text.LexLeTake` | database.py:188 | cutting two strings to their first `n` characters keeps their order |
| `Text.MonthOfMonotone` | database.py:178-180 | a date that sorts no later than another has a month key that sorts no later |
| `Text.LowerCharFacts` | database.py:211 | a lower-cased character is no ASCII capital and lower-cases to itself; a capital and its small letter lower-case alike; only capitals change |
| `Text.Lower` | database.py:211 | `s.lower()` has the length of `s` and lower-cases each character |
| `Text.LowerIdempotent` | database.py:211 | lower-casing twice equals lower-casing once, and the result has no ASCII capital |
| `Queries.NewerFirstTotalPreorder` | database.py:109 | `ORDER BY date DESC, id DESC` is a total preorder |
| `Queries.ListTransactions` | database.py:105-111 | get_transactions returns every row once, sorted by date descending and then id descending (the order `NewerFirst`: a later date first, then on the same date the larger id) |
| `Queries.NewerFirstTies` | database.py:109 | two rows the order puts both ways share date and id |
| `Queries.UniqueIdsNoTies` | database.py:66 | with unique ids, no two distinct rows tie under the order |
| `Queries.ListTransactionsDetermined` | database.py:105-111 | with unique ids, every sorted permutation of the table equals get_transactions |
| `Queries.CategoryFirstTotalPreorder` | database.py:136 | ORDER BY category is a total preorder |
| `Queries.ListBudgets` | database.py:133-137 | get_budgets returns every budget once, in ascending category order |
| `Queries.UniqueCategoriesNoTies` | database.py:80 | with unique categories, no two distinct budgets tie |
| `Queries.ListBudgetsDetermined` | database.py:133-137 | with unique categories, every sorted permutation of the budgets equals get_budgets |
| `Queries.SqlSum` | database.py:153-154 | SUM may be NULL, but after `or 0.0` (`OrZero`) it is the plain sum of the rows on every table, the empty one included |
| `Queries.TotalOfKind` | database.py:153-157 | the filtered SUM with `or 0.0` is the CASE sum of that type over all rows, and 0 when no row has that type (the helpers `KindIsMeans` and `CaseAmountMeans` unfold WHERE and CASE for the solver) |
| `Queries.GetSummary` | database.py:145-159 | income is the sum over `Income` rows and expense the sum over `Expense` rows, each 0 when no row matches; net is income minus expense; an empty store gives three zeros |
| `Queries.SummaryAfterAdd` | database.py:145-159 | adding a row moves only the total of its own type, by its amount |
| `Queries.TotalAtLeastTotalPreorder` | database.py:170 | ORDER BY SUM(amount) DESC is a total preorder |
| `Queries.ExpensesByCategory` | database.py:161-172 | get_expenses_by_category is a permutation of the per-category group rows, with totals non-increasing |
| `Queries.CategoryTotalsDistinct` | database.py:170 | the grouped rows hold each category once |
| `Queries.CategoryTotalAt` | database.py:170 | each group row's total is its category's WHERE-filtered expense sum, and the category has an expense row |
| `Queries.CategoryTotalsCover` | database.py:170 | every category with an expense row has a group row |
| `Queries.ExpensesByCategoryContents` | database.py:161-172 | there is one entry per category with an expense and none for any other category; each total is that category's expense sum |
| `Queries.ExpensesByCategoryPositive` | database.py:161-172 | when every amount is positive, as the application's input checks make it, no category is listed with a total of zero or less |
| `Relational.SumByPositive` | database.py:170 | a SUM over some rows whose every term is positive is positive |
| `Queries.ExpensesByCategoryAddsUp` | database.py:156-172 | the per-category totals add up to the summary's total expense |
| `Queries.MonthKey` | database.py:188 | `substr(date, 1, 7) AS month`: a prefix of the date, seven characters long when the date has at least seven, and the whole date when it is shorter |
| `Queries.MonthFirstTotalPreorder` | database.py:193 | ORDER BY month is a total preorder |
| `Queries.MonthlySummary` | database.py:174-196 | get_monthly_summary is a permutation of the per-month group rows, ordered by month |
| `Queries.MonthTotalsDistinct` | database.py:192 | the grouped rows hold each month once |
| `Queries.MonthCaseSum` | database.py:189-190 | a CASE sum over one month's rows equals the sum over the rows of that month and type; rows of any other type add nothing |
| `Queries.MonthTotalAt` | database.py:188-192 | each group row's income and expense are the filtered sums for its month, and the month holds a row |
| `Queries.MonthTotalsCover` | database.py:192 | every month with a row has a group row |
| `Queries.MonthlySummaryAscending` | database.py:174-196 | the months come in strictly ascending order |
| `Queries.MonthlySummaryChronological` | database.py:178-180 | the listing is chronological: every date of an earlier-listed month sorts strictly before every date of a later-listed month |
| `Queries.MonthlySummaryTotals` | database.py:174-196 | each entry's income and expense sum only the rows of its month and type |
| `Queries.MonthlySummaryMonths` | database.py:174-196 | the months listed are exactly the seven-character date prefixes in the table |
| `Queries.MonthlySummaryAddsUp` | database.py:174-196 | summed over the months, income and expense equal the summary's income and expense |
| `Queries.CaseInsensitiveLe` | database.py:211 | `key=lambda s: s.lower()`: compares lower-cased names, so names that lower-case alike tie |
| `Queries.CaseInsensitiveTotalPreorder` | database.py:211 | comparing lower-cased names is a total preorder |
| `Queries.AllCategories` | database.py:198-211 | get_all_categories has no duplicates and is sorted so that the lower-cased names are non-decreasing |
| `Queries.CategoryPoolMembers` | database.py:205-209 | the deduplicated pool holds exactly the non-empty categories of either table |
| `Queries.TableCategories` | database.py:205-208 | the categories gathered from both tables are exactly the union of their category sets |
| `Queries.AllCategoriesMembers` | database.py:198-211 | the members of get_all_categories are exactly the non-empty categories found in transactions or budgets |

## Left out

- Connection handling is not modelled: `sqlite3.connect`, `commit`, `close`, the database file name and `CREATE TABLE IF NOT EXISTS` are I/O. The model starts from an empty store, as a new database file does.
- `check_same_thread=False` and sharing one connection between threads are concurrency, which the model does not cover.
- Amounts are whole numbers, for example cents, not Python floats or SQLite REAL. Sums and `net` are exact, and floating-point rounding is not modelled.
- `FinanceDatabase.Database.AddTransaction` stores the description as a string. The column also admits NULL, which the model does not cover, because the application always passes a string.
- Arguments of the wrong Python type, for example a non-string category, are not modelled. SQLite's dynamic typing of such values is outside the model.
- `Text.Lower` lower-cases only the ASCII letters. Python's `str.lower()` also maps non-ASCII capitals, and that full Unicode case mapping is not modelled.
- `Queries.AllCategories` promises only a sort by lower-cased name. The relative order of names that lower-case alike depends on Python's set iteration order, so the contract leaves it open.
- `Queries.ExpensesByCategory` promises only non-increasing totals. The order of categories with equal totals is left to SQLite, so the contract leaves it open.
- The `get_all_categories` docstring says names are put in title case. The code does not do this, so the model does not either.
- Writes to `sqlite_sequence` from outside the class are not modelled. Rows inserted with explicit ids or by other programs are not modelled either. Only the class's own INSERTs advance the counters.
- app.py, the Tkinter user interface and its input validation, is not part of this model.
- Positive amounts are not a constraint of the store: `add_transaction` accepts any amount, and the application's input checks keep amounts positive. That is why `Queries.ExpensesByCategoryPositive` takes positive amounts as its precondition.
