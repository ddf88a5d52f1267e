/** The rows of the two tables and the one write that is more than a single
    INSERT or DELETE: `INSERT OR REPLACE` on the UNIQUE budget category. */
module Records {
  import opened Relational

  /** The two `type` values the queries look for. The column itself is plain
      TEXT with no CHECK constraint, so a row may hold any other string. */
  const Income: string := "Income"
  const Expense: string := "Expense"

  /** A row of `transactions`. Amounts are whole numbers of the smallest
      currency unit. */
  datatype Transaction = Transaction(
    id: int,
    date: string,
    kind: string,
    category: string,
    description: string,
    amount: int)

  /** A row of `budgets`. */
  datatype Budget = Budget(id: int, category: string, amount: int)

  function TxId(t: Transaction): int { t.id }
  function KindOf(t: Transaction): string { t.kind }
  function CategoryOf(t: Transaction): string { t.category }
  function AmountOf(t: Transaction): int { t.amount }

  function BudgetId(b: Budget): int { b.id }
  function BudgetCategory(b: Budget): string { b.category }

  /** `INSERT OR REPLACE INTO budgets (category, amount)` for the new row `b`:
      REPLACE resolves the clash on the UNIQUE category by deleting the row
      that holds it, then the new row (with its own new id) is inserted. */
  function ReplaceBudget(bs: seq<Budget>, b: Budget): (r: seq<Budget>)
    ensures forall x :: x in r <==> x == b || (x in bs && x.category != b.category)
    ensures |r| <= |bs| + 1
  {
    DeleteWhere(bs, BudgetCategory, b.category) + [b]
  }

  /** Afterwards the category is held by exactly one row, the new one; rows of
      the other categories are the same rows in the same order; the UNIQUE
      category and the primary key stay unique. */
  lemma {:induction false} ReplaceBudgetSpec(bs: seq<Budget>, b: Budget)
    requires DistinctKeys(bs, BudgetCategory)
    requires DistinctKeys(bs, BudgetId) && forall x :: x in bs ==> x.id != b.id
    ensures b in ReplaceBudget(bs, b)
    ensures forall x :: x in ReplaceBudget(bs, b) && x.category == b.category ==> x == b
    ensures DeleteWhere(ReplaceBudget(bs, b), BudgetCategory, b.category)
         == DeleteWhere(bs, BudgetCategory, b.category)
    ensures DistinctKeys(ReplaceBudget(bs, b), BudgetCategory)
    ensures DistinctKeys(ReplaceBudget(bs, b), BudgetId)
  {
    var kept := DeleteWhere(bs, BudgetCategory, b.category);
    DeleteAfterAppend(kept, b, BudgetCategory);
    DeleteWhereDistinctKeys(bs, BudgetCategory, b.category, BudgetCategory);
    DistinctKeysAppend(kept, b, BudgetCategory);
    DeleteWhereDistinctKeys(bs, BudgetCategory, b.category, BudgetId);
    DistinctKeysAppend(kept, b, BudgetId);
  }

  /** A category with no budget yet gets one more row at the end. */
  lemma {:induction false} ReplaceBudgetInserts(bs: seq<Budget>, b: Budget)
    requires forall x :: x in bs ==> x.category != b.category
    ensures ReplaceBudget(bs, b) == bs + [b]
  {
    DeleteWhereAbsent(bs, BudgetCategory, b.category);
  }

  /** A category that has a budget at position `k` loses that row, which moves
      the category to the end under its new id: it is not an in-place update. */
  lemma {:induction false} ReplaceBudgetReplaces(bs: seq<Budget>, b: Budget, k: int)
    requires DistinctKeys(bs, BudgetCategory)
    requires 0 <= k < |bs| && bs[k].category == b.category
    ensures ReplaceBudget(bs, b) == bs[..k] + bs[k + 1..] + [b]
  {
    DeleteWhereRemovesOne(bs, BudgetCategory, b.category, k);
  }

  /** Two upserts of one category leave what the second alone leaves. */
  lemma {:induction false} ReplaceBudgetTwice(bs: seq<Budget>, b1: Budget, b2: Budget)
    requires b1.category == b2.category
    ensures ReplaceBudget(ReplaceBudget(bs, b1), b2) == ReplaceBudget(bs, b2)
  {
    DeleteAfterAppend(DeleteWhere(bs, BudgetCategory, b1.category), b1, BudgetCategory);
  }
}
