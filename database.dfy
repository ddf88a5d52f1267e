/** The store itself: the two tables and their AUTOINCREMENT counters, changed
    in place by the four writing operations of `Database`. */
module FinanceDatabase {
  import opened Relational
  import opened Records

  /** The largest rowid SQLite hands out (2^63 - 1). */
  const MaxRowId: int := 0x7fff_ffff_ffff_ffff

  /** How an INSERT ends: done, or SQLITE_FULL once the AUTOINCREMENT counter
      has reached the largest rowid (the statement then changes nothing). */
  datatype Status = Done | Full

  class Database {
    /** The rows of `transactions` and `budgets`, oldest rowid first. */
    var transactions: seq<Transaction>
    var budgets: seq<Budget>
    /** The `sqlite_sequence` entries: the largest id each table has ever
        handed out. */
    var transactionSeq: int
    var budgetSeq: int
    /** Every id ever handed out, including those of deleted rows. */
    ghost var issuedTransactionIds: set<int>
    ghost var issuedBudgetIds: set<int>

    ghost predicate Valid()
      reads this
    {
      && 0 <= transactionSeq <= MaxRowId
      && 0 <= budgetSeq <= MaxRowId
      && (forall i :: i in issuedTransactionIds ==> 1 <= i <= transactionSeq)
      && (forall i :: i in issuedBudgetIds ==> 1 <= i <= budgetSeq)
      && (forall t :: t in transactions ==> t.id in issuedTransactionIds)
      && (forall b :: b in budgets ==> b.id in issuedBudgetIds)
      && DistinctKeys(transactions, TxId)
      && DistinctKeys(budgets, BudgetId)
      && DistinctKeys(budgets, BudgetCategory)
    }

    /** A new store: both tables exist and are empty. */
    constructor ()
      ensures Valid()
      ensures transactions == [] && budgets == []
      ensures transactionSeq == 0 && budgetSeq == 0
      ensures issuedTransactionIds == {} && issuedBudgetIds == {}
    {
      transactions := [];
      budgets := [];
      transactionSeq := 0;
      budgetSeq := 0;
      issuedTransactionIds := {};
      issuedBudgetIds := {};
    }

    /** add_transaction: INSERT one row under the next AUTOINCREMENT id. */
    method AddTransaction(date: string, kind: string, category: string, description: string, amount: int)
      returns (status: Status)
      requires Valid()
      modifies this
      ensures Valid()
      ensures old(transactionSeq) == MaxRowId ==> status == Full && unchanged(this)
      ensures old(transactionSeq) < MaxRowId ==>
        && status == Done
        && transactionSeq == old(transactionSeq) + 1
        && transactions == old(transactions) + [Transaction(transactionSeq, date, kind, category, description, amount)]
        && issuedTransactionIds == old(issuedTransactionIds) + {transactionSeq}
        && budgets == old(budgets) && budgetSeq == old(budgetSeq)
        && issuedBudgetIds == old(issuedBudgetIds)
      ensures status == Done ==>
        (forall i :: i in old(issuedTransactionIds) ==> i < transactionSeq)
    {
      if transactionSeq == MaxRowId {
        return Full;
      }
      var id := transactionSeq + 1;
      var row := Transaction(id, date, kind, category, description, amount);
      DistinctKeysAppend(transactions, row, TxId);
      transactions := transactions + [row];
      transactionSeq := id;
      issuedTransactionIds := issuedTransactionIds + {id};
      status := Done;
    }

    /** delete_transaction: DELETE FROM transactions WHERE id = ?. */
    method DeleteTransaction(id: int)
      requires Valid()
      modifies this
      ensures Valid()
      ensures transactions == DeleteWhere(old(transactions), TxId, id)
      ensures forall k :: 0 <= k < |old(transactions)| && old(transactions)[k].id == id ==>
        transactions == old(transactions)[..k] + old(transactions)[k + 1..]
      ensures (forall t :: t in old(transactions) ==> t.id != id) ==> transactions == old(transactions)
      ensures transactionSeq == old(transactionSeq) && issuedTransactionIds == old(issuedTransactionIds)
      ensures budgets == old(budgets) && budgetSeq == old(budgetSeq)
      ensures issuedBudgetIds == old(issuedBudgetIds)
    {
      var before := transactions;
      forall k | 0 <= k < |before| && before[k].id == id
        ensures DeleteWhere(before, TxId, id) == before[..k] + before[k + 1..]
      {
        DeleteWhereRemovesOne(before, TxId, id, k);
      }
      if forall t :: t in before ==> t.id != id {
        DeleteWhereAbsent(before, TxId, id);
      }
      DeleteWhereDistinctKeys(before, TxId, id, TxId);
      transactions := DeleteWhere(before, TxId, id);
    }

    /** add_budget: INSERT OR REPLACE under the next AUTOINCREMENT id; a budget
        already held for the category is deleted first. */
    method AddBudget(category: string, amount: int) returns (status: Status)
      requires Valid()
      modifies this
      ensures Valid()
      ensures old(budgetSeq) == MaxRowId ==> status == Full && unchanged(this)
      ensures old(budgetSeq) < MaxRowId ==>
        && status == Done
        && budgetSeq == old(budgetSeq) + 1
        && budgets == ReplaceBudget(old(budgets), Budget(budgetSeq, category, amount))
        && issuedBudgetIds == old(issuedBudgetIds) + {budgetSeq}
        && transactions == old(transactions) && transactionSeq == old(transactionSeq)
        && issuedTransactionIds == old(issuedTransactionIds)
      ensures status == Done ==>
        && Budget(budgetSeq, category, amount) in budgets
        && (forall b :: b in budgets && b.category == category ==> b == Budget(budgetSeq, category, amount))
        && DeleteWhere(budgets, BudgetCategory, category) == DeleteWhere(old(budgets), BudgetCategory, category)
        && (forall i :: i in old(issuedBudgetIds) ==> i < budgetSeq)
    {
      if budgetSeq == MaxRowId {
        return Full;
      }
      var id := budgetSeq + 1;
      var row := Budget(id, category, amount);
      ReplaceBudgetSpec(budgets, row);
      budgets := ReplaceBudget(budgets, row);
      budgetSeq := id;
      issuedBudgetIds := issuedBudgetIds + {id};
      status := Done;
    }

    /** delete_budget: DELETE FROM budgets WHERE id = ?. */
    method DeleteBudget(id: int)
      requires Valid()
      modifies this
      ensures Valid()
      ensures budgets == DeleteWhere(old(budgets), BudgetId, id)
      ensures forall k :: 0 <= k < |old(budgets)| && old(budgets)[k].id == id ==>
        budgets == old(budgets)[..k] + old(budgets)[k + 1..]
      ensures (forall b :: b in old(budgets) ==> b.id != id) ==> budgets == old(budgets)
      ensures budgetSeq == old(budgetSeq) && issuedBudgetIds == old(issuedBudgetIds)
      ensures transactions == old(transactions) && transactionSeq == old(transactionSeq)
      ensures issuedTransactionIds == old(issuedTransactionIds)
    {
      var before := budgets;
      forall k | 0 <= k < |before| && before[k].id == id
        ensures DeleteWhere(before, BudgetId, id) == before[..k] + before[k + 1..]
      {
        DeleteWhereRemovesOne(before, BudgetId, id, k);
      }
      if forall b :: b in before ==> b.id != id {
        DeleteWhereAbsent(before, BudgetId, id);
      }
      DeleteWhereDistinctKeys(before, BudgetId, id, BudgetId);
      DeleteWhereDistinctKeys(before, BudgetId, id, BudgetCategory);
      budgets := DeleteWhere(before, BudgetId, id);
    }
  }
}
