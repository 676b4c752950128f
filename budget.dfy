/** The budget server actions: the budget status of one account (its balance
    and the user's total expenses on it) and the per-user budget upsert. */
module Budgets {
  import opened Common
  import opened Seqs
  import opened Store

  /** The `budget` object of the status: `{ amount }`. */
  datatype BudgetView = BudgetView(amount: real)

  /** What `getCurrentBudget` returns. */
  datatype BudgetStatus = BudgetStatus(budget: Option<BudgetView>, currentExpenses: real, accountBalance: real)

  // ---------------------------------------------------------------------------
  // getCurrentBudget
  // ---------------------------------------------------------------------------

  /** The `where` of the expense aggregate: this user's EXPENSE rows on this account. */
  function IsExpenseOn(userId: UserId, accountId: AccountId): Transaction<Cents> -> bool
  {
    (t: Transaction<Cents>) => t.userId == userId && t.kind == Expense && t.accountId == accountId
  }

  function ExpenseRows(transactions: seq<Transaction<Cents>>, userId: UserId, accountId: AccountId)
    : seq<Transaction<Cents>>
  {
    Filter(transactions, IsExpenseOn(userId, accountId))
  }

  /** The sum of the `amount` column over `rows`. */
  function Total(rows: seq<Transaction<Cents>>): int
  {
    if rows == [] then 0 else rows[0].amount + Total(rows[1..])
  }

  lemma {:induction false} TotalAppend(a: seq<Transaction<Cents>>, b: seq<Transaction<Cents>>)
    ensures Total(a + b) == Total(a) + Total(b)
  {
    if a == [] {
      assert a + b == b;
    } else {
      assert (a + b)[1..] == a[1..] + b;
      TotalAppend(a[1..], b);
    }
  }

  lemma {:induction false} TotalNonNegative(rows: seq<Transaction<Cents>>)
    requires forall i :: 0 <= i < |rows| ==> rows[i].amount >= 0
    ensures Total(rows) >= 0
  {
    if rows != [] {
      TotalNonNegative(rows[1..]);
    }
  }

  /** `_sum: { amount: true }` of the aggregate: null when no row matches. */
  function SumOfAmounts(rows: seq<Transaction<Cents>>): (r: Option<Cents>)
    ensures r.None? <==> rows == []
    ensures r.Some? ==> r.value == Total(rows)
  {
    if rows == [] then None else Some(Total(rows))
  }

  /** `currentExpenses` in cents: the absolute value of the summed amounts, or
      0 when the aggregate found no row. */
  function CurrentExpenses(transactions: seq<Transaction<Cents>>, userId: UserId, accountId: AccountId)
    : (r: Cents)
    ensures r >= 0
    ensures r == Abs(Total(ExpenseRows(transactions, userId, accountId)))
    ensures ExpenseRows(transactions, userId, accountId) == [] ==> r == 0
  {
    match SumOfAmounts(ExpenseRows(transactions, userId, accountId))
    case None => 0
    case Some(sum) => Abs(sum)
  }

  /** With amounts stored as magnitudes (never negative) the absolute value
      changes nothing: the expenses are the plain sum. */
  lemma ExpensesAreSumOfMagnitudes(transactions: seq<Transaction<Cents>>, userId: UserId, accountId: AccountId)
    requires forall i :: 0 <= i < |transactions| ==> transactions[i].amount >= 0
    ensures CurrentExpenses(transactions, userId, accountId) == Total(ExpenseRows(transactions, userId, accountId))
  {
    var rows := ExpenseRows(transactions, userId, accountId);
    forall i | 0 <= i < |rows| ensures rows[i].amount >= 0 {
      assert rows[i] in multiset(rows);
      assert rows[i] in multiset(transactions);
      var j :| 0 <= j < |transactions| && transactions[j] == rows[i];
    }
    TotalNonNegative(rows);
  }

  /** A new EXPENSE row of this user on this account adds its amount to the
      summed expenses; any other new row leaves them as they were. */
  lemma ExpensesAfterNewRow(transactions: seq<Transaction<Cents>>, t: Transaction<Cents>,
                            userId: UserId, accountId: AccountId)
    ensures Total(ExpenseRows(transactions + [t], userId, accountId))
         == Total(ExpenseRows(transactions, userId, accountId))
            + (if t.userId == userId && t.kind == Expense && t.accountId == accountId then t.amount else 0)
  {
    var p := IsExpenseOn(userId, accountId);
    FilterAppend(transactions, [t], p);
    assert [t][1..] == [];
    TotalAppend(Filter(transactions, p), Filter([t], p));
  }

  /** `getCurrentBudget(accountId)`. Identity, user and account are looked up
      in that order and each failure is thrown. The account is looked up by id
      alone, whoever owns it; its balance is reported both as the account
      balance and as the budget amount (the budget table is not read); the
      expenses count only the signed-in user's EXPENSE rows on that account. */
  function GetCurrentBudget(db: Database, identity: Option<string>, accountId: AccountId)
    : (r: Completion<BudgetStatus>)
    reads db
    ensures !SignedIn(identity) ==> r == Threw("Unauthorized")
    ensures SignedIn(identity) && identity.value !in db.users ==> r == Threw("User not found")
    ensures SignedIn(identity) && identity.value in db.users
            && (forall i :: 0 <= i < |db.accounts| ==> db.accounts[i].id != accountId)
            ==> r == Threw("Account not found")
    ensures r.Returned? ==>
      && SignedIn(identity) && identity.value in db.users
      && FindAccount(db.accounts, accountId).Some?
      && r.value.accountBalance * 100.0 == FindAccount(db.accounts, accountId).value.balance as real
      && r.value.budget == Some(BudgetView(r.value.accountBalance))
      && r.value.currentExpenses >= 0.0
      && r.value.currentExpenses * 100.0
         == CurrentExpenses(db.transactions, db.users[identity.value].id, accountId) as real
  {
    match FindUser(db.users, identity)
    case Err(e) => Threw(e)
    case Ok(user) =>
      match FindAccount(db.accounts, accountId)
      case None => Threw("Account not found")
      case Some(account) =>
        var expenses := CurrentExpenses(db.transactions, user.id, accountId);
        var accountBalance := ToNumber(account.balance);
        Returned(BudgetStatus(Some(BudgetView(accountBalance)), ToNumber(expenses), accountBalance))
  }

  /** For a signed-in user, any existing account id yields a status built from
      that account's own balance, whoever owns the account. */
  lemma StatusOfExistingAccount(db: Database, identity: Option<string>, i: nat)
    requires db.Valid()
    requires SignedIn(identity) && identity.value in db.users
    requires i < |db.accounts|
    ensures var userId := db.users[identity.value].id;
      var balance := ToNumber(db.accounts[i].balance);
      GetCurrentBudget(db, identity, db.accounts[i].id)
      == Returned(BudgetStatus(Some(BudgetView(balance)),
                               ToNumber(CurrentExpenses(db.transactions, userId, db.accounts[i].id)),
                               balance))
  {
    FindAccountUnique(db.accounts, i);
  }

  // ---------------------------------------------------------------------------
  // updateBudget
  // ---------------------------------------------------------------------------

  /** `db.budget.upsert({ where: { userId }, update: { amount }, create: { userId, amount } })`
      on the budget table and its id counter. */
  function Upsert(budgets: map<UserId, Budget<Cents>>, nextId: nat, userId: UserId, amount: Cents)
    : (r: (map<UserId, Budget<Cents>>, nat))
    requires BudgetsKeyed(budgets)
    ensures BudgetsKeyed(r.0)
    ensures userId in r.0 && r.0[userId].userId == userId && r.0[userId].amount == amount
    ensures r.0.Keys == budgets.Keys + {userId}
    ensures forall u :: u in budgets && u != userId ==> r.0[u] == budgets[u]
    ensures userId in budgets ==> r.0[userId].id == budgets[userId].id && r.1 == nextId
    ensures userId !in budgets ==> r.0[userId].id == nextId && r.1 == nextId + 1
  {
    if userId in budgets then (budgets[userId := budgets[userId].(amount := amount)], nextId)
    else (budgets[userId := Budget(nextId, userId, amount)], nextId + 1)
  }

  /** A second upsert for the same user overwrites the first: the state is
      the one a single upsert with the second amount leaves. */
  lemma UpsertLastWins(budgets: map<UserId, Budget<Cents>>, nextId: nat, userId: UserId,
                       first: Cents, second: Cents)
    requires BudgetsKeyed(budgets)
    ensures var once := Upsert(budgets, nextId, userId, first);
      Upsert(once.0, once.1, userId, second) == Upsert(budgets, nextId, userId, second)
  {
    var once := Upsert(budgets, nextId, userId, first);
    var twice := Upsert(once.0, once.1, userId, second);
    var direct := Upsert(budgets, nextId, userId, second);
    assert twice.0 == direct.0;
  }

  /** Repeating an upsert with the same amount changes nothing. */
  lemma UpsertIdempotent(budgets: map<UserId, Budget<Cents>>, nextId: nat, userId: UserId, amount: Cents)
    requires BudgetsKeyed(budgets)
    ensures var once := Upsert(budgets, nextId, userId, amount);
      Upsert(once.0, once.1, userId, amount) == once
  {
    UpsertLastWins(budgets, nextId, userId, amount, amount);
  }

  /** `{ ...budget, amount: budget.amount.toNumber() }`. */
  function SerializeBudget(b: Budget<Cents>): (r: Budget<real>)
    ensures r.id == b.id && r.userId == b.userId && r.amount * 100.0 == b.amount as real
  {
    Budget(b.id, b.userId, ToNumber(b.amount))
  }

  /** `updateBudget(amount)`. Identity and user failures come back as
      `{ success: false, error }` with no table change; otherwise the user's
      single budget row is created or overwritten and returned serialized. */
  method UpdateBudget(db: Database, identity: Option<string>, amount: Cents) returns (r: Response<Budget<real>>)
    requires db.Valid()
    modifies db`budgets, db`nextBudgetId
    ensures db.Valid()
    ensures !SignedIn(identity) ==> r == Err("Unauthorized")
    ensures SignedIn(identity) && identity.value !in db.users ==> r == Err("User not found")
    ensures r.Err? ==> db.budgets == old(db.budgets) && db.nextBudgetId == old(db.nextBudgetId)
    ensures r.Ok? <==> SignedIn(identity) && identity.value in db.users
    ensures r.Ok? ==>
      var userId := db.users[identity.value].id;
      && (db.budgets, db.nextBudgetId) == Upsert(old(db.budgets), old(db.nextBudgetId), userId, amount)
      && r.data == SerializeBudget(db.budgets[userId])
  {
    var found := FindUser(db.users, identity);
    if found.Err? {
      return Err(found.error);
    }
    var user := found.data;
    var next := Upsert(db.budgets, db.nextBudgetId, user.id, amount);
    db.budgets, db.nextBudgetId := next.0, next.1;
    r := Ok(SerializeBudget(db.budgets[user.id]));
  }
}
