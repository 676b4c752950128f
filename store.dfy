/** The tables the server actions read and write, held in memory: users
    (looked up by their external sign-in id), accounts, transactions and
    one budget per user. Amounts are fixed-point decimals counted in cents;
    dates are instants in milliseconds. */
module Store {
  import opened Common
  import opened Seqs

  type UserId = nat
  type AccountId = nat
  type Cents = int

  const MsPerDay: int := 86_400_000

  datatype User = User(id: UserId, clerkUserId: string)

  datatype AccountType = Current | Savings
  datatype TransactionType = Income | Expense
  datatype RecurringInterval = Daily | Weekly | Monthly | Yearly

  /** An account row. `Money` is `Cents` for a stored row (a Decimal column)
      and `real` for the plain number handed to the page. */
  datatype Account<Money> = Account(
    id: AccountId,
    userId: UserId,
    name: string,
    kind: AccountType,
    balance: Money,
    isDefault: bool,
    createdAt: int)

  datatype Transaction<Money> = Transaction(
    id: nat,
    userId: UserId,
    accountId: AccountId,
    kind: TransactionType,
    amount: Money,
    description: string,
    category: string,
    date: int,
    isRecurring: bool,
    recurringInterval: Option<RecurringInterval>)

  datatype Budget<Money> = Budget(id: nat, userId: UserId, amount: Money)

  /** `Number(decimal)` / `decimal.toNumber()`, taken as exact. */
  function ToNumber(c: Cents): (r: real)
    ensures r * 100.0 == c as real
    ensures (r < 0.0) == (c < 0)
  {
    c as real / 100.0
  }

  /** The identity check `if (!userId)` passes: a sign-in id is present and
      is not the empty string. */
  predicate SignedIn(identity: Option<string>)
  {
    identity.Some? && identity.value != ""
  }

  /** `auth()` followed by `db.user.findUnique({ where: { clerkUserId } })`:
      the signed-in user, or the message every action reports. */
  function FindUser(users: map<string, User>, identity: Option<string>): (r: Response<User>)
    ensures !SignedIn(identity) ==> r == Err("Unauthorized")
    ensures SignedIn(identity) && identity.value !in users ==> r == Err("User not found")
    ensures SignedIn(identity) && identity.value in users ==> r == Ok(users[identity.value])
  {
    match identity
    case None => Err("Unauthorized")
    case Some(clerkUserId) =>
      if clerkUserId == "" then Err("Unauthorized")
      else if clerkUserId in users then Ok(users[clerkUserId]) else Err("User not found")
  }

  /** `db.account.findMany({ where: { userId } })`. */
  function OwnedAccounts(accounts: seq<Account<Cents>>, userId: UserId): (r: seq<Account<Cents>>)
    ensures forall i :: 0 <= i < |r| ==> r[i].userId == userId
    ensures forall a :: multiset(r)[a] == if a.userId == userId then multiset(accounts)[a] else 0
  {
    Filter(accounts, (a: Account<Cents>) => a.userId == userId)
  }

  /** The user's account list is empty exactly when no row belongs to the user. */
  lemma OwnedEmptyIff(accounts: seq<Account<Cents>>, userId: UserId)
    ensures OwnedAccounts(accounts, userId) == []
        <==> forall i :: 0 <= i < |accounts| ==> accounts[i].userId != userId
  {
    var r := OwnedAccounts(accounts, userId);
    if r == [] {
      forall i | 0 <= i < |accounts| ensures accounts[i].userId != userId {
        assert multiset(accounts)[accounts[i]] > 0;
      }
    } else {
      assert multiset(r)[r[0]] > 0;
      assert r[0] in multiset(accounts);
      var i :| 0 <= i < |accounts| && accounts[i] == r[0];
    }
  }

  /** How many of `userId`'s accounts are marked default. */
  function DefaultCount(accounts: seq<Account<Cents>>, userId: UserId): nat
  {
    if accounts == [] then 0
    else
      (if accounts[0].userId == userId && accounts[0].isDefault then 1 else 0)
      + DefaultCount(accounts[1..], userId)
  }

  /** The single-default rule: a user with accounts has exactly one default
      account, a user without accounts has none. */
  ghost predicate SingleDefault(accounts: seq<Account<Cents>>)
  {
    forall u :: DefaultCount(accounts, u) == if OwnedAccounts(accounts, u) == [] then 0 else 1
  }

  /** `db.account.findUnique({ where: { id } })`: the first row with that id. */
  function FindAccount(accounts: seq<Account<Cents>>, id: AccountId): (r: Option<Account<Cents>>)
    ensures r.Some? ==> r.value in accounts && r.value.id == id
    ensures r.None? <==> forall i :: 0 <= i < |accounts| ==> accounts[i].id != id
  {
    if accounts == [] then None
    else if accounts[0].id == id then Some(accounts[0])
    else FindAccount(accounts[1..], id)
  }

  ghost predicate DistinctIds(accounts: seq<Account<Cents>>)
  {
    forall i, j :: 0 <= i < j < |accounts| ==> accounts[i].id != accounts[j].id
  }

  /** With unique ids the lookup finds the one row that carries the id. */
  lemma {:induction false} FindAccountUnique(accounts: seq<Account<Cents>>, i: nat)
    requires DistinctIds(accounts)
    requires i < |accounts|
    ensures FindAccount(accounts, accounts[i].id) == Some(accounts[i])
  {
    if i > 0 {
      assert accounts[0].id != accounts[i].id;
      assert accounts[1..][i - 1] == accounts[i];
      FindAccountUnique(accounts[1..], i - 1);
    }
  }

  /** The budget table keyed by its unique `userId` column: each row sits
      under its own owner's id. */
  ghost predicate BudgetsKeyed(budgets: map<UserId, Budget<Cents>>)
  {
    forall u :: u in budgets ==> budgets[u].userId == u
  }

  /** The database. The actions change `accounts` and `budgets` in place;
      `users` and `transactions` are only read here. The id counters stand for
      the ids the database generates for new rows. */
  class Database {
    var users: map<string, User>
    var accounts: seq<Account<Cents>>
    var transactions: seq<Transaction<Cents>>
    var budgets: map<UserId, Budget<Cents>>
    var nextAccountId: AccountId
    var nextBudgetId: nat

    ghost predicate Valid()
      reads this
    {
      && (forall k :: k in users ==> users[k].clerkUserId == k)
      && (forall i :: 0 <= i < |accounts| ==> accounts[i].id < nextAccountId)
      && DistinctIds(accounts)
      && SingleDefault(accounts)
      && BudgetsKeyed(budgets)
      && (forall u :: u in budgets ==> budgets[u].id < nextBudgetId)
    }

    /** A database with the given users and transactions and no accounts or budgets. */
    constructor (users: map<string, User>, transactions: seq<Transaction<Cents>>)
      requires forall k :: k in users ==> users[k].clerkUserId == k
      ensures Valid()
      ensures this.users == users && this.transactions == transactions
      ensures accounts == [] && budgets == map[] && nextAccountId == 0 && nextBudgetId == 0
    {
      this.users := users;
      this.transactions := transactions;
      accounts := [];
      budgets := map[];
      nextAccountId := 0;
      nextBudgetId := 0;
    }
  }
}
