/** The dashboard server actions: creating an account under the
    single-default rule, and the two read projections the dashboard page
    shows (the user's accounts, newest first, and the recent transactions). */
module Dashboard {
  import opened Common
  import opened Seqs
  import opened Store

  /** The trailing window and the row limit of the recent-transactions query. */
  const RecentWindowDays: int := 30
  const RecentLimit: nat := 50

  /** The form data of a new account; `balance` is the text the user typed. */
  datatype AccountInput = AccountInput(name: string, kind: AccountType, balance: string, isDefault: bool)

  // ---------------------------------------------------------------------------
  // Serialization at the boundary
  // ---------------------------------------------------------------------------

  /** `serializeTransaction` on an account row: null stays null; the row is
      copied with its Decimal `balance` turned into a number. */
  function SerializeAccount(obj: Option<Account<Cents>>): (r: Option<Account<real>>)
    ensures r.Some? <==> obj.Some?
    ensures obj.Some? ==>
      && r.value.id == obj.value.id
      && r.value.userId == obj.value.userId
      && r.value.name == obj.value.name
      && r.value.kind == obj.value.kind
      && r.value.isDefault == obj.value.isDefault
      && r.value.createdAt == obj.value.createdAt
      && r.value.balance * 100.0 == obj.value.balance as real
  {
    match obj
    case None => None
    case Some(a) => Some(Account(a.id, a.userId, a.name, a.kind, ToNumber(a.balance), a.isDefault, a.createdAt))
  }

  /** `serializeTransaction` on a transaction row: null stays null; the row is
      copied with its Decimal `amount` turned into a number. */
  function SerializeTransaction(obj: Option<Transaction<Cents>>): (r: Option<Transaction<real>>)
    ensures r.Some? <==> obj.Some?
    ensures obj.Some? ==>
      && r.value.id == obj.value.id
      && r.value.userId == obj.value.userId
      && r.value.accountId == obj.value.accountId
      && r.value.kind == obj.value.kind
      && r.value.description == obj.value.description
      && r.value.category == obj.value.category
      && r.value.date == obj.value.date
      && r.value.isRecurring == obj.value.isRecurring
      && r.value.recurringInterval == obj.value.recurringInterval
      && r.value.amount * 100.0 == obj.value.amount as real
  {
    match obj
    case None => None
    case Some(t) =>
      Some(Transaction(t.id, t.userId, t.accountId, t.kind, ToNumber(t.amount), t.description,
                       t.category, t.date, t.isRecurring, t.recurringInterval))
  }

  // ---------------------------------------------------------------------------
  // createAccount
  // ---------------------------------------------------------------------------

  /** The default flag the new account gets: forced on for a user's first
      account, otherwise the one requested. */
  function ShouldBeDefault(accounts: seq<Account<Cents>>, userId: UserId, requested: bool): (r: bool)
    ensures r <==> (requested || forall i :: 0 <= i < |accounts| ==> accounts[i].userId != userId)
  {
    OwnedEmptyIff(accounts, userId);
    if |OwnedAccounts(accounts, userId)| == 0 then true else requested
  }

  /** `db.account.updateMany({ where: { userId, isDefault: true }, data: { isDefault: false } })`. */
  function ClearDefaults(accounts: seq<Account<Cents>>, userId: UserId): (r: seq<Account<Cents>>)
    ensures |r| == |accounts|
    ensures forall i :: 0 <= i < |accounts| ==>
      r[i] == if accounts[i].userId == userId && accounts[i].isDefault
              then accounts[i].(isDefault := false) else accounts[i]
  {
    if accounts == [] then []
    else
      var a := accounts[0];
      [if a.userId == userId && a.isDefault then a.(isDefault := false) else a]
      + ClearDefaults(accounts[1..], userId)
  }

  /** The account table after `createAccount` inserts `a`: the owner's defaults
      are cleared first when `a` is default, then `a` is appended. */
  function AccountsAfterCreate(accounts: seq<Account<Cents>>, a: Account<Cents>): seq<Account<Cents>>
  {
    (if a.isDefault then ClearDefaults(accounts, a.userId) else accounts) + [a]
  }

  /** A default new account is its owner's only default afterwards: every
      earlier default of that owner has been cleared, nothing else about the
      rows has changed, and the new row is last. */
  lemma NewDefaultIsOnlyDefault(accounts: seq<Account<Cents>>, a: Account<Cents>)
    requires a.isDefault
    ensures var r := AccountsAfterCreate(accounts, a);
      && |r| == |accounts| + 1
      && r[|accounts|] == a
      && (forall i :: 0 <= i < |accounts| && accounts[i].userId == a.userId ==>
            r[i] == accounts[i].(isDefault := false))
      && (forall i :: 0 <= i < |r| && r[i].userId == a.userId && r[i].isDefault ==> i == |accounts|)
  {
  }

  /** A non-default new account is appended and no existing row changes. */
  lemma NonDefaultOnlyAppends(accounts: seq<Account<Cents>>, a: Account<Cents>)
    requires !a.isDefault
    ensures AccountsAfterCreate(accounts, a)[..|accounts|] == accounts
    ensures |AccountsAfterCreate(accounts, a)| == |accounts| + 1
    ensures AccountsAfterCreate(accounts, a)[|accounts|] == a
  {
  }

  /** Rows of other users are never touched. */
  lemma OtherUsersUntouched(accounts: seq<Account<Cents>>, a: Account<Cents>)
    ensures forall i :: 0 <= i < |accounts| && accounts[i].userId != a.userId ==>
      AccountsAfterCreate(accounts, a)[i] == accounts[i]
  {
  }

  lemma {:induction false} DefaultCountAppend(accounts: seq<Account<Cents>>, a: Account<Cents>, u: UserId)
    ensures DefaultCount(accounts + [a], u)
         == DefaultCount(accounts, u) + (if a.userId == u && a.isDefault then 1 else 0)
  {
    if accounts != [] {
      assert (accounts + [a])[1..] == accounts[1..] + [a];
      DefaultCountAppend(accounts[1..], a, u);
    }
  }

  lemma {:induction false} DefaultCountCleared(accounts: seq<Account<Cents>>, userId: UserId, u: UserId)
    ensures DefaultCount(ClearDefaults(accounts, userId), u)
         == if u == userId then 0 else DefaultCount(accounts, u)
  {
    if accounts != [] {
      DefaultCountCleared(accounts[1..], userId, u);
    }
  }

  /** Whether `u` owns some row of `accounts`. */
  ghost predicate Owns(accounts: seq<Account<Cents>>, u: UserId)
  {
    exists i :: 0 <= i < |accounts| && accounts[i].userId == u
  }

  lemma OwnsAfterCreate(accounts: seq<Account<Cents>>, a: Account<Cents>, u: UserId)
    ensures Owns(AccountsAfterCreate(accounts, a), u) <==> Owns(accounts, u) || a.userId == u
  {
    var r := AccountsAfterCreate(accounts, a);
    assert forall i :: 0 <= i < |accounts| ==> r[i].userId == accounts[i].userId;
    assert r[|accounts|] == a;
    if Owns(r, u) && a.userId != u {
      var i :| 0 <= i < |r| && r[i].userId == u;
      assert accounts[i].userId == u;
    }
  }

  /** The default count of one user after inserting `a`. */
  lemma DefaultCountAfterCreate(accounts: seq<Account<Cents>>, a: Account<Cents>, u: UserId)
    ensures DefaultCount(AccountsAfterCreate(accounts, a), u)
         == if a.isDefault && a.userId == u then 1
            else DefaultCount(accounts, u)
  {
    var x := if a.isDefault then ClearDefaults(accounts, a.userId) else accounts;
    DefaultCountAppend(x, a, u);
    if a.isDefault {
      DefaultCountCleared(accounts, a.userId, u);
    }
  }

  /** Inserting an account keeps the single-default rule, provided the account
      is default or its owner already has one (which `ShouldBeDefault` ensures). */
  lemma CreateKeepsSingleDefault(accounts: seq<Account<Cents>>, a: Account<Cents>)
    requires SingleDefault(accounts)
    requires a.isDefault || OwnedAccounts(accounts, a.userId) != []
    ensures SingleDefault(AccountsAfterCreate(accounts, a))
  {
    var r := AccountsAfterCreate(accounts, a);
    forall u ensures DefaultCount(r, u) == if OwnedAccounts(r, u) == [] then 0 else 1 {
      assert DefaultCount(accounts, u) == if OwnedAccounts(accounts, u) == [] then 0 else 1;
      DefaultCountAfterCreate(accounts, a, u);
      OwnsAfterCreate(accounts, a, u);
      OwnedEmptyIff(accounts, u);
      OwnedEmptyIff(r, u);
      assert OwnedAccounts(accounts, u) == [] <==> !Owns(accounts, u);
      assert OwnedAccounts(r, u) == [] <==> !Owns(r, u);
    }
  }

  /** A row with a fresh id keeps the ids of the table distinct. */
  lemma CreateKeepsIdsFresh(accounts: seq<Account<Cents>>, a: Account<Cents>, nextId: AccountId)
    requires forall i :: 0 <= i < |accounts| ==> accounts[i].id < nextId
    requires DistinctIds(accounts)
    requires a.id == nextId
    ensures forall i :: 0 <= i < |AccountsAfterCreate(accounts, a)| ==>
      AccountsAfterCreate(accounts, a)[i].id < nextId + 1
    ensures DistinctIds(AccountsAfterCreate(accounts, a))
  {
    var r := AccountsAfterCreate(accounts, a);
    assert forall i :: 0 <= i < |accounts| ==> r[i].id == accounts[i].id;
    assert r[|accounts|] == a;
  }

  /** `createAccount(data)`. Identity, user and amount are checked in that
      order and each failure returns its message with no table change;
      otherwise the account is inserted under the single-default rule and
      returned serialized. `parse` is `parseFloat` (None for NaN) and `now`
      the creation time the database stamps. */
  method CreateAccount(db: Database, identity: Option<string>, data: AccountInput,
                       parse: string -> Option<Cents>, now: int)
    returns (r: Response<Account<real>>)
    requires db.Valid()
    modifies db`accounts, db`nextAccountId
    ensures db.Valid()
    ensures !SignedIn(identity) ==> r == Err("Unauthorized")
    ensures SignedIn(identity) && identity.value !in db.users ==> r == Err("User not found")
    ensures SignedIn(identity) && identity.value in db.users && parse(data.balance).None? ==>
      r == Err("Invalid amount")
    ensures r.Err? ==> db.accounts == old(db.accounts) && db.nextAccountId == old(db.nextAccountId)
    ensures r.Ok? <==> SignedIn(identity) && identity.value in db.users && parse(data.balance).Some?
    ensures r.Ok? ==>
      var user := db.users[identity.value];
      var a := Account(old(db.nextAccountId), user.id, data.name, data.kind, parse(data.balance).value,
                       ShouldBeDefault(old(db.accounts), user.id, data.isDefault), now);
      && db.accounts == AccountsAfterCreate(old(db.accounts), a)
      && db.nextAccountId == old(db.nextAccountId) + 1
      && Some(r.data) == SerializeAccount(Some(a))
  {
    var found := FindUser(db.users, identity);
    if found.Err? {
      return Err(found.error);
    }
    var user := found.data;
    var balance := parse(data.balance);
    if balance.None? {
      return Err("Invalid amount");
    }

    var existingAccounts := OwnedAccounts(db.accounts, user.id);
    var shouldBeDefault := if |existingAccounts| == 0 then true else data.isDefault;
    ghost var before := db.accounts;
    if shouldBeDefault {
      db.accounts := ClearDefaults(db.accounts, user.id);
    }
    var account := Account(db.nextAccountId, user.id, data.name, data.kind, balance.value,
                           shouldBeDefault, now);
    db.accounts := db.accounts + [account];
    assert db.accounts == AccountsAfterCreate(before, account);
    OwnedEmptyIff(before, user.id);
    CreateKeepsSingleDefault(before, account);
    CreateKeepsIdsFresh(before, account, db.nextAccountId);
    db.nextAccountId := db.nextAccountId + 1;
    r := Ok(SerializeAccount(Some(account)).value);
  }

  // ---------------------------------------------------------------------------
  // getUserAccounts
  // ---------------------------------------------------------------------------

  function CreatedAt(a: Account<Cents>): int { a.createdAt }

  /** `findMany({ where: { userId }, orderBy: { createdAt: "desc" } })`:
      exactly the user's accounts, newest first. */
  function UserAccountsNewestFirst(accounts: seq<Account<Cents>>, userId: UserId): (r: seq<Account<Cents>>)
    ensures forall a :: multiset(r)[a] == if a.userId == userId then multiset(accounts)[a] else 0
    ensures |r| == |OwnedAccounts(accounts, userId)|
    ensures forall i :: 0 <= i < |r| ==> r[i].userId == userId
    ensures SortedDesc(r, CreatedAt)
  {
    var r := SortDesc(OwnedAccounts(accounts, userId), CreatedAt);
    assert forall i :: 0 <= i < |r| ==> multiset(r)[r[i]] > 0;
    r
  }

  /** Serializing the rows keeps each row in its place, so owner and order carry over. */
  lemma SerializeAccountsInPlace(rows: seq<Account<Cents>>)
    ensures |MapNonNull(rows, SerializeAccount)| == |rows|
    ensures forall i :: 0 <= i < |rows| ==>
      && Some(MapNonNull(rows, SerializeAccount)[i]) == SerializeAccount(Some(rows[i]))
      && MapNonNull(rows, SerializeAccount)[i].userId == rows[i].userId
      && MapNonNull(rows, SerializeAccount)[i].createdAt == rows[i].createdAt
    ensures SortedDesc(rows, CreatedAt) ==>
      forall i, j :: 0 <= i < j < |rows| ==>
        MapNonNull(rows, SerializeAccount)[i].createdAt >= MapNonNull(rows, SerializeAccount)[j].createdAt
  {
    MapNonNullKeepsAll(rows, SerializeAccount);
    var out := MapNonNull(rows, SerializeAccount);
    if SortedDesc(rows, CreatedAt) {
      forall i, j | 0 <= i < j < |rows| ensures out[i].createdAt >= out[j].createdAt {
        assert CreatedAt(rows[i]) >= CreatedAt(rows[j]);
      }
    }
  }

  /** `getUserAccounts()`: the signed-in user's accounts, serialized, newest first. */
  function GetUserAccounts(db: Database, identity: Option<string>): (r: Response<seq<Account<real>>>)
    reads db
    ensures !SignedIn(identity) ==> r == Err("Unauthorized")
    ensures SignedIn(identity) && identity.value !in db.users ==> r == Err("User not found")
    ensures SignedIn(identity) && identity.value in db.users ==>
      var userId := db.users[identity.value].id;
      var rows := UserAccountsNewestFirst(db.accounts, userId);
      && r.Ok?
      && |r.data| == |OwnedAccounts(db.accounts, userId)|
      && (forall i :: 0 <= i < |r.data| ==> Some(r.data[i]) == SerializeAccount(Some(rows[i])))
      && (forall i :: 0 <= i < |r.data| ==> r.data[i].userId == userId)
      && (forall i, j :: 0 <= i < j < |r.data| ==> r.data[i].createdAt >= r.data[j].createdAt)
  {
    match FindUser(db.users, identity)
    case Err(e) => Err(e)
    case Ok(user) =>
      var rows := UserAccountsNewestFirst(db.accounts, user.id);
      SerializeAccountsInPlace(rows);
      Ok(MapNonNull(rows, SerializeAccount))
  }

  // ---------------------------------------------------------------------------
  // getDashboardData
  // ---------------------------------------------------------------------------

  function DateOf(t: Transaction<Cents>): int { t.date }

  /** "Thirty days ago", counted as thirty whole days before `now`. */
  function RecentCutoff(now: int): (r: int)
    ensures r < now
  {
    now - RecentWindowDays * MsPerDay
  }

  /** The rows of the recent-transactions query before ordering and the limit. */
  function RecentCandidates(transactions: seq<Transaction<Cents>>, userId: UserId, cutoff: int): seq<Transaction<Cents>>
  {
    Filter(transactions, (t: Transaction<Cents>) => t.userId == userId && t.date >= cutoff)
  }

  /** `findMany({ where: { userId, date: { gte: cutoff } }, orderBy: { date: 'desc' }, take: 50 })`:
      at most 50 of the user's transactions dated at or after the cutoff,
      latest first, and no row left out is later than a row returned. */
  function RecentTransactions(transactions: seq<Transaction<Cents>>, userId: UserId, cutoff: int)
    : (r: seq<Transaction<Cents>>)
    ensures |r| == Min(RecentLimit, |RecentCandidates(transactions, userId, cutoff)|)
    ensures forall i :: 0 <= i < |r| ==> r[i].userId == userId && r[i].date >= cutoff
    ensures SortedDesc(r, DateOf)
    ensures multiset(r) <= multiset(RecentCandidates(transactions, userId, cutoff))
    ensures |RecentCandidates(transactions, userId, cutoff)| <= RecentLimit ==>
      multiset(r) == multiset(RecentCandidates(transactions, userId, cutoff))
    ensures forall t, i ::
      t in multiset(RecentCandidates(transactions, userId, cutoff)) - multiset(r) && 0 <= i < |r|
      ==> t.date <= r[i].date
  {
    var candidates := RecentCandidates(transactions, userId, cutoff);
    var sorted := SortDesc(candidates, DateOf);
    TakeSortedKeepsLargest(sorted, DateOf, RecentLimit);
    var r := Take(sorted, RecentLimit);
    RecentRowsMatch(transactions, userId, cutoff, r);
    assert |candidates| <= RecentLimit ==> r == sorted;
    r
  }

  /** Rows drawn from the candidates belong to the user and lie in the window. */
  lemma RecentRowsMatch(transactions: seq<Transaction<Cents>>, userId: UserId, cutoff: int,
                        rows: seq<Transaction<Cents>>)
    requires multiset(rows) <= multiset(RecentCandidates(transactions, userId, cutoff))
    ensures forall i :: 0 <= i < |rows| ==> rows[i].userId == userId && rows[i].date >= cutoff
  {
    var candidates := RecentCandidates(transactions, userId, cutoff);
    forall i | 0 <= i < |rows| ensures rows[i].userId == userId && rows[i].date >= cutoff {
      assert rows[i] in multiset(rows);
      assert multiset(candidates)[rows[i]] > 0;
    }
  }

  /** Serializing the rows keeps each row in its place, so owner, date and order carry over. */
  lemma SerializeTransactionsInPlace(rows: seq<Transaction<Cents>>)
    ensures |MapNonNull(rows, SerializeTransaction)| == |rows|
    ensures forall i :: 0 <= i < |rows| ==>
      && Some(MapNonNull(rows, SerializeTransaction)[i]) == SerializeTransaction(Some(rows[i]))
      && MapNonNull(rows, SerializeTransaction)[i].userId == rows[i].userId
      && MapNonNull(rows, SerializeTransaction)[i].date == rows[i].date
    ensures SortedDesc(rows, DateOf) ==>
      forall i, j :: 0 <= i < j < |rows| ==>
        MapNonNull(rows, SerializeTransaction)[i].date >= MapNonNull(rows, SerializeTransaction)[j].date
  {
    MapNonNullKeepsAll(rows, SerializeTransaction);
    var out := MapNonNull(rows, SerializeTransaction);
    if SortedDesc(rows, DateOf) {
      forall i, j | 0 <= i < j < |rows| ensures out[i].date >= out[j].date {
        assert DateOf(rows[i]) >= DateOf(rows[j]);
      }
    }
  }

  /** `getDashboardData()`: the signed-in user's transactions of the last 30
      days, serialized, latest first, at most 50. */
  function GetDashboardData(db: Database, identity: Option<string>, now: int)
    : (r: Response<seq<Transaction<real>>>)
    reads db
    ensures !SignedIn(identity) ==> r == Err("Unauthorized")
    ensures SignedIn(identity) && identity.value !in db.users ==> r == Err("User not found")
    ensures SignedIn(identity) && identity.value in db.users ==>
      var userId := db.users[identity.value].id;
      var rows := RecentTransactions(db.transactions, userId, RecentCutoff(now));
      && r.Ok?
      && |r.data| <= RecentLimit
      && |r.data| == |rows|
      && (forall i :: 0 <= i < |r.data| ==> Some(r.data[i]) == SerializeTransaction(Some(rows[i])))
      && (forall i :: 0 <= i < |r.data| ==>
            r.data[i].userId == userId && r.data[i].date >= now - RecentWindowDays * MsPerDay)
      && (forall i, j :: 0 <= i < j < |r.data| ==> r.data[i].date >= r.data[j].date)
  {
    match FindUser(db.users, identity)
    case Err(e) => Err(e)
    case Ok(user) =>
      var rows := RecentTransactions(db.transactions, user.id, RecentCutoff(now));
      SerializeTransactionsInPlace(rows);
      Ok(MapNonNull(rows, SerializeTransaction))
  }
}
