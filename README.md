# Finance tracker server actions, modelled in Dafny

This project models the server actions of a personal-finance web application
that read and write the user's accounts, transactions and budget:

- `createAccount` adds an account under the single-default rule. A user's
  first account is always default. A new default account clears the owner's
  earlier defaults before it is inserted.
- `getUserAccounts` lists the signed-in user's accounts, newest first.
- `getDashboardData` lists the user's transactions of the last 30 days,
  latest first, at most 50.
- `serializeTransaction` turns the Decimal `balance`/`amount` of a row into a
  plain number at the boundary.
- `getCurrentBudget` reports an account's balance and the user's summed
  expenses on that account.
- `updateBudget` upserts the user's single budget row.

The database is an in-memory `Store.Database` class. Its table fields are
`users` (keyed by the external sign-in id), `accounts`, `transactions` and
`budgets` (keyed by user id), plus two id counters that stand for the ids the
database generates. `Database.Valid()` holds the table invariants:

- account ids are distinct;
- the single-default rule: a user with accounts has exactly one default
  account, and a user without accounts has none;
- each budget row sits under its owner's id.

`createAccount` and `updateBudget` are methods that change these fields and
keep `Valid()`. Their `ensures` tie the new tables to pure functions
(`AccountsAfterCreate`, `Upsert`), and the properties are proved as lemmas
about those functions. The read actions are functions of the database.
Amounts are integer cents (the Decimal columns). A serialized row carries the
amount as an exact `real` equal to cents / 100. Dates are instants in
milliseconds.

Inputs from outside are parameters:

- the signed-in identity (`auth()`) is an `Option<string>`;
- `parseFloat` is a `parse: string -> Option<Cents>` function, where `None`
  stands for NaN;
- the clock is a `now` argument.

Module layout: `Common` holds the result shapes. `Seqs` holds the query
primitives: filter, sort descending, take, and `map` + drop nulls. `Store`
holds the entities and the database. `Dashboard` is `actions/dashboard.js`.
`Budgets` is `actions/budget.js`. `Scenarios` holds two callers that use only
the contracts.

Behaviour of the code that the model keeps as written:

- `getCurrentBudget` never reads the budget table: it reports the account's
  balance as `budget.amount`.
- `getCurrentBudget` looks the account up by id alone. It does not check
  that the signed-in user owns the account.
- `getCurrentBudget` throws its errors; the other actions return them as
  `{ success: false, error }` or `{ error }`.
- `updateBudget` passes the amount to the database unchecked, whatever its
  sign.
- `createAccount` clears the old defaults and inserts the new row as two
  separate writes, not inside one transaction.
- Every action treats a missing identity and an empty identity string alike
  (`if (!userId)`): both give "Unauthorized".

## Model

| member | source | states |
|---|---|---|
| `Common.Abs` | actions/budget.js:43 | `Math.abs`: the result is non-negative and is the input or its negation |
| `Seqs.Filter` | actions/dashboard.js:138-144 | a `where` keeps exactly the rows satisfying the predicate, each with its full multiplicity, and only those |
| `Seqs.FilterAppend` | actions/budget.js:31-36 | filtering a concatenation is the concatenation of the filtered parts |
| `Seqs.SortDesc` | actions/dashboard.js:145-147 | `orderBy: desc` yields a permutation of the rows (same length and multiset), sorted by the key, largest first |
| `Seqs.Take` | actions/dashboard.js:148 | `take: n` yields the first min(n, length) rows |
| `Seqs.TakeSortedKeepsLargest` | actions/dashboard.js:145-148 | cutting a descending list after n rows keeps it sorted, keeps a sub-multiset, and every row left out has a key no larger than every row kept |
| `Seqs.MapNonNull` | actions/dashboard.js:102-104 | `.map(f).filter(x !== null)` never yields more rows than it is given |
| `Seqs.MapNonNullKeepsAll` | actions/dashboard.js:155-157 | when `f` maps no row to null, every row is kept, in place, as `f` of the input row |
| `Store.ToNumber` | actions/budget.js:42 | `toNumber()` of a Decimal is exact: the number times 100 is the cent amount, and the sign is kept |
| `Store.FindUser` | actions/dashboard.js:24-35 | no identity, or an empty identity string (`!userId`), gives "Unauthorized"; an identity with no user row gives "User not found"; otherwise the user row is found |
| `Store.OwnedAccounts` | actions/dashboard.js:43-47 | `findMany({ where: { userId } })` returns exactly that user's rows, each with its multiplicity |
| `Store.OwnedEmptyIff` | actions/dashboard.js:43-50 | the user's account list is empty if and only if no row of the table belongs to the user |
| `Store.FindAccount` | actions/budget.js:22-28 | the account lookup finds a row with that id, and finds none exactly when no row has that id |
| `Store.FindAccountUnique` | actions/budget.js:22-24 | with unique ids (`findUnique`), looking up a row's id yields that very row |
| `Dashboard.SerializeAccount` | actions/dashboard.js:9-15 | null maps to null; an account is copied field for field and its Decimal balance becomes the number of equal value |
| `Dashboard.SerializeTransaction` | actions/dashboard.js:9-19 | null maps to null; a transaction is copied field for field and its Decimal amount becomes the number of equal value |
| `Dashboard.ShouldBeDefault` | actions/dashboard.js:43-50 | the new account is default if and only if the user has no accounts yet or default was requested |
| `Dashboard.ClearDefaults` | actions/dashboard.js:52-60 | `updateMany` turns off `isDefault` on exactly the owner's default rows and leaves every other row as it was |
| `Dashboard.NewDefaultIsOnlyDefault` | actions/dashboard.js:51-69 | after inserting a default account, every earlier account of the owner is its old row with `isDefault` off; the new row is last; it is the owner's only default |
| `Dashboard.NonDefaultOnlyAppends` | actions/dashboard.js:50-69 | inserting a non-default account leaves every existing row unchanged and appends exactly one row |
| `Dashboard.OtherUsersUntouched` | actions/dashboard.js:52-69 | inserting an account never changes a row of another user |
| `Dashboard.DefaultCountAppend` | actions/dashboard.js:62-69 | appending a row adds one to its owner's default count if it is default, and nothing otherwise |
| `Dashboard.DefaultCountCleared` | actions/dashboard.js:52-60 | after `updateMany` the owner has no default account, and other users' default counts are unchanged |
| `Dashboard.OwnsAfterCreate` | actions/dashboard.js:62-69 | after the insert a user owns an account if and only if they owned one before or own the new row |
| `Dashboard.DefaultCountAfterCreate` | actions/dashboard.js:49-69 | after the insert the owner of a default new row has exactly one default; every other count is unchanged |
| `Dashboard.CreateKeepsSingleDefault` | actions/dashboard.js:43-69 | the insert preserves the single-default rule for every user when the row is default or its owner already has an account |
| `Dashboard.CreateKeepsIdsFresh` | actions/dashboard.js:62-69 | a row with a freshly generated id keeps account ids distinct and below the id counter |
| `Dashboard.CreateAccount` | actions/dashboard.js:22-76 | returns "Unauthorized", "User not found" or "Invalid amount", in that order, with no table change; otherwise the table becomes `AccountsAfterCreate` of the old table and the new row, whose balance is the parsed amount, whose owner is the resolved user, and whose default flag is forced on for a first account; the serialized row is returned; `Valid()` is kept |
| `Dashboard.UserAccountsNewestFirst` | actions/dashboard.js:93-96 | exactly the user's accounts (same multiset, same count), all owned by the user, ordered by `createdAt` newest first |
| `Dashboard.SerializeAccountsInPlace` | actions/dashboard.js:102-104 | serializing the list keeps its length, each row's owner and position, and the newest-first order |
| `Dashboard.GetUserAccounts` | actions/dashboard.js:78-117 | the two identity errors as `{success: false}`; otherwise as many rows as the user has accounts, each the serialization of the sorted row at its position, all owned by the user, newest first |
| `Dashboard.RecentCutoff` | actions/dashboard.js:135-136 | the start of the 30-day window lies before `now` |
| `Dashboard.RecentTransactions` | actions/dashboard.js:138-149 | at most 50 rows, exactly min(50, matching rows) of them, all the user's and dated at or after the cutoff, latest first, a sub-multiset of the matching rows (all of them when there are at most 50), and no left-out matching row is later than a returned one |
| `Dashboard.RecentRowsMatch` | actions/dashboard.js:139-144 | any rows drawn from the window query's matches belong to the user and are dated at or after the cutoff |
| `Dashboard.SerializeTransactionsInPlace` | actions/dashboard.js:155-157 | serializing the list keeps its length, each row's owner, date and position, and the latest-first order |
| `Dashboard.GetDashboardData` | actions/dashboard.js:119-170 | the two identity errors; otherwise at most 50 serialized rows, each the serialization of the recent row at its position, all the user's, dated within 30 days of `now`, latest first |
| `Budgets.TotalAppend` | actions/budget.js:31-40 | the amount sum of a concatenation is the sum of the parts' sums |
| `Budgets.TotalNonNegative` | actions/budget.js:31-43 | a sum of non-negative amounts is non-negative |
| `Budgets.SumOfAmounts` | actions/budget.js:37-43 | `_sum.amount` is null exactly when no row matches, and otherwise the sum of the matching amounts |
| `Budgets.CurrentExpenses` | actions/budget.js:31-43 | the expenses are non-negative, are the absolute value of the sum of the user's EXPENSE amounts on the account, and are 0 when no row matches |
| `Budgets.ExpensesAreSumOfMagnitudes` | actions/budget.js:31-43 | when stored amounts are non-negative magnitudes, the expenses are the plain sum |
| `Budgets.ExpensesAfterNewRow` | actions/budget.js:31-40 | a new EXPENSE row of this user on this account adds its amount to the sum; any other new row adds nothing |
| `Budgets.GetCurrentBudget` | actions/budget.js:8-54 | throws "Unauthorized", "User not found" or "Account not found" when the lookups fail; otherwise `accountBalance` is the account's stored balance, `budget.amount` equals it, and `currentExpenses` is the non-negative expense total; it changes no table |
| `Budgets.StatusOfExistingAccount` | actions/budget.js:21-48 | for a signed-in user, any existing account id, whoever owns it, yields that account's own balance as both balance and budget amount, with the user's expenses on it |
| `Budgets.Upsert` | actions/budget.js:68-79 | afterwards the user has a budget row holding the amount; other users' rows are unchanged; an existing row keeps its id; a new row takes a fresh id; the table stays keyed by owner |
| `Budgets.UpsertLastWins` | actions/budget.js:68-79 | a second upsert overwrites the first: the state equals a single upsert with the second amount |
| `Budgets.UpsertIdempotent` | actions/budget.js:68-79 | repeating an upsert with the same amount leaves the state unchanged |
| `Budgets.SerializeBudget` | actions/budget.js:84 | the returned budget copies id and owner, and its amount is the number of equal value |
| `Budgets.UpdateBudget` | actions/budget.js:56-90 | the identity errors come back as `{success: false, error}` with no table change; otherwise the budget table and id counter become `Upsert` of the old ones, and the returned row is the user's serialized budget; `Valid()` is kept |

## Left out

- Floating point: `parseFloat`, `Number()` and `toNumber()` are exact here. Amounts are integer cents. Parsing is the abstract `parse` argument, and `None` stands for NaN.
- The `...data` spread in `createAccount`: only the form fields `name`, `type`, `balance` and `isDefault` are modelled. Extra fields a caller might send are not.
- Generated ids and timestamps: uuids are counters, and `createdAt` is the `now` argument.
- "Thirty days ago" is taken as 30 × 24 hours. The code moves the local calendar date back 30 days, which differs across a daylight-saving change.
- Ties in `orderBy`: the database leaves their order open. The model keeps table order among equal keys.
- `if (obj.balance)` / `if (obj.amount)`: a Decimal value is an object and always truthy, so the conversion always happens. A stored value of 0 would skip `Number()` only if it were a plain number, and then the value would be the same anyway.
- The unreachable `if (!accounts)` and `if (!transactions)` branches: `findMany` never returns null.
- Storage failures: the `catch` branches (rethrow in `createAccount` and `getCurrentBudget`, `{success: false, error: "Failed to fetch …"}` in the read actions, `{success: false, error: message}` in `updateBudget`) are not modelled. In the model no database call fails. This also covers a database rejecting a malformed budget amount.
- Concurrency between `updateMany` and `create`, and between upserts: each action runs to completion alone.
- `revalidatePath` and `console.error`: cache invalidation and logging.
- The UI pages, the `use-fetch` hook and the job-queue client configuration: presentation and library plumbing with no table logic.
- Balance adjustment on transaction writes, chart bucketing and recurring transactions: these are not part of the two action files modelled here.
