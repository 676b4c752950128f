/** Callers of the actions that rely on their contracts alone. */
module Scenarios {
  import opened Common
  import opened Store
  import opened Dashboard
  import opened Budgets

  /** A user creates account A asking for no default (it is forced default,
      being the first), then account B asking for default: A is cleared and B
      is the user's only default. */
  method SecondDefaultAccountTakesOver()
  {
    var users := map["clerk-1" := User(7, "clerk-1")];
    var db := new Database(users, []);
    var parse := (s: string) => if s == "1000" then Some(100000) else None;

    var first := CreateAccount(db, Some("clerk-1"), AccountInput("A", Current, "1000", false), parse, 1);
    assert first.Ok? && first.data.isDefault;
    assert ClearDefaults([], 7) == [];
    assert db.accounts == [Account(0, 7, "A", Current, 100000, true, 1)];

    var second := CreateAccount(db, Some("clerk-1"), AccountInput("B", Savings, "1000", true), parse, 2);
    assert second.Ok?;
    assert db.accounts[0] == Account(0, 7, "A", Current, 100000, false, 1);
    assert db.accounts[1] == Account(1, 7, "B", Savings, 100000, true, 2);

    var refused := CreateAccount(db, Some("clerk-1"), AccountInput("C", Savings, "ten", true), parse, 3);
    assert refused == Err("Invalid amount") && |db.accounts| == 2;

    var stranger := CreateAccount(db, Some("clerk-2"), AccountInput("D", Savings, "1000", true), parse, 4);
    assert stranger == Err("User not found");
  }

  /** Setting the budget twice leaves one row with the latest amount. */
  method BudgetSetTwice()
  {
    var db := new Database(map["clerk-1" := User(7, "clerk-1")], []);
    var a := UpdateBudget(db, Some("clerk-1"), 50000);
    var b := UpdateBudget(db, Some("clerk-1"), 60000);
    assert b.Ok? && db.budgets.Keys == {7} && db.budgets[7] == Budget(0, 7, 60000);
    var c := UpdateBudget(db, None, 70000);
    assert c == Err("Unauthorized") && db.budgets[7].amount == 60000;
    var d := UpdateBudget(db, Some(""), 70000);
    assert d == Err("Unauthorized") && db.budgets[7].amount == 60000;
  }
}
