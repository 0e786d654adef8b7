/** The earlier menu manager (menu_manager.py at the repository root): three
    tables and no exit handler of its own. "exit" calls whatever the current
    menu binds to key "3", and only "manage_transactions" re-enters the
    calling menu. The dicts and the shape of a dispatch are those of Menus. */
module LegacyMenus {
  import opened Common
  import opened Text
  import Menus

  /** The handlers the earlier tables bind. */
  datatype LegacyAction =
    | ExitApp | ShowMain | ManageTransactions | ViewReports
    | AddExpense | AddIncome | EditExpense | EditIncome | DeleteExpense | DeleteIncome
    | ViewExpenses | ViewIncome | ViewBalance

  function LegacyMainItems(): Menus.Menu<LegacyAction>
  {
    [("1", Menus.Item("Manage Transactions", ManageTransactions)),
     ("2", Menus.Item("View Reports", ViewReports)),
     ("3", Menus.Item("Exit", ExitApp))]
  }

  function LegacyTransactionItems(): Menus.Menu<LegacyAction>
  {
    [("1", Menus.Item("Add Expense", AddExpense)),
     ("2", Menus.Item("Add Income", AddIncome)),
     ("3", Menus.Item("Edit Expense", EditExpense)),
     ("4", Menus.Item("Edit Income", EditIncome)),
     ("5", Menus.Item("Delete Expense", DeleteExpense)),
     ("6", Menus.Item("Delete Income", DeleteIncome)),
     ("7", Menus.Item("Go Back", ShowMain))]
  }

  function LegacyReportItems(): Menus.Menu<LegacyAction>
  {
    [("1", Menus.Item("View All Expenses", ViewExpenses)),
     ("2", Menus.Item("View All Income", ViewIncome)),
     ("3", Menus.Item("View Financial Summary", ViewBalance)),
     ("4", Menus.Item("Go Back", ShowMain))]
  }

  /** Filled into an empty dict, the earlier main table is its entries in order, with keys 1 to 3. */
  lemma LegacyInitialMainTable()
    ensures Menus.Update([], LegacyMainItems()) == LegacyMainItems() && Menus.Keys(LegacyMainItems()) == ["1", "2", "3"]
  {
    Menus.FillNumbered(LegacyMainItems());
  }

  /** Filled into an empty dict, the earlier transaction table is its entries in order, with keys 1 to 7. */
  lemma LegacyInitialTransactionTable()
    ensures Menus.Update([], LegacyTransactionItems()) == LegacyTransactionItems()
    ensures Menus.Keys(LegacyTransactionItems()) == ["1", "2", "3", "4", "5", "6", "7"]
  {
    Menus.FillNumbered(LegacyTransactionItems());
  }

  /** Filled into an empty dict, the earlier reports table is its entries in order, with keys 1 to 4. */
  lemma LegacyInitialReportTable()
    ensures Menus.Update([], LegacyReportItems()) == LegacyReportItems() && Menus.Keys(LegacyReportItems()) == ["1", "2", "3", "4"]
  {
    Menus.FillNumbered(LegacyReportItems());
  }

  class LegacyMenuManager {
    var mainMenu: Menus.Menu<LegacyAction>
    var transactionMenu: Menus.Menu<LegacyAction>
    var reportsMenu: Menus.Menu<LegacyAction>

    /** Three empty dicts. */
    constructor ()
      ensures mainMenu == [] && transactionMenu == [] && reportsMenu == []
    {
      mainMenu := [];
      transactionMenu := [];
      reportsMenu := [];
    }

    /** initialize_menus: each table updated with its entries. */
    method InitializeMenus()
      modifies this
      ensures mainMenu == Menus.Update(old(mainMenu), LegacyMainItems())
      ensures transactionMenu == Menus.Update(old(transactionMenu), LegacyTransactionItems())
      ensures reportsMenu == Menus.Update(old(reportsMenu), LegacyReportItems())
    {
      mainMenu := Menus.Update(mainMenu, LegacyMainItems());
      transactionMenu := Menus.Update(transactionMenu, LegacyTransactionItems());
      reportsMenu := Menus.Update(reportsMenu, LegacyReportItems());
    }

    /** The state initialize_menus leaves on a new manager (the LegacyInitial...Table lemmas). */
    predicate Initialized()
      reads this
    {
      mainMenu == LegacyMainItems() && transactionMenu == LegacyTransactionItems() && reportsMenu == LegacyReportItems()
    }

    /** handle_menu_choice of the earlier manager: "exit" calls the current
        menu's entry "3" (KeyError when it has none); a keystroke that is not
        digits or not a key re-enters the menu; a key calls its handler, then
        re-enters the menu on "manage_transactions", goes on to the main
        menu's entry "1" on "main", and otherwise passes the token on. */
    function HandleMenuChoice(items: Menus.Menu<LegacyAction>, choice: string, returned: Option<string>): (h: Menus.Handling<LegacyAction>)
      reads this
      ensures choice == "exit" ==> h.calls == (if Menus.Lookup(items, "3").Some? then [Menus.Run(Menus.Lookup(items, "3").value.action)] else [])
      ensures choice == "exit" && Menus.Lookup(items, "3").None? ==> h.result == Menus.Raises(KeyError)
      ensures choice != "exit" && (!IsDigits(choice) || Menus.Lookup(items, choice).None?) ==> h == Menus.Handling([Menus.ReturnTo], Menus.LastCallValue)
      ensures choice != "exit" && IsDigits(choice) && Menus.Lookup(items, choice).Some? ==>
                1 <= |h.calls| <= 2 && h.calls[0] == Menus.Run(Menus.Lookup(items, choice).value.action) &&
                (returned == Some("manage_transactions") ==> h == Menus.Handling([h.calls[0], Menus.ReturnTo], Menus.LastCallValue)) &&
                (returned != Some("manage_transactions") && returned != Some("main") ==> h == Menus.Handling([h.calls[0]], Menus.PassOn(returned)))
    {
      if choice == "exit" then
        match Menus.Lookup(items, "3")
        case None => Menus.Handling([], Menus.Raises(KeyError))
        case Some(entry) => Menus.Handling([Menus.Run(entry.action)], Menus.LastCallValue)
      else if !IsDigits(choice) || Menus.Lookup(items, choice).None? then Menus.Handling([Menus.ReturnTo], Menus.LastCallValue)
      else
        var first := Menus.Run(Menus.Lookup(items, choice).value.action);
        if returned == Some("manage_transactions") then Menus.Handling([first, Menus.ReturnTo], Menus.LastCallValue)
        else if returned == Some("main") then
          match Menus.Lookup(mainMenu, "1")
          case None => Menus.Handling([first], Menus.Raises(KeyError))
          case Some(entry) => Menus.Handling([first, Menus.Run(entry.action)], Menus.LastCallValue)
        else Menus.Handling([first], Menus.PassOn(returned))
    }
  }

  /** A new manager followed by initialize_menus is in the initialized state. */
  method SetUpLegacyMenus() returns (m: LegacyMenuManager)
    ensures fresh(m) && m.Initialized()
  {
    m := new LegacyMenuManager();
    m.InitializeMenus();
    LegacyInitialMainTable();
    LegacyInitialTransactionTable();
    LegacyInitialReportTable();
  }

  /** "exit" runs the current menu's entry "3": it exits from the main menu,
      but from the transaction menu it edits an expense and from the reports
      menu it shows the financial summary. */
  lemma ExitRunsKeyThree(m: LegacyMenuManager, returned: Option<string>)
    requires m.Initialized()
    ensures m.HandleMenuChoice(m.mainMenu, "exit", returned).calls == [Menus.Run(ExitApp)]
    ensures m.HandleMenuChoice(m.transactionMenu, "exit", returned).calls == [Menus.Run(EditExpense)]
    ensures m.HandleMenuChoice(m.reportsMenu, "exit", returned).calls == [Menus.Run(ViewBalance)]
  {
  }

  /** "manage_categories" does not re-enter the earlier menus: it is passed on. */
  lemma CategoriesTokenPassesOn(m: LegacyMenuManager, items: Menus.Menu<LegacyAction>, choice: string)
    requires IsDigits(choice) && Menus.Lookup(items, choice).Some?
    ensures m.HandleMenuChoice(items, choice, Some("manage_categories")).result == Menus.PassOn(Some("manage_categories"))
  {
    assert IsDigit(choice[0]);
  }

  /** As in the later manager, "main" leads to main_menu["1"], Manage Transactions. */
  lemma LegacyMainTokenManagesTransactions(m: LegacyMenuManager, items: Menus.Menu<LegacyAction>, choice: string)
    requires m.Initialized()
    requires IsDigits(choice) && Menus.Lookup(items, choice).Some?
    ensures m.HandleMenuChoice(items, choice, Some("main")).calls ==
            [Menus.Run(Menus.Lookup(items, choice).value.action), Menus.Run(ManageTransactions)]
  {
    assert IsDigit(choice[0]);
  }
}
