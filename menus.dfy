/** The menu tables and the dispatch of src/ui/menu_manager.py. A menu is a
    Python dict from key to (label, handler), kept in insertion order; the
    handlers are the application's methods, named here by the Action they
    stand for. Dispatching a keystroke calls handlers, and what those calls
    do (they show further menus and read further keystrokes) belongs to the
    caller: the dispatch is described by the calls it makes, in order, and
    by what it returns. */
module Menus {
  import opened Common
  import opened Text

  // ---------------------------------------------------------------------
  // Insertion-ordered dictionaries

  /** A menu entry: its title and the handler it calls. */
  datatype Item<A> = Item(title: string, action: A)

  /** A dict from keys to entries, as its (key, entry) pairs in insertion order. */
  type Menu<A> = seq<(string, Item<A>)>

  function Keys<A>(m: Menu<A>): seq<string>
  {
    seq(|m|, i requires 0 <= i < |m| => m[i].0)
  }

  /** No key occurs twice, as in every dict. */
  predicate DistinctKeys<A>(m: Menu<A>)
  {
    forall i, j :: 0 <= i < j < |m| ==> m[i].0 != m[j].0
  }

  /** m[key], None when the key is absent. */
  function Lookup<A>(m: Menu<A>, key: string): Option<Item<A>>
  {
    if m == [] then None
    else if m[0].0 == key then Some(m[0].1)
    else Lookup(m[1..], key)
  }

  /** m[key] is None exactly when key is not a key of m, and otherwise the
      entry stored with key. */
  lemma {:induction false} LookupMeaning<A>(m: Menu<A>, key: string)
    ensures Lookup(m, key).None? <==> key !in Keys(m)
    ensures Lookup(m, key).Some? ==> exists i :: 0 <= i < |m| && m[i] == (key, Lookup(m, key).value)
    decreases |m|
  {
    if m != [] {
      assert Keys(m) == [m[0].0] + Keys(m[1..]);
      if m[0].0 != key {
        LookupMeaning(m[1..], key);
        if Lookup(m, key).Some? {
          var i :| 0 <= i < |m| - 1 && m[1..][i] == (key, Lookup(m, key).value);
          assert m[i + 1] == m[1..][i];
        }
      } else {
        assert m[0] == (key, Lookup(m, key).value);
      }
    }
  }

  /** m[key] = item: a present key keeps its place and takes the new entry,
      an absent one goes at the end. */
  function Put<A>(m: Menu<A>, key: string, item: Item<A>): Menu<A>
  {
    if m == [] then [(key, item)]
    else if m[0].0 == key then [(key, item)] + m[1..]
    else [m[0]] + Put(m[1..], key, item)
  }

  /** After m[key] = item, key gives item and every other key keeps its entry. */
  lemma {:induction false} PutLookup<A>(m: Menu<A>, key: string, item: Item<A>, k: string)
    ensures Lookup(Put(m, key, item), k) == if k == key then Some(item) else Lookup(m, k)
    decreases |m|
  {
    if m != [] && m[0].0 != key {
      PutLookup(m[1..], key, item, k);
      assert ([m[0]] + Put(m[1..], key, item))[1..] == Put(m[1..], key, item);
    }
  }

  /** Setting an absent key appends it at the end. */
  lemma {:induction false} PutNewKeyAppends<A>(m: Menu<A>, key: string, item: Item<A>)
    requires key !in Keys(m)
    ensures Put(m, key, item) == m + [(key, item)]
    decreases |m|
  {
    if m != [] {
      assert Keys(m) == [m[0].0] + Keys(m[1..]);
      PutNewKeyAppends(m[1..], key, item);
      assert m == [m[0]] + m[1..];
    }
  }

  /** m.update(other): the entries of other put in turn. */
  function Update<A>(m: Menu<A>, other: Menu<A>): Menu<A>
    decreases |other|
  {
    if other == [] then m else Update(Put(m, other[0].0, other[0].1), other[1..])
  }

  /** After update, a key of the other dict gives the other dict's entry and
      every other key keeps its entry. */
  lemma {:induction false} UpdateLookup<A>(m: Menu<A>, other: Menu<A>, key: string)
    requires DistinctKeys(other)
    ensures Lookup(Update(m, other), key) == if key in Keys(other) then Lookup(other, key) else Lookup(m, key)
    decreases |other|
  {
    if other != [] {
      var tail := other[1..];
      assert DistinctKeys(tail) by {
        forall i, j | 0 <= i < j < |tail| ensures tail[i].0 != tail[j].0 {
          assert tail[i] == other[i + 1] && tail[j] == other[j + 1];
        }
      }
      UpdateLookup(Put(m, other[0].0, other[0].1), tail, key);
      PutLookup(m, other[0].0, other[0].1, key);
      assert Keys(other) == [other[0].0] + Keys(tail);
      if key == other[0].0 {
        assert key !in Keys(tail) by {
          forall i | 0 <= i < |tail| ensures Keys(tail)[i] != key {
            assert tail[i] == other[i + 1];
          }
        }
      }
    }
  }

  /** Updating with keys the dict does not have appends the other dict's
      entries in their own order. */
  lemma {:induction false} UpdateNewKeysAppends<A>(m: Menu<A>, other: Menu<A>)
    requires DistinctKeys(other)
    requires forall i :: 0 <= i < |other| ==> other[i].0 !in Keys(m)
    ensures Update(m, other) == m + other
    decreases |other|
  {
    if other != [] {
      var tail := other[1..];
      var m' := Put(m, other[0].0, other[0].1);
      PutNewKeyAppends(m, other[0].0, other[0].1);
      assert Keys(m') == Keys(m) + [other[0].0];
      forall i | 0 <= i < |tail| ensures tail[i].0 !in Keys(m') {
        assert tail[i] == other[i + 1];
      }
      assert DistinctKeys(tail) by {
        forall i, j | 0 <= i < j < |tail| ensures tail[i].0 != tail[j].0 {
          assert tail[i] == other[i + 1] && tail[j] == other[j + 1];
        }
      }
      UpdateNewKeysAppends(m', tail);
      assert m + other == m' + tail;
    }
  }

  // ---------------------------------------------------------------------
  // The application's handlers and the four tables

  /** The handlers the menus call: each is a method of the application, the
      ones taking a type applied to it by a lambda. */
  datatype Action =
    | ExitApp | ShowMain | ManageTransactions | ViewReports | ManageCategories
    | AddTransaction(kind: string) | EditTransaction(kind: string) | DeleteTransaction(kind: string)
    | ViewTransactions(kind: string) | ViewBalance | DeleteAllTransactions
    | AddCategory(kind: string) | EditCategory(kind: string) | DeleteCategory(kind: string)

  function MainItems(): Menu<Action>
  {
    [("1", Item("Manage Transactions", ManageTransactions)),
     ("2", Item("View Reports", ViewReports)),
     ("3", Item("Manage Categories", ManageCategories)),
     ("4", Item("Exit", ExitApp))]
  }

  function TransactionItems(): Menu<Action>
  {
    [("1", Item("Add Expense", AddTransaction("expense"))),
     ("2", Item("Add Income", AddTransaction("income"))),
     ("3", Item("Edit Expense", EditTransaction("expense"))),
     ("4", Item("Edit Income", EditTransaction("income"))),
     ("5", Item("Delete Expense", DeleteTransaction("expense"))),
     ("6", Item("Delete Income", DeleteTransaction("income"))),
     ("7", Item("Go Back", ShowMain))]
  }

  function ReportItems(): Menu<Action>
  {
    [("1", Item("View All Expenses", ViewTransactions("expense"))),
     ("2", Item("View All Income", ViewTransactions("income"))),
     ("3", Item("View Financial Summary", ViewBalance)),
     ("4", Item("Delete All Transactions", DeleteAllTransactions)),
     ("5", Item("Go Back", ShowMain))]
  }

  function CategoryItems(): Menu<Action>
  {
    [("1", Item("Add Expense Category", AddCategory("expense"))),
     ("2", Item("Add Income Category", AddCategory("income"))),
     ("3", Item("Edit Expense Category", EditCategory("expense"))),
     ("4", Item("Edit Income Category", EditCategory("income"))),
     ("5", Item("Delete Expense Category", DeleteCategory("expense"))),
     ("6", Item("Delete Income Category", DeleteCategory("income"))),
     ("7", Item("Go Back", ShowMain))]
  }

  /** The keys are "1", "2", ... in order, as in every table of the menus. */
  predicate NumberedKeys<A>(m: Menu<A>)
  {
    |m| <= 9 && forall i :: 0 <= i < |m| ==> m[i].0 == [('1' as int + i) as char]
  }

  /** A table with numbered keys, filled into an empty dict, is itself. */
  lemma FillNumbered<A>(m: Menu<A>)
    requires NumberedKeys(m)
    ensures Update([], m) == m
  {
    forall i, j | 0 <= i < j < |m| ensures m[i].0 != m[j].0 {
      assert m[i].0[0] != m[j].0[0];
    }
    UpdateNewKeysAppends([], m);
  }

  /** Filled into an empty dict, the main table is its entries in order, with keys 1 to 4. */
  lemma InitialMainTable()
    ensures Update([], MainItems()) == MainItems() && Keys(MainItems()) == ["1", "2", "3", "4"]
  {
    FillNumbered(MainItems());
  }

  /** Filled into an empty dict, the transaction table is its entries in order, with keys 1 to 7. */
  lemma InitialTransactionTable()
    ensures Update([], TransactionItems()) == TransactionItems() && Keys(TransactionItems()) == ["1", "2", "3", "4", "5", "6", "7"]
  {
    FillNumbered(TransactionItems());
  }

  /** Filled into an empty dict, the reports table is its entries in order, with keys 1 to 5. */
  lemma InitialReportTable()
    ensures Update([], ReportItems()) == ReportItems() && Keys(ReportItems()) == ["1", "2", "3", "4", "5"]
  {
    FillNumbered(ReportItems());
  }

  /** Filled into an empty dict, the categories table is its entries in order, with keys 1 to 7. */
  lemma InitialCategoryTable()
    ensures Update([], CategoryItems()) == CategoryItems() && Keys(CategoryItems()) == ["1", "2", "3", "4", "5", "6", "7"]
  {
    FillNumbered(CategoryItems());
  }

  // ---------------------------------------------------------------------
  // Dispatch

  /** A call the dispatch makes: return_to() (the menu it was called from)
      or a handler. */
  datatype Call<A> = ReturnTo | Run(action: A)

  /** What the dispatch returns: the value of its last call, a token passed
      on unchanged, or an exception. */
  datatype Returns = LastCallValue | PassOn(token: Option<string>) | Raises(error: PyError)

  /** The calls a dispatch makes, in order, and what it returns. */
  datatype Handling<A> = Handling(calls: seq<Call<A>>, result: Returns)

  /** The tokens after which the calling menu is shown again. */
  predicate ReEntersCaller(token: Option<string>)
  {
    token == Some("manage_transactions") || token == Some("manage_categories")
  }

  class MenuManager {
    var mainMenu: Menu<Action>
    var transactionMenu: Menu<Action>
    var reportsMenu: Menu<Action>
    var categoriesMenu: Menu<Action>
    var exitHandler: Option<Action>

    /** Four empty dicts and no exit handler. */
    constructor ()
      ensures mainMenu == [] && transactionMenu == [] && reportsMenu == [] && categoriesMenu == []
      ensures exitHandler == None
    {
      mainMenu := [];
      transactionMenu := [];
      reportsMenu := [];
      categoriesMenu := [];
      exitHandler := None;
    }

    /** initialize_menus: the exit handler, then each table updated with its entries. */
    method InitializeMenus()
      modifies this
      ensures exitHandler == Some(ExitApp)
      ensures mainMenu == Update(old(mainMenu), MainItems())
      ensures transactionMenu == Update(old(transactionMenu), TransactionItems())
      ensures reportsMenu == Update(old(reportsMenu), ReportItems())
      ensures categoriesMenu == Update(old(categoriesMenu), CategoryItems())
    {
      var main, transactions, reports, categories := mainMenu, transactionMenu, reportsMenu, categoriesMenu;
      exitHandler, mainMenu, transactionMenu, reportsMenu, categoriesMenu :=
        Some(ExitApp), Update(main, MainItems()), Update(transactions, TransactionItems()),
        Update(reports, ReportItems()), Update(categories, CategoryItems());
    }

    /** The state initialize_menus leaves on a new manager (the Initial...Table lemmas). */
    predicate Initialized()
      reads this
    {
      exitHandler == Some(ExitApp) &&
      mainMenu == MainItems() && transactionMenu == TransactionItems() &&
      reportsMenu == ReportItems() && categoriesMenu == CategoryItems()
    }

    /** handle_menu_choice on the menu `items`, where `returned` is what the
        chosen handler returns when it is called. "exit" calls the exit
        handler (calling None raises TypeError); a keystroke that is not
        digits or not a key re-enters the menu; a key calls its handler, then
        re-enters the menu on a re-entering token, goes on to the main
        menu's entry "1" on "main" as written (the main menu itself as
        intended), and otherwise passes the token on. */
    function HandleMenuChoice(variant: Variant, items: Menu<Action>, choice: string, returned: Option<string>): (h: Handling<Action>)
      reads this
      ensures choice == "exit" && exitHandler.Some? ==> h == Handling([Run(exitHandler.value)], LastCallValue)
      ensures choice == "exit" && exitHandler.None? ==> h == Handling([], Raises(TypeError))
      ensures choice != "exit" && (!IsDigits(choice) || Lookup(items, choice).None?) ==> h == Handling([ReturnTo], LastCallValue)
      ensures choice != "exit" && IsDigits(choice) && Lookup(items, choice).Some? ==>
                1 <= |h.calls| <= 2 && h.calls[0] == Run(Lookup(items, choice).value.action) &&
                (ReEntersCaller(returned) ==> h == Handling([h.calls[0], ReturnTo], LastCallValue)) &&
                (!ReEntersCaller(returned) && returned != Some("main") ==> h == Handling([h.calls[0]], PassOn(returned)))
    {
      if choice == "exit" then
        match exitHandler
        case None => Handling([], Raises(TypeError))
        case Some(exit) => Handling([Run(exit)], LastCallValue)
      else if !IsDigits(choice) || Lookup(items, choice).None? then Handling([ReturnTo], LastCallValue)
      else
        var first := Run(Lookup(items, choice).value.action);
        if ReEntersCaller(returned) then Handling([first, ReturnTo], LastCallValue)
        else if returned == Some("main") then
          match variant
          case Intended => Handling([first, Run(ShowMain)], LastCallValue)
          case AsWritten =>
            match Lookup(mainMenu, "1")
            case None => Handling([first], Raises(KeyError))
            case Some(entry) => Handling([first, Run(entry.action)], LastCallValue)
        else Handling([first], PassOn(returned))
    }
  }

  /** A new manager followed by initialize_menus, as the application sets
      its menus up, is in the initialized state. */
  method SetUpMenus() returns (m: MenuManager)
    ensures fresh(m) && m.Initialized()
  {
    m := new MenuManager();
    m.InitializeMenus();
    InitialMainTable();
    InitialTransactionTable();
    InitialReportTable();
    InitialCategoryTable();
  }

  /** Once the menus are set up, "exit" calls the exit handler from any menu. */
  lemma ExitFromAnyMenu(m: MenuManager, variant: Variant, items: Menu<Action>, returned: Option<string>)
    requires m.Initialized()
    ensures m.HandleMenuChoice(variant, items, "exit", returned) == Handling([Run(ExitApp)], LastCallValue)
  {
  }

  /** As written, the token "main" leads to main_menu["1"], which is Manage
      Transactions, and not to the main menu. */
  lemma MainTokenManagesTransactions(m: MenuManager, items: Menu<Action>, choice: string)
    requires m.Initialized()
    requires IsDigits(choice) && Lookup(items, choice).Some?
    ensures m.HandleMenuChoice(AsWritten, items, choice, Some("main")).calls ==
            [Run(Lookup(items, choice).value.action), Run(ManageTransactions)]
  {
    assert IsDigit(choice[0]);
    assert !ReEntersCaller(Some("main"));
    assert Lookup(m.mainMenu, "1") == Some(Item("Manage Transactions", ManageTransactions));
  }

  /** As intended, the token "main" shows the main menu, the handler behind
      every "Go Back" entry. */
  lemma MainTokenShowsMainMenu(m: MenuManager, items: Menu<Action>, choice: string)
    requires m.Initialized()
    requires IsDigits(choice) && Lookup(items, choice).Some?
    ensures m.HandleMenuChoice(Intended, items, choice, Some("main")).calls ==
            [Run(Lookup(items, choice).value.action), Run(ShowMain)]
    ensures Lookup(m.transactionMenu, "7") == Some(Item("Go Back", ShowMain))
    ensures Lookup(m.reportsMenu, "5") == Some(Item("Go Back", ShowMain))
    ensures Lookup(m.categoriesMenu, "7") == Some(Item("Go Back", ShowMain))
  {
    assert IsDigit(choice[0]);
    assert !ReEntersCaller(Some("main"));
  }

  /** The two readings differ only on the token "main". */
  lemma ReadingsDifferOnlyOnMain(m: MenuManager, items: Menu<Action>, choice: string, returned: Option<string>)
    requires returned != Some("main")
    ensures m.HandleMenuChoice(AsWritten, items, choice, returned) == m.HandleMenuChoice(Intended, items, choice, returned)
  {
  }
}
