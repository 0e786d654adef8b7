# Personal Finance Tracker — a Dafny model of its core

The tracker is a terminal budget book. Transactions are kept in a JSON list of records. Each record has:

- an `id`, a `date`, an `amount`, a `category` and `remarks`;
- an optional `type`, `"expense"` or `"income"`. A record without one counts as an expense.

Categories are kept in a JSON object that maps each type to its list of names. A menu manager dispatches numbered key presses to dialogues. Each dialogue reads typed lines, changes one of the two files, and hands a navigation token (`"manage_transactions"`, `"manage_categories"`, `"main"`) back to the menu.

The repository holds two generations of this code, and both are modelled:

- the later package under `src/`;
- the earlier files at the repository root.

This model covers:

- **The transaction store** (`Transactions`, `transaction_store.dfy`):
  - the list of records as a class whose methods add, delete, update and clear it;
  - the type filter and the per-type total;
  - lemmas that ids stay strictly increasing, that a delete removes exactly the record with that id, that an update touches one record, and that totals add up over the filter.
- **The earlier store** (`LegacyTransactions`). Its records have no type. Its delete compares the stored int id with its argument as given.
- **The financial summary** (`Reports`). Income and expense totals and their difference, with an independent net-flow definition as its partner.
- **The category book and its dialogues** (`Categories`, `LegacyCategories`). Add, edit, delete and view, each as:
  - a pure function of the book and the typed lines;
  - a method of the category UI class proved equal to that function.

  Lemmas state what each dialogue does to the book, in both directions: a change is the one the typed lines ask for (one fresh name appended, one entry renamed, one entry removed), and the first acceptable lines always make that change. They also show that no dialogue creates a duplicate name.
- **The transaction dialogues** (`TransactionPrompts`, `TransactionFlows`, `LegacyTransactionFlows`). The prompt helpers are:
  - the amount prompt with its retries and its cancel;
  - the transaction id check;
  - the category picker;
  - the collection of an edit's new values;
  - the deletion confirmation.

  On top of them sit the add, edit, delete and delete-all dialogues. Each is a pure function of the store and the typed lines, and a method of the transaction UI class is proved equal to it. The lemmas cover:
  - adding appends at most one record of the dialogue's type, built from the typed amount, date, category position and remark, and an accepted amount, a date, a valid category position and a remark, each after refused lines, always add that record;
  - editing is one update of a validated record and keeps ids and types, and a valid id, choice and value after refused attempts always make that update;
  - deleting happens only after a yes, and a valid id followed by a yes always deletes that record;
  - delete-all empties the store only after two yeses.
- **The menus** (`Menus`, `LegacyMenus`). The dictionary tables are built by `initialize_menus`. The handlers sit behind each key as abstract actions. `handle_menu_choice` is a function that says which handlers it calls, in order, and what it returns for each token the called handler gives back.

Typed input is a script of lines, with `Dialog.Console` holding the lines still to be typed. A dialogue that asks for a line when the script is used up ends with `EndOfInput`; in the program this is an `EOFError`. An exception the program would raise on its own data, such as a `KeyError`, is a `Crashed` outcome or a `Failed` reply, never a precondition.

Amounts are integer cents. Where the later code has a defect, the dialogue or dispatch takes a `Variant`. `AsWritten` follows the code and `Intended` follows the evident intent, and lemmas relate the two.

## Model

| member | source | states |
|---|---|---|
| Common.PyIndexFromEnd | src/ui/category_ui.py:179 | a negative index -len..-1 names the same element as the index len higher, so -1 is the last element |
| Text.LowerMatchesLowercase | src/ui/transaction_ui.py:184 | `s.lower() == word`, for a lower-case word, holds exactly when s has the word's length and each character is the word's letter in either case |
| Text.StripMeaning | src/ui/transaction_ui.py:188 | str.strip gives the empty text exactly when the text is all white space, and otherwise text that neither starts nor ends with white space |
| Text.StripLeftMeaning | src/ui/transaction_ui.py:188 | the leading part removed by lstrip is all white space and what remains does not start with white space |
| Text.StripRightMeaning | src/ui/transaction_ui.py:188 | the trailing part removed by rstrip is all white space and what remains does not end with white space |
| Text.RemoveFirst | src/ui/transaction_ui.py:197 | replace(c, "", 1) removes one character exactly when c occurs, and otherwise leaves the text unchanged |
| Text.AmountCheckIsDecimalShape | src/ui/transaction_ui.py:197 | the check `amount.replace(".", "", 1).isdigit()` accepts exactly digits with at most one '.' and at least one digit |
| Text.AmountCentsSplit | src/ui/transaction_ui.py:203 | the stored amount in cents: whole dollars from the digits before '.', cents from the first two fraction digits |
| Text.PyInt | transaction_ui.py:201 | int() accepts nothing that is blank after stripping |
| Text.PyIntOfDigits | transaction_ui.py:201 | on a string of digits int() gives the digits' value |
| Text.PyFloatCents | transaction_ui.py:172 | float() accepts nothing that is blank after stripping |
| Text.PyIntSkipsLeadingBlank | transaction_ui.py:201 | int() of a digit string after a blank is the digits' value: the blank is stripped, not refused |
| Dialog.Console.ReadLine | src/ui/transaction_ui.py:21 | input() hands back the first pending line and drops it; with none left it gives None and reads nothing |
| Dialog.Console.Acknowledged | src/ui/transaction_ui.py:31-32 | the closing "Press Enter" reads one line and returns the token, leaving the state as it was; with no line left it ends at end of input |
| Transactions.NextId | src/models/transaction.py:27 | the new id is 1 for an empty list; with increasing ids it exceeds every id in the list |
| Transactions.FindId | src/models/transaction.py:40-43 | the loop's match is the first record with that id; no earlier record has it; None means no record has it |
| Transactions.Filter | src/models/transaction.py:51-67 | view_filtered_transactions keeps exactly the records whose type (default "expense") is the asked one, and no more records than the store has |
| Transactions.Store.constructor | src/models/transaction.py:6-16 | load_transactions: the store holds the loaded list |
| Transactions.Store.Add | src/models/transaction.py:24-35 | add_transaction appends one record with the next id and the given type; nothing else changes |
| Transactions.Store.Delete | src/models/transaction.py:38-44 | delete_transaction removes the first record whose id equals int(transaction_id) and keeps the rest in order; no match leaves the list as it was |
| Transactions.Store.Update | src/models/transaction.py:74-83 | update_transaction rewrites amount, date, category and remarks of the first record with that id, keeping its id and type |
| Transactions.Store.DeleteAll | src/models/transaction.py:46-48 | delete_all_transactions leaves an empty list |
| Transactions.AddKeepsIdsIncreasing | src/models/transaction.py:27 | appending with the next id keeps ids strictly increasing, and that id is not already in use |
| Transactions.DeleteKeepsIdsIncreasing | src/models/transaction.py:38-44 | a delete keeps ids strictly increasing |
| Transactions.DeleteIsFilterById | src/models/transaction.py:38-44 | with unique ids, deleting by id equals keeping every record whose id differs |
| Transactions.WithoutId | src/models/transaction.py:38-44 | the reference for a delete: exactly the records with another id |
| Transactions.NoIdAfterFirst | src/models/transaction.py:38-44 | in a list of increasing ids all above id, removing id changes nothing, so no record after the first match carries it |
| Transactions.UpdateTouchesOneRecord | src/models/transaction.py:74-83 | an update keeps the length and every id and type, leaves records with other ids alone, gives the first match the new fields, and changes nothing when no record matches |
| Transactions.IdReusedAfterDeletingLast | src/models/transaction.py:27 | in a two-record store, deleting the last record and adding again gives the deleted id back |
| Transactions.FilterIsSubsequence | src/models/transaction.py:58 | the filtered list is an order-preserving sublist of the store |
| Transactions.FilterAppend | src/models/transaction.py:58 | filtering after an append adds the new record exactly when its type matches |
| Transactions.TotalIsSumOfFilter | src/models/transaction.py:86-90 | get_total is the sum of the amounts of the filtered list |
| Transactions.TotalAppend | src/models/transaction.py:86-90 | appending a record of the type raises its total by the amount; other types leave it |
| Transactions.TotalWithoutType | src/models/transaction.py:86-90 | a type no record has totals to 0 |
| Transactions.HasTypeIffFiltered | src/ui/display_manager.py:17-38 | show_filtered_transactions reports a record of the type exactly when the filter is non-empty |
| LegacyTransactions.FindArg | transactions.py:40-41 | the loop's match is the first record whose id equals the argument as a Python value |
| LegacyTransactions.LegacyStore.constructor | transactions.py:7-17 | load_transactions, also view_transactions' whole list (47-57) |
| LegacyTransactions.LegacyStore.Add | transactions.py:25-35 | appends one record with the next id and no type |
| LegacyTransactions.LegacyStore.Delete | transactions.py:38-44 | removes the first record whose id == the argument |
| LegacyTransactions.LegacyRecordsAreExpenses | transactions.py:27-33 | records this store adds count as expenses and join the expense filter |
| LegacyTransactions.IntArgDeletesLikeNewStore | transactions.py:38-44 | with an int argument the earlier delete equals the later one |
| LegacyTransactions.TextArgNeverDeletes | transactions.py:41 | with the typed text of an id the earlier delete never removes anything |
| Reports.NetFlowIsIncomeMinusExpenses | reports.py:9 | the signed sum over all records equals income total minus expense total |
| Reports.FinancialSummary | reports.py:5-14 | income and expenses are the sums of the filtered amounts, and the balance is income minus expenses, which is the net flow |
| Reports.SummaryAfterAdd | reports.py:5-14 | an income raises income and balance by its amount; an expense raises expenses and lowers the balance; other types change nothing |
| Reports.EmptySummary | reports.py:5-14 | an empty store summarises to zeros |
| Categories.DefaultCategories | src/ui/category_ui.py:14-15 | the file written when none exists has exactly the keys "expense" and "income", both empty |
| Categories.ValidateCategoryName | src/ui/category_ui.py:169-190 | an empty name is refused; accepted means non-empty, type present and name not listed; when adding, every unlisted name is accepted; it raises only on a missing type or a bad choice index |
| Categories.AddCategoryRun | src/ui/category_ui.py:26-56 | the add dialogue consumes a prefix of the lines, returns "manage_categories", and raises exactly when the type is missing |
| Categories.EditCategoryRun | src/ui/category_ui.py:58-98 | the edit dialogue consumes a prefix of the lines and returns "manage_categories" |
| Categories.DeleteCategoryRun | src/ui/category_ui.py:100-132 | the delete dialogue consumes a prefix of the lines, returns "manage_categories", and raises exactly when the type is missing |
| Categories.CategoryBook.constructor | src/ui/category_ui.py:13-17 | the stored object, or the default one when the file is absent |
| Categories.CategoryBook.AddCategory | src/ui/category_ui.py:26-56 | the method's outcome, new book and unread lines are those of AddCategoryRun |
| Categories.CategoryBook.EditCategory | src/ui/category_ui.py:58-98 | the method's outcome, new book and unread lines are those of EditCategoryRun |
| Categories.CategoryBook.DeleteCategory | src/ui/category_ui.py:100-132 | the method's outcome, new book and unread lines are those of DeleteCategoryRun |
| Categories.CategoryBook.ViewCategories | src/ui/category_ui.py:134-152 | a missing list raises KeyError and reads nothing; otherwise the book is unchanged and the closing line is acknowledged |
| Categories.AddStoresTypedName | src/ui/category_ui.py:40-56 | adding leaves the book alone, or the name stored is the first typed line the name check accepts (every earlier line refused), it is not "cancel", it is appended to the type's list, and the dialogue goes on to the closing line right after it |
| Categories.AddsLineAppends | src/ui/category_ui.py:40-56 | conversely, when every line before p was refused and line p is a fresh name other than "cancel", adding appends exactly line p to the type's list and reads the closing line right after it |
| Categories.AddAppendsFreshName | src/ui/category_ui.py:40-50 | adding leaves the book alone or appends one non-empty, unlisted name other than "cancel" to the type's list |
| Categories.AppendedFreshNameKeepsUnique | src/ui/category_ui.py:185 | appending a fresh name keeps every list free of duplicates |
| Categories.AddKeepsUnique | src/ui/category_ui.py:26-56 | the add dialogue never creates a duplicate name |
| Categories.EditIntendedStoresTypedName | src/ui/category_ui.py:73-98 | with the intended name check, editing leaves the book alone, or some typed line is a valid position p and the next line a fresh name, and that name replaces entry p of the type's list and the closing line follows |
| Categories.RenamesAfterRefused | src/ui/category_ui.py:73-98 | conversely, with the intended name check, after whole refused attempts (a line naming no position, or a position followed by a name that is not fresh), a position p naming an entry and a fresh name on the next line rename entry p to that name, and the closing line follows |
| Categories.EditIntendedRenamesOne | src/ui/category_ui.py:83-91 | with the intended name check, editing leaves the book alone or replaces one entry with a fresh name |
| Categories.RenamedOneKeepsUnique | src/ui/category_ui.py:179-188 | renaming one entry to a fresh name keeps every list free of duplicates |
| Categories.RenameKeepsUnique | src/ui/category_ui.py:58-98 | the intended edit never creates a duplicate name |
| Categories.RenameCrashesOnlyOnMissingType | src/ui/category_ui.py:58-98 | the intended edit raises exactly when the type is missing |
| Categories.EditAsWrittenNeverRenames | src/ui/category_ui.py:86 | as written, on a book with just the two types, the edit never changes the book, and any crash is a KeyError |
| Categories.EditAsWrittenCrashes | src/ui/category_ui.py:86 | renaming "Food" to "Meals" as written raises KeyError |
| Categories.RenameIntended | src/ui/category_ui.py:86 | the same input with the intended call renames "Food" to "Meals" |
| Categories.DeleteRemovesTypedPosition | src/ui/category_ui.py:115-132 | deleting leaves the book alone, or the first typed line that is a valid position p (every earlier line invalid) names an entry, entry p is removed from the type's list keeping the order, and the closing line follows |
| Categories.DeletesLineRemoves | src/ui/category_ui.py:115-132 | conversely, after lines that are no valid choice, typing a position k from 1 to the length of the list removes exactly entry k - 1, keeping the order, and the closing line follows |
| Categories.DeleteRemovesOne | src/ui/category_ui.py:118-126 | deleting leaves the book alone or removes exactly one entry, keeping the order |
| Categories.RemovedOneKeepsUnique | src/ui/category_ui.py:126 | removing one entry keeps every list free of duplicates |
| Categories.DeleteKeepsUnique | src/ui/category_ui.py:100-132 | the delete dialogue never creates a duplicate name |
| Categories.FlowsKeepOtherTypes | src/ui/category_ui.py:26-132 | add, the intended edit and delete keep the set of types and every other type's list |
| Categories.FlowsKeepCancelOut | src/ui/category_ui.py:47 | on a book without "cancel", add, the as-written edit and delete never put "cancel" into a list |
| Categories.DeleteKeepsCancelOut | src/ui/category_ui.py:126 | on a book without "cancel", deleting never puts "cancel" into a list |
| Categories.IntendedRenameAcceptsCancel | src/ui/category_ui.py:83-91 | the edit has no cancel check: with the intended call "cancel" becomes a category name |
| LegacyCategories.LegacyAddCategoryRun | category_ui.py:24-40 | the earlier add appends the first line, unchecked, whenever it is not "cancel" and the type is listed; only such a line changes the book; it raises exactly when the type is missing |
| LegacyCategories.PauseThenRetry | category_ui.py:72-73 | a complaint reads one line, then the edit starts afresh |
| LegacyCategories.LegacyEditCategoryRun | category_ui.py:42-100 | the earlier edit consumes a prefix of the lines, returns "manage_categories", and raises exactly when the type is missing |
| LegacyCategories.LegacyCategoryBook.constructor | category_ui.py:11-15 | the stored object, or the default one when the file is absent |
| LegacyCategories.LegacyCategoryBook.AddCategory | category_ui.py:24-40 | the method does what LegacyAddCategoryRun says |
| LegacyCategories.LegacyCategoryBook.Pause | category_ui.py:72-73 | the method does what PauseThenRetry says |
| LegacyCategories.LegacyCategoryBook.EditCategory | category_ui.py:42-100 | the method does what LegacyEditCategoryRun says |
| LegacyCategories.LegacyEditRenamesOne | category_ui.py:69-93 | the earlier edit leaves the book alone or replaces one entry with a fresh name |
| LegacyCategories.LegacyEditStoresTypedName | category_ui.py:55-100 | the earlier edit leaves the book alone, or some typed line is a valid position p and the next line a fresh name other than "cancel", and that name replaces entry p and the closing line follows |
| LegacyCategories.LegacyRenamesAfterRefused | category_ui.py:55-100 | conversely, after whole refused attempts (a line naming no position, or a position, an empty or already listed name and the Enter of the pause), a position p naming an entry and a fresh name other than "cancel" rename entry p to that name |
| LegacyCategories.LegacyEditKeepsUnique | category_ui.py:42-100 | the earlier edit never creates a duplicate name |
| LegacyCategories.LegacyAddDuplicates | category_ui.py:29-34 | the earlier add lists "Food" twice and accepts the empty name |
| TransactionPrompts.AmountVerdict | src/ui/transaction_ui.py:182-203 | a line is a cancel exactly when its lower case is "cancel"; otherwise it is accepted exactly when its stripped text is decimally shaped, and that text is kept |
| TransactionPrompts.AmountPrompt | src/ui/transaction_ui.py:180-203 | the prompt never fails; it runs out only after reading every line; an accepted amount is decimally shaped |
| TransactionPrompts.AmountPromptLastLine | src/ui/transaction_ui.py:184-203 | an accepted amount or a cancel is the verdict on the last line read |
| TransactionPrompts.AmountPromptSkipsOnlyRetries | src/ui/transaction_ui.py:191-200 | every line read before the last was a retry |
| TransactionPrompts.AmountPromptExhaustedIffAllRetries | src/ui/transaction_ui.py:191-200 | the prompt runs out of lines exactly when every line is a retry |
| TransactionPrompts.AmountPromptAcceptedLine | src/ui/transaction_ui.py:182-203 | an accepted amount is the verdict on one typed line k, every line before k was a retry, and reading stops right after k |
| TransactionPrompts.AmountPromptTakesFirstAccepted | src/ui/transaction_ui.py:182-203 | conversely, when every line before k is a retry and line k is accepted, the prompt hands back line k's stripped text and leaves the lines after it |
| TransactionPrompts.FindRecord | src/ui/transaction_ui.py:53-54 | next() finds the first record with that id and type; None means there is none |
| TransactionPrompts.ValidTransactionIdMeaning | src/ui/transaction_ui.py:160-178 | the id check accepts exactly the digit strings naming a record of the dialogue's type |
| TransactionPrompts.StoreFindsValidatedRecord | src/models/transaction.py:76-77 | with unique ids the store's lookup by id finds the record the dialogue validated |
| TransactionPrompts.PickFrom | src/ui/transaction_ui.py:255-263 | the picker gives an entry of the list named by the last valid position, or runs out after reading every line |
| TransactionPrompts.PickSkipsOnlyInvalid | src/ui/transaction_ui.py:258-261 | every line read before the last was invalid; the picker runs out exactly when every line is invalid |
| TransactionPrompts.PickTakesFirstValid | src/ui/transaction_ui.py:258-261 | conversely, when every line before q is invalid and line q is a valid position, the picker gives entry int(line q) - 1 and leaves the lines after it |
| TransactionPrompts.EmptyListNeverPicks | src/ui/transaction_ui.py:255-261 | with an empty list every line is refused and the whole script is read |
| TransactionPrompts.CategoryPrompt | src/ui/transaction_ui.py:249-263 | _get_categories raises KeyError exactly when the type has no list, and otherwise picks an entry of it; it never cancels |
| TransactionPrompts.CategoryPromptUsesCategoryList | src/ui/transaction_ui.py:251-263 | the picker fails exactly when get_category_list raises, and a pick is entry int(line) - 1 of that list for the valid position typed on the last line read |
| TransactionPrompts.PickedCategoryIsNotCancel | src/ui/transaction_ui.py:228 | with no "cancel" in the file, the picker never returns "cancel", so the edit's cancel check on a category cannot fire |
| TransactionPrompts.UpdatePrompt | src/ui/transaction_ui.py:205-238 | the result is the record's four fields with only the chosen one replaced; choice "3" fails with KeyError exactly when the type lookup or its list is missing |
| TransactionPrompts.UpdateTextTakesTypedValue | src/ui/transaction_ui.py:220-236 | for choices "2" and "4" the new date or remark is the typed line itself, never "cancel", and only that line is read; the choice cancels exactly when that line is "cancel" |
| TransactionPrompts.UpdateAmountTakesTypedValue | src/ui/transaction_ui.py:214-218 | for choice "1" the new amount is the cents of the amount typed on the last line read, which the amount check accepted; the choice cancels exactly when the amount prompt does |
| TransactionPrompts.UpdateCategoryTakesPickedValue | src/ui/transaction_ui.py:226-230 | for choice "3" the new category is entry int(line) - 1 of the record type's list for the last line read; it cancels exactly when that pick is the name "cancel" |
| TransactionPrompts.UpdateOtherChoiceKeepsRecord | src/ui/transaction_ui.py:207-238 | any other choice reads nothing and gives back the record's own four fields |
| TransactionPrompts.UntypedRecordCrashesAsWritten | src/ui/transaction_ui.py:227 | as written, re-picking the category of a record without a type raises KeyError |
| TransactionPrompts.UpdateIntendedRaisesOnlyOnMissingList | src/ui/transaction_ui.py:227 | intended, the edit raises only when the record's effective type has no list |
| TransactionPrompts.UpdateReadingsAgreeOnTypedRecords | src/ui/transaction_ui.py:227 | both readings agree on every record that carries its type |
| TransactionPrompts.IsYesMeaning | src/ui/transaction_ui.py:242-243 | a confirmation line means yes exactly when it is "y" or "yes" with each letter in either case |
| TransactionFlows.AddTransactionRun | src/ui/transaction_ui.py:13-32 | the add dialogue consumes a prefix of the lines and returns "manage_transactions" |
| TransactionFlows.AddRecordRun | src/ui/transaction_ui.py:21-32 | the rest of the add dialogue, once the amount is known, consumes a prefix of the lines and returns "manage_transactions" |
| TransactionFlows.EditTransactionRun | src/ui/transaction_ui.py:34-90 | the edit dialogue consumes a prefix of the lines and returns "manage_transactions" |
| TransactionFlows.DeleteTransactionRun | src/ui/transaction_ui.py:92-128 | the delete dialogue consumes a prefix of the lines and returns "manage_transactions" |
| TransactionFlows.DeleteAllRun | src/ui/transaction_ui.py:130-158 | the store ends empty or unchanged; it is emptied exactly when the first two lines are both yes |
| TransactionFlows.TransactionUI.constructor | src/ui/transaction_ui.py:9-11 | the UI holds its category book |
| TransactionFlows.TransactionUI.ValidateExpenseAmount | src/ui/transaction_ui.py:180-203 | the method's reply and unread lines are those of AmountPrompt |
| TransactionFlows.TransactionUI.GetCategories | src/ui/transaction_ui.py:249-263 | the method's reply and unread lines are those of CategoryPrompt |
| TransactionFlows.TransactionUI.GetUpdatedValues | src/ui/transaction_ui.py:205-238 | the method's reply and unread lines are those of UpdatePrompt |
| TransactionFlows.TransactionUI.ConfirmDeletion | src/ui/transaction_ui.py:240-247 | the method reads one line and replies yes exactly when IsYes holds of it (IsYesMeaning: "y" or "yes" in any letter case); with no line left it runs out |
| TransactionFlows.TransactionUI.AddTransaction | src/ui/transaction_ui.py:13-32 | the method's outcome, new store and unread lines are those of AddTransactionRun |
| TransactionFlows.TransactionUI.EditTransaction | src/ui/transaction_ui.py:34-90 | the method's outcome, new store and unread lines are those of EditTransactionRun |
| TransactionFlows.TransactionUI.DeleteTransaction | src/ui/transaction_ui.py:92-128 | the method's outcome, new store and unread lines are those of DeleteTransactionRun |
| TransactionFlows.TransactionUI.DeleteAllTransactions | src/ui/transaction_ui.py:130-158 | the method's outcome, new store and unread lines are those of DeleteAllRun |
| TransactionFlows.AddRecordAppendsOne | src/ui/transaction_ui.py:21-25 | with a known amount, adding leaves the store alone or appends one record with the next id, the type, that amount and a category from the type's list |
| TransactionFlows.AddRecordStoresTypedLines | src/ui/transaction_ui.py:21-32 | with a known amount, adding leaves the store alone, or the record appended has the next id, the first line as its date, the category at the first valid position typed after it (every line between refused), the line after that as its remark, and the type; the closing line follows |
| TransactionFlows.TypedLinesAddRecord | src/ui/transaction_ui.py:21-32 | conversely, with a known amount, a date line, lines that are no valid position, a valid position m - 1 and a remark line m append the record with the next id, that date, amount, picked category, remark and the type, and the closing line follows |
| TransactionFlows.AddAppendsOneRecord | src/ui/transaction_ui.py:13-32 | adding leaves the store alone or appends one record with the next id, the dialogue's type, a non-negative amount and a category from the type's list; earlier records are kept |
| TransactionFlows.AddStoresTypedAmount | src/ui/transaction_ui.py:13-32 | adding leaves the store alone, or the amount is the cents of the first typed line the amount check accepts (every earlier line a retry), the rest of the dialogue reads the lines after it, and the one record appended carries that amount |
| TransactionFlows.AcceptedAmountStartsRecord | src/ui/transaction_ui.py:13-32 | conversely, when every line before k is a retry and line k is an accepted amount, adding goes on with the cents of line k from line k + 1, where TypedLinesAddRecord says which record is appended |
| TransactionFlows.AmountCancelAddsNothing | src/ui/transaction_ui.py:17-19 | a cancel at the amount prompt returns "manage_transactions" with the store unchanged |
| TransactionFlows.AddFlowKeepsIdsIncreasing | src/ui/transaction_ui.py:13-32 | the add dialogue keeps ids strictly increasing |
| TransactionFlows.EditIsOneUpdate | src/ui/transaction_ui.py:34-90 | editing leaves the store alone or is one update of an id validated for the type |
| TransactionFlows.EditStoresTypedValue | src/ui/transaction_ui.py:43-90 | editing leaves the store alone, or some typed line is an id validated for the type and the next a field choice "1" to "4", and the store is updated at that id with the values _get_updated_values gives for the lines after them; the closing line follows |
| TransactionFlows.TypedEditUpdates | src/ui/transaction_ui.py:43-90 | conversely, after whole refused attempts (an id neither "cancel" nor valid, a valid id with a choice outside 1 to 5, or a cancel at the value prompt), a valid id, a choice 1 to 4 and a value the prompt takes update the first record with that id to the collected values, and the closing line follows |
| TransactionFlows.EditKeepsIdsAndTypes | src/ui/transaction_ui.py:71-78 | editing keeps the length, every id and type, and increasing ids; it changes only records of the dialogue's type |
| TransactionFlows.DeleteNeedsYes | src/ui/transaction_ui.py:122-125 | the store changes only after a yes on the last line read, and then by deleting an id validated for the type |
| TransactionFlows.DeleteRemovesTypedId | src/ui/transaction_ui.py:100-128 | a changed store means the second-to-last line read is an id validated for the type, the last a yes, every earlier line neither "cancel" nor a valid id, and the store is the delete of that id |
| TransactionFlows.TypedIdDeletes | src/ui/transaction_ui.py:100-128 | conversely, after lines that are neither "cancel" nor a valid id, a valid id followed by a yes deletes the first record with that id and returns "manage_transactions" |
| TransactionFlows.DeleteFlowKeepsIdsIncreasing | src/ui/transaction_ui.py:92-128 | a delete keeps ids strictly increasing, and a changed store is exactly the records whose id differs from the id typed on the second-to-last line read |
| LegacyTransactionFlows.LegacyPick | transaction_ui.py:199-206 | the loop returns the entry named by int() of the last line read, an entry of the list, or runs out after reading every line |
| LegacyTransactionFlows.LegacyPickSkipsOnlyInvalid | transaction_ui.py:199-206 | every line before the last was refused; the loop runs out exactly when every line is refused |
| LegacyTransactionFlows.LegacyPickAgreesOnDigits | transaction_ui.py:201-202 | on digit strings the earlier and later pickers keep the same lines and pick the same entry |
| LegacyTransactionFlows.LegacyPickAcceptsPadding | transaction_ui.py:201-203 | for every valid position d, the line " " + d picks entry d in the earlier picker, while the later picker refuses it and runs out |
| LegacyTransactionFlows.PaddedLineIsNoPick | src/ui/transaction_ui.py:258-261 | the later picker refuses a digit string after a blank, so a script of that one line runs out |
| LegacyTransactionFlows.LegacyUpdatedValues | transaction_ui.py:162-180 | only the chosen field is replaced; float() refusing the amount is a ValueError; nothing cancels; a choice outside "1" to "4" reads nothing |
| LegacyTransactionFlows.PyFloatTakesAcceptedAmounts | transaction_ui.py:172 | float() takes every amount the later prompt accepts, with the same cents |
| LegacyTransactionFlows.LegacyAmountEditAgrees | transaction_ui.py:171-172 | on an accepted amount line both versions of the edit give the same fields |
| LegacyTransactionFlows.LegacyTakesNegativeAmount | transaction_ui.py:172 | the earlier edit stores "-5" as -5.00 |
| LegacyTransactionFlows.LegacyTransactionUI.constructor | transaction_ui.py:8-9 | the UI holds the two fixed category lists |
| LegacyTransactionFlows.LegacyTransactionUI.GetCategory | transaction_ui.py:191-206 | the loop's reply and unread lines are those of LegacyPick on the type's list |
| LegacyTransactionFlows.LegacyTransactionUI.GetUpdatedValues | transaction_ui.py:162-180 | the method's reply and unread lines are those of LegacyUpdatedValues |
| Menus.LookupMeaning | src/ui/menu_manager.py:64 | a key is absent exactly when it is not among the keys, and a found entry is stored under that key |
| Menus.PutLookup | src/ui/menu_manager.py:17-22 | after d[key] = item, key gives item and every other key keeps its entry |
| Menus.PutNewKeyAppends | src/ui/menu_manager.py:17-22 | setting an absent key appends it at the end |
| Menus.UpdateLookup | src/ui/menu_manager.py:17-22 | after update, the other dict's keys give its entries and the rest keep theirs |
| Menus.UpdateNewKeysAppends | src/ui/menu_manager.py:17-22 | updating with new keys appends the other dict in order |
| Menus.FillNumbered | src/ui/menu_manager.py:17-50 | a table with keys "1", "2", ... filled into an empty dict is itself |
| Menus.InitialMainTable | src/ui/menu_manager.py:17-22 | the main menu has keys 1 to 4 with its entries in order |
| Menus.InitialTransactionTable | src/ui/menu_manager.py:24-32 | the transaction menu has keys 1 to 7 with its entries in order |
| Menus.InitialReportTable | src/ui/menu_manager.py:34-40 | the reports menu has keys 1 to 5 with its entries in order |
| Menus.InitialCategoryTable | src/ui/menu_manager.py:42-50 | the categories menu has keys 1 to 7 with its entries in order |
| Menus.MenuManager.constructor | src/ui/menu_manager.py:6-11 | four empty dicts and no exit handler |
| Menus.MenuManager.InitializeMenus | src/ui/menu_manager.py:13-50 | sets the exit handler and updates each dict with its table |
| Menus.MenuManager.HandleMenuChoice | src/ui/menu_manager.py:59-78 | "exit" calls the exit handler, a TypeError when there is none; an invalid key re-enters the menu; a valid key calls its handler first, re-enters the menu on "manage_transactions" and "manage_categories", and passes any other token except "main" on |
| Menus.SetUpMenus | src/ui/menu_manager.py:6-50 | a new manager after initialize_menus is in the initialized state |
| Menus.ExitFromAnyMenu | src/ui/menu_manager.py:61-62 | once set up, "exit" calls the exit handler from any menu |
| Menus.MainTokenManagesTransactions | src/ui/menu_manager.py:75-76 | as written, the token "main" goes on to Manage Transactions |
| Menus.MainTokenShowsMainMenu | src/ui/menu_manager.py:75-76 | intended, the token "main" shows the main menu, which is what every "Go Back" entry names |
| Menus.ReadingsDifferOnlyOnMain | src/ui/menu_manager.py:59-78 | the two readings agree on every token but "main" |
| LegacyMenus.LegacyInitialMainTable | menu_manager.py:13-17 | the earlier main menu has keys 1 to 3 with its entries in order |
| LegacyMenus.LegacyInitialTransactionTable | menu_manager.py:19-27 | the earlier transaction menu has keys 1 to 7 with its entries in order |
| LegacyMenus.LegacyInitialReportTable | menu_manager.py:29-34 | the earlier reports menu has keys 1 to 4 with its entries in order |
| LegacyMenus.LegacyMenuManager.constructor | menu_manager.py:6-9 | three empty dicts |
| LegacyMenus.LegacyMenuManager.InitializeMenus | menu_manager.py:11-34 | updates each dict with its table |
| LegacyMenus.LegacyMenuManager.HandleMenuChoice | menu_manager.py:42-61 | "exit" calls the current menu's entry "3", a KeyError when there is none; an invalid key re-enters; a valid key calls its handler, re-enters only on "manage_transactions", and passes any other token except "main" on |
| LegacyMenus.SetUpLegacyMenus | menu_manager.py:6-34 | a new manager after initialize_menus is in the initialized state |
| LegacyMenus.ExitRunsKeyThree | menu_manager.py:44-45 | "exit" exits from the main menu, but edits an expense from the transaction menu and shows the balance from the reports menu |
| LegacyMenus.CategoriesTokenPassesOn | menu_manager.py:56-61 | "manage_categories" is passed on instead of re-entering the menu |
| LegacyMenus.LegacyMainTokenManagesTransactions | menu_manager.py:58-59 | the token "main" goes on to Manage Transactions |

## Left out

- Reading and writing the JSON files (`load_transactions`, `save_transactions`, `_save_categories`) is not modelled. The stores are the loaded values; an absent or empty transactions file is the empty list.
- Printing, `time.sleep`, screen clearing and the display manager are not modelled. The one exception is `show_filtered_transactions`' result, which is `HasType`.
- Text is modelled in ASCII only. `str.isdigit`, `str.lower` and `str.strip` are given their ASCII meaning; Unicode digits, case folding and white space are not modelled.
- Text.PyInt does not accept underscores between digits.
- Text.PyFloatCents does not accept exponents, "inf", "nan" or underscores between digits.
- Text.AmountCentsSplit: keeps the first two fraction digits and drops the rest, where `f"{float(amount):.2f}"` rounds to the nearest cent.
- Text.PyFloatCents: keeps the first two fraction digits and drops the rest, where `f"{x:.2f}"` rounds to the nearest cent.
- Amounts are integer cents, not binary floats, and totals are exact sums, not float sums.
- The amount's text form ("12.50") is not kept. A record holds its value in cents.
- `view_transactions` and `get_total_expenses`/`get_total_income` are not separate members. They are `Filter` and `Total` with the type fixed.
- `get_category_list` of the category UI is the function `Categories.CategoryList`; what the picker takes from it is stated by TransactionPrompts.CategoryPromptUsesCategoryList.
- The earlier `transaction_ui.py` at the repository root cannot be imported. It takes `update_transaction` and `delete_all_transactions` from `transactions.py`, which defines neither, and a `categories` module that is not part of this model. Only its own pieces are modelled:
  - the category loop, as LegacyTransactionFlows.LegacyPick;
  - the collection of new values, as LegacyTransactionFlows.LegacyUpdatedValues.

  Its id check, confirmation and delete-all gates are the later ones: TransactionPrompts.ValidTransactionIdMeaning, TransactionPrompts.IsYesMeaning and TransactionFlows.DeleteAllRun. Its whole add, edit and delete dialogues are not modelled.
- `reports.py` imports `get_total` from `transactions.py`, which does not define it. Reports.FinancialSummary uses the `get_total` of `src/models/transaction.py`. `display_financial_summary` only prints.
- `main.py`, `ui.py`, the earlier `display_manager.py` and the application's handler methods are not part of this model. The menus see handlers as abstract actions. The token a called handler returns is a parameter of HandleMenuChoice, and what the calls themselves do is not modelled.
- The retries the program makes by calling itself again are modelled as recursion bounded by the remaining typed lines. Python's recursion limit is not modelled.
- TransactionPrompts.CategoryPrompt: with an empty category list `_get_categories` never returns. The model reads the whole script and ends at end of input.
- Transactions.NextId: the new id is the last record's id plus one, not one more than the largest id ever used. After the last record is deleted its id is handed out again (Transactions.IdReusedAfterDeletingLast). The model follows the code here.
- Categories.AddCategoryRun, Categories.EditCategoryRun, Categories.DeleteCategoryRun, TransactionFlows.AddTransactionRun, TransactionFlows.AddRecordRun, TransactionFlows.EditTransactionRun, TransactionFlows.DeleteTransactionRun, LegacyCategories.PauseThenRetry and LegacyCategories.LegacyEditCategoryRun: their own ensures state only that the lines read are a prefix of the script, which token is returned, and (for the category add, delete and earlier edit) that a KeyError is raised exactly when the type is missing. What each does to the book or the store, tied to the typed lines, is stated by separate lemmas, one for each direction (a change is the typed one; the typed lines make it):
  - add a category: Categories.AddStoresTypedName and Categories.AddsLineAppends;
  - edit a category: Categories.EditIntendedStoresTypedName and Categories.RenamesAfterRefused for the intended check, Categories.EditAsWrittenNeverRenames for the code as written, and LegacyCategories.LegacyEditStoresTypedName and LegacyCategories.LegacyRenamesAfterRefused for the earlier edit;
  - delete a category: Categories.DeleteRemovesTypedPosition and Categories.DeletesLineRemoves;
  - add a transaction: TransactionFlows.AddStoresTypedAmount, TransactionFlows.AddRecordStoresTypedLines, TransactionFlows.AcceptedAmountStartsRecord and TransactionFlows.TypedLinesAddRecord;
  - edit a transaction: TransactionFlows.EditStoresTypedValue and TransactionFlows.TypedEditUpdates, with the new values given by the TransactionPrompts.Update* lemmas;
  - delete a transaction: TransactionFlows.DeleteRemovesTypedId and TransactionFlows.TypedIdDeletes.

  These lemmas do not say which outcome (end of input or the returned token) ends a dialogue that left the book or store unchanged.
- Categories.EditIntendedStoresTypedName, LegacyCategories.LegacyEditStoresTypedName and TransactionFlows.EditStoresTypedValue: from a change they give the position of the typed lines used, but not that the lines before them were whole refused attempts. Their converses (Categories.RenamesAfterRefused, LegacyCategories.LegacyRenamesAfterRefused, TransactionFlows.TypedEditUpdates) take that as a hypothesis.
- Categories.AddAppendsFreshName, Categories.EditIntendedRenamesOne, Categories.DeleteRemovesOne and LegacyCategories.LegacyEditRenamesOne: state only the shape of the change (one fresh name appended, one entry replaced, one entry removed), which is what the keeps-unique lemmas need. Which typed line gives the name or the position is stated by Categories.AddStoresTypedName, Categories.EditIntendedStoresTypedName, Categories.DeleteRemovesTypedPosition and LegacyCategories.LegacyEditStoresTypedName.
- TransactionFlows.AddRecordAppendsOne, TransactionFlows.AddAppendsOneRecord and TransactionFlows.EditIsOneUpdate: state only the shape of the change (one record appended, one update at a validated id). The typed date, amount, category, remark and id are stated by TransactionFlows.AddRecordStoresTypedLines, TransactionFlows.AddStoresTypedAmount and TransactionFlows.EditStoresTypedValue.
- TransactionFlows.DeleteNeedsYes: states that a yes came last and some validated id was deleted. That the id is the one typed on the line before the yes is stated by TransactionFlows.DeleteRemovesTypedId.
- TransactionPrompts.UpdatePrompt: its own ensures state which field may change. The new value of each field and the exact cancel conditions are stated by the TransactionPrompts.Update* lemmas.

## Findings

| source | as written | input that shows it | evidently intended | confidence | as-written member | corrected member |
|---|---|---|---|---|---|---|
| src/ui/category_ui.py:86 | `_validate_category_name(edit_choice, category_type, new_category_name)` passes the position as the type and the type as the name. The lookup `self.categories["1"]` raises KeyError, so no category can ever be renamed. | book {"expense": ["Food"], "income": []}, edit expense, lines "1", "Meals" | `_validate_category_name(category_type, new_category_name, edit_choice)`, which renames "Food" to "Meals" | high, not executed | Categories.EditAsWrittenNeverRenames | Categories.RenameKeepsUnique |
| src/ui/menu_manager.py:75-76 | the token "main" calls `self.main_menu["1"][1]`, which is Manage Transactions | any menu key whose handler returns the token "main" | show the main menu | medium (no handler in this model returns "main"), not executed | Menus.MainTokenManagesTransactions | Menus.MainTokenShowsMainMenu |
| menu_manager.py:44-45 | "exit" calls entry "3" of the current menu | type "exit" in the transaction menu: Edit Expense runs | call the exit handler from every menu | high, not executed | LegacyMenus.ExitRunsKeyThree | Menus.ExitFromAnyMenu |
| transactions.py:41 | `transaction["id"] == transaction_id` compares an int with the typed str | delete id "1" from a store holding id 1: nothing is removed | compare with `int(transaction_id)` | high, not executed | LegacyTransactions.TextArgNeverDeletes | LegacyTransactions.IntArgDeletesLikeNewStore |
| src/ui/transaction_ui.py:227 | `transaction['type']` raises KeyError for a record stored without a type | edit the category (choice "3") of a record written by the earlier store | `transaction.get('type', 'expense')`, as the rest of the code reads it | high, not executed | TransactionPrompts.UntypedRecordCrashesAsWritten | TransactionPrompts.UpdateIntendedRaisesOnlyOnMissingList |
