/** The transaction dialogues of src/ui/transaction_ui.py: add, edit, delete
    and delete-all, each reading typed lines and calling the store of
    src/models/transaction.py. Each dialogue is specified by the function of
    the store and the script it runs on, and each retry by recursion is a
    recursive call on what is left of the script. */
module TransactionFlows {
  import opened Common
  import opened Text
  import opened Dialog
  import opened Transactions
  import opened Categories
  import opened TransactionPrompts

  /** The token every transaction dialogue hands back to the menu. */
  const MANAGE_TRANSACTIONS := "manage_transactions"

  /** _confirm_deletion and the gates of delete_all_transactions: one line,
      read as yes when it is "yes" or "y" in any letter case. */
  function Confirmation(inputs: seq<string>): (p: Prompted<bool>)
    ensures SuffixOf(p.rest, inputs)
    ensures inputs == [] <==> p.reply.Exhausted?
    ensures inputs != [] ==> p.reply == Given(IsYes(inputs[0])) && p.rest == inputs[1..]
  {
    if inputs == [] then Prompted(Exhausted, []) else Prompted(Given(IsYes(inputs[0])), inputs[1..])
  }

  /** add_transaction_ui: the amount (a cancel returns at once), then the
      rest of the dialogue as AddRecordRun describes it. */
  function AddTransactionRun(rs: seq<Record>, cats: Book, kind: string, inputs: seq<string>): (e: Ended<seq<Record>>)
    ensures SuffixOf(e.rest, inputs)
    ensures e.outcome.Returned? ==> e.outcome.token == MANAGE_TRANSACTIONS
  {
    var a := AmountPrompt(inputs);
    match a.reply
    case Cancelled => Ended(Returned(MANAGE_TRANSACTIONS), rs, a.rest)
    case Exhausted => Ended(EndOfInput, rs, a.rest)
    case Failed(error) => Ended(Crashed(error), rs, a.rest)
    case Given(text) => AddRecordRun(rs, cats, kind, AmountCents(text), a.rest)
  }

  /** The rest of add_transaction_ui once the amount is known: the date, the
      category picked from the type's list and the remark, then one new record
      of the type at the end of the store and a pause for Enter. */
  function AddRecordRun(rs: seq<Record>, cats: Book, kind: string, amount: nat, inputs: seq<string>): (e: Ended<seq<Record>>)
    ensures SuffixOf(e.rest, inputs)
    ensures e.outcome.Returned? ==> e.outcome.token == MANAGE_TRANSACTIONS
  {
    if inputs == [] then Ended(EndOfInput, rs, [])
    else
      var date := inputs[0];
      var c := CategoryPrompt(cats, kind, inputs[1..]);
      match c.reply
      case Given(category) =>
        if c.rest == [] then Ended(EndOfInput, rs, [])
        else
          var added := rs + [Record(NextId(rs), date, amount, category, c.rest[0], Some(kind))];
          Acknowledge(added, MANAGE_TRANSACTIONS, c.rest[1..])
      case Failed(error) => Ended(Crashed(error), rs, c.rest)
      // The picker otherwise ends only when the script runs out.
      case _ => Ended(EndOfInput, rs, c.rest)
  }

  /** edit_transaction_ui: with no record of the type it only pauses;
      otherwise it asks for an id ("cancel" returns, an invalid id retries),
      then for the detail ("5" returns, anything but 1 to 4 retries), then for
      the new value (a cancel retries), updates the first record with that id
      and pauses. */
  function EditTransactionRun(rs: seq<Record>, cats: Book, kind: string, inputs: seq<string>, variant: Variant): (e: Ended<seq<Record>>)
    ensures SuffixOf(e.rest, inputs)
    ensures e.outcome.Returned? ==> e.outcome.token == MANAGE_TRANSACTIONS
    decreases |inputs|
  {
    if !HasType(rs, kind) then Acknowledge(rs, MANAGE_TRANSACTIONS, inputs)
    else if inputs == [] then Ended(EndOfInput, rs, [])
    else
      var id := inputs[0];
      if id == "cancel" then Ended(Returned(MANAGE_TRANSACTIONS), rs, inputs[1..])
      else if !ValidTransactionId(id, rs, kind) then EditTransactionRun(rs, cats, kind, inputs[1..], variant)
      else
        var t := rs[FindRecord(rs, DigitsValue(id), kind).value];
        if |inputs| == 1 then Ended(EndOfInput, rs, [])
        else
          var detail := inputs[1];
          if detail == "5" then Ended(Returned(MANAGE_TRANSACTIONS), rs, inputs[2..])
          else if !DetailInRange(detail) then EditTransactionRun(rs, cats, kind, inputs[2..], variant)
          else
            var u := UpdatePrompt(variant, detail, t, cats, inputs[2..]);
            match u.reply
            case Cancelled => EditTransactionRun(rs, cats, kind, u.rest, variant)
            case Exhausted => Ended(EndOfInput, rs, u.rest)
            case Failed(error) => Ended(Crashed(error), rs, u.rest)
            case Given(f) => Acknowledge(UpdateFirst(rs, DigitsValue(id), f), MANAGE_TRANSACTIONS, u.rest)
  }

  /** delete_transaction_ui: with no record of the type it only pauses;
      otherwise it asks for an id ("cancel" returns, an invalid id retries),
      asks for confirmation and deletes the first record with that id only on
      a yes. */
  function DeleteTransactionRun(rs: seq<Record>, kind: string, inputs: seq<string>): (e: Ended<seq<Record>>)
    ensures SuffixOf(e.rest, inputs)
    ensures e.outcome.Returned? ==> e.outcome.token == MANAGE_TRANSACTIONS
    decreases |inputs|
  {
    if !HasType(rs, kind) then Acknowledge(rs, MANAGE_TRANSACTIONS, inputs)
    else if inputs == [] then Ended(EndOfInput, rs, [])
    else
      var id := inputs[0];
      if id == "cancel" then Ended(Returned(MANAGE_TRANSACTIONS), rs, inputs[1..])
      else if !ValidTransactionId(id, rs, kind) then DeleteTransactionRun(rs, kind, inputs[1..])
      else
        var c := Confirmation(inputs[1..]);
        match c.reply
        case Given(yes) =>
          if yes then Ended(Returned(MANAGE_TRANSACTIONS), DeleteFirst(rs, DigitsValue(id)), c.rest)
          else Ended(Returned(MANAGE_TRANSACTIONS), rs, c.rest)
        case _ => Ended(EndOfInput, rs, c.rest)
  }

  /** delete_all_transactions: two confirmations; the store is emptied only
      when both are yes. */
  function DeleteAllRun(rs: seq<Record>, inputs: seq<string>): (e: Ended<seq<Record>>)
    ensures SuffixOf(e.rest, inputs)
    ensures e.outcome.Returned? ==> e.outcome.token == MANAGE_TRANSACTIONS
    ensures e.state == [] || e.state == rs
    ensures e.state != rs ==> |inputs| >= 2 && IsYes(inputs[0]) && IsYes(inputs[1])
    ensures |inputs| >= 2 && IsYes(inputs[0]) && IsYes(inputs[1]) ==> e.state == [] && e.outcome.Returned?
  {
    var first := Confirmation(inputs);
    match first.reply
    case Given(yes) =>
      if !yes then Ended(Returned(MANAGE_TRANSACTIONS), rs, first.rest)
      else
        assert first.rest == inputs[1..] && (first.rest != [] ==> first.rest[0] == inputs[1]);
        var second := Confirmation(first.rest);
        (match second.reply
         case Given(sure) =>
           if sure then Ended(Returned(MANAGE_TRANSACTIONS), [], second.rest)
           else Ended(Returned(MANAGE_TRANSACTIONS), rs, second.rest)
         case _ => Ended(EndOfInput, rs, second.rest))
    case _ => Ended(EndOfInput, rs, first.rest)
  }

  /** The transaction UI object: it holds its own category UI, loaded when it
      is built (a separate copy of the categories file from the one the
      category menu edits). */
  class TransactionUI {
    const categories: CategoryBook

    constructor (categories: CategoryBook)
      ensures this.categories == categories
    {
      this.categories := categories;
    }

    /** _validate_expense_amount. */
    method ValidateExpenseAmount(console: Console) returns (reply: Reply<string>)
      modifies console
      ensures Prompted(reply, console.pending) == AmountPrompt(old(console.pending))
      decreases |console.pending|
    {
      var line := console.ReadLine();
      if line.None? {
        return Exhausted;
      }
      if Lower(line.value) == "cancel" {
        return Cancelled;
      }
      var amount := Strip(line.value);
      if amount == [] || !IsDigits(Text.RemoveFirst(amount, '.')) {
        reply := ValidateExpenseAmount(console);
        return;
      }
      reply := Given(amount);
    }

    /** _get_categories. */
    method GetCategories(console: Console, kind: string) returns (reply: Reply<string>)
      modifies console
      ensures Prompted(reply, console.pending) == CategoryPrompt(categories.categories, kind, old(console.pending))
      decreases |console.pending|
    {
      match CategoryList(categories.categories, kind)
      case Err(error) =>
        return Failed(error);
      case Ok(names) =>
        var line := console.ReadLine();
        if line.None? {
          return Exhausted;
        }
        if ValidPick(names, line.value) {
          return Given(names[DigitsValue(line.value) - 1]);
        }
        reply := GetCategories(console, kind);
    }

    /** _get_updated_values, with the category type looked up as `variant` says. */
    method GetUpdatedValues(console: Console, variant: Variant, detail: string, t: Record) returns (reply: Reply<Fields>)
      modifies console
      ensures Prompted(reply, console.pending) == UpdatePrompt(variant, detail, t, categories.categories, old(console.pending))
    {
      var values := FieldsOf(t);
      if detail == "1" {
        var amount := ValidateExpenseAmount(console);
        match amount
        case Given(text) => reply := Given(values.(amount := AmountCents(text)));
        case Cancelled => reply := Cancelled;
        case Exhausted => reply := Exhausted;
        case Failed(error) => reply := Failed(error);
      } else if detail == "2" || detail == "4" {
        var line := console.ReadLine();
        if line.None? {
          reply := Exhausted;
        } else if line.value == "cancel" {
          reply := Cancelled;
        } else if detail == "2" {
          reply := Given(values.(date := line.value));
        } else {
          reply := Given(values.(remarks := line.value));
        }
      } else if detail == "3" {
        match CategoryTypeOf(variant, t)
        case Err(error) =>
          reply := Failed(error);
        case Ok(kind) =>
          var category := GetCategories(console, kind);
          match category
          case Given(name) => reply := if name == "cancel" then Cancelled else Given(values.(category := name));
          case Cancelled => reply := Cancelled;
          case Exhausted => reply := Exhausted;
          case Failed(error) => reply := Failed(error);
      } else {
        reply := Given(values);
      }
    }

    /** _confirm_deletion. */
    method ConfirmDeletion(console: Console) returns (reply: Reply<bool>)
      modifies console
      ensures Prompted(reply, console.pending) == Confirmation(old(console.pending))
    {
      var line := console.ReadLine();
      reply := if line.None? then Exhausted else Given(IsYes(line.value));
    }

    method AddTransaction(store: Store, console: Console, kind: string) returns (outcome: FlowOutcome)
      modifies store, console
      ensures Ended(outcome, store.records, console.pending) == AddTransactionRun(old(store.records), categories.categories, kind, old(console.pending))
    {
      var amount := ValidateExpenseAmount(console);
      match amount
      case Cancelled => return Returned(MANAGE_TRANSACTIONS);
      case Exhausted => return EndOfInput;
      case Failed(error) => return Crashed(error);
      case Given(text) =>
        var date := console.ReadLine();
        if date.None? {
          return EndOfInput;
        }
        var category := GetCategories(console, kind);
        match category
        case Failed(error) => return Crashed(error);
        case Cancelled => return EndOfInput;
        case Exhausted => return EndOfInput;
        case Given(name) =>
          var remark := console.ReadLine();
          if remark.None? {
            return EndOfInput;
          }
          store.Add(date.value, AmountCents(text), name, remark.value, kind);
          outcome := console.Acknowledged(store.records, MANAGE_TRANSACTIONS);
    }

    method EditTransaction(store: Store, console: Console, kind: string, variant: Variant) returns (outcome: FlowOutcome)
      modifies store, console
      ensures Ended(outcome, store.records, console.pending) == EditTransactionRun(old(store.records), categories.categories, kind, old(console.pending), variant)
      decreases |console.pending|
    {
      var rs := store.records;
      if !HasType(rs, kind) {
        outcome := console.Acknowledged(rs, MANAGE_TRANSACTIONS);
        return;
      }
      var line := console.ReadLine();
      if line.None? {
        return EndOfInput;
      }
      var id := line.value;
      if id == "cancel" {
        return Returned(MANAGE_TRANSACTIONS);
      }
      if !ValidTransactionId(id, rs, kind) {
        outcome := EditTransaction(store, console, kind, variant);
        return;
      }
      var t := rs[FindRecord(rs, DigitsValue(id), kind).value];
      line := console.ReadLine();
      if line.None? {
        return EndOfInput;
      }
      var detail := line.value;
      if detail == "5" {
        return Returned(MANAGE_TRANSACTIONS);
      }
      if !DetailInRange(detail) {
        outcome := EditTransaction(store, console, kind, variant);
        return;
      }
      var updated := GetUpdatedValues(console, variant, detail, t);
      match updated
      case Cancelled =>
        outcome := EditTransaction(store, console, kind, variant);
      case Exhausted =>
        outcome := EndOfInput;
      case Failed(error) =>
        outcome := Crashed(error);
      case Given(f) =>
        store.Update(DigitsValue(id), f);
        outcome := console.Acknowledged(store.records, MANAGE_TRANSACTIONS);
    }

    method DeleteTransaction(store: Store, console: Console, kind: string) returns (outcome: FlowOutcome)
      modifies store, console
      ensures Ended(outcome, store.records, console.pending) == DeleteTransactionRun(old(store.records), kind, old(console.pending))
      decreases |console.pending|
    {
      var rs := store.records;
      if !HasType(rs, kind) {
        outcome := console.Acknowledged(rs, MANAGE_TRANSACTIONS);
        return;
      }
      var line := console.ReadLine();
      if line.None? {
        return EndOfInput;
      }
      var id := line.value;
      if id == "cancel" {
        return Returned(MANAGE_TRANSACTIONS);
      }
      if !ValidTransactionId(id, rs, kind) {
        outcome := DeleteTransaction(store, console, kind);
        return;
      }
      var confirmed := ConfirmDeletion(console);
      match confirmed
      case Given(yes) =>
        if yes {
          store.Delete(DigitsValue(id));
        }
        outcome := Returned(MANAGE_TRANSACTIONS);
      case _ =>
        outcome := EndOfInput;
    }

    method DeleteAllTransactions(store: Store, console: Console) returns (outcome: FlowOutcome)
      modifies store, console
      ensures Ended(outcome, store.records, console.pending) == DeleteAllRun(old(store.records), old(console.pending))
    {
      var confirm := ConfirmDeletion(console);
      if confirm.Exhausted? {
        return EndOfInput;
      }
      if confirm == Given(false) {
        return Returned(MANAGE_TRANSACTIONS);
      }
      var absolutelySure := ConfirmDeletion(console);
      if absolutelySure.Exhausted? {
        return EndOfInput;
      }
      if absolutelySure == Given(true) {
        store.DeleteAll();
      }
      outcome := Returned(MANAGE_TRANSACTIONS);
    }
  }

  // ---------------------------------------------------------------------
  // What the dialogues do to the store

  /** Once the amount is known, adding either leaves the store alone or
      appends one record of the dialogue's type with the next id, that amount
      and a category taken from the type's list. */
  lemma AddRecordAppendsOne(rs: seq<Record>, cats: Book, kind: string, amount: nat, inputs: seq<string>)
    ensures var e := AddRecordRun(rs, cats, kind, amount, inputs);
            e.state == rs ||
            (|e.state| == |rs| + 1 && e.state[..|rs|] == rs &&
             var r := e.state[|rs|];
             r.id == NextId(rs) && r.kind == Some(kind) && r.amount == amount && kind in cats && r.category in cats[kind])
  {
    var e := AddRecordRun(rs, cats, kind, amount, inputs);
    if e.state != rs {
      assert e.state[..|rs|] == rs;
    }
  }

  /** Adding either leaves the store alone or appends one record of the
      dialogue's type with the next id, a non-negative amount and a category
      taken from the type's list; every earlier record stays as it was. */
  lemma AddAppendsOneRecord(rs: seq<Record>, cats: Book, kind: string, inputs: seq<string>)
    ensures var e := AddTransactionRun(rs, cats, kind, inputs);
            e.state == rs ||
            (|e.state| == |rs| + 1 && e.state[..|rs|] == rs &&
             var r := e.state[|rs|];
             r.id == NextId(rs) && r.kind == Some(kind) && r.amount >= 0 && kind in cats && r.category in cats[kind])
  {
    var a := AmountPrompt(inputs);
    if a.reply.Given? {
      AddRecordAppendsOne(rs, cats, kind, AmountCents(a.reply.value), a.rest);
    }
  }

  /** The record added is made of what the user typed: the first line is its
      date, line m - 1 is the first valid position in the category list (every
      line between was not one), line m is its remark, and the closing Enter
      comes after. */
  lemma AddRecordStoresTypedLines(rs: seq<Record>, cats: Book, kind: string, amount: nat, inputs: seq<string>)
    ensures AddRecordRun(rs, cats, kind, amount, inputs).state == rs ||
            exists m :: 2 <= m < |inputs| && kind in cats && ValidPick(cats[kind], inputs[m - 1]) &&
              (forall j :: 1 <= j < m - 1 ==> !ValidPick(cats[kind], inputs[j])) &&
              AddRecordRun(rs, cats, kind, amount, inputs) == Acknowledge(rs + [Record(NextId(rs), inputs[0], amount, cats[kind][DigitsValue(inputs[m - 1]) - 1], inputs[m], Some(kind))],
                               MANAGE_TRANSACTIONS, inputs[m + 1..])
  {
    if inputs != [] && kind in cats {
      var c := CategoryPrompt(cats, kind, inputs[1..]);
      if c.reply.Given? && c.rest != [] {
        AddRecordFromPick(rs, cats, kind, amount, inputs);
        assert c == PickFrom(cats[kind], inputs[1..]);
        PickAfterDate(cats[kind], inputs);
      }
    }
  }

  /** The record added after a picked category and a remark. */
  lemma AddRecordFromPick(rs: seq<Record>, cats: Book, kind: string, amount: nat, inputs: seq<string>)
    requires inputs != [] && kind in cats
    requires var c := CategoryPrompt(cats, kind, inputs[1..]); c.reply.Given? && c.rest != []
    ensures var m := |inputs| - |CategoryPrompt(cats, kind, inputs[1..]).rest|;
            2 <= m < |inputs| && ValidPick(cats[kind], inputs[m - 1]) &&
            AddRecordRun(rs, cats, kind, amount, inputs) ==
              Acknowledge(rs + [Record(NextId(rs), inputs[0], amount, cats[kind][DigitsValue(inputs[m - 1]) - 1], inputs[m], Some(kind))],
                          MANAGE_TRANSACTIONS, inputs[m + 1..])
  {
    var c := CategoryPrompt(cats, kind, inputs[1..]);
    var added := rs + [Record(NextId(rs), inputs[0], amount, c.reply.value, c.rest[0], Some(kind))];
    assert AddRecordRun(rs, cats, kind, amount, inputs) == Acknowledge(added, MANAGE_TRANSACTIONS, c.rest[1..]);
    var m := |inputs| - |c.rest|;
    assert c.rest == inputs[1..][m - 1..] == inputs[m..];
    assert inputs[m - 1] == inputs[1..][m - 2];
  }

  /** The picker after the date line: line m - 1 is the position picked,
      every line between the date and it was not valid, and the picker leaves
      the lines from m on. */
  lemma PickAfterDate(names: seq<string>, inputs: seq<string>)
    requires inputs != []
    ensures var c := PickFrom(names, inputs[1..]); var m := |inputs| - |c.rest|;
            c.reply.Given? ==>
              2 <= m <= |inputs| && c.rest == inputs[m..] && ValidPick(names, inputs[m - 1]) &&
              c.reply.value == names[DigitsValue(inputs[m - 1]) - 1] &&
              forall j :: 1 <= j < m - 1 ==> !ValidPick(names, inputs[j])
  {
    var tail := inputs[1..];
    var c := PickFrom(names, tail);
    if c.reply.Given? {
      PickSkipsOnlyInvalid(names, tail);
      var k := |tail| - |c.rest|;
      assert inputs[k] == tail[k - 1];
      assert c.rest == inputs[k + 1..];
      forall j | 1 <= j < k ensures !ValidPick(names, inputs[j]) {
        assert inputs[j] == tail[j - 1];
      }
    }
  }

  /** The amount of the record added is the accepted amount line in cents:
      line k is the first line the amount prompt accepts (every line before it
      asked again), and the rest of the dialogue reads the lines after it. */
  lemma AddStoresTypedAmount(rs: seq<Record>, cats: Book, kind: string, inputs: seq<string>)
    ensures AddTransactionRun(rs, cats, kind, inputs).state == rs ||
            exists k :: 0 <= k < |inputs| && AmountVerdict(inputs[k]).AcceptAmount? &&
              (forall j :: 0 <= j < k ==> AmountVerdict(inputs[j]).RetryAmount?) &&
              AddTransactionRun(rs, cats, kind, inputs) == AddRecordRun(rs, cats, kind, AmountCents(AmountVerdict(inputs[k]).text), inputs[k + 1..]) &&
              |AddTransactionRun(rs, cats, kind, inputs).state| == |rs| + 1 &&
              AddTransactionRun(rs, cats, kind, inputs).state[|rs|].amount == AmountCents(AmountVerdict(inputs[k]).text)
  {
    var a := AmountPrompt(inputs);
    if a.reply.Given? {
      AmountPromptAcceptedLine(inputs);
      var amount := AmountCents(a.reply.value);
      var e := AddTransactionRun(rs, cats, kind, inputs);
      assert e == AddRecordRun(rs, cats, kind, amount, a.rest);
      AddRecordAppendsOne(rs, cats, kind, amount, a.rest);
    }
  }

  /** Conversely, a date, then lines that are no valid position, then a valid
      position m - 1 and a remark add the record built from them. */
  lemma TypedLinesAddRecord(rs: seq<Record>, cats: Book, kind: string, amount: nat, inputs: seq<string>, m: int)
    requires 2 <= m < |inputs| && kind in cats && ValidPick(cats[kind], inputs[m - 1])
    requires forall j :: 1 <= j < m - 1 ==> !ValidPick(cats[kind], inputs[j])
    ensures AddRecordRun(rs, cats, kind, amount, inputs) ==
              Acknowledge(rs + [Record(NextId(rs), inputs[0], amount, cats[kind][DigitsValue(inputs[m - 1]) - 1], inputs[m], Some(kind))],
                          MANAGE_TRANSACTIONS, inputs[m + 1..])
  {
    var tail := inputs[1..];
    forall j | 0 <= j < m - 2 ensures !ValidPick(cats[kind], tail[j]) {
      assert tail[j] == inputs[j + 1];
    }
    assert tail[m - 2] == inputs[m - 1] && tail[m - 1..] == inputs[m..];
    PickTakesFirstValid(cats[kind], tail, m - 2);
    assert inputs[m..][1..] == inputs[m + 1..];
  }

  /** Conversely, the first accepted amount line starts the record: after
      retries, an accepted line k hands its cents to the rest of the dialogue,
      which reads from line k + 1 (and adds as TypedLinesAddRecord says). */
  lemma AcceptedAmountStartsRecord(rs: seq<Record>, cats: Book, kind: string, inputs: seq<string>, k: int)
    requires 0 <= k < |inputs| && AmountVerdict(inputs[k]).AcceptAmount?
    requires forall j :: 0 <= j < k ==> AmountVerdict(inputs[j]).RetryAmount?
    ensures AddTransactionRun(rs, cats, kind, inputs) == AddRecordRun(rs, cats, kind, AmountCents(AmountVerdict(inputs[k]).text), inputs[k + 1..])
  {
    AmountPromptTakesFirstAccepted(inputs, k);
  }

  /** A cancel at the amount prompt returns to the menu without adding. */
  lemma AmountCancelAddsNothing(rs: seq<Record>, cats: Book, kind: string, inputs: seq<string>)
    requires AmountPrompt(inputs).reply.Cancelled?
    ensures AddTransactionRun(rs, cats, kind, inputs).state == rs
    ensures AddTransactionRun(rs, cats, kind, inputs).outcome == Returned(MANAGE_TRANSACTIONS)
  {
  }

  /** Adding keeps ids strictly increasing. */
  lemma AddFlowKeepsIdsIncreasing(rs: seq<Record>, cats: Book, kind: string, inputs: seq<string>)
    requires IdsIncreasing(rs)
    ensures IdsIncreasing(AddTransactionRun(rs, cats, kind, inputs).state)
  {
    AddAppendsOneRecord(rs, cats, kind, inputs);
    var after := AddTransactionRun(rs, cats, kind, inputs).state;
    if after != rs {
      assert after == rs + [after[|rs|]];
      AddKeepsIdsIncreasing(rs, after[|rs|]);
    }
  }

  /** Editing either leaves the store alone or is one update of the first
      record with an id that the dialogue validated for its type. */
  lemma EditIsOneUpdate(rs: seq<Record>, cats: Book, kind: string, inputs: seq<string>, variant: Variant)
    ensures var e := EditTransactionRun(rs, cats, kind, inputs, variant);
            e.state == rs || exists id, f :: FindRecord(rs, id, kind).Some? && e.state == UpdateFirst(rs, id, f)
  {
    EditStoresTypedValue(rs, cats, kind, inputs, variant);
    var e := EditTransactionRun(rs, cats, kind, inputs, variant);
    if e.state != rs {
      var p :| EditsAt(rs, cats, kind, inputs, variant, p) && e == EditedAt(rs, cats, kind, inputs, variant, p);
      var id := DigitsValue(inputs[p]);
      assert FindRecord(rs, id, kind).Some? && e.state == UpdateFirst(rs, id, UpdateAt(rs, cats, kind, inputs, variant, p).reply.value);
    }
  }

  /** The new values the edit's prompts collect when line p is the id and
      line p + 1 the detail choice. */
  function UpdateAt(rs: seq<Record>, cats: Book, kind: string, inputs: seq<string>, variant: Variant, p: int): Prompted<Fields>
    requires 0 <= p && p + 1 < |inputs| && ValidTransactionId(inputs[p], rs, kind)
  {
    UpdatePrompt(variant, inputs[p + 1], rs[FindRecord(rs, DigitsValue(inputs[p]), kind).value], cats, inputs[p + 2..])
  }

  /** Lines p and p + 1 are a validated id and a detail choice from 1 to 4,
      and the prompts after them give the new values. */
  predicate EditsAt(rs: seq<Record>, cats: Book, kind: string, inputs: seq<string>, variant: Variant, p: int)
  {
    0 <= p && p + 1 < |inputs| && ValidTransactionId(inputs[p], rs, kind) &&
    DetailInRange(inputs[p + 1]) && inputs[p + 1] != "5" && UpdateAt(rs, cats, kind, inputs, variant, p).reply.Given?
  }

  /** What an edit at lines p and p + 1 leaves: the first record with the
      typed id holds the collected values, and the closing Enter follows. */
  function EditedAt(rs: seq<Record>, cats: Book, kind: string, inputs: seq<string>, variant: Variant, p: int): Ended<seq<Record>>
    requires EditsAt(rs, cats, kind, inputs, variant, p)
  {
    var u := UpdateAt(rs, cats, kind, inputs, variant, p);
    Acknowledge(UpdateFirst(rs, DigitsValue(inputs[p]), u.reply.value), MANAGE_TRANSACTIONS, u.rest)
  }

  /** e leaves the store alone or is the edit the typed lines ask for. */
  ghost predicate EditsTyped(rs: seq<Record>, cats: Book, kind: string, inputs: seq<string>, variant: Variant, e: Ended<seq<Record>>)
  {
    e.state == rs || exists p :: EditsAt(rs, cats, kind, inputs, variant, p) && e == EditedAt(rs, cats, kind, inputs, variant, p)
  }

  /** The edit updates the record whose id the user typed, with the values
      the prompts took from the lines after the detail choice. */
  lemma {:induction false} EditStoresTypedValue(rs: seq<Record>, cats: Book, kind: string, inputs: seq<string>, variant: Variant)
    ensures EditsTyped(rs, cats, kind, inputs, variant, EditTransactionRun(rs, cats, kind, inputs, variant))
    decreases |inputs|
  {
    var e := EditTransactionRun(rs, cats, kind, inputs, variant);
    if HasType(rs, kind) && inputs != [] && inputs[0] != "cancel" {
      if !ValidTransactionId(inputs[0], rs, kind) {
        EditStoresTypedValue(rs, cats, kind, inputs[1..], variant);
        EditRetryKeepsTyped(rs, cats, kind, inputs, variant, 1, e);
      } else if |inputs| > 1 && inputs[1] != "5" {
        if !DetailInRange(inputs[1]) {
          EditStoresTypedValue(rs, cats, kind, inputs[2..], variant);
          EditRetryKeepsTyped(rs, cats, kind, inputs, variant, 2, e);
        } else {
          var u := UpdateAt(rs, cats, kind, inputs, variant, 0);
          if u.reply.Cancelled? {
            var k := |inputs| - |u.rest|;
            assert u.rest == inputs[k..];
            EditStoresTypedValue(rs, cats, kind, u.rest, variant);
            EditRetryKeepsTyped(rs, cats, kind, inputs, variant, k, e);
          } else if u.reply.Given? {
            assert EditsAt(rs, cats, kind, inputs, variant, 0);
          }
        }
      }
    }
  }

  /** A retry after k skipped lines keeps EditsTyped. */
  lemma EditRetryKeepsTyped(rs: seq<Record>, cats: Book, kind: string, inputs: seq<string>, variant: Variant, k: nat, e: Ended<seq<Record>>)
    requires 0 < k <= |inputs|
    requires EditsTyped(rs, cats, kind, inputs[k..], variant, e)
    ensures EditsTyped(rs, cats, kind, inputs, variant, e)
  {
    if e.state != rs {
      var q :| EditsAt(rs, cats, kind, inputs[k..], variant, q) && e == EditedAt(rs, cats, kind, inputs[k..], variant, q);
      EditsAtShift(rs, cats, kind, inputs, variant, k, q);
    }
  }

  /** Lines skipped in front shift an edit by as many lines. */
  lemma EditsAtShift(rs: seq<Record>, cats: Book, kind: string, inputs: seq<string>, variant: Variant, k: nat, q: int)
    requires k <= |inputs| && EditsAt(rs, cats, kind, inputs[k..], variant, q)
    ensures EditsAt(rs, cats, kind, inputs, variant, q + k)
    ensures EditedAt(rs, cats, kind, inputs[k..], variant, q) == EditedAt(rs, cats, kind, inputs, variant, q + k)
  {
    var later := inputs[k..];
    assert later[q] == inputs[q + k] && later[q + 1] == inputs[q + k + 1];
    assert later[q + 2..] == inputs[q + k + 2..];
    var u := UpdateAt(rs, cats, kind, inputs, variant, q + k);
    assert UpdateAt(rs, cats, kind, later, variant, q) == u;
    assert EditsAt(rs, cats, kind, inputs, variant, q + k);
    var id := DigitsValue(inputs[q + k]);
    var edited := Acknowledge(UpdateFirst(rs, id, u.reply.value), MANAGE_TRANSACTIONS, u.rest);
    assert EditedAt(rs, cats, kind, inputs, variant, q + k) == edited;
    assert EditedAt(rs, cats, kind, later, variant, q) == edited;
  }

  /** The first p lines are whole refused attempts of the edit dialogue: an
      id line that is neither "cancel" nor valid; a valid id and a detail
      choice that is not from 1 to 5; or a valid id, a choice from 1 to 4 and
      a cancel at the prompt for the new value. */
  ghost predicate RefusedEdits(rs: seq<Record>, cats: Book, kind: string, inputs: seq<string>, variant: Variant, p: nat)
    decreases p
  {
    if p == 0 then true
    else if |inputs| < p || inputs[0] == "cancel" then false
    else if !ValidTransactionId(inputs[0], rs, kind) then RefusedEdits(rs, cats, kind, inputs[1..], variant, p - 1)
    else if p < 2 || inputs[1] == "5" then false
    else if !DetailInRange(inputs[1]) then RefusedEdits(rs, cats, kind, inputs[2..], variant, p - 2)
    else
      var u := UpdateAt(rs, cats, kind, inputs, variant, 0);
      var k := |inputs| - |u.rest|;
      u.reply.Cancelled? && 2 <= k <= p && RefusedEdits(rs, cats, kind, inputs[k..], variant, p - k)
  }

  /** An edit at lines p and p + 1 read from the lines after k skipped ones. */
  lemma EditsAtDrop(rs: seq<Record>, cats: Book, kind: string, inputs: seq<string>, variant: Variant, k: nat, p: int)
    requires k <= p && EditsAt(rs, cats, kind, inputs, variant, p)
    ensures EditsAt(rs, cats, kind, inputs[k..], variant, p - k)
    ensures EditedAt(rs, cats, kind, inputs[k..], variant, p - k) == EditedAt(rs, cats, kind, inputs, variant, p)
  {
    var later := inputs[k..];
    var q := p - k;
    assert later[q] == inputs[p] && later[q + 1] == inputs[p + 1];
    assert later[q + 2..] == inputs[p + 2..];
    var u := UpdateAt(rs, cats, kind, inputs, variant, p);
    assert ValidTransactionId(later[q], rs, kind);
    assert UpdateAt(rs, cats, kind, later, variant, q) == u;
    assert EditsAt(rs, cats, kind, later, variant, q);
    var edited := Acknowledge(UpdateFirst(rs, DigitsValue(inputs[p]), u.reply.value), MANAGE_TRANSACTIONS, u.rest);
    assert EditedAt(rs, cats, kind, inputs, variant, p) == edited;
    assert EditedAt(rs, cats, kind, later, variant, q) == edited;
  }

  /** A valid id names a record of the type, so the type has records. */
  lemma ValidIdHasType(text: string, rs: seq<Record>, kind: string)
    requires ValidTransactionId(text, rs, kind)
    ensures HasType(rs, kind)
  {
    var r := FindRecord(rs, DigitsValue(text), kind).value;
    assert EffectiveType(rs[r]) == kind;
  }

  /** An edit at the first two lines is carried out. */
  lemma EditAtFront(rs: seq<Record>, cats: Book, kind: string, inputs: seq<string>, variant: Variant)
    requires HasType(rs, kind) && EditsAt(rs, cats, kind, inputs, variant, 0)
    ensures EditTransactionRun(rs, cats, kind, inputs, variant) == EditedAt(rs, cats, kind, inputs, variant, 0)
  {
  }

  /** An id line that is neither "cancel" nor valid is refused and asked again. */
  lemma InvalidIdSkips(rs: seq<Record>, cats: Book, kind: string, inputs: seq<string>, variant: Variant)
    requires HasType(rs, kind) && inputs != [] && inputs[0] != "cancel" && !ValidTransactionId(inputs[0], rs, kind)
    ensures EditTransactionRun(rs, cats, kind, inputs, variant) == EditTransactionRun(rs, cats, kind, inputs[1..], variant)
  {
  }

  /** A valid id followed by a detail choice that is not from 1 to 5 is
      refused and the id is asked again. */
  lemma ChoiceOutOfRangeSkips(rs: seq<Record>, cats: Book, kind: string, inputs: seq<string>, variant: Variant)
    requires HasType(rs, kind) && 1 < |inputs| && ValidTransactionId(inputs[0], rs, kind) && !DetailInRange(inputs[1])
    ensures EditTransactionRun(rs, cats, kind, inputs, variant) == EditTransactionRun(rs, cats, kind, inputs[2..], variant)
  {
    assert inputs[0] != "cancel" by {
      assert IsDigit(inputs[0][0]);
    }
    assert inputs[1] != "5" by {
      assert DetailInRange("5") by {
        assert DigitsValue("5") == 5;
      }
    }
  }

  /** A cancel at the prompt for the new value goes back to the id prompt. */
  lemma CancelledValueSkips(rs: seq<Record>, cats: Book, kind: string, inputs: seq<string>, variant: Variant)
    requires HasType(rs, kind) && 1 < |inputs| && ValidTransactionId(inputs[0], rs, kind)
    requires DetailInRange(inputs[1]) && inputs[1] != "5" && UpdateAt(rs, cats, kind, inputs, variant, 0).reply.Cancelled?
    ensures var k := |inputs| - |UpdateAt(rs, cats, kind, inputs, variant, 0).rest|;
            0 <= k <= |inputs| &&
            EditTransactionRun(rs, cats, kind, inputs, variant) == EditTransactionRun(rs, cats, kind, inputs[k..], variant)
  {
    assert inputs[0] != "cancel" by {
      assert IsDigit(inputs[0][0]);
    }
    var u := UpdateAt(rs, cats, kind, inputs, variant, 0);
    assert u.rest == inputs[|inputs| - |u.rest|..];
  }

  /** The first k lines are one refused attempt of the edit dialogue. */
  predicate RefusedAttemptOf(rs: seq<Record>, cats: Book, kind: string, inputs: seq<string>, variant: Variant, k: nat)
  {
    && 0 < k <= |inputs| && inputs[0] != "cancel"
    && if !ValidTransactionId(inputs[0], rs, kind) then k == 1
       else
         && 1 < |inputs| && inputs[1] != "5"
         && (if !DetailInRange(inputs[1]) then k == 2
             else
               var u := UpdateAt(rs, cats, kind, inputs, variant, 0);
               u.reply.Cancelled? && k == |inputs| - |u.rest|)
  }

  /** A refused attempt at the front skips its k lines and starts over. */
  lemma AttemptSkips(rs: seq<Record>, cats: Book, kind: string, inputs: seq<string>, variant: Variant, k: nat)
    requires HasType(rs, kind) && RefusedAttemptOf(rs, cats, kind, inputs, variant, k)
    ensures EditTransactionRun(rs, cats, kind, inputs, variant) == EditTransactionRun(rs, cats, kind, inputs[k..], variant)
  {
    if !ValidTransactionId(inputs[0], rs, kind) {
      InvalidIdSkips(rs, cats, kind, inputs, variant);
    } else if !DetailInRange(inputs[1]) {
      ChoiceOutOfRangeSkips(rs, cats, kind, inputs, variant);
    } else {
      CancelledValueSkips(rs, cats, kind, inputs, variant);
    }
  }

  /** Whole refused attempts start with one refused attempt. */
  lemma FirstRefusedAttempt(rs: seq<Record>, cats: Book, kind: string, inputs: seq<string>, variant: Variant, p: nat) returns (k: nat)
    requires 0 < p && RefusedEdits(rs, cats, kind, inputs, variant, p)
    ensures k <= p && RefusedAttemptOf(rs, cats, kind, inputs, variant, k) && RefusedEdits(rs, cats, kind, inputs[k..], variant, p - k)
  {
    if !ValidTransactionId(inputs[0], rs, kind) {
      k := 1;
    } else if !DetailInRange(inputs[1]) {
      k := 2;
    } else {
      k := |inputs| - |UpdateAt(rs, cats, kind, inputs, variant, 0).rest|;
    }
  }

  /** Conversely, after whole refused attempts, a valid id, a detail choice
      from 1 to 4 and a value the prompt takes update the first record with
      that id to the new values. */
  lemma {:induction false} TypedEditUpdates(rs: seq<Record>, cats: Book, kind: string, inputs: seq<string>, variant: Variant, p: nat)
    requires RefusedEdits(rs, cats, kind, inputs, variant, p) && EditsAt(rs, cats, kind, inputs, variant, p)
    ensures EditTransactionRun(rs, cats, kind, inputs, variant) == EditedAt(rs, cats, kind, inputs, variant, p)
    decreases p
  {
    ValidIdHasType(inputs[p], rs, kind);
    if p == 0 {
      EditAtFront(rs, cats, kind, inputs, variant);
    } else {
      var k := FirstRefusedAttempt(rs, cats, kind, inputs, variant, p);
      AttemptSkips(rs, cats, kind, inputs, variant, k);
      EditsAtDrop(rs, cats, kind, inputs, variant, k, p);
      TypedEditUpdates(rs, cats, kind, inputs[k..], variant, p - k);
    }
  }

  /** With ids unique, editing keeps every id and type and changes no record
      of another type, and ids stay strictly increasing. */
  lemma EditKeepsIdsAndTypes(rs: seq<Record>, cats: Book, kind: string, inputs: seq<string>, variant: Variant)
    requires IdsIncreasing(rs)
    ensures var after := EditTransactionRun(rs, cats, kind, inputs, variant).state;
            |after| == |rs| && IdsIncreasing(after) &&
            (forall i :: 0 <= i < |rs| ==> after[i].id == rs[i].id && after[i].kind == rs[i].kind) &&
            (forall i :: 0 <= i < |rs| && after[i] != rs[i] ==> EffectiveType(rs[i]) == kind)
  {
    EditIsOneUpdate(rs, cats, kind, inputs, variant);
    var after := EditTransactionRun(rs, cats, kind, inputs, variant).state;
    if after != rs {
      var id, f :| FindRecord(rs, id, kind).Some? && after == UpdateFirst(rs, id, f);
      StoreFindsValidatedRecord(rs, id, kind);
      UpdateTouchesOneRecord(rs, id, f);
      var k := FindRecord(rs, id, kind).value;
      forall i | 0 <= i < |rs| && after[i] != rs[i] ensures EffectiveType(rs[i]) == kind {
        assert rs[i].id == id;
        assert i == k;
      }
    }
  }

  /** Deleting changes the store only after a yes to the confirmation (the
      last line the dialogue read), and then removes the first record with an
      id that the dialogue validated for its type. */
  lemma {:induction false} DeleteNeedsYes(rs: seq<Record>, kind: string, inputs: seq<string>)
    ensures var e := DeleteTransactionRun(rs, kind, inputs); var n := |inputs| - |e.rest|;
            e.state != rs ==>
              n >= 2 && IsYes(inputs[n - 1]) && e.outcome == Returned(MANAGE_TRANSACTIONS) &&
              exists id :: FindRecord(rs, id, kind).Some? && e.state == DeleteFirst(rs, id)
    decreases |inputs|
  {
    var e := DeleteTransactionRun(rs, kind, inputs);
    if HasType(rs, kind) && inputs != [] && inputs[0] != "cancel" && e.state != rs {
      var n := |inputs| - |e.rest|;
      var tail := inputs[1..];
      if !ValidTransactionId(inputs[0], rs, kind) {
        assert e == DeleteTransactionRun(rs, kind, tail);
        DeleteNeedsYes(rs, kind, tail);
        assert inputs[n - 1] == tail[n - 2];
      } else {
        var id := DigitsValue(inputs[0]);
        assert tail != [] && IsYes(tail[0]);
        assert e == Ended(Returned(MANAGE_TRANSACTIONS), DeleteFirst(rs, id), tail[1..]);
        assert n == 2 && inputs[n - 1] == tail[0];
        assert FindRecord(rs, id, kind).Some? && e.state == DeleteFirst(rs, id);
      }
    }
  }

  /** The record deleted is the one whose id the user typed: line n - 2 (n
      being the number of lines read) is a validated id, line n - 1 the yes,
      and every line before was neither "cancel" nor a valid id. */
  lemma {:induction false} DeleteRemovesTypedId(rs: seq<Record>, kind: string, inputs: seq<string>)
    ensures var e := DeleteTransactionRun(rs, kind, inputs); var n := |inputs| - |e.rest|;
            e.state != rs ==>
              n >= 2 && ValidTransactionId(inputs[n - 2], rs, kind) && IsYes(inputs[n - 1]) &&
              e.state == DeleteFirst(rs, DigitsValue(inputs[n - 2])) &&
              forall j :: 0 <= j < n - 2 ==> inputs[j] != "cancel" && !ValidTransactionId(inputs[j], rs, kind)
    decreases |inputs|
  {
    if HasType(rs, kind) && inputs != [] && inputs[0] != "cancel" {
      var e := DeleteTransactionRun(rs, kind, inputs);
      var n := |inputs| - |e.rest|;
      if !ValidTransactionId(inputs[0], rs, kind) {
        var tail := inputs[1..];
        assert e == DeleteTransactionRun(rs, kind, tail);
        DeleteRemovesTypedId(rs, kind, tail);
        if e.state != rs {
          assert inputs[n - 2] == tail[n - 3] && inputs[n - 1] == tail[n - 2];
          forall j | 0 <= j < n - 2 ensures inputs[j] != "cancel" && !ValidTransactionId(inputs[j], rs, kind) {
            if j > 0 {
              assert inputs[j] == tail[j - 1];
            }
          }
        }
      }
    }
  }

  /** Conversely, after lines that are neither "cancel" nor a valid id, a
      valid id followed by a yes deletes the first record with that id. */
  lemma {:induction false} TypedIdDeletes(rs: seq<Record>, kind: string, inputs: seq<string>, p: int)
    requires 0 <= p && p + 1 < |inputs|
    requires forall j :: 0 <= j < p ==> inputs[j] != "cancel" && !ValidTransactionId(inputs[j], rs, kind)
    requires ValidTransactionId(inputs[p], rs, kind) && IsYes(inputs[p + 1])
    ensures DeleteTransactionRun(rs, kind, inputs) ==
              Ended(Returned(MANAGE_TRANSACTIONS), DeleteFirst(rs, DigitsValue(inputs[p])), inputs[p + 2..])
    decreases p
  {
    ValidIdHasType(inputs[p], rs, kind);
    if p > 0 {
      var tail := inputs[1..];
      forall j | 0 <= j < p - 1 ensures tail[j] != "cancel" && !ValidTransactionId(tail[j], rs, kind) {
        assert tail[j] == inputs[j + 1];
      }
      assert tail[p - 1] == inputs[p] && tail[p] == inputs[p + 1] && tail[p + 1..] == inputs[p + 2..];
      TypedIdDeletes(rs, kind, tail, p - 1);
    } else {
      assert inputs[1..][1..] == inputs[2..];
    }
  }

  /** With ids unique, a delete removes exactly the record with that id and
      keeps ids strictly increasing. */
  lemma DeleteFlowKeepsIdsIncreasing(rs: seq<Record>, kind: string, inputs: seq<string>)
    requires IdsIncreasing(rs)
    ensures var after := DeleteTransactionRun(rs, kind, inputs).state;
            IdsIncreasing(after) && (after == rs || exists id :: HasType(rs, kind) && after == WithoutId(rs, id))
    ensures var e := DeleteTransactionRun(rs, kind, inputs); var n := |inputs| - |e.rest|;
            e.state == rs ||
            (n >= 2 && ValidTransactionId(inputs[n - 2], rs, kind) && e.state == WithoutId(rs, DigitsValue(inputs[n - 2])))
  {
    DeleteRemovesTypedId(rs, kind, inputs);
    var e := DeleteTransactionRun(rs, kind, inputs);
    var after := e.state;
    if after != rs {
      var n := |inputs| - |e.rest|;
      var id := DigitsValue(inputs[n - 2]);
      var k := FindRecord(rs, id, kind).value;
      assert EffectiveType(rs[k]) == kind;
      DeleteKeepsIdsIncreasing(rs, id);
      DeleteIsFilterById(rs, id);
    }
  }
}
