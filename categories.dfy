/** The category store of src/ui/category_ui.py and its dialogues: a JSON
    object mapping a transaction type ("expense", "income") to the list of its
    category names, changed in place and saved after every change. */
module Categories {
  import opened Common
  import opened Text
  import opened Dialog

  /** The token every category dialogue hands back to the menu. */
  const MANAGE_CATEGORIES := "manage_categories"

  /** The loaded categories file. */
  type Book = map<string, seq<string>>

  predicate NoDuplicates(names: seq<string>)
  {
    forall i, j :: 0 <= i < j < |names| ==> names[i] != names[j]
  }

  /** No type lists the same category twice. */
  predicate Unique(b: Book)
  {
    forall k :: k in b ==> NoDuplicates(b[k])
  }

  /** The two types the program itself uses, and no other key. */
  predicate Standard(b: Book)
  {
    b.Keys == {"expense", "income"}
  }

  /** The file _load_categories writes when there is none. */
  function DefaultCategories(): (b: Book)
    ensures Standard(b) && Unique(b)
    ensures forall k :: k in b ==> b[k] == []
  {
    map["expense" := [], "income" := []]
  }

  /** get_category_list: the list stored under the type; KeyError when the
      file has no such type. */
  function CategoryList(b: Book, kind: string): (r: Result<seq<string>>)
    ensures r.Ok? <==> kind in b
    ensures r.Ok? ==> r.value == b[kind]
    ensures r.Err? ==> r.error == KeyError
  {
    if kind in b then Ok(b[kind]) else Err(KeyError)
  }

  /** _validate_category_index: a non-empty string of digits naming one of the
      listed categories or the extra "go back" entry |names| + 1. */
  predicate ValidCategoryIndex(names: seq<string>, text: string)
  {
    IsDigits(text) && 1 <= DigitsValue(text) <= |names| + 1
  }

  /** _validate_category_name(category_type, category_name, choice): an empty
      name is refused; when `choice` is a non-empty string the name must differ
      from the entry at position int(choice) - 1 (Python indexing, so int(),
      the list lookup and the type lookup can raise); and the name must not
      already be listed under the type. */
  function ValidateCategoryName(b: Book, kind: string, name: string, choice: Option<string>): (r: Result<bool>)
    ensures r == Ok(true) ==> name != "" && kind in b && name !in b[kind]
    ensures name == "" ==> r == Ok(false)
    ensures kind in b && name !in b[kind] && name != "" && (choice.None? || choice.value == "") ==> r == Ok(true)
    ensures r.Err? ==> name != "" && (kind !in b || (choice.Some? && choice.value != ""))
    ensures kind in b && choice.Some? && IsDigits(choice.value) && 1 <= DigitsValue(choice.value) <= |b[kind]| ==> r.Ok?
  {
    if name == "" then Ok(false)
    else if choice.Some? && choice.value != "" then
      if kind !in b then Err(KeyError)
      else match PyInt(choice.value)
        case None => Err(ValueError)
        case Some(v) =>
          match PyIndex(b[kind], v - 1)
          case None => Err(IndexError)
          case Some(previous) =>
            if name == previous then Ok(false) else Ok(name !in b[kind])
    else if kind !in b then Err(KeyError)
    else Ok(name !in b[kind])
  }

  // ---------------------------------------------------------------------
  // The dialogues, as the functions of the typed lines they consume

  /** add_category_ui: asks for a name until one passes the name check; a
      passing "cancel" backs out, any other passing name is appended. */
  function AddCategoryRun(b: Book, kind: string, inputs: seq<string>): (e: Ended<Book>)
    ensures SuffixOf(e.rest, inputs)
    ensures e.outcome.Returned? ==> e.outcome.token == MANAGE_CATEGORIES
    ensures e.outcome.Crashed? <==> kind !in b
    decreases |inputs|
  {
    if kind !in b then Ended(Crashed(KeyError), b, inputs)
    else if inputs == [] then Ended(EndOfInput, b, [])
    else
      var name := inputs[0];
      match ValidateCategoryName(b, kind, name, None)
      case Err(error) => Ended(Crashed(error), b, inputs[1..])
      case Ok(accepted) =>
        if !accepted then AddCategoryRun(b, kind, inputs[1..])
        else if name == "cancel" then Ended(Returned(MANAGE_CATEGORIES), b, inputs[1..])
        else Acknowledge(b[kind := b[kind] + [name]], MANAGE_CATEGORIES, inputs[1..])
  }

  /** The name check of the edit dialogue. As written, the call at
      src/ui/category_ui.py:86 passes (edit_choice, category_type,
      new_category_name) to parameters (category_type, category_name, choice);
      the intended call passes them in parameter order. */
  function EditNameVerdict(check: Variant, b: Book, kind: string, choice: string, name: string): Result<bool>
  {
    match check
    case AsWritten => ValidateCategoryName(b, choice, kind, Some(name))
    case Intended => ValidateCategoryName(b, kind, name, Some(choice))
  }

  /** edit_category_ui: with an empty list it only acknowledges; otherwise it
      asks for a position (retrying on an invalid one, backing out on
      |list| + 1), then for the new name, and renames when the name check
      passes, retrying from the start when it fails. */
  function EditCategoryRun(b: Book, kind: string, inputs: seq<string>, check: Variant): (e: Ended<Book>)
    ensures SuffixOf(e.rest, inputs)
    ensures e.outcome.Returned? ==> e.outcome.token == MANAGE_CATEGORIES
    decreases |inputs|
  {
    if kind !in b then Ended(Crashed(KeyError), b, inputs)
    else if b[kind] == [] then Acknowledge(b, MANAGE_CATEGORIES, inputs)
    else if inputs == [] then Ended(EndOfInput, b, [])
    else
      var choice := inputs[0];
      if !ValidCategoryIndex(b[kind], choice) then EditCategoryRun(b, kind, inputs[1..], check)
      else if DigitsValue(choice) == |b[kind]| + 1 then Ended(Returned(MANAGE_CATEGORIES), b, inputs[1..])
      else if |inputs| == 1 then Ended(EndOfInput, b, [])
      else
        var name := inputs[1];
        match EditNameVerdict(check, b, kind, choice, name)
        case Err(error) => Ended(Crashed(error), b, inputs[2..])
        case Ok(accepted) =>
          if !accepted then EditCategoryRun(b, kind, inputs[2..], check)
          else Acknowledge(b[kind := b[kind][DigitsValue(choice) - 1 := name]], MANAGE_CATEGORIES, inputs[2..])
  }

  /** delete_category_ui: with an empty list it only acknowledges; otherwise it
      asks for a position (retrying on an invalid one, backing out on
      |list| + 1) and pops that entry. */
  function DeleteCategoryRun(b: Book, kind: string, inputs: seq<string>): (e: Ended<Book>)
    ensures SuffixOf(e.rest, inputs)
    ensures e.outcome.Returned? ==> e.outcome.token == MANAGE_CATEGORIES
    ensures e.outcome.Crashed? <==> kind !in b
    decreases |inputs|
  {
    if kind !in b then Ended(Crashed(KeyError), b, inputs)
    else if b[kind] == [] then Acknowledge(b, MANAGE_CATEGORIES, inputs)
    else if inputs == [] then Ended(EndOfInput, b, [])
    else
      var choice := inputs[0];
      if !ValidCategoryIndex(b[kind], choice) then DeleteCategoryRun(b, kind, inputs[1..])
      else if DigitsValue(choice) == |b[kind]| + 1 then Ended(Returned(MANAGE_CATEGORIES), b, inputs[1..])
      else
        var i := DigitsValue(choice) - 1;
        Acknowledge(b[kind := b[kind][..i] + b[kind][i + 1..]], MANAGE_CATEGORIES, inputs[1..])
  }

  /** The category UI object: the loaded file, changed by its dialogues. */
  class CategoryBook {
    var categories: Book

    /** _load_categories: the stored object, or the default one when the file
        is absent (it is written first, then read back). */
    constructor (stored: Option<Book>)
      ensures stored.None? ==> categories == DefaultCategories()
      ensures stored.Some? ==> categories == stored.value
    {
      categories := if stored.None? then DefaultCategories() else stored.value;
    }

    method AddCategory(console: Console, kind: string) returns (outcome: FlowOutcome)
      modifies this, console
      ensures Ended(outcome, categories, console.pending) == AddCategoryRun(old(categories), kind, old(console.pending))
      decreases |console.pending|
    {
      if kind !in categories {
        return Crashed(KeyError);
      }
      var line := console.ReadLine();
      if line.None? {
        return EndOfInput;
      }
      var name := line.value;
      var accepted;
      match ValidateCategoryName(categories, kind, name, None)
      case Err(error) =>
        return Crashed(error);
      case Ok(verdict) =>
        accepted := verdict;
      if !accepted {
        outcome := AddCategory(console, kind);
        return;
      }
      if name == "cancel" {
        return Returned(MANAGE_CATEGORIES);
      }
      categories := categories[kind := categories[kind] + [name]];
      outcome := console.Acknowledged(categories, MANAGE_CATEGORIES);
    }

    method EditCategory(console: Console, kind: string, check: Variant) returns (outcome: FlowOutcome)
      modifies this, console
      ensures Ended(outcome, categories, console.pending) == EditCategoryRun(old(categories), kind, old(console.pending), check)
      decreases |console.pending|
    {
      if kind !in categories {
        return Crashed(KeyError);
      }
      if categories[kind] == [] {
        outcome := console.Acknowledged(categories, MANAGE_CATEGORIES);
        return;
      }
      var line := console.ReadLine();
      if line.None? {
        return EndOfInput;
      }
      var choice := line.value;
      if !ValidCategoryIndex(categories[kind], choice) {
        outcome := EditCategory(console, kind, check);
        return;
      }
      var position := DigitsValue(choice);
      if position == |categories[kind]| + 1 {
        return Returned(MANAGE_CATEGORIES);
      }
      line := console.ReadLine();
      if line.None? {
        return EndOfInput;
      }
      var name := line.value;
      var verdict := EditNameVerdict(check, categories, kind, choice, name);
      if verdict.Err? {
        return Crashed(verdict.error);
      }
      if !verdict.value {
        outcome := EditCategory(console, kind, check);
        return;
      }
      categories := categories[kind := categories[kind][position - 1 := name]];
      outcome := console.Acknowledged(categories, MANAGE_CATEGORIES);
    }

    method DeleteCategory(console: Console, kind: string) returns (outcome: FlowOutcome)
      modifies this, console
      ensures Ended(outcome, categories, console.pending) == DeleteCategoryRun(old(categories), kind, old(console.pending))
      decreases |console.pending|
    {
      if kind !in categories {
        return Crashed(KeyError);
      }
      if categories[kind] == [] {
        outcome := console.Acknowledged(categories, MANAGE_CATEGORIES);
        return;
      }
      var line := console.ReadLine();
      if line.None? {
        return EndOfInput;
      }
      var choice := line.value;
      if !ValidCategoryIndex(categories[kind], choice) {
        outcome := DeleteCategory(console, kind);
        return;
      }
      var position := DigitsValue(choice);
      if position == |categories[kind]| + 1 {
        return Returned(MANAGE_CATEGORIES);
      }
      var names := categories[kind];
      categories := categories[kind := names[..position - 1] + names[position..]];
      outcome := console.Acknowledged(categories, MANAGE_CATEGORIES);
    }

    /** view_category_ui: reads both lists (KeyError when one is missing) and
        waits for Enter; the file is left as it is. */
    method ViewCategories(console: Console) returns (outcome: FlowOutcome)
      modifies console
      ensures "expense" !in categories || "income" !in categories ==>
                outcome == Crashed(KeyError) && console.pending == old(console.pending)
      ensures "expense" in categories && "income" in categories ==>
                Ended(outcome, categories, console.pending) == Acknowledge(categories, MANAGE_CATEGORIES, old(console.pending))
    {
      if "expense" !in categories || "income" !in categories {
        return Crashed(KeyError);
      }
      outcome := console.Acknowledged(categories, MANAGE_CATEGORIES);
    }
  }

  // ---------------------------------------------------------------------
  // What the dialogues do to the file

  /** A name the checks let in: not empty and not yet listed. */
  predicate FreshName(name: string, names: seq<string>)
  {
    name != "" && name !in names
  }

  /** after is before with one fresh name, other than "cancel", appended to the
      list of kind. */
  predicate AppendedFreshName(before: Book, after: Book, kind: string)
  {
    kind in before && kind in after && |after[kind]| == |before[kind]| + 1 &&
    var name := after[kind][|before[kind]|];
    after == before[kind := before[kind] + [name]] && FreshName(name, before[kind]) && name != "cancel"
  }

  /** after is before with one entry of the list of kind replaced by a fresh name. */
  predicate RenamedOne(before: Book, after: Book, kind: string)
  {
    kind in before && kind in after && |after[kind]| == |before[kind]| &&
    exists i :: 0 <= i < |before[kind]| && after == before[kind := before[kind][i := after[kind][i]]] && FreshName(after[kind][i], before[kind])
  }

  /** after is before with one entry of the list of kind removed, order kept. */
  predicate RemovedOne(before: Book, after: Book, kind: string)
  {
    kind in before &&
    exists i :: 0 <= i < |before[kind]| && after == before[kind := before[kind][..i] + before[kind][i + 1..]]
  }

  /** Adding either leaves the file alone or appends one fresh name; "cancel"
      is never added. */
  lemma {:induction false} AddAppendsFreshName(b: Book, kind: string, inputs: seq<string>)
    ensures var e := AddCategoryRun(b, kind, inputs); e.state == b || AppendedFreshName(b, e.state, kind)
    decreases |inputs|
  {
    if kind in b && inputs != [] {
      var name := inputs[0];
      match ValidateCategoryName(b, kind, name, None)
      case Err(_) =>
      case Ok(accepted) =>
        if !accepted {
          AddAppendsFreshName(b, kind, inputs[1..]);
        } else if name != "cancel" {
          var after := b[kind := b[kind] + [name]];
          assert after[kind][|b[kind]|] == name;
        }
    }
  }

  /** Line p is the name add_category_ui appends: every line before it was
      refused (empty or already listed), and it passes the checks and is not
      "cancel". */
  predicate AddsLine(b: Book, kind: string, inputs: seq<string>, p: int)
  {
    kind in b && 0 <= p < |inputs| &&
    (forall j :: 0 <= j < p ==> !FreshName(inputs[j], b[kind])) &&
    FreshName(inputs[p], b[kind]) && inputs[p] != "cancel"
  }

  /** The name added is the line the user typed: the dialogue appends it and
      then reads the closing Enter from the line after it. */
  lemma {:induction false} AddStoresTypedName(b: Book, kind: string, inputs: seq<string>)
    ensures var e := AddCategoryRun(b, kind, inputs);
            e.state == b ||
            exists p :: AddsLine(b, kind, inputs, p) &&
              e == Acknowledge(b[kind := b[kind] + [inputs[p]]], MANAGE_CATEGORIES, inputs[p + 1..])
    decreases |inputs|
  {
    if kind in b && inputs != [] {
      var tail := inputs[1..];
      var e := AddCategoryRun(b, kind, inputs);
      if !FreshName(inputs[0], b[kind]) {
        assert ValidateCategoryName(b, kind, inputs[0], None) == Ok(false);
        AddStoresTypedName(b, kind, tail);
        if e.state != b {
          var q :| AddsLine(b, kind, tail, q) &&
                   e == Acknowledge(b[kind := b[kind] + [tail[q]]], MANAGE_CATEGORIES, tail[q + 1..]);
          AddsLineAfterRefused(b, kind, inputs, q);
        }
      } else if inputs[0] != "cancel" {
        assert AddsLine(b, kind, inputs, 0);
      }
    }
  }

  /** Conversely, the first fresh line other than "cancel" is appended: when
      every line before p was refused and line p passes the checks, the
      dialogue adds exactly that name and reads the closing Enter after it. */
  lemma {:induction false} AddsLineAppends(b: Book, kind: string, inputs: seq<string>, p: int)
    requires AddsLine(b, kind, inputs, p)
    ensures AddCategoryRun(b, kind, inputs) == Acknowledge(b[kind := b[kind] + [inputs[p]]], MANAGE_CATEGORIES, inputs[p + 1..])
    decreases p
  {
    if p > 0 {
      assert !FreshName(inputs[0], b[kind]);
      assert ValidateCategoryName(b, kind, inputs[0], None) == Ok(false);
      var tail := inputs[1..];
      forall j | 0 <= j < p - 1 ensures !FreshName(tail[j], b[kind]) {
        assert tail[j] == inputs[j + 1];
      }
      assert tail[p - 1] == inputs[p] && tail[p..] == inputs[p + 1..];
      AddsLineAppends(b, kind, tail, p - 1);
    } else {
      assert ValidateCategoryName(b, kind, inputs[0], None) == Ok(true);
    }
  }

  /** A refused line shifts the appended line by one. */
  lemma AddsLineAfterRefused(b: Book, kind: string, inputs: seq<string>, q: int)
    requires kind in b && inputs != [] && !FreshName(inputs[0], b[kind])
    requires AddsLine(b, kind, inputs[1..], q)
    ensures AddsLine(b, kind, inputs, q + 1)
    ensures inputs[1..][q] == inputs[q + 1] && inputs[1..][q + 1..] == inputs[q + 2..]
  {
    forall j | 0 <= j < q + 1 ensures !FreshName(inputs[j], b[kind]) {
      if j > 0 {
        assert inputs[j] == inputs[1..][j - 1];
      }
    }
  }

  lemma AppendedFreshNameKeepsUnique(before: Book, after: Book, kind: string)
    requires Unique(before) && AppendedFreshName(before, after, kind)
    ensures Unique(after)
  {
    var names := after[kind];
    forall i, j | 0 <= i < j < |names| ensures names[i] != names[j] {
      if j == |names| - 1 {
        assert names[i] == before[kind][i];
      } else {
        assert names[i] == before[kind][i] && names[j] == before[kind][j];
      }
    }
  }

  /** Adding never creates a duplicate in a file that has none. */
  lemma AddKeepsUnique(b: Book, kind: string, inputs: seq<string>)
    requires Unique(b)
    ensures Unique(AddCategoryRun(b, kind, inputs).state)
  {
    AddAppendsFreshName(b, kind, inputs);
    var after := AddCategoryRun(b, kind, inputs).state;
    if after != b {
      AppendedFreshNameKeepsUnique(b, after, kind);
    }
  }

  /** The edit with the intended name check either leaves the file alone or
      gives one entry a fresh name. */
  lemma {:induction false} EditIntendedRenamesOne(b: Book, kind: string, inputs: seq<string>)
    ensures var e := EditCategoryRun(b, kind, inputs, Intended); e.state == b || RenamedOne(b, e.state, kind)
    decreases |inputs|
  {
    if kind in b && b[kind] != [] && inputs != [] {
      var choice := inputs[0];
      if !ValidCategoryIndex(b[kind], choice) {
        EditIntendedRenamesOne(b, kind, inputs[1..]);
      } else if DigitsValue(choice) != |b[kind]| + 1 && |inputs| > 1 {
        var name := inputs[1];
        match EditNameVerdict(Intended, b, kind, choice, name)
        case Err(_) =>
        case Ok(accepted) =>
          if !accepted {
            EditIntendedRenamesOne(b, kind, inputs[2..]);
          } else {
            var i := DigitsValue(choice) - 1;
            var after := b[kind := b[kind][i := name]];
            assert after[kind][i] == name;
            assert after == b[kind := b[kind][i := after[kind][i]]];
          }
      }
    }
  }

  /** Lines p and p + 1 are the position and the new name of a rename: the
      position names an entry of the list and the name is fresh. */
  predicate RenamesLine(b: Book, kind: string, inputs: seq<string>, p: int)
  {
    kind in b && 0 <= p && p + 1 < |inputs| &&
    ValidCategoryIndex(b[kind], inputs[p]) && DigitsValue(inputs[p]) <= |b[kind]| &&
    FreshName(inputs[p + 1], b[kind])
  }

  /** What a rename at lines p and p + 1 leaves: the entry at the typed
      position holds the typed name, and the closing Enter follows. */
  function RenamedAt(b: Book, kind: string, inputs: seq<string>, p: int): Ended<Book>
    requires RenamesLine(b, kind, inputs, p)
  {
    Acknowledge(b[kind := b[kind][DigitsValue(inputs[p]) - 1 := inputs[p + 1]]], MANAGE_CATEGORIES, inputs[p + 2..])
  }

  /** Lines skipped in front shift a rename by as many lines. */
  lemma RenamesLineShift(b: Book, kind: string, inputs: seq<string>, k: nat, q: int)
    requires k <= |inputs| && RenamesLine(b, kind, inputs[k..], q)
    ensures RenamesLine(b, kind, inputs, q + k)
    ensures RenamedAt(b, kind, inputs[k..], q) == RenamedAt(b, kind, inputs, q + k)
  {
    assert inputs[k..][q] == inputs[q + k] && inputs[k..][q + 1] == inputs[q + k + 1];
    assert inputs[k..][q + 2..] == inputs[q + k + 2..];
  }

  /** The intended edit renames the entry at the position the user typed to
      the name typed on the next line. */
  lemma {:induction false} EditIntendedStoresTypedName(b: Book, kind: string, inputs: seq<string>)
    ensures var e := EditCategoryRun(b, kind, inputs, Intended);
            e.state == b || exists p :: RenamesLine(b, kind, inputs, p) && e == RenamedAt(b, kind, inputs, p)
    decreases |inputs|
  {
    if kind in b && b[kind] != [] && inputs != [] {
      var e := EditCategoryRun(b, kind, inputs, Intended);
      var choice := inputs[0];
      var skip := 0;
      if !ValidCategoryIndex(b[kind], choice) {
        skip := 1;
      } else if DigitsValue(choice) != |b[kind]| + 1 && |inputs| > 1 {
        var name := inputs[1];
        PyIntOfDigits(choice);
        if FreshName(name, b[kind]) {
          assert EditNameVerdict(Intended, b, kind, choice, name) == Ok(true);
          assert RenamesLine(b, kind, inputs, 0);
        } else {
          assert EditNameVerdict(Intended, b, kind, choice, name) == Ok(false);
          skip := 2;
        }
      }
      if skip > 0 {
        assert e == EditCategoryRun(b, kind, inputs[skip..], Intended);
        EditIntendedStoresTypedName(b, kind, inputs[skip..]);
        if e.state != b {
          var q :| RenamesLine(b, kind, inputs[skip..], q) && e == RenamedAt(b, kind, inputs[skip..], q);
          RenamesLineShift(b, kind, inputs, skip, q);
        }
      }
    }
  }

  /** The first p lines are whole refused attempts of the edit dialogue: a
      line naming no position, or the position of an entry followed by a name
      that is not fresh. */
  predicate RefusedAttempts(names: seq<string>, inputs: seq<string>, p: nat)
    decreases p
  {
    if p == 0 then true
    else if |inputs| < p then false
    else if !ValidCategoryIndex(names, inputs[0]) then RefusedAttempts(names, inputs[1..], p - 1)
    else 2 <= p && DigitsValue(inputs[0]) <= |names| && !FreshName(inputs[1], names) && RefusedAttempts(names, inputs[2..], p - 2)
  }

  /** With the intended call the name check passes exactly on a fresh name,
      once the position names an entry. */
  lemma IntendedVerdictIsFresh(b: Book, kind: string, choice: string, name: string)
    requires kind in b && ValidCategoryIndex(b[kind], choice) && DigitsValue(choice) <= |b[kind]|
    ensures EditNameVerdict(Intended, b, kind, choice, name) == Ok(FreshName(name, b[kind]))
  {
    PyIntOfDigits(choice);
  }

  /** A rename at lines p and p + 1 read from the lines after k skipped ones. */
  lemma RenamesLineDrop(b: Book, kind: string, inputs: seq<string>, k: nat, p: int)
    requires k <= p && RenamesLine(b, kind, inputs, p)
    ensures RenamesLine(b, kind, inputs[k..], p - k)
    ensures RenamedAt(b, kind, inputs[k..], p - k) == RenamedAt(b, kind, inputs, p)
  {
    assert inputs[k..][p - k] == inputs[p] && inputs[k..][p - k + 1] == inputs[p + 1];
    RenamesLineShift(b, kind, inputs, k, p - k);
  }

  /** A refused attempt at the front skips its k lines and starts over. */
  lemma RefusedAttemptSkips(b: Book, kind: string, inputs: seq<string>, p: nat) returns (k: nat)
    requires kind in b && b[kind] != [] && 0 < p && RefusedAttempts(b[kind], inputs, p)
    ensures 0 < k <= p && RefusedAttempts(b[kind], inputs[k..], p - k)
    ensures EditCategoryRun(b, kind, inputs, Intended) == EditCategoryRun(b, kind, inputs[k..], Intended)
  {
    if !ValidCategoryIndex(b[kind], inputs[0]) {
      k := 1;
    } else {
      IntendedVerdictIsFresh(b, kind, inputs[0], inputs[1]);
      k := 2;
    }
  }

  /** A rename typed on the first two lines is carried out. */
  lemma RenamesAtFront(b: Book, kind: string, inputs: seq<string>)
    requires kind in b && RenamesLine(b, kind, inputs, 0)
    ensures EditCategoryRun(b, kind, inputs, Intended) == RenamedAt(b, kind, inputs, 0)
  {
    IntendedVerdictIsFresh(b, kind, inputs[0], inputs[1]);
  }

  /** Conversely, after whole refused attempts, a position naming an entry
      and a fresh name rename that entry to that name with the intended call. */
  lemma {:induction false} RenamesAfterRefused(b: Book, kind: string, inputs: seq<string>, p: nat)
    requires kind in b && RefusedAttempts(b[kind], inputs, p) && RenamesLine(b, kind, inputs, p)
    ensures EditCategoryRun(b, kind, inputs, Intended) == RenamedAt(b, kind, inputs, p)
    decreases p
  {
    assert b[kind] != [];
    if p == 0 {
      RenamesAtFront(b, kind, inputs);
    } else {
      var k := RefusedAttemptSkips(b, kind, inputs, p);
      RenamesLineDrop(b, kind, inputs, k, p);
      RenamesAfterRefused(b, kind, inputs[k..], p - k);
    }
  }

  lemma RenamedOneKeepsUnique(before: Book, after: Book, kind: string)
    requires Unique(before) && RenamedOne(before, after, kind)
    ensures Unique(after)
  {
    var k :| 0 <= k < |before[kind]| && after == before[kind := before[kind][k := after[kind][k]]] && FreshName(after[kind][k], before[kind]);
    var names := after[kind];
    forall i, j | 0 <= i < j < |names| ensures names[i] != names[j] {
      if i != k && j != k {
        assert names[i] == before[kind][i] && names[j] == before[kind][j];
      } else if i == k {
        assert names[j] == before[kind][j];
      } else {
        assert names[i] == before[kind][i];
      }
    }
  }

  /** The intended edit never creates a duplicate in a file that has none. */
  lemma RenameKeepsUnique(b: Book, kind: string, inputs: seq<string>)
    requires Unique(b)
    ensures Unique(EditCategoryRun(b, kind, inputs, Intended).state)
  {
    EditIntendedRenamesOne(b, kind, inputs);
    var after := EditCategoryRun(b, kind, inputs, Intended).state;
    if after != b {
      RenamedOneKeepsUnique(b, after, kind);
    }
  }

  /** The intended edit raises only when the type is missing. */
  lemma {:induction false} RenameCrashesOnlyOnMissingType(b: Book, kind: string, inputs: seq<string>)
    ensures EditCategoryRun(b, kind, inputs, Intended).outcome.Crashed? <==> kind !in b
    decreases |inputs|
  {
    if kind in b && b[kind] != [] && inputs != [] {
      var choice := inputs[0];
      if !ValidCategoryIndex(b[kind], choice) {
        RenameCrashesOnlyOnMissingType(b, kind, inputs[1..]);
      } else if DigitsValue(choice) != |b[kind]| + 1 && |inputs| > 1 {
        var name := inputs[1];
        if EditNameVerdict(Intended, b, kind, choice, name) == Ok(false) {
          RenameCrashesOnlyOnMissingType(b, kind, inputs[2..]);
        }
      }
    }
  }

  /** The edit as written never renames anything in a file holding just the
      two standard types: every name that reaches the check raises KeyError,
      because the digits typed as a position are looked up as a type. */
  lemma {:induction false} EditAsWrittenNeverRenames(b: Book, kind: string, inputs: seq<string>)
    requires Standard(b)
    ensures var e := EditCategoryRun(b, kind, inputs, AsWritten);
            e.state == b && (e.outcome.Crashed? ==> e.outcome.error == KeyError)
    decreases |inputs|
  {
    if kind in b && b[kind] != [] && inputs != [] {
      var choice := inputs[0];
      if !ValidCategoryIndex(b[kind], choice) {
        EditAsWrittenNeverRenames(b, kind, inputs[1..]);
      } else if DigitsValue(choice) != |b[kind]| + 1 && |inputs| > 1 {
        assert choice !in b by {
          assert IsDigit(choice[0]);
        }
        assert kind != "";
        assert EditNameVerdict(AsWritten, b, kind, choice, inputs[1]) == Err(KeyError);
      }
    }
  }

  /** Renaming the only expense category as written: the program raises
      KeyError and keeps the old name. */
  lemma EditAsWrittenCrashes()
    ensures var b := map["expense" := ["Food"], "income" := []];
            var e := EditCategoryRun(b, "expense", ["1", "Meals"], AsWritten);
            e.outcome == Crashed(KeyError) && e.state == b
  {
    var b := map["expense" := ["Food"], "income" := []];
    assert ValidCategoryIndex(b["expense"], "1") && DigitsValue("1") == 1;
    assert "1" !in b;
    assert EditNameVerdict(AsWritten, b, "expense", "1", "Meals") == Err(KeyError);
  }

  /** The same input with the intended call renames "Food" to "Meals". */
  lemma RenameIntended()
    ensures var b := map["expense" := ["Food"], "income" := []];
            var e := EditCategoryRun(b, "expense", ["1", "Meals", ""], Intended);
            e.outcome == Returned(MANAGE_CATEGORIES) && e.state == b["expense" := ["Meals"]]
  {
    var b := map["expense" := ["Food"], "income" := []];
    assert ValidCategoryIndex(b["expense"], "1") && DigitsValue("1") == 1;
    PyIntOfDigits("1");
    assert PyIndex(b["expense"], 0) == Some("Food");
    assert EditNameVerdict(Intended, b, "expense", "1", "Meals") == Ok(true);
    assert b["expense"][0 := "Meals"] == ["Meals"];
  }

  /** Deleting either leaves the file alone or removes exactly one entry. */
  lemma {:induction false} DeleteRemovesOne(b: Book, kind: string, inputs: seq<string>)
    ensures var e := DeleteCategoryRun(b, kind, inputs); e.state == b || RemovedOne(b, e.state, kind)
    decreases |inputs|
  {
    if kind in b && b[kind] != [] && inputs != [] {
      var choice := inputs[0];
      if !ValidCategoryIndex(b[kind], choice) {
        DeleteRemovesOne(b, kind, inputs[1..]);
      }
    }
  }

  /** Line p is the position delete_category_ui removes: every line before it
      was not a valid choice, and it names an entry of the list. */
  predicate DeletesLine(b: Book, kind: string, inputs: seq<string>, p: int)
  {
    kind in b && 0 <= p < |inputs| &&
    (forall j :: 0 <= j < p ==> !ValidCategoryIndex(b[kind], inputs[j])) &&
    ValidCategoryIndex(b[kind], inputs[p]) && DigitsValue(inputs[p]) <= |b[kind]|
  }

  /** The entry removed is the one at the position the user typed, counted
      from 1; the closing Enter is the line after it. */
  lemma {:induction false} DeleteRemovesTypedPosition(b: Book, kind: string, inputs: seq<string>)
    ensures var e := DeleteCategoryRun(b, kind, inputs);
            e.state == b ||
            exists p :: DeletesLine(b, kind, inputs, p) &&
              var i := DigitsValue(inputs[p]) - 1;
              e == Acknowledge(b[kind := b[kind][..i] + b[kind][i + 1..]], MANAGE_CATEGORIES, inputs[p + 1..])
    decreases |inputs|
  {
    if kind in b && b[kind] != [] && inputs != [] {
      var tail := inputs[1..];
      var e := DeleteCategoryRun(b, kind, inputs);
      if !ValidCategoryIndex(b[kind], inputs[0]) {
        assert e == DeleteCategoryRun(b, kind, tail);
        DeleteRemovesTypedPosition(b, kind, tail);
        if e.state != b {
          var q :| DeletesLine(b, kind, tail, q) &&
                   var i := DigitsValue(tail[q]) - 1;
                   e == Acknowledge(b[kind := b[kind][..i] + b[kind][i + 1..]], MANAGE_CATEGORIES, tail[q + 1..]);
          DeletesLineAfterInvalid(b, kind, inputs, q);
        }
      } else if DigitsValue(inputs[0]) != |b[kind]| + 1 {
        var i := DigitsValue(inputs[0]) - 1;
        assert e == Acknowledge(b[kind := b[kind][..i] + b[kind][i + 1..]], MANAGE_CATEGORIES, inputs[1..]);
        assert DeletesLine(b, kind, inputs, 0);
      }
    }
  }

  /** Conversely, typing a position k from 1 to the length of the list, after
      lines that were no valid choice, removes entry k - 1 and nothing else. */
  lemma {:induction false} DeletesLineRemoves(b: Book, kind: string, inputs: seq<string>, p: int)
    requires DeletesLine(b, kind, inputs, p)
    ensures var i := DigitsValue(inputs[p]) - 1;
            DeleteCategoryRun(b, kind, inputs) == Acknowledge(b[kind := b[kind][..i] + b[kind][i + 1..]], MANAGE_CATEGORIES, inputs[p + 1..])
    decreases p
  {
    assert b[kind] != [];
    if p > 0 {
      var tail := inputs[1..];
      forall j | 0 <= j < p - 1 ensures !ValidCategoryIndex(b[kind], tail[j]) {
        assert tail[j] == inputs[j + 1];
      }
      assert tail[p - 1] == inputs[p] && tail[p..] == inputs[p + 1..];
      DeletesLineRemoves(b, kind, tail, p - 1);
    }
  }

  /** A line that is no valid choice shifts the deleting line by one. */
  lemma DeletesLineAfterInvalid(b: Book, kind: string, inputs: seq<string>, q: int)
    requires kind in b && inputs != [] && !ValidCategoryIndex(b[kind], inputs[0])
    requires DeletesLine(b, kind, inputs[1..], q)
    ensures DeletesLine(b, kind, inputs, q + 1)
    ensures inputs[1..][q] == inputs[q + 1] && inputs[1..][q + 1..] == inputs[q + 2..]
  {
    forall j | 0 <= j < q + 1 ensures !ValidCategoryIndex(b[kind], inputs[j]) {
      if j > 0 {
        assert inputs[j] == inputs[1..][j - 1];
      }
    }
  }

  lemma RemovedOneKeepsUnique(before: Book, after: Book, kind: string)
    requires Unique(before) && RemovedOne(before, after, kind)
    ensures Unique(after)
  {
    var k :| 0 <= k < |before[kind]| && after == before[kind := before[kind][..k] + before[kind][k + 1..]];
    var names := after[kind];
    forall i, j | 0 <= i < j < |names| ensures names[i] != names[j] {
      var i' := if i < k then i else i + 1;
      var j' := if j < k then j else j + 1;
      assert names[i] == before[kind][i'] && names[j] == before[kind][j'];
    }
  }

  /** Deleting never creates a duplicate in a file that has none. */
  lemma DeleteKeepsUnique(b: Book, kind: string, inputs: seq<string>)
    requires Unique(b)
    ensures Unique(DeleteCategoryRun(b, kind, inputs).state)
  {
    DeleteRemovesOne(b, kind, inputs);
    var after := DeleteCategoryRun(b, kind, inputs).state;
    if after != b {
      RemovedOneKeepsUnique(b, after, kind);
    }
  }

  /** A dialogue on one type leaves every other type's list as it was and
      keeps the set of types. */
  lemma FlowsKeepOtherTypes(b: Book, kind: string, other: string, inputs: seq<string>)
    requires other != kind && other in b
    ensures var after := AddCategoryRun(b, kind, inputs).state; after.Keys == b.Keys && after[other] == b[other]
    ensures var after := EditCategoryRun(b, kind, inputs, Intended).state; after.Keys == b.Keys && after[other] == b[other]
    ensures var after := DeleteCategoryRun(b, kind, inputs).state; after.Keys == b.Keys && after[other] == b[other]
  {
    AddAppendsFreshName(b, kind, inputs);
    EditIntendedRenamesOne(b, kind, inputs);
    DeleteRemovesOne(b, kind, inputs);
  }

  /** No list holds the name "cancel". */
  predicate NoCancel(b: Book)
  {
    forall kind :: kind in b ==> "cancel" !in b[kind]
  }

  /** Adding, deleting and the edit as written never put "cancel" into a list,
      so a category picked from the file is never "cancel". */
  lemma FlowsKeepCancelOut(b: Book, kind: string, inputs: seq<string>)
    requires Standard(b) && NoCancel(b)
    ensures NoCancel(AddCategoryRun(b, kind, inputs).state)
    ensures NoCancel(EditCategoryRun(b, kind, inputs, AsWritten).state)
    ensures NoCancel(DeleteCategoryRun(b, kind, inputs).state)
  {
    AddAppendsFreshName(b, kind, inputs);
    EditAsWrittenNeverRenames(b, kind, inputs);
    DeleteKeepsCancelOut(b, kind, inputs);
  }

  /** Deleting only removes names, so it never brings "cancel" in. */
  lemma DeleteKeepsCancelOut(b: Book, kind: string, inputs: seq<string>)
    requires NoCancel(b)
    ensures NoCancel(DeleteCategoryRun(b, kind, inputs).state)
  {
    DeleteRemovesOne(b, kind, inputs);
    var after := DeleteCategoryRun(b, kind, inputs).state;
    if after != b {
      var i :| 0 <= i < |b[kind]| && after == b[kind := b[kind][..i] + b[kind][i + 1..]];
      assert forall x :: x in after[kind] ==> x in b[kind];
    }
  }

  /** With the intended name check, the edit takes "cancel" as a new name
      (the edit's name prompt offers "cancel" but never tests for it). */
  lemma IntendedRenameAcceptsCancel()
    ensures var b := map["expense" := ["Food"], "income" := []];
            EditCategoryRun(b, "expense", ["1", "cancel", ""], Intended).state == b["expense" := ["cancel"]]
  {
    var b := map["expense" := ["Food"], "income" := []];
    assert ValidCategoryIndex(b["expense"], "1") && DigitsValue("1") == 1;
    PyIntOfDigits("1");
    assert PyIndex(b["expense"], 0) == Some("Food");
    assert EditNameVerdict(Intended, b, "expense", "1", "cancel") == Ok(true);
    assert b["expense"][0 := "cancel"] == ["cancel"];
  }
}
