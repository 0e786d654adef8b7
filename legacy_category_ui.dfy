/** The earlier category UI (category_ui.py at the repository root): the same
    file format and the same dialogues, but adding checks nothing and editing
    does its checks inline, pausing for Enter after each complaint. */
module LegacyCategories {
  import opened Common
  import opened Text
  import opened Dialog
  import opened Categories

  /** add_category_ui: one name is read; "cancel" backs out, anything else,
      the empty name and a name already listed included, is appended. The
      type is looked up only when appending. */
  function LegacyAddCategoryRun(b: Book, kind: string, inputs: seq<string>): (e: Ended<Book>)
    ensures SuffixOf(e.rest, inputs)
    ensures e.state != b ==> kind in b && inputs != [] && inputs[0] != "cancel" && e.state == b[kind := b[kind] + [inputs[0]]]
    ensures inputs != [] && inputs[0] != "cancel" && kind in b ==> e.state == b[kind := b[kind] + [inputs[0]]]
    ensures e.outcome.Crashed? <==> inputs != [] && inputs[0] != "cancel" && kind !in b
    ensures e.outcome.Returned? ==> e.outcome.token == MANAGE_CATEGORIES
  {
    if inputs == [] then Ended(EndOfInput, b, [])
    else if inputs[0] == "cancel" then Ended(Returned(MANAGE_CATEGORIES), b, inputs[1..])
    else if kind !in b then Ended(Crashed(KeyError), b, inputs[1..])
    else Acknowledge(b[kind := b[kind] + [inputs[0]]], MANAGE_CATEGORIES, inputs[1..])
  }

  /** A complaint followed by input("Press Enter to continue...") and a fresh
      start of the edit dialogue on what is left. */
  function PauseThenRetry(b: Book, kind: string, inputs: seq<string>): (e: Ended<Book>)
    ensures SuffixOf(e.rest, inputs)
    ensures e.outcome.Returned? ==> e.outcome.token == MANAGE_CATEGORIES
    decreases |inputs|, 0
  {
    if inputs == [] then Ended(EndOfInput, b, []) else LegacyEditCategoryRun(b, kind, inputs[1..])
  }

  /** edit_category_ui: with an empty list it only acknowledges; otherwise it
      asks for a position (retrying on an invalid one, backing out on
      |list| + 1) and a new name: "cancel" backs out; an empty name, the old
      name or a name already listed is refused with a pause and a retry. */
  function LegacyEditCategoryRun(b: Book, kind: string, inputs: seq<string>): (e: Ended<Book>)
    ensures SuffixOf(e.rest, inputs)
    ensures e.outcome.Returned? ==> e.outcome.token == MANAGE_CATEGORIES
    ensures e.outcome.Crashed? <==> kind !in b
    decreases |inputs|, 1
  {
    if kind !in b then Ended(Crashed(KeyError), b, inputs)
    else if b[kind] == [] then Acknowledge(b, MANAGE_CATEGORIES, inputs)
    else if inputs == [] then Ended(EndOfInput, b, [])
    else
      var choice := inputs[0];
      if !ValidCategoryIndex(b[kind], choice) then LegacyEditCategoryRun(b, kind, inputs[1..])
      else if DigitsValue(choice) == |b[kind]| + 1 then Ended(Returned(MANAGE_CATEGORIES), b, inputs[1..])
      else if |inputs| == 1 then Ended(EndOfInput, b, [])
      else
        var i := DigitsValue(choice) - 1;
        var name := inputs[1];
        if name == "" then PauseThenRetry(b, kind, inputs[2..])
        else if name == "cancel" then Ended(Returned(MANAGE_CATEGORIES), b, inputs[2..])
        else if name == b[kind][i] then PauseThenRetry(b, kind, inputs[2..])
        else if name in b[kind] then PauseThenRetry(b, kind, inputs[2..])
        else Acknowledge(b[kind := b[kind][i := name]], MANAGE_CATEGORIES, inputs[2..])
  }

  /** The earlier category UI object. */
  class LegacyCategoryBook {
    var categories: Book

    /** _load_categories: the stored object, or the default one when the file
        is absent. */
    constructor (stored: Option<Book>)
      ensures stored.None? ==> categories == DefaultCategories()
      ensures stored.Some? ==> categories == stored.value
    {
      categories := if stored.None? then DefaultCategories() else stored.value;
    }

    method AddCategory(console: Console, kind: string) returns (outcome: FlowOutcome)
      modifies this, console
      ensures Ended(outcome, categories, console.pending) == LegacyAddCategoryRun(old(categories), kind, old(console.pending))
    {
      var line := console.ReadLine();
      if line.None? {
        return EndOfInput;
      }
      if line.value == "cancel" {
        return Returned(MANAGE_CATEGORIES);
      }
      if kind !in categories {
        return Crashed(KeyError);
      }
      categories := categories[kind := categories[kind] + [line.value]];
      outcome := console.Acknowledged(categories, MANAGE_CATEGORIES);
    }

    /** The complaint's pause, then a fresh start. */
    method Pause(console: Console, kind: string) returns (outcome: FlowOutcome)
      modifies this, console
      ensures Ended(outcome, categories, console.pending) == PauseThenRetry(old(categories), kind, old(console.pending))
      decreases |console.pending|, 0
    {
      var line := console.ReadLine();
      if line.None? {
        return EndOfInput;
      }
      outcome := EditCategory(console, kind);
    }

    method EditCategory(console: Console, kind: string) returns (outcome: FlowOutcome)
      modifies this, console
      ensures Ended(outcome, categories, console.pending) == LegacyEditCategoryRun(old(categories), kind, old(console.pending))
      decreases |console.pending|, 1
    {
      if kind !in categories {
        return Crashed(KeyError);
      }
      if categories[kind] == [] {
        outcome := console.Acknowledged(categories, MANAGE_CATEGORIES);
        return;
      }
      var line := console.ReadLine();
      if line.None? {
        return EndOfInput;
      }
      var choice := line.value;
      if !ValidCategoryIndex(categories[kind], choice) {
        outcome := EditCategory(console, kind);
        return;
      }
      var position := DigitsValue(choice);
      if position == |categories[kind]| + 1 {
        return Returned(MANAGE_CATEGORIES);
      }
      line := console.ReadLine();
      if line.None? {
        return EndOfInput;
      }
      var name := line.value;
      if name == "" {
        outcome := Pause(console, kind);
      } else if name == "cancel" {
        outcome := Returned(MANAGE_CATEGORIES);
      } else if name == categories[kind][position - 1] || name in categories[kind] {
        outcome := Pause(console, kind);
      } else {
        categories := categories[kind := categories[kind][position - 1 := name]];
        outcome := console.Acknowledged(categories, MANAGE_CATEGORIES);
      }
    }
  }

  /** The earlier edit either leaves the file alone or gives one entry a fresh name. */
  lemma {:induction false} LegacyEditRenamesOne(b: Book, kind: string, inputs: seq<string>)
    ensures var e := LegacyEditCategoryRun(b, kind, inputs); e.state == b || RenamedOne(b, e.state, kind)
    decreases |inputs|
  {
    if kind in b && b[kind] != [] && inputs != [] {
      var choice := inputs[0];
      if !ValidCategoryIndex(b[kind], choice) {
        LegacyEditRenamesOne(b, kind, inputs[1..]);
      } else if DigitsValue(choice) != |b[kind]| + 1 && |inputs| > 1 {
        var i := DigitsValue(choice) - 1;
        var name := inputs[1];
        var rest := inputs[2..];
        if name == "" || name == b[kind][i] || (name != "cancel" && name in b[kind]) {
          if rest != [] {
            LegacyEditRenamesOne(b, kind, rest[1..]);
          }
        } else if name != "cancel" {
          var after := b[kind := b[kind][i := name]];
          assert after[kind][i] == name;
          assert after == b[kind := b[kind][i := after[kind][i]]];
        }
      }
    }
  }

  /** e leaves the file alone or renames the entry at a typed position to the
      name typed on the next line, which is not "cancel". */
  ghost predicate LegacyRenamesTyped(b: Book, kind: string, inputs: seq<string>, e: Ended<Book>)
  {
    e.state == b ||
    exists p :: RenamesLine(b, kind, inputs, p) && inputs[p + 1] != "cancel" && e == RenamedAt(b, kind, inputs, p)
  }

  /** The earlier edit renames the entry at the position the user typed to
      the name typed on the next line, which is never "cancel". */
  lemma {:induction false} LegacyEditStoresTypedName(b: Book, kind: string, inputs: seq<string>)
    ensures LegacyRenamesTyped(b, kind, inputs, LegacyEditCategoryRun(b, kind, inputs))
    decreases |inputs|, 1
  {
    if kind in b && b[kind] != [] && inputs != [] {
      var choice := inputs[0];
      if !ValidCategoryIndex(b[kind], choice) {
        LegacyEditStoresTypedName(b, kind, inputs[1..]);
        LegacyRetryKeepsTyped(b, kind, inputs, 1, LegacyEditCategoryRun(b, kind, inputs));
      } else if DigitsValue(choice) != |b[kind]| + 1 && |inputs| > 1 {
        LegacyNameStoresTypedName(b, kind, inputs);
      }
    }
  }

  /** The name step of the earlier edit, after a position naming an entry. */
  lemma {:induction false} LegacyNameStoresTypedName(b: Book, kind: string, inputs: seq<string>)
    requires kind in b && |inputs| > 1
    requires ValidCategoryIndex(b[kind], inputs[0]) && DigitsValue(inputs[0]) <= |b[kind]|
    ensures LegacyRenamesTyped(b, kind, inputs, LegacyEditCategoryRun(b, kind, inputs))
    decreases |inputs|, 0
  {
    var name := inputs[1];
    if name != "cancel" && (name == "" || name in b[kind]) {
      if |inputs| > 2 {
        LegacyRefusedNameRetries(b, kind, inputs);
        LegacyEditStoresTypedName(b, kind, inputs[3..]);
        LegacyRetryKeepsTyped(b, kind, inputs, 3, LegacyEditCategoryRun(b, kind, inputs));
      } else {
        LegacyRefusedNameRetries(b, kind, inputs);
      }
    } else if name != "cancel" {
      var e := LegacyEditCategoryRun(b, kind, inputs);
      assert RenamesLine(b, kind, inputs, 0);
      assert e == RenamedAt(b, kind, inputs, 0);
    }
  }

  /** A refused name pauses on the next line and starts over after it. */
  lemma LegacyRefusedNameRetries(b: Book, kind: string, inputs: seq<string>)
    requires kind in b && |inputs| > 1
    requires ValidCategoryIndex(b[kind], inputs[0]) && DigitsValue(inputs[0]) <= |b[kind]|
    requires inputs[1] != "cancel" && (inputs[1] == "" || inputs[1] in b[kind])
    ensures |inputs| == 2 ==> LegacyEditCategoryRun(b, kind, inputs) == Ended(EndOfInput, b, [])
    ensures |inputs| > 2 ==> LegacyEditCategoryRun(b, kind, inputs) == LegacyEditCategoryRun(b, kind, inputs[3..])
  {
    var name := inputs[1];
    assert name == "" || name == b[kind][DigitsValue(inputs[0]) - 1] || name in b[kind];
    assert LegacyEditCategoryRun(b, kind, inputs) == PauseThenRetry(b, kind, inputs[2..]);
    if |inputs| > 2 {
      assert inputs[2..][1..] == inputs[3..];
    }
  }

  /** A retry after k skipped lines keeps the typed-name property. */
  lemma LegacyRetryKeepsTyped(b: Book, kind: string, inputs: seq<string>, k: nat, e: Ended<Book>)
    requires 0 < k <= |inputs|
    requires LegacyRenamesTyped(b, kind, inputs[k..], e)
    ensures LegacyRenamesTyped(b, kind, inputs, e)
  {
    if e.state != b {
      var q :| RenamesLine(b, kind, inputs[k..], q) && inputs[k..][q + 1] != "cancel" && e == RenamedAt(b, kind, inputs[k..], q);
      RenamesLineShift(b, kind, inputs, k, q);
      assert inputs[q + k + 1] != "cancel" by {
        assert inputs[k..][q + 1] == inputs[q + k + 1];
      }
      assert RenamesLine(b, kind, inputs, q + k) && e == RenamedAt(b, kind, inputs, q + k);
    }
  }

  /** The first p lines are whole refused attempts of the earlier edit: a
      line naming no position, or the position of an entry, a name other than
      "cancel" that is empty or already listed, and the Enter of the pause. */
  predicate LegacyRefusedAttempts(names: seq<string>, inputs: seq<string>, p: nat)
    decreases p
  {
    if p == 0 then true
    else if |inputs| < p then false
    else if !ValidCategoryIndex(names, inputs[0]) then LegacyRefusedAttempts(names, inputs[1..], p - 1)
    else 3 <= p && DigitsValue(inputs[0]) <= |names| && inputs[1] != "cancel" && (inputs[1] == "" || inputs[1] in names) &&
         LegacyRefusedAttempts(names, inputs[3..], p - 3)
  }

  /** Conversely, after whole refused attempts, a position naming an entry
      and a fresh name other than "cancel" rename that entry to that name. */
  lemma {:induction false} LegacyRenamesAfterRefused(b: Book, kind: string, inputs: seq<string>, p: nat)
    requires kind in b && LegacyRefusedAttempts(b[kind], inputs, p)
    requires RenamesLine(b, kind, inputs, p) && inputs[p + 1] != "cancel"
    ensures LegacyEditCategoryRun(b, kind, inputs) == RenamedAt(b, kind, inputs, p)
    decreases p
  {
    assert b[kind] != [];
    if p > 0 {
      var k := if ValidCategoryIndex(b[kind], inputs[0]) then 3 else 1;
      if k == 3 {
        LegacyRefusedNameRetries(b, kind, inputs);
      }
      assert inputs[k..][p - k + 1] == inputs[p + 1];
      RenamesLineDrop(b, kind, inputs, k, p);
      LegacyRenamesAfterRefused(b, kind, inputs[k..], p - k);
    }
  }

  /** The earlier edit never creates a duplicate in a file that has none. */
  lemma LegacyEditKeepsUnique(b: Book, kind: string, inputs: seq<string>)
    requires Unique(b)
    ensures Unique(LegacyEditCategoryRun(b, kind, inputs).state)
  {
    LegacyEditRenamesOne(b, kind, inputs);
    var after := LegacyEditCategoryRun(b, kind, inputs).state;
    if after != b {
      RenamedOneKeepsUnique(b, after, kind);
    }
  }

  /** The earlier add does not check: adding "Food" twice lists it twice, and
      the empty name is accepted too. */
  lemma LegacyAddDuplicates()
    ensures var b := map["expense" := ["Food"], "income" := []];
            var e := LegacyAddCategoryRun(b, "expense", ["Food", ""]);
            e.outcome == Returned(MANAGE_CATEGORIES) && !Unique(e.state)
    ensures var b := map["expense" := [], "income" := []];
            LegacyAddCategoryRun(b, "expense", ["", ""]).state["expense"] == [""]
  {
    var b := map["expense" := ["Food"], "income" := []];
    var after := LegacyAddCategoryRun(b, "expense", ["Food", ""]).state;
    assert after["expense"] == ["Food", "Food"];
    assert after["expense"][0] == after["expense"][1];
    assert !NoDuplicates(after["expense"]);
  }
}
