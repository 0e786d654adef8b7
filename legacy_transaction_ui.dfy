/** The earlier transaction dialogues (transaction_ui.py at the repository
    root). That module imports update_transaction and delete_all_transactions,
    which transactions.py does not define, and a categories module that is not
    part of this model, so its whole flows cannot run; modelled here are its
    own pieces: the category picker loop over a fixed list per type and the
    collection of an edit's new values. Its id check, deletion confirmation and
    delete-all gates are those of TransactionPrompts and TransactionFlows. */
module LegacyTransactionFlows {
  import opened Common
  import opened Text
  import opened Dialog
  import opened Transactions
  import opened Categories
  import opened TransactionPrompts

  /** A typed line the earlier picker keeps: int() of it succeeds and names a
      position of the list. */
  predicate LegacyValidPick(names: seq<string>, line: string)
  {
    PyInt(line).Some? && 1 <= PyInt(line).value <= |names|
  }

  /** get_category's `while True` loop: it asks until int() of a line is a
      position of the list (a ValueError is caught and asks again) and returns
      that entry. With an empty list no line is kept. */
  function LegacyPick(names: seq<string>, inputs: seq<string>): (p: Prompted<string>)
    ensures SuffixOf(p.rest, inputs)
    ensures p.reply.Given? || p.reply.Exhausted?
    ensures p.reply.Exhausted? ==> p.rest == []
    ensures p.reply.Given? ==> p.reply.value in names
    ensures var n := |inputs| - |p.rest|;
            p.reply.Given? ==> n >= 1 && LegacyValidPick(names, inputs[n - 1]) && p.reply.value == names[PyInt(inputs[n - 1]).value - 1]
    decreases |inputs|
  {
    if inputs == [] then Prompted(Exhausted, [])
    else if LegacyValidPick(names, inputs[0]) then Prompted(Given(names[PyInt(inputs[0]).value - 1]), inputs[1..])
    else LegacyPick(names, inputs[1..])
  }

  /** Every line the earlier picker read before its last one was refused, and
      it runs out of lines exactly when every line is refused. */
  lemma {:induction false} LegacyPickSkipsOnlyInvalid(names: seq<string>, inputs: seq<string>)
    ensures var p := LegacyPick(names, inputs); var n := |inputs| - |p.rest|;
            forall i :: 0 <= i < n - 1 ==> !LegacyValidPick(names, inputs[i])
    ensures LegacyPick(names, inputs).reply.Exhausted? <==> forall i :: 0 <= i < |inputs| ==> !LegacyValidPick(names, inputs[i])
    decreases |inputs|
  {
    if inputs != [] {
      var tail := inputs[1..];
      LegacyPickSkipsOnlyInvalid(names, tail);
      assert forall i :: 1 <= i < |inputs| ==> inputs[i] == tail[i - 1];
    }
  }

  /** On a line of digits the earlier picker and the later one agree: both
      keep it exactly when it is a position of the list, and pick the same entry. */
  lemma LegacyPickAgreesOnDigits(names: seq<string>, line: string)
    requires IsDigits(line)
    ensures LegacyValidPick(names, line) <==> ValidPick(names, line)
    ensures LegacyValidPick(names, line) ==> PyInt(line).value == DigitsValue(line)
  {
    PyIntOfDigits(line);
  }

  /** The earlier picker also keeps what int() accepts beyond digits: a
      position typed after a blank, " 2" say, picks that entry there, while the
      later picker asks again. */
  lemma LegacyPickAcceptsPadding(names: seq<string>, d: string)
    requires IsDigits(d) && 1 <= DigitsValue(d) <= |names|
    ensures LegacyPick(names, [" " + d]).reply == Given(names[DigitsValue(d) - 1])
    ensures PickFrom(names, [" " + d]).reply == Exhausted
  {
    var line := " " + d;
    var lines: seq<string> := [line];
    assert lines[1..] == [];
    assert LegacyPick(names, lines).reply == Given(names[DigitsValue(d) - 1]) by {
      PyIntSkipsLeadingBlank(d);
      assert LegacyValidPick(names, line);
    }
    PaddedLineIsNoPick(names, d);
  }

  /** The later picker refuses a line that starts with a blank. */
  lemma PaddedLineIsNoPick(names: seq<string>, d: string)
    ensures PickFrom(names, [" " + d]).reply == Exhausted
  {
    var line := " " + d;
    var lines: seq<string> := [line];
    assert lines[1..] == [];
    assert !IsDigit(line[0]);
    assert !ValidPick(names, line);
  }

  /** _get_updated_values of the earlier UI: the four fields of t with the one
      named by the detail choice replaced; "1" reads float(input()) (a
      ValueError for text float() refuses, a negative amount accepted), "2",
      "3" and "4" take the typed line as it is, the category included, and
      there is no cancel. A choice other than "1" to "4" reads nothing. */
  function LegacyUpdatedValues(detail: string, t: Record, inputs: seq<string>): (p: Prompted<Fields>)
    ensures SuffixOf(p.rest, inputs)
    ensures !p.reply.Cancelled?
    ensures p.reply.Exhausted? <==> detail in {"1", "2", "3", "4"} && inputs == []
    ensures p.reply.Failed? <==> detail == "1" && inputs != [] && PyFloatCents(inputs[0]).None?
    ensures p.reply.Failed? ==> p.reply.error == ValueError
    ensures p.reply.Given? ==> var f := p.reply.value; var old_ := FieldsOf(t);
              (detail == "1" ==> f == old_.(amount := f.amount) && PyFloatCents(inputs[0]) == Some(f.amount)) &&
              (detail == "2" ==> f == old_.(date := inputs[0])) &&
              (detail == "3" ==> f == old_.(category := inputs[0])) &&
              (detail == "4" ==> f == old_.(remarks := inputs[0])) &&
              (detail !in {"1", "2", "3", "4"} ==> f == old_ && p.rest == inputs)
  {
    var current := FieldsOf(t);
    if detail !in {"1", "2", "3", "4"} then Prompted(Given(current), inputs)
    else if inputs == [] then Prompted(Exhausted, [])
    else if detail == "1" then
      match PyFloatCents(inputs[0])
      case None => Prompted(Failed(ValueError), inputs[1..])
      case Some(cents) => Prompted(Given(current.(amount := cents)), inputs[1..])
    else if detail == "2" then Prompted(Given(current.(date := inputs[0])), inputs[1..])
    else if detail == "3" then Prompted(Given(current.(category := inputs[0])), inputs[1..])
    else Prompted(Given(current.(remarks := inputs[0])), inputs[1..])
  }

  /** float() takes every amount the later amount prompt accepts, with the
      same value. */
  lemma PyFloatTakesAcceptedAmounts(line: string)
    requires AmountVerdict(line).AcceptAmount?
    ensures PyFloatCents(line) == Some(AmountCents(AmountVerdict(line).text))
  {
    var t := Strip(line);
    assert DecimalShaped(t);
    if DotIndex(t) > 0 {
      assert t[0] == t[..DotIndex(t)][0];
    }
  }

  /** On an amount line the later prompt accepts, both versions of the edit
      give the same fields. */
  lemma LegacyAmountEditAgrees(variant: Variant, t: Record, cats: Book, line: string, rest: seq<string>)
    requires AmountVerdict(line).AcceptAmount?
    ensures LegacyUpdatedValues("1", t, [line] + rest) == UpdatePrompt(variant, "1", t, cats, [line] + rest)
  {
    PyFloatTakesAcceptedAmounts(line);
    assert ([line] + rest)[0] == line;
    assert ([line] + rest)[1..] == rest;
  }

  /** The earlier edit takes a negative amount, which the later one never gives. */
  lemma LegacyTakesNegativeAmount(t: Record)
    ensures LegacyUpdatedValues("1", t, ["-5"]).reply == Given(FieldsOf(t).(amount := -500))
  {
    var line := "-5";
    assert StripLeft(line) == line;
    assert StripRight(line) == line;
    assert line[1..] == "5";
    assert DotIndex("5") == 1;
    assert DigitsValue("5") == 5;
  }

  /** The earlier transaction UI; the categories are the two fixed lists of the
      categories module it imports. */
  class LegacyTransactionUI {
    const expenseCategories: seq<string>
    const incomeCategories: seq<string>

    constructor (expenseCategories: seq<string>, incomeCategories: seq<string>)
      ensures this.expenseCategories == expenseCategories && this.incomeCategories == incomeCategories
    {
      this.expenseCategories := expenseCategories;
      this.incomeCategories := incomeCategories;
    }

    /** The expense list for "expense", the income list for any other type. */
    function CategoriesFor(kind: string): seq<string>
    {
      if kind == "expense" then expenseCategories else incomeCategories
    }

    /** get_category. */
    method GetCategory(console: Console, kind: string) returns (reply: Reply<string>)
      modifies console
      ensures Prompted(reply, console.pending) == LegacyPick(CategoriesFor(kind), old(console.pending))
    {
      var names := CategoriesFor(kind);
      while true
        invariant LegacyPick(names, console.pending) == LegacyPick(names, old(console.pending))
        decreases |console.pending|
      {
        var line := console.ReadLine();
        if line.None? {
          return Exhausted;
        }
        var choice := PyInt(line.value);
        if choice.Some? && 1 <= choice.value <= |names| {
          return Given(names[choice.value - 1]);
        }
      }
    }

    /** _get_updated_values. */
    method GetUpdatedValues(console: Console, detail: string, t: Record) returns (reply: Reply<Fields>)
      modifies console
      ensures Prompted(reply, console.pending) == LegacyUpdatedValues(detail, t, old(console.pending))
    {
      var values := FieldsOf(t);
      if detail !in {"1", "2", "3", "4"} {
        return Given(values);
      }
      var line := console.ReadLine();
      if line.None? {
        return Exhausted;
      }
      if detail == "1" {
        var cents := PyFloatCents(line.value);
        if cents.None? {
          return Failed(ValueError);
        }
        values := values.(amount := cents.value);
      } else if detail == "2" {
        values := values.(date := line.value);
      } else if detail == "3" {
        values := values.(category := line.value);
      } else {
        values := values.(remarks := line.value);
      }
      reply := Given(values);
    }
  }
}
