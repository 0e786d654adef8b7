/** The prompt helpers of the transaction dialogues (src/ui/transaction_ui.py):
    the amount prompt, the id and detail checks, the category picker, the
    yes/no confirmation and the collection of an edit's new values, each as
    the function of the typed lines it consumes. */
module TransactionPrompts {
  import opened Common
  import opened Text
  import opened Dialog
  import opened Transactions
  import opened Categories

  // ---------------------------------------------------------------------
  // _validate_expense_amount

  /** What one typed line does at the amount prompt; an accepted line gives
      its stripped text, which the caller turns into cents. */
  datatype AmountLine = CancelAmount | RetryAmount | AcceptAmount(text: string)

  /** "cancel" in any letter case backs out (checked before stripping); after
      stripping, empty text or text that does not pass the replace-then-isdigit
      test asks again; anything else is the amount. */
  function AmountVerdict(line: string): (v: AmountLine)
    ensures v.CancelAmount? <==> Lower(line) == "cancel"
    ensures v.AcceptAmount? <==> Lower(line) != "cancel" && DecimalShaped(Strip(line))
    ensures v.AcceptAmount? ==> v.text == Strip(line)
  {
    var s := Strip(line);
    AmountCheckIsDecimalShape(s);
    if Lower(line) == "cancel" then CancelAmount
    else if s == [] then RetryAmount
    else if !IsDigits(RemoveFirst(s, '.')) then RetryAmount
    else AcceptAmount(s)
  }

  /** The amount prompt, asking again until a line is accepted or cancelled;
      it hands back the accepted amount text. */
  function AmountPrompt(inputs: seq<string>): (p: Prompted<string>)
    ensures SuffixOf(p.rest, inputs)
    ensures !p.reply.Failed?
    ensures p.reply.Exhausted? ==> p.rest == []
    ensures p.reply.Given? ==> DecimalShaped(p.reply.value)
    decreases |inputs|
  {
    if inputs == [] then Prompted(Exhausted, [])
    else match AmountVerdict(inputs[0])
      case CancelAmount => Prompted(Cancelled, inputs[1..])
      case AcceptAmount(text) => Prompted(Given(text), inputs[1..])
      case RetryAmount => AmountPrompt(inputs[1..])
  }

  /** An accepted amount is the verdict on the last line read, and so is a cancel. */
  lemma {:induction false} AmountPromptLastLine(inputs: seq<string>)
    ensures var p := AmountPrompt(inputs); var n := |inputs| - |p.rest|;
            (p.reply.Given? ==> n >= 1 && AmountVerdict(inputs[n - 1]) == AcceptAmount(p.reply.value)) &&
            (p.reply.Cancelled? ==> n >= 1 && AmountVerdict(inputs[n - 1]) == CancelAmount)
    decreases |inputs|
  {
    if inputs != [] && AmountVerdict(inputs[0]).RetryAmount? {
      var tail := inputs[1..];
      AmountPromptLastLine(tail);
      var n := |inputs| - |AmountPrompt(inputs).rest|;
      if n >= 2 {
        assert inputs[n - 1] == tail[n - 2];
      }
    }
  }

  /** Every line the amount prompt read before its last one was a retry. */
  lemma {:induction false} AmountPromptSkipsOnlyRetries(inputs: seq<string>)
    ensures var p := AmountPrompt(inputs); var n := |inputs| - |p.rest|;
            forall i :: 0 <= i < n - 1 ==> AmountVerdict(inputs[i]).RetryAmount?
    decreases |inputs|
  {
    if inputs != [] && AmountVerdict(inputs[0]).RetryAmount? {
      var tail := inputs[1..];
      AmountPromptSkipsOnlyRetries(tail);
      var n := |inputs| - |AmountPrompt(inputs).rest|;
      forall i | 1 <= i < n - 1 ensures AmountVerdict(inputs[i]).RetryAmount? {
        assert inputs[i] == tail[i - 1];
      }
    }
  }

  /** An accepted amount comes from line k, the lines before it were retries,
      and the prompt leaves the lines after it. */
  lemma AmountPromptAcceptedLine(inputs: seq<string>)
    ensures var p := AmountPrompt(inputs); var k := |inputs| - |p.rest| - 1;
            p.reply.Given? ==>
              0 <= k < |inputs| && p.rest == inputs[k + 1..] && AmountVerdict(inputs[k]) == AcceptAmount(p.reply.value) &&
              forall j :: 0 <= j < k ==> AmountVerdict(inputs[j]).RetryAmount?
  {
    AmountPromptLastLine(inputs);
    AmountPromptSkipsOnlyRetries(inputs);
  }

  /** Conversely, the first line the prompt accepts is the amount: with every
      line before k a retry and line k accepted, the prompt hands back line
      k's stripped text and leaves the lines after it. */
  lemma {:induction false} AmountPromptTakesFirstAccepted(inputs: seq<string>, k: int)
    requires 0 <= k < |inputs| && AmountVerdict(inputs[k]).AcceptAmount?
    requires forall j :: 0 <= j < k ==> AmountVerdict(inputs[j]).RetryAmount?
    ensures AmountPrompt(inputs) == Prompted(Given(AmountVerdict(inputs[k]).text), inputs[k + 1..])
    decreases k
  {
    if k > 0 {
      var tail := inputs[1..];
      forall j | 0 <= j < k - 1 ensures AmountVerdict(tail[j]).RetryAmount? {
        assert tail[j] == inputs[j + 1];
      }
      assert tail[k - 1] == inputs[k] && tail[k..] == inputs[k + 1..];
      AmountPromptTakesFirstAccepted(tail, k - 1);
    }
  }

  /** The amount prompt runs out of lines exactly when every line is a retry. */
  lemma {:induction false} AmountPromptExhaustedIffAllRetries(inputs: seq<string>)
    ensures AmountPrompt(inputs).reply.Exhausted? <==> forall i :: 0 <= i < |inputs| ==> AmountVerdict(inputs[i]).RetryAmount?
    decreases |inputs|
  {
    if inputs != [] {
      if AmountVerdict(inputs[0]).RetryAmount? {
        var tail := inputs[1..];
        AmountPromptExhaustedIffAllRetries(tail);
        assert AmountPrompt(inputs) == AmountPrompt(tail);
        if AmountPrompt(tail).reply.Exhausted? {
          forall i | 0 <= i < |inputs| ensures AmountVerdict(inputs[i]).RetryAmount? {
            if i > 0 {
              assert inputs[i] == tail[i - 1];
            }
          }
        } else {
          var j :| 0 <= j < |tail| && !AmountVerdict(tail[j]).RetryAmount?;
          assert inputs[j + 1] == tail[j];
        }
      }
    }
  }

  // ---------------------------------------------------------------------
  // _validate_transaction_id and the `next(...)` that follows it

  /** The first record with this id and this effective type. */
  function FindRecord(rs: seq<Record>, id: int, kind: string): (k: Option<nat>)
    ensures k.Some? ==> k.value < |rs| && rs[k.value].id == id && EffectiveType(rs[k.value]) == kind
    ensures k.Some? ==> forall j :: 0 <= j < k.value ==> !(rs[j].id == id && EffectiveType(rs[j]) == kind)
    ensures k.None? ==> forall j :: 0 <= j < |rs| ==> !(rs[j].id == id && EffectiveType(rs[j]) == kind)
  {
    if rs == [] then None
    else if rs[0].id == id && EffectiveType(rs[0]) == kind then Some(0)
    else match FindRecord(rs[1..], id, kind)
      case None => None
      case Some(k) => Some(k + 1)
  }

  /** The typed id is a string of digits naming a record of the dialogue's type. */
  predicate ValidTransactionId(text: string, rs: seq<Record>, kind: string)
  {
    IsDigits(text) && FindRecord(rs, DigitsValue(text), kind).Some?
  }

  /** The check accepts exactly the digit strings that name a record of the type. */
  lemma ValidTransactionIdMeaning(text: string, rs: seq<Record>, kind: string)
    ensures ValidTransactionId(text, rs, kind) <==>
              IsDigits(text) && exists j :: 0 <= j < |rs| && rs[j].id == DigitsValue(text) && EffectiveType(rs[j]) == kind
  {
  }

  /** With ids unique, the record the dialogue validated is the one the store's
      update and delete then find by id alone. */
  lemma StoreFindsValidatedRecord(rs: seq<Record>, id: int, kind: string)
    requires IdsIncreasing(rs) && FindRecord(rs, id, kind).Some?
    ensures FindId(rs, id) == FindRecord(rs, id, kind)
  {
  }

  /** The detail choice of the edit dialogue: digits naming one of 1 to 5. */
  predicate DetailInRange(d: string)
  {
    IsDigits(d) && 1 <= DigitsValue(d) <= 5
  }

  /** `confirm.lower() in ["yes", "y"]`. */
  predicate IsYes(line: string)
  {
    Lower(line) == "yes" || Lower(line) == "y"
  }

  /** The confirmation is a yes exactly for "y" and "yes" in any mix of letter
      cases, with no surrounding blanks. */
  lemma IsYesMeaning(line: string)
    ensures IsYes(line) <==>
              (|line| == 1 && line[0] in "yY") ||
              (|line| == 3 && line[0] in "yY" && line[1] in "eE" && line[2] in "sS")
  {
    LowerMatchesLowercase(line, "yes");
    LowerMatchesLowercase(line, "y");
  }

  // ---------------------------------------------------------------------
  // _get_categories

  /** A typed position of the picker: digits naming an entry of the list. */
  predicate ValidPick(names: seq<string>, line: string)
  {
    IsDigits(line) && 1 <= DigitsValue(line) <= |names|
  }

  /** The picker's loop over one list: it asks again until a valid position is
      typed. "cancel" is not special here; with an empty list no line is valid. */
  function PickFrom(names: seq<string>, inputs: seq<string>): (p: Prompted<string>)
    ensures SuffixOf(p.rest, inputs)
    ensures p.reply.Given? || p.reply.Exhausted?
    ensures p.reply.Exhausted? ==> p.rest == []
    ensures var n := |inputs| - |p.rest|;
            p.reply.Given? ==> n >= 1 && ValidPick(names, inputs[n - 1]) && p.reply.value == names[DigitsValue(inputs[n - 1]) - 1]
    ensures p.reply.Given? ==> p.reply.value in names
    decreases |inputs|
  {
    if inputs == [] then Prompted(Exhausted, [])
    else if ValidPick(names, inputs[0]) then Prompted(Given(names[DigitsValue(inputs[0]) - 1]), inputs[1..])
    else PickFrom(names, inputs[1..])
  }

  /** Every line the picker read before its last one was invalid, and it runs
      out of lines exactly when no line is valid. */
  lemma {:induction false} PickSkipsOnlyInvalid(names: seq<string>, inputs: seq<string>)
    ensures var p := PickFrom(names, inputs); var n := |inputs| - |p.rest|;
            forall i :: 0 <= i < n - 1 ==> !ValidPick(names, inputs[i])
    ensures PickFrom(names, inputs).reply.Exhausted? <==> forall i :: 0 <= i < |inputs| ==> !ValidPick(names, inputs[i])
    decreases |inputs|
  {
    if inputs != [] {
      PickSkipsOnlyInvalid(names, inputs[1..]);
      assert forall i :: 1 <= i < |inputs| ==> inputs[i] == inputs[1..][i - 1];
    }
  }

  /** Conversely, the first valid position is picked: with every line before
      q invalid and line q valid, the picker gives the entry at position
      int(line q) - 1 and leaves the lines after it. */
  lemma {:induction false} PickTakesFirstValid(names: seq<string>, inputs: seq<string>, q: int)
    requires 0 <= q < |inputs| && ValidPick(names, inputs[q])
    requires forall j :: 0 <= j < q ==> !ValidPick(names, inputs[j])
    ensures PickFrom(names, inputs) == Prompted(Given(names[DigitsValue(inputs[q]) - 1]), inputs[q + 1..])
    decreases q
  {
    if q > 0 {
      var tail := inputs[1..];
      forall j | 0 <= j < q - 1 ensures !ValidPick(names, tail[j]) {
        assert tail[j] == inputs[j + 1];
      }
      assert tail[q - 1] == inputs[q] && tail[q..] == inputs[q + 1..];
      PickTakesFirstValid(names, tail, q - 1);
    }
  }

  /** An empty list can never be picked from: the picker reads the whole script. */
  lemma EmptyListNeverPicks(inputs: seq<string>)
    ensures PickFrom([], inputs) == Prompted(Exhausted, [])
  {
  }

  /** _get_categories: the list of the type (KeyError when the categories file
      has no such type), then the picker. */
  function CategoryPrompt(cats: Book, kind: string, inputs: seq<string>): (p: Prompted<string>)
    ensures SuffixOf(p.rest, inputs)
    ensures p.reply.Failed? <==> kind !in cats
    ensures p.reply.Failed? ==> p.reply.error == KeyError && p.rest == inputs
    ensures p.reply.Given? ==> kind in cats && p.reply.value in cats[kind]
    ensures !p.reply.Cancelled?
  {
    match CategoryList(cats, kind)
    case Err(error) => Prompted(Failed(error), inputs)
    case Ok(names) => PickFrom(names, inputs)
  }

  /** The picker offers get_category_list's list: it fails exactly when that
      lookup fails, and a picked name is the entry at the typed position. */
  lemma CategoryPromptUsesCategoryList(cats: Book, kind: string, inputs: seq<string>)
    ensures var p := CategoryPrompt(cats, kind, inputs);
            p.reply.Failed? <==> CategoryList(cats, kind).Err?
    ensures var p := CategoryPrompt(cats, kind, inputs); var n := |inputs| - |p.rest|;
            p.reply.Given? ==>
              (CategoryList(cats, kind).Ok? && n >= 1 && ValidPick(CategoryList(cats, kind).value, inputs[n - 1]) &&
               p.reply.value == CategoryList(cats, kind).value[DigitsValue(inputs[n - 1]) - 1])
  {
  }

  /** With no "cancel" in the file, the picker never returns "cancel", so the
      cancel test after it in _get_updated_values never fires. */
  lemma PickedCategoryIsNotCancel(cats: Book, kind: string, inputs: seq<string>)
    requires NoCancel(cats)
    ensures CategoryPrompt(cats, kind, inputs).reply.Given? ==> CategoryPrompt(cats, kind, inputs).reply.value != "cancel"
  {
  }

  // ---------------------------------------------------------------------
  // _get_updated_values

  /** The type used to look up the categories when choice "3" re-picks one:
      as written, transaction['type'], which raises KeyError for a record
      without a type; intended, its effective type t.get("type", "expense"). */
  function CategoryTypeOf(variant: Variant, t: Record): Result<string>
  {
    match variant
    case Intended => Ok(EffectiveType(t))
    case AsWritten =>
      match t.kind
      case None => Err(KeyError)
      case Some(k) => Ok(k)
  }

  /** `value == "cancel"` ends the edit of a field as a cancel, anything else is kept. */
  function Typed(inputs: seq<string>): (p: Prompted<string>)
    ensures SuffixOf(p.rest, inputs)
    ensures inputs == [] <==> p.reply.Exhausted?
    ensures inputs != [] ==> p.rest == inputs[1..]
    ensures p.reply.Cancelled? <==> inputs != [] && inputs[0] == "cancel"
    ensures p.reply.Given? ==> p.reply.value == inputs[0]
  {
    if inputs == [] then Prompted(Exhausted, [])
    else if inputs[0] == "cancel" then Prompted(Cancelled, inputs[1..])
    else Prompted(Given(inputs[0]), inputs[1..])
  }

  /** The four fields of t with the one named by the detail choice replaced by
      what the user typed; a choice other than "1" to "4" changes nothing. A
      cancel at any of the prompts gives Cancelled (the source's None). */
  function UpdatePrompt(variant: Variant, detail: string, t: Record, cats: Book, inputs: seq<string>): (p: Prompted<Fields>)
    ensures SuffixOf(p.rest, inputs)
    ensures p.reply.Given? ==> var f := p.reply.value; var old_ := FieldsOf(t);
              (detail == "1" ==> f == old_.(amount := f.amount) && f.amount >= 0) &&
              (detail == "2" ==> f == old_.(date := f.date)) &&
              (detail == "3" ==> f == old_.(category := f.category) && f.category != "cancel") &&
              (detail == "4" ==> f == old_.(remarks := f.remarks)) &&
              (detail !in {"1", "2", "3", "4"} ==> f == old_ && p.rest == inputs)
    ensures p.reply.Failed? <==> detail == "3" && (CategoryTypeOf(variant, t).Err? || CategoryTypeOf(variant, t).value !in cats)
    ensures p.reply.Failed? ==> p.reply.error == KeyError && p.rest == inputs
  {
    var current := FieldsOf(t);
    if detail == "1" then
      var a := AmountPrompt(inputs);
      match a.reply
      case Given(text) => Prompted(Given(current.(amount := AmountCents(text))), a.rest)
      case Cancelled => Prompted(Cancelled, a.rest)
      case Exhausted => Prompted(Exhausted, a.rest)
      case Failed(error) => Prompted(Failed(error), a.rest)
    else if detail == "2" then
      var d := Typed(inputs);
      match d.reply
      case Given(date) => Prompted(Given(current.(date := date)), d.rest)
      case Cancelled => Prompted(Cancelled, d.rest)
      case Exhausted => Prompted(Exhausted, d.rest)
      case Failed(error) => Prompted(Failed(error), d.rest)
    else if detail == "3" then
      match CategoryTypeOf(variant, t)
      case Err(error) => Prompted(Failed(error), inputs)
      case Ok(kind) =>
        var c := CategoryPrompt(cats, kind, inputs);
        match c.reply
        case Given(name) =>
          if name == "cancel" then Prompted(Cancelled, c.rest) else Prompted(Given(current.(category := name)), c.rest)
        case Cancelled => Prompted(Cancelled, c.rest)
        case Exhausted => Prompted(Exhausted, c.rest)
        case Failed(error) => Prompted(Failed(error), c.rest)
    else if detail == "4" then
      var r := Typed(inputs);
      match r.reply
      case Given(remarks) => Prompted(Given(current.(remarks := remarks)), r.rest)
      case Cancelled => Prompted(Cancelled, r.rest)
      case Exhausted => Prompted(Exhausted, r.rest)
      case Failed(error) => Prompted(Failed(error), r.rest)
    else Prompted(Given(current), inputs)
  }

  // The four lemmas below say that the new value is what the user typed and
  // that the edit is cancelled exactly by a cancel at the prompt of the field.

  /** Choices "2" and "4": the date or the remarks are the typed line, and a
      typed "cancel" cancels. */
  lemma UpdateTextTakesTypedValue(variant: Variant, t: Record, cats: Book, inputs: seq<string>)
    ensures var p := UpdatePrompt(variant, "2", t, cats, inputs);
            (p.reply.Given? ==> inputs != [] && p.reply.value.date == inputs[0] != "cancel" && p.rest == inputs[1..]) &&
            (p.reply.Cancelled? <==> inputs != [] && inputs[0] == "cancel")
    ensures var p := UpdatePrompt(variant, "4", t, cats, inputs);
            (p.reply.Given? ==> inputs != [] && p.reply.value.remarks == inputs[0] != "cancel" && p.rest == inputs[1..]) &&
            (p.reply.Cancelled? <==> inputs != [] && inputs[0] == "cancel")
  {
  }

  /** Any other choice keeps the record as it is and reads no line. */
  lemma UpdateOtherChoiceKeepsRecord(variant: Variant, detail: string, t: Record, cats: Book, inputs: seq<string>)
    requires detail !in {"1", "2", "3", "4"}
    ensures UpdatePrompt(variant, detail, t, cats, inputs) == Prompted(Given(FieldsOf(t)), inputs)
  {
  }

  /** Choice "1": the amount is the accepted line in cents. */
  lemma UpdateAmountTakesTypedValue(variant: Variant, t: Record, cats: Book, inputs: seq<string>)
    ensures var p := UpdatePrompt(variant, "1", t, cats, inputs); var n := |inputs| - |p.rest|;
            (p.reply.Given? ==>
               n >= 1 && AmountVerdict(inputs[n - 1]).AcceptAmount? &&
               p.reply.value.amount == AmountCents(AmountVerdict(inputs[n - 1]).text)) &&
            (p.reply.Cancelled? <==> AmountPrompt(inputs).reply.Cancelled?)
  {
    var a := AmountPrompt(inputs);
    AmountPromptLastLine(inputs);
    if a.reply.Given? {
      assert UpdatePrompt(variant, "1", t, cats, inputs) == Prompted(Given(FieldsOf(t).(amount := AmountCents(a.reply.value))), a.rest);
    } else if a.reply.Cancelled? {
      assert UpdatePrompt(variant, "1", t, cats, inputs) == Prompted(Cancelled, a.rest);
    } else {
      assert UpdatePrompt(variant, "1", t, cats, inputs) == Prompted(Exhausted, a.rest);
    }
  }

  /** Choice "3": the category is the entry at the picked position. */
  lemma UpdateCategoryTakesPickedValue(variant: Variant, t: Record, cats: Book, inputs: seq<string>)
    ensures var p := UpdatePrompt(variant, "3", t, cats, inputs); var n := |inputs| - |p.rest|;
            p.reply.Given? ==>
              CategoryTypeOf(variant, t).Ok? && CategoryTypeOf(variant, t).value in cats && n >= 1 &&
              var names := cats[CategoryTypeOf(variant, t).value];
              ValidPick(names, inputs[n - 1]) && p.reply.value.category == names[DigitsValue(inputs[n - 1]) - 1]
    ensures UpdatePrompt(variant, "3", t, cats, inputs).reply.Cancelled? <==>
              CategoryTypeOf(variant, t).Ok? && CategoryPrompt(cats, CategoryTypeOf(variant, t).value, inputs).reply == Given("cancel")
  {
    match CategoryTypeOf(variant, t)
    case Err(_) =>
    case Ok(kind) => CategoryPromptUsesCategoryList(cats, kind, inputs);
  }

  /** As written, re-picking the category of a record without a type raises
      KeyError before any line is read. */
  lemma UntypedRecordCrashesAsWritten(t: Record, cats: Book, inputs: seq<string>)
    requires t.kind.None?
    ensures UpdatePrompt(AsWritten, "3", t, cats, inputs) == Prompted(Failed(KeyError), inputs)
  {
  }

  /** Intended, a record without a type re-picks from the expense list, and the
      edit of a field raises only when the categories file lacks that list. */
  lemma UpdateIntendedRaisesOnlyOnMissingList(detail: string, t: Record, cats: Book, inputs: seq<string>)
    ensures UpdatePrompt(Intended, detail, t, cats, inputs).reply.Failed? <==> detail == "3" && EffectiveType(t) !in cats
    ensures var p := UpdatePrompt(Intended, "3", t, cats, inputs);
            p.reply.Given? ==> EffectiveType(t) in cats && p.reply.value.category in cats[EffectiveType(t)]
  {
  }

  /** Both readings agree on every record that carries its type. */
  lemma UpdateReadingsAgreeOnTypedRecords(detail: string, t: Record, cats: Book, inputs: seq<string>)
    requires t.kind.Some?
    ensures UpdatePrompt(AsWritten, detail, t, cats, inputs) == UpdatePrompt(Intended, detail, t, cats, inputs)
  {
  }
}
