/** The transaction store of src/models/transaction.py: an ordered list of
    records, each operation loading the list, changing it and saving it back.
    The file is the field `records`; loading and saving read and write it. */
module Transactions {
  import opened Common

  /** One transaction. Amounts are in cents. `kind` is the optional JSON key
      "type": records written by the earlier store (transactions.py) have none. */
  datatype Record = Record(id: int, date: string, amount: int, category: string, remarks: string, kind: Option<string>)

  /** The four fields an edit rewrites. */
  datatype Fields = Fields(amount: int, date: string, category: string, remarks: string)

  /** t.get("type", "expense"): a record without a type counts as an expense. */
  function EffectiveType(r: Record): string
  {
    match r.kind
    case Some(t) => t
    case None => "expense"
  }

  function FieldsOf(r: Record): Fields
  {
    Fields(r.amount, r.date, r.category, r.remarks)
  }

  /** The store invariant that makes ids unique: ids strictly increase in list order. */
  ghost predicate IdsIncreasing(rs: seq<Record>)
  {
    forall i, j :: 0 <= i < j < |rs| ==> rs[i].id < rs[j].id
  }

  /** The id a new record gets: the LAST record's id plus one, or 1 for an empty store. */
  function NextId(rs: seq<Record>): (n: int)
    ensures rs == [] ==> n == 1
    ensures IdsIncreasing(rs) ==> forall i :: 0 <= i < |rs| ==> rs[i].id < n
  {
    if rs == [] then 1 else rs[|rs| - 1].id + 1
  }

  /** The position of the first record with the given id, which the source's
      `for ... if transaction["id"] == ...: ...; break` loops stop at. */
  function FindId(rs: seq<Record>, id: int): (k: Option<nat>)
    ensures k.Some? ==> k.value < |rs| && rs[k.value].id == id
    ensures k.Some? ==> forall j :: 0 <= j < k.value ==> rs[j].id != id
    ensures k.None? ==> forall j :: 0 <= j < |rs| ==> rs[j].id != id
  {
    if rs == [] then None
    else if rs[0].id == id then Some(0)
    else match FindId(rs[1..], id)
      case None => None
      case Some(k) => Some(k + 1)
  }

  /** The list delete_transaction saves. */
  function DeleteFirst(rs: seq<Record>, id: int): seq<Record>
  {
    match FindId(rs, id)
    case None => rs
    case Some(k) => rs[..k] + rs[k + 1..]
  }

  /** The list update_transaction saves. */
  function UpdateFirst(rs: seq<Record>, id: int, f: Fields): seq<Record>
  {
    match FindId(rs, id)
    case None => rs
    case Some(k) => rs[k := rs[k].(amount := f.amount, date := f.date, category := f.category, remarks := f.remarks)]
  }

  /** [t for t in transactions if t.get("type", "expense") == kind]. */
  function Filter(rs: seq<Record>, kind: string): (r: seq<Record>)
    ensures |r| <= |rs|
    ensures forall x :: x in r ==> x in rs && EffectiveType(x) == kind
    ensures forall x :: x in rs && EffectiveType(x) == kind ==> x in r
  {
    if rs == [] then []
    else if EffectiveType(rs[0]) == kind then [rs[0]] + Filter(rs[1..], kind)
    else Filter(rs[1..], kind)
  }

  /** The running sum get_total builds over the records of one type. */
  function Total(rs: seq<Record>, kind: string): int
  {
    if rs == [] then 0
    else (if EffectiveType(rs[0]) == kind then rs[0].amount else 0) + Total(rs[1..], kind)
  }

  function SumAmounts(rs: seq<Record>): int
  {
    if rs == [] then 0 else rs[0].amount + SumAmounts(rs[1..])
  }

  /** show_filtered_transactions' answer: some record has this effective type. */
  predicate HasType(rs: seq<Record>, kind: string)
  {
    exists i :: 0 <= i < |rs| && EffectiveType(rs[i]) == kind
  }

  /** The loaded transactions file. */
  class Store {
    var records: seq<Record>

    /** load_transactions: an absent or empty file loads as []. */
    constructor (loaded: seq<Record>)
      ensures records == loaded
    {
      records := loaded;
    }

    /** add_transaction: appends one record with the next id and the given type. */
    method Add(date: string, amount: int, category: string, remarks: string, kind: string)
      modifies this
      ensures records == old(records) + [Record(NextId(old(records)), date, amount, category, remarks, Some(kind))]
    {
      var id := if records == [] then 1 else records[|records| - 1].id + 1;
      records := records + [Record(id, date, amount, category, remarks, Some(kind))];
    }

    /** delete_transaction: pops the first record whose id equals `id`
        (the caller's int(transaction_id)). */
    method Delete(id: int)
      modifies this
      ensures records == DeleteFirst(old(records), id)
    {
      var i := 0;
      while i < |records|
        invariant 0 <= i <= |records|
        invariant records == old(records)
        invariant forall j :: 0 <= j < i ==> records[j].id != id
      {
        if records[i].id == id {
          records := records[..i] + records[i + 1..];
          return;
        }
        i := i + 1;
      }
    }

    /** update_transaction: rewrites the four fields of the first record whose id matches. */
    method Update(id: int, f: Fields)
      modifies this
      ensures records == UpdateFirst(old(records), id, f)
    {
      var i := 0;
      while i < |records|
        invariant 0 <= i <= |records|
        invariant records == old(records)
        invariant forall j :: 0 <= j < i ==> records[j].id != id
      {
        if records[i].id == id {
          records := records[i := records[i].(amount := f.amount, date := f.date, category := f.category, remarks := f.remarks)];
          return;
        }
        i := i + 1;
      }
    }

    /** delete_all_transactions: saves an empty list. */
    method DeleteAll()
      modifies this
      ensures records == []
    {
      records := [];
    }
  }

  // ---------------------------------------------------------------------
  // Identifiers

  /** Adding keeps ids strictly increasing, so the new id is unused. */
  lemma AddKeepsIdsIncreasing(rs: seq<Record>, r: Record)
    requires IdsIncreasing(rs) && r.id == NextId(rs)
    ensures IdsIncreasing(rs + [r])
    ensures forall i :: 0 <= i < |rs| ==> rs[i].id != r.id
  {
  }

  /** Deleting keeps ids strictly increasing. */
  lemma {:induction false} DeleteKeepsIdsIncreasing(rs: seq<Record>, id: int)
    requires IdsIncreasing(rs)
    ensures IdsIncreasing(DeleteFirst(rs, id))
  {
    match FindId(rs, id)
    case None =>
    case Some(k) =>
      var r := rs[..k] + rs[k + 1..];
      forall i, j | 0 <= i < j < |r| ensures r[i].id < r[j].id {
        var i' := if i < k then i else i + 1;
        var j' := if j < k then j else j + 1;
        assert r[i] == rs[i'] && r[j] == rs[j'];
      }
  }

  /** With unique ids, delete removes exactly the records carrying that id:
      what is left is `rs` with the id filtered out, in the same order. */
  lemma {:induction false} DeleteIsFilterById(rs: seq<Record>, id: int)
    requires IdsIncreasing(rs)
    ensures DeleteFirst(rs, id) == WithoutId(rs, id)
  {
    if rs != [] {
      var tail := rs[1..];
      assert IdsIncreasing(tail);
      if rs[0].id == id {
        assert DeleteFirst(rs, id) == tail;
        NoIdAfterFirst(tail, id);
      } else {
        DeleteIsFilterById(tail, id);
        DeleteFirstSkips(rs, id);
      }
    }
  }

  /** A first record with another id stays in front of what delete leaves. */
  lemma DeleteFirstSkips(rs: seq<Record>, id: int)
    requires rs != [] && rs[0].id != id
    ensures DeleteFirst(rs, id) == [rs[0]] + DeleteFirst(rs[1..], id)
  {
    var tail := rs[1..];
    match FindId(tail, id)
    case None =>
      assert rs == [rs[0]] + tail;
    case Some(k) =>
      assert rs[..k + 1] + rs[k + 2..] == [rs[0]] + (tail[..k] + tail[k + 1..]);
  }

  /** The reference definition delete is checked against. */
  function WithoutId(rs: seq<Record>, id: int): (r: seq<Record>)
    ensures forall x :: x in r <==> x in rs && x.id != id
  {
    if rs == [] then [] else (if rs[0].id == id then [] else [rs[0]]) + WithoutId(rs[1..], id)
  }

  lemma {:induction false} NoIdAfterFirst(rs: seq<Record>, id: int)
    requires IdsIncreasing(rs) && forall i :: 0 <= i < |rs| ==> rs[i].id > id
    ensures WithoutId(rs, id) == rs
  {
    if rs != [] {
      NoIdAfterFirst(rs[1..], id);
    }
  }

  /** Update leaves the length, every id and every type as they were, changes
      at most the first record with that id, and there only the four fields. */
  lemma UpdateTouchesOneRecord(rs: seq<Record>, id: int, f: Fields)
    ensures |UpdateFirst(rs, id, f)| == |rs|
    ensures forall i :: 0 <= i < |rs| ==> UpdateFirst(rs, id, f)[i].id == rs[i].id && UpdateFirst(rs, id, f)[i].kind == rs[i].kind
    ensures forall i :: 0 <= i < |rs| && rs[i].id != id ==> UpdateFirst(rs, id, f)[i] == rs[i]
    ensures FindId(rs, id).Some? ==> FieldsOf(UpdateFirst(rs, id, f)[FindId(rs, id).value]) == f
    ensures FindId(rs, id).None? ==> UpdateFirst(rs, id, f) == rs
  {
  }

  /** The last id is reused: delete the last record and the next add gets its id back. */
  lemma IdReusedAfterDeletingLast()
    ensures var rs := [Record(1, "01/01/2024", 1000, "Food", "lunch", Some("expense")),
                       Record(2, "02/01/2024", 500, "Bus", "", Some("expense"))];
            NextId(DeleteFirst(rs, 2)) == 2
  {
    var rs := [Record(1, "01/01/2024", 1000, "Food", "lunch", Some("expense")),
               Record(2, "02/01/2024", 500, "Bus", "", Some("expense"))];
    assert FindId(rs, 2) == Some(1);
    assert DeleteFirst(rs, 2) == rs[..1];
  }

  // ---------------------------------------------------------------------
  // Filtering and totals

  /** A subsequence: `sub` is `rs` with some records left out, order kept. */
  ghost predicate IsSubsequence(sub: seq<Record>, rs: seq<Record>)
    decreases |rs|
  {
    if sub == [] then true
    else if rs == [] then false
    else if sub[0] == rs[0] then IsSubsequence(sub[1..], rs[1..])
    else IsSubsequence(sub, rs[1..])
  }

  lemma {:induction false} FilterIsSubsequence(rs: seq<Record>, kind: string)
    ensures IsSubsequence(Filter(rs, kind), rs)
  {
    if rs != [] {
      FilterIsSubsequence(rs[1..], kind);
      var f := Filter(rs[1..], kind);
      if EffectiveType(rs[0]) == kind {
        assert ([rs[0]] + f)[1..] == f;
      }
    }
  }

  /** Filtering after an add: the new record joins the end exactly when it has the type. */
  lemma {:induction false} FilterAppend(rs: seq<Record>, r: Record, kind: string)
    ensures Filter(rs + [r], kind) == Filter(rs, kind) + (if EffectiveType(r) == kind then [r] else [])
  {
    if rs != [] {
      assert (rs + [r])[1..] == rs[1..] + [r];
      FilterAppend(rs[1..], r, kind);
    }
  }

  /** get_total is the sum of the amounts of the filtered view. */
  lemma {:induction false} TotalIsSumOfFilter(rs: seq<Record>, kind: string)
    ensures Total(rs, kind) == SumAmounts(Filter(rs, kind))
  {
    if rs != [] {
      TotalIsSumOfFilter(rs[1..], kind);
      if EffectiveType(rs[0]) == kind {
        assert ([rs[0]] + Filter(rs[1..], kind))[1..] == Filter(rs[1..], kind);
      }
    }
  }

  lemma {:induction false} TotalAppend(rs: seq<Record>, r: Record, kind: string)
    ensures Total(rs + [r], kind) == Total(rs, kind) + (if EffectiveType(r) == kind then r.amount else 0)
  {
    if rs != [] {
      assert (rs + [r])[1..] == rs[1..] + [r];
      TotalAppend(rs[1..], r, kind);
    }
  }

  /** With no record of the type the total is 0 (the source's "0.00"). */
  lemma {:induction false} TotalWithoutType(rs: seq<Record>, kind: string)
    requires !HasType(rs, kind)
    ensures Total(rs, kind) == 0
  {
    if rs != [] {
      assert EffectiveType(rs[0]) != kind;
      assert forall i :: 0 <= i < |rs| - 1 ==> rs[1..][i] == rs[i + 1];
      TotalWithoutType(rs[1..], kind);
    }
  }

  /** The display predicate agrees with the filtered view being non-empty. */
  lemma HasTypeIffFiltered(rs: seq<Record>, kind: string)
    ensures HasType(rs, kind) <==> Filter(rs, kind) != []
  {
    if HasType(rs, kind) {
      var i :| 0 <= i < |rs| && EffectiveType(rs[i]) == kind;
      assert rs[i] in rs;
    }
  }
}
