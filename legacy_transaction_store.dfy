/** The earlier transaction store, transactions.py: records without a type,
    and a delete that compares the stored id with its argument as given. */
module LegacyTransactions {
  import opened Common
  import opened Transactions

  /** The argument of delete_transaction as a Python value: the stored ids
      are ints, while text typed at a prompt is a str, and in Python an int
      is never equal to a str. */
  datatype IdArg = IntArg(n: int) | TextArg(s: string)

  predicate Matches(r: Record, arg: IdArg)
  {
    match arg
    case IntArg(n) => r.id == n
    case TextArg(_) => false
  }

  function FindArg(rs: seq<Record>, arg: IdArg): (k: Option<nat>)
    ensures k.Some? ==> k.value < |rs| && Matches(rs[k.value], arg)
    ensures k.Some? ==> forall j :: 0 <= j < k.value ==> !Matches(rs[j], arg)
    ensures k.None? ==> forall j :: 0 <= j < |rs| ==> !Matches(rs[j], arg)
  {
    if rs == [] then None
    else if Matches(rs[0], arg) then Some(0)
    else match FindArg(rs[1..], arg)
      case None => None
      case Some(k) => Some(k + 1)
  }

  function DeleteFirstArg(rs: seq<Record>, arg: IdArg): seq<Record>
  {
    match FindArg(rs, arg)
    case None => rs
    case Some(k) => rs[..k] + rs[k + 1..]
  }

  class LegacyStore {
    var records: seq<Record>

    /** load_transactions; view_transactions returns this list whole, in order. */
    constructor (loaded: seq<Record>)
      ensures records == loaded
    {
      records := loaded;
    }

    /** add_transaction: appends one record with the next id and no "type" key. */
    method Add(date: string, amount: int, category: string, remarks: string)
      modifies this
      ensures records == old(records) + [Record(NextId(old(records)), date, amount, category, remarks, None)]
    {
      var id := if records == [] then 1 else records[|records| - 1].id + 1;
      records := records + [Record(id, date, amount, category, remarks, None)];
    }

    /** delete_transaction: pops the first record whose id == the argument. */
    method Delete(arg: IdArg)
      modifies this
      ensures records == DeleteFirstArg(old(records), arg)
    {
      var i := 0;
      while i < |records|
        invariant 0 <= i <= |records|
        invariant records == old(records)
        invariant forall j :: 0 <= j < i ==> !Matches(records[j], arg)
      {
        if Matches(records[i], arg) {
          records := records[..i] + records[i + 1..];
          return;
        }
        i := i + 1;
      }
    }
  }

  /** Records added by this store read as expenses everywhere the newer code looks. */
  lemma LegacyRecordsAreExpenses(rs: seq<Record>, date: string, amount: int, category: string, remarks: string)
    ensures EffectiveType(Record(NextId(rs), date, amount, category, remarks, None)) == "expense"
    ensures Filter(rs + [Record(NextId(rs), date, amount, category, remarks, None)], "expense")
         == Filter(rs, "expense") + [Record(NextId(rs), date, amount, category, remarks, None)]
  {
    FilterAppend(rs, Record(NextId(rs), date, amount, category, remarks, None), "expense");
  }

  /** With an int argument the earlier delete is the newer one. */
  lemma {:induction false} IntArgDeletesLikeNewStore(rs: seq<Record>, n: int)
    ensures DeleteFirstArg(rs, IntArg(n)) == DeleteFirst(rs, n)
  {
    if rs != [] && rs[0].id != n {
      IntArgDeletesLikeNewStore(rs[1..], n);
    }
  }

  /** As written: given the typed text of an id, as transaction_ui.py:107
      passes it, delete never finds a record and the list stays as it was. */
  lemma TextArgNeverDeletes(rs: seq<Record>, s: string)
    ensures DeleteFirstArg(rs, TextArg(s)) == rs
  {
  }
}
