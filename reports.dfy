/** The financial summary of reports.py, read off the transaction store of
    src/models/transaction.py. */
module Reports {
  import opened Common
  import opened Transactions

  datatype Summary = Summary(income: int, expenses: int, balance: int)

  /** The independent reference for the balance: every income adds its
      amount, every expense subtracts it, other types do not count. */
  function NetFlow(rs: seq<Record>): int
  {
    if rs == [] then 0
    else
      var t := EffectiveType(rs[0]);
      (if t == "income" then rs[0].amount else if t == "expense" then -rs[0].amount else 0) + NetFlow(rs[1..])
  }

  lemma {:induction false} NetFlowIsIncomeMinusExpenses(rs: seq<Record>)
    ensures NetFlow(rs) == Total(rs, "income") - Total(rs, "expense")
  {
    if rs != [] {
      NetFlowIsIncomeMinusExpenses(rs[1..]);
    }
  }

  /** get_financial_summary: the two per-type totals and their difference.
      It reads the records and changes nothing. */
  function FinancialSummary(rs: seq<Record>): (s: Summary)
    ensures s.income == SumAmounts(Filter(rs, "income"))
    ensures s.expenses == SumAmounts(Filter(rs, "expense"))
    ensures s.balance == NetFlow(rs)
    ensures s.balance == s.income - s.expenses
  {
    TotalIsSumOfFilter(rs, "income");
    TotalIsSumOfFilter(rs, "expense");
    NetFlowIsIncomeMinusExpenses(rs);
    var income := Total(rs, "income");
    var expenses := Total(rs, "expense");
    Summary(income, expenses, income - expenses)
  }

  /** Adding an income raises income and balance by its amount; adding an
      expense raises expenses and lowers the balance by its amount. */
  lemma SummaryAfterAdd(rs: seq<Record>, r: Record)
    ensures EffectiveType(r) == "income" ==>
      FinancialSummary(rs + [r]) == Summary(FinancialSummary(rs).income + r.amount, FinancialSummary(rs).expenses, FinancialSummary(rs).balance + r.amount)
    ensures EffectiveType(r) == "expense" ==>
      FinancialSummary(rs + [r]) == Summary(FinancialSummary(rs).income, FinancialSummary(rs).expenses + r.amount, FinancialSummary(rs).balance - r.amount)
    ensures EffectiveType(r) != "income" && EffectiveType(r) != "expense" ==>
      FinancialSummary(rs + [r]) == FinancialSummary(rs)
  {
    TotalAppend(rs, r, "income");
    TotalAppend(rs, r, "expense");
  }

  /** An empty store (after delete-all, or with no file) summarises to zeros. */
  lemma EmptySummary()
    ensures FinancialSummary([]) == Summary(0, 0, 0)
  {
  }
}
