/**
  The projection `view_records` makes of each stored row for the table on screen.
  The currency and percent formatting of the figures is not modelled; the
  figures themselves are.
 */
module Display {
  import opened Payment
  import opened Loans

  /** One line of the on-screen table: id, borrower, amount, term, rate, status, total paid, monthly payment. */
  datatype DisplayRow = DisplayRow(
    id: int,
    borrower: string,
    amount: real,
    term: int,
    rate: real,
    status: string,
    totalPaid: real,
    monthlyPayment: real)

  /**
    The displayed line for row `id`: a Settled loan shows 0 for both figures
    whatever is stored; any other loan shows its stored monthly payment and that
    payment times the term, to the nearest cent.
   */
  function Show(id: int, rec: LoanRecord): (row: DisplayRow)
    ensures row.id == id && row.borrower == rec.borrower && row.amount == rec.amount
    ensures row.term == rec.term && row.rate == rec.rate && row.status == rec.status
    ensures rec.status == SETTLED ==> row.monthlyPayment == 0.0 && row.totalPaid == 0.0
    ensures rec.status != SETTLED ==>
      && row.monthlyPayment == rec.monthlyPayment
      && -0.005 <= row.totalPaid - rec.monthlyPayment * rec.term as real <= 0.005
    ensures IsCents(row.totalPaid)
  {
    if rec.status == SETTLED then
      DisplayRow(id, rec.borrower, rec.amount, rec.term, rec.rate, rec.status, 0.0, 0.0)
    else
      DisplayRow(id, rec.borrower, rec.amount, rec.term, rec.rate, rec.status,
                 TotalPaid(rec.monthlyPayment, rec.term), rec.monthlyPayment)
  }

  /**
    For a row whose stored payment is derived from its own columns, the screen
    shows the same monthly payment as storage: recomputing it from amount, rate
    and term with the Settled rule gives the figure shown.
   */
  lemma ShownPaymentIsStored(id: int, rec: LoanRecord)
    requires Derived(rec)
    ensures Show(id, rec).monthlyPayment == rec.monthlyPayment
    ensures Show(id, rec).monthlyPayment ==
      (if rec.status == SETTLED then 0.0 else MonthlyPayment(rec.amount, rec.rate, rec.term))
  {
  }

  /**
    For a row that is not Settled and whose stored payment is derived, the total
    shown is the principal plus its simple interest, within a cent per month of
    rounding; with a term that is not positive both figures are 0.
   */
  lemma ShownTotalIsRepayment(id: int, rec: LoanRecord)
    requires Derived(rec) && rec.status != SETTLED
    ensures rec.term > 0 ==>
      -0.005 * (rec.term + 1) as real <= Show(id, rec).totalPaid - Repayment(rec.amount, rec.rate)
                                       <= 0.005 * (rec.term + 1) as real
    ensures rec.term <= 0 ==> Show(id, rec).totalPaid == 0.0 && Show(id, rec).monthlyPayment == 0.0
  {
    if rec.term > 0 {
      TotalPaidIsRepayment(rec.amount, rec.rate, rec.term);
    } else {
      assert TotalPaid(0.0, rec.term) == Round2(0.0);
      assert IsCents(0.0);
    }
  }

  /**
    A loan of 10000 at 5% over 12 months, added as Approved, is shown with
    875.00 a month and 10500.00 in all; edited to Settled with the same
    amount, rate and term, it is shown with 0 and 0.
   */
  lemma ExampleLoanShown(t: Tables, today: string, row: Wrappers.Option<int>)
    requires Consistent(t) && Fetched(t, row) && t.highWater < MAX_INT64
    ensures
      var approved := LoanInput("Cruz", Parsed(10000.0), Parsed(12), Parsed(5.0), "Approved");
      var settled := approved.(status := SETTLED);
      && AddLoan(t, approved, today, row).Success?
      && var (id, t1) := AddLoan(t, approved, today, row).value;
      && Show(id, t1.records[id]).monthlyPayment == 875.0
      && Show(id, t1.records[id]).totalPaid == 10500.0
      && UpdateLoan(t1, id, settled).Success?
      && var t2 := UpdateLoan(t1, id, settled).value;
      && Show(id, t2.records[id]).monthlyPayment == 0.0
      && Show(id, t2.records[id]).totalPaid == 0.0
      && t2.records[id].amount == 10000.0 && t2.records[id].term == 12 && t2.records[id].rate == 5.0
  {
  }
}
