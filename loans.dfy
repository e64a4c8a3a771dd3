/**
  The two tables of the loan system as one value, and the add, delete and update
  operations as all-or-nothing transitions on it. `loan_records` is a map from id
  to record, `deleted_ids` a set of recycled ids, and `highWater` the AUTOINCREMENT
  counter: the largest id ever inserted into `loan_records` (0 before the first).
 */
module Loans {
  import opened Wrappers
  import opened Payment

  /** SQLite stores INTEGER columns in 64 bits; binding a Python int outside this range raises. */
  const MIN_INT64: int := -0x8000_0000_0000_0000
  const MAX_INT64: int := 0x7fff_ffff_ffff_ffff

  predicate Int64(x: int) {
    MIN_INT64 <= x <= MAX_INT64
  }

  /**
    One entry of the form after the UI's conversion: its text was empty, was
    rejected by `float`/`int` (ValueError), or converted to `value`.
   */
  datatype Field<T> = Blank | Malformed | Parsed(value: T)

  /** The five entries of the add form or of the editor window. */
  datatype LoanInput = LoanInput(
    borrower: string,
    amount: Field<real>,
    term: Field<int>,
    rate: Field<real>,
    status: string)

  /** The user-supplied columns of a row, once converted. */
  datatype Terms = Terms(borrower: string, amount: real, term: int, rate: real, status: string)

  /** A row of `loan_records`, without its id (the map key). */
  datatype LoanRecord = LoanRecord(
    borrower: string,
    amount: real,
    term: int,
    rate: real,
    status: string,
    date: string,
    monthlyPayment: real)

  /** Why an operation left the tables as they were. */
  datatype Reason =
    | EmptyField       // an add-form entry was empty
    | NotANumber       // float()/int() raised ValueError
    | OutOfRange       // an integer does not fit SQLite's INTEGER (OverflowError)
    | IdsExhausted     // AUTOINCREMENT has already issued the largest rowid (SQLITE_FULL)
    | AlreadyRecycled  // the id is already in deleted_ids (PRIMARY KEY violation)
    | NoSuchRecord     // no row of loan_records has the id

  datatype Tables = Tables(records: map<int, LoanRecord>, recycled: set<int>, highWater: int)

  function TermsOf(rec: LoanRecord): Terms {
    Terms(rec.borrower, rec.amount, rec.term, rec.rate, rec.status)
  }

  /** The monthly payment stored with a row: zero for a Settled loan, the formula otherwise. */
  function StoredPayment(t: Terms): (p: real)
    ensures t.status == SETTLED || t.term <= 0 ==> p == 0.0
    ensures t.status != SETTLED && t.term > 0 ==>
      -0.005 <= p - Repayment(t.amount, t.rate) / t.term as real <= 0.005
    ensures IsCents(p)
  {
    if t.status == SETTLED then 0.0 else MonthlyPayment(t.amount, t.rate, t.term)
  }

  /** The stored monthly payment is the one derived from the row's own columns. */
  ghost predicate Derived(rec: LoanRecord) {
    rec.monthlyPayment == StoredPayment(TermsOf(rec))
  }

  /** The tables as the three operations leave them. */
  ghost predicate Consistent(t: Tables) {
    && t.records.Keys !! t.recycled
    && 0 <= t.highWater <= MAX_INT64
    && (forall id :: id in t.records ==> Int64(id) && id <= t.highWater)
    && (forall id :: id in t.recycled ==> Int64(id))
    && (forall id :: id in t.records ==> Derived(t.records[id]))
  }

  /** The empty tables that `create_tables` makes in a new database file. */
  function Empty(): (t: Tables)
    ensures Consistent(t) && t.records == map[] && t.recycled == {}
  {
    Tables(map[], {}, 0)
  }

  predicate HasEmptyEntry(input: LoanInput) {
    input.borrower == "" || input.amount.Blank? || input.term.Blank? || input.rate.Blank? || input.status == ""
  }

  /** The conversions `float(amount)`, `int(term)`, `float(rate)` and the binding of the term. */
  function Convert(input: LoanInput): (r: Result<Terms, Reason>)
    ensures r.Success? <==> input.amount.Parsed? && input.term.Parsed? && input.rate.Parsed? && Int64(input.term.value)
    ensures r.Success? ==> r.value == Terms(input.borrower, input.amount.value, input.term.value, input.rate.value, input.status)
    ensures r.Failure? ==> r.error in {NotANumber, OutOfRange}
  {
    if !(input.amount.Parsed? && input.term.Parsed? && input.rate.Parsed?) then Failure(NotANumber)
    else if !Int64(input.term.value) then Failure(OutOfRange)
    else Success(Terms(input.borrower, input.amount.value, input.term.value, input.rate.value, input.status))
  }

  /** What the add form accepts: no empty entry, then the conversions. */
  function CheckAdd(input: LoanInput): (r: Result<Terms, Reason>)
    ensures r == Failure(EmptyField) <==> HasEmptyEntry(input)
    ensures r.Success? ==> r.value.borrower != "" && r.value.status != ""
  {
    if HasEmptyEntry(input) then Failure(EmptyField) else Convert(input)
  }

  /** A new row as `add_record` inserts it, stamped with `today`. */
  function NewRecord(t: Terms, today: string): (rec: LoanRecord)
    ensures TermsOf(rec) == t && rec.date == today && Derived(rec)
  {
    LoanRecord(t.borrower, t.amount, t.term, t.rate, t.status, today, StoredPayment(t))
  }

  /** A row as `save_update` rewrites it: every column but the date is replaced. */
  function Revised(rec: LoanRecord, t: Terms): (r: LoanRecord)
    ensures TermsOf(r) == t && r.date == rec.date && Derived(r)
  {
    rec.(borrower := t.borrower, amount := t.amount, term := t.term, rate := t.rate,
         status := t.status, monthlyPayment := StoredPayment(t))
  }

  /** What `SELECT id FROM deleted_ids LIMIT 1` may return: nothing when the table is empty, else any of its ids. */
  ghost predicate Fetched(t: Tables, row: Option<int>) {
    if t.recycled == {} then row == None else row.Some? && row.value in t.recycled
  }

  /** The INSERT of `rec` under `id`, with the recycled id (if it was one) gone from `deleted_ids`. */
  function Insert(t: Tables, id: int, rec: LoanRecord): Tables {
    Tables(t.records[id := rec], t.recycled - {id}, if id > t.highWater then id else t.highWater)
  }

  /**
    `add_record`, given the row the recycled-id query returned: validate, take the
    recycled id or the next AUTOINCREMENT id, insert. Yields the new id and tables.
   */
  function AddLoan(t: Tables, input: LoanInput, today: string, row: Option<int>): (r: Result<(int, Tables), Reason>)
    ensures CheckAdd(input).Failure? ==> r == Failure(CheckAdd(input).error)
    ensures r.Success? ==> CheckAdd(input).Success?
    ensures r.Success? ==>
      var (id, t') := r.value;
      && Int64(id)
      && (row.Some? ==> id == row.value)
      && (row.None? ==> id == t.highWater + 1)
      && t'.records.Keys == t.records.Keys + {id}
      && t'.records[id] == NewRecord(CheckAdd(input).value, today)
      && (forall k :: k in t.records && k != id ==> t'.records[k] == t.records[k])
      && t'.recycled == t.recycled - {id}
      && t'.highWater == (if id > t.highWater then id else t.highWater)
  {
    match CheckAdd(input)
    case Failure(e) => Failure(e)
    case Success(terms) =>
      var id := if row.Some? then row.value else t.highWater + 1;
      if !Int64(id) then Failure(IdsExhausted)
      else Success((id, Insert(t, id, NewRecord(terms, today))))
  }

  /** `delete_record`: drop the row (if any) and put the id in `deleted_ids`. */
  function DeleteLoan(t: Tables, entry: Field<int>): (r: Result<Tables, Reason>)
    ensures r.Success? <==> entry.Parsed? && Int64(entry.value) && entry.value !in t.recycled
    ensures r.Success? ==>
      && entry.value !in r.value.records
      && r.value.records.Keys == t.records.Keys - {entry.value}
      && (forall k :: k in r.value.records ==> r.value.records[k] == t.records[k])
      && r.value.recycled == t.recycled + {entry.value}
      && r.value.highWater == t.highWater
  {
    if !entry.Parsed? then Failure(NotANumber)
    else if !Int64(entry.value) then Failure(OutOfRange)
    else if entry.value in t.recycled then Failure(AlreadyRecycled)
    else Success(Tables(t.records - {entry.value}, t.recycled + {entry.value}, t.highWater))
  }

  /** `save_update` for the row `id` the editor was opened on. */
  function UpdateLoan(t: Tables, id: int, input: LoanInput): (r: Result<Tables, Reason>)
    ensures r.Success? <==> Convert(input).Success? && id in t.records
    ensures r.Success? ==>
      && r.value.records.Keys == t.records.Keys
      && r.value.records[id] == Revised(t.records[id], Convert(input).value)
      && (forall k :: k in t.records && k != id ==> r.value.records[k] == t.records[k])
      && r.value.recycled == t.recycled
      && r.value.highWater == t.highWater
  {
    match Convert(input)
    case Failure(e) => Failure(e)
    case Success(terms) =>
      if id !in t.records then Failure(NoSuchRecord)
      else Success(t.(records := t.records[id := Revised(t.records[id], terms)]))
  }

  // ---------------------------------------------------------------------------
  // Add

  /** An add with an empty entry is rejected, whatever the tables and the recycled row. */
  lemma AddRejectsEmptyEntry(t: Tables, input: LoanInput, today: string, row: Option<int>)
    requires HasEmptyEntry(input)
    ensures AddLoan(t, input, today, row) == Failure(EmptyField)
  {
  }

  /**
    A successful add keeps the tables consistent, never lands on an id in use,
    and stores exactly the converted entries with the derived payment.
   */
  lemma AddKeepsConsistent(t: Tables, input: LoanInput, today: string, row: Option<int>)
    requires Consistent(t) && Fetched(t, row)
    ensures AddLoan(t, input, today, row).Success? ==>
      var (id, t') := AddLoan(t, input, today, row).value;
      && Consistent(t')
      && id !in t.records
      && t'.records.Keys == t.records.Keys + {id}
      && t'.records[id] == NewRecord(CheckAdd(input).value, today)
      && (forall k :: k in t.records ==> t'.records[k] == t.records[k])
  {
  }

  /**
    Where the new id comes from: a recycled id, which leaves `deleted_ids`, when
    there is one; otherwise the next AUTOINCREMENT id, above every id in use.
   */
  lemma AddAllocation(t: Tables, input: LoanInput, today: string, row: Option<int>)
    requires Consistent(t) && Fetched(t, row)
    ensures AddLoan(t, input, today, row).Success? ==>
      var (id, t') := AddLoan(t, input, today, row).value;
      && (t.recycled != {} ==> id in t.recycled && t'.recycled == t.recycled - {id})
      && (t.recycled == {} ==> id == t.highWater + 1 && t'.recycled == {} && t'.highWater == id)
      && (t.recycled == {} ==> forall k :: k in t.records ==> k < id)
  {
  }

  /** The add is refused only for bad entries, or when AUTOINCREMENT has run out of ids. */
  lemma AddSucceeds(t: Tables, input: LoanInput, today: string, row: Option<int>)
    requires Consistent(t) && Fetched(t, row)
    ensures AddLoan(t, input, today, row).Success? <==>
      CheckAdd(input).Success? && (t.recycled != {} || t.highWater < MAX_INT64)
  {
  }

  // ---------------------------------------------------------------------------
  // Delete

  lemma DeleteKeepsConsistent(t: Tables, entry: Field<int>)
    requires Consistent(t)
    ensures DeleteLoan(t, entry).Success? ==>
      var t' := DeleteLoan(t, entry).value;
      && Consistent(t')
      && entry.value !in t'.records && entry.value in t'.recycled
      && t'.records.Keys == t.records.Keys - {entry.value}
      && (forall k :: k in t'.records ==> t'.records[k] == t.records[k])
      && t'.recycled == t.recycled + {entry.value}
      && t'.highWater == t.highWater
  {
  }

  /**
    Deleting an id that no row has still recycles it: the rows stay as they were
    and the id joins `deleted_ids`.
   */
  lemma DeleteUnknownIdRecycles(t: Tables, id: int)
    requires Int64(id) && id !in t.records && id !in t.recycled
    ensures DeleteLoan(t, Parsed(id)).Success?
    ensures DeleteLoan(t, Parsed(id)).value.records == t.records
    ensures DeleteLoan(t, Parsed(id)).value.recycled == t.recycled + {id}
  {
  }

  /** A second delete of the same id violates `deleted_ids`' primary key and changes nothing. */
  lemma DeleteTwiceRefused(t: Tables, id: int)
    requires DeleteLoan(t, Parsed(id)).Success?
    ensures DeleteLoan(DeleteLoan(t, Parsed(id)).value, Parsed(id)) == Failure(AlreadyRecycled)
  {
  }

  /**
    With no recycled ids, deleting record `k` and then adding a record reuses
    `k`: the only row the recycled-id query can return is `k`.
   */
  lemma DeleteThenAddReusesId(t: Tables, k: int, input: LoanInput, today: string, row: Option<int>)
    requires Consistent(t) && t.recycled == {} && k in t.records
    requires DeleteLoan(t, Parsed(k)).Success?
    requires Fetched(DeleteLoan(t, Parsed(k)).value, row)
    requires CheckAdd(input).Success?
    ensures row == Some(k)
    ensures AddLoan(DeleteLoan(t, Parsed(k)).value, input, today, row).Success?
    ensures
      var (id, t') := AddLoan(DeleteLoan(t, Parsed(k)).value, input, today, row).value;
      id == k && t'.recycled == {} && t'.records.Keys == t.records.Keys
  {
  }

  /**
    Deleting the record an add just created gives back the original rows and
    recycles its id: a recycled id returns to `deleted_ids`, so both tables are
    as before; a fresh AUTOINCREMENT id becomes the only recycled id.
   */
  lemma DeleteUndoesAdd(t: Tables, input: LoanInput, today: string, row: Option<int>)
    requires Consistent(t) && Fetched(t, row)
    requires AddLoan(t, input, today, row).Success?
    ensures
      var (id, t') := AddLoan(t, input, today, row).value;
      && DeleteLoan(t', Parsed(id)).Success?
      && DeleteLoan(t', Parsed(id)).value.records == t.records
      && DeleteLoan(t', Parsed(id)).value.recycled == t.recycled + {id}
      && (row.Some? ==> DeleteLoan(t', Parsed(id)).value.recycled == t.recycled)
      && (row.None? ==> DeleteLoan(t', Parsed(id)).value.recycled == {id})
  {
  }

  // ---------------------------------------------------------------------------
  // Update

  /** An update keeps the tables consistent, the set of ids, and every other row. */
  lemma UpdateKeepsConsistent(t: Tables, id: int, input: LoanInput)
    requires Consistent(t)
    ensures UpdateLoan(t, id, input).Success? ==>
      var t' := UpdateLoan(t, id, input).value;
      && Consistent(t')
      && t'.records.Keys == t.records.Keys
      && t'.recycled == t.recycled
      && t'.highWater == t.highWater
      && (forall k :: k in t.records && k != id ==> t'.records[k] == t.records[k])
  {
  }

  /** An update of an id with no row changes nothing. */
  lemma UpdateMissingChangesNothing(t: Tables, id: int, input: LoanInput)
    requires id !in t.records
    ensures UpdateLoan(t, id, input).Failure?
  {
  }

  /**
    An update of an existing row overwrites name, amount, term, rate, status and
    monthly payment, and keeps the creation date.
   */
  lemma UpdateOverwrites(t: Tables, id: int, input: LoanInput)
    requires id in t.records && Convert(input).Success?
    ensures UpdateLoan(t, id, input).Success?
    ensures
      var rec := UpdateLoan(t, id, input).value.records[id];
      && rec.borrower == input.borrower && rec.amount == input.amount.value
      && rec.term == input.term.value && rec.rate == input.rate.value
      && rec.status == input.status && rec.date == t.records[id].date
      && rec.monthlyPayment == (if input.status == SETTLED then 0.0
                                else MonthlyPayment(input.amount.value, input.rate.value, input.term.value))
  {
  }

  // ---------------------------------------------------------------------------
  // The Settled rule

  /** In consistent tables every Settled loan stores a monthly payment of 0, and every other loan the formula. */
  lemma StoredPaymentRule(t: Tables, id: int)
    requires Consistent(t) && id in t.records
    ensures var rec := t.records[id];
      rec.monthlyPayment == (if rec.status == SETTLED then 0.0 else MonthlyPayment(rec.amount, rec.rate, rec.term))
  {
  }
}
