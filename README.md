# Pesos Loaning System: the loan-record store

This project models the record store behind the single-window loan form in
`jehu.pyyyy.py`, with the Tkinter window taken away. The state is the form's two
SQLite tables:

- `loan_records`: a map from integer id to a record holding borrower name,
  amount, term, rate, status, creation date and monthly payment;
- `deleted_ids`: the set of recycled ids;
- the AUTOINCREMENT counter, the largest id ever inserted.

The form's buttons become operations on that state:

- **Add** (`add_record`): checks that no entry is empty, then takes a recycled id
  if there is one and otherwise the next AUTOINCREMENT id. It applies the
  Settled rule and inserts the record.
- **Delete** (`delete_record`): removes the record and recycles its id.
- **Edit** (`edit_record` and `save_update`): looks the row up, then overwrites
  every column except the id and the creation date.
- **View** (`view_records`): lists every row and zeroes the payment figures of
  Settled loans.

Nothing is written until the handler's `conn.commit()`. So every operation is
one all-or-nothing transition, and every rejected operation leaves both tables
as they were.

Files:

- `payment.dfy` (module `Payment`): the monthly-payment formula and the
  total-paid figure. Python's `round(x, 2)` is written out as round-half-to-even
  on hundredths of an exact real.
- `loans.dfy` (module `Loans`): the tables as a value and the consistency
  invariant. It also holds the add, delete and update transitions as functions
  and the lemmas about them.
- `display.dfy` (module `Display`): the line `view_records` shows for one row,
  with lemmas about the figures it shows.
- `loan_book.dfy` (module `LoanSystem`): class `LoanBook`. Its fields are the
  tables, and its methods are the button handlers. Each mutating method keeps
  `Valid()` and is proved equal to the matching transition in `Loans`. `Fetch`
  and `View` are loops over the rows.
- `wrappers.dfy`: Option, Result and Outcome.

The invariant (`Loans.Consistent`, kept by every method of `LoanBook`) says:

- the ids in use and the recycled ids are disjoint;
- every id fits SQLite's 64-bit INTEGER; every id in use is at most the
  AUTOINCREMENT counter (a recycled id need not be);
- every stored monthly payment is the one derived from the row's own columns.
  That is 0 for a Settled loan and the formula otherwise.

Inputs the handlers read from widgets are parameters. Each numeric entry is given
as the outcome of the UI's `float`/`int` conversion: empty text, text the
conversion rejects, or a value. The current date is a parameter too.

Behaviour of the code that the model keeps as written:

- The recycled id is any member of `deleted_ids`, not the smallest. The query
  has `LIMIT 1` and no `ORDER BY`.
- The status is any text. The combobox is editable, and only the exact text
  "Settled" triggers the zero rule.
- Nothing checks that the amount, the term or the rate is positive. A term of 0
  or less gives a monthly payment of 0.
- The editor's save does not reject empty text. An empty name or status is
  stored as it is, and an empty number fails its conversion.
- Deleting an id that no record has still adds it to `deleted_ids`. A later add
  may then hand out that id even though it was never issued; when no other id is
  recycled, it is the id the next add hands out. The model keeps this behaviour
  (`Loans.DeleteUnknownIdRecycles`).

## Model

| member | source | states |
|---|---|---|
| `Payment.RoundHalfEven` | jehu.pyyyy.py:50 | the result is within 0.5 of the input, an exact tie goes to the even integer, and an integer input is returned unchanged |
| `Payment.Round2` | jehu.pyyyy.py:50 | `round(x, 2)` gives a whole number of cents within half a cent of `x`, and leaves a whole number of cents unchanged |
| `Payment.MonthlyPayment` | jehu.pyyyy.py:43-50 | a term that is not positive gives 0; otherwise the result is a whole number of cents within half a cent of (amount·rate/100 + amount)/term |
| `Payment.TotalPaid` | jehu.pyyyy.py:119 | the total paid is a whole number of cents within half a cent of monthly payment × term |
| `Payment.TotalPaidIsRepayment` | jehu.pyyyy.py:43-50 | paying the computed monthly payment for the whole term totals the principal plus its simple interest, within (term+1)/200 |
| `Payment.TwelveMonthExample` | jehu.pyyyy.py:43-50 | 10000 at 5% over 12 months gives 875.00 a month and 10500.00 in all |
| `Loans.Empty` | jehu.pyyyy.py:17-37 | freshly created tables hold no records and no recycled ids, and satisfy the invariant |
| `Loans.Convert` | jehu.pyyyy.py:81-82 | the conversions succeed exactly when amount, term and rate all convert and the term fits SQLite's 64-bit INTEGER, and then they carry the entries unchanged |
| `Loans.CheckAdd` | jehu.pyyyy.py:54-55 | the add form is rejected as empty exactly when the borrower name, amount, term, rate or status is empty |
| `Loans.StoredPayment` | jehu.pyyyy.py:73-78 | the stored monthly payment is 0 for a Settled loan or a term that is not positive; otherwise it is a whole number of cents within half a cent of (amount·rate/100 + amount)/term |
| `Loans.AddLoan` | jehu.pyyyy.py:53-85 | an add with an empty or unconvertible entry fails with that reason; a successful one inserts exactly the new record under the fetched recycled id or the next AUTOINCREMENT id, leaves every other record as it was, drops the id from the recycled set and sets the counter to the larger of its old value and that id |
| `Loans.DeleteLoan` | jehu.pyyyy.py:126-142 | a delete succeeds exactly when the id text is an integer that fits in 64 bits and is not already recycled; it then removes only that id's record, leaves every other record and the counter as they were, and recycles the id |
| `Loans.UpdateLoan` | jehu.pyyyy.py:195-213 | an update succeeds exactly when the numbers convert and the row exists; it then rewrites only that row (every column except the date) and leaves the other rows, the recycled set and the counter as they were |
| `Loans.NewRecord` | jehu.pyyyy.py:72-82 | an inserted row holds the entries and today's date, and its payment is derived by the Settled rule |
| `Loans.Revised` | jehu.pyyyy.py:196-208 | an updated row holds the new entries with the payment derived by the Settled rule, and keeps its creation date |
| `Loans.AddRejectsEmptyEntry` | jehu.pyyyy.py:53-55 | an add with any empty entry is rejected, so neither table changes |
| `Loans.AddKeepsConsistent` | jehu.pyyyy.py:60-82 | a successful add keeps the invariant, never reuses an id in use, adds exactly one record with the entered columns and leaves every other record as it was |
| `Loans.AddAllocation` | jehu.pyyyy.py:60-70 | with recycled ids present, the new id is one of them and leaves the set; with none, it is the next AUTOINCREMENT id, above every id in use |
| `Loans.AddSucceeds` | jehu.pyyyy.py:53-85 | an add fails exactly when an entry is empty or does not convert, or when no recycled id exists and AUTOINCREMENT has issued the largest rowid |
| `Loans.DeleteKeepsConsistent` | jehu.pyyyy.py:126-142 | a successful delete keeps the invariant, removes the id from the records, keeps every other record and the AUTOINCREMENT counter, and adds the id to the recycled set |
| `Loans.DeleteUnknownIdRecycles` | jehu.pyyyy.py:135-139 | deleting an id no record has leaves the records unchanged and still recycles the id |
| `Loans.DeleteTwiceRefused` | jehu.pyyyy.py:136-139 | deleting an already-recycled id violates the primary key of `deleted_ids` and is rejected |
| `Loans.DeleteThenAddReusesId` | jehu.pyyyy.py:60-67 | with no recycled ids, deleting record k and then adding a record stores the new record under k |
| `Loans.DeleteUndoesAdd` | jehu.pyyyy.py:135-139 | deleting the record that an add just created restores the original records; a recycled id goes back to the recycled set, leaving both tables as before, and a fresh id becomes the only recycled id |
| `Loans.UpdateKeepsConsistent` | jehu.pyyyy.py:204-208 | a successful update keeps the invariant, the set of ids, the recycled set, the AUTOINCREMENT counter and every other record |
| `Loans.UpdateMissingChangesNothing` | jehu.pyyyy.py:204-206 | an update of an id with no record is rejected, so nothing changes |
| `Loans.UpdateOverwrites` | jehu.pyyyy.py:196-208 | an update of an existing record overwrites name, amount, term, rate, status and monthly payment (0 if Settled, else the formula) and keeps the date |
| `Loans.StoredPaymentRule` | jehu.pyyyy.py:72-78 | in consistent tables a Settled record stores a monthly payment of 0 and any other record stores the formula result |
| `Display.Show` | jehu.pyyyy.py:107-121 | a displayed line copies id, name, amount, term, rate and status; it shows 0 for both figures when Settled; otherwise it shows the stored monthly payment and a total paid in whole cents within half a cent of that payment times the term |
| `Display.ShownPaymentIsStored` | jehu.pyyyy.py:112-117 | for a record with a derived payment, the monthly payment shown equals the stored one, which is the Settled rule applied to its columns |
| `Display.ShownTotalIsRepayment` | jehu.pyyyy.py:114-119 | for a record that is not Settled, the total shown is the principal plus simple interest within (term+1)/200, or 0 when the term is not positive |
| `Display.ExampleLoanShown` | jehu.pyyyy.py:95-121 | the 10000 / 5% / 12-month Approved loan shows 875.00 and 10500.00; edited to Settled, it shows 0 and 0 and keeps amount, term and rate |
| `LoanSystem.LoanBook.constructor` | jehu.pyyyy.py:17-37 | the store starts with empty tables and satisfies its invariant |
| `LoanSystem.LoanBook.Add` | jehu.pyyyy.py:53-85 | `add_record` performs the add transition for the row the recycled-id query returned, keeps the invariant, changes nothing when rejected, and issues an AUTOINCREMENT id above every id ever used |
| `LoanSystem.LoanBook.Delete` | jehu.pyyyy.py:126-142 | `delete_record` performs the delete transition: an unparsable, out-of-range or already-recycled id changes nothing; otherwise the record goes and the id is recycled |
| `LoanSystem.LoanBook.OpenEditor` | jehu.pyyyy.py:148-166 | the editor opens with the stored record exactly when the id text converts, fits in 64 bits and names a record |
| `LoanSystem.LoanBook.SaveUpdate` | jehu.pyyyy.py:195-213 | `save_update` performs the update transition, keeps the invariant, and changes nothing when a number does not convert or the row is gone |
| `LoanSystem.LoanBook.Fetch` | jehu.pyyyy.py:99-100 | `SELECT * FROM loan_records` yields each record exactly once with its stored columns, in ascending id order |
| `LoanSystem.LoanBook.View` | jehu.pyyyy.py:95-123 | `view_records` shows one line per record in ascending id order, each the Settled-zeroing projection of the stored row, and does not modify the store |

## Left out

- Tkinter widgets, layout, Treeview insertion and clearing, clearing of the entries, and the editor `Toplevel`. The UI is not part of the model: inputs are parameters and display lines are returned values.
- The `view_records()` refresh that follows a delete or a save. It reads only and is the `View` method.
- Opening, committing and closing SQLite connections. Each handler is one atomic transition, and a rejected one leaves the tables unchanged. The model does not follow the connection that a failed handler leaves uncommitted and unclosed. When `delete_record` fails at its INSERT (jehu.pyyyy.py:139) after its DELETE ran, or `add_record` fails on a conversion or a binding after `DELETE FROM deleted_ids` (jehu.pyyyy.py:67) ran, that connection still holds an open write transaction. Tkinter keeps the traceback, and with it the connection, alive, so the next write from a new connection is likely refused with "database is locked" after the busy timeout. The model lets that next operation go ahead.
- The text-to-number conversion itself (`float`, `int`). Its outcome is an input, so whitespace handling and `inf`/`nan` are not modelled.
- Floating-point arithmetic. Amounts are exact reals, and rounding to cents decides ties on the exact decimal value, not on the binary float.
- The currency and percent formatting of the displayed figures (`₱1,234.00`, `5.0%`).
- `datetime.now()`: the date is a parameter.
- The row `SELECT id FROM deleted_ids LIMIT 1` returns: any member of the recycled set.
- The scan order of `SELECT * FROM loan_records`: taken as ascending id, which is the order of a full scan of a rowid table.
- `total_amount_paid` as computed in `add_record` and `save_update`. It is never stored or used; only the view's figure is modelled.
- Databases that already hold rows not written by these handlers. The store starts from the empty tables `create_tables` makes in a new file.
- `Jehu Gonzaga.py`, a separate list-box demo, is not part of this model.
