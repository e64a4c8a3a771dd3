/**
  The loan-record store behind the form's buttons, as an object whose fields are
  the two tables: the Add, Delete, Edit and View handlers become methods.
  Each mutating method stages its changes in locals and assigns the fields only
  where the handler commits, so a rejected operation changes nothing.
 */
module LoanSystem {
  import opened Wrappers
  import opened Payment
  import opened Loans
  import opened Display

  /** A non-empty set has a member. */
  lemma Inhabited(s: set<int>)
    requires s != {}
    ensures exists x :: x in s
  {
    if !(exists x :: x in s) {
      assert false;
    }
  }

  /** The least element of a non-empty set of ids. */
  ghost function Least(s: set<int>): (m: int)
    requires s != {}
    ensures m in s && forall k :: k in s ==> m <= k
  {
    Inhabited(s);
    var x :| x in s;
    if s == {x} then x
    else
      var m := Least(s - {x});
      assert forall k :: k in s ==> k == x || k in s - {x};
      if x < m then x else m
  }

  class LoanBook {
    /** `loan_records`, keyed by id. */
    var records: map<int, LoanRecord>
    /** `deleted_ids`. */
    var recycled: set<int>
    /** The AUTOINCREMENT counter: the largest id ever inserted. */
    var highWater: int
    /** Every id ever inserted into `loan_records`. */
    ghost var everUsed: set<int>

    function State(): Tables
      reads this
    {
      Tables(records, recycled, highWater)
    }

    ghost predicate Valid()
      reads this
    {
      && Consistent(State())
      && records.Keys <= everUsed
      && (forall u :: u in everUsed ==> u <= highWater)
    }

    /** `create_tables` on a new database file. */
    constructor ()
      ensures Valid()
      ensures State() == Empty() && everUsed == {}
    {
      records := map[];
      recycled := {};
      highWater := 0;
      everUsed := {};
    }

    /**
      `add_record`. `row` is what the recycled-id query returned. On success the
      outcome carries the new id; an AUTOINCREMENT id is above every id ever used.
     */
    method Add(input: LoanInput, today: string) returns (outcome: Result<int, Reason>, ghost row: Option<int>)
      requires Valid()
      modifies this
      ensures Valid()
      ensures Fetched(old(State()), row)
      ensures match AddLoan(old(State()), input, today, row)
        case Failure(e) => outcome == Failure(e) && State() == old(State()) && everUsed == old(everUsed)
        case Success(added) => outcome == Success(added.0) && State() == added.1 && everUsed == old(everUsed) + {added.0}
      ensures outcome.Success? && old(recycled) == {} ==>
        outcome.value !in old(everUsed) && forall u :: u in old(everUsed) ==> u < outcome.value
    {
      if HasEmptyEntry(input) {
        if recycled != {} {
          Inhabited(recycled);
          ghost var k :| k in recycled;
          row := Some(k);
        } else {
          row := None;
        }
        return Failure(EmptyField), row;
      }
      // SELECT id FROM deleted_ids LIMIT 1, then DELETE that id from deleted_ids
      var id: int;
      var newRecycled := recycled;
      if recycled != {} {
        Inhabited(recycled);
        var k :| k in recycled;
        row := Some(k);
        id := k;
        newRecycled := recycled - {k};
      } else {
        row := None;
        id := highWater + 1;
      }
      var terms := Convert(input);
      if terms.Failure? {
        return Failure(terms.error), row;
      }
      if !Int64(id) {
        return Failure(IdsExhausted), row;
      }
      var t := terms.value;
      var payment := StoredPayment(t);
      // INSERT INTO loan_records, then commit
      records := records[id := LoanRecord(t.borrower, t.amount, t.term, t.rate, t.status, today, payment)];
      recycled := newRecycled;
      if id > highWater {
        highWater := id;
      }
      everUsed := everUsed + {id};
      outcome := Success(id);
      AddKeepsConsistent(old(State()), input, today, row);
    }

    /** `delete_record` on the text of the id entry. */
    method Delete(entry: Field<int>) returns (outcome: Outcome<Reason>)
      requires Valid()
      modifies this
      ensures Valid() && everUsed == old(everUsed)
      ensures match DeleteLoan(old(State()), entry)
        case Failure(e) => outcome == Fail(e) && State() == old(State())
        case Success(t) => outcome == Pass && State() == t
    {
      if !entry.Parsed? {
        return Fail(NotANumber);
      }
      var id := entry.value;
      if !Int64(id) {
        return Fail(OutOfRange);
      }
      // DELETE FROM loan_records; INSERT INTO deleted_ids fails on a duplicate key
      var newRecords := records - {id};
      if id in recycled {
        return Fail(AlreadyRecycled);
      }
      records := newRecords;
      recycled := recycled + {id};
      outcome := Pass;
      DeleteKeepsConsistent(old(State()), entry);
    }

    /**
      `edit_record`'s lookup: the row the editor window is filled from, or
      nothing when the id text is not an integer or no row has it.
     */
    method OpenEditor(entry: Field<int>) returns (found: Option<LoanRecord>)
      ensures found.Some? <==> entry.Parsed? && Int64(entry.value) && entry.value in records
      ensures found.Some? ==> found.value == records[entry.value]
    {
      if !entry.Parsed? || !Int64(entry.value) {
        return None;
      }
      if entry.value in records {
        found := Some(records[entry.value]);
      } else {
        found := None;
      }
    }

    /** `save_update` for the editor opened on `id`. */
    method SaveUpdate(id: int, input: LoanInput) returns (outcome: Outcome<Reason>)
      requires Valid()
      modifies this
      ensures Valid() && everUsed == old(everUsed)
      ensures match UpdateLoan(old(State()), id, input)
        case Failure(e) => outcome == Fail(e) && State() == old(State())
        case Success(t) => outcome == Pass && State() == t
    {
      var terms := Convert(input);
      if terms.Failure? {
        return Fail(terms.error);
      }
      var t := terms.value;
      var payment := StoredPayment(t);
      // UPDATE loan_records ... WHERE id = ?
      if id !in records {
        return Fail(NoSuchRecord);
      }
      var rec := records[id];
      records := records[id := rec.(borrower := t.borrower, amount := t.amount, term := t.term,
                                    rate := t.rate, status := t.status, monthlyPayment := payment)];
      outcome := Pass;
      UpdateKeepsConsistent(old(State()), id, input);
    }

    /** `SELECT * FROM loan_records`: every row once, in ascending id order. */
    method Fetch() returns (rows: seq<(int, LoanRecord)>)
      ensures forall i, j :: 0 <= i < j < |rows| ==> rows[i].0 < rows[j].0
      ensures forall i :: 0 <= i < |rows| ==> rows[i].0 in records && rows[i].1 == records[rows[i].0]
      ensures forall id :: id in records ==> exists i :: 0 <= i < |rows| && rows[i].0 == id
    {
      var pending := records.Keys;
      rows := [];
      while pending != {}
        invariant pending <= records.Keys
        invariant forall i, j :: 0 <= i < j < |rows| ==> rows[i].0 < rows[j].0
        invariant forall i :: 0 <= i < |rows| ==> rows[i].0 in records && rows[i].1 == records[rows[i].0]
        invariant forall i, k :: 0 <= i < |rows| && k in pending ==> rows[i].0 < k
        invariant forall id :: id in records && id !in pending ==> exists i :: 0 <= i < |rows| && rows[i].0 == id
        decreases pending
      {
        ghost var least := Least(pending);
        var id :| id in pending && forall k :: k in pending ==> id <= k;
        ghost var before := rows;
        rows := rows + [(id, records[id])];
        pending := pending - {id};
        forall r | r in records && r !in pending
          ensures exists i :: 0 <= i < |rows| && rows[i].0 == r
        {
          if r == id {
            assert rows[|before|].0 == r;
          } else {
            var i :| 0 <= i < |before| && before[i].0 == r;
            assert rows[i].0 == r;
          }
        }
      }
    }

    /** `view_records`: the displayed line of every row, in ascending id order. Storage is untouched. */
    method View() returns (shown: seq<DisplayRow>)
      ensures forall i, j :: 0 <= i < j < |shown| ==> shown[i].id < shown[j].id
      ensures forall i :: 0 <= i < |shown| ==> shown[i].id in records && shown[i] == Show(shown[i].id, records[shown[i].id])
      ensures forall id :: id in records ==> exists i :: 0 <= i < |shown| && shown[i].id == id
    {
      var rows := Fetch();
      shown := [];
      for i := 0 to |rows|
        invariant |shown| == i
        invariant forall j :: 0 <= j < i ==> shown[j] == Show(rows[j].0, rows[j].1)
      {
        shown := shown + [Show(rows[i].0, rows[i].1)];
      }
      forall id | id in records
        ensures exists i :: 0 <= i < |shown| && shown[i].id == id
      {
        var i :| 0 <= i < |rows| && rows[i].0 == id;
        assert shown[i].id == id;
      }
    }
  }
}
