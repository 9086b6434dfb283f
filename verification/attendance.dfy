/**
 * The attendance batch of `markAttendance`: the Map the batch is loaded
 * into (a later entry for the same student overwrites an earlier one), the
 * students whose attendance is already marked, and the entries the
 * `forEach` over approved students appends.
 */
module Attendance {
  import opened Schema

  /** One entry of the `attendances` body; `present` is already coerced with `!!`. */
  datatype AttendanceInput = AttendanceInput(studentId: Id, present: bool)

  /** The keys of the batch's Map. */
  function BatchIds(batch: seq<AttendanceInput>): set<Id> {
    set a | a in batch :: a.studentId
  }

  /** `attendanceMap.get(s)`: the value of the last entry for `s`, if any. */
  function BatchLookup(batch: seq<AttendanceInput>, s: Id): Option<bool> {
    if batch == [] then None
    else if batch[|batch| - 1].studentId == s then Some(batch[|batch| - 1].present)
    else BatchLookup(batch[..|batch| - 1], s)
  }

  /** The Map holds exactly the batch's students, each with the value of its last entry. */
  lemma {:induction false} BatchLookupLastWins(batch: seq<AttendanceInput>, s: Id)
    ensures BatchLookup(batch, s).Some? <==> s in BatchIds(batch)
    ensures forall k :: 0 <= k < |batch| && batch[k].studentId == s &&
                        (forall j :: k < j < |batch| ==> batch[j].studentId != s) ==>
                        BatchLookup(batch, s) == Some(batch[k].present)
  {
    if batch != [] {
      var init := batch[..|batch| - 1];
      BatchLookupLastWins(init, s);
      assert batch == init + [batch[|batch| - 1]];
      assert BatchIds(batch) == BatchIds(init) + {batch[|batch| - 1].studentId};
      forall k | 0 <= k < |batch| && batch[k].studentId == s && (forall j :: k < j < |batch| ==> batch[j].studentId != s)
        ensures BatchLookup(batch, s) == Some(batch[k].present)
      {
        if k < |batch| - 1 {
          assert init[k] == batch[k];
          assert forall j :: k < j < |init| ==> init[j] == batch[j];
        }
      }
    }
  }

  /** The students of the event's records that are marked and named by the batch, in record order. */
  function MarkedInBatch(records: seq<AttendanceRecord>, batch: seq<AttendanceInput>): seq<Id> {
    if records == [] then []
    else (if records[0].marked && BatchLookup(batch, records[0].student).Some? then [records[0].student] else [])
         + MarkedInBatch(records[1..], batch)
  }

  /** A student is reported as already marked exactly when a marked record of theirs is named by the batch. */
  lemma {:induction false} MarkedInBatchIff(records: seq<AttendanceRecord>, batch: seq<AttendanceInput>, s: Id)
    ensures s in MarkedInBatch(records, batch) <==>
            BatchLookup(batch, s).Some? && exists r :: r in records && r.marked && r.student == s
  {
    if records != [] {
      MarkedInBatchIff(records[1..], batch, s);
      assert forall r :: r in records <==> r == records[0] || r in records[1..];
    }
  }

  /** The entries the `forEach` over `approved` pushes: one per approved student the batch names. */
  function NewEntries(approved: seq<Id>, batch: seq<AttendanceInput>): seq<AttendanceRecord> {
    if approved == [] then []
    else
      var s := approved[|approved| - 1];
      NewEntries(approved[..|approved| - 1], batch) +
        match BatchLookup(batch, s)
        case Some(present) => [AttendanceRecord(s, present, true)]
        case None => []
  }

  /** Each appended entry is marked and carries the batch's last value for an approved student. */
  lemma {:induction false} NewEntriesSound(approved: seq<Id>, batch: seq<AttendanceInput>)
    ensures forall r :: r in NewEntries(approved, batch) ==>
              r.marked && r.student in approved && BatchLookup(batch, r.student) == Some(r.present)
  {
    if approved != [] {
      var init := approved[..|approved| - 1];
      NewEntriesSound(init, batch);
      assert approved == init + [approved[|approved| - 1]];
    }
  }

  /** Every approved student the batch names gets an entry. */
  lemma {:induction false} NewEntriesComplete(approved: seq<Id>, batch: seq<AttendanceInput>, s: Id)
    requires s in approved && BatchLookup(batch, s).Some?
    ensures exists r :: r in NewEntries(approved, batch) && r.student == s
  {
    var init := approved[..|approved| - 1];
    var last := approved[|approved| - 1];
    assert approved == init + [last];
    if s == last {
      assert AttendanceRecord(s, BatchLookup(batch, s).value, true) in NewEntries(approved, batch);
    } else {
      NewEntriesComplete(init, batch, s);
      var r :| r in NewEntries(init, batch) && r.student == s;
      assert r in NewEntries(approved, batch);
    }
  }

  /** Entries `es` name their students in the order they have in `order`. */
  predicate FollowsOrder(es: seq<AttendanceRecord>, order: seq<Id>) {
    forall i, j :: 0 <= i < j < |es| ==>
      exists a, b :: 0 <= a < b < |order| && order[a] == es[i].student && order[b] == es[j].student
  }

  /** The entries follow the order of `approved`. */
  lemma {:induction false} NewEntriesOrdered(approved: seq<Id>, batch: seq<AttendanceInput>)
    ensures FollowsOrder(NewEntries(approved, batch), approved)
  {
    if approved != [] {
      var init := approved[..|approved| - 1];
      NewEntriesOrdered(init, batch);
      NewEntriesSound(init, batch);
      var before := NewEntries(init, batch);
      var es := NewEntries(approved, batch);
      assert forall a :: 0 <= a < |init| ==> approved[a] == init[a];
      forall i, j | 0 <= i < j < |es|
        ensures exists a, b :: 0 <= a < b < |approved| && approved[a] == es[i].student && approved[b] == es[j].student
      {
        assert es[i] == before[i];
        if j < |before| {
          assert es[j] == before[j];
          assert FollowsOrder(before, init);
          var a, b :| 0 <= a < b < |init| && init[a] == before[i].student && init[b] == before[j].student;
          assert approved[a] == es[i].student && approved[b] == es[j].student;
        } else {
          assert before[i] in before;
          var a :| 0 <= a < |init| && init[a] == before[i].student;
          assert approved[a] == es[i].student && approved[|approved| - 1] == es[j].student;
        }
      }
    }
  }

  /** No student gets two entries when `approved` has no repetition. */
  lemma NewEntriesDistinct(approved: seq<Id>, batch: seq<AttendanceInput>)
    requires NoDup(approved)
    ensures forall i, j :: 0 <= i < j < |NewEntries(approved, batch)| ==>
              NewEntries(approved, batch)[i].student != NewEntries(approved, batch)[j].student
  {
    var es := NewEntries(approved, batch);
    NewEntriesOrdered(approved, batch);
    assert FollowsOrder(es, approved);
    forall i, j | 0 <= i < j < |es| ensures es[i].student != es[j].student {
      var a, b :| 0 <= a < b < |approved| && approved[a] == es[i].student && approved[b] == es[j].student;
    }
  }

  /**
   * When no student of the batch is already marked, appending the new
   * entries keeps every roster invariant: attendance stays one marked entry
   * per approved student at most.
   */
  lemma MarkKeepsRoster(e: Event, batch: seq<AttendanceInput>)
    requires RosterSound(e)
    requires MarkedInBatch(e.attendance, batch) == []
    ensures RosterSound(e.(attendance := e.attendance + NewEntries(e.approvedStudents, batch)))
  {
    var es := NewEntries(e.approvedStudents, batch);
    NewEntriesSound(e.approvedStudents, batch);
    NewEntriesDistinct(e.approvedStudents, batch);
    forall o, r | o in e.attendance && r in es ensures o.student != r.student {
      MarkedInBatchIff(e.attendance, batch, r.student);
    }
    DisjointAppend(e.attendance, es);
  }

  /** Two record lists with distinct students and no student in common concatenate to one with distinct students. */
  lemma DisjointAppend(xs: seq<AttendanceRecord>, ys: seq<AttendanceRecord>)
    requires forall i, j :: 0 <= i < j < |xs| ==> xs[i].student != xs[j].student
    requires forall i, j :: 0 <= i < j < |ys| ==> ys[i].student != ys[j].student
    requires forall x, y :: x in xs && y in ys ==> x.student != y.student
    ensures var all := xs + ys; forall i, j :: 0 <= i < j < |all| ==> all[i].student != all[j].student
  {
    var all := xs + ys;
    forall i, j | 0 <= i < j < |all| ensures all[i].student != all[j].student {
      if j < |xs| {
        assert all[i] == xs[i] && all[j] == xs[j];
      } else if i < |xs| {
        assert all[i] == xs[i] && all[j] == ys[j - |xs|];
        assert xs[i] in xs && ys[j - |xs|] in ys;
      } else {
        assert all[i] == ys[i - |xs|] && all[j] == ys[j - |xs|];
      }
    }
  }

  /** A batch naming a student whose attendance is already marked is reported, so it is refused. */
  lemma RemarkingIsReported(e: Event, batch: seq<AttendanceInput>, r: AttendanceRecord)
    requires r in e.attendance && r.marked && r.student in BatchIds(batch)
    ensures r.student in MarkedInBatch(e.attendance, batch)
  {
    BatchLookupLastWins(batch, r.student);
    MarkedInBatchIff(e.attendance, batch, r.student);
  }
}
