/**
 * The read-only views the handlers build: the roster rows of an event, the
 * upcoming events a student may still join (in date order), and the
 * resource allocations of an institution's events.
 */
module Listings {
  import opened Schema

  // ---------------------------------------------------------------------
  // Roster rows of getRegisteredStudentsForEvent

  /** The status shown for a registered student. */
  datatype Standing = Approved | Pending

  datatype StudentRow = StudentRow(student: Id, standing: Standing)

  /** The ids whose user document still exists, in their order; distinct ids stay distinct. */
  function Existing(ids: seq<Id>, users: set<Id>): (r: seq<Id>)
    ensures |r| <= |ids|
    ensures forall x :: x in r <==> x in ids && x in users
    ensures NoDup(ids) ==> NoDup(r)
  {
    if ids == [] then []
    else
      var rest := Existing(ids[1..], users);
      assert NoDup(ids) ==> ids[0] !in ids[1..];
      if ids[0] in users then [ids[0]] + rest else rest
  }

  /**
   * One row per registered student whose user document still exists
   * (populate drops the others), in registration order, marked Approved
   * exactly when the student is among the approved ones.
   */
  function StudentRows(registered: seq<Id>, approved: seq<Id>, users: set<Id>): (rows: seq<StudentRow>)
    ensures |rows| == |Existing(registered, users)| <= |registered|
    ensures forall k :: 0 <= k < |rows| ==> rows[k].student == Existing(registered, users)[k]
    ensures forall row :: row in rows ==> row.student in registered && row.student in users
    ensures forall row :: row in rows ==> (row.standing == Standing.Approved <==> row.student in approved)
    ensures forall s :: s in registered && s in users ==> exists row :: row in rows && row.student == s
  {
    if registered == [] then []
    else
      var rest := StudentRows(registered[1..], approved, users);
      var s := registered[0];
      if s in users then
        [StudentRow(s, if s in approved then Standing.Approved else Standing.Pending)] + rest
      else rest
  }

  /**
   * On a sound roster whose students all still exist, the rows marked
   * Approved are exactly the approved students, and there is one row per
   * registered student.
   */
  lemma ApprovedRowsAreApproved(e: Event, users: set<Id>)
    requires RosterSound(e)
    requires forall s :: s in e.registeredStudents ==> s in users
    ensures |StudentRows(e.registeredStudents, e.approvedStudents, users)| == |e.registeredStudents|
    ensures forall s :: (exists row :: row in StudentRows(e.registeredStudents, e.approvedStudents, users) &&
                                       row.student == s && row.standing == Standing.Approved)
                        <==> s in e.approvedStudents
  {
    AllKept(e.registeredStudents, e.approvedStudents, users);
    var rows := StudentRows(e.registeredStudents, e.approvedStudents, users);
    forall s | s in e.approvedStudents
      ensures exists row :: row in rows && row.student == s && row.standing == Standing.Approved
    {
      var row :| row in rows && row.student == s;
    }
  }

  /** When every registered student exists, no row is dropped. */
  lemma {:induction false} AllKept(registered: seq<Id>, approved: seq<Id>, users: set<Id>)
    requires forall s :: s in registered ==> s in users
    ensures |StudentRows(registered, approved, users)| == |registered|
  {
    if registered != [] {
      AllKept(registered[1..], approved, users);
    }
  }

  // ---------------------------------------------------------------------
  // Upcoming events of getAllEvents

  /** The query's filter: upcoming, and the student is not registered. */
  predicate Open(e: Event, student: Id) {
    e.status == EventStatus.Upcoming && student !in e.registeredStudents
  }

  /** The events of `ids` (natural order) that match the filter. */
  function OpenEvents(events: map<Id, Event>, ids: seq<Id>, student: Id): (r: seq<Id>)
    requires forall x :: x in ids ==> x in events
    ensures forall x :: x in r <==> x in ids && Open(events[x], student)
    ensures multiset(r) <= multiset(ids)
  {
    if ids == [] then []
    else
      var rest := OpenEvents(events, ids[1..], student);
      assert ids == [ids[0]] + ids[1..];
      if Open(events[ids[0]], student) then [ids[0]] + rest else rest
  }

  predicate SortedByDate(events: map<Id, Event>, ids: seq<Id>)
    requires forall x :: x in ids ==> x in events
  {
    forall i, j :: 0 <= i < j < |ids| ==> events[ids[i]].date <= events[ids[j]].date
  }

  /** Inserts `id` before the first event that is not earlier than it. */
  function InsertByDate(events: map<Id, Event>, id: Id, sorted: seq<Id>): (r: seq<Id>)
    requires id in events && forall x :: x in sorted ==> x in events
    ensures multiset(r) == multiset(sorted) + multiset{id}
    ensures forall x :: x in r <==> x in sorted || x == id
  {
    if sorted == [] then [id]
    else if events[id].date <= events[sorted[0]].date then [id] + sorted
    else
      assert sorted == [sorted[0]] + sorted[1..];
      [sorted[0]] + InsertByDate(events, id, sorted[1..])
  }

  /** Inserting into a date-ordered list keeps it date-ordered. */
  lemma {:induction false} InsertKeepsSorted(events: map<Id, Event>, id: Id, sorted: seq<Id>)
    requires id in events && forall x :: x in sorted ==> x in events
    requires SortedByDate(events, sorted)
    ensures SortedByDate(events, InsertByDate(events, id, sorted))
  {
    if sorted == [] {
    } else if events[id].date <= events[sorted[0]].date {
      forall x | x in sorted ensures events[id].date <= events[x].date {
        var k :| 0 <= k < |sorted| && sorted[k] == x;
      }
      ConsSorted(events, id, sorted);
    } else {
      var tail := sorted[1..];
      InsertKeepsSorted(events, id, tail);
      forall x | x in InsertByDate(events, id, tail) ensures events[sorted[0]].date <= events[x].date {
        if x != id {
          var k :| 0 <= k < |tail| && tail[k] == x;
          assert sorted[k + 1] == x;
        }
      }
      ConsSorted(events, sorted[0], InsertByDate(events, id, tail));
    }
  }

  /** An event no later than every event of a date-ordered list can head it. */
  lemma ConsSorted(events: map<Id, Event>, h: Id, rest: seq<Id>)
    requires h in events && forall x :: x in rest ==> x in events
    requires SortedByDate(events, rest)
    requires forall x :: x in rest ==> events[h].date <= events[x].date
    ensures SortedByDate(events, [h] + rest)
  {
    var r := [h] + rest;
    forall i, j | 0 <= i < j < |r| ensures events[r[i]].date <= events[r[j]].date {
      assert r[j] == rest[j - 1];
      if i > 0 {
        assert r[i] == rest[i - 1];
      }
    }
  }

  /** `.sort({ date: 1 })`. */
  function SortByDate(events: map<Id, Event>, ids: seq<Id>): (r: seq<Id>)
    requires forall x :: x in ids ==> x in events
    ensures multiset(r) == multiset(ids)
    ensures forall x :: x in r ==> x in events
  {
    if ids == [] then []
    else
      assert ids == [ids[0]] + ids[1..];
      InsertByDate(events, ids[0], SortByDate(events, ids[1..]))
  }

  lemma {:induction false} SortByDateSorted(events: map<Id, Event>, ids: seq<Id>)
    requires forall x :: x in ids ==> x in events
    ensures SortedByDate(events, SortByDate(events, ids))
  {
    if ids != [] {
      SortByDateSorted(events, ids[1..]);
      InsertKeepsSorted(events, ids[0], SortByDate(events, ids[1..]));
    }
  }

  /** The answer of getAllEvents, over the events in natural order `ids`. */
  function Upcoming(events: map<Id, Event>, ids: seq<Id>, student: Id): seq<Id>
    requires forall x :: x in ids ==> x in events
  {
    SortByDate(events, OpenEvents(events, ids, student))
  }

  /**
   * The listed events are exactly the open ones, each once, earliest first.
   */
  lemma UpcomingSpec(events: map<Id, Event>, ids: seq<Id>, student: Id)
    requires forall x :: x in ids ==> x in events
    requires NoDup(ids)
    ensures var r := Upcoming(events, ids, student);
            && (forall x :: x in r <==> x in ids && Open(events[x], student))
            && SortedByDate(events, r)
            && NoDup(r)
  {
    var open := OpenEvents(events, ids, student);
    var r := Upcoming(events, ids, student);
    SortByDateSorted(events, open);
    assert forall x :: x in r <==> x in multiset(r);
    assert forall x :: x in open <==> x in multiset(open);
    forall x ensures multiset(r)[x] <= 1 {
      MultiplicityOfDistinct(ids, x);
    }
    forall i, j | 0 <= i < j < |r| ensures r[i] != r[j] {
      if r[i] == r[j] {
        TwiceCounted(r, i, j);
      }
    }
  }

  /** In a sequence without repetition, each element occurs once. */
  lemma {:induction false} MultiplicityOfDistinct(ids: seq<Id>, x: Id)
    requires NoDup(ids)
    ensures multiset(ids)[x] <= 1
  {
    if ids != [] {
      MultiplicityOfDistinct(ids[1..], x);
      assert ids == [ids[0]] + ids[1..];
      if ids[0] == x {
        assert x !in ids[1..];
      }
    }
  }

  /** An element at two positions is counted at least twice. */
  lemma TwiceCounted(a: seq<Id>, i: nat, j: nat)
    requires i < j < |a| && a[i] == a[j]
    ensures multiset(a)[a[i]] >= 2
  {
    assert a == a[..i] + [a[i]] + a[i + 1..j] + [a[j]] + a[j + 1..];
  }

  // ---------------------------------------------------------------------
  // Allocation rows of getAllocatedResources

  /** `Event.find({ createdBy })`: the events of `ids` created by `creator`, in the order of `ids`. */
  function CreatedBy(events: map<Id, Event>, ids: seq<Id>, creator: Id): (r: seq<Id>)
    requires forall x :: x in ids ==> x in events
    ensures forall x :: x in r <==> x in ids && events[x].createdBy == creator
  {
    if ids == [] then []
    else
      var rest := CreatedBy(events, ids[1..], creator);
      assert forall x :: x in ids <==> x == ids[0] || x in ids[1..];
      if events[ids[0]].createdBy == creator then [ids[0]] + rest else rest
  }

  datatype AllocatedRow = AllocatedRow(resourceId: Id, name: string, kind: string, quantityAllocated: int, eventTitle: string)

  /** The row a line of an event titled `title` contributes, once its resource is populated. */
  function RowOf(title: string, line: ResourceLine, resources: map<Id, Resource>): AllocatedRow
    requires line.resource in resources
  {
    var r := resources[line.resource];
    AllocatedRow(line.resource, r.name, r.kind, line.quantity, title)
  }

  /** The inner loop: rows of one event, skipping lines whose resource no longer exists. */
  function LineRows(title: string, lines: seq<ResourceLine>, resources: map<Id, Resource>): seq<AllocatedRow> {
    if lines == [] then []
    else
      var last := lines[|lines| - 1];
      LineRows(title, lines[..|lines| - 1], resources) +
        (if last.resource in resources then [RowOf(title, last, resources)] else [])
  }

  /** The outer loop over the institution's events, in natural order. */
  function EventRows(events: map<Id, Event>, ids: seq<Id>, resources: map<Id, Resource>): seq<AllocatedRow>
    requires forall x :: x in ids ==> x in events
  {
    if ids == [] then []
    else
      var last := ids[|ids| - 1];
      EventRows(events, ids[..|ids| - 1], resources) +
        LineRows(events[last].title, events[last].assignedResources, resources)
  }

  /** The rows of one event are exactly its lines whose resource exists. */
  lemma {:induction false} LineRowsIff(title: string, lines: seq<ResourceLine>, resources: map<Id, Resource>, row: AllocatedRow)
    ensures row in LineRows(title, lines, resources) <==>
            exists l :: l in lines && l.resource in resources && row == RowOf(title, l, resources)
  {
    if lines != [] {
      var init := lines[..|lines| - 1];
      LineRowsIff(title, init, resources, row);
      assert lines == init + [lines[|lines| - 1]];
    }
  }

  /**
   * A row is reported exactly when it comes from a line, with an existing
   * resource, of one of the listed events.
   */
  lemma {:induction false} EventRowsIff(events: map<Id, Event>, ids: seq<Id>, resources: map<Id, Resource>, row: AllocatedRow)
    requires forall x :: x in ids ==> x in events
    ensures row in EventRows(events, ids, resources) <==>
            exists x, l :: x in ids && l in events[x].assignedResources && l.resource in resources &&
                           row == RowOf(events[x].title, l, resources)
  {
    if ids != [] {
      var init := ids[..|ids| - 1];
      var last := ids[|ids| - 1];
      EventRowsIff(events, init, resources, row);
      LineRowsIff(events[last].title, events[last].assignedResources, resources, row);
      assert ids == init + [last];
      assert forall x :: x in ids <==> x in init || x == last;
    }
  }

  /** One row per line with an existing resource: the report counts them all. */
  lemma {:induction false} EventRowsCount(events: map<Id, Event>, ids: seq<Id>, resources: map<Id, Resource>)
    requires forall x :: x in ids ==> x in events
    requires forall x, l :: x in ids && l in events[x].assignedResources ==> l.resource in resources
    ensures |EventRows(events, ids, resources)| == LineCount(events, ids)
  {
    if ids != [] {
      var last := ids[|ids| - 1];
      EventRowsCount(events, ids[..|ids| - 1], resources);
      LineRowsCount(events[last].title, events[last].assignedResources, resources);
    }
  }

  /** The number of resource lines of the events `ids`. */
  function LineCount(events: map<Id, Event>, ids: seq<Id>): nat
    requires forall x :: x in ids ==> x in events
  {
    if ids == [] then 0
    else LineCount(events, ids[..|ids| - 1]) + |events[ids[|ids| - 1]].assignedResources|
  }

  lemma {:induction false} LineRowsCount(title: string, lines: seq<ResourceLine>, resources: map<Id, Resource>)
    requires forall l :: l in lines ==> l.resource in resources
    ensures |LineRows(title, lines, resources)| == |lines|
  {
    if lines != [] {
      LineRowsCount(title, lines[..|lines| - 1], resources);
      assert lines[|lines| - 1] in lines;
    }
  }
}
