/**
 * The handlers of server/Controllers/EducatorController.js: educator
 * assignment and the educator's reply, completion with feedback, requests
 * for more resources, attendance, approval of registered students, and the
 * roster view.
 *
 * Several handlers compare `assignedEducator.educator.toString()` with the
 * caller; when no educator is assigned that dereference throws, which is
 * modelled as `Crash`.
 */
module EducatorController {
  import opened Schema
  import opened Store
  import opened Attendance
  import opened FeedbackRecording
  import opened Listings

  /**
   * `assignEducatorToEvent`: an institution sends the request to a user
   * whose role is educator. Whatever the previous assignment was, it is
   * replaced by a pending request made now; the save fails once the
   * event's date has passed.
   */
  method AssignEducatorToEvent(db: Db, caller: Caller, eventId: Id, educatorId: Id, now: int) returns (r: Result<Event>)
    requires db.Valid()
    modifies db
    ensures db.Valid()
    ensures RostersSound(old(db.events)) ==> RostersSound(db.events)
    ensures caller.role != Institution ==> r == Err(Forbidden) && db.Snapshot() == old(db.Snapshot())
    ensures caller.role == Institution && eventId !in old(db.events) ==>
              r == Err(NotFound(EventMissing)) && db.Snapshot() == old(db.Snapshot())
    ensures caller.role == Institution && eventId in old(db.events) &&
            (educatorId !in old(db.users) || old(db.users[educatorId]) != Educator) ==>
              r == Err(BadRequest(InvalidEducator)) && db.Snapshot() == old(db.Snapshot())
    ensures caller.role == Institution && eventId in old(db.events) &&
            educatorId in old(db.users) && old(db.users[educatorId]) == Educator &&
            !Saveable(old(db.events[eventId]), now) ==>
              r == Err(Crash) && db.Snapshot() == old(db.Snapshot())
    ensures caller.role == Institution && eventId in old(db.events) &&
            educatorId in old(db.users) && old(db.users[educatorId]) == Educator &&
            Saveable(old(db.events[eventId]), now) ==>
              && r == Ok(old(db.events[eventId]).(assignedEducator := RequestAssignment(Some(educatorId), now)))
              && r.value.assignedEducator.status == AssignmentStatus.Pending
              && db.Snapshot() == old(db.Snapshot()).(events := old(db.events)[eventId := r.value])
  {
    if caller.role != Institution {
      return Err(Forbidden);
    }
    if eventId !in db.events {
      return Err(NotFound(EventMissing));
    }
    if educatorId !in db.users || db.users[educatorId] != Educator {
      return Err(BadRequest(InvalidEducator));
    }
    if !Saveable(db.events[eventId], now) {
      return Err(Crash);
    }
    var e := db.events[eventId].(assignedEducator := RequestAssignment(Some(educatorId), now));
    db.events := db.events[eventId := e];
    r := Ok(e);
  }

  /**
   * `respondToEventAssignment`: the assigned educator answers "accepted"
   * or "rejected". The reply and its time are recorded, the educator and
   * the request time stay; the previous status is not checked, so a later
   * reply overwrites an earlier one. The save fails once the event's date
   * has passed.
   */
  method RespondToEventAssignment(db: Db, caller: Caller, eventId: RawId, reply: string, now: int)
    returns (r: Result<Assignment>)
    requires db.Valid()
    modifies db
    ensures db.Valid()
    ensures RostersSound(old(db.events)) ==> RostersSound(db.events)
    ensures r.Err? ==> db.Snapshot() == old(db.Snapshot())
    ensures eventId.Malformed? ==> r == Err(BadRequest(InvalidId))
    ensures eventId.WellFormed? && ParseReply(reply).None? ==> r == Err(BadRequest(InvalidStatus))
    ensures eventId.WellFormed? && ParseReply(reply).Some? && caller.role != Educator ==> r == Err(Forbidden)
    ensures eventId.WellFormed? && ParseReply(reply).Some? && caller.role == Educator && eventId.id !in old(db.events) ==>
              r == Err(NotFound(EventMissing))
    ensures eventId.WellFormed? && ParseReply(reply).Some? && caller.role == Educator && eventId.id in old(db.events) ==>
              var e := old(db.events[eventId.id]);
              && (e.assignedEducator.educator != Some(caller.id) ==> r == Err(Forbidden))
              && (e.assignedEducator.educator == Some(caller.id) && !Saveable(e, now) ==> r == Err(Crash))
              && (e.assignedEducator.educator == Some(caller.id) && Saveable(e, now) ==>
                    && r == Ok(e.assignedEducator.(status := ParseReply(reply).value, respondedAt := Some(now)))
                    && r.value.educator == Some(caller.id) && r.value.status != AssignmentStatus.Pending
                    && r.value.requestedAt == e.assignedEducator.requestedAt
                    && db.Snapshot() == old(db.Snapshot()).(events := old(db.events)[eventId.id := e.(assignedEducator := r.value)]))
  {
    if eventId.Malformed? {
      return Err(BadRequest(InvalidId));
    }
    var status := ParseReply(reply);
    if status.None? {
      return Err(BadRequest(InvalidStatus));
    }
    if caller.role != Educator {
      return Err(Forbidden);
    }
    if eventId.id !in db.events {
      return Err(NotFound(EventMissing));
    }
    var e := db.events[eventId.id];
    if e.assignedEducator.educator != Some(caller.id) {
      return Err(Forbidden);
    }
    if !Saveable(e, now) {
      return Err(Crash);
    }
    var a := e.assignedEducator.(status := status.value, respondedAt := Some(now));
    db.events := db.events[eventId.id := e.(assignedEducator := a)];
    r := Ok(a);
  }

  /**
   * `completeEventWithFeedback`: the assigned educator submits an array of
   * feedback entries. Each entry is stored as it is reached; the first one
   * without a student or numeric rating stops the walk with a 400, the
   * first one the Feedback schema refuses stops it with a crash, and in
   * both cases the records already created stay and the event is not
   * completed. Otherwise the event is completed, its feedback list is
   * extended by the new records in order, and their number is answered;
   * but once the event's date has passed its save fails, after every
   * record was created.
   * The cascade onto event requests filters on a field they do not have
   * and changes nothing.
   */
  method CompleteEventWithFeedback(db: Db, caller: Caller, eventId: Id, entries: Option<seq<FeedbackInput>>, now: int)
    returns (r: Result<nat>)
    requires db.Valid()
    modifies db
    ensures db.Valid()
    ensures RostersSound(old(db.events)) ==> RostersSound(db.events)
    ensures eventId !in old(db.events) ==> r == Err(NotFound(EventMissing)) && db.Snapshot() == old(db.Snapshot())
    ensures eventId in old(db.events) && old(db.events[eventId]).assignedEducator.educator.None? ==>
              r == Err(Crash) && db.Snapshot() == old(db.Snapshot())
    ensures eventId in old(db.events) && old(db.events[eventId]).assignedEducator.educator.Some? &&
            old(db.events[eventId]).assignedEducator.educator.value != caller.id ==>
              r == Err(Forbidden) && db.Snapshot() == old(db.Snapshot())
    ensures eventId in old(db.events) && old(db.events[eventId]).assignedEducator.educator == Some(caller.id) ==>
              && (entries.None? ==> r == Err(BadRequest(FeedbacksNotArray)) && db.Snapshot() == old(db.Snapshot()))
              && (entries.Some? ==>
                    var e := old(db.events[eventId]);
                    var w := RecordFrom(old(db.feedbacks), old(db.nextId), [], entries.value, 0, eventId, now);
                    && (w.FormatRefused? ==>
                          && r == Err(BadRequest(InvalidFeedback))
                          && db.Snapshot() == old(db.Snapshot()).(feedbacks := w.feedbacks, nextId := w.nextId))
                    && (w.SchemaCrashed? ==>
                          && r == Err(Crash)
                          && db.Snapshot() == old(db.Snapshot()).(feedbacks := w.feedbacks, nextId := w.nextId))
                    && (w.Recorded? && !Saveable(e, now) ==>
                          && r == Err(Crash)
                          && db.Snapshot() == old(db.Snapshot()).(feedbacks := w.feedbacks, nextId := w.nextId))
                    && (w.Recorded? && Saveable(e, now) ==>
                          && r == Ok(|w.ids|)
                          && r.value == |entries.value|
                          && db.Snapshot() == old(db.Snapshot()).(
                               feedbacks := w.feedbacks, nextId := w.nextId,
                               events := old(db.events)[eventId := e.(status := EventStatus.Completed, feedbacks := e.feedbacks + w.ids)])))
  {
    if eventId !in db.events {
      return Err(NotFound(EventMissing));
    }
    var e := db.events[eventId];
    if e.assignedEducator.educator.None? {
      return Err(Crash);
    }
    if e.assignedEducator.educator.value != caller.id {
      return Err(Forbidden);
    }
    if entries.None? {
      return Err(BadRequest(FeedbacksNotArray));
    }
    RecordIds(db.feedbacks, db.nextId, [], entries.value, 0, eventId, now);
    var outcome := RecordFeedbacks(db, entries.value, eventId, now);
    match outcome
    case FormatRefused(_, _, _) =>
      return Err(BadRequest(InvalidFeedback));
    case SchemaCrashed(_, _, _) =>
      return Err(Crash);
    case Recorded(_, _, ids) =>
      if !Saveable(e, now) {
        return Err(Crash);
      }
      db.events := db.events[eventId := e.(status := EventStatus.Completed, feedbacks := e.feedbacks + ids)];
      return Ok(|ids|);
  }

  /** The loop of completeEventWithFeedback: one `Feedback.create` per entry until one fails. */
  method RecordFeedbacks(db: Db, entries: seq<FeedbackInput>, eventId: Id, now: int) returns (outcome: Recording)
    requires db.Valid()
    modifies db`feedbacks, db`nextId
    ensures db.Valid()
    ensures outcome == RecordFrom(old(db.feedbacks), old(db.nextId), [], entries, 0, eventId, now)
    ensures db.feedbacks == outcome.feedbacks && db.nextId == outcome.nextId
  {
    ghost var feedbacks0, next0 := db.feedbacks, db.nextId;
    var ids: seq<Id> := [];
    var i := 0;
    while i < |entries|
      invariant i <= |entries|
      invariant db.Valid()
      invariant RecordFrom(db.feedbacks, db.nextId, ids, entries, i, eventId, now) ==
                RecordFrom(feedbacks0, next0, [], entries, 0, eventId, now)
    {
      var f := entries[i];
      if !Filled(f) {
        return FormatRefused(db.feedbacks, db.nextId, i);
      }
      if !Storable(f) {
        return SchemaCrashed(db.feedbacks, db.nextId, i);
      }
      var id := db.NewId();
      db.feedbacks := db.feedbacks[id := Record(f, eventId, now)];
      ids := ids + [id];
      i := i + 1;
    }
    outcome := Recorded(db.feedbacks, db.nextId, ids);
  }

  /**
   * `requestAdditionalResources`: the educator assigned to an event files a
   * pending request for more resources, made now.
   */
  method RequestAdditionalResources(db: Db, caller: Caller, eventId: Id, lines: seq<ResourceLine>, now: int)
    returns (r: Result<Id>)
    requires db.Valid()
    modifies db
    ensures db.Valid()
    ensures r.Err? ==> db.Snapshot() == old(db.Snapshot())
    ensures caller.role != Educator ==> r == Err(Forbidden)
    ensures caller.role == Educator && eventId !in old(db.events) ==> r == Err(NotFound(EventMissing))
    ensures caller.role == Educator && eventId in old(db.events) ==>
              var a := old(db.events[eventId]).assignedEducator;
              && (a.educator.None? ==> r == Err(Crash))
              && (a.educator.Some? && a.educator.value != caller.id ==> r == Err(Forbidden))
              && (a.educator == Some(caller.id) ==>
                    && r == Ok(old(db.nextId))
                    && db.Snapshot() == old(db.Snapshot()).(
                         resourceRequests := old(db.resourceRequests)[r.value :=
                           ResourceRequest(eventId, caller.id, lines, ResourceRequestStatus.Pending, now, None)],
                         nextId := r.value + 1))
  {
    if caller.role != Educator {
      return Err(Forbidden);
    }
    if eventId !in db.events {
      return Err(NotFound(EventMissing));
    }
    var a := db.events[eventId].assignedEducator;
    if a.educator.None? {
      return Err(Crash);
    }
    if a.educator.value != caller.id {
      return Err(Forbidden);
    }
    var id := db.NewId();
    db.resourceRequests := db.resourceRequests[id := ResourceRequest(eventId, caller.id, lines, ResourceRequestStatus.Pending, now, None)];
    r := Ok(id);
  }

  /**
   * `markAttendance`: the assigned educator sends a non-empty batch. A
   * batch naming any student whose attendance is already marked is refused
   * with the list of those students. Otherwise one marked entry is appended
   * per approved student the batch names, and the number of distinct
   * students in the batch is answered. The save fails once the event's
   * date has passed.
   */
  method MarkAttendance(db: Db, caller: Caller, eventId: RawId, batch: Option<seq<AttendanceInput>>, now: int)
    returns (r: Result<nat>)
    requires db.Valid()
    modifies db
    ensures db.Valid()
    ensures RostersSound(old(db.events)) ==> RostersSound(db.events)
    ensures r.Err? ==> db.Snapshot() == old(db.Snapshot())
    ensures eventId.Malformed? ==> r == Err(BadRequest(InvalidId))
    ensures eventId.WellFormed? && eventId.id !in old(db.events) ==> r == Err(NotFound(EventMissing))
    ensures eventId.WellFormed? && eventId.id in old(db.events) ==>
              var e := old(db.events[eventId.id]);
              && (e.assignedEducator.educator.None? ==> r == Err(Crash))
              && (e.assignedEducator.educator.Some? && e.assignedEducator.educator.value != caller.id ==> r == Err(Forbidden))
              && (e.assignedEducator.educator == Some(caller.id) ==>
                    && (batch.None? || batch.value == [] ==> r == Err(BadRequest(AttendanceMissing)))
                    && (batch.Some? && batch.value != [] && MarkedInBatch(e.attendance, batch.value) != [] ==>
                          r == Err(BadRequest(Reason.AlreadyMarked(MarkedInBatch(e.attendance, batch.value)))))
                    && (batch.Some? && batch.value != [] && MarkedInBatch(e.attendance, batch.value) == [] && !Saveable(e, now) ==>
                          r == Err(Crash))
                    && (batch.Some? && batch.value != [] && MarkedInBatch(e.attendance, batch.value) == [] && Saveable(e, now) ==>
                          && r == Ok(|BatchIds(batch.value)|)
                          && db.Snapshot() == old(db.Snapshot()).(events := old(db.events)[eventId.id :=
                               e.(attendance := e.attendance + NewEntries(e.approvedStudents, batch.value))])))
  {
    if eventId.Malformed? {
      return Err(BadRequest(InvalidId));
    }
    if eventId.id !in db.events {
      return Err(NotFound(EventMissing));
    }
    var e := db.events[eventId.id];
    if e.assignedEducator.educator.None? {
      return Err(Crash);
    }
    if e.assignedEducator.educator.value != caller.id {
      return Err(Forbidden);
    }
    if batch.None? || batch.value == [] {
      return Err(BadRequest(AttendanceMissing));
    }
    var marked := MarkedInBatch(e.attendance, batch.value);
    if marked != [] {
      return Err(BadRequest(Reason.AlreadyMarked(marked)));
    }
    var updated := AppendMarked(e.attendance, e.approvedStudents, batch.value);
    if !Saveable(e, now) {
      return Err(Crash);
    }
    if RosterSound(e) {
      MarkKeepsRoster(e, batch.value);
    }
    db.events := db.events[eventId.id := e.(attendance := updated)];
    r := Ok(|BatchIds(batch.value)|);
  }

  /** The `forEach` over approved students that pushes the batch's entries. */
  method AppendMarked(attendance: seq<AttendanceRecord>, approved: seq<Id>, batch: seq<AttendanceInput>)
    returns (updated: seq<AttendanceRecord>)
    ensures updated == attendance + NewEntries(approved, batch)
  {
    updated := attendance;
    var k := 0;
    while k < |approved|
      invariant k <= |approved|
      invariant updated == attendance + NewEntries(approved[..k], batch)
    {
      var s := approved[k];
      var present := BatchLookup(batch, s);
      if present.Some? {
        updated := updated + [AttendanceRecord(s, present.value, true)];
      }
      assert approved[..k + 1][..k] == approved[..k];
      k := k + 1;
    }
    assert approved[..k] == approved;
  }

  /**
   * `approveStudent`: any caller; a registered student not yet approved is
   * appended to the approved students. Once the event's date has passed
   * the save fails, and the handler's own catch answers 500.
   */
  method ApproveStudent(db: Db, eventId: Id, studentId: RawId, now: int) returns (r: Result<()>)
    requires db.Valid()
    modifies db
    ensures db.Valid()
    ensures RostersSound(old(db.events)) ==> RostersSound(db.events)
    ensures r.Err? ==> db.Snapshot() == old(db.Snapshot())
    ensures studentId.Malformed? ==> r == Err(BadRequest(InvalidId))
    ensures studentId.WellFormed? && eventId !in old(db.events) ==> r == Err(NotFound(EventMissing))
    ensures studentId.WellFormed? && eventId in old(db.events) ==>
              var e := old(db.events[eventId]);
              var s := studentId.id;
              && (s !in e.registeredStudents ==> r == Err(NotFound(StudentNotRegistered)))
              && (s in e.registeredStudents && s in e.approvedStudents ==> r == Err(BadRequest(AlreadyApproved)))
              && (s in e.registeredStudents && s !in e.approvedStudents && !Saveable(e, now) ==> r == Err(Crash))
              && (s in e.registeredStudents && s !in e.approvedStudents && Saveable(e, now) ==>
                    && r == Ok(())
                    && db.Snapshot() == old(db.Snapshot()).(events := old(db.events)[eventId :=
                         e.(approvedStudents := e.approvedStudents + [s])]))
  {
    if studentId.Malformed? {
      return Err(BadRequest(InvalidId));
    }
    if eventId !in db.events {
      return Err(NotFound(EventMissing));
    }
    var e := db.events[eventId];
    var s := studentId.id;
    if s !in e.registeredStudents {
      return Err(NotFound(StudentNotRegistered));
    }
    if s in e.approvedStudents {
      return Err(BadRequest(AlreadyApproved));
    }
    if !Saveable(e, now) {
      return Err(Crash);
    }
    db.events := db.events[eventId := e.(approvedStudents := e.approvedStudents + [s])];
    r := Ok(());
  }

  /** Who may see an event's roster: its creating institution or its assigned educator. */
  predicate MayViewRoster(e: Event, caller: Caller) {
    || (caller.role == Institution && e.createdBy == caller.id)
    || (caller.role == Educator && e.assignedEducator.educator == Some(caller.id))
  }

  /**
   * `getRegisteredStudentsForEvent`: for the creating institution or the
   * assigned educator, one row per registered student (whose user still
   * exists), in registration order, Approved exactly for approved students.
   */
  function RegisteredStudents(t: Tables, caller: Caller, eventId: Id): (r: Result<seq<StudentRow>>)
    ensures eventId !in t.events ==> r == Err(NotFound(EventMissing))
    ensures eventId in t.events && !MayViewRoster(t.events[eventId], caller) ==> r == Err(Forbidden)
    ensures r.Ok? <==> eventId in t.events && MayViewRoster(t.events[eventId], caller)
    ensures r.Ok? ==>
              var e := t.events[eventId];
              && |r.value| == |Existing(e.registeredStudents, t.users.Keys)|
              && (forall k :: 0 <= k < |r.value| ==> r.value[k].student == Existing(e.registeredStudents, t.users.Keys)[k])
              && (NoDup(e.registeredStudents) ==>
                    forall i, j :: 0 <= i < j < |r.value| ==> r.value[i].student != r.value[j].student)
              && (forall row :: row in r.value ==> row.student in e.registeredStudents)
              && (forall row :: row in r.value ==> (row.standing == Standing.Approved <==> row.student in e.approvedStudents))
              && (forall s :: s in e.registeredStudents && s in t.users ==> exists row :: row in r.value && row.student == s)
  {
    if eventId !in t.events then Err(NotFound(EventMissing))
    else if !MayViewRoster(t.events[eventId], caller) then Err(Forbidden)
    else Ok(StudentRows(t.events[eventId].registeredStudents, t.events[eventId].approvedStudents, t.users.Keys))
  }
}
