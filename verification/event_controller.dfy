/**
 * The handlers of server/Controllers/eventController.js that change or
 * report the workflow: the unrouted registration, event creation with
 * resource reservation, update and deletion, the answer to a resource
 * request, the approval and rejection of event requests, and the
 * institution's allocation report.
 *
 * Every handler takes the store, the authenticated caller where the source
 * reads `req.user`, its inputs and the current instant `now`, and answers
 * with a `Result`. On an error the store is as the handler left it: every
 * save awaited before the error stays.
 */
module EventController {
  import opened Schema
  import opened Store
  import opened Inventory
  import opened Listings

  /**
   * The unrouted `registerForEvent`: a duplicate is refused before seats
   * are counted; on success the student is appended and the seats left
   * are answered. The save fails once the event's date has passed.
   */
  method RegisterForEvent(db: Db, caller: Caller, eventId: Id, now: int) returns (r: Result<int>)
    requires db.Valid()
    modifies db
    ensures db.Valid()
    ensures eventId !in old(db.events) ==> r == Err(NotFound(EventMissing)) && db.Snapshot() == old(db.Snapshot())
    ensures eventId in old(db.events) ==>
              var e := old(db.events[eventId]);
              && (caller.id in e.registeredStudents ==>
                    r == Err(BadRequest(AlreadyRegistered)) && db.Snapshot() == old(db.Snapshot()))
              && (caller.id !in e.registeredStudents && e.capacity - |e.registeredStudents| <= 0 ==>
                    r == Err(BadRequest(NoSeats)) && db.Snapshot() == old(db.Snapshot()))
              && (caller.id !in e.registeredStudents && e.capacity - |e.registeredStudents| > 0 && !Saveable(e, now) ==>
                    r == Err(Crash) && db.Snapshot() == old(db.Snapshot()))
              && (caller.id !in e.registeredStudents && e.capacity - |e.registeredStudents| > 0 && Saveable(e, now) ==>
                    var e' := e.(registeredStudents := e.registeredStudents + [caller.id]);
                    && r == Ok(e.capacity - |e'.registeredStudents|)
                    && r.value >= 0
                    && WithinCapacity(e')
                    && (RosterSound(e) ==> RosterSound(e'))
                    && db.Snapshot() == old(db.Snapshot()).(events := old(db.events)[eventId := e']))
  {
    if eventId !in db.events {
      return Err(NotFound(EventMissing));
    }
    var e := db.events[eventId];
    if caller.id in e.registeredStudents {
      return Err(BadRequest(AlreadyRegistered));
    }
    var remainingSeats := e.capacity - |e.registeredStudents|;
    if remainingSeats <= 0 {
      return Err(BadRequest(NoSeats));
    }
    if !Saveable(e, now) {
      return Err(Crash);
    }
    var e' := e.(registeredStudents := e.registeredStudents + [caller.id]);
    db.events := db.events[eventId := e'];
    r := Ok(e'.capacity - |e'.registeredStudents|);
  }

  /** The guard of createEvent: `capacity` 0 stands for a missing or zero capacity. */
  predicate CreateFieldsPresent(title: string, date: Option<int>, capacity: int, location: string) {
    title != "" && date.Some? && capacity != 0 && location != ""
  }

  /**
   * `createEvent`. Each line takes its quantity from the stock, and its
   * save is issued at once; an unknown resource or a short one fails (the
   * error branches reach a shadowed name and throw). The event is then
   * created, which fails when its date is not in the future; the lines'
   * saves stand either way.
   */
  method CreateEvent(db: Db, caller: Caller, title: string, date: Option<int>, description: string,
                     capacity: int, location: string, educatorId: Option<Id>, lines: seq<ResourceLine>, now: int)
    returns (r: Result<Id>)
    requires db.Valid()
    modifies db
    ensures db.Valid()
    ensures StockSound(old(db.resources)) ==> StockSound(db.resources)
    ensures caller.role != Institution ==> r == Err(Forbidden) && db.Snapshot() == old(db.Snapshot())
    ensures caller.role == Institution && !CreateFieldsPresent(title, date, capacity, location) ==>
              r == Err(BadRequest(MissingFields)) && db.Snapshot() == old(db.Snapshot())
    ensures caller.role == Institution && CreateFieldsPresent(title, date, capacity, location) ==>
              var w := ReserveFrom(old(db.resources), [], lines, 0);
              && (w.ReserveFailed? || !FutureDate(date.value, now) ==>
                    r == Err(Crash) && db.Snapshot() == old(db.Snapshot()).(resources := w.resources))
              && (w.Reserved? && FutureDate(date.value, now) ==>
                    && r == Ok(old(db.nextId))
                    && db.Snapshot() == old(db.Snapshot()).(
                         resources := w.resources,
                         events := old(db.events)[r.value := NewEvent(title, date.value, description, location, capacity,
                                                                      caller.id, lines, educatorId, now)],
                         nextId := r.value + 1))
  {
    if caller.role != Institution {
      return Err(Forbidden);
    }
    if !CreateFieldsPresent(title, date, capacity, location) {
      return Err(BadRequest(MissingFields));
    }
    var reserved := ReserveLines(db, lines);
    if !reserved {
      return Err(Crash);
    }
    if !FutureDate(date.value, now) {
      return Err(Crash);
    }
    var id := AddEvent(db, NewEvent(title, date.value, description, location, capacity, caller.id, lines, educatorId, now));
    r := Ok(id);
  }

  /** The `Event.create` of createEvent: the event is stored under a fresh id. */
  method AddEvent(db: Db, e: Event) returns (id: Id)
    requires db.Valid()
    modifies db`events, db`nextId
    ensures db.Valid()
    ensures id == old(db.nextId) && db.nextId == id + 1 && id !in old(db.events)
    ensures db.events == old(db.events)[id := e]
  {
    id := db.NewId();
    db.events := db.events[id := e];
  }

  /**
   * The loop of createEvent: each line is checked against the stock as it
   * stands and its quantity taken, until a line fails.
   */
  method ReserveLines(db: Db, lines: seq<ResourceLine>) returns (reserved: bool)
    modifies db`resources
    ensures var w := ReserveFrom(old(db.resources), [], lines, 0);
            && db.resources == w.resources
            && (reserved <==> w.Reserved?)
            && (w.Reserved? ==> w.lines == lines)
    ensures StockSound(old(db.resources)) ==> StockSound(db.resources)
  {
    ghost var stock0 := db.resources;
    if StockSound(stock0) {
      ReserveKeepsStock(stock0, [], lines, 0);
    }
    ReserveOutcome(stock0, [], lines, 0);
    var acc: seq<ResourceLine> := [];
    var i := 0;
    while i < |lines|
      invariant i <= |lines|
      invariant ReserveFrom(db.resources, acc, lines, i) == ReserveFrom(stock0, [], lines, 0)
    {
      var l := lines[i];
      if l.resource !in db.resources || db.resources[l.resource].available < l.quantity {
        return false;
      }
      db.resources := Withdraw(db.resources, l.resource, l.quantity);
      acc := acc + [l];
      i := i + 1;
    }
    reserved := true;
  }

  /**
   * The fields a body sent to updateEvent may overwrite. A field that is
   * None is left alone; no validator runs.
   */
  datatype EventPatch = EventPatch(
    title: Option<string>,
    date: Option<int>,
    description: Option<string>,
    location: Option<string>,
    capacity: Option<int>,
    status: Option<EventStatus>)

  /** The event `findByIdAndUpdate` stores for a patch. */
  function Patched(e: Event, p: EventPatch): (e': Event)
    ensures e'.registeredStudents == e.registeredStudents && e'.approvedStudents == e.approvedStudents
    ensures e'.attendance == e.attendance && e'.assignedResources == e.assignedResources
    ensures e'.createdBy == e.createdBy && e'.assignedEducator == e.assignedEducator && e'.feedbacks == e.feedbacks
    ensures p.capacity.Some? ==> e'.capacity == p.capacity.value
    ensures p.capacity.None? ==> e'.capacity == e.capacity
    ensures RosterSound(e) ==> RosterSound(e')
  {
    e.(title := if p.title.Some? then p.title.value else e.title,
       date := if p.date.Some? then p.date.value else e.date,
       description := if p.description.Some? then p.description.value else e.description,
       location := if p.location.Some? then p.location.value else e.location,
       capacity := if p.capacity.Some? then p.capacity.value else e.capacity,
       status := if p.status.Some? then p.status.value else e.status)
  }

  /**
   * An update may lower capacity below the registrations, since no check
   * guards it: the capacity bound is not an invariant across updates.
   */
  lemma PatchCanOverbook(e: Event, capacity: int)
    requires capacity < |e.registeredStudents|
    ensures !WithinCapacity(Patched(e, EventPatch(None, None, None, None, Some(capacity), None)))
  {
  }

  /** `updateEvent`: only the creator may update; the patch is stored as sent. */
  method UpdateEvent(db: Db, caller: Caller, eventId: Id, patch: EventPatch) returns (r: Result<Event>)
    requires db.Valid()
    modifies db
    ensures db.Valid()
    ensures eventId !in old(db.events) ==> r == Err(NotFound(EventMissing)) && db.Snapshot() == old(db.Snapshot())
    ensures eventId in old(db.events) && old(db.events[eventId]).createdBy != caller.id ==>
              r == Err(Forbidden) && db.Snapshot() == old(db.Snapshot())
    ensures eventId in old(db.events) && old(db.events[eventId]).createdBy == caller.id ==>
              && r == Ok(Patched(old(db.events[eventId]), patch))
              && db.Snapshot() == old(db.Snapshot()).(events := old(db.events)[eventId := r.value])
    ensures RostersSound(old(db.events)) ==> RostersSound(db.events)
  {
    if eventId !in db.events {
      return Err(NotFound(EventMissing));
    }
    var e := db.events[eventId];
    if e.createdBy != caller.id {
      return Err(Forbidden);
    }
    var e' := Patched(e, patch);
    db.events := db.events[eventId := e'];
    r := Ok(e');
  }

  /**
   * `deleteEvent`: only the creator may delete. The event's resource lines
   * are not returned to stock, and its registrations stay.
   */
  method DeleteEvent(db: Db, caller: Caller, eventId: Id) returns (r: Result<()>)
    requires db.Valid()
    modifies db
    ensures db.Valid()
    ensures eventId !in old(db.events) ==> r == Err(NotFound(EventMissing)) && db.Snapshot() == old(db.Snapshot())
    ensures eventId in old(db.events) && old(db.events[eventId]).createdBy != caller.id ==>
              r == Err(Forbidden) && db.Snapshot() == old(db.Snapshot())
    ensures eventId in old(db.events) && old(db.events[eventId]).createdBy == caller.id ==>
              && r == Ok(())
              && db.Snapshot() == old(db.Snapshot()).(events := old(db.events) - {eventId})
              && db.resources == old(db.resources)
    ensures RostersSound(old(db.events)) ==> RostersSound(db.events)
  {
    if eventId !in db.events {
      return Err(NotFound(EventMissing));
    }
    if db.events[eventId].createdBy != caller.id {
      return Err(Forbidden);
    }
    db.events := db.events - {eventId};
    r := Ok(());
  }

  /**
   * `respondToResourceRequest`. Only institutions answer, and only a
   * pending request. A decision other than "approved" is stored with the
   * review time; one outside the status enum makes the final save fail.
   * An approval takes each line from stock (saving it) and adds it to the
   * event's lines; a line whose resource is gone crashes, a short one is
   * refused, and in both cases neither the event nor the request is saved.
   * When every line is taken, the event's save fails once its date has
   * passed; the stock saves stand and the request stays pending.
   */
  method RespondToResourceRequest(db: Db, caller: Caller, requestId: Id, decision: string, now: int)
    returns (r: Result<()>)
    requires db.Valid()
    modifies db
    ensures db.Valid()
    ensures StockSound(old(db.resources)) ==> StockSound(db.resources)
    ensures caller.role != Institution ==> r == Err(Forbidden) && db.Snapshot() == old(db.Snapshot())
    ensures caller.role == Institution && requestId !in old(db.resourceRequests) ==>
              r == Err(NotFound(RequestMissing)) && db.Snapshot() == old(db.Snapshot())
    ensures caller.role == Institution && requestId in old(db.resourceRequests) &&
            old(db.resourceRequests[requestId]).status != ResourceRequestStatus.Pending ==>
              r == Err(BadRequest(AlreadyProcessed)) && db.Snapshot() == old(db.Snapshot())
    ensures caller.role == Institution && requestId in old(db.resourceRequests) &&
            old(db.resourceRequests[requestId]).status == ResourceRequestStatus.Pending && decision != "approved" ==>
              var req := old(db.resourceRequests[requestId]);
              && (ParseResourceRequestStatus(decision).None? ==> r == Err(Crash) && db.Snapshot() == old(db.Snapshot()))
              && (ParseResourceRequestStatus(decision).Some? ==>
                    && r == Ok(())
                    && db.Snapshot() == old(db.Snapshot()).(resourceRequests := old(db.resourceRequests)[requestId :=
                         req.(status := ParseResourceRequestStatus(decision).value, reviewedAt := Some(now))]))
    ensures caller.role == Institution && requestId in old(db.resourceRequests) &&
            old(db.resourceRequests[requestId]).status == ResourceRequestStatus.Pending && decision == "approved" &&
            old(db.resourceRequests[requestId]).event in old(db.events) ==>
              var req := old(db.resourceRequests[requestId]);
              var e := old(db.events[req.event]);
              var w := TopUpFrom(old(db.resources), e.assignedResources, req.requestedResources, 0);
              && (w.TopUpCrashed? ==> r == Err(Crash) && db.Snapshot() == old(db.Snapshot()).(resources := w.resources))
              && (w.TopUpRefused? ==>
                    r == Err(BadRequest(NotEnoughAvailability)) && db.Snapshot() == old(db.Snapshot()).(resources := w.resources))
              && (w.ToppedUp? && !Saveable(e, now) ==>
                    r == Err(Crash) && db.Snapshot() == old(db.Snapshot()).(resources := w.resources))
              && (w.ToppedUp? && Saveable(e, now) ==>
                    && r == Ok(())
                    && db.Snapshot() == old(db.Snapshot()).(
                         resources := w.resources,
                         events := old(db.events)[req.event := e.(assignedResources := w.lines)],
                         resourceRequests := old(db.resourceRequests)[requestId :=
                           req.(status := ResourceRequestStatus.Approved, reviewedAt := Some(now))]))
    ensures caller.role == Institution && requestId in old(db.resourceRequests) &&
            old(db.resourceRequests[requestId]).status == ResourceRequestStatus.Pending && decision == "approved" &&
            old(db.resourceRequests[requestId]).event !in old(db.events) ==>
              var items := old(db.resourceRequests[requestId]).requestedResources;
              && r.Err?
              && (items == [] || items[0].resource !in old(db.resources) ==>
                    r == Err(Crash) && db.Snapshot() == old(db.Snapshot()))
              && (items != [] && items[0].resource in old(db.resources) &&
                  old(db.resources[items[0].resource]).available < items[0].quantity ==>
                    r == Err(BadRequest(NotEnoughAvailability)) && db.Snapshot() == old(db.Snapshot()))
              && (items != [] && items[0].resource in old(db.resources) &&
                  old(db.resources[items[0].resource]).available >= items[0].quantity ==>
                    r == Err(Crash) &&
                    db.Snapshot() == old(db.Snapshot()).(resources := Withdraw(old(db.resources), items[0].resource, items[0].quantity)))
  {
    if caller.role != Institution {
      return Err(Forbidden);
    }
    if requestId !in db.resourceRequests {
      return Err(NotFound(RequestMissing));
    }
    var req := db.resourceRequests[requestId];
    if req.status != ResourceRequestStatus.Pending {
      return Err(BadRequest(AlreadyProcessed));
    }
    if decision != "approved" {
      var status := ParseResourceRequestStatus(decision);
      if status.None? {
        return Err(Crash);
      }
      db.resourceRequests := db.resourceRequests[requestId := req.(status := status.value, reviewedAt := Some(now))];
      return Ok(());
    }
    var items := req.requestedResources;
    if req.event !in db.events {
      // The first line is checked and taken; then the missing event is dereferenced.
      if items == [] || items[0].resource !in db.resources {
        return Err(Crash);
      }
      if db.resources[items[0].resource].available < items[0].quantity {
        return Err(BadRequest(NotEnoughAvailability));
      }
      db.resources := Withdraw(db.resources, items[0].resource, items[0].quantity);
      return Err(Crash);
    }
    var e := db.events[req.event];
    var outcome := TakeRequested(db, e.assignedResources, items);
    match outcome
    case TopUpCrashed(_, _) =>
      return Err(Crash);
    case TopUpRefused(_, _) =>
      return Err(BadRequest(NotEnoughAvailability));
    case ToppedUp(_, lines) =>
      if !Saveable(e, now) {
        return Err(Crash);
      }
      db.events := db.events[req.event := e.(assignedResources := lines)];
      db.resourceRequests := db.resourceRequests[requestId := req.(status := ResourceRequestStatus.Approved, reviewedAt := Some(now))];
      return Ok(());
  }

  /**
   * The loop of an approval: each requested line is taken from the stock
   * in place and merged into the event's lines, until a line fails.
   */
  method TakeRequested(db: Db, lines0: seq<ResourceLine>, items: seq<ResourceLine>) returns (outcome: TopUp)
    modifies db`resources
    ensures outcome == TopUpFrom(old(db.resources), lines0, items, 0)
    ensures db.resources == outcome.resources
    ensures StockSound(old(db.resources)) ==> StockSound(db.resources)
  {
    ghost var stock0 := db.resources;
    if StockSound(stock0) {
      TopUpKeepsStock(stock0, lines0, items, 0);
    }
    var lines := lines0;
    var i := 0;
    while i < |items|
      invariant i <= |items|
      invariant TopUpFrom(db.resources, lines, items, i) == TopUpFrom(stock0, lines0, items, 0)
    {
      var item := items[i];
      if item.resource !in db.resources {
        return TopUpCrashed(db.resources, i);
      }
      if db.resources[item.resource].available < item.quantity {
        return TopUpRefused(db.resources, i);
      }
      db.resources := Withdraw(db.resources, item.resource, item.quantity);
      lines := Merge(lines, item);
      i := i + 1;
    }
    outcome := ToppedUp(db.resources, lines);
  }

  /** `approveEventRequest`: any caller; the status becomes approved whatever it was. */
  method ApproveEventRequest(db: Db, requestId: Id) returns (r: Result<()>)
    requires db.Valid()
    modifies db
    ensures db.Valid()
    ensures requestId !in old(db.eventRequests) ==> r == Err(NotFound(RequestMissing)) && db.Snapshot() == old(db.Snapshot())
    ensures requestId in old(db.eventRequests) ==>
              && r == Ok(())
              && db.Snapshot() == old(db.Snapshot()).(eventRequests := old(db.eventRequests)[requestId :=
                   old(db.eventRequests[requestId]).(status := EventRequestStatus.Approved)])
  {
    if requestId !in db.eventRequests {
      return Err(NotFound(RequestMissing));
    }
    db.eventRequests := db.eventRequests[requestId := db.eventRequests[requestId].(status := EventRequestStatus.Approved)];
    r := Ok(());
  }

  /** `rejectRequest`: any caller; the status becomes rejected whatever it was. */
  method RejectRequest(db: Db, requestId: Id) returns (r: Result<()>)
    requires db.Valid()
    modifies db
    ensures db.Valid()
    ensures requestId !in old(db.eventRequests) ==> r == Err(NotFound(RequestMissing)) && db.Snapshot() == old(db.Snapshot())
    ensures requestId in old(db.eventRequests) ==>
              && r == Ok(())
              && db.Snapshot() == old(db.Snapshot()).(eventRequests := old(db.eventRequests)[requestId :=
                   old(db.eventRequests[requestId]).(status := EventRequestStatus.Rejected)])
  {
    if requestId !in db.eventRequests {
      return Err(NotFound(RequestMissing));
    }
    db.eventRequests := db.eventRequests[requestId := db.eventRequests[requestId].(status := EventRequestStatus.Rejected)];
    r := Ok(());
  }

  /** The caller's events in the order `find` returns them. */
  function InstitutionEvents(t: Tables, creator: Id): (ids: seq<Id>)
    ensures forall x :: x in ids <==> x in t.events && x < t.nextId && t.events[x].createdBy == creator
  {
    CreatedBy(t.events, IdsBelow(t.events.Keys, t.nextId), creator)
  }

  /**
   * `getAllocatedResources`: for an institution, one row per line of each
   * of its events whose resource still exists, events in natural order and
   * lines in event order.
   */
  method GetAllocatedResources(db: Db, caller: Caller) returns (r: Result<seq<AllocatedRow>>)
    ensures caller.role != Institution ==> r == Err(Forbidden)
    ensures caller.role == Institution ==>
              r == Ok(EventRows(db.events, InstitutionEvents(db.Snapshot(), caller.id), db.resources))
  {
    if caller.role != Institution {
      return Err(Forbidden);
    }
    var events := InstitutionEvents(db.Snapshot(), caller.id);
    var rows: seq<AllocatedRow> := [];
    var k := 0;
    while k < |events|
      invariant k <= |events|
      invariant rows == EventRows(db.events, events[..k], db.resources)
    {
      var e := db.events[events[k]];
      var more := RowsOfEvent(e.title, e.assignedResources, db.resources);
      rows := rows + more;
      assert events[..k + 1][..k] == events[..k];
      k := k + 1;
    }
    assert events[..k] == events;
    r := Ok(rows);
  }

  /** The inner loop of getAllocatedResources over one event's lines. */
  method RowsOfEvent(title: string, lines: seq<ResourceLine>, resources: map<Id, Resource>) returns (rows: seq<AllocatedRow>)
    ensures rows == LineRows(title, lines, resources)
  {
    rows := [];
    var j := 0;
    while j < |lines|
      invariant j <= |lines|
      invariant rows == LineRows(title, lines[..j], resources)
    {
      var line := lines[j];
      if line.resource in resources {
        rows := rows + [RowOf(title, line, resources)];
      }
      assert lines[..j + 1][..j] == lines[..j];
      j := j + 1;
    }
    assert lines[..j] == lines;
  }
}
