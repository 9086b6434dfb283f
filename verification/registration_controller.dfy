/**
 * The handlers of server/Controllers/registrationController.js: the routed
 * registration, the verdict on a registration, the two ways a student asks
 * for a new event, the list of events a student may still join, the status
 * view of a joined event, and the feedback a student submits.
 */
module RegistrationController {
  import opened Schema
  import opened Store
  import opened Listings
  import opened FeedbackRecording

  /** Some Registration links `student` to `event` (the `Registration.findOne` of registerForEvent). */
  predicate HasRegistration(registrations: map<Id, Registration>, event: Id, student: Id) {
    exists k :: k in registrations && registrations[k].event == event && registrations[k].student == student
  }

  /** No two Registrations link the same student to the same event. */
  predicate OnePerPair(registrations: map<Id, Registration>) {
    forall a, b ::
      (a in registrations && b in registrations &&
       registrations[a].event == registrations[b].event &&
       registrations[a].student == registrations[b].student) ==> a == b
  }

  /** Storing a Registration for a pair that has none keeps one Registration per pair. */
  lemma NewRegistrationKeepsOnePerPair(registrations: map<Id, Registration>, id: Id, reg: Registration)
    requires OnePerPair(registrations)
    requires id !in registrations && !HasRegistration(registrations, reg.event, reg.student)
    ensures OnePerPair(registrations[id := reg])
    ensures HasRegistration(registrations[id := reg], reg.event, reg.student)
  {
    var updated := registrations[id := reg];
    assert updated[id] == reg;
    forall a, b | a in updated && b in updated && updated[a].event == updated[b].event && updated[a].student == updated[b].student
      ensures a == b
    {
      if a != id && b != id {
        assert registrations[a] == updated[a] && registrations[b] == updated[b];
      }
    }
  }

  /** The `Registration.create` of registerForEvent, for a pair that has no Registration yet. */
  method AddRegistration(db: Db, reg: Registration) returns (id: Id)
    requires db.Valid() && !HasRegistration(db.registrations, reg.event, reg.student)
    modifies db`registrations, db`nextId
    ensures db.Valid()
    ensures id == old(db.nextId) && db.nextId == id + 1
    ensures db.registrations == old(db.registrations)[id := reg]
    ensures HasRegistration(db.registrations, reg.event, reg.student)
    ensures OnePerPair(old(db.registrations)) ==> OnePerPair(db.registrations)
  {
    id := db.NewId();
    if OnePerPair(db.registrations) {
      NewRegistrationKeepsOnePerPair(db.registrations, id, reg);
    } else {
      assert db.registrations[id := reg][id] == reg;
    }
    db.registrations := db.registrations[id := reg];
  }

  /**
   * The event after a successful registration: the student is on the
   * roster once, appended when they were not on it, and nothing else of
   * the event changes.
   */
  function Joined(e: Event, student: Id): (e': Event)
    ensures student in e'.registeredStudents
    ensures e'.registeredStudents == e.registeredStudents || e'.registeredStudents == e.registeredStudents + [student]
    ensures e' == e.(registeredStudents := e'.registeredStudents)
    ensures |e.registeredStudents| < e.capacity ==> WithinCapacity(e')
    ensures RosterSound(e) ==> RosterSound(e')
  {
    if student in e.registeredStudents then e
    else e.(registeredStudents := e.registeredStudents + [student])
  }

  /**
   * The routed `registerForEvent`: seats are counted before duplicates are
   * looked for, and a duplicate is a Registration document, not a roster
   * entry. Then one Registration with the schema's defaults is created,
   * and the student joins the roster unless already on it. Joining saves
   * the event, which fails once its date has passed; the Registration
   * created before stays.
   */
  method RegisterForEvent(db: Db, caller: Caller, eventId: Option<RawId>, now: int) returns (r: Result<Id>)
    requires db.Valid()
    modifies db
    ensures db.Valid()
    ensures RostersSound(old(db.events)) ==> RostersSound(db.events)
    ensures OnePerPair(old(db.registrations)) ==> OnePerPair(db.registrations)
    ensures eventId.None? ==> r == Err(BadRequest(MissingFields)) && db.Snapshot() == old(db.Snapshot())
    ensures eventId == Some(Malformed) ==> r == Err(Crash) && db.Snapshot() == old(db.Snapshot())
    ensures eventId.Some? && eventId.value.WellFormed? && eventId.value.id !in old(db.events) ==>
              r == Err(NotFound(EventMissing)) && db.Snapshot() == old(db.Snapshot())
    ensures eventId.Some? && eventId.value.WellFormed? && eventId.value.id in old(db.events) ==>
              var eid := eventId.value.id;
              var e := old(db.events[eid]);
              var reg := Registration(eid, caller.id, now, RegistrationStatus.Pending, false);
              && (|e.registeredStudents| >= e.capacity ==>
                    r == Err(BadRequest(NoSeats)) && db.Snapshot() == old(db.Snapshot()))
              && (|e.registeredStudents| < e.capacity && HasRegistration(old(db.registrations), eid, caller.id) ==>
                    r == Err(BadRequest(AlreadyRegistered)) && db.Snapshot() == old(db.Snapshot()))
              && (|e.registeredStudents| < e.capacity && !HasRegistration(old(db.registrations), eid, caller.id) ==>
                    && HasRegistration(db.registrations, eid, caller.id)
                    && db.registrations == old(db.registrations)[old(db.nextId) := reg]
                    && db.nextId == old(db.nextId) + 1
                    && (caller.id !in e.registeredStudents && !Saveable(e, now) ==>
                          r == Err(Crash) && db.Snapshot() == old(db.Snapshot()).(
                            registrations := db.registrations, nextId := db.nextId))
                    && (caller.id in e.registeredStudents || Saveable(e, now) ==>
                          && r == Ok(old(db.nextId))
                          && db.Snapshot() == old(db.Snapshot()).(
                               registrations := db.registrations,
                               events := old(db.events)[eid := Joined(e, caller.id)],
                               nextId := db.nextId)))
  {
    if eventId.None? {
      return Err(BadRequest(MissingFields));
    }
    if eventId.value.Malformed? {
      return Err(Crash);
    }
    var eid := eventId.value.id;
    if eid !in db.events {
      return Err(NotFound(EventMissing));
    }
    var e := db.events[eid];
    if |e.registeredStudents| >= e.capacity {
      return Err(BadRequest(NoSeats));
    }
    if HasRegistration(db.registrations, eid, caller.id) {
      return Err(BadRequest(AlreadyRegistered));
    }
    var id := AddRegistration(db, Registration(eid, caller.id, now, RegistrationStatus.Pending, false));
    if caller.id !in e.registeredStudents {
      if !Saveable(e, now) {
        return Err(Crash);
      }
      db.events := db.events[eid := e.(registeredStudents := e.registeredStudents + [caller.id])];
    }
    assert db.events == old(db.events)[eid := Joined(e, caller.id)];
    if RostersSound(old(db.events)) {
      StoreKeepsRosters(old(db.events), eid, Joined(e, caller.id));
    }
    r := Ok(id);
  }

  /**
   * `updateRegistrationStatus`: any caller sets an existing registration
   * to "approved" or "rejected", whatever it was. A malformed id throws
   * inside the handler's own `try` and is answered with 500.
   */
  method UpdateRegistrationStatus(db: Db, registrationId: RawId, status: string) returns (r: Result<Registration>)
    requires db.Valid()
    modifies db
    ensures db.Valid()
    ensures r.Err? ==> db.Snapshot() == old(db.Snapshot())
    ensures OnePerPair(old(db.registrations)) ==> OnePerPair(db.registrations)
    ensures ParseRegistrationVerdict(status).None? ==> r == Err(BadRequest(InvalidStatus))
    ensures ParseRegistrationVerdict(status).Some? && registrationId.Malformed? ==> r == Err(Crash)
    ensures ParseRegistrationVerdict(status).Some? && registrationId.WellFormed? ==>
              var id := registrationId.id;
              && (id !in old(db.registrations) ==> r == Err(NotFound(RegistrationMissing)))
              && (id in old(db.registrations) ==>
                    && r == Ok(old(db.registrations[id]).(status := ParseRegistrationVerdict(status).value))
                    && r.value.status != RegistrationStatus.Pending
                    && db.Snapshot() == old(db.Snapshot()).(registrations := old(db.registrations)[id := r.value]))
  {
    var verdict := ParseRegistrationVerdict(status);
    if verdict.None? {
      return Err(BadRequest(InvalidStatus));
    }
    if registrationId.Malformed? {
      return Err(Crash);
    }
    var id := registrationId.id;
    if id !in db.registrations {
      return Err(NotFound(RegistrationMissing));
    }
    var reg := db.registrations[id].(status := verdict.value);
    db.registrations := db.registrations[id := reg];
    r := Ok(reg);
  }

  // ---------------------------------------------------------------------
  // Requests for a new event

  /**
   * One item of `requestedResources`: `resourceId` is None when falsy,
   * `count` is None when it is not a number.
   */
  datatype RequestItem = RequestItem(resourceId: Option<RawId>, count: Option<int>)

  /** The handler's test of an item: a resource id and a positive count. */
  predicate ItemValid(item: RequestItem) {
    item.resourceId.Some? && item.count.Some? && item.count.value > 0
  }

  predicate AllItemsValid(items: seq<RequestItem>) {
    forall k :: 0 <= k < |items| ==> ItemValid(items[k])
  }

  /** A line of `transformedResources`, before Mongoose casts its resource id. */
  datatype RequestLine = RequestLine(resource: RawId, quantity: int)

  /** `transformedResources` after the loop: `count` renamed to `quantity`, in order. */
  function Transformed(items: seq<RequestItem>): seq<RequestLine>
    requires AllItemsValid(items)
  {
    if items == [] then []
    else
      var last := items[|items| - 1];
      Transformed(items[..|items| - 1]) + [RequestLine(last.resourceId.value, last.count.value)]
  }

  /** Item k becomes line k, with the same resource and its count as quantity. */
  lemma {:induction false} TransformedInOrder(items: seq<RequestItem>)
    requires AllItemsValid(items)
    ensures |Transformed(items)| == |items|
    ensures forall k :: 0 <= k < |items| ==>
              Transformed(items)[k] == RequestLine(items[k].resourceId.value, items[k].count.value)
  {
    if items != [] {
      var init := items[..|items| - 1];
      TransformedInOrder(init);
      assert forall k :: 0 <= k < |init| ==> init[k] == items[k];
    }
  }

  /** What `EventRequest.create` stores for the lines: None when some resource id does not cast. */
  function Cast(lines: seq<RequestLine>): (r: Option<seq<ResourceLine>>)
    ensures r.Some? <==> forall k :: 0 <= k < |lines| ==> lines[k].resource.WellFormed?
    ensures r.Some? ==>
              && |r.value| == |lines|
              && forall k :: 0 <= k < |lines| ==> r.value[k] == ResourceLine(lines[k].resource.id, lines[k].quantity)
  {
    if lines == [] then Some([])
    else if lines[0].resource.Malformed? then None
    else match Cast(lines[1..])
      case None => None
      case Some(rest) => Some([ResourceLine(lines[0].resource.id, lines[0].quantity)] + rest)
  }

  /** The validating loop: the first invalid item refuses the submission. */
  method TransformItems(items: seq<RequestItem>) returns (lines: Option<seq<RequestLine>>)
    ensures lines.None? <==> !AllItemsValid(items)
    ensures lines.Some? ==> AllItemsValid(items) && lines.value == Transformed(items)
  {
    var transformed: seq<RequestLine> := [];
    var i := 0;
    while i < |items|
      invariant i <= |items|
      invariant AllItemsValid(items[..i])
      invariant transformed == Transformed(items[..i])
    {
      var item := items[i];
      if !ItemValid(item) {
        return None;
      }
      assert items[..i + 1][..i] == items[..i];
      transformed := transformed + [RequestLine(item.resourceId.value, item.count.value)];
      i := i + 1;
    }
    assert items[..i] == items;
    lines := Some(transformed);
  }

  /**
   * `requestNewEventWithResources`: a title, a preferred date and a
   * non-empty resource list are required, then every item must pass; the
   * request is stored pending with the lines in the order given. A resource
   * id that passes the handler's truthiness test but does not cast makes
   * `create` throw.
   */
  method RequestNewEventWithResources(db: Db, caller: Caller, title: string, description: string,
                                      preferredDate: Option<int>, items: Option<seq<RequestItem>>)
    returns (r: Result<Id>)
    requires db.Valid()
    modifies db
    ensures db.Valid()
    ensures r.Err? ==> db.Snapshot() == old(db.Snapshot())
    ensures title == "" || preferredDate.None? || items.None? || items.value == [] ==>
              r == Err(BadRequest(MissingFields))
    ensures title != "" && preferredDate.Some? && items.Some? && items.value != [] ==>
              && (!AllItemsValid(items.value) ==> r == Err(BadRequest(InvalidResourceData)))
              && (AllItemsValid(items.value) && Cast(Transformed(items.value)).None? ==> r == Err(Crash))
              && (AllItemsValid(items.value) && Cast(Transformed(items.value)).Some? ==>
                    var lines := Cast(Transformed(items.value)).value;
                    && r == Ok(old(db.nextId))
                    && |lines| == |items.value|
                    && (forall k :: 0 <= k < |lines| ==>
                          && items.value[k].resourceId == Some(WellFormed(lines[k].resource))
                          && lines[k].quantity == items.value[k].count.value > 0)
                    && db.Snapshot() == old(db.Snapshot()).(
                         eventRequests := old(db.eventRequests)[r.value :=
                           EventRequest(title, description, preferredDate.value, caller.id, lines, None, EventRequestStatus.Pending)],
                         nextId := r.value + 1))
  {
    if title == "" || preferredDate.None? || items.None? || items.value == [] {
      return Err(BadRequest(MissingFields));
    }
    var transformed := TransformItems(items.value);
    if transformed.None? {
      return Err(BadRequest(InvalidResourceData));
    }
    TransformedInOrder(items.value);
    var lines := Cast(transformed.value);
    if lines.None? {
      return Err(Crash);
    }
    var id := db.NewId();
    db.eventRequests := db.eventRequests[id :=
      EventRequest(title, description, preferredDate.value, caller.id, lines.value, None, EventRequestStatus.Pending)];
    r := Ok(id);
  }

  /**
   * One item of the unrouted `requestNewEvent`'s list, by the two fields
   * the schema reads from it: `resource` and `quantity`, None when absent.
   * An item of the `{resourceId, count}` shape has neither.
   */
  datatype SubmittedLine = SubmittedLine(resource: Option<RawId>, quantity: Option<int>)

  /** The lines when every item has both required fields, None otherwise. */
  function Present(items: seq<SubmittedLine>): (r: Option<seq<RequestLine>>)
    ensures r.Some? <==> forall k :: 0 <= k < |items| ==> items[k].resource.Some? && items[k].quantity.Some?
    ensures r.Some? ==>
              && |r.value| == |items|
              && forall k :: 0 <= k < |items| ==> r.value[k] == RequestLine(items[k].resource.value, items[k].quantity.value)
  {
    if items == [] then Some([])
    else if items[0].resource.None? || items[0].quantity.None? then None
    else match Present(items[1..])
      case None => None
      case Some(rest) => Some([RequestLine(items[0].resource.value, items[0].quantity.value)] + rest)
  }

  /**
   * The unrouted `requestNewEvent` (an absent list arrives as []): the list
   * is handed to `create` as it came, so it is stored when every item has
   * a resource id that casts and a quantity, and `create` throws otherwise,
   * which is the case for any item of the `{resourceId, count}` shape.
   */
  method RequestNewEvent(db: Db, caller: Caller, title: string, description: string,
                         preferredDate: Option<int>, requested: seq<SubmittedLine>)
    returns (r: Result<Id>)
    requires db.Valid()
    modifies db
    ensures db.Valid()
    ensures r.Err? ==> db.Snapshot() == old(db.Snapshot())
    ensures title == "" || preferredDate.None? ==> r == Err(BadRequest(MissingFields))
    ensures title != "" && preferredDate.Some? ==>
              var lines := Present(requested);
              && (lines.None? || Cast(lines.value).None? ==> r == Err(Crash))
              && (lines.Some? && Cast(lines.value).Some? ==>
                    && r == Ok(old(db.nextId))
                    && db.Snapshot() == old(db.Snapshot()).(
                         eventRequests := old(db.eventRequests)[r.value :=
                           EventRequest(title, description, preferredDate.value, caller.id, Cast(lines.value).value,
                                        None, EventRequestStatus.Pending)],
                         nextId := r.value + 1))
  {
    if title == "" || preferredDate.None? {
      return Err(BadRequest(MissingFields));
    }
    var lines := Present(requested);
    if lines.None? {
      return Err(Crash);
    }
    var stored := Cast(lines.value);
    if stored.None? {
      return Err(Crash);
    }
    var id := db.NewId();
    db.eventRequests := db.eventRequests[id :=
      EventRequest(title, description, preferredDate.value, caller.id, stored.value, None, EventRequestStatus.Pending)];
    r := Ok(id);
  }

  // ---------------------------------------------------------------------
  // What a student sees

  /**
   * `getAllEvents`: the upcoming events the caller has not joined, by
   * ascending date, each once.
   */
  function AllEvents(t: Tables, student: Id): (ids: seq<Id>)
    ensures forall x :: x in ids <==> x in t.events && x < t.nextId && Open(t.events[x], student)
    ensures forall x :: x in ids ==> x in t.events
    ensures SortedByDate(t.events, ids)
    ensures NoDup(ids)
  {
    var all := IdsBelow(t.events.Keys, t.nextId);
    UpcomingSpec(t.events, all, student);
    Listings.Upcoming(t.events, all, student)
  }

  /** The fields `getEventStatus` answers with. */
  datatype StatusView = StatusView(title: string, status: EventStatus, educator: Option<Id>,
                                   resources: seq<ResourceLine>, date: int, location: string)

  /**
   * `getEventStatus`: only a student on the event's roster sees it; an
   * absent or unknown event is refused the same way. A malformed id makes
   * `findById` throw.
   */
  function EventStatusFor(t: Tables, caller: Caller, eventId: Option<RawId>): (r: Result<StatusView>)
    ensures r == Err(Crash) <==> eventId == Some(Malformed)
    ensures r.Ok? <==> eventId.Some? && eventId.value.WellFormed? && eventId.value.id in t.events &&
                       caller.id in t.events[eventId.value.id].registeredStudents
    ensures r.Err? && eventId != Some(Malformed) ==> r == Err(Forbidden)
    ensures r.Ok? ==> var e := t.events[eventId.value.id];
              && r.value.status == e.status && r.value.educator == e.assignedEducator.educator
              && r.value.resources == e.assignedResources && r.value.date == e.date
  {
    match eventId
    case None => Err(Forbidden)
    case Some(Malformed) => Err(Crash)
    case Some(WellFormed(id)) =>
      if id !in t.events || caller.id !in t.events[id].registeredStudents then Err(Forbidden)
      else
        var e := t.events[id];
        Ok(StatusView(e.title, e.status, e.assignedEducator.educator, e.assignedResources, e.date, e.location))
  }

  // ---------------------------------------------------------------------
  // submitFeedback

  /**
   * `submitFeedback` as the source has it. Its route does not authenticate,
   * so `user` is None there; past the roster guard the handler reads
   * `req.user._id`, and when a user is known it calls `Feedback.create`
   * with `Feedback` never imported. No input stores anything.
   */
  method SubmitFeedbackAsWritten(db: Db, user: Option<Caller>, eventId: Option<RawId>, rating: Option<int>, comment: string)
    returns (r: Result<Id>)
    ensures r.Err?
    ensures eventId == Some(Malformed) ==> r == Err(Crash)
    ensures eventId.None? || (eventId.value.WellFormed? && eventId.value.id !in db.events) ==>
              r == Err(BadRequest(NotRegistered))
    ensures eventId.Some? && eventId.value.WellFormed? && eventId.value.id in db.events ==>
              && (user.None? ==> r == Err(Crash))
              && (user.Some? && user.value.id !in db.events[eventId.value.id].registeredStudents ==>
                    r == Err(BadRequest(NotRegistered)))
              && (user.Some? && user.value.id in db.events[eventId.value.id].registeredStudents ==>
                    r == Err(Crash))
  {
    if eventId.Some? && eventId.value.Malformed? {
      return Err(Crash);
    }
    if eventId.None? || eventId.value.id !in db.events {
      return Err(BadRequest(NotRegistered));
    }
    if user.None? {
      return Err(Crash);
    }
    if user.value.id !in db.events[eventId.value.id].registeredStudents {
      return Err(BadRequest(NotRegistered));
    }
    r := Err(Crash);
  }

  /**
   * `submitFeedback` as evidently intended: an authenticated student on the
   * event's roster stores one Feedback, which the Feedback schema accepts
   * only with a comment and a rating from 1 to 5, and the event lists it
   * after its earlier feedback. Only the missing import is corrected: the
   * event's save still fails once its date has passed, after the Feedback
   * was stored.
   */
  method SubmitFeedback(db: Db, caller: Caller, eventId: Option<RawId>, rating: Option<int>, comment: string, now: int)
    returns (r: Result<Id>)
    requires db.Valid()
    modifies db
    ensures db.Valid()
    ensures RostersSound(old(db.events)) ==> RostersSound(db.events)
    ensures eventId == Some(Malformed) ==> r == Err(Crash) && db.Snapshot() == old(db.Snapshot())
    ensures eventId.None? || (eventId.value.WellFormed? && eventId.value.id !in old(db.events)) ==>
              r == Err(BadRequest(NotRegistered)) && db.Snapshot() == old(db.Snapshot())
    ensures eventId.Some? && eventId.value.WellFormed? && eventId.value.id in old(db.events) ==>
              var eid := eventId.value.id;
              var e := old(db.events[eid]);
              var accepted := rating.Some? && 1 <= rating.value <= 5 && comment != "";
              && (caller.id !in e.registeredStudents ==>
                    r == Err(BadRequest(NotRegistered)) && db.Snapshot() == old(db.Snapshot()))
              && (caller.id in e.registeredStudents && !accepted ==>
                    r == Err(Crash) && db.Snapshot() == old(db.Snapshot()))
              && (caller.id in e.registeredStudents && accepted && !Saveable(e, now) ==>
                    && r == Err(Crash)
                    && db.Snapshot() == old(db.Snapshot()).(
                         feedbacks := old(db.feedbacks)[old(db.nextId) := Feedback(caller.id, comment, rating.value, eid, now)],
                         nextId := old(db.nextId) + 1))
              && (caller.id in e.registeredStudents && accepted && Saveable(e, now) ==>
                    && r == Ok(old(db.nextId))
                    && db.Snapshot() == old(db.Snapshot()).(
                         feedbacks := old(db.feedbacks)[r.value := Feedback(caller.id, comment, rating.value, eid, now)],
                         events := old(db.events)[eid := e.(feedbacks := e.feedbacks + [r.value])],
                         nextId := r.value + 1))
  {
    if eventId.Some? && eventId.value.Malformed? {
      return Err(Crash);
    }
    if eventId.None? || eventId.value.id !in db.events {
      return Err(BadRequest(NotRegistered));
    }
    var eid := eventId.value.id;
    var e := db.events[eid];
    if caller.id !in e.registeredStudents {
      return Err(BadRequest(NotRegistered));
    }
    var entry := FeedbackInput(Some(WellFormed(caller.id)), rating, comment);
    if !Filled(entry) || !Storable(entry) {
      return Err(Crash);
    }
    var id := db.NewId();
    db.feedbacks := db.feedbacks[id := Record(entry, eid, now)];
    if !Saveable(e, now) {
      return Err(Crash);
    }
    db.events := db.events[eid := e.(feedbacks := e.feedbacks + [id])];
    r := Ok(id);
  }
}
