/**
 * Records of the event-management server: the Mongoose schemas of
 * server/Models, the enums they declare, the defaults they apply, the
 * future-date validator of an event, and the outcome of a request handler.
 *
 * Every document is identified by an `Id` (a Mongo ObjectId). A string the
 * source tests for truthiness (`!title`) is "missing" exactly when it is
 * empty; a value that may be absent or of the wrong JavaScript type is an
 * `Option`.
 */
module Schema {

  type Id = nat

  datatype Option<+T> = None | Some(value: T)

  /** An identifier as it arrives in a request body, before `ObjectId.isValid`. */
  datatype RawId = WellFormed(id: Id) | Malformed

  // ---------------------------------------------------------------------
  // Callers

  datatype Role = Institution | Educator | Student

  /** The authenticated user `req.user`: its id and its role. */
  datatype Caller = Caller(id: Id, role: Role)

  // ---------------------------------------------------------------------
  // Enums of the schemas

  /** Event.status (eventsModel.js). */
  datatype EventStatus = Upcoming | Ongoing | Completed | Cancelled

  /** Event.assignedEducator.status (eventsModel.js). */
  datatype AssignmentStatus = Pending | Accepted | Rejected

  /** EventRequest.status (eventRequestModel.js). */
  datatype EventRequestStatus = Pending | Approved | Rejected | Completed

  /** ResourceRequest.status (resourceRequestModel.js). */
  datatype ResourceRequestStatus = Pending | Approved | Rejected

  /** Registration.status (Registration.js). */
  datatype RegistrationStatus = Pending | Approved | Rejected

  /** The two replies `respondToEventAssignment` accepts. */
  function ParseReply(s: string): (r: Option<AssignmentStatus>)
    ensures r.Some? <==> s == "accepted" || s == "rejected"
    ensures r.Some? ==> r.value != AssignmentStatus.Pending
  {
    if s == "accepted" then Some(AssignmentStatus.Accepted)
    else if s == "rejected" then Some(AssignmentStatus.Rejected)
    else None
  }

  /** The two values `updateRegistrationStatus` accepts. */
  function ParseRegistrationVerdict(s: string): (r: Option<RegistrationStatus>)
    ensures r.Some? <==> s == "approved" || s == "rejected"
    ensures r.Some? ==> r.value != RegistrationStatus.Pending
  {
    if s == "approved" then Some(RegistrationStatus.Approved)
    else if s == "rejected" then Some(RegistrationStatus.Rejected)
    else None
  }

  /** The values the ResourceRequest.status enum lets `save` store. */
  function ParseResourceRequestStatus(s: string): (r: Option<ResourceRequestStatus>)
    ensures r.Some? <==> s == "pending" || s == "approved" || s == "rejected"
    ensures r == Some(ResourceRequestStatus.Approved) <==> s == "approved"
  {
    if s == "pending" then Some(ResourceRequestStatus.Pending)
    else if s == "approved" then Some(ResourceRequestStatus.Approved)
    else if s == "rejected" then Some(ResourceRequestStatus.Rejected)
    else None
  }

  // ---------------------------------------------------------------------
  // Documents

  /** Resource (resourceModel.js); `type` is a reserved word here, hence `kind`. */
  datatype Resource = Resource(name: string, kind: string, description: string, total: int, available: int)

  /** One line of `assignedResources` or `requestedResources`. */
  datatype ResourceLine = ResourceLine(resource: Id, quantity: int)

  /**
   * Event.assignedEducator. It is a nested path with defaults, not an
   * optional sub-document, so every event has one; `educator` is absent
   * until someone is assigned.
   */
  datatype Assignment = Assignment(educator: Option<Id>, status: AssignmentStatus, requestedAt: int, respondedAt: Option<int>)

  /** One entry of Event.registeredStudentsAttendance. */
  datatype AttendanceRecord = AttendanceRecord(student: Id, present: bool, marked: bool)

  datatype Event = Event(
    title: string,
    date: int,
    description: string,
    location: string,
    capacity: int,
    createdBy: Id,
    assignedEducator: Assignment,
    assignedResources: seq<ResourceLine>,
    registeredStudents: seq<Id>,
    approvedStudents: seq<Id>,
    attendance: seq<AttendanceRecord>,
    status: EventStatus,
    feedbacks: seq<Id>)

  datatype EventRequest = EventRequest(
    title: string,
    description: string,
    preferredDate: int,
    requestedBy: Id,
    requestedResources: seq<ResourceLine>,
    approvedEducator: Option<Id>,
    status: EventRequestStatus)

  datatype ResourceRequest = ResourceRequest(
    event: Id,
    educator: Id,
    requestedResources: seq<ResourceLine>,
    status: ResourceRequestStatus,
    requestedAt: int,
    reviewedAt: Option<int>)

  datatype Registration = Registration(event: Id, student: Id, registeredAt: int, status: RegistrationStatus, attendance: bool)

  datatype Feedback = Feedback(student: Id, comment: string, rating: int, event: Id, createdAt: int)

  // ---------------------------------------------------------------------
  // Defaults and validation of the Event schema

  /** The date validator: only instants strictly after `now` pass. */
  predicate FutureDate(date: int, now: int) {
    date > now
  }

  /**
   * Whether `save()` accepts an event document at `now`. Mongoose validates
   * every path of a loaded document, not only the modified ones, so the
   * date validator runs on each save: once its date has passed, an event
   * can no longer be saved, and the save throws.
   */
  predicate Saveable(e: Event, now: int) {
    FutureDate(e.date, now)
  }

  /** The attendance entry the schema's defaults produce for `student`. */
  function DefaultAttendance(student: Id): (r: AttendanceRecord)
    ensures r.student == student && !r.present && !r.marked
  {
    AttendanceRecord(student, false, false)
  }

  /** The assignment a new request for `educator` starts in. */
  function RequestAssignment(educator: Option<Id>, now: int): (a: Assignment)
    ensures a.educator == educator && a.status == AssignmentStatus.Pending
    ensures a.requestedAt == now && a.respondedAt.None?
  {
    Assignment(educator, AssignmentStatus.Pending, now, None)
  }

  /** Sequence without repeated elements. */
  predicate NoDup<T(==)>(s: seq<T>) {
    forall i, j :: 0 <= i < j < |s| ==> s[i] != s[j]
  }

  /** Every attendance entry is marked, for an approved student, and no student has two. */
  predicate AttendanceSound(e: Event) {
    && (forall i, j :: 0 <= i < j < |e.attendance| ==> e.attendance[i].student != e.attendance[j].student)
    && (forall r :: r in e.attendance ==> r.marked && r.student in e.approvedStudents)
  }

  /** The roster invariants: unique registrations and approvals, approved within registered. */
  predicate RosterSound(e: Event) {
    && NoDup(e.registeredStudents)
    && NoDup(e.approvedStudents)
    && (forall s :: s in e.approvedStudents ==> s in e.registeredStudents)
    && AttendanceSound(e)
  }

  /** Every stored event keeps the roster invariants. */
  predicate RostersSound(events: map<Id, Event>) {
    forall id :: id in events ==> RosterSound(events[id])
  }

  /** Storing an event that keeps the roster invariants keeps them for the whole collection. */
  lemma StoreKeepsRosters(events: map<Id, Event>, id: Id, e: Event)
    requires RostersSound(events) && RosterSound(e)
    ensures RostersSound(events[id := e])
  {
  }

  /** No more registrations than seats. */
  predicate WithinCapacity(e: Event) {
    |e.registeredStudents| <= e.capacity
  }

  /**
   * The document `Event.create` stores: the given fields, and the schema's
   * defaults for everything else.
   */
  function NewEvent(title: string, date: int, description: string, location: string, capacity: int,
                    createdBy: Id, resources: seq<ResourceLine>, educator: Option<Id>, now: int): (e: Event)
    ensures e.status == EventStatus.Upcoming
    ensures e.registeredStudents == [] && e.approvedStudents == [] && e.attendance == [] && e.feedbacks == []
    ensures e.assignedEducator == RequestAssignment(educator, now)
    ensures e.assignedResources == resources && e.capacity == capacity && e.createdBy == createdBy
    ensures RosterSound(e)
    ensures WithinCapacity(e) <==> capacity >= 0
  {
    Event(title, date, description, location, capacity, createdBy, RequestAssignment(educator, now),
          resources, [], [], [], EventStatus.Upcoming, [])
  }

  // ---------------------------------------------------------------------
  // Outcome of a handler

  /** Why a 400 was returned. */
  datatype Reason =
    | MissingFields
    | InvalidId
    | InvalidStatus
    | AlreadyRegistered
    | NoSeats
    | AlreadyProcessed
    | NotEnoughAvailability
    | InvalidResourceData
    | AlreadyApproved
    | InvalidEducator
    | FeedbacksNotArray
    | InvalidFeedback
    | AttendanceMissing
    | AlreadyMarked(students: seq<Id>)
    | NotRegistered

  /** What a 404 was about. */
  datatype Missing = EventMissing | ResourceMissing | RequestMissing | RegistrationMissing | StudentNotRegistered

  datatype Failure =
    | BadRequest(reason: Reason)   // 400
    | Forbidden                    // 403
    | NotFound(what: Missing)      // 404
    | Crash                        // 500: an exception, answered by Express or by the handler's own catch

  datatype Result<+T> = Ok(value: T) | Err(failure: Failure)

  /** The HTTP status a failure is answered with. */
  function StatusCode(f: Failure): (code: nat)
    ensures 400 <= code < 600
    ensures code == 400 <==> f.BadRequest?
  {
    match f
    case BadRequest(_) => 400
    case Forbidden => 403
    case NotFound(_) => 404
    case Crash => 500
  }
}
