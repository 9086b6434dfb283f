# Event workflow of the event-management server, in Dafny

This project models the server side of an event-management application
(Express handlers over Mongoose collections) and proves properties of that
model. Institutions create events and stock resources, assign educators and
answer their resource requests. Educators accept or reject assignments,
approve registered students, mark attendance and complete events with
feedback. Students register for events and ask for new ones.

The Mongo collections become one in-memory store, the class `Store.Db`.
It holds one map per collection and a counter that hands out fresh ids.
A collection's natural order is ascending id order. Each request handler
is a method on the store. It takes:

- the authenticated caller (id and role);
- the request's inputs, where a value the handler tests for presence or
  type is an `Option` and an id that may fail `ObjectId.isValid` is a
  `RawId`;
- the current instant `now`.

It answers with a `Result`: a value, or a `Failure` of 400 (with a reason),
403, 404 (with what is missing) or 500 (`Crash`: an exception). Each
handler states, case by case, the answer and the whole store it leaves.
Saves that a handler awaited before failing are kept: a batch that stops
midway leaves the stock as its earlier lines left it.

An event's `save()` checks its date again: Mongoose validates every path
of a loaded document, not only the modified ones, and the Event schema
requires a date after the current instant (server/Models/eventsModel.js:9-17).
So once an event's date has passed, every handler that saves it answers
500 at that save. The writes made before the save stay: stored feedback,
a new registration, resource stock. `Schema.Saveable` is that check.

The loops of the handlers (resource lines, feedback entries, attendance,
request items, report rows) are written as loops. Each is proved equal to
a recursive function of the inputs. The properties the workflow promises
are proved as lemmas about those functions:

- conservation of available-plus-assigned units;
- stock never negative;
- the roster invariants: unique registrations and approvals, approved
  students among the registered ones, at most one marked attendance entry
  per approved student;
- the order of the lines an event holds.

Modules:

- `Schema`: documents, enums, defaults.
- `Store`: the store.
- `Inventory`: resource walks.
- `Attendance`, `FeedbackRecording`, `Listings`.
- One module per controller: `EventController`, `EducatorController`,
  `ResourceController`, `RegistrationController`.

Where the code and the design documents disagree, the model follows the
code:

- Every event has an `assignedEducator` sub-document, because the schema
  declares it as a nested path with defaults. Its `educator` may be
  absent.
- `createEvent`'s error branches throw, because the loop variable shadows
  the response. So they answer 500, not 404/400.
- `completeEventWithFeedback` updates no event request, because its filter
  names a field the EventRequest schema does not declare.

## Model

| member | source | states |
|---|---|---|
| `Schema.ParseReply` | server/Controllers/EducatorController.js:76-78 | only "accepted" and "rejected" are replies, and neither is pending |
| `Schema.ParseRegistrationVerdict` | server/Controllers/registrationController.js:82-84 | only "approved" and "rejected" are verdicts, and neither is pending |
| `Schema.ParseResourceRequestStatus` | server/Models/resourceRequestModel.js:20-24 | a request status saves only if it is pending, approved or rejected; "approved" is the only value parsed as approved |
| `Schema.DefaultAttendance` | server/Models/eventsModel.js:80-86 | an attendance entry defaults to not present and not marked |
| `Schema.RequestAssignment` | server/Models/eventsModel.js:37-52 | a new educator assignment is pending, requested now, with no response yet |
| `Schema.NewEvent` | server/Models/eventsModel.js:68-98 | a created event is upcoming, with empty roster, approvals, attendance and feedback, and the given lines, capacity and creator; it satisfies the roster invariants; it is within capacity exactly when the capacity is not negative |
| `Inventory.ReserveOutcome` | server/Controllers/eventController.js:80-100 | createEvent's walk takes from each resource exactly the units of the processed lines; on success the event's lines are the input lines in order; a failure stops at a line whose resource is unknown or short |
| `Inventory.ReserveStops` | server/Controllers/eventController.js:80-100 | a successful walk keeps the lines in order; a failed one stops at a line not reservable in the stock it left |
| `Inventory.ReserveTakes` | server/Controllers/eventController.js:80-100 | each resource loses exactly the units named by the lines before the stop |
| `Inventory.ReserveSucceedsIff` | server/Controllers/eventController.js:80-94 | the walk succeeds exactly when every line's resource exists and the units named for it up to that line fit in the stock available before |
| `Inventory.ReserveFailurePrefix` | server/Controllers/eventController.js:80-94 | a failed walk leaves exactly the stock that a walk over the lines before the failing one leaves |
| `Inventory.ReserveKeepsStock` | server/Controllers/eventController.js:87-93 | createEvent's walk never makes an available count negative |
| `Inventory.MergeAssigned` | server/Controllers/eventController.js:275-286 | adding a line to an event raises its assignment of that resource by the line's quantity and changes no other |
| `Inventory.MergeResources` | server/Controllers/eventController.js:275-286 | adding a line increments the existing line for its resource in place, or appends a line for a resource not yet named |
| `Inventory.TopUpStock` | server/Controllers/eventController.js:261-272 | an approval takes from each resource the units of the processed items; it crashes at an item whose resource is gone and is refused at a short one |
| `Inventory.TopUpLines` | server/Controllers/eventController.js:261-287 | on success the event's assignment of each resource grows by the units requested; existing lines keep their place; no resource gets a second line |
| `Inventory.TopUpConserves` | server/Controllers/eventController.js:271-286 | per resource, units available plus units the event holds are unchanged by a successful approval |
| `Inventory.TopUpStopPrefix` | server/Controllers/eventController.js:264-272 | a stopped approval leaves exactly the stock that approving the items before the stop leaves |
| `Inventory.TopUpKeepsStock` | server/Controllers/eventController.js:264-271 | an approval never makes an available count negative |
| `Inventory.PutLookup` | server/Controllers/resourceController.js:72 | setting a resource's quantity in the map changes that resource's quantity only |
| `Inventory.PutResources` | server/Controllers/resourceController.js:72 | setting a quantity keeps every entry in place and appends only a new resource |
| `Inventory.CollectShape` | server/Controllers/resourceController.js:36-39 | the map loaded from an event's lines names each of their resources exactly once; a resource the lines name holds the quantity of the last line naming it, since `Map.set` overwrites, and any other resource keeps its quantity |
| `Inventory.CollectKeys` | server/Controllers/resourceController.js:36-39 | the loaded map names each resource once, and exactly the resources of the lines |
| `Inventory.CollectValues` | server/Controllers/resourceController.js:36-39 | each resource the lines name holds the last such line's quantity; the others keep theirs |
| `Inventory.CollectDistinct` | server/Controllers/resourceController.js:36-39 | lines naming each resource once load into a map equal to the lines themselves |
| `Inventory.LookupIsAssigned` | server/Controllers/resourceController.js:57 | in lines naming each resource once, the map's quantity of a resource is the sum the lines assign to it |
| `Inventory.RetargetConserves` | server/Controllers/resourceController.js:57-72 | per resource, units available plus the quantity the loaded map holds are unchanged by a successful reassignment; decreases release units back |
| `Inventory.RetargetConservesAssigned` | server/Controllers/resourceController.js:36-83 | when the event's lines name each resource once, a successful reassignment keeps, per resource, units available plus units the lines assign, and the new lines name each resource once |
| `Inventory.RetargetUntouched` | server/Controllers/resourceController.js:41-72 | a resource no item names keeps its stock and the event's quantity of it |
| `Inventory.RetargetShape` | server/Controllers/resourceController.js:36-83 | the final lines keep the event's resources in place, append only named resources, and name each resource once |
| `Inventory.RetargetStopPrefix` | server/Controllers/resourceController.js:44-69 | a refused item answers with the first check it fails, after exactly the stock changes of the items before it |
| `Inventory.RetargetKeepsStock` | server/Controllers/resourceController.js:57-69 | a reassignment never makes an available count negative |
| `Inventory.CollapsedLoadLosesUnits` | server/Controllers/resourceController.js:36-39 | as written: with 3 units available and two lines of 3 and 4 units for one resource, a reassignment with no items leaves 3 available and one line of 4, so 3 of the 10 units vanish |
| `Inventory.SummedLookup` | server/Controllers/resourceController.js:36-39 | corrected load: each resource holds its old quantity plus the sum the lines assign to it |
| `Inventory.SummedDistinct` | server/Controllers/resourceController.js:36-39 | corrected load: the map names each resource once |
| `Inventory.SummedConserves` | server/Controllers/resourceController.js:36-83 | corrected load: a successful reassignment keeps, per resource, units available plus units the lines assign, for any lines the event has |
| `Attendance.BatchLookupLastWins` | server/Controllers/EducatorController.js:304-306 | the batch's map holds exactly the batch's students, each with the value of its last entry |
| `Attendance.MarkedInBatchIff` | server/Controllers/EducatorController.js:309-311 | a student is reported as already marked exactly when the batch names them and they have a marked entry |
| `Attendance.NewEntriesSound` | server/Controllers/EducatorController.js:323-333 | every appended entry is marked, for an approved student, with the batch's value for that student |
| `Attendance.NewEntriesComplete` | server/Controllers/EducatorController.js:323-333 | every approved student the batch names gets an entry |
| `Attendance.NewEntriesOrdered` | server/Controllers/EducatorController.js:323-333 | the entries follow the order of the approved students |
| `Attendance.NewEntriesDistinct` | server/Controllers/EducatorController.js:323-333 | no student gets two entries |
| `Attendance.MarkKeepsRoster` | server/Controllers/EducatorController.js:309-335 | a batch that passed the already-marked check keeps at most one marked entry per approved student |
| `Attendance.DisjointAppend` | server/Controllers/EducatorController.js:321-333 | appending entries for students not yet present keeps the students distinct |
| `Attendance.RemarkingIsReported` | server/Controllers/EducatorController.js:309-318 | a batch naming a student already marked is always refused |
| `FeedbackRecording.Record` | server/Models/feedbackModel.js:4-29 | a stored feedback carries the entry's student, rating and comment, the event and the time; its rating is 1 to 5 and its comment is not empty |
| `FeedbackRecording.RecordStops` | server/Controllers/EducatorController.js:139-154 | the feedback walk stops at the first entry without a student or numeric rating (400) or refused by the schema (500), after every earlier entry passed both |
| `FeedbackRecording.RecordStore` | server/Controllers/EducatorController.js:139-153 | each passed entry is stored under a fresh id in order; earlier feedback is untouched; nothing else is added, even when the walk stops |
| `FeedbackRecording.RecordIds` | server/Controllers/EducatorController.js:137-158 | on success the collected ids are one fresh id per entry, in entry order, after the earlier ones |
| `Listings.StudentRows` | server/Controllers/EducatorController.js:416-432 | the rows' students are the registered students whose user still exists, in registration order and one row each; a row is Approved exactly when the student is approved |
| `Listings.Existing` | server/Controllers/EducatorController.js:399-401 | the ids populate keeps: exactly those whose user exists, in order, distinct when the roster is |
| `Listings.ApprovedRowsAreApproved` | server/Controllers/EducatorController.js:416-432 | when every registered student exists, there is one row per registration, and Approved rows are exactly the approved students |
| `Listings.AllKept` | server/Controllers/EducatorController.js:421-432 | no row is dropped when every registered student's user exists |
| `Listings.OpenEvents` | server/Controllers/registrationController.js:14-21 | the filter keeps exactly the upcoming events the student has not joined |
| `Listings.InsertByDate` | server/Controllers/registrationController.js:24 | insertion into the date order keeps the same events |
| `Listings.InsertKeepsSorted` | server/Controllers/registrationController.js:24 | insertion keeps the list ordered by date |
| `Listings.ConsSorted` | server/Controllers/registrationController.js:24 | an event no later than every other one can head a date-ordered list |
| `Listings.SortByDate` | server/Controllers/registrationController.js:24 | sorting by date keeps the same events, each as often |
| `Listings.SortByDateSorted` | server/Controllers/registrationController.js:24 | the sorted list is ordered by ascending date |
| `Listings.UpcomingSpec` | server/Controllers/registrationController.js:14-24 | the listing holds exactly the open events, by ascending date, each once |
| `Listings.MultiplicityOfDistinct` | server/Controllers/registrationController.js:14-24 | an event occurs at most once in a listing drawn from distinct ids |
| `Listings.TwiceCounted` | server/Controllers/registrationController.js:14-24 | an event at two positions of a listing is counted twice |
| `Listings.CreatedBy` | server/Controllers/eventController.js:138 | the institution's events are exactly the events it created |
| `Listings.LineRowsIff` | server/Controllers/eventController.js:145-154 | an event's rows are exactly the rows of its lines whose resource still exists |
| `Listings.EventRowsIff` | server/Controllers/eventController.js:144-156 | the report holds exactly the rows of the institution's events' lines whose resource exists |
| `Listings.EventRowsCount` | server/Controllers/eventController.js:144-156 | when every resource exists, the report has one row per line of the institution's events |
| `Listings.LineRowsCount` | server/Controllers/eventController.js:145-154 | when every resource of an event's lines exists, the event has one row per line |
| `EventController.RegisterForEvent` | server/Controllers/eventController.js:9-39 | unrouted variant: 404 for an unknown event; 400 for a student already on the roster, checked before seats; 400 when no seat remains; 500 when the event's date has passed, at the save; each with nothing changed. On success the student is appended once, the seats left are answered and are not negative, the capacity bound holds and the roster invariants are kept |
| `EventController.CreateEvent` | server/Controllers/eventController.js:55-129 | 403 for a non-institution and 400 for a missing field, both with nothing changed. Otherwise the resource walk runs and its saves stand; an unknown or short resource, or a date not in the future, answers 500. On success the event is stored with the lines in order and the educator's pending assignment |
| `EventController.AddEvent` | server/Controllers/eventController.js:120 | the new event is stored under an id no collection held, and nothing else but the id counter changes |
| `EventController.ReserveLines` | server/Controllers/eventController.js:80-100 | the loop leaves the stock of the reservation walk and succeeds exactly when the walk does |
| `EventController.Patched` | server/Controllers/eventController.js:188 | an update changes only the fields it sends, so the roster, lines, creator and assignment stay, and the roster invariants are kept |
| `EventController.PatchCanOverbook` | server/Controllers/eventController.js:188 | an update may set capacity below the number of registrations |
| `EventController.UpdateEvent` | server/Controllers/eventController.js:174-190 | 404 for an unknown event; 403 unless the caller created it; otherwise the patched event is stored and returned |
| `EventController.DeleteEvent` | server/Controllers/eventController.js:191-207 | 404 for an unknown event; 403 unless the caller created it; otherwise the event is removed and no stock is returned |
| `EventController.RespondToResourceRequest` | server/Controllers/eventController.js:241-294 | 403 for a non-institution, 404 for an unknown request, 400 for one not pending, each with nothing changed. Other decisions are stored with the review time. An approval runs the top-up walk: a short line answers 400 and a vanished resource 500, both after the earlier saves and with neither the event nor the request saved. When every line is taken but the event's date has passed, its save answers 500 after the stock saves, and the request stays pending. Otherwise the event gets the merged lines and the request becomes approved |
| `EventController.TakeRequested` | server/Controllers/eventController.js:261-287 | the approval loop leaves the stock and outcome of the top-up walk |
| `EventController.ApproveEventRequest` | server/Controllers/eventController.js:300-314 | any caller; 404 for an unknown request; otherwise it becomes approved, whatever its status |
| `EventController.RejectRequest` | server/Controllers/eventController.js:318-333 | any caller; 404 for an unknown request; otherwise it becomes rejected, whatever its status |
| `EventController.InstitutionEvents` | server/Controllers/eventController.js:138-140 | the events visited are exactly those the institution created |
| `EventController.GetAllocatedResources` | server/Controllers/eventController.js:131-159 | 403 for a non-institution; otherwise one row per line of its events whose resource still exists, events in natural order and lines in event order |
| `EventController.RowsOfEvent` | server/Controllers/eventController.js:145-155 | the inner loop yields the rows of one event's lines |
| `EducatorController.AssignEducatorToEvent` | server/Controllers/EducatorController.js:20-49 | 403 for a non-institution, 404 for an unknown event, 400 unless the named user is an educator; 500 when the event's date has passed, at the save; each with nothing changed. Otherwise any previous assignment is replaced by a pending request made now |
| `EducatorController.RespondToEventAssignment` | server/Controllers/EducatorController.js:67-114 | 400 for a malformed id or a reply other than accepted/rejected; 403 for a non-educator; 404 for an unknown event; 403 unless the caller is the assigned educator; 500 when the event's date has passed, at the save; each with nothing changed. Otherwise the reply and its time are stored, the educator and request time are kept, and the previous status is not checked |
| `EducatorController.CompleteEventWithFeedback` | server/Controllers/EducatorController.js:117-172 | 404 for an unknown event; 500 when no educator is assigned; 403 for another educator; 400 when feedbacks is not an array. A failing entry answers 400 or 500 after the earlier feedback was stored, with the event not completed. When every entry is stored but the event's date has passed, the save answers 500 and the event is not completed. Otherwise the event is completed, its feedback list grows by the new ids in order, and the count equals the number of entries |
| `EducatorController.RecordFeedbacks` | server/Controllers/EducatorController.js:139-154 | the feedback loop leaves the collection, the id counter and the outcome of the feedback walk |
| `EducatorController.RequestAdditionalResources` | server/Controllers/EducatorController.js:251-276 | 403 for a non-educator; 404 for an unknown event; 500 when no educator is assigned; 403 for another educator. Otherwise a pending resource request by the caller is stored, made now |
| `EducatorController.MarkAttendance` | server/Controllers/EducatorController.js:279-343 | 400 for a malformed id; 404 for an unknown event; 500 or 403 unless the caller is the assigned educator; 400 for an empty or absent batch, and 400 listing the already-marked students; 500 when the event's date has passed, at the save; each with nothing changed. Otherwise the new entries are appended, the number of distinct batch students is answered, and the roster invariants are kept |
| `EducatorController.AppendMarked` | server/Controllers/EducatorController.js:321-333 | the forEach appends exactly the new entries after the existing ones |
| `EducatorController.ApproveStudent` | server/Controllers/EducatorController.js:362-393 | 400 for a malformed student id; 404 for an unknown event or a student not registered; 400 for one already approved; 500 from the handler's catch when the event's date has passed; each with nothing changed. Otherwise the student is appended once and the roster invariants are kept |
| `EducatorController.RegisteredStudents` | server/Controllers/EducatorController.js:396-439 | 404 for an unknown event; 403 unless the caller is the creating institution or the assigned educator; otherwise the rows follow the registered students whose user exists, in registration order, one row per student on a roster without repeats, Approved exactly for approved students |
| `ResourceController.CreateResource` | server/Controllers/resourceController.js:6-17 | 400 unless name and type are given and both counts are present (0 counts as present); otherwise the resource is stored as given. The stock stays non-negative exactly when the new available count is not negative |
| `ResourceController.AssignResourcesToEvent` | server/Controllers/resourceController.js:23-89 | 400 for a malformed event id and 404 for an unknown event, both with nothing changed. Each item's quantity is the new target and only the difference moves. A refused item answers its failure after the earlier saves, with the event unchanged. When every item passes but the event's date has passed, its save answers 500 after the stock saves. On success the event holds the map's lines, and when the event's lines named each resource once, per resource units available plus units assigned are unchanged. Stock never goes negative and no resource appears or disappears |
| `ResourceController.LoadAssignments` | server/Controllers/resourceController.js:36-39 | the forEach loads exactly the map of the event's lines |
| `ResourceController.ApplyTargets` | server/Controllers/resourceController.js:41-73 | the item loop leaves the stock and outcome of the reassignment walk |
| `RegistrationController.RegisterForEvent` | server/Controllers/registrationController.js:107-152 | 400 for a missing event id; 404 for an unknown event; 400 when no seat remains, checked before duplicates; 400 when a registration exists; each with nothing changed. Otherwise one pending registration is created under a fresh id. A student not yet on the roster is appended, but when the event's date has passed that save answers 500 and the registration stays; on success the event becomes `Joined` of the student. The roster invariants and one registration per student and event are kept |
| `RegistrationController.AddRegistration` | server/Controllers/registrationController.js:128-140 | for a student and event with no registration yet, the registration is stored under a fresh id, the pair then has one, and one registration per pair is kept |
| `RegistrationController.NewRegistrationKeepsOnePerPair` | server/Controllers/registrationController.js:128-140 | the duplicate lookup before the create is what keeps one registration per student and event |
| `RegistrationController.Joined` | server/Controllers/registrationController.js:142-146 | the student ends on the roster, appended only when absent, nothing else of the event changes; a roster below capacity stays within it, and the roster invariants are kept |
| `RegistrationController.UpdateRegistrationStatus` | server/Controllers/registrationController.js:78-105 | 400 unless the status is approved or rejected; 404 for an unknown registration; otherwise the status is overwritten and nothing else changes |
| `RegistrationController.TransformedInOrder` | server/Controllers/registrationController.js:190-207 | item k becomes line k, with the item's resource and its count as quantity |
| `RegistrationController.Cast` | server/Controllers/registrationController.js:210-217 | the lines store exactly when every resource id casts, with their order and quantities |
| `RegistrationController.TransformItems` | server/Controllers/registrationController.js:188-207 | the loop refuses exactly when some item lacks a resource id or a positive count; otherwise it yields the transformed lines |
| `RegistrationController.RequestNewEventWithResources` | server/Controllers/registrationController.js:178-223 | 400 without a title, a preferred date and a non-empty list; 400 when any item is invalid; 500 when an id does not cast; each with nothing changed. Otherwise a pending request by the caller is stored with one line per item, in order, with each count as its quantity |
| `RegistrationController.RequestNewEvent` | server/Controllers/registrationController.js:155-175 | 400 without a title and a preferred date, with nothing changed. Otherwise the list is stored as given when every item has a resource id that casts and a quantity, in order; any other item, such as one of the `{resourceId, count}` shape, makes the create answer 500 with nothing changed |
| `RegistrationController.Present` | server/Controllers/registrationController.js:162-169 | the items pass the schema's required fields exactly when each has a resource and a quantity, and then give one line per item, in order |
| `RegistrationController.AllEvents` | server/Controllers/registrationController.js:11-27 | exactly the upcoming events the caller has not joined, by ascending date, each once |
| `RegistrationController.EventStatusFor` | server/Controllers/registrationController.js:56-75 | the status view is given exactly to a student on the event's roster; any other request is 403, or 500 for a malformed id |
| `RegistrationController.SubmitFeedbackAsWritten` | server/Controllers/registrationController.js:34-54 | no input stores anything: an unknown event or a caller off the roster gets 400; every other request throws |
| `RegistrationController.SubmitFeedback` | server/Controllers/registrationController.js:34-54 | a student on the roster stores one feedback that the schema accepts, and the event lists it after its earlier feedback; when the event's date has passed, the event's save answers 500 after the feedback was stored; a caller off the roster gets 400 with nothing changed |

## Left out

- Read-only display endpoints are left out because each is only a database filter: getRegisteredEvents, getInstitutionEvents, getInstitutionEventById, getEventById, getEventRequestsForInstitution, getAllResourceRequests, getAvailableResources, getMyEventRequests, getEducatorFeedbacks, getCompletedEventsForEducator, getPendingAssignments, getAssignedEvents, getAssignedEventDetails, getApprovedStudents and getAllEducators.
- Authentication, tokens and routing are left out. The caller is an input. Routes without authentication matter in two places, which are noted: submitFeedback (modelled) and the approve/reject routes for event requests (which have no role check).
- server/Routes/registrationRoutes.js:15 routes getEventStatus without an `:id`, so every request through that route gets 403. `RegistrationController.EventStatusFor` models the handler for any id.
- Requests are modelled one at a time. The read-check-write races between concurrent requests on `available` and on the roster are not modelled.
- `createEvent` issues its resource saves without waiting for them, then creates the event. The model applies them in order, before the event.
- Populated names, e-mails and timestamps (`createdAt`, `updatedAt`) are not modelled. Display fields of a response are modelled only where a property is stated about them.
- Numbers are mathematical integers. Fractional quantities, NaN, string-to-number casts and dates as strings are not modelled. A date is an instant `int`.
- `EventController.UpdateEvent` models a patch of the scalar fields. A body that overwrites arrays or the creator through `findByIdAndUpdate` is not modelled, and neither are the validators, which that call skips.
- Ids a handler passes to `findById` without `ObjectId.isValid` are modelled as well-formed where the handler takes them from the route or body. These are:
  - the event id of assignEducatorToEvent, completeEventWithFeedback, requestAdditionalResources, approveStudent, updateEvent, deleteEvent, the unrouted registerForEvent and getRegisteredStudentsForEvent;
  - the request id of respondToResourceRequest, approveEventRequest and rejectRequest;
  - the educator id of assignEducatorToEvent.

  A malformed one would throw (500; approveStudent's own catch answers 500 too). Where the model takes a `RawId`, it does model that case.
- Ids are compared as values, not as strings. assignResourcesToEvent keys its map by the canonical `toString()` of each stored id (server/Controllers/resourceController.js:38), but looks up the raw string from the body (line 57). So a resource id spelled another way, for instance in upper-case hex, is not found in the map: its full quantity is withdrawn again and a second line is added. The model does not capture this.
- `EducatorController.RequestAdditionalResources` takes the request lines as well-formed. A body whose lines lack a resource or quantity would fail schema validation (500).
- `EducatorController.MarkAttendance` takes every batch entry with a student id. An entry without one would throw at `toString` (500).
- `EducatorController.CompleteEventWithFeedback` models the cascade onto event requests as changing nothing, because its filter names a field the schema does not declare.
- The unrouted requestNewEvent's items are modelled by the `resource` and `quantity` fields the schema reads; other fields an item carries are ignored, as Mongoose's strict mode drops them.
- `EventController.RegisterForEvent` is not routed. It is modelled for the order of its checks.
- Each user's role comes from the user collection, which is an input to the store and is never changed by the modelled handlers. Account creation is not modelled.

## Findings

| source | as written | input that shows it | evidently intended | confidence | as-written member | corrected member |
|---|---|---|---|---|---|---|
| server/Controllers/registrationController.js:43 | `submitFeedback` calls `Feedback.create`, but `Feedback` is never imported (lines 1-7), and the route does not authenticate, so `req.user` is absent | any request naming an existing event: the route without authentication throws reading `req.user._id`; even with a caller on the roster, the call to `Feedback.create` throws | a student on the event's roster stores one Feedback, which the event then lists | not executed | `RegistrationController.SubmitFeedbackAsWritten` | `RegistrationController.SubmitFeedback` |
| server/Controllers/resourceController.js:36-39 | the map from resource to quantity is loaded with `Map.set`, so when an event's lines name a resource twice (createEvent pushes one line per request line) only the last quantity is kept, and the final save replaces the lines with that map | an event holding lines of 3 and 4 units of one resource with 3 available, reassigned with no items: it ends with 3 available and one line of 4, so 3 of the 10 units are lost | a resource named by several lines is loaded with the sum of their quantities, so available plus assigned units are conserved | not executed | `Inventory.CollapsedLoadLosesUnits` | `Inventory.SummedConserves` |
