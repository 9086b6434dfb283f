/**
 * The handlers of server/Controllers/resourceController.js that change
 * state: creating a resource, and setting the quantities of resources an
 * event holds.
 */
module ResourceController {
  import opened Schema
  import opened Store
  import opened Inventory

  /**
   * `createResource`: a name, a type and both counts must be present (a
   * count of 0 is present). Nothing relates `available` to `total`, and a
   * negative `available` is stored as given.
   */
  method CreateResource(db: Db, name: string, kind: string, description: string, total: Option<int>, available: Option<int>)
    returns (r: Result<Id>)
    requires db.Valid()
    modifies db
    ensures db.Valid()
    ensures name == "" || kind == "" || total.None? || available.None? ==>
              r == Err(BadRequest(MissingFields)) && db.Snapshot() == old(db.Snapshot())
    ensures name != "" && kind != "" && total.Some? && available.Some? ==>
              && r == Ok(old(db.nextId))
              && db.Snapshot() == old(db.Snapshot()).(
                   resources := old(db.resources)[r.value := Resource(name, kind, description, total.value, available.value)],
                   nextId := r.value + 1)
    ensures r.Ok? && StockSound(old(db.resources)) ==> (StockSound(db.resources) <==> available.value >= 0)
  {
    if name == "" || kind == "" || total.None? || available.None? {
      return Err(BadRequest(MissingFields));
    }
    var id := db.NewId();
    db.resources := db.resources[id := Resource(name, kind, description, total.value, available.value)];
    assert id in db.resources && db.resources[id].available == available.value;
    r := Ok(id);
  }

  /**
   * `assignResourcesToEvent`: no role check. The event's lines are loaded
   * into a map; each item then sets the event's quantity of a resource and
   * moves the difference from the stock, each resource being saved as soon
   * as it is adjusted. The first refused item answers at once, leaving the
   * stock as the earlier items left it and the event's lines as they were.
   * A `resources` body field that is not iterable throws. When every item
   * passes, the event's lines become the map's entries, but once the
   * event's date has passed its save fails and only the stock saves stand.
   */
  method AssignResourcesToEvent(db: Db, eventId: RawId, items: Option<seq<TargetItem>>, now: int) returns (r: Result<Event>)
    requires db.Valid()
    modifies db
    ensures db.Valid()
    ensures StockSound(old(db.resources)) ==> StockSound(db.resources)
    ensures db.resources.Keys == old(db.resources).Keys
    ensures r.Ok? ==>
              && eventId.WellFormed? && eventId.id in old(db.events)
              && (NoDup(ResourcesOf(old(db.events[eventId.id]).assignedResources)) ==>
                    && NoDup(ResourcesOf(r.value.assignedResources))
                    && forall x :: x in old(db.resources) ==>
                         db.resources[x].available + Assigned(r.value.assignedResources, x) ==
                         old(db.resources[x]).available + Assigned(old(db.events[eventId.id]).assignedResources, x))
    ensures eventId.Malformed? ==> r == Err(BadRequest(InvalidId)) && db.Snapshot() == old(db.Snapshot())
    ensures eventId.WellFormed? && eventId.id !in old(db.events) ==>
              r == Err(NotFound(EventMissing)) && db.Snapshot() == old(db.Snapshot())
    ensures eventId.WellFormed? && eventId.id in old(db.events) && items.None? ==>
              r == Err(Crash) && db.Snapshot() == old(db.Snapshot())
    ensures eventId.WellFormed? && eventId.id in old(db.events) && items.Some? ==>
              var e := old(db.events[eventId.id]);
              var w := RetargetFrom(old(db.resources), CollectFrom([], e.assignedResources, 0), items.value, 0);
              && (w.RetargetStopped? ==>
                    r == Err(w.failure) && db.Snapshot() == old(db.Snapshot()).(resources := w.resources))
              && (w.Retargeted? && !Saveable(e, now) ==>
                    r == Err(Crash) && db.Snapshot() == old(db.Snapshot()).(resources := w.resources))
              && (w.Retargeted? && Saveable(e, now) ==>
                    && r == Ok(e.(assignedResources := w.entries))
                    && db.Snapshot() == old(db.Snapshot()).(
                         resources := w.resources, events := old(db.events)[eventId.id := r.value]))
  {
    if eventId.Malformed? {
      return Err(BadRequest(InvalidId));
    }
    if eventId.id !in db.events {
      return Err(NotFound(EventMissing));
    }
    var e := db.events[eventId.id];
    var entries := LoadAssignments(e.assignedResources);
    if items.None? {
      return Err(Crash);
    }
    if StockSound(db.resources) {
      RetargetKeepsStock(db.resources, entries, items.value, 0);
    }
    if NoDup(ResourcesOf(e.assignedResources)) {
      RetargetConservesAssigned(db.resources, e.assignedResources, items.value);
    }
    var outcome := ApplyTargets(db, entries, items.value);
    match outcome
    case RetargetStopped(_, _, failure) =>
      return Err(failure);
    case Retargeted(_, final) =>
      if !Saveable(e, now) {
        return Err(Crash);
      }
      var e' := e.(assignedResources := final);
      db.events := db.events[eventId.id := e'];
      return Ok(e');
  }

  /** The `forEach` that loads an event's lines into a map from resource to quantity. */
  method LoadAssignments(lines: seq<ResourceLine>) returns (entries: seq<ResourceLine>)
    ensures entries == CollectFrom([], lines, 0)
  {
    entries := [];
    var i := 0;
    while i < |lines|
      invariant i <= |lines|
      invariant CollectFrom(entries, lines, i) == CollectFrom([], lines, 0)
    {
      entries := Put(entries, lines[i].resource, lines[i].quantity);
      i := i + 1;
    }
  }

  /** The `for … of` over the items: check, adjust and save each resource in turn. */
  method ApplyTargets(db: Db, entries0: seq<ResourceLine>, items: seq<TargetItem>) returns (outcome: Retarget)
    modifies db`resources
    ensures outcome == RetargetFrom(old(db.resources), entries0, items, 0)
    ensures db.resources == outcome.resources
  {
    var entries := entries0;
    var i := 0;
    while i < |items|
      invariant i <= |items|
      invariant RetargetFrom(db.resources, entries, items, i) == RetargetFrom(old(db.resources), entries0, items, 0)
    {
      var item := items[i];
      if item.resourceId.Malformed? || item.quantity.None? || item.quantity.value <= 0 {
        return RetargetStopped(db.resources, i, BadRequest(InvalidResourceData));
      }
      var id := item.resourceId.id;
      if id !in db.resources {
        return RetargetStopped(db.resources, i, NotFound(ResourceMissing));
      }
      var difference := item.quantity.value - Lookup(entries, id);
      if difference > 0 && db.resources[id].available < difference {
        return RetargetStopped(db.resources, i, BadRequest(NotEnoughAvailability));
      }
      db.resources := db.resources[id := db.resources[id].(available := db.resources[id].available - difference)];
      entries := Put(entries, id, item.quantity.value);
      i := i + 1;
    }
    outcome := Retargeted(db.resources, entries);
  }
}
