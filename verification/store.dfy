/**
 * The in-memory document store standing in for the Mongo collections the
 * controllers read and write. One map per collection; `nextId` hands out
 * fresh ObjectIds, so ids grow in creation order and the natural order of a
 * collection (the order `find` returns documents in) is ascending id order.
 */
module Store {
  import opened Schema

  /** A value view of every collection at once. */
  datatype Tables = Tables(
    users: map<Id, Role>,
    resources: map<Id, Resource>,
    events: map<Id, Event>,
    eventRequests: map<Id, EventRequest>,
    resourceRequests: map<Id, ResourceRequest>,
    registrations: map<Id, Registration>,
    feedbacks: map<Id, Feedback>,
    nextId: Id)

  /** Every stored id was handed out before `nextId`. */
  ghost predicate IdsIssued(t: Tables) {
    && (forall k :: k in t.users ==> k < t.nextId)
    && (forall k :: k in t.resources ==> k < t.nextId)
    && (forall k :: k in t.events ==> k < t.nextId)
    && (forall k :: k in t.eventRequests ==> k < t.nextId)
    && (forall k :: k in t.resourceRequests ==> k < t.nextId)
    && (forall k :: k in t.registrations ==> k < t.nextId)
    && (forall k :: k in t.feedbacks ==> k < t.nextId)
  }

  class Db {
    var users: map<Id, Role>
    var resources: map<Id, Resource>
    var events: map<Id, Event>
    var eventRequests: map<Id, EventRequest>
    var resourceRequests: map<Id, ResourceRequest>
    var registrations: map<Id, Registration>
    var feedbacks: map<Id, Feedback>
    var nextId: Id

    function Snapshot(): Tables
      reads this
    {
      Tables(users, resources, events, eventRequests, resourceRequests, registrations, feedbacks, nextId)
    }

    ghost predicate Valid()
      reads this
    {
      IdsIssued(Snapshot())
    }

    /** An empty store whose user collection (kept by the authentication part) is `users`. */
    constructor (users: map<Id, Role>, firstId: Id)
      requires forall u :: u in users ==> u < firstId
      ensures Valid()
      ensures Snapshot() == Tables(users, map[], map[], map[], map[], map[], map[], firstId)
    {
      this.users := users;
      resources, events, eventRequests := map[], map[], map[];
      resourceRequests, registrations, feedbacks := map[], map[], map[];
      nextId := firstId;
    }

    /** The ObjectId the next `create` assigns: unused by every collection. */
    method NewId() returns (id: Id)
      requires Valid()
      modifies this`nextId
      ensures id == old(nextId) && nextId == id + 1
      ensures Valid()
      ensures id !in users && id !in resources && id !in events && id !in eventRequests
      ensures id !in resourceRequests && id !in registrations && id !in feedbacks
    {
      id := nextId;
      nextId := nextId + 1;
    }
  }

  /**
   * The ids of `keys` below `n`, ascending: the order in which a `find`
   * over a collection visits its documents.
   */
  function IdsBelow(keys: set<Id>, n: Id): (ids: seq<Id>)
    ensures forall x :: x in ids <==> x in keys && x < n
    ensures forall i, j :: 0 <= i < j < |ids| ==> ids[i] < ids[j]
  {
    if n == 0 then []
    else
      var before := IdsBelow(keys, n - 1);
      assert forall x :: x in before ==> x < n - 1;
      assert forall i :: 0 <= i < |before| ==> before[i] in before;
      before + (if n - 1 in keys then [n - 1] else [])
  }
}
