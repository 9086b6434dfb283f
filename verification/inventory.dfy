/**
 * Resource bookkeeping: how the three batch handlers that touch stock walk
 * their lines. Each walk is a function of the stock before it and the
 * lines, processed one line at a time from index `i` on; a walk stops at
 * the first line that fails and hands back the stock as it stood then,
 * because every earlier line was already saved.
 *
 * - `ReserveFrom`: the lines of `createEvent`.
 * - `TopUpFrom`: an approved ResourceRequest in `respondToResourceRequest`.
 * - `RetargetFrom`: the lines of `assignResourcesToEvent`, where a quantity
 *   is the new target for the event rather than an increment.
 */
module Inventory {
  import opened Schema

  /** No resource has a negative number of available units. */
  predicate StockSound(resources: map<Id, Resource>) {
    forall id :: id in resources ==> resources[id].available >= 0
  }

  /** `resources` after `quantity` units of `id` are taken (a negative quantity gives units back). */
  function Withdraw(resources: map<Id, Resource>, id: Id, quantity: int): (r: map<Id, Resource>)
    requires id in resources
    ensures r.Keys == resources.Keys
  {
    resources[id := resources[id].(available := resources[id].available - quantity)]
  }

  /** The units of resource `id` that lines[lo..hi] name. */
  function Taken(lines: seq<ResourceLine>, lo: nat, hi: nat, id: Id): int
    requires lo <= hi <= |lines|
    decreases hi - lo
  {
    if lo == hi then 0
    else (if lines[lo].resource == id then lines[lo].quantity else 0) + Taken(lines, lo + 1, hi, id)
  }

  /** The resources lines name, in order. */
  function ResourcesOf(lines: seq<ResourceLine>): (ids: seq<Id>)
    ensures |ids| == |lines|
    ensures forall k :: 0 <= k < |lines| ==> ids[k] == lines[k].resource
  {
    if lines == [] then [] else [lines[0].resource] + ResourcesOf(lines[1..])
  }

  /** Units of resource `x` that an event's lines assign to it, summed over every line naming `x`. */
  function Assigned(lines: seq<ResourceLine>, x: Id): int {
    if lines == [] then 0
    else (if lines[0].resource == x then lines[0].quantity else 0) + Assigned(lines[1..], x)
  }

  // =====================================================================
  // createEvent: take every line's quantity, failing on the first line
  // whose resource is unknown or short.

  datatype Reservation =
    | Reserved(resources: map<Id, Resource>, lines: seq<ResourceLine>)
    | ReserveFailed(resources: map<Id, Resource>, at: nat)

  /** The availability test of createEvent for one line, against the stock as it stands. */
  predicate Reservable(resources: map<Id, Resource>, l: ResourceLine) {
    l.resource in resources && resources[l.resource].available >= l.quantity
  }

  /**
   * The loop of createEvent from line `i` on, with `acc` the event lines
   * built so far and `resources` the stock after the earlier lines.
   */
  function ReserveFrom(resources: map<Id, Resource>, acc: seq<ResourceLine>, input: seq<ResourceLine>, i: nat): (r: Reservation)
    requires i <= |input|
    ensures r.resources.Keys == resources.Keys
    decreases |input| - i
  {
    if i == |input| then Reserved(resources, acc)
    else if !Reservable(resources, input[i]) then ReserveFailed(resources, i)
    else ReserveFrom(Withdraw(resources, input[i].resource, input[i].quantity), acc + [input[i]], input, i + 1)
  }

  /**
   * What the walk does: each resource loses exactly the units the processed
   * lines name, the event lines are the input lines in order, and a failed
   * walk stops at a line that is not reservable in the stock it left.
   */
  lemma ReserveOutcome(resources: map<Id, Resource>, acc: seq<ResourceLine>, input: seq<ResourceLine>, i: nat)
    requires i <= |input|
    ensures var r := ReserveFrom(resources, acc, input, i);
            var stop := if r.Reserved? then |input| else r.at;
            && i <= stop <= |input|
            && (forall id :: id in resources ==>
                  r.resources[id] == resources[id].(available := resources[id].available - Taken(input, i, stop, id)))
            && (r.Reserved? ==> r.lines == acc + input[i..])
            && (r.ReserveFailed? ==> r.at < |input| && !Reservable(r.resources, input[r.at]))
  {
    ReserveStops(resources, acc, input, i);
    ReserveTakes(resources, acc, input, i);
  }

  /** Where the walk stops, and the lines it keeps. */
  lemma {:induction false} ReserveStops(resources: map<Id, Resource>, acc: seq<ResourceLine>, input: seq<ResourceLine>, i: nat)
    requires i <= |input|
    ensures var r := ReserveFrom(resources, acc, input, i);
            && (r.Reserved? ==> r.lines == acc + input[i..])
            && (r.ReserveFailed? ==> i <= r.at < |input| && !Reservable(r.resources, input[r.at]))
    decreases |input| - i
  {
    if i < |input| && Reservable(resources, input[i]) {
      ReserveStops(Withdraw(resources, input[i].resource, input[i].quantity), acc + [input[i]], input, i + 1);
      assert acc + [input[i]] + input[i + 1..] == acc + input[i..];
    }
  }

  /** Each resource loses the units the lines before the stop name. */
  lemma {:induction false} ReserveTakes(resources: map<Id, Resource>, acc: seq<ResourceLine>, input: seq<ResourceLine>, i: nat)
    requires i <= |input|
    ensures var r := ReserveFrom(resources, acc, input, i);
            var stop := if r.Reserved? then |input| else r.at;
            && i <= stop <= |input|
            && forall id :: id in resources ==>
                 r.resources[id] == resources[id].(available := resources[id].available - Taken(input, i, stop, id))
    decreases |input| - i
  {
    if i < |input| && Reservable(resources, input[i]) {
      ReserveTakes(Withdraw(resources, input[i].resource, input[i].quantity), acc + [input[i]], input, i + 1);
    }
  }

  /**
   * The walk succeeds exactly when every line's resource exists and the
   * units named for it by that line and the earlier ones fit in what was
   * available before the walk.
   */
  lemma {:induction false} ReserveSucceedsIff(resources: map<Id, Resource>, acc: seq<ResourceLine>, input: seq<ResourceLine>, i: nat)
    requires i <= |input|
    ensures ReserveFrom(resources, acc, input, i).Reserved? <==>
            forall k :: i <= k < |input| ==>
              input[k].resource in resources && Taken(input, i, k + 1, input[k].resource) <= resources[input[k].resource].available
    decreases |input| - i
  {
    if i < |input| {
      assert Taken(input, i + 1, i + 1, input[i].resource) == 0;
      if Reservable(resources, input[i]) {
        var next := Withdraw(resources, input[i].resource, input[i].quantity);
        ReserveSucceedsIff(next, acc + [input[i]], input, i + 1);
        forall k | i < k < |input|
          ensures (input[k].resource in next && Taken(input, i + 1, k + 1, input[k].resource) <= next[input[k].resource].available)
              <==> (input[k].resource in resources && Taken(input, i, k + 1, input[k].resource) <= resources[input[k].resource].available)
        {
        }
      }
    }
  }

  /** A failed walk leaves exactly the stock a walk over the lines before the failing one leaves. */
  lemma {:induction false} ReserveFailurePrefix(resources: map<Id, Resource>, acc: seq<ResourceLine>, input: seq<ResourceLine>, i: nat)
    requires i <= |input|
    ensures var r := ReserveFrom(resources, acc, input, i);
            r.ReserveFailed? ==>
              i <= r.at < |input| && ReserveFrom(resources, acc, input[..r.at], i) == Reserved(r.resources, acc + input[i..r.at])
    decreases |input| - i
  {
    var r := ReserveFrom(resources, acc, input, i);
    if i < |input| && Reservable(resources, input[i]) {
      var next := Withdraw(resources, input[i].resource, input[i].quantity);
      ReserveFailurePrefix(next, acc + [input[i]], input, i + 1);
      ReserveOutcome(resources, acc, input, i);
      if r.ReserveFailed? {
        assert input[..r.at][i] == input[i];
        assert acc + [input[i]] + input[i + 1..r.at] == acc + input[i..r.at];
      }
    }
  }

  /** No walk drives an available count below zero. */
  lemma {:induction false} ReserveKeepsStock(resources: map<Id, Resource>, acc: seq<ResourceLine>, input: seq<ResourceLine>, i: nat)
    requires i <= |input|
    requires StockSound(resources)
    ensures StockSound(ReserveFrom(resources, acc, input, i).resources)
    decreases |input| - i
  {
    if i < |input| && Reservable(resources, input[i]) {
      ReserveKeepsStock(Withdraw(resources, input[i].resource, input[i].quantity), acc + [input[i]], input, i + 1);
    }
  }

  // =====================================================================
  // respondToResourceRequest (approved): take each line and add it to the
  // event, onto the first line for the same resource or as a new line.

  /** Add `item` to an event's lines: increment the first line for its resource, or append it. */
  function Merge(lines: seq<ResourceLine>, item: ResourceLine): seq<ResourceLine> {
    if lines == [] then [item]
    else if lines[0].resource == item.resource then [lines[0].(quantity := lines[0].quantity + item.quantity)] + lines[1..]
    else [lines[0]] + Merge(lines[1..], item)
  }

  lemma {:induction false} MergeAssigned(lines: seq<ResourceLine>, item: ResourceLine, x: Id)
    ensures Assigned(Merge(lines, item), x) == Assigned(lines, x) + (if item.resource == x then item.quantity else 0)
  {
    if lines != [] && lines[0].resource != item.resource {
      MergeAssigned(lines[1..], item, x);
      assert Merge(lines, item)[1..] == Merge(lines[1..], item);
    } else if lines != [] {
      assert Merge(lines, item)[1..] == lines[1..];
    }
  }

  /** Merging keeps every existing line where it was and appends only a resource not yet named. */
  lemma {:induction false} MergeResources(lines: seq<ResourceLine>, item: ResourceLine)
    ensures ResourcesOf(Merge(lines, item)) ==
            if item.resource in ResourcesOf(lines) then ResourcesOf(lines) else ResourcesOf(lines) + [item.resource]
  {
    if lines != [] && lines[0].resource != item.resource {
      MergeResources(lines[1..], item);
      assert ResourcesOf(lines) == [lines[0].resource] + ResourcesOf(lines[1..]);
    }
  }

  datatype TopUp =
    | ToppedUp(resources: map<Id, Resource>, lines: seq<ResourceLine>)
    | TopUpRefused(resources: map<Id, Resource>, at: nat)
    | TopUpCrashed(resources: map<Id, Resource>, at: nat)

  /**
   * The loop of respondToResourceRequest from item `i` on, with `lines` the
   * event's lines so far. An item whose resource no longer exists crashes
   * (its populated reference is null); a short one is refused.
   */
  function TopUpFrom(resources: map<Id, Resource>, lines: seq<ResourceLine>, items: seq<ResourceLine>, i: nat): (r: TopUp)
    requires i <= |items|
    ensures r.resources.Keys == resources.Keys
    decreases |items| - i
  {
    if i == |items| then ToppedUp(resources, lines)
    else if items[i].resource !in resources then TopUpCrashed(resources, i)
    else if resources[items[i].resource].available < items[i].quantity then TopUpRefused(resources, i)
    else TopUpFrom(Withdraw(resources, items[i].resource, items[i].quantity), Merge(lines, items[i]), items, i + 1)
  }

  /**
   * The stock an approval leaves: each resource loses the units the
   * processed items name, and a stop is at an item that was missing or short.
   */
  lemma {:induction false} TopUpStock(resources: map<Id, Resource>, lines: seq<ResourceLine>, items: seq<ResourceLine>, i: nat)
    requires i <= |items|
    ensures var r := TopUpFrom(resources, lines, items, i);
            var stop := if r.ToppedUp? then |items| else r.at;
            && i <= stop <= |items|
            && (forall id :: id in resources ==>
                  r.resources[id] == resources[id].(available := resources[id].available - Taken(items, i, stop, id)))
            && (r.TopUpCrashed? ==> r.at < |items| && items[r.at].resource !in resources)
            && (r.TopUpRefused? ==> r.at < |items| && items[r.at].resource in resources &&
                                    r.resources[items[r.at].resource].available < items[r.at].quantity)
    decreases |items| - i
  {
    if i < |items| && items[i].resource in resources && resources[items[i].resource].available >= items[i].quantity {
      TopUpStock(Withdraw(resources, items[i].resource, items[i].quantity), Merge(lines, items[i]), items, i + 1);
    }
  }

  /**
   * The lines an approval leaves: the event's assignment of each resource
   * grows by the units the items name, existing lines keep their place, and
   * no resource gets a second line.
   */
  lemma {:induction false} TopUpLines(resources: map<Id, Resource>, lines: seq<ResourceLine>, items: seq<ResourceLine>, i: nat)
    requires i <= |items|
    ensures var r := TopUpFrom(resources, lines, items, i);
            r.ToppedUp? ==>
              && (forall x :: Assigned(r.lines, x) == Assigned(lines, x) + Taken(items, i, |items|, x))
              && ResourcesOf(lines) <= ResourcesOf(r.lines)
              && (NoDup(ResourcesOf(lines)) ==> NoDup(ResourcesOf(r.lines)))
    decreases |items| - i
  {
    if i < |items| && items[i].resource in resources && resources[items[i].resource].available >= items[i].quantity {
      var merged := Merge(lines, items[i]);
      TopUpLines(Withdraw(resources, items[i].resource, items[i].quantity), merged, items, i + 1);
      forall x ensures Assigned(merged, x) == Assigned(lines, x) + (if items[i].resource == x then items[i].quantity else 0) {
        MergeAssigned(lines, items[i], x);
      }
      MergeResources(lines, items[i]);
    }
  }

  /**
   * Per resource, the units available plus the units the event holds are the
   * same before and after a successful approval.
   */
  lemma TopUpConserves(resources: map<Id, Resource>, lines: seq<ResourceLine>, items: seq<ResourceLine>)
    ensures var r := TopUpFrom(resources, lines, items, 0);
            r.ToppedUp? ==>
              forall x :: x in resources ==>
                r.resources[x].available + Assigned(r.lines, x) == resources[x].available + Assigned(lines, x)
  {
    TopUpStock(resources, lines, items, 0);
    TopUpLines(resources, lines, items, 0);
  }

  /** A stopped approval leaves exactly the stock of an approval of the items before the stop. */
  lemma {:induction false} TopUpStopPrefix(resources: map<Id, Resource>, lines: seq<ResourceLine>, items: seq<ResourceLine>, i: nat)
    requires i <= |items|
    ensures var r := TopUpFrom(resources, lines, items, i);
            !r.ToppedUp? ==>
              i <= r.at < |items| &&
              TopUpFrom(resources, lines, items[..r.at], i).ToppedUp? &&
              TopUpFrom(resources, lines, items[..r.at], i).resources == r.resources
    decreases |items| - i
  {
    var r := TopUpFrom(resources, lines, items, i);
    if i < |items| && items[i].resource in resources && resources[items[i].resource].available >= items[i].quantity {
      TopUpStopPrefix(Withdraw(resources, items[i].resource, items[i].quantity), Merge(lines, items[i]), items, i + 1);
      TopUpStock(resources, lines, items, i);
      if !r.ToppedUp? {
        assert items[..r.at][i] == items[i];
      }
    }
  }

  lemma {:induction false} TopUpKeepsStock(resources: map<Id, Resource>, lines: seq<ResourceLine>, items: seq<ResourceLine>, i: nat)
    requires i <= |items|
    requires StockSound(resources)
    ensures StockSound(TopUpFrom(resources, lines, items, i).resources)
    decreases |items| - i
  {
    if i < |items| && items[i].resource in resources && resources[items[i].resource].available >= items[i].quantity {
      TopUpKeepsStock(Withdraw(resources, items[i].resource, items[i].quantity), Merge(lines, items[i]), items, i + 1);
    }
  }

  // =====================================================================
  // assignResourcesToEvent: the event's lines as an insertion-ordered map
  // from resource to quantity; each item sets a new target quantity and
  // moves only the difference between target and previous assignment.

  /** The quantity the map holds for `k`, or 0 when it holds none. */
  function Lookup(entries: seq<ResourceLine>, k: Id): int {
    if entries == [] then 0
    else if entries[0].resource == k then entries[0].quantity
    else Lookup(entries[1..], k)
  }

  /** `Map.set`: overwrite the quantity of `k` in place, or append a new entry. */
  function Put(entries: seq<ResourceLine>, k: Id, v: int): seq<ResourceLine> {
    if entries == [] then [ResourceLine(k, v)]
    else if entries[0].resource == k then [ResourceLine(k, v)] + entries[1..]
    else [entries[0]] + Put(entries[1..], k, v)
  }

  lemma {:induction false} PutLookup(entries: seq<ResourceLine>, k: Id, v: int, x: Id)
    ensures Lookup(Put(entries, k, v), x) == if x == k then v else Lookup(entries, x)
  {
    if entries != [] && entries[0].resource != k {
      PutLookup(entries[1..], k, v, x);
      assert Put(entries, k, v)[1..] == Put(entries[1..], k, v);
    } else if entries != [] {
      assert Put(entries, k, v)[1..] == entries[1..];
    }
  }

  lemma {:induction false} PutResources(entries: seq<ResourceLine>, k: Id, v: int)
    ensures ResourcesOf(Put(entries, k, v)) ==
            if k in ResourcesOf(entries) then ResourcesOf(entries) else ResourcesOf(entries) + [k]
  {
    if entries != [] && entries[0].resource != k {
      PutResources(entries[1..], k, v);
      assert ResourcesOf(entries) == [entries[0].resource] + ResourcesOf(entries[1..]);
      assert Put(entries, k, v)[1..] == Put(entries[1..], k, v);
    } else if entries != [] {
      assert Put(entries, k, v)[1..] == entries[1..];
    }
  }

  /** The `forEach` that loads the event's lines lines[i..] into the map. */
  function CollectFrom(entries: seq<ResourceLine>, lines: seq<ResourceLine>, i: nat): seq<ResourceLine>
    requires i <= |lines|
    decreases |lines| - i
  {
    if i == |lines| then entries else CollectFrom(Put(entries, lines[i].resource, lines[i].quantity), lines, i + 1)
  }

  /**
   * The map names each resource once, and exactly the resources the lines
   * name; a resource the lines name keeps the quantity of the last line
   * naming it (`Map.set` overwrites), and any other keeps its quantity.
   */
  lemma CollectShape(entries: seq<ResourceLine>, lines: seq<ResourceLine>, i: nat)
    requires i <= |lines|
    requires NoDup(ResourcesOf(entries))
    ensures NoDup(ResourcesOf(CollectFrom(entries, lines, i)))
    ensures forall x :: x in ResourcesOf(CollectFrom(entries, lines, i)) <==>
                        x in ResourcesOf(entries) || x in ResourcesOf(lines[i..])
    ensures forall k :: i <= k < |lines| && (forall j :: k < j < |lines| ==> lines[j].resource != lines[k].resource) ==>
                        Lookup(CollectFrom(entries, lines, i), lines[k].resource) == lines[k].quantity
    ensures forall x :: (forall k :: i <= k < |lines| ==> lines[k].resource != x) ==>
                        Lookup(CollectFrom(entries, lines, i), x) == Lookup(entries, x)
  {
    CollectKeys(entries, lines, i);
    CollectValues(entries, lines, i);
  }

  /** The resources the map names: each once, and exactly those of `entries` and of the lines. */
  lemma {:induction false} CollectKeys(entries: seq<ResourceLine>, lines: seq<ResourceLine>, i: nat)
    requires i <= |lines|
    requires NoDup(ResourcesOf(entries))
    ensures NoDup(ResourcesOf(CollectFrom(entries, lines, i)))
    ensures forall x :: x in ResourcesOf(CollectFrom(entries, lines, i)) <==>
                        x in ResourcesOf(entries) || x in ResourcesOf(lines[i..])
    decreases |lines| - i
  {
    if i < |lines| {
      var e := Put(entries, lines[i].resource, lines[i].quantity);
      PutResources(entries, lines[i].resource, lines[i].quantity);
      CollectKeys(e, lines, i + 1);
      assert ResourcesOf(lines[i..]) == [lines[i].resource] + ResourcesOf(lines[i + 1..]) by {
        assert lines[i..][1..] == lines[i + 1..];
      }
    }
  }

  /** The quantities the map holds: the last line's for a resource the lines name, the old one otherwise. */
  lemma {:induction false} CollectValues(entries: seq<ResourceLine>, lines: seq<ResourceLine>, i: nat)
    requires i <= |lines|
    ensures forall k :: i <= k < |lines| && (forall j :: k < j < |lines| ==> lines[j].resource != lines[k].resource) ==>
                        Lookup(CollectFrom(entries, lines, i), lines[k].resource) == lines[k].quantity
    ensures forall x :: (forall k :: i <= k < |lines| ==> lines[k].resource != x) ==>
                        Lookup(CollectFrom(entries, lines, i), x) == Lookup(entries, x)
    decreases |lines| - i
  {
    if i < |lines| {
      var e := Put(entries, lines[i].resource, lines[i].quantity);
      var c := CollectFrom(entries, lines, i);
      assert c == CollectFrom(e, lines, i + 1);
      CollectValues(e, lines, i + 1);
      forall k | i <= k < |lines| && (forall j :: k < j < |lines| ==> lines[j].resource != lines[k].resource)
        ensures Lookup(c, lines[k].resource) == lines[k].quantity
      {
        if k == i {
          PutLookup(entries, lines[i].resource, lines[i].quantity, lines[i].resource);
        }
      }
      forall x | (forall k :: i <= k < |lines| ==> lines[k].resource != x)
        ensures Lookup(c, x) == Lookup(entries, x)
      {
        PutLookup(entries, lines[i].resource, lines[i].quantity, x);
      }
    }
  }

  /** Units of `x` assigned by lines that do not name it. */
  lemma {:induction false} AssignedAbsent(lines: seq<ResourceLine>, x: Id)
    requires x !in ResourcesOf(lines)
    ensures Assigned(lines, x) == 0
  {
    if lines != [] {
      assert ResourcesOf(lines) == [lines[0].resource] + ResourcesOf(lines[1..]);
      AssignedAbsent(lines[1..], x);
    }
  }

  /** In lines naming each resource once, the map's quantity of `x` is what the lines assign to it. */
  lemma {:induction false} LookupIsAssigned(lines: seq<ResourceLine>, x: Id)
    requires NoDup(ResourcesOf(lines))
    ensures Lookup(lines, x) == Assigned(lines, x)
  {
    if lines != [] {
      var ids := ResourcesOf(lines);
      assert ids == [lines[0].resource] + ResourcesOf(lines[1..]);
      LookupIsAssigned(lines[1..], x);
      if lines[0].resource == x {
        AssignedAbsent(lines[1..], x);
      }
    }
  }

  /** `Put` of a resource the map does not hold appends its entry. */
  lemma {:induction false} PutNew(entries: seq<ResourceLine>, k: Id, v: int)
    requires k !in ResourcesOf(entries)
    ensures Put(entries, k, v) == entries + [ResourceLine(k, v)]
  {
    if entries != [] {
      assert ResourcesOf(entries) == [entries[0].resource] + ResourcesOf(entries[1..]);
      PutNew(entries[1..], k, v);
      assert entries == [entries[0]] + entries[1..];
    }
  }

  /** Lines naming each resource once are loaded into the map as they are. */
  lemma {:induction false} CollectDistinct(lines: seq<ResourceLine>, i: nat)
    requires i <= |lines| && NoDup(ResourcesOf(lines))
    ensures CollectFrom(lines[..i], lines, i) == lines
    decreases |lines| - i
  {
    if i < |lines| {
      var ids := ResourcesOf(lines);
      forall k | 0 <= k < i
        ensures ResourcesOf(lines[..i])[k] != lines[i].resource
      {
        assert ids[k] == lines[k].resource && ids[i] == lines[i].resource;
      }
      PutNew(lines[..i], lines[i].resource, lines[i].quantity);
      assert lines[..i] + [ResourceLine(lines[i].resource, lines[i].quantity)] == lines[..i + 1];
      CollectDistinct(lines, i + 1);
    } else {
      assert lines[..i] == lines;
    }
  }

  /** One item of assignResourcesToEvent; `quantity` is absent when it is not a number. */
  datatype TargetItem = TargetItem(resourceId: RawId, quantity: Option<int>)

  /** Whether item k of items names resource `x`. */
  predicate Names(items: seq<TargetItem>, k: nat, x: Id)
    requires k < |items|
  {
    items[k].resourceId == WellFormed(x)
  }

  datatype Retarget =
    | Retargeted(resources: map<Id, Resource>, entries: seq<ResourceLine>)
    | RetargetStopped(resources: map<Id, Resource>, at: nat, failure: Failure)

  /** Whether an item passes every check of the loop, given the stock and the map so far. */
  predicate Accepts(resources: map<Id, Resource>, entries: seq<ResourceLine>, item: TargetItem) {
    && item.resourceId.WellFormed?
    && item.quantity.Some? && item.quantity.value > 0
    && item.resourceId.id in resources
    && var difference := item.quantity.value - Lookup(entries, item.resourceId.id);
       !(difference > 0 && resources[item.resourceId.id].available < difference)
  }

  /** The answer to the first check an item fails, in the order the loop makes them. */
  function Refusal(resources: map<Id, Resource>, entries: seq<ResourceLine>, item: TargetItem): Failure {
    if item.resourceId.Malformed? || item.quantity.None? || item.quantity.value <= 0 then BadRequest(InvalidResourceData)
    else if item.resourceId.id !in resources then NotFound(ResourceMissing)
    else BadRequest(NotEnoughAvailability)
  }

  /** The loop of assignResourcesToEvent from item `i` on, with `entries` the map so far. */
  function RetargetFrom(resources: map<Id, Resource>, entries: seq<ResourceLine>, items: seq<TargetItem>, i: nat): (r: Retarget)
    requires i <= |items|
    ensures r.resources.Keys == resources.Keys
    decreases |items| - i
  {
    if i == |items| then Retargeted(resources, entries)
    else if !Accepts(resources, entries, items[i]) then RetargetStopped(resources, i, Refusal(resources, entries, items[i]))
    else
      var id, q := items[i].resourceId.id, items[i].quantity.value;
      RetargetFrom(Withdraw(resources, id, q - Lookup(entries, id)), Put(entries, id, q), items, i + 1)
  }

  /** The facts about one accepted item that the lemmas below step through. */
  lemma StepFacts(entries: seq<ResourceLine>, id: Id, v: int)
    ensures forall x :: Lookup(Put(entries, id, v), x) == if x == id then v else Lookup(entries, x)
    ensures ResourcesOf(Put(entries, id, v)) ==
            if id in ResourcesOf(entries) then ResourcesOf(entries) else ResourcesOf(entries) + [id]
  {
    forall x ensures Lookup(Put(entries, id, v), x) == if x == id then v else Lookup(entries, x) {
      PutLookup(entries, id, v, x);
    }
    PutResources(entries, id, v);
  }

  /**
   * On success, per resource, the available units plus the event's quantity
   * are what they were before the reassignment.
   */
  lemma {:induction false} RetargetConserves(resources: map<Id, Resource>, entries: seq<ResourceLine>, items: seq<TargetItem>, i: nat)
    requires i <= |items|
    ensures var r := RetargetFrom(resources, entries, items, i);
            r.Retargeted? ==> forall x :: x in resources ==>
              r.resources[x].available + Lookup(r.entries, x) == resources[x].available + Lookup(entries, x)
    decreases |items| - i
  {
    if i < |items| && Accepts(resources, entries, items[i]) {
      var id, q := items[i].resourceId.id, items[i].quantity.value;
      var difference := q - Lookup(entries, id);
      RetargetConserves(Withdraw(resources, id, difference), Put(entries, id, q), items, i + 1);
      StepFacts(entries, id, q);
    }
  }

  /** On success, a resource no item names keeps its stock and the event's quantity of it. */
  lemma {:induction false} RetargetUntouched(resources: map<Id, Resource>, entries: seq<ResourceLine>, items: seq<TargetItem>, i: nat, x: Id)
    requires i <= |items|
    requires forall k :: i <= k < |items| ==> !Names(items, k, x)
    ensures var r := RetargetFrom(resources, entries, items, i);
            r.Retargeted? ==> Lookup(r.entries, x) == Lookup(entries, x) && (x in resources ==> r.resources[x] == resources[x])
    decreases |items| - i
  {
    if i < |items| && Accepts(resources, entries, items[i]) {
      var id, q := items[i].resourceId.id, items[i].quantity.value;
      assert !Names(items, i, x);
      RetargetUntouched(Withdraw(resources, id, q - Lookup(entries, id)), Put(entries, id, q), items, i + 1, x);
      StepFacts(entries, id, q);
    }
  }

  /**
   * On success, the entries the event had keep their place, new resources
   * come after them, and no resource gets a second entry.
   */
  lemma {:induction false} RetargetShape(resources: map<Id, Resource>, entries: seq<ResourceLine>, items: seq<TargetItem>, i: nat)
    requires i <= |items|
    ensures var r := RetargetFrom(resources, entries, items, i);
            r.Retargeted? ==>
              && ResourcesOf(entries) <= ResourcesOf(r.entries)
              && (NoDup(ResourcesOf(entries)) ==> NoDup(ResourcesOf(r.entries)))
              && forall x :: x in ResourcesOf(r.entries) ==>
                   x in ResourcesOf(entries) || exists k :: i <= k < |items| && Names(items, k, x)
    decreases |items| - i
  {
    var r := RetargetFrom(resources, entries, items, i);
    if i < |items| && Accepts(resources, entries, items[i]) {
      var id, q := items[i].resourceId.id, items[i].quantity.value;
      var resources', entries' := Withdraw(resources, id, q - Lookup(entries, id)), Put(entries, id, q);
      assert r == RetargetFrom(resources', entries', items, i + 1);
      RetargetShape(resources', entries', items, i + 1);
      PutResources(entries, id, q);
      if r.Retargeted? {
        forall x | x in ResourcesOf(r.entries)
          ensures x in ResourcesOf(entries) || exists k :: i <= k < |items| && Names(items, k, x)
        {
          if x !in ResourcesOf(entries) {
            if x == id {
              assert Names(items, i, x);
            } else {
              assert x !in ResourcesOf(entries');
            }
          }
        }
      }
    }
  }

  /** An accepted item is the first step of the walk over any prefix that holds it. */
  lemma RetargetPrefixStep(resources: map<Id, Resource>, entries: seq<ResourceLine>, items: seq<TargetItem>, n: nat, i: nat)
    requires i < n <= |items| && Accepts(resources, entries, items[i])
    ensures var id, q := items[i].resourceId.id, items[i].quantity.value;
            RetargetFrom(resources, entries, items[..n], i) ==
            RetargetFrom(Withdraw(resources, id, q - Lookup(entries, id)), Put(entries, id, q), items[..n], i + 1)
  {
    assert items[..n][i] == items[i];
  }

  /**
   * A stopped reassignment leaves exactly the stock of a reassignment by the
   * items before the stop, and answers with the first check the stopping
   * item fails against the map that reassignment built.
   */
  lemma {:induction false} RetargetStopPrefix(resources: map<Id, Resource>, entries: seq<ResourceLine>, items: seq<TargetItem>, i: nat)
    requires i <= |items|
    ensures var r := RetargetFrom(resources, entries, items, i);
            r.RetargetStopped? ==>
              && i <= r.at < |items|
              && var p := RetargetFrom(resources, entries, items[..r.at], i);
                 && p.Retargeted? && p.resources == r.resources
                 && !Accepts(r.resources, p.entries, items[r.at])
                 && r.failure == Refusal(r.resources, p.entries, items[r.at])
    decreases |items| - i
  {
    if i < |items| {
      var r := RetargetFrom(resources, entries, items, i);
      if Accepts(resources, entries, items[i]) {
        var id, q := items[i].resourceId.id, items[i].quantity.value;
        var resources', entries' := Withdraw(resources, id, q - Lookup(entries, id)), Put(entries, id, q);
        RetargetStopPrefix(resources', entries', items, i + 1);
        assert r == RetargetFrom(resources', entries', items, i + 1);
        if r.RetargetStopped? {
          RetargetPrefixStep(resources, entries, items, r.at, i);
        }
      } else {
        assert RetargetFrom(resources, entries, items[..i], i) == Retargeted(resources, entries);
      }
    }
  }

  lemma {:induction false} RetargetKeepsStock(resources: map<Id, Resource>, entries: seq<ResourceLine>, items: seq<TargetItem>, i: nat)
    requires i <= |items|
    requires StockSound(resources)
    ensures StockSound(RetargetFrom(resources, entries, items, i).resources)
    decreases |items| - i
  {
    if i < |items| && Accepts(resources, entries, items[i]) {
      var id, q := items[i].resourceId.id, items[i].quantity.value;
      RetargetKeepsStock(Withdraw(resources, id, q - Lookup(entries, id)), Put(entries, id, q), items, i + 1);
    }
  }

  /**
   * On success, when the event's lines name each resource once, per
   * resource the available units plus the units the event's lines assign
   * are what they were before, and the new lines name each resource once.
   */
  lemma RetargetConservesAssigned(resources: map<Id, Resource>, lines: seq<ResourceLine>, items: seq<TargetItem>)
    requires NoDup(ResourcesOf(lines))
    ensures var r := RetargetFrom(resources, CollectFrom([], lines, 0), items, 0);
            r.Retargeted? ==>
              && NoDup(ResourcesOf(r.entries))
              && forall x :: x in resources ==>
                   r.resources[x].available + Assigned(r.entries, x) == resources[x].available + Assigned(lines, x)
  {
    assert lines[..0] == [];
    CollectDistinct(lines, 0);
    var r := RetargetFrom(resources, lines, items, 0);
    RetargetConserves(resources, lines, items, 0);
    RetargetShape(resources, lines, items, 0);
    if r.Retargeted? {
      forall x | x in resources
        ensures r.resources[x].available + Assigned(r.entries, x) == resources[x].available + Assigned(lines, x)
      {
        LookupIsAssigned(lines, x);
        LookupIsAssigned(r.entries, x);
      }
    }
  }

  /**
   * Loading lines that name a resource twice keeps only the last quantity,
   * so a reassignment with no items at all drops units: 3 available and
   * lines of 3 and 4 units (10 in all) become 3 available and one line of
   * 4 units (7 in all).
   */
  lemma CollapsedLoadLosesUnits()
    ensures var resources := map[0 := Resource("projector", "equipment", "", 10, 3)];
            var lines := [ResourceLine(0, 3), ResourceLine(0, 4)];
            var r := RetargetFrom(resources, CollectFrom([], lines, 0), [], 0);
            && r.Retargeted?
            && resources[0].available + Assigned(lines, 0) == 10
            && r.resources[0].available + Assigned(r.entries, 0) == 7
  {
    var lines := [ResourceLine(0, 3), ResourceLine(0, 4)];
    assert CollectFrom([], lines, 0) == [ResourceLine(0, 4)] by {
      assert Put([], 0, 3) == [ResourceLine(0, 3)];
      assert Put([ResourceLine(0, 3)], 0, 4) == [ResourceLine(0, 4)];
    }
    assert Assigned(lines, 0) == 3 + Assigned(lines[1..], 0);
    assert lines[1..][1..] == [];
  }

  /** The load as evidently intended: a resource named by several lines gets their sum. */
  function CollectSummed(entries: seq<ResourceLine>, lines: seq<ResourceLine>, i: nat): seq<ResourceLine>
    requires i <= |lines|
    decreases |lines| - i
  {
    if i == |lines| then entries
    else
      var id := lines[i].resource;
      CollectSummed(Put(entries, id, Lookup(entries, id) + lines[i].quantity), lines, i + 1)
  }

  /** The summed map holds, per resource, its quantity before plus what lines[i..] assign. */
  lemma {:induction false} SummedLookup(entries: seq<ResourceLine>, lines: seq<ResourceLine>, i: nat, x: Id)
    requires i <= |lines|
    ensures Lookup(CollectSummed(entries, lines, i), x) == Lookup(entries, x) + Assigned(lines[i..], x)
    decreases |lines| - i
  {
    if i < |lines| {
      var id := lines[i].resource;
      var e := Put(entries, id, Lookup(entries, id) + lines[i].quantity);
      SummedLookup(e, lines, i + 1, x);
      PutLookup(entries, id, Lookup(entries, id) + lines[i].quantity, x);
      assert lines[i..][1..] == lines[i + 1..];
    } else {
      assert lines[i..] == [];
    }
  }

  /** The summed map names each resource once. */
  lemma {:induction false} SummedDistinct(entries: seq<ResourceLine>, lines: seq<ResourceLine>, i: nat)
    requires i <= |lines| && NoDup(ResourcesOf(entries))
    ensures NoDup(ResourcesOf(CollectSummed(entries, lines, i)))
    decreases |lines| - i
  {
    if i < |lines| {
      var id := lines[i].resource;
      PutResources(entries, id, Lookup(entries, id) + lines[i].quantity);
      SummedDistinct(Put(entries, id, Lookup(entries, id) + lines[i].quantity), lines, i + 1);
    }
  }

  /**
   * With the summed load, a successful reassignment conserves, per
   * resource, the available units plus the units the event's lines
   * assign, whatever lines the event had.
   */
  lemma SummedConserves(resources: map<Id, Resource>, lines: seq<ResourceLine>, items: seq<TargetItem>)
    ensures var r := RetargetFrom(resources, CollectSummed([], lines, 0), items, 0);
            r.Retargeted? ==> forall x :: x in resources ==>
              r.resources[x].available + Assigned(r.entries, x) == resources[x].available + Assigned(lines, x)
  {
    var entries := CollectSummed([], lines, 0);
    var r := RetargetFrom(resources, entries, items, 0);
    assert ResourcesOf([]) == [];
    SummedDistinct([], lines, 0);
    RetargetConserves(resources, entries, items, 0);
    RetargetShape(resources, entries, items, 0);
    if r.Retargeted? {
      forall x | x in resources
        ensures r.resources[x].available + Assigned(r.entries, x) == resources[x].available + Assigned(lines, x)
      {
        SummedLookup([], lines, 0, x);
        assert lines[0..] == lines;
        LookupIsAssigned(r.entries, x);
      }
    }
  }
}
