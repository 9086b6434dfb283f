/**
 * The feedback loop of `completeEventWithFeedback`: each entry is checked
 * for a student and a numeric rating, then stored with `Feedback.create`,
 * whose schema demands a well-formed student id, a non-empty comment and a
 * rating from 1 to 5. The walk stops at the first entry that fails either
 * test; what was created before it stays in the collection.
 */
module FeedbackRecording {
  import opened Schema

  /**
   * One entry of the `feedbacks` body. `student` is None when falsy;
   * `rating` is None when it is not a number; `comment` is "" when absent.
   */
  datatype FeedbackInput = FeedbackInput(student: Option<RawId>, rating: Option<int>, comment: string)

  /** The handler's own check: a student and a numeric rating. */
  predicate Filled(f: FeedbackInput) {
    f.student.Some? && f.rating.Some?
  }

  /** What the Feedback schema's validators accept. */
  predicate Storable(f: FeedbackInput)
    requires Filled(f)
  {
    f.student.value.WellFormed? && f.comment != "" && 1 <= f.rating.value <= 5
  }

  /** The document `Feedback.create` stores for an entry. */
  function Record(f: FeedbackInput, event: Id, now: int): (r: Feedback)
    requires Filled(f) && Storable(f)
    ensures r.student == f.student.value.id && r.rating == f.rating.value && r.comment == f.comment
    ensures r.event == event && r.createdAt == now
    ensures 1 <= r.rating <= 5 && r.comment != ""
  {
    Feedback(f.student.value.id, f.comment, f.rating.value, event, now)
  }

  datatype Recording =
    | Recorded(feedbacks: map<Id, Feedback>, nextId: Id, ids: seq<Id>)
    | FormatRefused(feedbacks: map<Id, Feedback>, nextId: Id, at: nat)   // answered 400
    | SchemaCrashed(feedbacks: map<Id, Feedback>, nextId: Id, at: nat)   // validation error, 500

  /** Where the walk stopped: the failing entry, or the end. */
  function StopOf(r: Recording, entries: seq<FeedbackInput>): nat {
    if r.Recorded? then |entries| else r.at
  }

  /** The loop from entry `i` on; `ids` are the ids saved so far, `next` the next fresh id. */
  function RecordFrom(feedbacks: map<Id, Feedback>, next: Id, ids: seq<Id>,
                      entries: seq<FeedbackInput>, i: nat, event: Id, now: int): Recording
    requires i <= |entries|
    decreases |entries| - i
  {
    if i == |entries| then Recorded(feedbacks, next, ids)
    else if !Filled(entries[i]) then FormatRefused(feedbacks, next, i)
    else if !Storable(entries[i]) then SchemaCrashed(feedbacks, next, i)
    else RecordFrom(feedbacks[next := Record(entries[i], event, now)], next + 1, ids + [next],
                    entries, i + 1, event, now)
  }

  /**
   * The walk stops at the first entry the handler refuses (400) or the
   * schema refuses (crash), after every entry before it passed both.
   */
  lemma {:induction false} RecordStops(feedbacks: map<Id, Feedback>, next: Id, ids: seq<Id>,
                                       entries: seq<FeedbackInput>, i: nat, event: Id, now: int)
    requires i <= |entries|
    decreases |entries| - i
    ensures var r := RecordFrom(feedbacks, next, ids, entries, i, event, now);
            && i <= StopOf(r, entries) <= |entries|
            && (forall k :: i <= k < StopOf(r, entries) ==> Filled(entries[k]) && Storable(entries[k]))
            && (r.FormatRefused? ==> r.at < |entries| && !Filled(entries[r.at]))
            && (r.SchemaCrashed? ==> r.at < |entries| && Filled(entries[r.at]) && !Storable(entries[r.at]))
  {
    if i < |entries| && Filled(entries[i]) && Storable(entries[i]) {
      RecordStops(feedbacks[next := Record(entries[i], event, now)], next + 1, ids + [next], entries, i + 1, event, now);
    }
  }

  /**
   * Entry `k` that passed is stored under the id `next + (k - i)`; ids are
   * consumed one per stored entry; earlier documents are untouched and
   * nothing else is added.
   */
  lemma {:induction false} RecordStore(feedbacks: map<Id, Feedback>, next: Id, ids: seq<Id>,
                                       entries: seq<FeedbackInput>, i: nat, event: Id, now: int)
    requires i <= |entries|
    requires forall key :: key in feedbacks ==> key < next
    decreases |entries| - i
    ensures var r := RecordFrom(feedbacks, next, ids, entries, i, event, now);
            var stop := StopOf(r, entries);
            && i <= stop <= |entries|
            && r.nextId == next + (stop - i)
            && (forall key :: key in r.feedbacks <==> key in feedbacks || next <= key < r.nextId)
            && (forall key :: key in feedbacks ==> r.feedbacks[key] == feedbacks[key])
            && (forall k :: i <= k < stop ==>
                  (Filled(entries[k]) && Storable(entries[k]) &&
                   r.feedbacks[next + (k - i)] == Record(entries[k], event, now)))
  {
    if i < |entries| && Filled(entries[i]) && Storable(entries[i]) {
      var f' := feedbacks[next := Record(entries[i], event, now)];
      RecordStore(f', next + 1, ids + [next], entries, i + 1, event, now);
    }
  }

  /** On success the saved ids are the fresh ids in creation order, one per entry. */
  lemma {:induction false} RecordIds(feedbacks: map<Id, Feedback>, next: Id, ids: seq<Id>,
                                     entries: seq<FeedbackInput>, i: nat, event: Id, now: int)
    requires i <= |entries|
    decreases |entries| - i
    ensures var r := RecordFrom(feedbacks, next, ids, entries, i, event, now);
            r.Recorded? ==>
              && |r.ids| == |ids| + (|entries| - i)
              && r.ids[..|ids|] == ids
              && (forall k :: |ids| <= k < |r.ids| ==> r.ids[k] == next + (k - |ids|))
  {
    if i < |entries| && Filled(entries[i]) && Storable(entries[i]) {
      var ids' := ids + [next];
      RecordIds(feedbacks[next := Record(entries[i], event, now)], next + 1, ids', entries, i + 1, event, now);
      var r := RecordFrom(feedbacks, next, ids, entries, i, event, now);
      if r.Recorded? {
        assert r.ids[..|ids'|] == ids';
        assert r.ids[..|ids|] == ids'[..|ids|];
        assert r.ids[|ids|] == ids'[|ids|];
      }
    }
  }
}
