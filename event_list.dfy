/** The event list: its local copy of the events, the id being deleted,
    the delete flow and the rule that disables a delete button. */
module EventList {
  import opened Common
  import opened Schema

  /** How the awaited `deleteEvent(id)` ended. */
  datatype DeleteOutcome = Deleted | NotDeleted | Threw

  /** `events.filter(event => event.id !== id)`. */
  function WithoutId(events: seq<EventClient>, id: string): (r: seq<EventClient>)
    ensures forall i :: 0 <= i < |r| ==> r[i].id != id
    ensures forall e :: multiset(r)[e] == if e.id == id then 0 else multiset(events)[e]
    decreases |events|
  {
    if events == [] then []
    else
      var rest := WithoutId(events[1..], id);
      assert events == [events[0]] + events[1..];
      if events[0].id != id then [events[0]] + rest else rest
  }

  /** The events that stay keep their order. */
  lemma {:induction false} WithoutIdIsSubsequence(events: seq<EventClient>, id: string)
    ensures IsSubsequence(WithoutId(events, id), events)
    decreases |events|
  {
    if events != [] {
      WithoutIdIsSubsequence(events[1..], id);
      var rest := WithoutId(events[1..], id);
      if events[0].id != id {
        assert ([events[0]] + rest)[1..] == rest;
      }
    }
  }

  /** Removing an id that no event carries changes nothing. */
  lemma {:induction false} WithoutAbsentId(events: seq<EventClient>, id: string)
    requires forall i :: 0 <= i < |events| ==> events[i].id != id
    ensures WithoutId(events, id) == events
    decreases |events|
  {
    if events != [] {
      assert forall i :: 0 <= i < |events[1..]| ==> events[1..][i] == events[i + 1];
      WithoutAbsentId(events[1..], id);
      assert [events[0]] + events[1..] == events;
    }
  }

  /** Removing the same id twice is removing it once. */
  lemma WithoutIdIdempotent(events: seq<EventClient>, id: string)
    ensures WithoutId(WithoutId(events, id), id) == WithoutId(events, id)
  {
    WithoutAbsentId(WithoutId(events, id), id);
  }

  class ListState {
    var events: seq<EventClient>
    var deletingId: Option<string>

    /** The list starts as `initialEvents`, with nothing being deleted. */
    constructor(initialEvents: seq<EventClient>)
      ensures events == initialEvents && deletingId == None
    {
      events := initialEvents;
      deletingId := None;
    }

    /** The button of `eventId` is disabled while that event is being
        deleted or while the events hook is loading. */
    function DeleteDisabled(eventId: string, isLoading: bool): (b: bool)
      reads this
      ensures isLoading ==> b
      ensures deletingId == Some(eventId) ==> b
      ensures !isLoading && b ==> deletingId == Some(eventId)
    {
      deletingId == Some(eventId) || isLoading
    }

    /** The part of `handleDelete` before the await: after a confirmed
        dialog the id is marked as being deleted; a declined dialog
        changes nothing and issues no delete. */
    method BeginDelete(id: string, confirmed: bool) returns (issued: bool)
      modifies this`deletingId
      ensures issued == confirmed
      ensures confirmed ==> deletingId == Some(id) && forall isLoading :: DeleteDisabled(id, isLoading)
      ensures !confirmed ==> deletingId == old(deletingId)
    {
      if confirmed {
        deletingId := Some(id);
      }
      issued := confirmed;
    }

    /** The part after the await: a delete that reported success removes
        every event with that id; a false result or a throw keeps the list;
        `finally` clears the id in every case. */
    method FinishDelete(id: string, outcome: DeleteOutcome)
      modifies this
      ensures outcome == Deleted ==> events == WithoutId(old(events), id)
      ensures outcome != Deleted ==> events == old(events)
      ensures deletingId == None && forall eventId :: !DeleteDisabled(eventId, false)
    {
      if outcome == Deleted {
        events := WithoutId(events, id);
      }
      deletingId := None;
    }

    /** `handleDelete` from the click to the end of `finally`; `pending` is
        the id marked while the delete was awaited. */
    method HandleDelete(id: string, confirmed: bool, outcome: DeleteOutcome) returns (pending: Option<string>)
      modifies this
      ensures !confirmed ==> pending == None && events == old(events) && deletingId == old(deletingId)
      ensures confirmed ==> pending == Some(id) && deletingId == None
      ensures confirmed && outcome == Deleted ==> events == WithoutId(old(events), id)
      ensures confirmed && outcome != Deleted ==> events == old(events)
    {
      var issued := BeginDelete(id, confirmed);
      if !issued {
        return None;
      }
      pending := deletingId;
      FinishDelete(id, outcome);
    }
  }
}
