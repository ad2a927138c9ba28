/** The calendar view: events bucketed by the local day of their start,
    the per-day count shown on month tiles, and the selected date and
    event. The local calendar day of an instant (`format(d, 'yyyy-MM-dd')`
    in the browser's time zone) is the parameter `dayKey`; reading a date
    string with `new Date` is the parameter `parse`. */
module CalendarView {
  import opened Common

  /** The `Event` shape the view receives. */
  datatype CalEvent = CalEvent(id: string, title: string, description: string, startTime: string, endTime: string)

  /** react-calendar's `onChange` value: one date, a range, or nothing. */
  datatype CalendarValue = SingleDate(date: Instant) | DateRange(dates: seq<Instant>) | NoValue

  /** What a tile shows: nothing, or the number of events of that day. */
  datatype Tile = NoContent | CountBadge(count: nat)

  /** The event's start parses and falls on the same local day as `date`. */
  function StartsOn(e: CalEvent, date: Instant, parse: string -> JsDate, dayKey: Instant -> string): (b: bool)
    ensures b ==> parse(e.startTime).ValidDate?
    ensures parse(e.startTime) == ValidDate(date) ==> b
  {
    parse(e.startTime).ValidDate? && dayKey(parse(e.startTime).ms) == dayKey(date)
  }

  /** Every start string parses. */
  predicate AllStartsParse(events: seq<CalEvent>, parse: string -> JsDate)
  {
    forall i :: 0 <= i < |events| ==> parse(events[i].startTime).ValidDate?
  }

  /** `getEventsForDate`: the events whose start falls on the day of
      `date`, in their original order. Formatting an invalid date throws,
      so a single unparsable start makes the whole call fail (None). */
  function EventsForDate(events: seq<CalEvent>, date: Instant, parse: string -> JsDate,
                         dayKey: Instant -> string): (r: Option<seq<CalEvent>>)
    ensures r.None? <==> !AllStartsParse(events, parse)
    ensures r.Some? ==> forall e :: e in r.value <==> e in events && StartsOn(e, date, parse, dayKey)
    ensures r.Some? ==> forall e :: multiset(r.value)[e] ==
                          if StartsOn(e, date, parse, dayKey) then multiset(events)[e] else 0
    decreases |events|
  {
    if events == [] then Some([])
    else
      var rest := EventsForDate(events[1..], date, parse, dayKey);
      var start := parse(events[0].startTime);
      assert events == [events[0]] + events[1..];
      assert AllStartsParse(events, parse) <==>
             start.ValidDate? && AllStartsParse(events[1..], parse) by {
        if start.ValidDate? && AllStartsParse(events[1..], parse) {
          forall i | 0 <= i < |events|
            ensures parse(events[i].startTime).ValidDate?
          {
            if i > 0 {
              assert events[i] == events[1..][i - 1];
            }
          }
        }
        if AllStartsParse(events, parse) {
          forall i | 0 <= i < |events[1..]|
            ensures parse(events[1..][i].startTime).ValidDate?
          {
            assert events[1..][i] == events[i + 1];
          }
        }
      }
      if start.InvalidDate? || rest.None? then None
      else if dayKey(start.ms) == dayKey(date) then Some([events[0]] + rest.value)
      else rest
  }

  /** The filter keeps the events' order. */
  lemma {:induction false} EventsForDateIsSubsequence(events: seq<CalEvent>, date: Instant,
                                                      parse: string -> JsDate, dayKey: Instant -> string)
    requires AllStartsParse(events, parse)
    ensures IsSubsequence(EventsForDate(events, date, parse, dayKey).value, events)
    decreases |events|
  {
    if events != [] {
      assert AllStartsParse(events[1..], parse) by {
        forall i | 0 <= i < |events[1..]|
          ensures parse(events[1..][i].startTime).ValidDate?
        {
          assert events[1..][i] == events[i + 1];
        }
      }
      EventsForDateIsSubsequence(events[1..], date, parse, dayKey);
      var rest := EventsForDate(events[1..], date, parse, dayKey).value;
      assert ([events[0]] + rest)[1..] == rest;
    }
  }

  /** Only the start decides the day: changing an event's end moves it
      nowhere, so an event spanning several days is listed on its first
      day only. */
  lemma EndTimeIgnored(events: seq<CalEvent>, i: int, newEnd: string, date: Instant,
                       parse: string -> JsDate, dayKey: Instant -> string)
    requires 0 <= i < |events| && AllStartsParse(events, parse)
    ensures var e := events[i].(endTime := newEnd);
            var moved := EventsForDate(events[i := e], date, parse, dayKey);
            moved.Some? && (e in moved.value <==> events[i] in EventsForDate(events, date, parse, dayKey).value)
  {
    var e := events[i].(endTime := newEnd);
    var changed := events[i := e];
    assert changed[i] == e;
    assert AllStartsParse(changed, parse) by {
      forall j | 0 <= j < |changed|
        ensures parse(changed[j].startTime).ValidDate?
      {
        assert changed[j].startTime == events[j].startTime;
      }
    }
    assert events[i] in events;
  }

  /** `tileContent`: nothing outside the month view or on a day without
      events; otherwise the number of events of that day. None when the
      day bucketing throws. */
  function TileContent(events: seq<CalEvent>, date: Instant, view: string,
                       parse: string -> JsDate, dayKey: Instant -> string): (r: Option<Tile>)
    ensures view != "month" ==> r == Some(NoContent)
    ensures view == "month" ==> (r.None? <==> !AllStartsParse(events, parse))
    ensures r.Some? && r.value.CountBadge? ==>
              view == "month" && r.value.count >= 1 &&
              r.value.count == |EventsForDate(events, date, parse, dayKey).value|
    ensures view == "month" && r == Some(NoContent) ==>
              forall i :: 0 <= i < |events| ==> !StartsOn(events[i], date, parse, dayKey)
  {
    if view != "month" then Some(NoContent)
    else
      var forDay := EventsForDate(events, date, parse, dayKey);
      if forDay.None? then None
      else if |forDay.value| == 0 then
        assert forall i :: 0 <= i < |events| ==> events[i] in events;
        Some(NoContent)
      else Some(CountBadge(|forDay.value|))
  }

  /** The component's state: the selected date and the event whose details
      are shown. */
  class Calendar {
    const events: seq<CalEvent>
    var date: Instant
    var selectedEvent: Option<CalEvent>

    /** Mounts on today's date, with no event selected. */
    constructor(events: seq<CalEvent>, now: Instant)
      ensures this.events == events && date == now && selectedEvent == None
    {
      this.events := events;
      date := now;
      selectedEvent := None;
    }

    /** `handleDateClick`: a single date becomes the selected date and
        clears the shown event; a range or no value changes nothing. */
    method HandleDateClick(value: CalendarValue)
      modifies this
      ensures value.SingleDate? ==> date == value.date && selectedEvent == None
      ensures !value.SingleDate? ==> date == old(date) && selectedEvent == old(selectedEvent)
    {
      if value.SingleDate? {
        date := value.date;
        selectedEvent := None;
      }
    }

    /** Clicking an event of the day list shows its details. */
    method SelectEvent(e: CalEvent)
      modifies this`selectedEvent
      ensures selectedEvent == Some(e) && date == old(date)
    {
      selectedEvent := Some(e);
    }

    /** `selectedDateEvents`: the events of the selected day. */
    function SelectedDateEvents(parse: string -> JsDate, dayKey: Instant -> string): (r: Option<seq<CalEvent>>)
      reads this
      ensures r.Some? ==> forall e :: e in r.value <==> e in events && StartsOn(e, date, parse, dayKey)
    {
      EventsForDate(events, date, parse, dayKey)
    }
  }
}
