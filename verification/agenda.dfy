/**
 * The daily agenda: the hour grid from 07 to 22, the events of the selected
 * day, the event shown in each hour slot, the form opened on an empty slot
 * or on an event, and the day navigation.
 */
module Agenda {
  import opened Wrappers
  import opened Text
  import opened Calendar

  /** A calendar event as the agenda receives it; `loc` and `desc` may be missing. */
  datatype AgendaEvent = AgendaEvent(
    id: string,
    date: string,
    title: string,
    start: string,
    end: string,
    color: string,
    loc: Option<string>,
    desc: Option<string>)

  /** The event form; `id` is missing for a new event. */
  datatype EventForm = EventForm(
    id: Option<string>,
    title: string,
    startDate: string,
    startTime: string,
    endTime: string,
    location: string,
    description: string,
    attendees: string,
    reminder: string,
    recurrence: string,
    videoCall: bool,
    color: string)

  const DefaultColor := "bg-indigo-600"

  /** The form before anything is opened. */
  const InitialForm := EventForm(None, "", "", "09:00", "10:00", "", "", "", "10", "NONE", false, DefaultColor)

  /** The events the agenda holds for every day (the synchronised calendar). */
  const SampleEvents: seq<AgendaEvent> := [
    AgendaEvent("1", "2025-12-27", "Impegno di prova", "10:00", "11:00", "bg-blue-500", Some("Torino"), None),
    AgendaEvent("2", "2025-12-28", "Prova prova", "08:00", "09:45", "bg-indigo-600", Some("via Arquata 2, Torino"), None),
    AgendaEvent("3", "2025-12-27", "Test Funzionalità", "11:00", "12:30", "bg-purple-500", Some("Torino, Italia"), None)
  ]

  const FirstHour := 7
  const LastHour := 22

  /** `Array.from({ length: 16 }, (_, i) => i + 7)`: the hours 07..22 in increasing order. */
  function Hours(): (h: seq<nat>)
    ensures |h| == 16
    ensures forall i :: 0 <= i < |h| ==> FirstHour <= h[i] <= LastHour
  {
    seq(16, i requires 0 <= i < 16 => (i + 7) as nat)
  }

  /** The grid holds every hour from 07 to 22, each once, in increasing order. */
  lemma HoursAreTheGrid()
    ensures forall x :: x in Hours() <==> FirstHour <= x <= LastHour
    ensures forall i, j :: 0 <= i < j < |Hours()| ==> Hours()[i] < Hours()[j]
  {
    var h := Hours();
    forall x | FirstHour <= x <= LastHour ensures x in h {
      assert h[x - FirstHour] == x;
    }
  }

  /** Every slot of the grid has its own two-digit label. */
  lemma HourLabelsDistinct()
    ensures forall i, j :: 0 <= i < j < |Hours()| ==> Pad2(Hours()[i]) != Pad2(Hours()[j])
    ensures forall i :: 0 <= i < |Hours()| ==> |Pad2(Hours()[i])| == 2
  {
    var h := Hours();
    forall i, j | 0 <= i < j < |h| ensures Pad2(h[i]) != Pad2(h[j]) {
      assert Value(Pad2(h[i])) == h[i] && Value(Pad2(h[j])) == h[j];
    }
  }

  /** `events.filter(e => e.date === dateStr)`. */
  function EventsOn(events: seq<AgendaEvent>, dateStr: string): (r: seq<AgendaEvent>)
    ensures |r| <= |events|
    ensures forall i :: 0 <= i < |r| ==> r[i] in events && r[i].date == dateStr
    ensures forall i :: 0 <= i < |events| && events[i].date == dateStr ==> events[i] in r
  {
    if events == [] then []
    else if events[0].date == dateStr then [events[0]] + EventsOn(events[1..], dateStr)
    else EventsOn(events[1..], dateStr)
  }

  /** The filter keeps the order of the events: it distributes over concatenation. */
  lemma {:induction false} EventsOnAppend(a: seq<AgendaEvent>, b: seq<AgendaEvent>, dateStr: string)
    ensures EventsOn(a + b, dateStr) == EventsOn(a, dateStr) + EventsOn(b, dateStr)
  {
    if a == [] {
      assert a + b == b;
    } else {
      assert (a + b)[1..] == a[1..] + b;
      EventsOnAppend(a[1..], b, dateStr);
    }
  }

  /** Filtering again by the same date changes nothing. */
  lemma {:induction false} EventsOnIdempotent(events: seq<AgendaEvent>, dateStr: string)
    ensures EventsOn(EventsOn(events, dateStr), dateStr) == EventsOn(events, dateStr)
  {
    if events != [] {
      EventsOnIdempotent(events[1..], dateStr);
    }
  }

  /** The event starts in the hour labelled `hour`. */
  predicate StartsInHour(e: AgendaEvent, hour: nat) {
    StartsWith(e.start, Pad2(hour))
  }

  /** `events.find(e => e.start.startsWith(hStr))`: the first event starting in the hour, if any. */
  function SlotEvent(events: seq<AgendaEvent>, hour: nat): (r: Option<AgendaEvent>)
    ensures r.Some? <==> exists i :: 0 <= i < |events| && StartsInHour(events[i], hour)
    ensures r.Some? ==> exists i :: 0 <= i < |events| && events[i] == r.value && StartsInHour(r.value, hour) &&
                                    forall j :: 0 <= j < i ==> !StartsInHour(events[j], hour)
  {
    if events == [] then None
    else if StartsInHour(events[0], hour) then Some(events[0])
    else
      var r := SlotEvent(events[1..], hour);
      assert forall i :: 0 < i < |events| ==> events[i] == events[1..][i - 1];
      r
  }

  /** An event is shown in at most one slot of the grid: two hours whose labels both prefix its start are the same hour. */
  lemma OneSlotPerEvent(e: AgendaEvent, h1: nat, h2: nat)
    requires h1 < 100 && h2 < 100
    requires StartsInHour(e, h1) && StartsInHour(e, h2)
    ensures h1 == h2
  {
    assert Pad2(h1) == e.start[..2] == Pad2(h2);
  }

  /** `openEdit(e)`: the form shows the event, with a missing place or description as empty text. */
  function EditForm(e: AgendaEvent): (f: EventForm)
    ensures f.id == Some(e.id) && f.title == e.title && f.startDate == e.date
    ensures f.startTime == e.start && f.endTime == e.end && f.color == e.color
    ensures f.location == (if e.loc.Some? then e.loc.value else "")
    ensures f.description == (if e.desc.Some? then e.desc.value else "")
    ensures f.attendees == "" && f.reminder == "10" && f.recurrence == "NONE" && !f.videoCall
  {
    EventForm(Some(e.id), e.title, e.date, e.start, e.end, e.loc.GetOr(""), e.desc.GetOr(""), "", "10", "NONE", false, e.color)
  }

  /** `resetForm(hour)`: an empty form for the selected date, from the start of the hour to the start of the next. */
  function NewForm(hour: nat, dateStr: string): (f: EventForm)
    ensures f.id == None && f.title == "" && f.startDate == dateStr
    ensures f.startTime == Pad2(hour) + ":00" && f.endTime == Pad2(hour + 1) + ":00"
    ensures f.location == "" && f.description == "" && f.color == DefaultColor
    ensures f.attendees == "" && f.reminder == "10" && f.recurrence == "NONE" && !f.videoCall
  {
    var h := Pad2(hour);
    EventForm(None, "", dateStr, h + ":00", Pad2(hour + 1) + ":00", "", "", "", "10", "NONE", false, DefaultColor)
  }

  /** The form heading reads "Modifica Impegno" when the id is one JavaScript reads as true, else "Nuovo Impegno". */
  function Heading(f: EventForm): (s: string)
    ensures s == "Modifica Impegno" <==> f.id.Some? && f.id.value != ""
  {
    if f.id.Some? && f.id.value != "" then "Modifica Impegno" else "Nuovo Impegno"
  }

  /** An empty slot opens a new-event form; an event with an id opens its own form. */
  lemma HeadingOfForms(e: AgendaEvent, hour: nat, dateStr: string)
    ensures Heading(NewForm(hour, dateStr)) == "Nuovo Impegno"
    ensures Heading(EditForm(e)) == "Modifica Impegno" <==> e.id != ""
  {
  }

  /**
   * The form of a grid slot starts at minute 0 of that hour and ends at
   * minute 0 of the next; an event starting at that time would sit in that
   * slot and in no other.
   */
  lemma NewFormFitsSlot(hour: nat, dateStr: string, other: nat)
    requires FirstHour <= hour <= LastHour && other < 100
    ensures var f := NewForm(hour, dateStr);
      && |f.startTime| == 5 && |f.endTime| == 5
      && Value(f.startTime[..2]) == hour && Value(f.endTime[..2]) == hour + 1
      && f.startTime[2..] == ":00" && f.endTime[2..] == ":00"
      && (StartsWith(f.startTime, Pad2(other)) <==> other == hour)
  {
    var f := NewForm(hour, dateStr);
    assert f.startTime[..2] == Pad2(hour);
    assert f.endTime[..2] == Pad2(hour + 1);
    if StartsWith(f.startTime, Pad2(other)) {
      assert Pad2(other) == f.startTime[..2];
    }
  }

  /** An event opened for editing keeps its slot: the form's start lies in the hours the event's start lies in. */
  lemma EditFormKeepsSlot(e: AgendaEvent, hour: nat)
    ensures StartsWith(EditForm(e).startTime, Pad2(hour)) <==> StartsInHour(e, hour)
  {
  }

  /** On 27 December 2025 the agenda shows events 1 and 3, in that order; on the 28th event 2 alone. */
  lemma SampleDays()
    ensures EventsOn(SampleEvents, "2025-12-27") == [SampleEvents[0], SampleEvents[2]]
    ensures EventsOn(SampleEvents, "2025-12-28") == [SampleEvents[1]]
  {
    var e := SampleEvents;
    assert e[1..][1..] == [e[2]];
    assert EventsOn([e[2]], "2025-12-27") == [e[2]];
    assert EventsOn([e[2]], "2025-12-28") == [];
  }

  /** The two days of the sample events, written as the agenda writes the selected date. */
  lemma SampleIsoDates()
    ensures IsoDate(Date(2025, 12, 27)) == "2025-12-27" && IsoDate(Date(2025, 12, 28)) == "2025-12-28"
  {
    SampleYear();
    SampleMonthAndDays();
    SampleJoin(Date(2025, 12, 27), "27");
    SampleJoin(Date(2025, 12, 28), "28");
  }

  lemma SampleJoin(d: Date, dd: string)
    requires ValidDate(d) && YearString(d.year) == "2025" && Pad2(d.month) == "12" && Pad2(d.day) == dd
    ensures IsoDate(d) == "2025-12-" + dd
  {
  }

  lemma SampleYear()
    ensures YearString(2025) == "2025"
  {
    assert NatToString(2025) == "2025";
  }

  lemma SampleMonthAndDays()
    ensures Pad2(12) == "12" && Pad2(27) == "27" && Pad2(28) == "28"
  {
    assert NatToString(12) == "12";
    assert NatToString(27) == "27";
    assert NatToString(28) == "28";
  }

  lemma Pad2Examples()
    ensures Pad2(8) == "08" && Pad2(10) == "10" && Pad2(11) == "11"
  {
    assert NatToString(1) == "1";
    assert NatToString(10) == "10";
    assert NatToString(11) == "11";
  }

  /** On 27 December 2025 event 1 sits in the 10 o'clock slot. */
  lemma SampleSlotTen()
    ensures SlotEvent(EventsOn(SampleEvents, "2025-12-27"), 10) == Some(SampleEvents[0])
  {
    SampleDays();
    Pad2Examples();
    assert StartsInHour(SampleEvents[0], 10);
  }

  /** On 27 December 2025 event 3 sits in the 11 o'clock slot, after event 1 which does not start then. */
  lemma SampleSlotEleven()
    ensures SlotEvent(EventsOn(SampleEvents, "2025-12-27"), 11) == Some(SampleEvents[2])
  {
    SampleDays();
    Pad2Examples();
    var e := SampleEvents;
    assert !StartsInHour(e[0], 11);
    assert StartsInHour(e[2], 11);
    assert [e[0], e[2]][1..] == [e[2]];
  }

  /** On 28 December 2025 event 2 sits in the 8 o'clock slot. */
  lemma SampleSlotEight()
    ensures SlotEvent(EventsOn(SampleEvents, "2025-12-28"), 8) == Some(SampleEvents[1])
  {
    SampleDays();
    Pad2Examples();
    assert StartsInHour(SampleEvents[1], 8);
  }

  /** The agenda's state: the selected day, the events shown for it and the event form. */
  class DailyAgenda {
    var selectedDate: Date
    var dateStr: string
    var calendar: seq<AgendaEvent>
    var dayEvents: seq<AgendaEvent>
    var eventData: EventForm

    /**
     * The selected day is a real day, `dateStr` is its `YYYY-MM-DD`, and the
     * shown events are the calendar's events of that string.
     */
    predicate Valid()
      reads this`selectedDate, this`dateStr, this`calendar, this`dayEvents
    {
      ValidDate(selectedDate) && dateStr == IsoDate(selectedDate) && dayEvents == EventsOn(calendar, dateStr)
    }

    constructor (today: Date)
      requires ValidDate(today)
      ensures Valid() && selectedDate == today && dateStr == IsoDate(today) && calendar == SampleEvents && eventData == InitialForm
    {
      var todayStr := IsoDate(today);
      selectedDate := today;
      dateStr := todayStr;
      calendar := SampleEvents;
      dayEvents := EventsOn(SampleEvents, todayStr);
      eventData := InitialForm;
    }

    /** `changeDay(offset)`: the date `offset` calendar days away, and its events. */
    method ChangeDay(offset: int)
      requires Valid()
      modifies this
      ensures Valid()
      ensures selectedDate == Shift(old(selectedDate), offset) && dateStr == IsoDate(selectedDate)
      ensures calendar == old(calendar) && eventData == old(eventData)
    {
      var newDate := Shift(selectedDate, offset);
      selectedDate := newDate;
      dateStr := IsoDate(newDate);
      dayEvents := EventsOn(calendar, dateStr);
    }

    /** The date input: any valid day, and its events. */
    method PickDate(d: Date)
      requires Valid() && ValidDate(d)
      modifies this
      ensures Valid() && selectedDate == d && dateStr == IsoDate(d) && calendar == old(calendar) && eventData == old(eventData)
    {
      selectedDate := d;
      dateStr := IsoDate(d);
      dayEvents := EventsOn(calendar, dateStr);
    }

    /** A click on an event shows it in the form. */
    method OpenEdit(e: AgendaEvent)
      requires Valid()
      modifies this
      ensures Valid() && eventData == EditForm(e)
      ensures selectedDate == old(selectedDate) && dateStr == old(dateStr) && calendar == old(calendar) && dayEvents == old(dayEvents)
    {
      eventData := EditForm(e);
    }

    /** A click on a slot opens a new-event form for that hour, when no event occupies the slot. */
    method ClickSlot(hour: nat)
      requires Valid()
      modifies this
      ensures Valid() && selectedDate == old(selectedDate) && dateStr == old(dateStr) && calendar == old(calendar) && dayEvents == old(dayEvents)
      ensures SlotEvent(dayEvents, hour).None? ==> eventData == NewForm(hour, dateStr)
      ensures SlotEvent(dayEvents, hour).Some? ==> eventData == old(eventData)
    {
      if SlotEvent(dayEvents, hour).None? {
        eventData := NewForm(hour, dateStr);
      }
    }
  }

  /** Pressing "next" and then "previous" brings the agenda back to the same day, date string and events. */
  method StepForwardBack(agenda: DailyAgenda)
    requires agenda.Valid()
    modifies agenda
    ensures agenda.Valid()
    ensures agenda.selectedDate == old(agenda.selectedDate) && agenda.calendar == old(agenda.calendar)
    ensures agenda.dateStr == old(agenda.dateStr) && agenda.dayEvents == old(agenda.dayEvents)
    ensures agenda.eventData == old(agenda.eventData)
  {
    agenda.ChangeDay(1);
    agenda.ChangeDay(-1);
    ShiftRoundTrip(old(agenda.selectedDate), 1);
  }
}
