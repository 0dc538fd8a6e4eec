/** The organiser's calendar of community events: create, edit and delete them. */
module EventCalendarPage {
  import opened Wrappers
  import opened Text
  import opened Records

  /** What the calendar widget is given for one event. */
  datatype CalendarEntry = CalendarEntry(id: string, title: string, start: string, end: string)

  function EntryOf(e: CommunityEvent): CalendarEntry {
    CalendarEntry(NatToString(e.id), e.title, e.start, e.end)
  }

  /** calendarEvents: one entry per event, in order, with the id rendered in decimal. */
  function Project(events: seq<CommunityEvent>): (r: seq<CalendarEntry>)
    ensures |r| == |events|
    ensures forall i :: 0 <= i < |r| ==> r[i] == EntryOf(events[i])
  {
    seq(|events|, i requires 0 <= i < |events| => EntryOf(events[i]))
  }

  predicate DistinctIds(events: seq<CommunityEvent>) {
    forall i, j :: 0 <= i < j < |events| ==> events[i].id != events[j].id
  }

  /** Distinct events give distinct entry ids, and an entry's id reads back as its event's id. */
  lemma ProjectionIdsFaithful(events: seq<CommunityEvent>)
    requires DistinctIds(events)
    ensures var r := Project(events);
            (forall i, j :: 0 <= i < j < |r| ==> r[i].id != r[j].id)
            && (forall i :: 0 <= i < |r| ==> ParseDecimal(r[i].id) == events[i].id)
  {
    var r := Project(events);
    forall i, j | 0 <= i < j < |r| ensures r[i].id != r[j].id {
      if r[i].id == r[j].id {
        NatToStringInjective(events[i].id, events[j].id);
      }
    }
    forall i | 0 <= i < |r| ensures ParseDecimal(r[i].id) == events[i].id {
      ParseNatToString(events[i].id);
    }
  }

  /** `events.find(e => e.id.toString() === id)` */
  function FindByText(events: seq<CommunityEvent>, id: string): (r: Option<CommunityEvent>)
    ensures r.Some? ==> r.value in events && NatToString(r.value.id) == id
    ensures r.None? <==> forall i :: 0 <= i < |events| ==> NatToString(events[i].id) != id
  {
    if events == [] then None
    else if NatToString(events[0].id) == id then Some(events[0])
    else FindByText(events[1..], id)
  }

  /** Clicking the entry drawn for event k finds event k. */
  lemma {:induction false} ClickFindsProjected(events: seq<CommunityEvent>, k: nat)
    requires k < |events| && DistinctIds(events)
    ensures FindByText(events, Project(events)[k].id) == Some(events[k])
  {
    if k > 0 {
      if NatToString(events[0].id) == NatToString(events[k].id) {
        NatToStringInjective(events[0].id, events[k].id);
      }
      assert DistinctIds(events[1..]) by {
        forall i, j | 0 <= i < j < |events[1..]| ensures events[1..][i].id != events[1..][j].id {
          assert events[1..][i] == events[i + 1] && events[1..][j] == events[j + 1];
        }
      }
      ClickFindsProjected(events[1..], k - 1);
      assert Project(events[1..])[k - 1] == Project(events)[k];
    }
  }

  datatype EventForm = EventForm(title: string, start: string, end: string, description: string)

  /** What a save sends to the community_events table. */
  datatype EventWrite = UpdateEvent(id: nat, form: EventForm) | InsertEvent(createdBy: string, form: EventForm)

  /** The form a click fills in: the event's fields, a missing description as ''. */
  function FormOf(e: CommunityEvent): (f: EventForm)
    ensures f.title == e.title && f.start == e.start && f.end == e.end
    ensures f.description == if e.description.Some? then e.description.value else ""
  {
    EventForm(e.title, e.start, e.end, e.description.GetOr(""))
  }

  class EventCalendar {
    var events: seq<CommunityEvent>
    var selected: Option<CommunityEvent>
    var form: EventForm
    var dialogOpen: bool

    constructor ()
      ensures events == [] && selected.None? && form == EventForm("", "", "", "") && !dialogOpen
    {
      events, selected, form, dialogOpen := [], None, EventForm("", "", "", ""), false;
    }

    /** fetchEvents: the rows replace the list; an error keeps it. */
    method FetchEvents(fetched: Result<seq<CommunityEvent>>)
      modifies this
      ensures events == if fetched.Ok? then fetched.value else old(events)
      ensures selected == old(selected) && form == old(form) && dialogOpen == old(dialogOpen)
    {
      if fetched.Ok? {
        events := fetched.value;
      }
    }

    /** handleSelect: a blank form over the range, no selection, the dialog open. */
    method Select(start: string, end: string)
      modifies this
      ensures form == EventForm("", start, end, "") && selected.None? && dialogOpen
      ensures events == old(events)
    {
      form := EventForm("", start, end, "");
      selected := None;
      dialogOpen := true;
    }

    /** handleEventClick: an entry's id is matched against the decimal form of the event ids. */
    method EventClick(id: string)
      modifies this
      ensures events == old(events)
      ensures FindByText(events, id).None? ==>
                selected == old(selected) && form == old(form) && dialogOpen == old(dialogOpen)
      ensures FindByText(events, id).Some? ==>
                selected == FindByText(events, id) && form == FormOf(selected.value) && dialogOpen
    {
      var found := FindByText(events, id);
      if found.Some? {
        selected := found;
        form := FormOf(found.value);
        dialogOpen := true;
      }
    }

    /** handleSaveEvent: nothing without a user or a title; otherwise an update of the selected
        event or an insert created by the user, and the dialog closes whatever the store says. */
    method SaveEvent(user: Option<string>) returns (sent: Option<EventWrite>)
      modifies this
      ensures events == old(events) && selected == old(selected) && form == old(form)
      ensures user.None? || form.title == "" ==> sent.None? && dialogOpen == old(dialogOpen)
      ensures user.Some? && form.title != "" ==>
                !dialogOpen
                && sent == Some(if selected.Some? then UpdateEvent(selected.value.id, form) else InsertEvent(user.value, form))
    {
      if user.None? || form.title == "" {
        return None;
      }
      if selected.Some? {
        sent := Some(UpdateEvent(selected.value.id, form));
      } else {
        sent := Some(InsertEvent(user.value, form));
      }
      dialogOpen := false;
    }

    /** handleDeleteEvent: only with a selection; the dialog closes only when the store confirms. */
    method DeleteEvent(outcome: Status) returns (sent: Option<nat>)
      modifies this
      ensures events == old(events) && selected == old(selected) && form == old(form)
      ensures sent == if selected.Some? then Some(selected.value.id) else None
      ensures dialogOpen == if selected.Some? && outcome.Success? then false else old(dialogOpen)
    {
      if selected.None? {
        return None;
      }
      sent := Some(selected.value.id);
      if outcome.Success? {
        dialogOpen := false;
      }
    }
  }

  /** Clicking the entry drawn for an event and saving sends an update of that event, carrying
      its own fields. */
  method EditRoundTrip(cal: EventCalendar, user: string, k: nat) returns (sent: Option<EventWrite>)
    requires DistinctIds(cal.events) && k < |cal.events| && cal.events[k].title != ""
    modifies cal
    ensures sent == Some(UpdateEvent(old(cal.events[k]).id, FormOf(old(cal.events[k]))))
  {
    ClickFindsProjected(cal.events, k);
    cal.EventClick(Project(cal.events)[k].id);
    sent := cal.SaveEvent(Some(user));
  }
}
