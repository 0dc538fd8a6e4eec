/** The participant's calendar: personal tasks, which can be edited, shown
    beside the community events, which are read-only. */
module TaskManagerPage {
  import opened Wrappers
  import opened Text
  import opened Records

  /** An entry of the calendar. Community events carry no completion flag. */
  datatype CalendarEvent = CalendarEvent(
    id: string,
    title: string,
    start: string,
    end: string,
    description: Option<string>,
    completed: Option<bool>,
    allDay: bool,
    editable: bool,
    color: Option<string>,
    isCommunity: bool,
    originalId: nat)

  const CommunityColor: string := "#10b981"

  function TaskId(id: nat): string {
    "task-" + NatToString(id)
  }

  function CommunityId(id: nat): string {
    "community-" + NatToString(id)
  }

  /** A personal task as a calendar entry. */
  function FromTask(t: Task): CalendarEvent {
    CalendarEvent(TaskId(t.id), t.title, t.start, t.end, t.description, Some(t.completed), false, true, None, false, t.id)
  }

  /** A community event as a calendar entry. */
  function FromCommunity(e: CommunityEvent): CalendarEvent {
    CalendarEvent(CommunityId(e.id), e.title, e.start, e.end, e.description, None, false, false, Some(CommunityColor), true, e.id)
  }

  /** fetchEvents: the personal tasks in order, then the community events in order. */
  function Merge(tasks: seq<Task>, events: seq<CommunityEvent>): (r: seq<CalendarEvent>)
    ensures |r| == |tasks| + |events|
    ensures forall i :: 0 <= i < |tasks| ==> r[i] == FromTask(tasks[i])
    ensures forall j :: 0 <= j < |events| ==> r[|tasks| + j] == FromCommunity(events[j])
  {
    seq(|tasks|, i requires 0 <= i < |tasks| => FromTask(tasks[i]))
    + seq(|events|, j requires 0 <= j < |events| => FromCommunity(events[j]))
  }

  /** Exactly the personal entries are editable, and every entry keeps the numeric id of its row. */
  lemma MergeKinds(tasks: seq<Task>, events: seq<CommunityEvent>)
    ensures var r := Merge(tasks, events);
            forall i :: 0 <= i < |r| ==>
              (r[i].editable <==> !r[i].isCommunity) && (r[i].isCommunity <==> i >= |tasks|)
              && r[i].originalId == (if i < |tasks| then tasks[i].id else events[i - |tasks|].id)
  {
    var r := Merge(tasks, events);
    forall i | 0 <= i < |r|
      ensures (r[i].editable <==> !r[i].isCommunity) && (r[i].isCommunity <==> i >= |tasks|)
      ensures r[i].originalId == (if i < |tasks| then tasks[i].id else events[i - |tasks|].id)
    {
      if i >= |tasks| {
        assert r[|tasks| + (i - |tasks|)] == FromCommunity(events[i - |tasks|]);
      }
    }
  }

  /** A task id and a community id never coincide. */
  lemma TaskAndCommunityIdsDiffer(a: nat, b: nat)
    ensures TaskId(a) != CommunityId(b)
  {
    assert TaskId(a)[0] == 't' && CommunityId(b)[0] == 'c';
  }

  /** Ids of one kind are equal only for equal row ids. */
  lemma TaskIdInjective(a: nat, b: nat)
    requires TaskId(a) == TaskId(b)
    ensures a == b
  {
    PrefixCancel("task-", NatToString(a), NatToString(b));
    NatToStringInjective(a, b);
  }

  lemma CommunityIdInjective(a: nat, b: nat)
    requires CommunityId(a) == CommunityId(b)
    ensures a == b
  {
    PrefixCancel("community-", NatToString(a), NatToString(b));
    NatToStringInjective(a, b);
  }

  predicate DistinctTaskIds(tasks: seq<Task>) {
    forall i, j :: 0 <= i < j < |tasks| ==> tasks[i].id != tasks[j].id
  }

  predicate DistinctEventIds(events: seq<CommunityEvent>) {
    forall i, j :: 0 <= i < j < |events| ==> events[i].id != events[j].id
  }

  predicate DistinctIds(es: seq<CalendarEvent>) {
    forall i, j :: 0 <= i < j < |es| ==> es[i].id != es[j].id
  }

  /** Rows with distinct ids in each table give calendar entries with distinct ids. */
  lemma MergeIdsDistinct(tasks: seq<Task>, events: seq<CommunityEvent>)
    requires DistinctTaskIds(tasks) && DistinctEventIds(events)
    ensures DistinctIds(Merge(tasks, events))
  {
    var r := Merge(tasks, events);
    var n := |tasks|;
    forall i, j | 0 <= i < j < |r| ensures r[i].id != r[j].id {
      if j < n {
        if r[i].id == r[j].id {
          TaskIdInjective(tasks[i].id, tasks[j].id);
        }
      } else if i < n {
        assert r[n + (j - n)] == FromCommunity(events[j - n]);
        TaskAndCommunityIdsDiffer(tasks[i].id, events[j - n].id);
      } else {
        assert r[n + (i - n)] == FromCommunity(events[i - n]);
        assert r[n + (j - n)] == FromCommunity(events[j - n]);
        if r[i].id == r[j].id {
          CommunityIdInjective(events[i - n].id, events[j - n].id);
        }
      }
    }
  }

  /** `events.find(e => e.id === id)` */
  function Find(es: seq<CalendarEvent>, id: string): (r: Option<CalendarEvent>)
    ensures r.Some? ==> r.value in es && r.value.id == id
    ensures r.None? <==> forall i :: 0 <= i < |es| ==> es[i].id != id
  {
    if es == [] then None
    else if es[0].id == id then Some(es[0])
    else Find(es[1..], id)
  }

  /** With distinct ids, looking up an entry's id finds that entry. */
  lemma {:induction false} FindById(es: seq<CalendarEvent>, k: nat)
    requires k < |es| && DistinctIds(es)
    ensures Find(es, es[k].id) == Some(es[k])
  {
    if k > 0 {
      assert es[0].id != es[k].id;
      assert DistinctIds(es[1..]) by {
        forall i, j | 0 <= i < j < |es[1..]| ensures es[1..][i].id != es[1..][j].id {
          assert es[1..][i] == es[i + 1] && es[1..][j] == es[j + 1];
        }
      }
      FindById(es[1..], k - 1);
    }
  }

  /** The CSS class of an entry: community first, then completed personal tasks. */
  function ClassName(e: CalendarEvent): (c: string)
    ensures e.isCommunity ==> c == "fc-community-event"
    ensures !e.isCommunity && e.completed == Some(true) ==> c == "fc-event-completed"
    ensures !e.isCommunity && e.completed != Some(true) ==> c == ""
  {
    if e.isCommunity then "fc-community-event"
    else if e.completed == Some(true) then "fc-event-completed"
    else ""
  }

  /** On the merged calendar a community event is never shown as completed, and a personal
      task is shown as completed exactly when its row is. */
  lemma MergedClassNames(tasks: seq<Task>, events: seq<CommunityEvent>, i: nat)
    requires i < |tasks| + |events|
    ensures ClassName(Merge(tasks, events)[i]) ==
            if i >= |tasks| then "fc-community-event"
            else if tasks[i].completed then "fc-event-completed" else ""
  {
    if i >= |tasks| {
      assert Merge(tasks, events)[|tasks| + (i - |tasks|)] == FromCommunity(events[i - |tasks|]);
    }
  }

  /** The form for a task; its description is always a string here. */
  datatype TaskForm = TaskForm(title: string, start: string, end: string, description: string, completed: bool)

  /** What a save sends to the `tasks` table. */
  datatype TaskWrite = UpdateTask(id: nat, form: TaskForm) | InsertTask(userId: string, form: TaskForm)

  /** The form a click on a personal entry fills in: its fields, a missing description
      as '', a missing flag as false. */
  function FormOf(e: CalendarEvent): (f: TaskForm)
    ensures f.title == e.title && f.start == e.start && f.end == e.end
    ensures f.description == (if e.description.Some? then e.description.value else "")
    ensures f.completed <==> e.completed == Some(true)
  {
    TaskForm(e.title, e.start, e.end, e.description.GetOr(""), e.completed.GetOr(false))
  }

  /** The form of a personal task's entry holds that task's own fields. */
  lemma FormOfTask(t: Task)
    ensures FormOf(FromTask(t)) == TaskForm(t.title, t.start, t.end, t.description.GetOr(""), t.completed)
  {
  }

  class TaskCalendar {
    var events: seq<CalendarEvent>
    var selected: Option<CalendarEvent>
    var form: TaskForm
    var taskDialogOpen: bool
    var eventDialogOpen: bool

    constructor ()
      ensures events == [] && selected.None? && form == TaskForm("", "", "", "", false)
      ensures !taskDialogOpen && !eventDialogOpen
    {
      events, selected, form := [], None, TaskForm("", "", "", "", false);
      taskDialogOpen, eventDialogOpen := false, false;
    }

    /** fetchEvents: both reads must succeed for the calendar to be replaced. */
    method FetchEvents(user: Option<string>, tasks: Result<seq<Task>>, community: Result<seq<CommunityEvent>>)
      modifies this
      ensures events == if user.Some? && tasks.Ok? && community.Ok? then Merge(tasks.value, community.value) else old(events)
      ensures selected == old(selected) && form == old(form)
      ensures taskDialogOpen == old(taskDialogOpen) && eventDialogOpen == old(eventDialogOpen)
    {
      if user.None? || tasks.Err? || community.Err? {
        return;
      }
      events := Merge(tasks.value, community.value);
    }

    /** handleSelect: a blank, open task over the selected range, with no selection. */
    method Select(start: string, end: string)
      modifies this
      ensures form == TaskForm("", start, end, "", false) && selected.None? && taskDialogOpen
      ensures events == old(events) && eventDialogOpen == old(eventDialogOpen)
    {
      form := TaskForm("", start, end, "", false);
      selected := None;
      taskDialogOpen := true;
    }

    /** handleEventClick: a community entry opens the read-only dialog, a personal one
        loads the form for a task. An unknown id does nothing. */
    method EventClick(id: string)
      modifies this
      ensures events == old(events)
      ensures Find(events, id).None? ==>
                selected == old(selected) && form == old(form)
                && taskDialogOpen == old(taskDialogOpen) && eventDialogOpen == old(eventDialogOpen)
      ensures Find(events, id).Some? ==> selected == Find(events, id)
      ensures Find(events, id).Some? && selected.value.isCommunity ==>
                eventDialogOpen && form == old(form) && taskDialogOpen == old(taskDialogOpen)
      ensures Find(events, id).Some? && !selected.value.isCommunity ==>
                taskDialogOpen && form == FormOf(selected.value) && eventDialogOpen == old(eventDialogOpen)
    {
      var found := Find(events, id);
      if found.None? {
        return;
      }
      var e := found.value;
      selected := Some(e);
      if e.isCommunity {
        eventDialogOpen := true;
      } else {
        form := FormOf(e);
        taskDialogOpen := true;
      }
    }

    /** handleSaveTask: nothing without a user or a title; otherwise an update of the selected
        personal task or an insert, and the dialog for tasks closes whatever the store answers. */
    method SaveTask(user: Option<string>) returns (sent: Option<TaskWrite>)
      modifies this
      ensures events == old(events) && selected == old(selected) && form == old(form)
      ensures eventDialogOpen == old(eventDialogOpen)
      ensures user.None? || form.title == "" ==> sent.None? && taskDialogOpen == old(taskDialogOpen)
      ensures user.Some? && form.title != "" ==>
                !taskDialogOpen
                && sent == Some(if selected.Some? && !selected.value.isCommunity
                                then UpdateTask(selected.value.originalId, form)
                                else InsertTask(user.value, form))
    {
      if user.None? || form.title == "" {
        return None;
      }
      if selected.Some? && !selected.value.isCommunity {
        sent := Some(UpdateTask(selected.value.originalId, form));
      } else {
        sent := Some(InsertTask(user.value, form));
      }
      taskDialogOpen := false;
    }

    /** handleDeleteTask: only a selected personal task is deleted; the dialog closes when
        the store confirms. Returns the id of the deleted row. */
    method DeleteTask(outcome: Status) returns (sent: Option<nat>)
      modifies this
      ensures events == old(events) && selected == old(selected) && form == old(form)
      ensures eventDialogOpen == old(eventDialogOpen)
      ensures sent.Some? <==> selected.Some? && !selected.value.isCommunity
      ensures sent.Some? ==> sent.value == selected.value.originalId
      ensures taskDialogOpen == if sent.Some? && outcome.Success? then false else old(taskDialogOpen)
    {
      if selected.None? || selected.value.isCommunity {
        return None;
      }
      sent := Some(selected.value.originalId);
      if outcome.Success? {
        taskDialogOpen := false;
      }
    }
  }

  /** Clicking a personal task on a freshly fetched calendar and saving it with a title sends
      an update of that very task, with its own fields in the form. */
  method EditRoundTrip(cal: TaskCalendar, user: string, tasks: seq<Task>, events: seq<CommunityEvent>, k: nat)
    returns (sent: Option<TaskWrite>)
    requires cal.events == Merge(tasks, events)
    requires DistinctTaskIds(tasks) && DistinctEventIds(events)
    requires k < |tasks| && tasks[k].title != ""
    modifies cal
    ensures sent == Some(UpdateTask(tasks[k].id, FormOf(FromTask(tasks[k]))))
  {
    MergeIdsDistinct(tasks, events);
    FindById(cal.events, k);
    cal.EventClick(TaskId(tasks[k].id));
    sent := cal.SaveTask(Some(user));
  }
}
