/** The event popup's form: title, start and end time texts and
    description, filled from the edited event (or the defaults for a new
    one), changed by the inputs, and submitted as an event without id. */
module EventPopup {
  import opened Dates
  import opened Outcomes
  import opened Events
  import opened Clock

  datatype Form = Form(title: string, startTime: string, endTime: string, description: string)

  const DefaultStart := "09:00 AM"
  const DefaultEnd := "10:00 AM"

  /** JavaScript's `a || b` on strings: `b` when `a` is empty. */
  function OrElse(a: string, b: string): string {
    if a != "" then a else b
  }

  /** The `useState` initial values: the event's fields, with the defaults
      standing in for empty ones. */
  function InitialForm(event: Option<Event>): Form {
    match event
    case None => Form("", DefaultStart, DefaultEnd, "")
    case Some(e) => Form(e.title, OrElse(e.time, DefaultStart), OrElse(e.endTime, DefaultEnd), e.description)
  }

  /** The effect on `[event]`: copies the event's fields, an empty end time
      becoming one hour after the start; with no event, the blank form. */
  function SyncedForm(event: Option<Event>): Form {
    match event
    case None => Form("", DefaultStart, DefaultEnd, "")
    case Some(e) => Form(e.title, e.time, OrElse(e.endTime, OneHourLater(e.time)), e.description)
  }

  /** `handleSubmit`: the form's fields on the popup's day, and no id. */
  function Payload(f: Form, selectedDate: Date): Draft {
    Draft(f.title, selectedDate, f.startTime, f.endTime, f.description)
  }

  /** Without an event both the initial values and the effect give the blank
      form, whose times are the picker options 36 and 40. */
  lemma BlankForm()
    ensures InitialForm(None) == SyncedForm(None) == Form("", "09:00 AM", "10:00 AM", "")
    ensures SyncedForm(None).startTime == TimeOptions()[36]
    ensures SyncedForm(None).endTime == TimeOptions()[40]
  {
    DefaultTimesAreOptions();
  }

  /** Opening an event that has an end time and submitting it unchanged on
      its own day gives back the event without its id. */
  lemma SubmitUnchanged(e: Event)
    requires e.endTime != ""
    ensures Payload(SyncedForm(Some(e)), e.date) == DraftOf(e)
  {
  }

  /** An event stored without an end time is shown ending one hour after it
      starts, or "Invalid Date" when its start cannot be read. */
  lemma MissingEndTime(e: Event)
    requires e.endTime == ""
    ensures ParseClock(e.time).Some? ==>
      ParseClock(SyncedForm(Some(e)).endTime) == Some((ParseClock(e.time).value + 60) % MinutesPerDay)
    ensures ParseClock(e.time).None? ==> SyncedForm(Some(e)).endTime == "Invalid Date"
  {
    OneHourLaterSpec(e.time);
  }

  /** The popup component's form state. */
  class Popup {
    var title: string
    var startTime: string
    var endTime: string
    var description: string

    function State(): Form
      reads this
    {
      Form(title, startTime, endTime, description)
    }

    constructor (event: Option<Event>)
      ensures State() == InitialForm(event)
    {
      match event {
        case None =>
          title, startTime, endTime, description := "", DefaultStart, DefaultEnd, "";
        case Some(e) =>
          title := e.title;
          startTime := OrElse(e.time, DefaultStart);
          endTime := OrElse(e.endTime, DefaultEnd);
          description := e.description;
      }
    }

    /** The effect that runs whenever the `event` prop changes. */
    method SyncWithEvent(event: Option<Event>)
      modifies this
      ensures State() == SyncedForm(event)
    {
      match event {
        case Some(e) =>
          title := e.title;
          startTime := e.time;
          endTime := if e.endTime != "" then e.endTime else OneHourLater(e.time);
          description := e.description;
        case None =>
          title := "";
          startTime := DefaultStart;
          endTime := DefaultEnd;
          description := "";
      }
    }

    method SetTitle(v: string)
      modifies this
      ensures State() == old(State()).(title := v)
    {
      title := v;
    }

    method SetStartTime(v: string)
      modifies this
      ensures State() == old(State()).(startTime := v)
    {
      startTime := v;
    }

    method SetEndTime(v: string)
      modifies this
      ensures State() == old(State()).(endTime := v)
    {
      endTime := v;
    }

    method SetDescription(v: string)
      modifies this
      ensures State() == old(State()).(description := v)
    {
      description := v;
    }

    /** `handleSubmit`: the draft handed to `onSave`. */
    function Submit(selectedDate: Date): Draft
      reads this
    {
      Payload(State(), selectedDate)
    }

    /** `calculateDuration()`. */
    function Duration(): string
      reads this
    {
      DurationText(startTime, endTime)
    }
  }
}
