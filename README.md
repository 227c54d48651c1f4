# Calendar frontend: a Dafny model of its scheduling logic

This project models the decision logic of a browser calendar app. A signed-in user browses a month grid and a mini calendar. They open a popup on a day to add, edit or delete an event, and list all events on a separate page, which links back to the calendar. The model covers:

- **Calendar arithmetic** (`Dates`, `Grid`). Proleptic Gregorian dates, with a day number that counts from 0001-01-01 and weekdays numbered from Sunday. On top of these sit the date-fns helpers the components call: `startOfMonth`, `endOfMonth`, `startOfWeek` and `endOfWeek` with Sunday as the week start, `eachDayOfInterval`, and `addMonths`/`subMonths` with day clamping. The month grid is built from exactly these helpers. The lemmas prove its shape: it is whole weeks, it is aligned and ascending, it covers the month, and each cell appears once.
- **Calendar grid component** (`CalendarGrid`). Its state (`direction`, `selectedDate`, `selectedEvent`, `events`) and every handler. `loadEvents` and the save and delete handlers await remote calls; each awaited call is one atomic step whose outcome (a value or an error) is a parameter. After a successful add, update or delete, the component refetches the whole month and closes the popup.
- **Per-day query** (`Events`). `getEventsForDay` keeps the events dated on the day and sorts them by their time text. The sort is an insertion sort, as stable as JavaScript's `Array.prototype.sort`. The comparator is plain lexicographic order on the time strings.
- **Sidebar** (`Sidebar`). The same range of days, the one-letter headers, month stepping, and the day click.
- **Event popup** (`EventPopup`, `Clock`). The four form fields, with their initial values, the reset effect and the setters. It also covers the submitted payload, the 96 quarter-hour `hh:mm AM/PM` options and the "H hours M minutes" duration label.
- **Mock store** (`MockApi`). The module-level list of events with month filtering (on the 0-based month), slicing into pages, the page count, append, replace-first-match, splice-first-match and find.
- **Session provider** (`Auth`). `user`, `loading` and the persisted `token` entry, across hydrate, login, signup and logout.
- **Events pages** (`EventsPage`, `LegacyEventsPage`). Auth gating, loading, the delete-then-filter step, and the "View in Calendar" link.
- **Calendar page** (`CalendarPage`). It reads that link's `date` parameter back with `parseISO`. The `IsoDate` module proves the `yyyy-MM-dd` round trip (the calendar date in ISO 8601 extended format).

Stateful components are classes whose fields are the component's state. `CalendarGrid.Controller`, `Auth.AuthProvider` and `EventsPage.Page` have a `State()` function, and their handlers promise `State() == AfterX(old(State()), …)` for a pure transition `AfterX`. `EventPopup.Popup` also has one: its effect promises `State() == SyncedForm(event)`, and each setter promises the old state with only its own field replaced. `MockApi.MockStore`, `LegacyEventsPage.Page` and `CalendarPage.Page` state their new fields directly, through pure functions such as `ReplaceFirst`, `RemoveFirst`, `AfterEffect`, `AfterDelete` and `NewCurrentDate`. The properties are lemmas on those pure functions.

The code has no event cache keyed by month and no guard against stale responses. It does no optimistic insert, and it does not log the user out on a 401. Each successful mutation triggers a full refetch of the month, every response is applied when it arrives, and a 401 from the HTTP helper only redirects the browser.

## Model

| member | source | states |
|---|---|---|
| Dates.DaysInMonth | components/calendar-grid.tsx:36 | a month has 28 to 31 days, and 29 exactly for February of a leap year |
| Dates.Weekday | components/calendar-grid.tsx:37 | the weekday is 0 (Sunday) to 6 |
| Dates.WeekdayShift | components/calendar-grid.tsx:37-38 | moving k days moves the weekday by k modulo 7 |
| Dates.BeforeIffDayNumber | components/calendar-grid.tsx:40 | calendar order on (year, month, day) is exactly order on day numbers |
| Dates.DayNumberInjective | components/calendar-grid.tsx:44 | two real dates with the same day number are the same day, so `isSameDay` is equality |
| Dates.NextDay | components/calendar-grid.tsx:40 | the next day is a real date one day number later |
| Dates.PrevDay | components/calendar-grid.tsx:37 | the previous day is a real date one day number earlier |
| Dates.AddDays | components/calendar-grid.tsx:38-40 | adding k days gives a real date exactly k day numbers later |
| Dates.SubDays | components/calendar-grid.tsx:37 | subtracting k days gives a real date exactly k day numbers earlier |
| Dates.StartOfMonth | components/calendar-grid.tsx:35 | `startOfMonth` is day 1 of the same month |
| Dates.EndOfMonth | components/calendar-grid.tsx:36 | `endOfMonth` is the last day of the same month |
| Dates.AddMonths | components/calendar-grid.tsx:53-56 | `addMonths` moves the month index by k and clamps the day to the new month's length |
| Dates.SubMonths | components/calendar-grid.tsx:48-51 | `subMonths` moves the month index back by k and gives a real date |
| Dates.NextMonthRollover | components/calendar-grid.tsx:53-56 | the next month of December is January of the next year; otherwise the same year |
| Dates.PrevMonthRollover | components/calendar-grid.tsx:48-51 | the previous month of January is December of the year before; otherwise the same year |
| Dates.AddMonthsRoundTrip | components/sidebar.tsx:25-26 | when the day exists in the target month, moving k months and back returns the same date |
| Dates.MonthIndexInjective | components/calendar-grid.tsx:48-56 | equal month indexes mean the same month of the same year |
| Grid.StartOfWeek | components/calendar-grid.tsx:37 | `startOfWeek` is the Sunday on or before the day, at most six days earlier |
| Grid.EndOfWeek | components/calendar-grid.tsx:38 | `endOfWeek` is the Saturday on or after the day, at most six days later |
| Grid.EachDay | components/calendar-grid.tsx:40 | the list of n consecutive days has length n |
| Grid.LeadingDays | components/calendar-grid.tsx:37 | between 0 and 6 days of the previous month come before the 1st |
| Grid.GridCell | components/calendar-grid.tsx:35-40 | cell i is a real date, i days after the Sunday that starts the grid |
| Grid.GridColumn | components/calendar-grid.tsx:148-153 | cell i falls on weekday i mod 7, so it lies under its header |
| Grid.GridColumns | components/calendar-grid.tsx:148-153 | every cell lies under the header of its own weekday |
| Grid.GridLength | components/calendar-grid.tsx:35-40 | the grid's length is a multiple of 7 between 28 and 42 |
| Grid.GridFirstCell | components/calendar-grid.tsx:37 | the first cell is the Sunday on or before the month's 1st |
| Grid.GridLastCell | components/calendar-grid.tsx:38 | the last cell is the Saturday on or after the month's last day |
| Grid.GridShape | components/calendar-grid.tsx:35-40 | whole weeks, 28 to 42 cells, starting on that Sunday and ending on that Saturday |
| Grid.GridCoversMonth | components/calendar-grid.tsx:35-40 | day k of the month is at index leading days + k - 1 |
| Grid.GridCoversInterval | components/calendar-grid.tsx:40 | every day between the first and the last cell is in the grid, at its offset from the first cell |
| Grid.GridIndexUnique | components/calendar-grid.tsx:40 | no day appears twice in the grid |
| Grid.GridAscending | components/calendar-grid.tsx:40 | cells are in strictly ascending calendar order |
| Grid.InMonthIffNotSpillover | components/calendar-grid.tsx:156-157 | a cell is in the displayed month exactly when its index lies in the month's run of days |
| Grid.GridOfSameMonth | components/calendar-grid.tsx:35-40 | any two dates of the same month give the same grid |
| Grid.Cells | components/calendar-grid.tsx:153-159 | one styled cell per grid day, in grid order |
| Grid.CellFlags | components/calendar-grid.tsx:156-159 | a cell is muted exactly outside the month's run; at most one cell is marked selected and at most one is marked today |
| Grid.JuneDayNumbers | components/calendar-grid.tsx:35-38 | known values: 1 June 2023 is a Thursday, 30 June 2023 is a Friday, and June has 30 days |
| Grid.JuneTwentyTwentyThree | components/calendar-grid.tsx:35-40 | the June 2023 grid has 35 cells, from Sunday 28 May to Saturday 1 July |
| Grid.EachDayOfInterval | components/calendar-grid.tsx:40 | `eachDayOfInterval`: the days from start to end, both included; `Grid.GridCell` and `Grid.GridCoversInterval` state its contents |
| Grid.MonthGrid | components/calendar-grid.tsx:35-40 | `dateRange`, composed of the four date-fns helpers as in the component; its properties are the `Grid` lemmas above |
| Events.WithIdRoundTrip | components/calendar-grid.tsx:82 | adding the selected event's id to a draft and dropping it again gives the draft back |
| Events.OnDayCount | components/calendar-grid.tsx:44 | the day filter keeps every event dated on the day as often as it occurs, and nothing else |
| Events.InsertByTimeCount | components/calendar-grid.tsx:45 | inserting adds exactly the one event |
| Events.InsertByTimeSorted | components/calendar-grid.tsx:45 | inserting into a list sorted by time keeps it sorted |
| Events.SortByTimeSorted | components/calendar-grid.tsx:45 | the sort returns a permutation of its input, sorted by time text |
| Events.SortByTimeStable | components/calendar-grid.tsx:45 | events with equal time keep their relative order |
| Events.EventsForDaySpec | components/calendar-grid.tsx:42-46 | `getEventsForDay` is sorted by time text, is a permutation of the events on the day, and keeps the order of equal times |
| Events.OnDay | components/calendar-grid.tsx:44 | the `isSameDay` filter; `Events.OnDayCount` and `Events.OnDayConcat` state what it keeps and in which order |
| Events.OnDayConcat | components/calendar-grid.tsx:44 | the day filter works piecewise on any split of the loaded list, so the kept events stay in load order |
| Events.SortByTime | components/calendar-grid.tsx:45 | the stable sort by time text; `Events.SortByTimeSorted` and `Events.SortByTimeStable` state it |
| Events.EventsForDay | components/calendar-grid.tsx:42-46 | `getEventsForDay`: the sort of the day's filter; `Events.EventsForDaySpec` states it |
| Events.TimeTextOrderIsNotChronological | components/calendar-grid.tsx:45 | "01:00 PM" sorts before "09:00 AM": the order is textual, not chronological |
| Events.RemoveByIdSpec | app/events/page.tsx:44 | the filter drops every event with the id and keeps every other event as often as before; it changes nothing when no event has the id |
| Events.RemoveByIdConcat | app/events/page.tsx:44 | the filter acts on each part of a list separately, so the survivors keep their order |
| Events.RemoveById | app/events/page.tsx:44 | `events.filter(event => event.id !== id)`; `Events.RemoveByIdSpec` and `Events.RemoveByIdConcat` state it |
| Events.CalendarLink | app/events/page.tsx:79-80 | the link is `/calendar?date=` followed by the event's date as `yyyy-MM-dd` |
| Text.NatToString | components/utils/mockAPI.ts:33 | `toString` of a whole number is a non-empty run of digits with no leading zero |
| Text.ParseNatToString | components/utils/mockAPI.ts:33 | reading the digits back gives the number |
| Text.TwoRoundTrip | components/EventPopup.tsx:22 | a two-digit field written and read back gives its value |
| Text.FourRoundTrip | app/events/page.tsx:79 | a four-digit year written and read back gives its value |
| Text.StrLeTotal | components/calendar-grid.tsx:45 | any two time texts are comparable |
| Text.StrLeAntisymmetric | components/calendar-grid.tsx:45 | texts ordered both ways are equal |
| Text.StrLeTransitive | components/calendar-grid.tsx:45 | the text order is transitive |
| IsoDate.FormatYmd | app/events/page.tsx:79 | for years 1 to 9999 the text is ten characters with dashes at positions 4 and 7 |
| IsoDate.ParseIsoDate | app/calendar/page.tsx:29-30 | whatever `parseISO` accepts is a real date with a year from 0 to 9999 |
| IsoDate.ParseFormatRoundTrip | app/calendar/page.tsx:29 | the `yyyy-MM-dd` text of a date in years 1 to 9999 parses back to the same date |
| IsoDate.FormatParseRoundTrip | app/calendar/page.tsx:29 | a text that parses to a year from 1 upward is exactly the formatted date |
| IsoDate.YearZeroIsNotRestored | app/events/page.tsx:79 | year 0 parses but prints as era year "0001", so that round trip does not close |
| Clock.Hour12 | components/EventPopup.tsx:22 | the hour on a 12-hour clock is 1 to 12 |
| Clock.Hour24 | components/EventPopup.tsx:22 | the 24-hour hour is 0 to 23, and 12 or more exactly in the afternoon |
| Clock.Hour12Of24 | components/EventPopup.tsx:22 | converting a 12-hour clock reading to 24 hours and back gives the same hour |
| Clock.Hour24Of12 | components/EventPopup.tsx:22 | converting a 24-hour hour to 12 hours and back gives the same hour |
| Clock.ParseClock | components/EventPopup.tsx:57-58 | a readable `hh:mm AM/PM` text is a minute of the day |
| Clock.ParseFormatClock | components/EventPopup.tsx:22 | the text of every minute of the day reads back as that minute |
| Clock.FormatParseClock | components/EventPopup.tsx:57-58 | every readable text is exactly the text of its minute |
| Clock.FormatClock | components/EventPopup.tsx:22 | `format(…, 'hh:mm a')` of a minute of the day; `Clock.ParseFormatClock` and `Clock.FormatParseClock` state it |
| Clock.TimeOptions | components/EventPopup.tsx:18 | there are 96 options |
| Clock.TimeOptionsSpec | components/EventPopup.tsx:18-23 | option i reads as 15·i minutes after midnight, and the options are pairwise distinct |
| Clock.DefaultTimesAreOptions | components/EventPopup.tsx:18-23 | the first option is "12:00 AM", option 36 is "09:00 AM", option 40 is "10:00 AM" and the last is "11:45 PM" |
| Clock.OneHourLaterSpec | components/EventPopup.tsx:35 | the fallback end time reads as the start plus 60 minutes, wrapping at midnight; an unreadable start gives "Invalid Date" |
| Clock.OneHourLaterOfClock | components/EventPopup.tsx:35 | the fallback end time of a minute's text is the text of the minute an hour later |
| Clock.OneHourAfterNine | components/EventPopup.tsx:35 | "09:00 AM" gives "10:00 AM" |
| Clock.OneHourAfterLateEvening | components/EventPopup.tsx:35 | "11:30 PM" gives "12:30 AM" |
| Clock.OneHourAfterNoon | components/EventPopup.tsx:35 | "12:15 PM" gives "01:15 PM" |
| Clock.OneHourLater | components/EventPopup.tsx:35 | the fallback end time, one hour after the start; `Clock.OneHourLaterSpec` states it |
| Clock.JsRem | components/EventPopup.tsx:61 | JavaScript's `%` is the Euclidean remainder for a non-negative dividend, and otherwise lies between -b and 0 |
| Clock.DurationEmpty | components/EventPopup.tsx:56-63 | an unreadable time, or an end at or before the start, gives an empty label |
| Clock.NoLabelWithoutTime | components/EventPopup.tsx:59-62 | no positive hours or minutes means no label |
| Clock.DurationReadsBack | components/EventPopup.tsx:59-62 | the label of every positive duration is accepted by a reader that takes a part only with a positive count, an "s" exactly after a count above one and minutes below 60, and it reads back as that duration |
| Clock.ReaderRefusesMisshapenLabels | components/EventPopup.tsx:62 | the reader refuses "1 hours", "2 hour", "0 hours 30 minutes" and " 1 minutes" |
| Clock.DurationOfMinutes | components/EventPopup.tsx:59-62 | the label of a difference in minutes; `Clock.DurationReadsBack` and `Clock.NoLabelWithoutTime` state it |
| Clock.HourLabels | components/EventPopup.tsx:62 | 60 gives "1 hour", 120 gives "2 hours", and 61 gives "1 hour 1 minute" |
| Clock.MinuteLabels | components/EventPopup.tsx:62 | 90 gives "1 hour 30 minutes" |
| Clock.ShortDurationLabel | components/EventPopup.tsx:62 | 45 gives " 45 minutes", with the leading space |
| Clock.DefaultDuration | components/EventPopup.tsx:27-28 | the default times give "1 hour" |
| Clock.DurationText | components/EventPopup.tsx:56-63 | `calculateDuration` on the two time texts; `Clock.DurationEmpty` and `Clock.DefaultDuration` state it |
| EventPopup.BlankForm | components/EventPopup.tsx:26-29 | without an event, both the initial values and the effect give "", "09:00 AM", "10:00 AM", "", and both times are picker options |
| EventPopup.SubmitUnchanged | components/EventPopup.tsx:31-54 | an event with an end time, opened and submitted unchanged on its own day, gives back the event without its id |
| EventPopup.MissingEndTime | components/EventPopup.tsx:35 | an empty end time is shown as one hour after the start, or "Invalid Date" when the start cannot be read |
| EventPopup.InitialForm | components/EventPopup.tsx:26-29 | the `useState` initial values; `EventPopup.BlankForm` states the blank case |
| EventPopup.SyncedForm | components/EventPopup.tsx:31-43 | the fields the effect sets; `EventPopup.BlankForm`, `EventPopup.MissingEndTime` and `EventPopup.SubmitUnchanged` state it |
| EventPopup.Payload | components/EventPopup.tsx:45-54 | the object `handleSubmit` hands to `onSave`; `EventPopup.SubmitUnchanged` states it |
| EventPopup.Popup.constructor | components/EventPopup.tsx:26-29 | the fields start as the event's fields, with the defaults standing in for empty ones |
| EventPopup.Popup.SyncWithEvent | components/EventPopup.tsx:31-43 | the effect sets all four fields from the event, or resets them |
| EventPopup.Popup.SetTitle | components/EventPopup.tsx:26 | only the title changes |
| EventPopup.Popup.SetStartTime | components/EventPopup.tsx:27 | only the start time changes |
| EventPopup.Popup.SetEndTime | components/EventPopup.tsx:28 | only the end time changes |
| EventPopup.Popup.SetDescription | components/EventPopup.tsx:29 | only the description changes |
| EventPopup.Popup.Submit | components/EventPopup.tsx:45-54 | the payload of the current fields on the popup's day |
| EventPopup.Popup.Duration | components/EventPopup.tsx:56-63 | the duration label of the current start and end times |
| CalendarGrid.MonthRequestSpec | components/calendar-grid.tsx:28 | the request is for month 1 to 12, the 1-based month, and the full year |
| CalendarGrid.LoadSpec | components/calendar-grid.tsx:26-33 | a success replaces the events wholesale; a failure changes nothing |
| CalendarGrid.SaveSpec | components/calendar-grid.tsx:79-91 | with a selected event the call is an update carrying its id and the draft's fields; otherwise an add. Success reloads and closes; failure changes nothing |
| CalendarGrid.DeleteSpec | components/calendar-grid.tsx:93-103 | with no selected event nothing happens; success reloads and closes; failure changes nothing |
| CalendarGrid.HandlersKeepPopupConsistent | components/calendar-grid.tsx:63-103 | every handler keeps a selected event shown on its own day |
| CalendarGrid.AfterLoad | components/calendar-grid.tsx:26-33 | the load transition; `CalendarGrid.LoadSpec` states it |
| CalendarGrid.SaveCallFor | components/calendar-grid.tsx:81-85 | the remote call `handleSaveEvent` makes; `CalendarGrid.SaveSpec` states it |
| CalendarGrid.AfterSave | components/calendar-grid.tsx:79-91 | the save transition; `CalendarGrid.SaveSpec` states it |
| CalendarGrid.AfterDelete | components/calendar-grid.tsx:93-103 | the delete transition; `CalendarGrid.DeleteSpec` states it |
| CalendarGrid.Controller.constructor | components/calendar-grid.tsx:17-20 | direction 0, no selection and no events at mount |
| CalendarGrid.Controller.LoadEvents | components/calendar-grid.tsx:26-33 | returns the requested (month, year), and the new state is the load transition |
| CalendarGrid.Controller.EventsForDayOf | components/calendar-grid.tsx:42-46 | `getEventsForDay` on the loaded events |
| CalendarGrid.Controller.GoToPreviousMonth | components/calendar-grid.tsx:48-51 | hands `subMonths(currentDate, 1)` to the page, and only the direction becomes -1 |
| CalendarGrid.Controller.GoToNextMonth | components/calendar-grid.tsx:53-56 | hands `addMonths(currentDate, 1)` to the page, and only the direction becomes 1 |
| CalendarGrid.Controller.GoToToday | components/calendar-grid.tsx:58-61 | hands the clock's date to the page, and only the direction becomes 0 |
| CalendarGrid.Controller.HandleDateClick | components/calendar-grid.tsx:63-66 | selects the day and clears the selected event |
| CalendarGrid.Controller.HandleEventClick | components/calendar-grid.tsx:68-72 | selects the event and its own day |
| CalendarGrid.Controller.HandleClosePopup | components/calendar-grid.tsx:74-77 | clears both selections |
| CalendarGrid.Controller.HandleSaveEvent | components/calendar-grid.tsx:79-91 | returns the remote call made, and the month reloaded only on success; the new state is the save transition |
| CalendarGrid.Controller.HandleDeleteEvent | components/calendar-grid.tsx:93-103 | deletes the selected event's id, if any, and reloads only on success; the new state is the delete transition |
| Sidebar.DateRangeIsMonthGrid | components/sidebar.tsx:18-23 | the mini calendar shows exactly the main grid's days, each under its weekday |
| Sidebar.HeaderLabels | components/sidebar.tsx:70-72 | one label per header |
| Sidebar.HeaderLabelsSpec | components/sidebar.tsx:70-72 | the labels are S, M, T, W, T, F, S, the initials of the main grid's headers |
| Sidebar.PreviousMonthTarget | components/sidebar.tsx:25 | the date handed on is a real date one month earlier |
| Sidebar.NextMonthTarget | components/sidebar.tsx:26 | the date handed on is a real date one month later |
| Sidebar.StepForwardAndBack | components/sidebar.tsx:25-26 | a step forward and then back returns to the day, whenever the day exists in the next month |
| Sidebar.CellClick | components/sidebar.tsx:87 | a click hands on exactly that cell's day |
| Sidebar.DisplayedDayIsSelected | components/sidebar.tsx:82-85 | with the page's wiring, exactly one cell is marked selected: the displayed day |
| Sidebar.DateRange | components/sidebar.tsx:18-23 | the sidebar's `dateRange`; `Sidebar.DateRangeIsMonthGrid` states it |
| Sidebar.SidebarCells | components/sidebar.tsx:82-85 | the sidebar's styled cells; `Sidebar.DisplayedDayIsSelected` states them under the page's wiring |
| MockApi.FindIndex | components/utils/mockAPI.ts:39 | `findIndex` is the first position with the id, or none exactly when no position has it |
| MockApi.FindFirstAtIndex | components/utils/mockAPI.ts:55 | `find` gives the element at the `findIndex` position, or nothing exactly when that finds nothing |
| MockApi.FindFirst | components/utils/mockAPI.ts:55 | `find(e => e.id === id)`; `MockApi.FindFirstAtIndex` states it |
| MockApi.InMonthSpec | components/utils/mockAPI.ts:24-26 | the filter keeps exactly the events of the 0-based month and year, each as often as before |
| MockApi.InMonthConcat | components/utils/mockAPI.ts:24-26 | the month filter works piecewise on any split of the store, so its result is in store order |
| MockApi.InMonth | components/utils/mockAPI.ts:24-26 | the month filter on the 0-based month; `MockApi.InMonthSpec` and `MockApi.InMonthConcat` state it |
| MockApi.TotalPagesSpec | components/utils/mockAPI.ts:27 | with a positive page size, the count is the least number of pages that holds all events, and 0 exactly when nothing matches |
| MockApi.TotalPages | components/utils/mockAPI.ts:27 | `Math.ceil(count / pageSize)`, with Infinity and NaN for a zero page size; `MockApi.TotalPagesSpec` states it |
| MockApi.SliceIndex | components/utils/mockAPI.ts:28 | `slice` clamps an index into the list |
| MockApi.Slice | components/utils/mockAPI.ts:28 | `slice(b, e)` with its index clamping, through `MockApi.SliceIndex` |
| MockApi.Page | components/utils/mockAPI.ts:28 | page `page` of the filtered list; `MockApi.PageBound`, `MockApi.PageSplit` and `MockApi.PagesCoverAll` state it |
| MockApi.PageBound | components/utils/mockAPI.ts:28 | a page holds at most page-size events |
| MockApi.PageSplit | components/utils/mockAPI.ts:28 | page k is the elements from (k-1)·size up to k·size, cut to the list |
| MockApi.FirstPagesPrefix | components/utils/mockAPI.ts:28 | pages 1 to k together are the first k·size elements |
| MockApi.PagesCoverAll | components/utils/mockAPI.ts:27-28 | pages 1 to the page count together are the whole filtered list; any page after that is empty |
| MockApi.ReplaceFirstSpec | components/utils/mockAPI.ts:38-44 | the update writes the new event at the first position with its id and changes no other position, a later one with the same id included; it changes nothing for an absent id, keeps the length, and keeps ids unique |
| MockApi.ReplaceFirst | components/utils/mockAPI.ts:39-42 | `mockEvents[index] = event` at the first match; `MockApi.ReplaceFirstSpec` states it |
| MockApi.RemoveFirst | components/utils/mockAPI.ts:47-50 | `splice(index, 1)` at the first match; `MockApi.RemoveFirstCount` and `MockApi.RemoveFirstKeepsLater` state it |
| MockApi.RemoveFirstCount | components/utils/mockAPI.ts:46-52 | when the id is present exactly one element, its first match, is removed; otherwise nothing changes |
| MockApi.RemoveFirstKeepsLater | components/utils/mockAPI.ts:47-49 | later elements with the same id remain, first among them the next match |
| MockApi.RemoveFirstUnique | components/utils/mockAPI.ts:46-52 | removal keeps ids unique |
| MockApi.RemoveFirstIsRemoveById | components/utils/mockAPI.ts:46-52 | with unique ids, removing the first match equals the pages' delete filter |
| MockApi.AppendFound | components/utils/mockAPI.ts:32-36 | an appended event with a fresh id is found by its id, and ids stay unique |
| MockApi.SeedMonths | components/utils/mockAPI.ts:3-28 | the seed events are month 5 (June, 0-based) of 2023, and the default first page of ten holds both; month 6 matches none |
| MockApi.MockStore.constructor | components/utils/mockAPI.ts:3-20 | the store starts with the two seed events |
| MockApi.MockStore.GetEventsByMonth | components/utils/mockAPI.ts:23-30 | the answer is the requested page of the month's events and the page count, and the store is only read |
| MockApi.MockStore.GetEventById | components/utils/mockAPI.ts:54-57 | the answer is the first stored event with the id, or nothing exactly when none has it |
| MockApi.MockStore.AddEvent | components/utils/mockAPI.ts:32-36 | appends the draft with the clock's id, leaves earlier elements alone, and returns the new event |
| MockApi.MockStore.UpdateEvent | components/utils/mockAPI.ts:38-44 | replaces the first match and returns the argument |
| MockApi.MockStore.DeleteEvent | components/utils/mockAPI.ts:46-52 | splices out the first match |
| Auth.InitialValid | components/utils/authContext.tsx:20-21 | no user and loading at mount |
| Auth.HydrateWithoutToken | components/utils/authContext.tsx:24-32 | without a token loading ends, no user is set, and the verification outcome plays no part |
| Auth.HydrateWithToken | components/utils/authContext.tsx:25-29 | with a token a verified user is set and the token kept; a failure removes the token; either way loading ends |
| Auth.SignInSpec | components/utils/authContext.tsx:35-45 | a success stores the token under "token", sets the user and keeps every other entry; a failure changes nothing |
| Auth.LogoutSpec | components/utils/authContext.tsx:47-50 | logout removes the token and the user, leaves loading alone, and is idempotent |
| Auth.TransitionsPreserveValid | components/utils/authContext.tsx:26-49 | a signed-in user always has a stored token, across hydrate, login, signup and logout |
| Auth.EmptyTokenIsForgotten | components/utils/authContext.tsx:25-43 | an empty token signs the user in but counts as no token at the next start-up |
| Auth.AfterHydrate | components/utils/authContext.tsx:23-33 | the start-up transition; `Auth.HydrateWithoutToken` and `Auth.HydrateWithToken` state it |
| Auth.AfterSignIn | components/utils/authContext.tsx:35-45 | the login and signup transition; `Auth.SignInSpec` states it |
| Auth.AfterLogout | components/utils/authContext.tsx:47-50 | the logout transition; `Auth.LogoutSpec` states it |
| Auth.AuthProvider.constructor | components/utils/authContext.tsx:20-21 | the provider starts in the initial session over the persisted store |
| Auth.AuthProvider.Hydrate | components/utils/authContext.tsx:23-33 | verification happens exactly when a token is stored, and the new state is the hydrate transition |
| Auth.AuthProvider.StoreSession | components/utils/authContext.tsx:37-38 | stores the token and sets the user |
| Auth.AuthProvider.Login | components/utils/authContext.tsx:35-39 | the new state is the sign-in transition, and the call fails exactly when the remote call failed |
| Auth.AuthProvider.Signup | components/utils/authContext.tsx:41-45 | the same for sign-up |
| Auth.AuthProvider.Logout | components/utils/authContext.tsx:47-50 | the new state is the logout transition |
| EventsPage.CheckSpec | app/events/page.tsx:18-30 | while the session loads nothing changes and a spinner shows; without a user the page redirects home and renders nothing; with one the list is the server's or the old one, and loading ends |
| EventsPage.DeleteSpec | app/events/page.tsx:41-48 | a success drops every event with the id and keeps the rest in order; a failure changes nothing |
| EventsPage.AfterCheck | app/events/page.tsx:18-30 | the effect's transition; `EventsPage.CheckSpec` states it |
| EventsPage.AfterDelete | app/events/page.tsx:41-48 | the delete transition; `EventsPage.DeleteSpec` states it |
| EventsPage.Render | app/events/page.tsx:50-62 | spinner while the session loads, nothing without a user, otherwise the list; `EventsPage.CheckSpec` states it |
| EventsPage.Page.constructor | app/events/page.tsx:13-14 | an empty list, loading |
| EventsPage.Page.CheckAuthAndLoadEvents | app/events/page.tsx:18-30 | returns what the effect did, and the new state is the check transition |
| EventsPage.Page.LoadEvents | app/events/page.tsx:32-39 | a success replaces the list; a failure keeps it |
| EventsPage.Page.HandleDeleteEvent | app/events/page.tsx:41-48 | the new state is the delete transition |
| LegacyEventsPage.DeleteSpec | components/events.tsx:34-45 | an empty id makes no call and changes nothing; otherwise a success drops exactly the events with the id; a failure changes nothing |
| LegacyEventsPage.EffectSpec | components/events.tsx:17-32 | without a user the page redirects home and keeps its list; with one the list is the server's, or the old one after a failure |
| LegacyEventsPage.AfterEffect | components/events.tsx:17-32 | the list after the effect; `LegacyEventsPage.EffectSpec` states it |
| LegacyEventsPage.AfterDelete | components/events.tsx:34-45 | the list after a delete; `LegacyEventsPage.DeleteSpec` states it |
| LegacyEventsPage.Page.constructor | components/events.tsx:13 | an empty list |
| LegacyEventsPage.Page.OnUser | components/events.tsx:17-32 | returns what the effect did, and the list is the effect's result |
| LegacyEventsPage.Page.HandleDeleteEvent | components/events.tsx:34-45 | the server is called exactly for a non-empty id, and the list is the delete's result |
| LegacyEventsPage.Page.Renders | components/events.tsx:47-49 | the page renders exactly when there is a user |
| CalendarPage.DateParam | app/calendar/page.tsx:26 | the `date` parameter exists exactly when the address has the calendar-link prefix, and the address is the prefix followed by the value |
| CalendarPage.NewCurrentDateSpec | app/calendar/page.tsx:25-37 | a missing, empty or unreadable parameter keeps the displayed date; a readable one replaces it with the parsed day; the date is always real |
| CalendarPage.FollowCalendarLink | app/calendar/page.tsx:29 | following an event's link, from either events page, displays the event's own day, for years 1 to 9999 |
| CalendarPage.NewCurrentDate | app/calendar/page.tsx:25-37 | the displayed date after the parameter effect; `CalendarPage.NewCurrentDateSpec` states it |
| CalendarPage.RedirectsHome | app/calendar/page.tsx:19-23 | the page sends the visitor to '/' exactly when there is no user |
| CalendarPage.Renders | app/calendar/page.tsx:39-41 | the page renders exactly when there is a user |
| CalendarPage.Page.constructor | app/calendar/page.tsx:13-14 | the displayed date is the clock's date, and the sidebar is open |
| CalendarPage.Page.ApplyDateParam | app/calendar/page.tsx:25-37 | the displayed date becomes the parameter transition's result; the sidebar is unchanged |
| CalendarPage.Page.SetCurrentDate | app/calendar/page.tsx:47-49 | a sidebar or grid selection becomes the displayed date |
| CalendarPage.Page.SetSidebarOpen | app/calendar/page.tsx:52 | only the sidebar flag changes |
| CalendarPage.Page.SelectedDate | app/calendar/page.tsx:50 | the sidebar's selected date is the displayed date |

## Left out

- HTTP clients (`components/utils/eventHelper.ts`, `components/utils/authAPI.tsx`): network I/O. Each call is an outcome parameter, a value or an error message. The 401/403 redirect in `eventHelper.ts` is browser navigation, so it is not modelled, and it clears no session state.
- The calendar grid loads through `eventHelper.getEventsByMonth`, which sends the 1-based month over HTTP. The mock store filters on the 0-based month and is not connected to the grid. `MockApi.SeedMonths` records the mismatch.
- Rendering, animation and layout (framer-motion variants, `direction`'s slide, `isSidebarOpen`'s width, the spinner, the pages under `app/page.tsx`, `components/AuthPopup.tsx`, `components/layout.tsx`, `components/event-list.tsx`). None of these make decisions. Redirects to '/' are results (`Gate`, `Effect`, `RedirectsHome`), not navigation.
- `components/event-modal.tsx`, `components/event-form.tsx`, `components/calendar.tsx` and `components/index.tsx`: they copy form fields or repeat the calendar page's wiring, and are not part of this model.
- Time zones and the JavaScript `Date` object. Dates are (year, month, day) with no time of day. `new Date(event.date)` is the event's date itself. The clock (`new Date()`, `isToday`, `Date.now()`) is a parameter.
- Clock.ParseClock: reads only the `hh:mm AM/PM` form. The engine-specific parsing of `new Date('2000-01-01 …')` accepts more texts than this model reads.
- Clock.OneHourLaterSpec: `toLocaleTimeString('en-US', …)` is modelled as the same `hh:mm AM/PM` text that `format(…, 'hh:mm a')` prints. Other locales' output is not modelled.
- Clock.TimeOptions: `setHours` on today's date is taken to land on the requested hour. A daylight-saving gap, where the local clock skips an hour, is not modelled.
- IsoDate.ParseIsoDate: reads only the `YYYY-MM-DD` form. An engine's `parseISO` also accepts week dates, ordinal dates, times and the basic format. For such a text the model keeps the displayed date where the page would move to the parsed instant.
- Events.SortByTime: `localeCompare` collation is modelled as plain lexicographic order on characters. Locale-aware collation is not modelled. The 12-hour texts still do not sort chronologically, as `Events.TimeTextOrderIsNotChronological` shows.
- MockApi.MockStore.GetEventsByMonth: `page` and `pageSize` are whole numbers. Fractional or NaN arguments are not modelled. A zero or negative page size is kept: the count is then `Infinite`, `NotANumber` or a negative `Pages` value, and `slice` gives what it gives.
- MockApi.MockStore.AddEvent: the id is `Date.now()` as decimal text, passed in. Two adds in the same millisecond would collide; the model does not rule that out, so `MockApi.AppendFound` requires a fresh id.
- Async interleavings: each awaited call is one atomic step. The code has no guard against late responses, and the model does not invent one. The mount-time hydrate racing a later login is not modelled, so `Auth.AuthProvider.Hydrate` requires the mount state.
- CalendarPage.DateParam: recognises only `/calendar?date=…`, the one address the app builds. General query-string parsing and percent-decoding are not modelled.
- `console.error` logging and the try/catch around `parseISO`, which never throws on a string.
