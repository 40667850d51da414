# MindScribe data layer in Dafny

This project models the browser-side data layer of MindScribe, a notes, tasks and calendar
application that keeps everything in `localStorage`. It covers the following parts:

- **`NotesManager`** (`Notes` module). The user's notes are newest first. It supports create,
  merge-update and delete by id, search, filters by category and by tag, the sorted list of
  distinct tags, and sorting by date, title or category.
- **`TasksManager`** (`Tasks` module). It supports the same operations on tasks, plus
  completion toggling. Its read-only views are pending, completed, overdue, due today and
  by priority, and it can sort by date, priority (Low < Medium < High) or title.
- **`CalendarManager`** (`Calendar` module). It holds the event list, where new events are
  appended. It selects events by day, by month and by category, and it keeps the
  (month, year) on display with previous/next navigation. `getCalendarData` builds the
  42-cell month grid with its three counted loops.
- **`DateUtils`, `TextUtils` and `StorageUtils`** of `js/utils.js`:
  - relative-time bucketing, and the Monday-to-Sunday week and the month around a date;
  - truncation, tag parsing, slugs, and the trivial case of highlighting;
  - the key-value store as a `map<string, string>` with load, save, remove and
    clear-by-prefix.

Shared modules:

- `Dates`: Gregorian calendar arithmetic.
- `Strings`: the JavaScript string built-ins used (whitespace and `trim`, `toLowerCase`,
  `includes`, `x || default`, decimal rendering).
- `Sequences`: `filter` and `findIndex`.
- `Sorting`: a stable sort on number-or-string keys, which stands in for `Array.prototype.sort`.
- `Listeners`: the `on`/`off`/`trigger` registry.

Conventions:

- Timestamps are integers: milliseconds of local wall-clock time, with a fixed UTC offset
  folded in. Local midnight is the timestamp rounded down to a multiple of `DayMs`.
- The clock (`new Date()`) and the id generator (`generateId`, which uses `Date.now` and
  `Math.random`) are parameters: `now`, `today` and `id`.
- The spread merge `{...old, ...patch}` is written as a patch record with optional fields.
  A supplied field wins, even when it is empty.
- `x || 'Default'` on a text field is `Strings.Or`: an absent or empty value takes the
  default.

The entity managers are classes with a `seq` field that their methods reassign. Each
method's `ensures` gives the whole new list in terms of the old one. The read-only views are
functions that read the object.

Where the code departs from its own comments and stated intent, this model follows the code:

- `searchNotes` treats only a blank query as "everything". The two-character minimum lives
  in the user interface, not in the manager.
- `filterByCategory` and `getEventsByCategory` compare categories exactly, with case.
- `trigger` runs the callbacks in order and does not isolate a callback that throws.
- `createEvent` appends at the end rather than inserting at the front.
- `updateEvent` stamps no update time, because an event has no `updatedAt`.

## Model

| member | source | states |
|---|---|---|
| `Notes.NewNote` | js/notes.js:62-73 | the created note has the given id, `createdAt == updatedAt == now`; title/category default to 'Untitled Note'/'Personal' when absent or empty, content to '' and tags to [] |
| `Notes.Merge` | js/notes.js:95-99 | each supplied field overwrites, each absent field is kept, id and `createdAt` are kept and `updatedAt` becomes `now` |
| `Notes.MergeIdempotent` | js/notes.js:95-99 | applying the same patch twice at the same moment equals applying it once |
| `Notes.IndexOf` | js/notes.js:89 | `findIndex`: the first position holding the id, or none exactly when no note has it |
| `Notes.WithoutId` | js/notes.js:115 | the survivors are exactly the notes with another id, each with its multiplicity and in their stored order; length unchanged exactly when the id was absent, and then the list is unchanged |
| `Notes.SampleNotes` | js/notes.js:280-319 | four sample notes with distinct ids; the UTC times are exact at a UTC offset of 0 |
| `Notes.NotesManager.LoadNotes` | js/notes.js:21-31 | the loaded list, or the samples when it is empty |
| `Notes.NotesManager.GetAllNotes` | js/notes.js:44-46 | the returned copy equals the stored list |
| `Notes.NotesManager.GetNoteById` | js/notes.js:53-55 | the first note with that id, or none exactly when no note has it |
| `Notes.NotesManager.CreateNote` | js/notes.js:62-80 | the new note is at index 0 in front of the old list, can be found by its id, and keeps ids unique when the id was fresh |
| `Notes.NotesManager.UpdateNote` | js/notes.js:88-106 | missing id: none and list unchanged; otherwise only the first matching index is replaced by the merged note, so length and order are kept, and the result is what lookup then finds |
| `Notes.NotesManager.DeleteNote` | js/notes.js:113-124 | the list loses every note with that id and keeps the rest in order; true exactly when one existed; afterwards the id is absent, so a repeat returns false |
| `Notes.NotesManager.SearchNotes` | js/notes.js:131-144 | a blank query returns all notes; otherwise, in stored order, exactly the notes whose lower-cased title, content, a tag or category contains the lower-cased query |
| `Notes.NotesManager.FilterByCategory` | js/notes.js:151-157 | '' or 'All' returns all notes; otherwise exactly the notes of that category (case-sensitive), in order |
| `Notes.NotesManager.FilterByTag` | js/notes.js:164-172 | '' returns all notes; otherwise exactly the notes with a tag equal to it ignoring case, in order |
| `Notes.NotesManager.GetAllTags` | js/notes.js:178-188 | every tag of every note and nothing else, each exactly once, in ascending order |
| `Notes.NotesManager.SortNotes` | js/notes.js:196-224 | a permutation of the notes, ordered by the field in the requested direction, with notes of equal key in their stored order |
| `Notes.NotesManager.On` | js/notes.js:239-245 | the callback joins the end of the event's list; notes unchanged |
| `Notes.NotesManager.Off` | js/notes.js:252-259 | the event's list loses that callback; notes unchanged |
| `Notes.NotesManager.Trigger` | js/notes.js:266-274 | an event nobody registered for calls nothing; otherwise its callbacks are called in registration order |
| `Notes.LowerKeepsBlank` | js/notes.js:132-136 | a query is blank exactly when its lower-cased form is |
| `Notes.SearchIgnoresCase` | js/notes.js:136-142 | searching for the lower-cased query gives the same notes as the query itself |
| `Notes.TagFilterIgnoresCase` | js/notes.js:169-171 | filtering by the lower-cased tag gives the same notes as the tag itself |
| `Notes.SortNotesSettles` | js/notes.js:196-224 | sorting a sorted copy again changes nothing |
| `Tasks.NewTask` | js/tasks.js:62-73 | the created task has the given id, `createdAt == updatedAt == now`; title/priority default to 'Untitled Task'/'Medium', the due date to `now`, `completed` to false |
| `Tasks.Merge` | js/tasks.js:95-99 | supplied fields overwrite, absent ones are kept, `updatedAt` becomes `now` |
| `Tasks.ToggleFlips` | js/tasks.js:138 | the toggle patch flips `completed` and changes nothing but `updatedAt` |
| `Tasks.ToggleTwice` | js/tasks.js:131-139 | toggling twice restores the task except for its time stamp |
| `Tasks.IndexOf` | js/tasks.js:89 | `findIndex`: the first position holding the id, or none exactly when no task has it |
| `Tasks.WithoutId` | js/tasks.js:115 | the survivors are exactly the tasks with another id, each with its multiplicity and in their stored order; length unchanged exactly when the id was absent, and then the list is unchanged |
| `Tasks.DueTodaySameDay` | js/tasks.js:176-191 | a task is due today exactly when it is pending and its due date falls on the day of `now` |
| `Tasks.PriorityRank` | js/tasks.js:220-222 | ranks lie in 0..3 and are 0 exactly for a priority other than Low, Medium or High |
| `Tasks.SampleTasks` | js/tasks.js:297-327 | three sample tasks with distinct ids; the UTC times are exact at a UTC offset of 0 |
| `Tasks.TasksManager.LoadTasks` | js/tasks.js:21-31 | the loaded list, or the samples when it is empty |
| `Tasks.TasksManager.GetAllTasks` | js/tasks.js:44-46 | the returned copy equals the stored list |
| `Tasks.TasksManager.GetTaskById` | js/tasks.js:53-55 | the first task with that id, or none exactly when no task has it |
| `Tasks.TasksManager.CreateTask` | js/tasks.js:62-80 | the new task is at index 0 in front of the old list and can be found by its id |
| `Tasks.TasksManager.UpdateTask` | js/tasks.js:88-106 | missing id: none and list unchanged; otherwise only the first matching index is replaced by the merged task |
| `Tasks.TasksManager.DeleteTask` | js/tasks.js:113-124 | every task with that id is removed, the rest keep their order; true exactly when one existed; afterwards the id is absent |
| `Tasks.TasksManager.ToggleTaskCompletion` | js/tasks.js:131-139 | missing id: none and list unchanged; otherwise only that task changes, with `completed` flipped and `updatedAt` set |
| `Tasks.TasksManager.GetPendingTasks` | js/tasks.js:145-147 | exactly the incomplete tasks, in order |
| `Tasks.TasksManager.GetCompletedTasks` | js/tasks.js:153-155 | exactly the completed tasks, in order |
| `Tasks.TasksManager.GetOverdueTasks` | js/tasks.js:161-170 | exactly the incomplete tasks due strictly before `now`, in order |
| `Tasks.TasksManager.GetTasksDueToday` | js/tasks.js:176-191 | exactly the incomplete tasks whose due date's midnight is in [today, tomorrow), i.e. on the day of `now`, in order |
| `Tasks.TasksManager.GetTasksByPriority` | js/tasks.js:198-200 | exactly the tasks of that priority, in order |
| `Tasks.TasksManager.SortTasks` | js/tasks.js:208-241 | a permutation of the tasks, ordered by date, priority rank or title in the requested direction, stable on ties |
| `Tasks.TasksManager.On` | js/tasks.js:256-262 | the callback joins the end of the event's list; tasks unchanged |
| `Tasks.TasksManager.Off` | js/tasks.js:269-276 | the event's list loses that callback; tasks unchanged |
| `Tasks.TasksManager.Trigger` | js/tasks.js:283-291 | an event nobody registered for calls nothing; otherwise its callbacks are called in registration order |
| `Tasks.PendingCompletedPartition` | js/tasks.js:145-155 | pending and completed tasks together are exactly the task list, as multisets |
| `Tasks.OverdueAndDueTodayArePending` | js/tasks.js:161-191 | overdue and due-today tasks are never completed |
| `Tasks.DueYesterdayIsOverdue` | js/tasks.js:161-191 | a pending task due a day before `now` is overdue and not due today |
| `Tasks.PriorityDescendingExample` | js/tasks.js:218-237 | descending by priority, tasks of priority Low, High, Medium sort to High, Medium, Low |
| `Calendar.NewEvent` | js/calendar.js:64-75 | the created event has the given id and `createdAt == now`; title/category default to 'Untitled Event'/'Personal', start and end to `now`, description to '' |
| `Calendar.Merge` | js/calendar.js:97-100 | supplied fields overwrite, absent ones are kept, id and `createdAt` are kept; no time stamp is refreshed |
| `Calendar.EmptyPatchChangesNothing` | js/calendar.js:97-100 | an update with no fields leaves the event as it was |
| `Calendar.IndexOf` | js/calendar.js:91 | `findIndex`: the first position holding the id, or none exactly when no event has it |
| `Calendar.WithoutId` | js/calendar.js:116 | the survivors are exactly the events with another id, each with its multiplicity and in their stored order; length unchanged exactly when the id was absent, and then the list is unchanged |
| `Calendar.EventsOnDay` | js/calendar.js:132-143 | exactly the events whose start lies in [midnight of the day, next midnight), in stored order |
| `Calendar.SampleEvents` | js/calendar.js:358-397 | four sample events with distinct ids; the UTC times are exact at a UTC offset of 0 |
| `Calendar.PrevMonthSlot` | js/calendar.js:241-252 | the leading cells count down to the previous month's last day, not today and without events |
| `Calendar.MonthSlot` | js/calendar.js:254-272 | day d of the month sits at slot weekday-of-1st + d - 1, is current-month, is today exactly when today's date is d of this month, and has that day's events |
| `Calendar.NextMonthSlot` | js/calendar.js:274-286 | the trailing cells are numbered 1, 2, … of the next month, not today and without events |
| `Calendar.GridColumnsAreWeekdays` | js/calendar.js:238-245 | column k mod 7 of the grid is weekday k mod 7, Sunday first |
| `Calendar.GridShowsWholeMonth` | js/calendar.js:261-272 | every day of the month has its slot within the 42 |
| `Calendar.GridToday` | js/calendar.js:256-263 | a slot is marked today exactly when the displayed (month, year) is today's and the slot holds today's day, so at most one slot is |
| `Calendar.GridPaddingIsEmpty` | js/calendar.js:244-252 | cells outside the month are never today and carry no events |
| `Calendar.November2023Grid` | js/calendar.js:235-252 | November 2023 starts on a Wednesday: three leading cells, 29 to 31 October, then 1 November |
| `Calendar.LeadingDays` | js/calendar.js:244-252 | the first loop yields as many cells as the weekday of the 1st, each the grid's cell for its slot |
| `Calendar.TrailingDays` | js/calendar.js:275-286 | the third loop yields 42 minus the cells so far, each the grid's cell for its slot |
| `Calendar.GroupIntoWeeks` | js/calendar.js:291-295 | consecutive slices of seven cells, in order |
| `Calendar.CalendarManager.constructor` | js/calendar.js:5-11 | no events, showing today's month and year |
| `Calendar.CalendarManager.LoadEvents` | js/calendar.js:23-33 | the loaded list, or the samples when it is empty |
| `Calendar.CalendarManager.GetAllEvents` | js/calendar.js:46-48 | the returned copy equals the stored list |
| `Calendar.CalendarManager.GetEventById` | js/calendar.js:55-57 | the first event with that id, or none exactly when no event has it |
| `Calendar.CalendarManager.CreateEvent` | js/calendar.js:64-82 | the new event is appended at the end; the displayed month is unchanged |
| `Calendar.CalendarManager.UpdateEvent` | js/calendar.js:90-107 | missing id: none and list unchanged; otherwise only the first matching index is replaced by the merged event |
| `Calendar.CalendarManager.DeleteEvent` | js/calendar.js:114-125 | every event with that id is removed, the rest keep their order; true exactly when one existed; afterwards the id is absent |
| `Calendar.CalendarManager.GetEventsForDate` | js/calendar.js:132-143 | exactly the events starting on the same day as the given time, in stored order and with their multiplicities |
| `Calendar.CalendarManager.GetTodayEvents` | js/calendar.js:149-151 | exactly the events starting on the day of `now`, in stored order and with their multiplicities |
| `Calendar.CalendarManager.GetEventsForMonth` | js/calendar.js:159-167 | exactly the events starting between the 1st at 00:00 and the end of the last day of the (normalised) month, in stored order and with their multiplicities |
| `Calendar.NormalMonth` | js/calendar.js:160-161 | the month `new Date(year, month, 1)` lands in lies in 0..11 and is the month itself when already in range |
| `Calendar.NormalYear` | js/calendar.js:160-161 | the year it lands in, so that year and month together name the same month count as the arguments |
| `Calendar.MonthRangeDays` | js/calendar.js:159-167 | a time lies between the 1st at 00:00 and the last day at 23:59:59.999 exactly when its day is one of the month's days |
| `Calendar.CalendarManager.GetCurrentMonthEvents` | js/calendar.js:173-175 | exactly the events starting in the displayed month, in stored order and with their multiplicities |
| `Calendar.CalendarManager.GetEventsByCategory` | js/calendar.js:182-188 | '' or 'All' returns all events; otherwise exactly that category's events, in order, each as often as it is stored |
| `Calendar.CalendarManager.PreviousMonth` | js/calendar.js:193-202 | the month steps back by one in 0..11, rolling January into December of the year before |
| `Calendar.CalendarManager.NextMonth` | js/calendar.js:207-216 | the month steps on by one in 0..11, rolling December into January of the year after |
| `Calendar.CalendarManager.SetCurrentMonth` | js/calendar.js:223-228 | the displayed month and year become the given ones |
| `Calendar.CalendarManager.MonthDays` | js/calendar.js:254-272 | the second loop yields one cell per day of the month, each the grid's cell for its slot |
| `Calendar.CalendarManager.GetCalendarData` | js/calendar.js:234-302 | exactly 6 weeks of exactly 7 cells for the displayed month, slot k being the grid's cell k |
| `Calendar.CalendarManager.On` | js/calendar.js:317-323 | the callback joins the end of the event's list; events and month unchanged |
| `Calendar.CalendarManager.Off` | js/calendar.js:330-337 | the event's list loses that callback; events and month unchanged |
| `Calendar.CalendarManager.Trigger` | js/calendar.js:344-352 | an event nobody registered for calls nothing; otherwise its callbacks are called in registration order |
| `Calendar.PreviousUndoesNext` | js/calendar.js:193-216 | going forward a month and back returns to the same (month, year) |
| `Dates.DaysInMonth` | js/calendar.js:236-237 | 28 to 31 days; February has 29 exactly in Gregorian leap years |
| `Dates.NextMonthOf` | js/calendar.js:207-213 | the next month stays in 0..11 and is one month later |
| `Dates.PrevMonthOf` | js/calendar.js:193-199 | the previous month stays in 0..11 and is one month earlier |
| `Dates.NextMonthStart` | js/calendar.js:236-241 | the next month begins the day after this month's last day |
| `Dates.PrevMonthEnd` | js/calendar.js:241 | the previous month's last day is the day before the 1st |
| `Dates.Weekday` | js/calendar.js:238 | a weekday lies in 0..6, with 0 for Sunday |
| `Dates.SameDayNumber` | js/calendar.js:256-263 | two valid dates on the same day number are the same date |
| `Dates.November2023StartsOnWednesday` | js/calendar.js:235-238 | 1 November 2023 has weekday 3 |
| `Dates.LeapYearExamples` | js/calendar.js:236-237 | February has 29 days in 2024 and 2000, 28 in 1900 |
| `Dates.Timestamp` | js/tasks.js:302 | a local date and time lands on the day of that date |
| `DateUtils.DayOfBounds` | js/tasks.js:178-189 | a time is at or after a midnight, or before the next one, exactly as its own day is |
| `DateUtils.FloorCascade` | js/utils.js:93-96 | flooring to seconds, then minutes, hours and days equals flooring once to each unit |
| `DateUtils.GetRelativeTime` | js/utils.js:89-115 | 31 or more whole days: a date; 1 day: yesterday; 2 to 30 days: days ago; then hours, then minutes, each the whole number of units elapsed; under a minute (or in the future): just now |
| `DateUtils.Phrase` | js/utils.js:102-114 | none for the date; otherwise 'yesterday', 'N days ago', '1 hour ago' or 'N hours ago', '1 minute ago' or 'N minutes ago', and 'just now', with N the bucket's count in decimal |
| `DateUtils.RelativeTimeHasPhrase` | js/utils.js:93-114 | for a past moment the counts are non-negative, so every bucket can be worded |
| `DateUtils.ThreeHoursAgoExample` | js/utils.js:93-107 | three and a half hours after a moment, the text is '3 hours ago' |
| `DateUtils.GetWeekRange` | js/utils.js:122-135 | the range starts on a Monday at 00:00, holds the given day (a Sunday belongs to the week begun six days before), and ends 7 days minus 1 ms later |
| `DateUtils.GetMonthRange` | js/utils.js:142-147 | from the 1st at 00:00 to the last day at 23:59:59.999, enclosing the given day |
| `StorageUtils.WithoutAppKeys` | js/utils.js:217-224 | exactly the entries whose keys do not start with 'mindscribe_', with their values |
| `StorageUtils.ClearIdempotent` | js/utils.js:217-230 | clearing twice removes no more than clearing once |
| `StorageUtils.Storage.Load` | js/utils.js:188-196 | the stored value when the key is present (and non-empty), the default otherwise |
| `StorageUtils.Storage.Save` | js/utils.js:172-180 | on success the key maps to the data, which a later load returns; on failure the store is unchanged and the result false |
| `StorageUtils.Storage.Remove` | js/utils.js:203-211 | exactly that key is removed and loading it then gives the default |
| `StorageUtils.Storage.ClearAll` | js/utils.js:217-230 | the loop over the keys removes exactly the 'mindscribe_' keys and leaves every other entry as it was |
| `TextUtils.Truncate` | js/utils.js:260-268 | '' for empty text; the text when no longer than maxLength; otherwise exactly its first maxLength characters (none for a negative maxLength) followed by the suffix |
| `TextUtils.HighlightSearchTerm` | js/utils.js:276-277 | with an empty term or text the text comes back unchanged |
| `TextUtils.Split` | js/utils.js:309 | at least one piece, none containing the separator |
| `TextUtils.SplitJoin` | js/utils.js:309 | joining the pieces with the separator gives the string back |
| `TextUtils.ParseTags` | js/utils.js:306-312 | [] for empty input; every tag is non-empty, trimmed and free of commas |
| `TextUtils.ParseTagsPieces` | js/utils.js:306-312 | for every input, the tags are the comma pieces, each trimmed, with the empty ones dropped, in order (`map(trim)` then `filter(length > 0)`) |
| `TextUtils.TrimmedNonEmptyIsMapFilter` | js/utils.js:310-311 | the recursive trim-and-drop equals `map(trim)` followed by `filter(length > 0)` |
| `TextUtils.ParseTagsOnePiece` | js/utils.js:306-312 | a string without commas gives its trimmed text as the only tag, or no tag when it is blank |
| `TextUtils.ParseTagsAtComma` | js/utils.js:309-311 | parsing a comma-free piece, a comma and the rest gives the piece's tags followed by the rest's |
| `TextUtils.ParseTagsIgnoresBlanks` | js/utils.js:306-312 | for any tags a and b, " a , ,b" gives [a, b]: blanks around tags and blank pieces are ignored |
| `TextUtils.ParseTagsRoundTrip` | js/utils.js:306-312 | parsing the ', '-joined list of valid tags gives the same tags in order |
| `TextUtils.RemoveSpecial` | js/utils.js:322 | only word characters, whitespace and '-' survive, taken from the input; a string of slug characters is unchanged |
| `TextUtils.RemoveSpecialIsFilter` | js/utils.js:322 | the result is exactly the input's word characters, whitespace and hyphens, in order |
| `TextUtils.ReplaceRuns` | js/utils.js:323-324 | the result is empty exactly for empty input; every character is a hyphen or a non-run character of the input; a leading non-run character is kept |
| `TextUtils.ReplaceRunsRun` | js/utils.js:323-324 | a maximal run of the kind becomes exactly one '-' in front of the rest's result |
| `TextUtils.ReplaceRunsConcat` | js/utils.js:323-324 | cutting the input after a character outside any run cuts the result at the same place |
| `TextUtils.ReplaceRunsKeepsOthers` | js/utils.js:323-324 | the characters that are neither in a run nor hyphens come through unchanged and in order |
| `TextUtils.CollapsedHasNoDoubleHyphen` | js/utils.js:324 | after collapsing hyphen runs no "--" remains |
| `TextUtils.GenerateSlug` | js/utils.js:319-326 | the slug holds only lower-case word characters and '-', no whitespace and no "--" |
| `TextUtils.SlugKeepsWordChars` | js/utils.js:319-326 | the slug's word characters are the lower-cased text's word characters, all of them, in order |
| `TextUtils.SlugFixesSlug` | js/utils.js:319-326 | a slug is its own slug |
| `TextUtils.SlugIdempotent` | js/utils.js:319-326 | generating a slug from a slug changes nothing |
| `TextUtils.SlugKeepsEdgeHyphens` | js/utils.js:319-326 | for a word w that is already a slug and neither starts nor ends with '-', " w " becomes "-w-": edge whitespace turns into hyphens before `trim`, which then removes nothing |
| `Listeners.Recipients` | js/calendar.js:344-352 | `trigger` calls the event's callbacks in registration order, none for an unknown event |
| `Listeners.On` | js/calendar.js:317-323 | the callback is appended to the event's list; other events untouched |
| `Listeners.Off` | js/calendar.js:330-337 | every registration of the callback for the event goes, the other callbacks keep their counts and their order; nothing changes when the callback was not registered for the event; other events untouched |
| `Listeners.OffUndoesOn` | js/calendar.js:317-337 | removing a callback right after adding it leaves what `trigger` calls as removal alone would |
| `Sequences.Filter` | js/tasks.js:145-147 | `filter` keeps exactly the elements satisfying the predicate, in order and with their multiplicities |
| `Sequences.FilterIdempotent` | js/notes.js:156 | filtering twice by the same predicate is filtering once |
| `Sorting.SortSorted` | js/notes.js:199-221 | the comparator sort's result is ordered in the requested direction |
| `Sorting.SortStable` | js/tasks.js:211-238 | elements with equal keys keep their original relative order |
| `Sorting.SortKeepsSorted` | js/tasks.js:211-238 | an already ordered list comes back unchanged |
| `Strings.Lower` | js/notes.js:136 | `toLowerCase` keeps the length and lower-cases each character |
| `Strings.LowerIdempotent` | js/notes.js:136 | lower-casing twice is lower-casing once |
| `Strings.ContainsAt` | js/notes.js:139-142 | `includes` holds exactly when the term occurs at some position |
| `Strings.TrimEmpty` | js/notes.js:132 | `trim() === ''` exactly for strings of whitespace only |
| `Strings.TrimTrims` | js/utils.js:310 | `trim` yields a string with no whitespace at either end, and leaves such a string alone |
| `Strings.Or` | js/notes.js:67-69 | `x || d`: the default replaces an absent or empty value |
| `Strings.NatToStringValue` | js/utils.js:103 | the decimal text of a count reads back as that count |

## Left out

- Persistence and notifications inside the managers: each create, update, delete and load
  also calls `saveX()` and `trigger(...)`. The manager methods change only the in-memory
  list. The store is modelled on its own by `StorageUtils.Storage`, and what `trigger`
  would call is given by `Trigger`/`Listeners.Recipients`. JSON encoding is assumed to
  round-trip and is not modelled.
- Callbacks themselves are not run. They are named by `HandlerId`s, and a callback that
  throws stops the remaining ones in the source, which the model does not show.
- `generateId`, `new Date()` and `Date.now`: ids, `now` and `today` are parameters.
- Timestamps are stored in the source as ISO strings. Here they are integers at a fixed UTC
  offset, and time zones and daylight saving are not modelled.
- The sample notes, tasks and events: the source writes their times in UTC. The model writes
  them as wall-clock times, so they agree with the source only at a UTC offset of 0.
- `Tasks.NewTask`: a due date of `''` falls back to `now` in the source because of
  `dueDate || now`. The model has no empty timestamp, so a supplied due date is always kept.
- `Calendar.NewEvent`: the same applies to `start || now` and `end || now`.
- `localeCompare` and `.sort()` on strings are modelled as code-point lexicographic order.
  `.sort()` compares UTF-16 code units, so the two orders differ only for characters beyond
  U+FFFF. `toLowerCase` lower-cases ASCII letters only.
- `TextUtils.Truncate`: lengths and cut positions count Unicode code points, not UTF-16 code
  units. For text with characters beyond U+FFFF the source may keep fewer characters, or cut a
  surrogate pair in two, where the model keeps whole characters.
- `DateUtils.GetRelativeTime`: for 31 days or more it returns `ShortDate(date)` in place of
  the locale-formatted text of `formatDate`.
- `formatDate`, `formatTime` and `isToday` of `DateUtils` are presentation helpers and are
  not modelled.
- `DateUtils.GetWeekRange` and `DateUtils.GetMonthRange` take a calendar date, not a `Date`
  with a time of day. The range depends only on the day, so nothing is lost.
- `StorageUtils.Storage.Load`: a stored value that fails `JSON.parse` makes the source
  return the default. The model returns the stored text, because parsing is not modelled.
- `StorageUtils.Storage.Remove`: the source returns false if `removeItem` throws. The model
  always succeeds, because removal has no failure condition here.
- `StorageUtils.Storage.ClearAll`: the same applies to `clearAll`.
- `StorageUtils.Storage.Save` models a `setItem` failure (a full quota) as a parameter.
- `getStorageUsage` computes floating-point megabytes, so it is not modelled.
- Toast notifications, `textToHtml` and the regular-expression body of
  `highlightSearchTerm` are presentation only. `HighlightSearchTerm` covers the case with
  an empty term or text.
- `Calendar.CalendarManager.SetCurrentMonth` requires a month in 0..11. Its only caller
  passes `getMonth()`, and the grid needs a real month.
- The user interface (`js/ui.js`), the older global-state copy of the same logic
  (`js/app.js`) and the static file server (`server.js`) are not part of this model.
  This includes the title-required and end-before-start checks made in the forms.
