# Availability calendar: a Dafny model of its bookkeeping core

The online availability calendar lets employees mark, day by day, the times
of day they can work in each plan period. They can also leave a note per
plan period. This project models the calendar's bookkeeping core and proves
properties about it:

- the entity records and the store that holds them, with soft delete: a
  row is never removed, only stamped with `prep_delete`;
- toggling the availability of a slot, where a slot is an enrolment, a date
  and a time of day (`toggle_availability`);
- backfilling a person's enrolments in the plan periods
  (`ensure_employee_plan_periods`);
- saving and reading the per-period notes (`save_note`, `get_user_notes`),
  including the round trip through the `dd.mm.yy - dd.mm.yy` label;
- the read queries `get_plan_periods`, `get_time_of_day_options`,
  `get_selected_times` and `validate_login`;
- the aggregation behind the calendar page: days grouped by month and
  label, deadlines, messages, first months, sorted labels and colours;
- the lookup behind the notes dialog.

Modules:

| module | file | holds |
|---|---|---|
| `Wrappers` | `wrappers.dfy` | `Option`, `Result` |
| `Seqs` | `seqs.dfy` | duplicate removal, insertion sort, first match, filtering, concatenation |
| `Text` | `text.dfy` | digits, fixed-width fields, splitting on a separator, string order |
| `Dates` | `dates.dfy` | proleptic Gregorian dates; the next day; day ranges; ordinals |
| `Formats` | `formats.dfy` | the `%d.%m.%y` label, ISO dates and `HH:MM[:SS]` times, each written and parsed, and the sort key of labels |
| `Entities` | `entities.dfy` | one datatype per table, and the store as a value with its invariant `Consistent` |
| `DbHelpers` | `db_helpers.dfy` | `toggle_availability` and `save_note` as functions from a store to an outcome, with their lemmas |
| `Repair` | `repair.dfy` | `ensure_employee_plan_periods` as a function on the store, with its lemmas |
| `Store` | `store.dfy` | the class `Database`: every table is a field; the writing operations are methods that scan and update the tables and are proved equal to the functions above |
| `Queries` | `queries.dfy` | the read queries: loops proved against specification functions, and the lemmas about those functions |
| `Calendar` | `calendar.dfy` | the calendar page's aggregation and the notes dialog lookup, as loops proved against specification functions |

Conventions:

- Primary keys are numbers drawn from the store's counter `nextId`. The
  Python code uses `uuid4`.
- Keys are compared as numbers where the ORM orders by key. The ORM
  compares UUIDs, and a `nextId` key stands for one.
- The clock is a `now: Stamp` parameter.
- An unordered ORM query yields rows in store order. The `get` calls and
  "the first row of a loop over a query" (`save_note`, `validate_login`)
  therefore mean the first such row in store order.
- `.first()` on a query without `order_by` is different: the ORM then
  orders by primary key. `toggle_availability` uses it twice, and there it
  means the matching row with the least key. When stored rows share that
  key, the model takes the earliest (`Seqs.LeastWhere`). Under the store
  invariant, keys are distinct and a person has at most one active
  enrolment per period, so only the plan-period lookup can actually choose.
- `order_by(PlanPeriod.start)` leaves the order of equal start dates to the
  database. The model's insertion sort is stable, so equal starts keep
  store order. That tie order decides which period's deadline and message
  `Calendar.ByLabelSpec` keeps for a shared label, and which row
  `Calendar.PeriodNotes` shows. The contracts state only that the rows
  ascend by start and are exactly the active periods.

## Model

| member | source | states |
|---|---|---|
| `Entities.EmptyValid` | models/entities.py:9-99 | The empty store satisfies every key, reference, unique-name and value-range rule of the schema, plus the rule of at most one active availability per slot and at most one active enrolment per person and period. |
| `Dates.NextDay` | app.py:159-160 | The next day (`+ timedelta(days=1)`) is a well-formed date strictly after the given one. |
| `Dates.NextDayOrdinal` | app.py:159-160 | The next day's ordinal is one more than the day's. |
| `Dates.DaysLength` | app.py:159 | The range from `first` to `last` holds `(last - first).days + 1` days, and no day when `last` is before `first`. |
| `Dates.DaysInRange` | app.py:159-160 | Every day of the range lies between its ends, and the days strictly ascend. |
| `Dates.DaysComplete` | app.py:159-160 | Every date between the ends is in the range. |
| `Formats.ShortDateRoundTrip` | utils/db_helpers.py:242-244 | Parsing a written `%d.%m.%y` date gives back the date, with the century replaced by the two-digit year window (69..99 become 19xx, 00..68 become 20xx). |
| `Formats.LabelRoundTrip` | utils/db_helpers.py:233 | Parsing a written label `dd.mm.yy - dd.mm.yy` gives back both dates, each with the century replaced by the window. |
| `Formats.LabelRoundTripInWindow` | utils/db_helpers.py:242-244 | For years 1969 to 2068, parsing the label gives back exactly the two dates. |
| `Formats.LabelInjective` | utils/db_helpers.py:233 | Two labels are equal exactly when their dates agree after the century window. |
| `Formats.IsoDateRoundTrip` | utils/db_helpers.py:292 | Parsing a date written `%Y-%m-%d` gives back the date. |
| `Formats.IsoDateInjective` | utils/db_helpers.py:159 | Two valid dates with the same ISO text are equal. |
| `Formats.LabelLeMeaning` | app.py:171-175 | The sort key of a label (year, month, day fields of the start as strings) orders labels by the start's two-digit year, then month, then day. |
| `Formats.LabelLeTotalPreorder` | app.py:171-175 | The label order is total and transitive, so sorting by it is well defined. |
| `Formats.NormaliseHms` | utils/db_helpers.py:36-42 | A start time given as `HH:MM:SS` text is parsed back to that time. |
| `Formats.NormaliseHm` | utils/db_helpers.py:43-46 | A start time given as `HH:MM` text is parsed to that time, with zero seconds. |
| `Formats.NormaliseGarbage` | utils/db_helpers.py:47-50 | Text without a colon falls back to midnight. |
| `DbHelpers.Resolve` | utils/db_helpers.py:292-311 | The lookups of a toggle, each error naming the first lookup that fails. A bad date text fails with `InvalidDate`, and only then. No active plan period covering the date fails with `NoPlanPeriod`, and only then. `.first()` picks, among the covering periods, the one with the least key (`LeastCovering`). `NotEnrolled` comes exactly when the person has no active enrolment in that period. `UnknownTimeOfDay` comes exactly when the person is enrolled there but no time of day has the key. On success the slot has the parsed date and the given time of day, and its enrolment is the person's active enrolment in that period with the least key (`LeastEnrolment`). |
| `DbHelpers.RetireAllCount` | utils/db_helpers.py:313-314 | Soft-deleting the slot's rows leaves it no active row and leaves every other slot's count as it was. |
| `DbHelpers.ToggleEffect` | utils/db_helpers.py:289-324 | A toggle changes only the availabilities and the counter. A failed lookup changes nothing and reports the error. Otherwise the answer is `(slot was empty, True)`, the slot's active count flips between 0 and 1, and every other slot keeps its count. When the slot was filled, the table keeps its length and the counter, and old rows survive unchanged except for the slot's row, which gains a `prep_delete` stamp. When it was empty, exactly one row is appended: key `nextId`, the slot's enrolment, time of day and date, both stamps `now`, unset notes, not deleted. |
| `DbHelpers.ToggleSlotEffect` | utils/db_helpers.py:306-324 | Once the slot is known and at most one active row fills it, the answer is `(True, True)` when no row filled it and `(False, True)` otherwise. The slot's active count flips between 0 and 1 and no other slot's count changes. Either the one row is soft-deleted with `prep_delete` set and nothing else changed, or exactly one fresh active row with unset notes and both stamps `now` is appended. The other tables are untouched. |
| `DbHelpers.ToggleConsistent` | utils/db_helpers.py:289-324 | A toggle preserves the store invariant. |
| `DbHelpers.ToggleTwice` | utils/db_helpers.py:313-324 | Toggling the same slot twice flips the answer and returns the slot's active count to where it was. |
| `DbHelpers.SaveNote` | utils/db_helpers.py:238-287 | A text that is not a label fails with `InvalidInput`, and only then. The answer is `False` exactly when no active plan period has the label's dates. `UnknownPerson` comes exactly when such a period exists but the person does not, and `True` exactly when both exist. Every answer other than `True` leaves the store unchanged, and plan periods and persons are never touched. |
| `DbHelpers.SaveNoteEffect` | utils/db_helpers.py:260-287 | After a successful save the person has exactly one active enrolment in the period. It carries the new notes and the new change time. No other person and period changes its count, and no table other than the enrolments and the counter changes. |
| `DbHelpers.SaveNoteConsistent` | utils/db_helpers.py:238-287 | Saving a note preserves the store invariant. |
| `DbHelpers.SaveNoteOnLabel` | utils/db_helpers.py:233-258 | Saving a note under the label of an active period with years in the window succeeds, and writes to a period with those dates. |
| `Seqs.FilterInOrder` | utils/repair.py:35 | A `select` over a table yields the rows satisfying the condition in table order. The result is the table read at the ascending positions of exactly those rows (`Seqs.Positions`). |
| `Repair.NewEnrolments` | utils/repair.py:46-56 | One fresh enrolment per plan period, in order: successive keys, notes unset (the ORM's empty-string default), not deleted. |
| `Repair.RepairEarlyReturns` | utils/repair.py:18-40 | An unknown person gets `False`. A person with an active enrolment gets `True`. Neither case changes the store, and neither does the case where no plan period is active, which answers `False`. |
| `Repair.RepairCreates` | utils/repair.py:42-61 | Otherwise the answer is `True` and the store gets the backfill. |
| `Repair.BackfillEffect` | utils/repair.py:46-56 | The backfill keeps the old enrolments as a prefix and appends active enrolments of the person with fresh keys and unset (empty) notes. Afterwards the person has exactly one enrolment in each active period and none in the others, and every other person's counts are as before. |
| `Repair.RepairIdempotent` | utils/repair.py:26-32 | Running the repair a second time changes nothing and gives the same answer. |
| `Repair.RepairConsistent` | utils/repair.py:10-66 | The repair preserves the store invariant. |
| `Store.Database.ResolveSlot` | utils/db_helpers.py:292-306 | The scanning lookups parse the date, keep the covering period with the least key, then the person's enrolment there with the least key, then find the time of day. They answer exactly what `Resolve` answers on the store's tables, errors included. |
| `Store.Database.ToggleAt` | utils/db_helpers.py:306-324 | Once the slot is known, the method counts the active rows filling it. With two or more it refuses with `Conflict`. It soft-deletes the one hit, or appends a fresh row and advances the key counter. The new tables and the answer are those of `DbHelpers.ToggleSlot`, the step `Toggle` takes after `Resolve`. |
| `Store.Database.ToggleAvailability` | utils/db_helpers.py:289-324 | The scanning method leaves the tables equal to `Toggle` of the old store and answers the same; it preserves `Valid`. |
| `Store.Database.SaveNote` | utils/db_helpers.py:238-287 | The scanning method leaves the tables equal to `SaveNote` of the old store and answers the same; it preserves `Valid`. |
| `Store.Database.EnsureEmployeePlanPeriods` | utils/repair.py:10-66 | The method's loops leave the tables equal to `EnsureEnrolments` of the old store and answer the same; it preserves `Valid`. |
| `Store.Database.AddEnrolments` | utils/repair.py:46-56 | The creation loop appends exactly `NewEnrolments` and counts one creation per period. |
| `Store.Database.MatchSlot` | utils/db_helpers.py:306-311 | The scan counts the slot's active rows and, when there is one, returns a row that fills the slot. |
| `Queries.Message` | utils/db_helpers.py:20 | A period's message is its non-empty notes, and otherwise `Planungsperiode ` followed by its label. |
| `Queries.PlanPeriodRowsSpec` | utils/db_helpers.py:8-23 | The rows are exactly the active periods: one row per active period, and each row is the row of an active period. The rows ascend by start date. |
| `Queries.GetPlanPeriods` | utils/db_helpers.py:14-21 | The loop builds exactly that row list. |
| `Queries.OptionOf` | utils/db_helpers.py:34-68 | An option carries the time of day's key and colour. A typed start is kept, and a textual start is normalised to a valid time. |
| `Queries.OfferedOptionsSpec` | utils/db_helpers.py:25-35 | Every option comes from an active time of day, of the given person when there is one. Every such time of day yields an option. |
| `Queries.GetTimeOfDayOptions` | utils/db_helpers.py:33-70 | The loop builds exactly those options. |
| `Queries.GroupSpec` | utils/db_helpers.py:163-166 | The grouping keeps the date strings in first-seen order, each once, and under each date its time-of-day keys in first-seen order, each once. |
| `Queries.SelectedTimesSpec` | utils/db_helpers.py:74-211 | An unknown person gets the empty dictionary. Otherwise the keys are distinct, each list is duplicate-free, and time `t` is listed under date string `k` exactly when an active availability of a selected active enrolment has time `t` and ISO date `k`. |
| `Queries.PairsShow` | utils/db_helpers.py:120-166 | The pairs the nested loops visit are exactly the (date, time) pairs of the selected enrolments' active availabilities. |
| `Queries.KnownPerson` | utils/db_helpers.py:91-97 | The scan finds the person exactly when the key is in the persons table. |
| `Queries.AddSlots` | utils/db_helpers.py:143-166 | The inner loop adds exactly one enrolment's pairs to the grouping. |
| `Queries.GetSelectedTimes` | utils/db_helpers.py:74-211 | The nested loops build exactly `SelectedTimes`. |
| `Queries.NotesOfSpec` | utils/db_helpers.py:213-236 | A label is a key exactly when some noted active enrolment of the person lies in a period with that label. Its value is the notes of the last such enrolment in store order. |
| `Queries.GetUserNotes` | utils/db_helpers.py:213-236 | The loop builds exactly that dictionary, and the empty one when no person is given. |
| `Queries.FiledUnder` | utils/db_helpers.py:232-234 | When a period's label is unique and the keys are distinct, an enrolment is filed under that label exactly when it belongs to that period. |
| `Queries.NotesOfSaved` | utils/db_helpers.py:213-236 | When the person has exactly one enrolment in the period, its notes are what `get_user_notes` shows under the label, and no entry appears when the notes are absent. |
| `Queries.SaveNoteReadBack` | utils/db_helpers.py:238-287 | Take an active period of a consistent store whose start and end years lie in 1969..2068, the window of `%y`, and whose label no other period bears, active or soft-deleted. Saving notes under its label succeeds, and reading the notes back gives those notes under that label, or no entry when they are absent. Outside the window the label parses into the other century and `save_note` answers False. With a shared label the read-back follows the last-wins rule of `Queries.NotesOfSpec`. |
| `Queries.RepairListsPeriods` | utils/db_helpers.py:222-234 | After the repair has enrolled a person without an active enrolment, `get_user_notes` lists the label of every active plan period, with the empty text that the new enrolments carry (utils/repair.py:48-54 gives no notes). This holds even when several periods share a label. |
| `Queries.ValidateLogin` | utils/db_helpers.py:327-369 | The answer is `None` exactly when no active person has that user name and password. Otherwise it is the summary of the first such person, with `is_admin` true when the person administers a project. |
| `Calendar.InMonthSpec` | app.py:161-168 | The days filed under a month are exactly the days of that month, in their order. |
| `Calendar.GroupingShape` | app.py:159-168 | The month keys are the days' months, each once, in first-seen order. Each bucket's labels are distinct. The buckets are keyed by exactly those months. |
| `Calendar.GroupingYear` | app.py:161-165 | A month has a bucket exactly when some day falls in it. The bucket's year is the year of the first such day. |
| `Calendar.PeriodDaysIn` | app.py:159-168 | Under a unique label, a month holds exactly the period's days that fall in that month. |
| `Calendar.PeriodDaysAscend` | app.py:159-168 | Those days ascend. |
| `Calendar.PeriodTotal` | app.py:159 | Across all months, a unique label holds `(end - start).days + 1` days, or none. |
| `Calendar.ByLabelSpec` | app.py:151-154 | The deadline and message dictionaries are keyed by exactly the labels of the periods. Each value comes from the last period with that label. |
| `Calendar.FirstMonthSpec` | app.py:156-157 | The first-month dictionary gives every label the start month of its period. |
| `Calendar.ColoursSpec` | app.py:177-181 | The `i`-th distinct label met gets palette colour `i mod 3`. |
| `Calendar.ColoursInPalette` | app.py:62 | Every colour comes from the palette. |
| `Calendar.SortedPeriodsSpec` | app.py:170-175 | The sorted labels are distinct, are exactly the labels met, and are in label order. |
| `Calendar.LabelsMet` | app.py:170-172 | A label is met in the grouping exactly when a period with that label has at least one day. |
| `Calendar.CalendarLabels` | app.py:144-181 | On the page, a label is sorted and coloured exactly when a period with it has a day. The sorted labels are distinct and ordered. Colours come from the palette. Deadlines are keyed by every label. |
| `Calendar.CalendarOfNothing` | app.py:144-181 | Without periods the page has no months, labels, colours or deadlines. |
| `Calendar.AddPeriodDays` | app.py:159-168 | The day loop files exactly the period's days, one after another. |
| `Calendar.ScanPeriods` | app.py:151-168 | The loop over the periods builds exactly the grouping and the three dictionaries. |
| `Calendar.AssignColours` | app.py:177-181 | The colour loop over months and labels builds exactly the colour map of the labels in meeting order. |
| `Calendar.BuildCalendar` | app.py:144-181 | The whole aggregation builds exactly `CalendarOf` of the labelled rows. |
| `Calendar.PeriodNotes` | app.py:373-405 | No period given, or an empty one, gives "no period given", and only then. A label matching no row gives "period not found", and only then. Otherwise the dialog shows the first row with that label, its deadline and message, and the user's notes under the label, or `""` when there are none. |
| `Calendar.LoadPeriodNotes` | app.py:392-405 | The search loop builds exactly that result. |
| `Calendar.DialogShowsNotes` | app.py:392-405 | Asking for any row's label opens the dialog, showing the notes under that label. |
| `Calendar.NotesDialogAfterSave` | app.py:373-405 | For an active period with start and end years in 1969..2068 and a label no other period bears, active or soft-deleted: after notes are saved under the label, the dialog for that label shows them, or `""` when they are absent. |

## Left out

- UUID parsing (`uuid.UUID(user_id)`): keys are numbers, so the
  `ValueError` on a malformed key is not modelled.
- `strptime` accepts non-ASCII Unicode digits. The parsers here accept
  ASCII digits only.
- `strftime("%Y")` for years below 1000 depends on the platform. `IsoDate`
  always writes four digits.
- `db_session` transactions, concurrent requests and the ORM's flush order
  are not modelled. Each operation is one atomic step on the store.
- An `Optional(str)` column that a constructor leaves out holds the ORM's
  default, the empty string (`Unset`). That applies to the enrolments the
  repair creates and to the availabilities a toggle creates. Rows already in
  the store may hold `None` or `""`, and `Message` treats both as absent.
- `Queries.SaveNoteReadBack`: when the form has no `notes` field,
  `save_note` receives `None`. The model stores `None`, so the label drops
  out of `get_user_notes`. Whether the ORM instead refuses `None` on this
  column, or stores `""`, is not modelled.
- Python's set iteration order for the input of `sorted_periods` is not
  modelled. The labels enter in first-met order, and the order in which
  the sort leaves labels with equal keys is fixed by that insertion sort.
- `print` logging, HTTP routing, sessions, cookies and template rendering
  are left out. `config/database.py` and `models/schemas.py` are not part
  of this model.
- The APScheduler job entity is left out: no core operation reads or
  writes it.
- The exception handlers are not modelled: those of `get_selected_times`
  and of the repair, and the per-row `try` in both loops. The modelled
  operations raise nothing once the store invariant holds.
- `LoadPeriodNotes` takes the rows of `get_plan_periods` and the dictionary
  of `get_user_notes` as parameters. `NotesDialogAfterSave` connects them to
  the store.
- The `color` form value of the notes dialog is passed through unchanged.
- `Queries.OptionOf`: the colour default `getattr(tod, 'color', "gray-500")`
  never applies, because the attribute always exists. The model passes the
  stored colour through, `None` included.
- `Formats.LabelRoundTrip`: the round trip is exact only for years 1969 to
  2068. Outside the window `%y` loses the century, and the lemma states
  that loss rather than equality.

Behaviours of the code that the model keeps as written:

- Soft delete in `toggle_availability` sets `prep_delete` only. It does not
  refresh `latest_change`.
- `get_selected_times` and `toggle_availability` do not check whether the
  time of day is soft-deleted. Any existing time-of-day key is accepted.
- `Person.get(id=...)` has no `prep_delete` filter, so a soft-deleted person
  still counts as known in `get_selected_times`, `save_note` and the
  repair.
- When two plan periods share a label, `get_user_notes` keeps under that
  label the notes of the last noted enrolment filed there
  (`Queries.NotesOfSpec`). Another period's enrolment can thereby
  overwrite the notes the dialog shows for a period.
- Two plan periods with the same label share one entry on the calendar
  page. The deadline and message maps keep the last period's values, while
  the notes dialog shows the first matching row.
- Month buckets are keyed by month number alone. Days of the same month in
  different years share the bucket. The bucket keeps the year of its first
  day.
- A period whose end is before its start gets deadline, message and
  first-month entries but no days, so its label is neither sorted nor
  coloured.
- The second value of `toggle_availability`'s answer is always `True` on
  success.
