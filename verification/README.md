# happyapp day rules, modelled in Dafny

happyapp is a personal "daily life" web app: a home screen with the selected
day, its almanac, the medications with a "taken today" button, to-do and note
lists, calendar events, a diary with links, and the mood and weather of the
day; a health tracker (medications, metric rows grouped by type, the day of the
menstrual cycle, daily water); and a day agenda on an hour grid. This project
models the rules that sit inside those screens' handlers and proves what they
promise.

- `text.dfy` (`Text`): decimal rendering of numbers, `padStart`, `startsWith`,
  `includes` and `trim` as JavaScript defines them, with the facts the other
  modules need (rendered numbers read back, zero padding keeps the value, the
  first separator splits a key, trimming empties exactly the all-whitespace
  strings).
- `wrappers.dfy` (`Wrappers`): `Option`, for JavaScript's `null`/missing values.
- `calendar.dfy` (`Calendar`): civil dates, the next and previous day,
  `setDate(getDate() + n)` as a shift by `n` days, and the `YYYY-MM-DD` string.
- `almanacco.dfy` (`Almanacco`): `getAlmanacco` and its two tables.
- `lists.dfy` (`Lists`): the id-keyed list operations of the home screen (find,
  upsert, delete), generic over the record type.
- `health.dfy` (`Health`): the health tracker's rules and its state as a class.
- `agenda.dfy` (`Agenda`): the day agenda's rules and its state as a class.
- `app.dfy` (`App`): the home screen's mock almanac and its state as a class.

Where the source changes state through React state slots replaced by
handlers, the model has a class whose methods state the whole new state in
terms of the pure functions, and lemmas about those functions carry the
properties. The `reduce` that fills its accumulator in place is the method
`Health.GroupByType`, a loop whose invariant keeps the accumulator an exact
grouping of the rows seen so far.

Dates are modelled as civil (year, month, day) triples rather than as day
numbers, because the date strings the screens compare (`YYYY-MM-DD`) and the
almanac keys are built from the civil fields; `Calendar.Shift` plays the role
of adding a number of days.

The code has no browser-storage persistence of the day's lists (they live only
in component state and start empty); the model follows the code and has no
storage key or load/save round trip.

## Model

| member | source | states |
|---|---|---|
| Text.Pad2 | src/DailyAgenda.jsx:52 | the two-digit label of an hour is a digit string that reads back as the hour, and has exactly two characters below 100 |
| Text.PadStart | src/DailyAgenda.jsx:55 | `padStart` gives the width, or the string's own length when it is already longer |
| Text.PadStartShape | src/DailyAgenda.jsx:55 | `padStart` keeps the string as the suffix and fills everything before it with the fill character |
| Text.NatToStringInjective | src/almanaccoData.js:5 | different numbers never render to the same decimal text |
| Text.ValueOfNatToString | src/almanaccoData.js:5 | reading back the decimal rendering of a number gives the number |
| Text.SplitAtSeparator | src/almanaccoData.js:5 | two `a<sep>b` strings whose first parts hold no separator are equal only part by part |
| Text.TrimEmptyIffAllWhitespace | src/HealthTracker.jsx:101 | `trim()` gives the empty string exactly when every character is ECMAScript whitespace |
| Calendar.DaysInMonth | src/DailyAgenda.jsx:20 | month lengths are 28 to 31: 29 only for February of a leap year, 30 exactly for April, June, September and November, 31 for the seven long months, so 28 for February of a common year |
| Calendar.NextDay | src/DailyAgenda.jsx:18-22 | the next day is a valid date after the given one with no valid date in between |
| Calendar.PrevDay | src/DailyAgenda.jsx:18-22 | the previous day is a valid date before the given one with no valid date in between |
| Calendar.PrevNextInverse | src/DailyAgenda.jsx:18-22 | one day forward then back, or back then forward, is the same day |
| Calendar.Shift | src/DailyAgenda.jsx:20 | shifting by `n` days gives a valid date, later for positive `n` and earlier for negative `n` |
| Calendar.ShiftAdditive | src/DailyAgenda.jsx:18-22 | shifting by `a` and then `b` days is shifting by `a + b` |
| Calendar.ShiftRoundTrip | src/DailyAgenda.jsx:18-22 | `changeDay(n)` followed by `changeDay(-n)` returns to the original date |
| Calendar.YearString | src/DailyAgenda.jsx:26 | years 0..9999 give four digits that read back as the year; any other year gives `-` (negative) or `+` followed only by digits, at least seven characters in all |
| Calendar.YearStringInjective | src/DailyAgenda.jsx:26 | different years have different year strings |
| Calendar.IsoDate | src/DailyAgenda.jsx:26 | the `YYYY-MM-DD` string of a date has at least ten characters |
| Calendar.IsoDateFields | src/DailyAgenda.jsx:26 | for years 0..9999 the string has ten characters, dashes at positions 4 and 7, and digit fields that read back as the year, the month and the day |
| Calendar.IsoDateInjective | src/DailyAgenda.jsx:26 | different dates have different `YYYY-MM-DD` strings, so a date string names one day |
| Almanacco.Key | src/almanaccoData.js:3-5 | the first dash of the key sits right after as many characters as the day has digits, and at least one character follows it |
| Almanacco.KeyReadsBack | src/almanaccoData.js:5 | before the dash the key is the day's decimal text and reads back as the day; after it, the month's text, reading back as the month |
| Almanacco.KeyInjective | src/almanaccoData.js:3-5 | two (day, month) pairs with the same key are the same pair |
| Almanacco.GetAlmanacco | src/almanaccoData.js:30-33 | saint and fact are the table entries for the key, else the fixed texts, and neither is ever empty |
| Almanacco.FattiKeysInSanti | src/almanaccoData.js:7-28 | every day with a historical fact also has a saint |
| Almanacco.KnownEntries | src/almanaccoData.js:8-32 | keys carry no zero padding; 25-12 and 14-2 give their saints, 27-12 its fact, and 25-12 the default fact |
| Almanacco.SantoIsFeastDay | src/almanaccoData.js:7-21 | the saint differs from the default text exactly on the thirteen feast days of the table, for every input date |
| Almanacco.FeastKeyDecodes | src/almanaccoData.js:7-21 | a key found in the saints table decodes to one of the thirteen feast days |
| Lists.Find | src/App.jsx:79 | `find` succeeds exactly when some record has the id, and returns the first such record |
| Lists.ReplaceKey | src/App.jsx:80 | the `map` keeps the length and puts the saved record in place of each record with its id |
| Lists.RemoveKey | src/App.jsx:196 | the `filter` keeps exactly the records with another id, drops every record with the id, and never grows the list |
| Lists.Upsert | src/App.jsx:79-83 | with the id present: same length, those records replaced, the others unchanged in place; absent: the record appended after the unchanged list |
| Lists.RemoveKeyAppend | src/App.jsx:181 | deletion distributes over concatenation, so the kept records keep their order |
| Lists.RemoveKeyAbsent | src/App.jsx:208 | deleting an id no record has leaves the list as it is |
| Lists.RemoveAfterReplace | src/App.jsx:80 | replacing the records of an id and then deleting the id is deleting the id |
| Lists.UpsertKeepsOthers | src/App.jsx:79-83 | an upsert changes nothing outside the saved id: deleting that id afterwards equals deleting it before |
| Lists.UpsertThenFind | src/App.jsx:79-83 | after an upsert, looking up the saved id finds the saved record |
| Lists.UpsertIdempotent | src/App.jsx:79-83 | saving the same record twice is saving it once |
| Lists.UpsertKeepsUnique | src/App.jsx:79-83 | an upsert keeps the ids of a list unique |
| Lists.RemoveKeepsUnique | src/App.jsx:196 | a deletion keeps the ids of a list unique |
| Health.RowsOfType | src/HealthTracker.jsx:42-49 | the rows of one type are never more than the input rows |
| Health.RowsOfTypeSound | src/HealthTracker.jsx:42-49 | every row of one type is a row of the input, of that type |
| Health.RowsOfTypeComplete | src/HealthTracker.jsx:42-49 | every input row of one type is among the rows of that type |
| Health.GroupByType | src/HealthTracker.jsx:42-49 | the loop's map has a group exactly for each type present, each group the rows of its type in input order |
| Health.GroupingStep | src/HealthTracker.jsx:43-44 | creating the group of a new type and pushing the row keeps the map an exact grouping of the rows seen |
| Health.GroupOfEachRow | src/HealthTracker.jsx:42-49 | each row is in the group of its own type and in no group of another type |
| Health.TypeOrder | src/HealthTracker.jsx:42-49 | the group keys: every row's type, only present types, no repeats |
| Health.TypeOrderFirstOccurrence | src/HealthTracker.jsx:42-43 | the keys are in order of first occurrence: before any row of a later key there is a row of every earlier key |
| Health.GroupSizesSum | src/HealthTracker.jsx:42-49 | the group sizes add up to the number of rows, so the grouping partitions its input |
| Health.CeilDiv | src/HealthTracker.jsx:61 | `Math.ceil(a / b)` is the least whole number whose multiple of `b` reaches `a` |
| Health.CycleDay | src/HealthTracker.jsx:55-63 | none without `period_start` rows; else from the last row, ceil(elapsed days) + 1, none exactly when elapsed exceeds 34 days, results in 1..35 |
| Health.PeriodStartsOfGrouping | src/HealthTracker.jsx:56 | read from the grouped rows, the period starts are the `period_start` rows in input order, and empty exactly when there are none |
| Health.CycleDayExamples | src/HealthTracker.jsx:58-61 | at the very instant of the last start the count is 1, and instants before and after the start by the same time count alike |
| Health.CycleDayOnMarkingDay | src/HealthTracker.jsx:59-61 | the start is stamped when it is marked and the selected day is its midnight, so on the marking day the count is 2 |
| Health.IsBlankName | src/HealthTracker.jsx:101 | a medication name is refused exactly when it has no non-whitespace character |
| Health.FormatTime | src/HealthTracker.jsx:105 | a five-character time gains `:00`; any other non-empty time is stored as given; no time becomes `00:00:00` |
| Health.FormatTimeWellFormed | src/HealthTracker.jsx:105 | `HH:MM` or no time becomes `HH:MM:SS`; an `HH:MM:SS` time is kept; formatting twice is formatting once |
| Health.EditTime | src/HealthTracker.jsx:130 | the edit form's time is the stored time's prefix of length five, or all of it when shorter; empty when there is none |
| Health.EditThenSaveTime | src/HealthTracker.jsx:130 | editing and saving a stored `HH:MM:SS` keeps it only up to the minute: it comes back unchanged exactly when its seconds are `00` |
| Health.SaveMedRequest | src/HealthTracker.jsx:100-115 | a blank name is refused with its message; otherwise update the edited id when it is truthy, else insert, with the name and the normalised time |
| Health.FalsyIdInserts | src/HealthTracker.jsx:111-115 | with a valid name, a missing or 0 edited id inserts a new row, and any other id updates that row |
| Health.ApplyMedRequest | src/HealthTracker.jsx:106-115 | an update sets name and time of the rows with the id and changes nothing else; an insert appends one row; a refusal changes nothing |
| Health.TakenOn | src/HealthTracker.jsx:225 | a medication shows as taken on a date exactly when the next toggle on that date would clear its date |
| Health.NextTaken | src/HealthTracker.jsx:143 | the next value is the selected date exactly when the last one was not, and null otherwise |
| Health.ToggleTwice | src/HealthTracker.jsx:143 | two toggles restore "taken on the selected date" but clear a date of another day |
| Health.SetTaken | src/HealthTracker.jsx:145-148 | only the rows with the id get the new date; the length and every other row are kept |
| Health.ToggleFlipsRow | src/HealthTracker.jsx:225 | after the toggle the row shows as taken on the selected date exactly when it did not before |
| Health.RowsOfDay | src/HealthTracker.jsx:171 | the kept rows are rows of the input whose `created_at` contains the day, and every such input row is kept |
| Health.RowsOfDayAppend | src/HealthTracker.jsx:171 | the day filter distributes over the concatenation of any two row lists, so kept rows keep their order |
| Health.DayTotal | src/HealthTracker.jsx:171 | a day's total is 0 when no row is of that day |
| Health.WaterTotal | src/HealthTracker.jsx:171 | the water total is 0 when there are no water rows, or none of them is of the selected day |
| Health.DayTotalAppend | src/HealthTracker.jsx:171 | a new row adds its value to the day's total when it is of that day, and nothing otherwise |
| Health.WaterTotalOfFetched | src/HealthTracker.jsx:171 | read from the grouped rows, the water total is the day total of the fetched water rows |
| Health.AddWaterAdds250 | src/HealthTracker.jsx:166-171 | after adding a 250 ml row of the day and grouping again, the water total grows by exactly 250 |
| Health.SeriesFor | src/HealthTracker.jsx:246 | a card's series is its own group, else the systolic group for pressure, else empty |
| Health.LastValue | src/HealthTracker.jsx:247 | the last value exists exactly when the series is not empty, and is the value of its last row |
| Health.PressureShowsSystolic | src/HealthTracker.jsx:246 | with no `pressure` rows the pressure card shows the systolic rows, with a value exactly when such rows exist |
| Health.CardValue | src/HealthTracker.jsx:251 | the steps card shows the synced count when positive; every other case shows the series' last value |
| Health.LastOfType | src/HealthTracker.jsx:247 | the rows of a present type end with the last input row of that type |
| Health.CardShowsLastRow | src/HealthTracker.jsx:246-251 | read from the grouped rows, a card shows the synced steps when positive; otherwise a value exactly when its type has rows (or, for pressure, systolic rows), namely the value of the last such row |
| Health.HealthTracker.constructor | src/HealthTracker.jsx:10-18 | the tracker starts on the given day with the table, the metrics the grouping of the fetched rows, an empty form and nothing being edited |
| Health.HealthTracker.FetchMetrics | src/HealthTracker.jsx:40-50 | the metrics become the exact grouping of the fetched rows, which the other handlers keep; nothing else changes |
| Health.HealthTracker.SelectDate | src/HealthTracker.jsx:187 | only the selected date changes |
| Health.HealthTracker.SaveMed | src/HealthTracker.jsx:100-125 | saved exactly when the name is not blank; the table gets the request's effect; a save clears the form and the edited id, a refusal changes nothing |
| Health.HealthTracker.OpenNewForm | src/HealthTracker.jsx:200 | the form is cleared and no row is being edited |
| Health.HealthTracker.StartEdit | src/HealthTracker.jsx:127-136 | the form shows the row's name and time to the minute, and the row's id is being edited |
| Health.HealthTracker.DeleteMed | src/HealthTracker.jsx:138-140 | once confirmed the rows with the id are removed, otherwise nothing changes |
| Health.HealthTracker.ToggleMed | src/HealthTracker.jsx:142-156 | the rows with the id get the next `last_taken_date`; nothing else changes |
| Agenda.Hours | src/DailyAgenda.jsx:16 | sixteen hours, each between 7 and 22 |
| Agenda.HoursAreTheGrid | src/DailyAgenda.jsx:16 | the grid holds exactly the hours 7..22, in strictly increasing order |
| Agenda.HourLabelsDistinct | src/DailyAgenda.jsx:88 | the slots' two-digit labels have two characters and are pairwise different |
| Agenda.EventsOn | src/DailyAgenda.jsx:37 | an event is shown exactly when it is in the list and its date equals the selected date string |
| Agenda.EventsOnAppend | src/DailyAgenda.jsx:37 | the date filter distributes over concatenation, so shown events keep their order |
| Agenda.EventsOnIdempotent | src/DailyAgenda.jsx:37 | filtering the shown events again changes nothing |
| Agenda.SlotEvent | src/DailyAgenda.jsx:89 | a slot holds an event exactly when some event starts with the hour's label, and then the first such event |
| Agenda.OneSlotPerEvent | src/DailyAgenda.jsx:88-89 | an event is shown in at most one hour slot |
| Agenda.EditForm | src/DailyAgenda.jsx:42-49 | the form copies id, title, date, start, end and colour, missing place or description become empty, and the fixed defaults |
| Agenda.NewForm | src/DailyAgenda.jsx:51-60 | the new form has no id, the selected date, `HH:00` to the next hour's `HH:00`, empty texts, reminder `10`, recurrence `NONE`, no video call, and the default colour |
| Agenda.Heading | src/DailyAgenda.jsx:113 | the heading reads "Modifica Impegno" exactly when the id is present and truthy |
| Agenda.HeadingOfForms | src/DailyAgenda.jsx:113 | a slot's form is titled as new; an event's form as an edit exactly when its id is not empty |
| Agenda.NewFormFitsSlot | src/DailyAgenda.jsx:52-55 | a grid slot's form runs from minute 0 of the hour to minute 0 of the next, and its start lies in that slot and no other |
| Agenda.EditFormKeepsSlot | src/DailyAgenda.jsx:44 | an event's form starts in the same hour slots as the event |
| Agenda.SampleDays | src/DailyAgenda.jsx:32-37 | 27 December 2025 shows events 1 and 3 in that order, the 28th event 2 alone |
| Agenda.SampleSlotTen | src/DailyAgenda.jsx:88-89 | on 27 December 2025 the 10 o'clock slot holds event 1 |
| Agenda.SampleSlotEleven | src/DailyAgenda.jsx:88-89 | on 27 December 2025 the 11 o'clock slot holds event 3 |
| Agenda.SampleSlotEight | src/DailyAgenda.jsx:88-89 | on 28 December 2025 the 8 o'clock slot holds event 2 |
| Agenda.SampleIsoDates | src/DailyAgenda.jsx:26 | 27 and 28 December 2025 are written `2025-12-27` and `2025-12-28`, the dates the sample events carry |
| Agenda.Pad2Examples | src/DailyAgenda.jsx:88 | the labels of 8, 10 and 11 are `08`, `10` and `11` |
| Agenda.DailyAgenda.constructor | src/DailyAgenda.jsx:5-14 | the agenda starts on the given day, with its `YYYY-MM-DD` string, its events and the initial form |
| Agenda.DailyAgenda.ChangeDay | src/DailyAgenda.jsx:18-22 | the selected date moves by the offset in calendar days, the date string becomes its `YYYY-MM-DD` and the shown events are those of that string |
| Agenda.DailyAgenda.PickDate | src/DailyAgenda.jsx:76 | the picked date becomes the selected date, with its `YYYY-MM-DD` string and its events |
| Agenda.DailyAgenda.OpenEdit | src/DailyAgenda.jsx:96 | the form shows the clicked event; date, date string and events are unchanged |
| Agenda.DailyAgenda.ClickSlot | src/DailyAgenda.jsx:91 | an empty slot opens the new form for its hour and the selected date; an occupied slot changes nothing |
| Agenda.StepForwardBack | src/DailyAgenda.jsx:18-22 | pressing "next" then "previous" on the agenda restores the selected day, its date string, the shown events and the form |
| App.ItalianMonth | src/App.jsx:38 | month names are non-empty and hold no underscore |
| App.MockKey | src/App.jsx:37-39 | the key is the day's decimal text, an underscore, and the Italian name of the month |
| App.MockAlmanac | src/App.jsx:43-48 | the almanac is the entry of the key when present, else the fixed default triple |
| App.MockKeyDecodes | src/App.jsx:39 | a key equal to `<d>_dicembre` was built from day `d` of December |
| App.MockAlmanacDays | src/App.jsx:43-48 | Becket exactly on 29 December, Roger exactly on 30 December, the default on every other day |
| App.WithLink | src/App.jsx:243 | a present non-empty URL appends one `URL` media item; text and earlier media unchanged; otherwise nothing changes |
| App.LinksAccumulate | src/App.jsx:243 | a dismissed or empty prompt changes nothing, and two links are appended in order |
| App.TakenOnOneDay | src/App.jsx:220 | a medication shows as taken on at most one day |
| App.HappyApp.constructor | src/App.jsx:10-26 | the screen starts on the given day with empty lists, the default status and that day's almanac |
| App.HappyApp.StepDay | src/App.jsx:94-96 | one day back or forward, with that day's almanac; nothing else changes |
| App.HappyApp.LoadMeds | src/App.jsx:56-59 | the medications become the fetched table |
| App.HappyApp.ToggleMedication | src/App.jsx:61-65 | the medication's rows flip "taken on the selected day"; nothing else changes |
| App.HappyApp.OpenItemModal | src/App.jsx:68-74 | the dialog shows the given item, or a blank one whose id is the clock reading |
| App.HappyApp.EditItemText | src/App.jsx:127-128 | only the title and description of the dialog's item change |
| App.HappyApp.SaveItem | src/App.jsx:76-86 | a `todo` item is upserted into the to-dos and any other into the notes; the other list is untouched; unique ids stay unique; the dialog closes |
| App.HappyApp.DeleteTodo | src/App.jsx:196 | the to-dos lose exactly the records with the id |
| App.HappyApp.DeleteNote | src/App.jsx:208 | the notes lose exactly the records with the id |
| App.HappyApp.DeleteEvent | src/App.jsx:181 | the events lose exactly the records with the id |
| App.HappyApp.AddEvent | src/App.jsx:117 | the event is appended after the unchanged events (a save the screen as written never reaches, see below) |
| App.HappyApp.AddLink | src/App.jsx:243 | the diary becomes the diary with the link; nothing else changes |
| App.HappyApp.SetDiaryText | src/App.jsx:245 | the diary text changes, the media stay |
| App.HappyApp.SetMood | src/App.jsx:163-164 | the mood becomes the chosen one of the five offered; nothing else changes |
| App.HappyApp.SetWeather | src/App.jsx:157-158 | the weather becomes the chosen one of the five offered; nothing else changes |
| App.StepBackAndForth | src/App.jsx:94-96 | a step forward then back, or back then forward, returns to the same day and almanac |

## Left out

- The Supabase row store (`medications`, `health_metrics`, `notes`) is not modelled as a remote service: the medications table is a list the classes hold, fetched rows come in as parameters, ids assigned on insert are a parameter, and errors returned by the store are not modelled.
- Network ordering: `fetchData`/`fetchMeds` run asynchronously and a slow reply can overwrite newer state; the model applies each effect immediately and in order.
- Time zones: `toISOString` (UTC) and `new Date("YYYY-MM-DD")` (UTC midnight read back in local time) are read as the civil date itself. West of UTC the almanac can show the previous day; this is not modelled.
- App.StepBackAndForth, Agenda.DailyAgenda.ChangeDay: proved for civil days; the arrows of `src/App.jsx:94-96`, and the agenda's `changeDay` (`src/DailyAgenda.jsx:18-22`) after a picked date (`new Date(value)` at `src/DailyAgenda.jsx:76`, UTC midnight), go through local time and UTC, and in a zone like Europe/Rome across a daylight-saving change they skip or stick (‹ from `2025-10-27` gives `2025-10-25`, skipping the 26th; › from `2025-03-30` stays on the 30th). The model always moves by exactly one day.
- Medication order: the tables are read back ordered by `schedule_time` (`src/HealthTracker.jsx:37`, `src/App.jsx:57`) and re-read after every save or toggle (`src/HealthTracker.jsx:123`, `src/App.jsx:64`); `Health.ApplyMedRequest` and the classes append an inserted row at the end and keep the stored order instead of re-sorting.
- Health.CycleDay: the day count is 2, not 1, on the day a start is marked (`Health.CycleDayOnMarkingDay`); the model keeps this behaviour of the code.
- Parsing `created_at` and the selected date into milliseconds: `Health.CycleDay` takes both as integers.
- Floating point: metric values come from `parseFloat` and are modelled as integers; `prompt` input, `NaN` and invalid dates are not modelled.
- The `date` display field that grouping adds to each row (`toLocaleDateString('it-IT')`) is locale formatting and is not modelled.
- The Google Fit OAuth redirect, the aggregate `fetch`, token parsing from `window.location.hash` and the steps insert: network and browser code; the synced step count is a parameter of `Health.CardValue`.
- `alert`, `confirm` (a parameter of `Health.HealthTracker.DeleteMed`), `setTimeout`, modal visibility flags, tab switching and JSX rendering.
- The medication form's `notes` and `notify` fields: nothing the model covers reads them.
- App.HappyApp.AddEvent: the event dialog reads `currentEvent.titolo` (`src/App.jsx:106`) while `currentEvent` is still `null` (it is never set before the dialog opens), so rendering fails and the append of `src/App.jsx:117` is unreachable as written; the model takes the event being saved as a parameter and models the append alone.
- The daily note of the agenda (a store query) and the agenda form's field-by-field editing and "sync" button (an `alert` only).
- String lengths: JavaScript counts UTF-16 code units, the model counts characters; this matters for `Health.FormatTime`'s five-character test and for `Health.EditTime`'s five-character `slice(0,5)` on non-BMP input.
- Calendar dates are unbounded proleptic Gregorian dates; the JavaScript `Date` range limit (±8.64e15 ms) is not modelled.
- `src/Journal.jsx`, `src/MoodPicker.jsx`, `src/Calendar.jsx`, `src/Health.jsx`, `src/main.jsx`, `src/supabaseClient.js` and `vite.config.js` are not part of this model (store calls, static markup, bootstrap and build configuration).
- Calendar.IsoDate: its own contract gives only the length; the fields are `Calendar.IsoDateFields`, for years 0..9999 only. Years outside that range are covered only by the shape `Calendar.YearString` states (sign and digits), not by a read-back of the six-digit magnitude.
- Agenda.Hours: its contract gives only the length and the range of each hour; that the grid is exactly 7..22 in order is `Agenda.HoursAreTheGrid`.
