# Gantt bot core, modelled in Dafny

The Gantt bot reads sticky notes from a Miro board. Each note holds one task written as
`Task | Start | End | Person`. In a Telegram chat, an operator sorts the tasks into two exclusive
categories, "Critical Path" and "Floating Task", by pressing buttons. The bot then draws the chosen
tasks as a Gantt chart and exports them as a worksheet. This project models the three pieces of
logic inside `gantt_bot.py`:

- **Notes** (`notes.dfy`) is the note parser `parse_note` and the batch filter of `send_gantt`.
  It includes Python's `str.split("|")` and `str.strip()`, with the whitespace set of `str.isspace`.
- **Layout** (`layout.dfy`) is the day arithmetic of `generate_excel_gantt`:
  - dates are read as day numbers;
  - there is one bar per record, and its width is End − Start;
  - the visible range is [earliest Start − 1, latest End + 2], and `total_days` is derived from it;
  - the worksheet is a header followed by one line per record, in chart order.
- **Session** (`session.dfy`) is the per-user state (`context.user_data`) of `send_gantt` and `handle_buttons`:
  - the state holds the parsed notes, the index sets of both categories, the current category
    and the generated request;
  - each button is an `Action`, and `Step` returns the new state and the bot's `Reply`;
  - `Open` is the `/gantt` command.
- **Scenarios** (`scenarios.dfy`) holds worked sessions on symbolic notes.

The central property is that the two category sets stay disjoint. `StepKeepsValid`, `Run` and
`SessionsStayDisjoint` prove it for every sequence of buttons the bot can show.

Collaborators the code calls but does not define are parameters:

- the order in which Python iterates a set of indices (`Env.order`, required to list each element
  once);
- the date reader `pd.to_datetime` (`read`);
- the date writer `strftime('%Y-%m-%d')` (`show`).

Every lemma about these holds for every collaborator that meets the stated requirement. The date
lemmas ask only that written days read back: for the rows' own days (`DaysReadBack`), or for every
day the reader produces (`ReadsBack`). Neither asks for a round trip on every integer, which
pandas' reader, limited to its Timestamp range, could not give. Lemmas whose conclusions mention no dates ask nothing of the reader and writer.

The model follows `gantt_bot.py`. Points about that code worth knowing:

- `parse_note` counts pieces and checks nothing else. There is no 10-character date check and no
  non-empty-field check (`BlankFieldsAccepted`).
- A parsed record's Type is `"Pending"`.
- There is no reset action.
- A new session's current category is whatever `current_type` the user data already holds. It is normally
  unset, but a category button pressed before `/gantt` (on an old keyboard) leaves one behind, and
  `send_gantt` keeps it (`Open`'s `pending`).
- A record whose End precedes its Start is accepted. It gets a negative-width bar
  (`BackwardsRecordInvertsRange`).
- The generated request lists all Critical Path copies before all Floating Task copies. It does
  not follow note order (`GenerateThree`).

## Model

| member | source | states |
|---|---|---|
| Notes.TrimStart | gantt_bot.py:46 | The left half of `strip()`: the result is no longer than the input and does not start with white space |
| Notes.TrimStartCuts | gantt_bot.py:46 | The left half of `strip()` only cuts: its result is a suffix of the input, and everything cut off is white space |
| Notes.TrimEnd | gantt_bot.py:46 | The right half of `strip()`: the result is no longer than the input and does not end with white space |
| Notes.TrimEndCuts | gantt_bot.py:46 | The right half of `strip()` only cuts: its result is a prefix of the input, and everything cut off is white space |
| Notes.Trim | gantt_bot.py:46 | A stripped piece never starts or ends with white space |
| Notes.TrimIsInfix | gantt_bot.py:46 | `strip()` only removes white space from the two ends: its result is a contiguous slice between two all-space margins |
| Notes.TrimPadded | gantt_bot.py:46 | A trimmed text padded with any white space strips back to itself |
| Notes.TrimFixedPoints | gantt_bot.py:46 | `strip()` leaves a text unchanged exactly when it has no white space at either end, so stripping twice is the same as stripping once |
| Notes.Count | gantt_bot.py:43 | The separator count is zero exactly when the text contains no separator character |
| Notes.Split | gantt_bot.py:46 | `split` on the separator gives one piece more than there are separators, and no piece contains a separator |
| Notes.JoinSplit | gantt_bot.py:46 | Joining the pieces with the separator gives back the text, so splitting loses nothing |
| Notes.SplitJoin | gantt_bot.py:46 | Splitting a join of separator-free pieces gives back exactly those pieces, so the pieces of a text are unique |
| Notes.ParseText | gantt_bot.py:43-58 | `parse_note` yields a record exactly when the cleaned text has three separators, i.e. four pieces; the record's Type is Pending |
| Notes.ParseTextFields | gantt_bot.py:46-58 | On success, Task, Start, End and Person are the stripped pieces in positional order |
| Notes.ParseFormat | gantt_bot.py:35-58 | A note written as Task, Start, End and Person joined by the separator with a space on each side, with separator-free trimmed fields, parses back to exactly that record |
| Notes.Keep | gantt_bot.py:141 | The filter keeps at most all elements; it keeps none exactly when every element is rejected, all exactly when none is; every kept value is the result for some element |
| Notes.KeepAppend | gantt_bot.py:141 | The filter works element by element: splitting the input anywhere splits the output at the same place, so order is kept |
| Notes.ParseBatch | gantt_bot.py:141-142 | The batch is empty exactly when the parser rejects every note, and complete exactly when it rejects none; every record is Pending and is the parse of some note of the batch |
| Notes.ParseBatchCounts | gantt_bot.py:141-142 | The batch is empty exactly when no note has three separators, and complete exactly when all do |
| Notes.ParseBatchSkipsRejected | gantt_bot.py:141 | A rejected note leaves no trace: the batch parses as if it were absent |
| Notes.ParseBatchKeepsAccepted | gantt_bot.py:141 | An accepted note's record sits between the records of the notes before it and those after it |
| Layout.ReadColumn | gantt_bot.py:65-66 | Converting the Start or End column succeeds exactly when every record's date in it is readable, giving one day per record; otherwise it fails on the first unreadable date |
| Layout.ReadRows | gantt_bot.py:64-66 | The rows are the records in order, with the same task, person and Type, and Start and End read as days; the conversion fails exactly when some date is unreadable |
| Layout.MinStart | gantt_bot.py:71 | The earliest Start is a lower bound of all Starts and is attained by some row |
| Layout.MaxEnd | gantt_bot.py:72 | The latest End is an upper bound of all Ends and is attained by some row |
| Layout.Draw | gantt_bot.py:67-110 | Line i draws record i, from Start for End − Start days (zero or negative allowed), labelled with the task, with the person at End + 1. The x-range is the tight range with one day before the earliest Start and two after the latest End, and total_days is that range minus its margins |
| Layout.Sheet | gantt_bot.py:123-125 | The worksheet has the header `Task, Start, End, Person, Type`, then exactly one five-cell line per record |
| Layout.SheetRoundTrip | gantt_bot.py:123-125 | When the date reader reads the writer's text for each of the rows' own days back as that day, reading the worksheet back gives exactly the rows it was written from: nothing is lost, added, reordered or altered |
| Layout.Render | gantt_bot.py:63-128 | Rendering fails exactly when the request is empty or some date is unreadable; otherwise there is one bar per record and one worksheet line per record after the header |
| Layout.ChartAgreesWithSheet | gantt_bot.py:84-125 | Worksheet line i + 1 and chart line i show the same row: the same task, person and Type, and, when row i's two days are written so that they read back, dates that read as the days the bar spans |
| Layout.RenderFollowsRequest | gantt_bot.py:63-125 | When every day the reader produces is written so that it reads back as itself, chart line i and worksheet line i + 1 both show record i of the request: its task, person and Type, and dates that read as the request's dates |
| Layout.RenderFields | gantt_bot.py:63-125 | Whatever the date reader and writer, chart line i and worksheet line i + 1 carry record i's task, person and Type |
| Layout.SheetKeepsTags | gantt_bot.py:123-125 | The worksheet's (task, Type) pairs are the request's pairs, in the same order |
| Layout.DurationsWithinTotal | gantt_bot.py:67-73 | No bar spans more days than total_days |
| Layout.BarsInsideRange | gantt_bot.py:67-110 | When no record ends before it starts, every bar and person label lies strictly inside the x-range, and total_days is at least one |
| Layout.BackwardsRecordInvertsRange | gantt_bot.py:67-73 | A record ending 7 days before its start is drawn with width −7, and when it is alone the x-range is inverted (xMax < xMin) and total_days is −6 |
| Session.MainMenu | gantt_bot.py:151-157 | The menu is exactly the two category buttons, Critical Path first, followed by "Generate" exactly when some category has a chosen note, and nothing else |
| Session.Open | gantt_bot.py:139-157 | `/gantt` answers "no notes" and stores nothing exactly when the user has no notes and no fetched note parses; a session is stored exactly when the user already has one or some fetched note has three separators. Otherwise a new session holds the parsed batch, empty sets, no request, and the category already in the user data; an existing session is kept unchanged. The menu follows the selection |
| Session.ToggleNote | gantt_bot.py:214-231 | Without a current category the toggle is refused. For a note of the other category it is refused with that category named. Otherwise only that note's membership in the current set flips, the other set is untouched, and disjoint sets stay disjoint |
| Session.ToggleTwice | gantt_bot.py:226-229 | Toggling the same note twice in the same category restores the selection |
| Session.OptionsView | gantt_bot.py:233-249 | One entry per note, in order, then "done". An entry is disabled (noop) and crossed out exactly when its note is in the other set; otherwise it toggles that note and is ticked exactly when the note is in the current set |
| Session.Picks | gantt_bot.py:180-185 | The visited (index, category) pairs number the sizes of both sets added together, with the Critical Path group first. They are exactly the chosen pairs, no pair twice, and no index twice when the sets are disjoint |
| Session.Generate | gantt_bot.py:179-187 | The request has one row per chosen index, and it is empty exactly when nothing is chosen |
| Session.GenerateIsCopies | gantt_bot.py:179-185 | The request is the tagged copies of the Critical Path indices, in the order the set yields them, followed by those of the Floating Task indices |
| Session.GenerateCoversSelection | gantt_bot.py:180-185 | Every chosen note is in the request as a copy tagged with its category |
| Session.GenerateOnlySelection | gantt_bot.py:180-185 | Every row of the request is a tagged copy of a chosen note, and all Critical Path rows come before all Floating Task rows |
| Session.PicksAreSelection | gantt_bot.py:180-185 | As a multiset, the (index, category) pairs behind the request are the union of the two sets, for any selection |
| Session.GenerateKinds | gantt_bot.py:180-185 | The request's first rows, as many as there are Critical Path indices, have Type Critical Path, and the rest Floating Task |
| Session.Step | gantt_bot.py:161-249 | Only toggles change the sets, only category buttons change the category, and only a successful generate changes the request. A category button records the category and shows its option list; "done" shows the menu again. A toggle without a category, or against the other category, changes nothing and says so; an accepted toggle applies `ToggleNote` and shows the new option list. Generate warns exactly when nothing is chosen, and otherwise stores the generated request and offers the two formats. Export warns exactly when no request exists; otherwise it delivers the render of the stored request with the chosen format. A failed render gives `RenderFailed`, which stands for the exception the source raises (see below). Noop does nothing |
| Session.GenerateThenExport | gantt_bot.py:179-210 | After "Generate", an export delivers exactly when the generated request renders, and then delivers that render with the chosen format |
| Session.RenderShows | gantt_bot.py:63-125 | Whatever the date reader and writer, a rendered request whose first rows are Critical Path shows every row: chart line k and worksheet line k + 1 carry row k's task and person, the worksheet's (task, Type) pairs are the request's, and the Type column names the row's category |
| Session.GeneratedRender | gantt_bot.py:179-210 | Whatever the date reader and writer, the render of a generated request shows it row by row, with Critical Path as Type for as many leading rows as there are Critical Path indices and Floating Task after them |
| Session.StepKeepsValid | gantt_bot.py:161-249 | Every button the bot can show keeps the two sets disjoint and within the note list |
| Session.Run | gantt_bot.py:161-231 | Any run of such buttons ends in a valid session over the same notes |
| Session.SessionsStayDisjoint | gantt_bot.py:139-231 | After `/gantt`, whatever buttons are pressed, no note is ever in both categories |
| Session.PressingAnEntry | gantt_bot.py:233-249 | Pressing an option entry is never refused: a disabled entry does nothing, and any other entry flips its own tick and leaves every other entry as it was |
| Session.GenerateOfferedIffUseful | gantt_bot.py:156-157 | "Generate" is on the menu exactly when pressing it does not give the "nothing selected" warning |
| Scenarios.ClassifyCritical | gantt_bot.py:171-231 | Choosing Critical Path and then notes 0 and 2 moves a three-note session through the expected states |
| Scenarios.ClassifyFloating | gantt_bot.py:171-231 | Then choosing Floating Task and note 1 records the category and adds note 1 to the Floating Task set |
| Scenarios.SetTypeRecords | gantt_bot.py:171-174 | A category button records the category and changes nothing else in the session |
| Scenarios.GenerateThree | gantt_bot.py:179-187 | That selection generates exactly three rows: the Critical Path copies of notes 0 and 2 first, in one of the two orders, then note 1 as Floating Task |
| Scenarios.CrossCategoryRefused | gantt_bot.py:221-224 | Toggling a Critical Path note while Floating Task is current gives the alert and changes nothing |
| Scenarios.BlankFieldsAccepted | gantt_bot.py:43-58 | Four blank pieces parse into a record with four empty fields |

## Left out

- `fetch_sticky_notes` (the HTTP call, its status handling, tokens and board id from the environment): the fetched notes are an input to `Open`.
- BeautifulSoup markup stripping: the parser's input is the cleaned text. A note without `data.content` makes `parse_note` return `None` through its exception handler; that case is not modelled.
- The note's `fillColor` is read but never used, so it is not modelled.
- `pd.to_datetime` and `strftime` are the parameters `read` and `show`. Dates are whole days. Time-of-day parts and the flooring of `.dt.days` are not modelled.
- Layout.ReadColumn: `read` is applied to each date on its own, while `pd.to_datetime` converts a whole column. The model does not capture a column whose dates each parse alone but in mixed formats (pandas infers one format from the first date and then rejects the others). It also does not capture a blank date becoming NaT instead of an error, which then fails only when the worksheet is written.
- Figure sizing (`width_per_day`, `height_per_task`, `max(10, …)`) is left out because it is floating point. Colours, legend, tick placement, axis inversion and all drawing and saving are left out because they are rendering.
- Workbook and image files, and sending photos and documents, are I/O. Both export buttons write both files; the model only records whether the worksheet is sent (`Delivered(_, withSheet)`).
- Telegram plumbing is left out: the async handlers, keyboard objects, callback-data strings and their parsing (`int(data.split("_")[1])`), message texts, `/start` and `main`. The refusal alert is a second answer to an already answered callback query; whether the platform shows it is not modelled.
- Session.Step: requires every chosen index to name a note, as `parsed_notes[idx]` in generate does. Toggle indices beyond the note list, or negative ones from hand-made callback data, are not modelled (`Offerable`).
- Buttons pressed before `/gantt` has stored any notes for the user (on a keyboard from an earlier run of the bot) are not modelled: `Step` works on an opened session. In the source, noop does nothing, a category button records `current_type` (which `Open`'s `pending` then carries into the new session), "done" opens a session as `/gantt` does, generate and the exports only warn, and a toggle raises `KeyError`.
- Session.Generate: Python's set iteration order is a parameter that depends only on the set's contents. Real iteration order can also depend on insertion history. Every property is stated for any order that lists each element once, so it holds for whatever order Python uses.
- Rendering an empty request raises in the source (the data frame has no columns). The model returns `EmptyRequest`; the export guard makes this unreachable.
- A date `pd.to_datetime` cannot read raises an exception inside `generate_excel_gantt` (gantt_bot.py:65-66, called at :206). Nothing catches it in `handle_buttons`, so the operator gets no reply at all. The model's `RenderFailed` reply stands for that exception: it says which date failed, but the bot sends nothing.
