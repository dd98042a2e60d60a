# School inspection bot: a Dafny model of its core

`school_inspection_bot.py` is a Telegram bot. Field supervisors use it to file
school visit reports, and administrators use it to export those reports as an
Excel workbook. This project models the four pieces of logic behind it and
proves their properties:

- **Periods** (`periods.dfy`, with `calendar.dfy`): `get_reports_by_period` turns
  a period keyword and the current date into an inclusive date range. The
  periods are today, the Friday-to-Thursday business week, and the calendar
  month. Dates behave like Python's `datetime.date`: years 1 to 9999, day
  numbers starting at 0001-01-01, Monday = 0 weekdays, and `timedelta`
  arithmetic that overflows at the ends of the calendar.
- **Reports** (`reports.dfy`, with `strings.dfy` and `isodate.dfy`): the
  `reports` table is an append-only class `ReportStore`.
  - `save_report` appends a row under a fresh AUTOINCREMENT id.
  - The range query returns the rows whose visit date lies `BETWEEN` the
    period's ends, `ORDER BY visit_date, supervisor_name`.
  - Visit dates are stored as the ISO text `str(date)` and compared as text
    under SQLite's binary collation. The model proves that this text order is
    the calendar order.
- **Conversation** (`conversation.dfy`): the `/report` ConversationHandler.
  - Seven states plus End, one pure transition function per handler, and the
    routing table.
  - A class `Session` holds the state and the user's draft
    (`context.user_data`). It applies one update at a time and calls
    `save_report` on confirmation.
  - Typed dates are read the way `strptime(text, '%Y-%m-%d')` reads them: one-digit
    months and days, and a space before a one-digit day, are all accepted.
- **Spreadsheet** (`spreadsheet.dfy`): the cell values of the workbook that
  `create_excel_report` builds.
  - The summary sheet comes first, with the total and one count per section.
  - Then come three section sheets (maintenance, air conditioning, cleaning),
    each listing every report with that section's note.
  - Both are built by loops, like the source's `ws.append` loops.

The bot reads the clock and the configured list of supervisor ids. In the model
these are parameters: `today` and `isSupervisor`.

## Model

| member | source | states |
|---|---|---|
| `Calendar.AddDays` | school_inspection_bot.py:121-122 | `date + timedelta(days=k)` has day number `Ordinal(d) + k`. It fails (OverflowError) exactly when that number leaves 1..9999-12-31. |
| `Calendar.AddDaysWeekday` | school_inspection_bot.py:120-121 | Moving `k` days moves the weekday by `k` modulo 7. |
| `Calendar.Weekday` | school_inspection_bot.py:120 | `date.weekday()` lies in 0..6, Monday being 0. `AddDaysWeekday` and `WeekdayShift` relate it to day numbers. |
| `Calendar.OrdinalOrder` | school_inspection_bot.py:136-137 | Day numbers order dates exactly as year, month, day do. Equal day numbers mean equal dates. |
| `Calendar.OrdinalBounds` | school_inspection_bot.py:121-128 | Every valid date has a day number between 1 and that of 9999-12-31. The two ends are reached only by the two extreme dates. |
| `Calendar.DaysInMonth` | school_inspection_bot.py:124-128 | A month has 28 to 31 days. February has 29 exactly in a leap year, and the other months have at least 30. |
| `Periods.DaysSinceFriday` | school_inspection_bot.py:120 | `(weekday + 3) % 7` lies in 0..6. |
| `Periods.Resolve` | school_inspection_bot.py:113-130 | An unknown keyword is the only way to get InvalidPeriod. A resolved range is made of valid dates and contains today. |
| `Periods.WeekRange` | school_inspection_bot.py:118-122 | The week starts `DaysSinceFriday` days before today and ends 6 days after its start. It fails exactly when one of those days leaves the calendar. |
| `Periods.MonthRange` | school_inspection_bot.py:123-128 | The month range is valid and contains today. It fails only by overflow. |
| `Periods.ResolveToday` | school_inspection_bot.py:115-117 | 'today' is the one-day range `[today, today]`. |
| `Periods.ResolveWeekDefined` | school_inspection_bot.py:118-122 | 'week' resolves exactly when its first and last days are in the calendar. |
| `Periods.ResolveWeekStart` | school_inspection_bot.py:119-121 | The week opens on a Friday, `DaysSinceFriday(today)` days back. |
| `Periods.DaysSinceFridayIsFriday` | school_inspection_bot.py:120-121 | The day `(weekday + 3) % 7` days before any date is a Friday. |
| `Periods.ResolveWeekEnd` | school_inspection_bot.py:122 | The week closes six days after it opens, on a Thursday. That is seven days in all. |
| `Periods.ResolveWeekLatestFriday` | school_inspection_bot.py:119-121 | No Friday on or before today is later than the start of the week, so the start is the most recent Friday. |
| `Periods.DaysSinceFridayEnds` | school_inspection_bot.py:120 | The offset is 0 exactly on a Friday and 6 exactly on a Thursday. |
| `Periods.ResolveMonth` | school_inspection_bot.py:123-128 | 'month' runs from day 1 to the month's last day, a length of 28 to 31. December ends on the 31st of the same year. February ends on the 29th exactly in a leap year. |
| `Periods.ResolveWeekExample` | school_inspection_bot.py:118-122 | Wednesday 2024-12-18 lies in the week 2024-12-13 (Friday) to 2024-12-19 (Thursday). |
| `IsoDate.Parse` | school_inspection_bot.py:315 | Whatever `strptime` accepts is a valid calendar date. |
| `IsoDate.Format` | school_inspection_bot.py:323 | `str(date)` is ten characters: four digits, a dash, two digits, a dash, two digits. `ParseFormat`, `FormatOrder` and `FormatBetween` state its round trip and its order. |
| `IsoDate.ParseFormat` | school_inspection_bot.py:323 | Parsing the stored `str(date)` gives the date back (round trip). |
| `IsoDate.IsoDateParses` | school_inspection_bot.py:314-323 | Text is in stored ISO form exactly when it parses to a date whose ISO text it is. |
| `IsoDate.ParseIsoText` | school_inspection_bot.py:314-321 | Zero-padded `YYYY-MM-DD` text parses exactly when it names a real date. Month 13, day 30 of February and year 0 are rejected. |
| `IsoDate.ParseShortFields` | school_inspection_bot.py:315 | `strptime` also accepts one-digit months and days, such as `2024-1-5`. |
| `IsoDate.ParseSpacedDay` | school_inspection_bot.py:315 | `strptime` also accepts a space before a one-digit day, such as `2024-1- 5`. |
| `IsoDate.FormatOrder` | school_inspection_bot.py:136-137 | The ISO texts of two dates compare under the binary collation as their day numbers do, and are equal only for equal dates. |
| `IsoDate.FormatBetween` | school_inspection_bot.py:136 | Text `BETWEEN` on ISO dates is the chronological inclusive range. |
| `IsoDate.DigitsOrder` | school_inspection_bot.py:323 | Zero-padded numerals of one width sort as the numbers they denote. |
| `Strings.LexTrichotomy` | school_inspection_bot.py:137 | The binary collation is total. |
| `Strings.LexLessTransitive` | school_inspection_bot.py:137 | The binary collation is transitive. |
| `Reports.FirstMissing` | school_inspection_bot.py:92-98 | It finds the first of the six keys, in reading order, that the draft lacks. It finds none exactly when every key is present. |
| `Reports.Insert` | school_inspection_bot.py:137 | Inserting keeps the rows sorted by (visit date, supervisor name) and adds exactly the one row (multiset). |
| `Reports.SortedMeansOrdered` | school_inspection_bot.py:137 | Sorted rows are ordered by visit date, and by supervisor name within one date. |
| `Reports.KeyLessTransitive` | school_inspection_bot.py:137 | The ORDER BY key order is transitive. |
| `Reports.SelectMembers` | school_inspection_bot.py:132-136 | A row is selected exactly when it is stored and its visit date is within the bounds. |
| `Reports.Select` | school_inspection_bot.py:136 | The `WHERE visit_date BETWEEN` filter in insertion order, never longer than the table. `SelectMembers` and `SelectChronological` state which rows it keeps. |
| `Reports.ReportStore.constructor` | school_inspection_bot.py:62-74 | A new table is empty and its id counter is 0. |
| `Reports.ReportStore.SaveReport` | school_inspection_bot.py:81-105 | A missing key fails with the first missing one, on an unchanged table. Otherwise it appends exactly one record holding the draft's fields and returns the new id. The new id is one past the counter and larger than every earlier id. Once the largest rowid is used, a complete draft fails with StoreFull on an unchanged table. |
| `Reports.ReportStore.QueryRange` | school_inspection_bot.py:132-143 | The result is sorted by (visit date, supervisor name) and is a permutation of the stored rows in range. The store is left unchanged. |
| `Reports.ReportStore.GetReportsByPeriod` | school_inspection_bot.py:113-143 | An unknown keyword returns `[]`. A date overflow is passed on as an error. Otherwise the result is the query between the ISO texts of the period's first and last days. |
| `Reports.SelectChronological` | school_inspection_bot.py:136-138 | For a visit date stored as `str(d)`, the row is returned exactly when it is stored and `d` lies on or between the range's days. |
| `Reports.SelectFindsSaved` | school_inspection_bot.py:132-138 | A stored report whose visit date is a day of the range is returned. |
| `Conversation.AnswerAdvances` | school_inspection_bot.py:267-372 | A plain answer moves each step to the next (name → date → school → maintenance → AC → cleaning → review) and stages the text verbatim. |
| `Conversation.StartReport` | school_inspection_bot.py:239-264 | Only a supervisor reaches the name step, and anyone else stays at End. Nothing is saved, and the kept draft is consistent with the name step whatever it held. |
| `Conversation.GetSupervisorName` | school_inspection_bot.py:267-295 | The date step follows exactly when the text is neither the manual-entry button nor "إلغاء" (cancel), and the name is then staged verbatim. Otherwise the draft is unchanged. The result is always consistent and never saves. |
| `Conversation.StageDate` | school_inspection_bot.py:323-331 | Staging a date moves to the school step and changes only the visit date, which is ISO text. |
| `Conversation.GetVisitDate` | school_inspection_bot.py:298-331 | Either the school step follows with only the visit date changed, to ISO text, or state and draft are unchanged. It never saves. |
| `Conversation.GetSchoolName` | school_inspection_bot.py:334-343 | Stages the school name. `AnswerAdvances` and `AnswerConsistent` state its step and that it keeps the draft consistent. |
| `Conversation.GetMaintenanceNotes` | school_inspection_bot.py:346-355 | Stages the maintenance notes. `AnswerAdvances` and `AnswerConsistent` state its step and that it keeps the draft consistent. |
| `Conversation.GetAcNotes` | school_inspection_bot.py:358-367 | Stages the AC notes. `AnswerAdvances` and `AnswerConsistent` state its step and that it keeps the draft consistent. |
| `Conversation.GetCleaningNotes` | school_inspection_bot.py:370-396 | Stages the cleaning notes and opens the review. `AnswerAdvances` states the step, and `ReviewHasAllFields` states that the review finds every field. |
| `Conversation.ConfirmReport` | school_inspection_bot.py:399-435 | The conversation ends with an empty draft. It saves exactly when the button data is not `cancel_report`. |
| `Conversation.Cancel` | school_inspection_bot.py:438-445 | `/cancel` ends the conversation with an empty draft and saves nothing. |
| `Conversation.Transition` | school_inspection_bot.py:568-580 | The routing table: `/report` from End, each state's one handler, and the `/cancel` fallback. `TransitionForward`, `TransitionConsistent`, `IgnoredUpdates` and `SaveOnlyOnConfirm` state its contract. |
| `Conversation.TransitionForward` | school_inspection_bot.py:568-580 | An update stays in its state, moves to the next one or ends the conversation, and `/report` enters the name step. Only the review saves, and it then clears the draft. |
| `Conversation.TypedDateAdvances` | school_inspection_bot.py:313-331 | A date that `strptime` accepts is staged as its ISO text, and the school step follows. |
| `Conversation.VisitDateText` | school_inspection_bot.py:572 | Text at the date step goes to `get_visit_date`. |
| `Conversation.QuickDates` | school_inspection_bot.py:302-305 | "📅 اليوم" (today) stages today and "📅 أمس" (yesterday) stages the day before. On 0001-01-01, yesterday overflows and state and draft stay as they were. |
| `Conversation.PromptsStay` | school_inspection_bot.py:271-321 | The manual-entry buttons, and text that `strptime` rejects, leave state and draft unchanged. |
| `Conversation.ButtonsAreNotDates` | school_inspection_bot.py:302-315 | None of the three date buttons parses as a date. |
| `Conversation.CancelPaths` | school_inspection_bot.py:438-445 | `/cancel` from any running state and the review's cancel button end the conversation with an empty draft. The word "إلغاء" (cancel) at the name step ends it but keeps the draft. None of them saves. |
| `Conversation.EntryOnlyFromEnd` | school_inspection_bot.py:239-264 | `/report` enters the name step only from End and only for a supervisor. Otherwise nothing changes. |
| `Conversation.IgnoredUpdates` | school_inspection_bot.py:568-580 | An update no handler of the current state is registered for changes nothing. |
| `Conversation.SaveOnlyOnConfirm` | school_inspection_bot.py:399-435 | A step saves exactly on a review button other than `cancel_report`. It then ends with an empty draft. |
| `Conversation.TransitionConsistent` | school_inspection_bot.py:239-445 | Every update keeps the draft consistent with the state. Each state's earlier answers are staged and a staged visit date is ISO text. |
| `Conversation.ReviewHasAllFields` | school_inspection_bot.py:374-382 | A draft that reaches the review holds every field that the review and `save_report` read. |
| `Conversation.Run` | school_inspection_bot.py:568-580 | A run saves at most one draft per update. |
| `Conversation.RunConsistent` | school_inspection_bot.py:409-410 | Over any run of updates the draft stays consistent, and every saved draft holds all six fields and an ISO visit date. |
| `Conversation.NoConfirmNoSave` | school_inspection_bot.py:404-407 | Without a confirming button press, nothing is saved. |
| `Conversation.RunFirst` | school_inspection_bot.py:568-580 | A run whose first update saves nothing continues from that update's step. |
| `Conversation.ReportHead` | school_inspection_bot.py:239-331 | `/report`, a name and a typed date lead to the school step with the name and ISO date staged. |
| `Conversation.ReportTail` | school_inspection_bot.py:334-435 | The school, three notes and the confirm button save exactly the staged draft and end with an empty draft. |
| `Conversation.FullReport` | school_inspection_bot.py:239-435 | A whole report saves exactly one row. That row holds the answers, with the date in ISO form, and the run ends in End with an empty draft. |
| `Conversation.FullReportRun` | school_inspection_bot.py:239-435 | The eight updates of a whole report save exactly the answered draft. |
| `Conversation.AnswersRow` | school_inspection_bot.py:86-99 | A draft holding all six answers yields the row of those answers. |
| `Conversation.Session.constructor` | school_inspection_bot.py:568-580 | A session starts in End with an empty draft. |
| `Conversation.Session.Handle` | school_inspection_bot.py:399-435 | A step that saves nothing takes the transition's state and draft and leaves the store unchanged. A confirming step appends the draft's record under the next id, then ends with an empty draft. If the store is full, everything stays as it was. |
| `Spreadsheet.StripLeading` | school_inspection_bot.py:177 | The result is a suffix of the text. |
| `Spreadsheet.StripTrailing` | school_inspection_bot.py:177 | The result is a prefix of the text. |
| `Spreadsheet.Strip` | school_inspection_bot.py:177 | `str.strip()` is never longer than its input. `StripEmpty`, `StripEnds` and `StripPadded` state what it removes. |
| `Spreadsheet.StripLeadingSpaces` | school_inspection_bot.py:177 | What is removed is whitespace, and what is kept does not start with whitespace. |
| `Spreadsheet.StripTrailingSpaces` | school_inspection_bot.py:177 | What is removed is whitespace, and what is kept does not end with whitespace. |
| `Spreadsheet.StripEmpty` | school_inspection_bot.py:177 | `strip()` leaves nothing exactly when the text is all whitespace (Python's `isspace` set). |
| `Spreadsheet.StripEnds` | school_inspection_bot.py:198 | Stripped text neither starts nor ends with whitespace. |
| `Spreadsheet.StripPadded` | school_inspection_bot.py:198 | Stripping whitespace padding gives back a core that neither starts nor ends with whitespace. |
| `Spreadsheet.Lower` | school_inspection_bot.py:198 | The model lowercases ASCII letters character by character and keeps every other character. |
| `Spreadsheet.NoteCell` | school_inspection_bot.py:175-178 | The note cell of a section sheet. `NoteCellShown` states that it is the sentinel exactly for a blank note and the note itself otherwise. |
| `Spreadsheet.Counted` | school_inspection_bot.py:198 | The comprehension's filter. `CountedIffCellNotSentinel` and `SentinelNotCounted` state which notes pass it. |
| `Spreadsheet.CountNotes` | school_inspection_bot.py:193-198 | A section count never exceeds the total `len(reports)`. `CountAll` and `CountNone` state when the count reaches the total and when it is 0. |
| `Spreadsheet.SectionRows` | school_inspection_bot.py:163-180 | A section sheet is its header, then one row per report in order: `[visit_date, supervisor, school, note cell]`. |
| `Spreadsheet.CountSection` | school_inspection_bot.py:198 | The loop counts the reports whose note is not blank and whose stripped, lowercased text is not 'لا يوجد' ("none"). |
| `Spreadsheet.SectionSheets` | school_inspection_bot.py:154-180 | There is one sheet per section, in the order maintenance (column 3), AC (4), cleaning (5), each with its detail rows. |
| `Spreadsheet.SummaryRows` | school_inspection_bot.py:191-199 | The summary has the four fixed rows with the total `len(reports)`, then `[section, count]` per section. |
| `Spreadsheet.CreateExcelReport` | school_inspection_bot.py:146-212 | The workbook is the summary sheet first, then the three section sheets, with all cell contents as above. |
| `Spreadsheet.NoteCellShown` | school_inspection_bot.py:177-178 | A note is shown as 'لا يوجد' exactly when it is empty or all whitespace. Otherwise it is shown verbatim. |
| `Spreadsheet.LowerIsSentinel` | school_inspection_bot.py:198 | Lowercasing gives 'لا يوجد' exactly from 'لا يوجد' itself. |
| `Spreadsheet.CountedIffCellNotSentinel` | school_inspection_bot.py:177-198 | A note is counted exactly when its cell, stripped and lowercased, is not 'لا يوجد'. A counted note is shown verbatim. |
| `Spreadsheet.SentinelStrips` | school_inspection_bot.py:198 | 'لا يوجد' strips to itself. |
| `Spreadsheet.SentinelNotCounted` | school_inspection_bot.py:198 | 'لا يوجد' with any whitespace around it is not counted. |
| `Spreadsheet.CountAll` | school_inspection_bot.py:193-198 | A count equals the total exactly when every report's note is counted. |
| `Spreadsheet.CountNone` | school_inspection_bot.py:198 | A count is 0 exactly when no report's note is counted. |
| `Spreadsheet.SingleReportExample` | school_inspection_bot.py:171-199 | One report with notes "", "leak" and "" counts 0, 1 and 0. Its maintenance row shows 'لا يوجد' and its AC row shows "leak". |

## Left out

- Telegram transport is left out as I/O: keyboards, replies, callback answers, the group `send_message` and its failure notice, document sending, `start`, `summary_menu`, `button_callback`, the `summary_*` commands and `generate_summary`. The model keeps only the conversation's states, drafts and saves.
- SQLite connection, cursor and commit mechanics are left out. The table is the abstract `ReportStore`, and the `created_at` column is not modelled because nothing reads it.
- openpyxl presentation (fills, fonts, alignment, column widths), `wb.save` and the timestamped file name are left out as library calls and file I/O. `Spreadsheet.CreateExcelReport` returns the sheets' cell values instead of a file name. The `period` argument only reaches that file name, so the model does not take it. The summary's first row has no period value in the source either.
- `datetime.now()`, the environment and config loading, the supervisor and admin id lists, logging and `main` are left out. The date and "is a supervisor" are parameters.
- The ConversationHandler keys conversations per (chat, user), but `context.user_data` is per user. A user's conversations in different chats therefore share one draft, and a `/cancel` or `clear()` in one chat empties the draft of the other. A `Session` gives its conversation a draft of its own, so it models a user who converses in one chat at a time. The interleaving of several users' updates is not modelled either.
- Conversation.Run: it treats every save as successful. The case of a full table is covered by `Session.Handle` alone.
- Conversation.GetCleaningNotes: the review text reads six draft keys and would raise KeyError if one were missing. The model always moves to the review, which agrees with the source on every draft reachable through new messages, because `TransitionConsistent` and `ReviewHasAllFields` show those keys are present there.
- Conversation.Transition: the model's updates are new messages and button presses only. The handlers also receive edited messages. An edited text makes each text handler raise on `update.message` before it changes anything, as the model's `Other` event does. An edited `/cancel` is not modelled: `cancel` clears `context.user_data` and then raises on `update.message.reply_text`, so the state stays where it was (for example, the cleaning-notes or review step) while the draft is empty. From there the review text and `save_report` raise KeyError until a fresh `/cancel`. `Consistent` therefore holds only along new messages.
- Spreadsheet.CreateExcelReport: it always returns the sheets. openpyxl refuses a cell text containing a control character U+0000-U+0008, U+000B, U+000C or U+000E-U+001F (IllegalCharacterError), so in the source a name or a non-blank note with such a character produces no workbook. openpyxl also stores a text that starts with "=" as a formula, where the model keeps it as text.
- IsoDate.Parse: `strptime`'s `\d` also matches non-ASCII Unicode digits. The model accepts ASCII digits only.
- Spreadsheet.Lower: it lowercases ASCII letters only, where Python's `lower()` also changes other cased letters and can change the length (`'İ'.lower()` has two characters). No such letter lowers to a character of 'لا يوجد' (Arabic letters and a space), which is the only text the model compares the result with.
- The review step routes every button press to `confirm_report`. Any callback data other than `cancel_report` therefore confirms, and the model keeps this.
