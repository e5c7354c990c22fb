# schedule.rb, modelled in Dafny

`schedule.rb` turns conference calendar feeds into an event schedule. For
each track it parses the feed's events, sorts them by start time, and
renders them grouped by date. It renders either HTML (Bootstrap rows of
"schedule-box" panels under date title rows) or plain text (a date heading,
then one line per event).

This project models the rendering core of the script as pure functions and
proves what each one promises:

- **Word wrapping** (`word_wrap`). The summary is split on line feeds. Each
  line longer than 20 characters is rewritten by the regex
  `/(.{1,20})(\s+|$)/`. The rewrite follows the backtracking semantics of
  Ruby's regex engine: the longest chunk is tried first, the greedy
  whitespace run after a chunk is dropped, and a position where no match
  starts is copied through. Each rewritten line is right-stripped, and the
  lines are joined with `<br/>`. The rewrite produces *pieces*, either a
  copied character or an inserted marker, so the markers it inserts can be
  told apart from `<br/>` text already in the summary.
- **Padding** (`pad_summary`). Markers are counted the way `String#scan`
  counts them (leftmost, non-overlapping). `&nbsp;<br/>` pairs are then
  appended until there are five.
- **Times**. `display_time` is `strftime('%l:%M %p').strip`, and the text
  lines use `strftime('%R')`. Each label comes with a reader, and a proof
  that the label reads back to the hour and minute it was made from.
- **Layout**. `add_schedule` and `print_schedule` share one control flow:
  1. Emit a title for the first event's date.
  2. Emit every event of the run with that date.
  3. Emit a separator, then go round again.

  `StopIteration` ends the loop from inside the run, so the separator
  appears only between dates. Module `Layout` models this loop once, with
  the per-event formatting as a parameter.
- **The HTML event box** (`add_event`): two time badges, the wrapped and
  padded title, and the presenter slot.
- **The text event line** `HH:MM-HH:MM: summary - presenter, location`.
- **The sort step** of `parse_ical_feed`: `sort_by!` on the start time.

Modules, one per concern:

| module | file | concern |
|---|---|---|
| `Strings` | strings.dfy | `split("\n")`, join, `strip`/`rstrip`, whitespace erasure |
| `Events` | events.dfy | the normalised event record, dates, timestamps, start-time order |
| `TimeFormat` | timefmt.dfy | `display_time` and `%R`, each with a reader |
| `WordWrap` | wordwrap.dfy | `word_wrap` |
| `Padding` | padding.dfy | `pad_summary` and marker counting |
| `Grouping` | grouping.dfy | cutting the events into runs of one date |
| `Layout` | layout.dfy | the emission loop shared by both renderers |
| `Sorting` | sorting.dfy | the start-time sort |
| `HtmlSchedule` | html.dfy | `add_event`, `add_schedule`, one track's HTML rows |
| `TextSchedule` | text.dfy | the `print_schedule` line format |

Three behaviours of the code deserve a note, because the code is easy to
misread:

- **Presenter slot.** The HTML slot (`schedule.rb:54`) tests only for
  `nil`, so a blank presenter is written as it is. The text line
  (`schedule.rb:122`) trims the presenter first and leaves a blank one out.
  The two renderers therefore disagree on a blank presenter.
- **Sort stability.** `sort_by!` (`schedule.rb:156`) is not a stable sort
  in Ruby, so events with equal start times may come out in any order.
  The model promises only a permutation in ascending start order, and
  proves that all such permutations list the same start times.
- **No trailing separator.** The exhausted iterator raises `StopIteration`
  inside the inner loop. That skips `add_title_row(xml, '')`
  (`schedule.rb:73`) and `puts` (`schedule.rb:127`) after the last date, so
  the separator appears only between dates.

## Model

| member | source | states |
|---|---|---|
| Padding.PadSummary | schedule.rb:34-39 | The summary is kept as a prefix, and only whole `&nbsp;<br/>` pairs are appended. A summary with five or more markers is returned unchanged. The result has exactly max(5, n) markers, where n is the summary's count. |
| Padding.PadSummaryIdempotent | schedule.rb:34-39 | Padding an already padded title changes nothing. |
| Padding.CountBreaksAppend | schedule.rb:35 | Counting markers splits over a concatenation whose second part cannot complete a marker begun in the first. |
| Padding.EndsMarkerCounts | schedule.rb:35 | The scan counts a `<br/>` that ends the text, so text ending in a marker has at least one. |
| WordWrap.ChunkLen | schedule.rb:94 | `.{1,20}` settles on the longest chunk that is followed by whitespace or the end of the line. No longer chunk within the limit is. |
| WordWrap.SpaceRunEnd | schedule.rb:94 | Greedy `\s+` consumes exactly the whitespace run, and stops at a non-whitespace character or the end of the line. |
| WordWrap.ScanStep | schedule.rb:94 | At each position the rewrite takes exactly one step of the regex: the longest run of at most twenty characters that ends before whitespace or at the end of the line, plus the whitespace after it; a position with no such run copies one character. Every step moves forward. |
| WordWrap.Gsub | schedule.rb:94 | The rewrite of a non-empty line ends with an inserted marker, and every copied character comes from the line. Where the markers go is stated by GsubFollowsRegex. |
| WordWrap.GsubFollowsRegex | schedule.rb:94 | The rewrite is what the regex and its replacement do. The line is scanned into steps. A match takes the longest chunk of 1 to 20 characters that is followed by whitespace or the end of the line, drops the whole whitespace run after it, and writes the chunk and a marker. A position where no match starts is copied. So every marker ends a chunk at whitespace or at the end of the line. |
| WordWrap.TilingUnique | schedule.rb:94 | The scan is determined by the line: two scans of the same line from the same position are the same. |
| WordWrap.GsubKeepsNonSpace | schedule.rb:94 | With inserted markers and whitespace erased, the rewrite equals the line with whitespace erased: no visible character is lost, added or reordered. |
| WordWrap.LinePiecesRender | schedule.rb:94 | The `.rstrip` after the rewrite never removes anything, because the rewrite always ends with `<br/>`. A line without line feeds gets none. |
| WordWrap.WrapLine | schedule.rb:94 | A line of at most 20 characters is left alone. A longer line comes back ending in `<br/>`. No line feed is introduced. |
| WordWrap.WrapText | schedule.rb:92-96 | The wrapped summary contains no line feed. A single line of at most 20 characters comes back unchanged. A single line longer than 20 characters always comes back ending in `<br/>`. |
| WordWrap.WrapTextKeepsNonSpace | schedule.rb:92-96 | The wrapped summary is the rendering of a piece sequence. Erasing that sequence's inserted markers and all whitespace leaves exactly the summary's non-whitespace characters, in order. |
| Strings.SplitLines | schedule.rb:93 | `split("\n")`: no field holds a line feed, and no empty field is left at the end. |
| Strings.SplitLinesRejoin | schedule.rb:93 | Rejoining the fields with line feeds gives a prefix of the text. Everything after that prefix is line feeds. |
| Strings.Rstrip | schedule.rb:94 | `rstrip` keeps a prefix that does not end in whitespace or NUL. What it cuts is all whitespace or NUL. |
| Strings.Strip | schedule.rb:19 | `strip` keeps a middle slice that neither starts nor ends with whitespace or NUL. What it cuts on both sides is all whitespace or NUL. It strips to nothing exactly when it is all whitespace or NUL. |
| TimeFormat.Pad2 | schedule.rb:19 | `%M` (and the fields of `%R`): two decimal digits that read back to the number. |
| TimeFormat.HourNumeral | schedule.rb:19 | `%l` after the strip: no blank or zero padding, and it reads back to the 12-hour hour. |
| TimeFormat.DisplayTime | schedule.rb:18-20 | The label has the form "h:mm AM". The hour is the 12-hour one without padding, the minute is zero padded, and the suffix is AM exactly before noon. Reading the label back gives the timestamp's hour and minute. |
| TimeFormat.Clock24 | schedule.rb:121 | `%R` is five characters "HH:MM" and reads back to the hour and minute. |
| Grouping.RunLength | schedule.rb:68-71 | The inner loop takes every leading event of the current date and stops at the first event of a different date. |
| Grouping.Groups | schedule.rb:64-74 | The pass cuts the events into maximal runs of one date. The runs concatenate back to the events, each is non-empty and of one date, and neighbouring runs differ in date. |
| Grouping.DateRunsUnique | schedule.rb:64-74 | Any cut into maximal date runs is the one the pass makes. |
| Grouping.GroupDatesAscend | schedule.rb:155-156 | On events sorted by start, the run dates strictly ascend, so no date gets two runs. |
| Layout.Schedule | schedule.rb:61-77 | The shared loop: each maximal run of one date, in order, gets a title with its date followed by exactly its own events, formatted, and a separator comes between runs only. Nothing else is emitted. |
| Layout.ScheduleShape | schedule.rb:61-77 | Read back, the output has one title per date run carrying the run's date, one fewer separator, and every formatted event in input order. It is empty exactly for no events, starts with a title and ends with entries. |
| Layout.ScheduleAlternates | schedule.rb:114-131 | The output alternates title, non-empty entries, and a separator before every further title. There is no separator after the last date. |
| Layout.SortedTitlesAscend | schedule.rb:65-66 | On sorted events the title dates strictly ascend. There is one fewer separator than titles. |
| Sorting.SortByFrom | schedule.rb:155-156 | The result is a permutation of the events in ascending start order. |
| Sorting.SortedPermutationsAgree | schedule.rb:156 | Any two sorted permutations of the same events list the same start times in the same order. |
| HtmlSchedule.TimeElement | schedule.rb:30-32 | The badge carries its timestamp. Its label is display_time's unpadded "h:mm AM" form of that timestamp and reads back to its hour and minute. |
| HtmlSchedule.BoxTitle | schedule.rb:50-52 | The h3 is the wrapped summary followed only by padding pairs. It has max(5, n) markers and no line feed. For a one-line summary longer than 20 characters, the closing `<br/>` of the wrap already counts towards the five, so at most four pairs are appended. |
| HtmlSchedule.EventBox | schedule.rb:41-59 | Both badges show the event's start and finish as display_time does. The title is the event's summary wrapped and then padded, with at least five markers and no line feed. The presenter slot is `&nbsp;` exactly when there is no presenter, and otherwise the presenter text untrimmed. |
| HtmlSchedule.AddSchedule | schedule.rb:61-77 | Each maximal date run gets its title row and then exactly its own event boxes in order, with a blank title row between runs only. |
| HtmlSchedule.TrackRows | schedule.rb:86 | The rows `add_schedule` writes for a track's events, which `parse_ical_feed` has sorted (schedule.rb:156). They are the layout of some ordering of the parsed events by start time. The date titles strictly ascend, there is one fewer blank title than date titles, and a track with events gets at least one title. |
| TextSchedule.PresenterPart | schedule.rb:122 | The presenter part is empty exactly when the presenter is missing or all whitespace. Otherwise it is " - " followed by the trimmed presenter. |
| TextSchedule.FormatLine | schedule.rb:121-123 | Both clock fields read back to the start and finish times. The summary is copied unwrapped, the presenter part follows, and the line ends with ", " and the location. |
| TextSchedule.PrintSchedule | schedule.rb:114-131 | Each maximal date run gets its heading and then exactly its own event lines in order, with a blank line between runs only. |
| TextSchedule.BlankPresenterDiffers | schedule.rb:54 | For a presenter that is non-empty but all whitespace, the HTML slot holds it untrimmed and not `&nbsp;`, while the text line (schedule.rb:122) leaves the presenter part out. |

## Left out

- HTTP fetch and iCal parsing (`schedule.rb:133-153`): these are foreign library calls. The model starts from the event records `parse_ical_feed` builds.
- `new_offset('+01:00')` (`schedule.rb:146-147`): timestamps are taken as already moved to +01:00. Ordering them by their wall-clock fields is then ordering by instant.
- Sub-second precision: a `Timestamp` stops at seconds, so events within the same second compare equal.
- `full_date` (`schedule.rb:26-28`) needs weekday and month names from the calendar. Titles and headings carry the `Date` they name instead.
- `std_time` / `xmlschema` (`schedule.rb:22-24`): a badge carries its timestamp instead of the ISO-8601 text.
- Builder markup and the output streams (`schedule.rb:10-16`, `schedule.rb:79-90`, `schedule.rb:105-112`): the rows, boxes and lines are modelled as values. The element nesting, the indentation and the writes to STDOUT are not. Whether the row `div` is closed when `StopIteration` escapes its block depends on Builder, which is not part of this model.
- Configuration and track plumbing (`schedule.rb:98-103`, `schedule.rb:161-167`): these only iterate over the feed table.
- Strings are sequences of Unicode characters. The 20-character test and `.{1,20}` (`schedule.rb:94`) count characters, which matches Ruby only when the parsed summary carries a character encoding such as UTF-8. With a binary body Ruby counts bytes. The encoding is decided by the HTTP and iCal libraries, which are not part of this model.
- HtmlSchedule.TrackRows: the track's own title row (`add_title_row(html, track)`, `schedule.rb:85`) is not among the tokens. The model covers only the rows `add_schedule` writes for the track's events.
- WordWrap.Gsub: `.` is modelled as matching any character. Ruby's `.` does not match a line feed, but the lines the rewrite is applied to never hold one after `split("\n")`.
- A `nil` summary: in HTML it makes `word_wrap` raise. Summaries are modelled as strings.
