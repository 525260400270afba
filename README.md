# Schedule-photo extraction, modelled in Dafny

This project models the extraction core of a small service. The service receives a
messaging webhook carrying a photographed work schedule and the announcement text
`Planning <day><category> DD-MM-YYYY`. From the document-analysis result of the photo it
rebuilds the table and derives one shift per scheduled worker. It then selects the
configured worker's shift for upload.

Modules (one `.dfy` file each):

- `Wrappers` (`wrappers.dfy`): `Option`.
- `Text` (`text.dfy`): the standard-library string operations the code relies on. These are
  ASCII digits, zero-padded numbers, Rust's `str::trim` (Unicode White_Space) and
  `join(" ")`, plus `Split`, the inverse used to state the join round trip.
- `Calendar` (`calendar.dfy`): the `NaiveDate`/`NaiveTime` behaviour used. This covers
  proleptic Gregorian month lengths and leap years, dates as a subset type of existing
  dates, the `%H:%M` time format and the `YYYY-MM-DD` display of a date.
- `Models` (`models.dfy`): `src/models.rs`, meaning the message, `Planning`, `Shift`,
  `Shift::default` and `Shift::uid`.
- `Metadata` (`metadata.dfy`): the anchored announcement pattern as a character-level
  recogniser, `parse_metadata`, and the gate of `parse_schedule`.
- `Blocks` (`blocks.dfy`): `parse_blocks` and `extract_text_from_cell`. Both are imperative
  methods. `ParseBlocks` fills a two-dimensional array in place and `ExtractTextFromCell`
  accumulates words in nested loops. Each is proved equal to a specification function, and
  the lemmas state the grid's properties in terms of those functions.
- `Shifts` (`shifts.dfy`): `parse_shifts` and first-match worker selection.
- `Schedule` (`schedule.dfy`): the control flow of `parse_schedule`/`process_schedule`. The
  outcome of fetching and analysing the image is a parameter. The configured worker id is
  a parameter too.

Behaviour of the code worth noting:

- Besides the pattern, the gate demands an attachment whose mimetype is exactly `image/jpeg`.
- The gate checks only the shape of the date. A message with an impossible date such as
  `31-02-2025` passes the gate and is dropped afterwards, when `parse_metadata` yields
  nothing (`Metadata.ExampleImpossibleDate`).
- The grid can depend on block order when two blocks share an id (the lookup keeps the
  later one, `Blocks.LookupLastWins`) or two different cells share a position (the later
  cell's text is written last, `Blocks.BlocksGridLastWins`). It need not: a duplicated id
  that no cell refers to, or colliding cells with equal text, leave the grid unchanged.
  Order independence is proved under the two uniqueness conditions.
- The calendar-feed handler is empty in the code, so no calendar synthesis is modelled.
- `parse_schedule` reads `data.payload.body`, but the message record has top-level `body`
  and `media`. The model uses the record's fields.

## Model

| member | source | states |
|---|---|---|
| `Text.Trim` | src/parse.rs:158 | definition of `str::trim` over the Unicode White_Space set; see TrimEmptyIffBlank |
| `Text.TrimEmptyIffBlank` | src/parse.rs:158 | a note trims to "" exactly when every character is Unicode whitespace |
| `Text.Join` | src/parse.rs:246 | definition of `join(" ")`; see JoinSplit, SplitJoin |
| `Text.JoinSplit` | src/parse.rs:245-246 | splitting at spaces and joining with single spaces restores any string |
| `Text.SplitJoin` | src/parse.rs:245-246 | joining at least one space-free word with single spaces, then splitting, gives the words back |
| `Calendar.DaysInMonth` | src/parse.rs:143 | month lengths are 28..31; February has 29 days exactly in leap years and 28 otherwise; exactly April, June, September and November have 30, so every other month has 31 |
| `Calendar.ParseTime` | src/parse.rs:151-152 | definition of the `%H:%M` time parse; see ParseFormatTime, ParseTimeExact |
| `Calendar.ParseFormatTime` | src/parse.rs:151-152 | every time of day, written `HH:MM`, parses back to itself |
| `Calendar.ParseTimeExact` | src/parse.rs:151-152 | a string parses to time `t` only if it is exactly `t` written `HH:MM` (hour 00-23, minute 00-59) |
| `Calendar.FormatDate` | src/models.rs:61 | the display of a four-digit-year date is ten characters with '-' at offsets 4 and 7; see FormatDateInjective, Uid |
| `Calendar.FormatDateInjective` | src/models.rs:60-62 | for years 0-9999 the displayed `YYYY-MM-DD` determines the date |
| `Models.PlanningCode` | src/models.rs:38-45 | each category prints as a two-letter name starting with 'P' |
| `Models.ParsePlanning` | src/parse.rs:137-141 | a category name is read back only from "PO" or "PA"; any other text names no category |
| `Models.ParsePlanningCode` | src/parse.rs:137-141 | reading the printed name of a category gives that category (exactly two variants) |
| `Models.DefaultShift` | src/models.rs:48-59 | definition of `Shift::default`; see DefaultShiftShape, DefaultShiftUid |
| `Models.DefaultShiftShape` | src/models.rs:47-59 | the placeholder has the given date, category PA, empty worker id and name, 15:00-22:00 (seven hours), and a present-but-empty note (`Some("")`) |
| `Models.Uid` | src/models.rs:60-62 | for years 0-9999 the uid is the 10-character date, '-', the category, '-', then the worker id (a fixed 14-character prefix) |
| `Models.UidIdentifiesKey` | src/models.rs:60-62 | two shifts have the same uid exactly when date, category and worker id agree |
| `Models.DefaultShiftUid` | src/models.rs:47-62 | the placeholder's uid is its date followed by "-PA-" |
| `Metadata.ParseDayCode` | src/parse.rs:25 | exactly MA, DI, WO, DO, VR, ZA, ZO are day codes |
| `Metadata.DayFieldRange` | src/parse.rs:25 | the pattern's day alternative (0 then 1-9, 1 or 2 then a digit, 3 then 0 or 1) admits exactly two-digit 01..31 |
| `Metadata.MonthFieldRange` | src/parse.rs:25 | the pattern's month alternative (0 then 1-9, 1 then 0-2) admits exactly two-digit 01..12 |
| `Metadata.MatchBody` | src/parse.rs:23-28 | a body matches only if it is the whole pattern (24 characters) spelled out from in-range groups |
| `Metadata.MatchFormatBody` | src/parse.rs:23-28 | every in-range group tuple written in the pattern is matched with exactly those groups |
| `Metadata.IsMatch` | src/parse.rs:32 | definition of `RE_BODY.is_match`; see MatchBody, MatchFormatBody |
| `Metadata.ParseMetadata` | src/parse.rs:134-146 | definition of `parse_metadata`; see ParseMetadataSound, ParseMetadataComplete, ParseMetadataRejectsImpossibleDate |
| `Metadata.ParseMetadataSound` | src/parse.rs:134-146 | metadata is found only in a matching body that spells out its date and category with some day code, and its year has four digits |
| `Metadata.ParseMetadataComplete` | src/parse.rs:134-146 | for every existing date with a four-digit year, every category and every day code, the announcement yields that date and category, so the day code is never checked against the weekday |
| `Metadata.ParseMetadataRejectsImpossibleDate` | src/parse.rs:143-145 | a matching body whose day exceeds its month's length yields nothing |
| `Metadata.ExampleAccepted` | src/parse.rs:134-146 | "Planning MAPA 05-01-2025" yields (2025-01-05, PA) |
| `Metadata.ExampleBadDayCode` | src/parse.rs:23-28 | "Planning XXPA 05-01-2025" does not match and yields nothing |
| `Metadata.ParseScheduleGate` | src/parse.rs:32-37 | definition of the gate in `parse_schedule`; see IgnoredIffGateFails, UploadIsConfiguredWorker, ExampleImpossibleDate |
| `Metadata.ExampleImpossibleDate` | src/parse.rs:32-37 | a JPEG message announcing 31-02-2025 passes the gate but yields no metadata |
| `Blocks.Lookup` | src/parse.rs:173-176 | definition of the id lookup; see LookupMembers, LookupLastWins |
| `Blocks.LookupMembers` | src/parse.rs:173-176 | the lookup holds exactly the ids that occur, each mapped to a block carrying that id; id-less blocks are skipped |
| `Blocks.LookupLastWins` | src/parse.rs:173-176 | for a repeated id, the lookup holds the last block carrying it |
| `Blocks.WordsSpec` | src/parse.rs:226-243 | a cell has no words exactly when none of its child ids names a Word with text; each word is such a block's text; there are never more words than ids |
| `Blocks.CellText` | src/parse.rs:223-247 | definition of a cell's text; see WordsSpec, CellTextEmpty, CellTextSplits, ExtractTextFromCell |
| `Blocks.CellTextEmpty` | src/parse.rs:223-247 | a cell with no qualifying child has text "" |
| `Blocks.CellTextSplits` | src/parse.rs:245-246 | when no word contains a space, the cell text splits back into its words in relationship order |
| `Blocks.ExtractTextFromCell` | src/parse.rs:223-247 | the nested loops compute the Child-relationship words in order, joined by single spaces |
| `Blocks.Cells` | src/parse.rs:180-183 | the cell list holds exactly the blocks of type Cell |
| `Blocks.CellsAppend` | src/parse.rs:180-183 | selecting the cells distributes over concatenation, so they keep block order and multiplicity |
| `Blocks.CellsAround` | src/parse.rs:180-183 | a Cell block sits in the cell list after the cells of the blocks before it and before those of the blocks after it |
| `Blocks.MaxRow` | src/parse.rs:191-195 | the row count bounds every present row index and is 0 or attained by some cell |
| `Blocks.MaxCol` | src/parse.rs:196-200 | the column count bounds every present column index and is 0 or attained by some cell |
| `Blocks.MaxSameMembers` | src/parse.rs:191-200 | the grid size depends only on which cells occur |
| `Blocks.BlocksGrid` | src/parse.rs:185-203 | no cells give the empty grid; otherwise the grid is max-row rows of max-column columns |
| `Blocks.BlocksGridNoCells` | src/parse.rs:185-187 | a block list without Cell blocks gives the empty grid |
| `Blocks.RowPosition` | src/parse.rs:208 | definition of the 0-based row a cell is written to; see PlaceAt, BlocksGridLastWins |
| `Blocks.ColumnPosition` | src/parse.rs:209 | definition of the 0-based column a cell is written to; see PlaceAt, BlocksGridLastWins |
| `Blocks.Place` | src/parse.rs:206-218 | one bounds-checked write keeps the grid's shape; see PlaceAt |
| `Blocks.Fill` | src/parse.rs:203-218 | the filled grid keeps the max-row by max-column shape; see FillAtEmpty, FillAtLast, FillAtUnique, FillSameMembers |
| `Blocks.PlaceAt` | src/parse.rs:206-218 | placing one cell changes only its own position, and only when that lies inside the grid |
| `Blocks.FillAtEmpty` | src/parse.rs:203-218 | a position no cell is placed at holds "" |
| `Blocks.FillAtLast` | src/parse.rs:206-218 | a position holds the text of the last cell placed there, so later cells overwrite earlier ones |
| `Blocks.BlocksGridLastWins` | src/parse.rs:170-221 | in the returned grid, an in-bounds position holds the text of the last Cell block at that position in block order |
| `Blocks.FillAtUnique` | src/parse.rs:206-218 | a position whose only cell is `x` holds `x`'s text |
| `Blocks.FillSameMembers` | src/parse.rs:206-218 | with unique positions the filled grid does not depend on cell order |
| `Blocks.BlocksGridOrderIndependent` | src/parse.rs:170-221 | permuting the blocks leaves the grid unchanged when ids and cell positions are unique |
| `Blocks.ExampleTwoCells` | src/parse.rs:170-247 | cells (1,1) "A" and (1,2) "B" give `[["A", "B"]]` |
| `Blocks.WriteCell` | src/parse.rs:207-218 | one loop step writes the cell's text at its 0-based position when that lies inside the buffer and leaves every other position as it was |
| `Blocks.ParseBlocks` | src/parse.rs:170-221 | the in-place fill of a max-row by max-column buffer returns exactly the specified grid |
| `Shifts.ParseShifts` | src/parse.rs:148-168 | never more shifts than rows |
| `Shifts.RowShift` | src/parse.rs:150-165 | definition of the per-row closure of `parse_shifts`; see RowShiftSpec |
| `Shifts.Note` | src/parse.rs:158 | definition of the blank-note filter; see RowShiftSpec, ParseShiftsNotes |
| `Shifts.RowShiftSpec` | src/parse.rs:150-165 | a row yields a shift exactly when column 3 parses, and that shift is derived from the row field by field |
| `Shifts.ParseShiftsAppend` | src/parse.rs:149-167 | derivation distributes over concatenated rows, so shifts come out in row order |
| `Shifts.ParseShiftsSound` | src/parse.rs:148-168 | every shift has column 0 as id, column 1 as name, the message's date and category, the parsed start, the parsed end or 21:00, and the note unless it is all whitespace |
| `Shifts.ParseShiftsComplete` | src/parse.rs:148-168 | every row whose start parses contributes its shift |
| `Shifts.ParseShiftsEmpty` | src/parse.rs:148-168 | nothing is derived exactly when no row's start parses |
| `Shifts.ParseShiftsNotes` | src/parse.rs:158 | no derived shift has a present-but-blank note |
| `Shifts.ExampleFallbackEnd` | src/parse.rs:151-152 | a row with start 15:00 and an empty end gets 21:00 and no note; a row with an unparsable start yields nothing |
| `Shifts.FindShift` | src/parse.rs:82 | the result is the first shift with the worker id, or nothing exactly when no shift has it |
| `Schedule.ProcessSchedule` | src/parse.rs:46-96 | background processing always ends in an abort or an upload; it aborts for missing metadata exactly when `parse_metadata` yields nothing; an uploaded shift has the configured worker id and the announced date and category |
| `Schedule.HandleMessage` | src/parse.rs:30-44 | definition of `parse_schedule` followed by `process_schedule`; see IgnoredIffGateFails, UploadIsConfiguredWorker, UploadWhenWorkerPresent |
| `Schedule.IgnoredIffGateFails` | src/parse.rs:30-44 | a message is ignored exactly when its body does not match, it has no attachment, or the attachment is not `image/jpeg` |
| `Shifts.FoundShiftBelongs` | src/parse.rs:78-82 | the shift found for the worker carries that worker id, the message's date and category, and is one of the derived shifts |
| `Schedule.UploadIsConfiguredWorker` | src/parse.rs:46-96 | an uploaded shift passed the gate, belongs to the configured worker, carries the announced date and category, and is the first derived shift with that worker id |
| `Schedule.UploadWhenWorkerPresent` | src/parse.rs:78-87 | a gated message with metadata whose table derives a shift for the worker leads to an upload |

## Left out

- Fetching the image (`fetch_image`), the document-analysis call (`parse_image`) and the
  upload (`upload_shift`) are I/O. Their combined outcome is the parameter `analysis` of
  `Schedule.HandleMessage`, and the upload is the `Upload` outcome. The API key header and
  the replacement of "localhost" in the media URL are not modelled.
- `tokio::spawn`, logging, and the environment-backed statics are left out. The configured
  worker id is a parameter.
- src/database.rs (the SQL upsert and select), src/date.rs (time-zone conversion and UTC
  formatting), src/server.rs (routing and the shared-secret header check) and src/main.rs
  are not part of this model.
- Calendar-feed and placeholder synthesis are not modelled, because the calendar handler
  in src/server.rs:8-10 is empty.
- Metadata.MatchBody: accepts only ASCII digits for the year. Rust's `\d` also admits other
  Unicode decimal digits, which would pass the gate and then fail date parsing.
- Calendar.ParseTime: accepts exactly `HH:MM` with two digits each. chrono's `%H:%M` is
  somewhat more lenient about digit widths, and depending on its version it may also skip
  whitespace before each number; neither leniency is modelled.
- Block row and column indices are `nat`. The source's `i32` indices could be negative,
  and a negative index cast to `usize` wraps around; this is not modelled.
- Block kinds other than Cell and Word, and relationship kinds other than Child, are each
  collapsed into one variant, since the code tests only for those.
- Times carry no seconds, because the code only builds times with zero seconds. chrono's
  finite year range is not modelled.
