# Weekly attendance reporting: a Dafny model of its decision logic

The system lets an operator sign in by name, lists the institution symbols
that belong to that operator, records a weekly visit for each checked
symbol in an edit-log spreadsheet, and renders a right-to-left PDF report.
Its server is an Express application over Google Sheets and pdfkit. Its
client is a React form.

This project models the logic in between, with the spreadsheet contents
given as input and the cell updates and draw commands produced as output:

- `Lookups`: operator lookup behind `POST /login`. The trimmed input is
  compared with the untrimmed cells. Also the row filter of `GET /symbols`,
  which compares the trimmed first cell with the trimmed name.
- `Reconciler`: the `POST /save` handler.
  - The pure planning function `Plan` decides the cell writes.
  - The class `EditLog` holds the sheet as a mutable grid.
  - Its method `Save` runs the handler's nested loops one cell update at a
    time. A failed read or a failed cell update is decided by a parameter.
- `Report`: the `POST /generate-pdf` handler.
  - The `reverseTextForRTL` workaround.
  - The table layout as `(text, x, y, width)` draw commands, built by a
    loop that advances `y`.
- `Attendance`: the client's form state.
  - The nested update `handleInputChange`.
  - The checked-only list that `handleSubmit` sends.
  - The report rows that `handleDownloadPDF` builds from the symbol catalog.
- `Wire`: the requests between the two sides. This is where the payload
  mismatch under "Findings" is stated.
- `JsString` and `Payload` model the JavaScript built-ins the handlers rely on:
  - `trim`, with the ECMAScript white-space set;
  - `split` on one character, `join` and `reverse`;
  - `Object.entries` over a parsed JSON body.
- `Report` also holds the `||` fallback to the "not selected" label
  (`OrNotSelected`) and the template interpolation of `undefined`
  (`Interpolate`). `Attendance` holds the client's truthiness test.
- `Sheet` holds the grid of cell strings and the endpoint responses.
  `Labels` holds the "not selected" label shared by both sides.
  `Wrappers` holds `Option`.

The source does not fix the enumeration order of `Object.entries` over the
client's form. `formData` is a map, and the lists derived from it take a key
order `order` as a parameter; `IsKeyOrder` requires it to list every key
exactly once. Their contracts are stated per id (membership, one pair per
checked id, counts), so they hold for every such order.

## Model

| member | source | states |
|---|---|---|
| JsString.Trim | server/api/index.js:33 | The result has no white space at either end and is no longer than the input. |
| JsString.TrimKeepsCore | server/api/index.js:33 | Any white space around a trimmed text is removed, and only that. |
| JsString.TrimIdempotent | server/api/index.js:68 | Trimming twice gives the same result as trimming once. |
| JsString.SplitJoin | server/api/index.js:152 | Joining pieces that contain no separator and splitting again gives back the pieces. |
| JsString.JoinSplit | server/api/index.js:152 | Splitting a text and joining the pieces with the same separator gives back the text. |
| JsString.StartsWith | server/api/index.js:95 | `startsWith`: the text begins with the prefix. A plain definition, used by `Reconciler.SymbolIdOfKey` and `Reconciler.PlanEntry`. |
| JsString.Split | server/api/index.js:96 | `split` on one character: never empty. `JsString.SplitPiecesFree`, `JsString.JoinSplit` and `JsString.SplitJoin` characterise the pieces. |
| JsString.Join | server/api/index.js:152 | `join` with one character. A plain definition, characterised by `JsString.JoinSplit` and `JsString.SplitJoin`. |
| JsString.Reverse | server/api/index.js:152 | `reverse`: same length. `JsString.ReverseReverse` shows that reversing twice gives back the sequence, and `Report.RtlTokens` uses it to state the token order. |
| JsString.SplitPiecesFree | server/api/index.js:96 | No piece of a split contains the separator. |
| Payload.IndexKey | server/api/index.js:94 | An array index's property key is a non-empty string of decimal digits. |
| Payload.ObjectEntries | server/api/index.js:94 | A missing or null body throws. An object yields its fields in order. An array or string yields only digit keys. |
| Sheet.RowsOf | server/api/index.js:32 | The sheet's `values`, or no rows when the range comes back without any. A plain definition; `Lookups.OperatorExistsIff` states that an absent range has no cells, and `Lookups.ListSymbols` answers 404 for it. |
| Lookups.Flat | server/api/index.js:33 | `rows.flat()`. A plain definition, characterised by `Lookups.OperatorExistsIff`. |
| Lookups.OperatorExists | server/api/index.js:24-33 | `isOperatorNameExists`. A plain definition, characterised by `Lookups.OperatorExistsIff`. |
| Lookups.OperatorExistsIff | server/api/index.js:32-33 | The operator exists iff some fetched cell, untrimmed, equals the trimmed input. An absent range has no cells. |
| Lookups.PaddedCellNeverMatches | server/api/index.js:33 | A sheet whose cells all carry surrounding white space matches no name. |
| Lookups.SurroundingWhitespaceIgnored | server/api/index.js:33 | White space around the typed name does not change the answer. |
| Lookups.Login | server/api/index.js:24-53 | 500 exactly when the read fails or the name is missing. 200 exactly when some cell equals the trimmed name. Otherwise 404. |
| Lookups.SymbolRows | server/api/index.js:68 | The `/symbols` filter: never longer than the sheet. `Lookups.SymbolRowsMembers` and `Lookups.SymbolRowsAppend` characterise it. |
| Lookups.BelongsTo | server/api/index.js:68 | The filter's test: the row has a first cell and it equals the name after both are trimmed. A plain definition, which `Lookups.SymbolRowsMembers` makes the exact membership condition of the listed rows. |
| Lookups.SymbolRowsMembers | server/api/index.js:68 | A row is listed iff it is in the sheet, has a first cell, and that cell trimmed equals the trimmed name. |
| Lookups.SymbolRowsAppend | server/api/index.js:68 | The filter keeps sheet order: filtering a concatenation concatenates the filtered parts. |
| Lookups.ListSymbols | server/api/index.js:57-79 | 500 on a failed read, or on a missing name when rows exist. 404 when no row matches. Otherwise 200 whose body is exactly the filter `SymbolRows` of the sheet: every matching row, only matching rows, in sheet order. |
| Reconciler.WeekColumnIndices | server/api/index.js:101 | Exactly five week columns, at 0-based indices 5, 7, 9, 11 and 13 (F, H, J, L, N). |
| Reconciler.SymbolId | server/api/index.js:96 | The id is underscore-free and is exactly the text after `weekly_` up to the next underscore or the end. |
| Reconciler.SymbolIdOfKey | server/api/index.js:95-96 | The key `weekly_<id>` of an underscore-free id selects that id. |
| Reconciler.SymbolIdCutsAtUnderscore | server/api/index.js:96 | A key `weekly_<id>_<rest>` with an underscore-free `id` selects `id`: the rest of the key after the second `_` is dropped. |
| Reconciler.FindRow | server/api/index.js:97-100 | The first data row whose column A is exactly the id, or none when no row has it. |
| Reconciler.Selected | server/api/index.js:95 | `key.startsWith('weekly_') && value === 'on'`. A plain definition; `Reconciler.PlanEntry` states that an entry plans writes only when it holds, and `Reconciler.ArrayPayloadPlansNothing` that array keys never meet it. |
| Reconciler.DataKeys | server/api/index.js:92-97 | Column A of `rows.slice(1)`. A plain definition; `Reconciler.FindRow` and `Reconciler.PlanEntry` use it to put data index k at sheet row k + 2, and `Reconciler.SaveKeepsHeader` shows the header row is never written. |
| Reconciler.StampRow | server/api/index.js:101-113 | The five writes of one row, one per week column in order, each with the name. A plain definition, characterised by the last clause of `Reconciler.PlanEntry`. |
| Reconciler.PlanEntry | server/api/index.js:95-113 | An entry yields writes iff its key starts with `weekly_`, its value is exactly "on" and some data row has the id. The writes are the five week columns of the first such row, at data index + 2, in order, each with the operator's name. |
| Reconciler.EntryTargets | server/api/index.js:95-113 | An entry's writes hold the operator's name and go to week columns of a non-header, non-empty row whose column A is the entry's id. |
| Reconciler.PlanOn | server/api/index.js:94-123 | The outer loop's writes, entry after entry. A plain definition, characterised by `Reconciler.PlanOnSnoc`, `Reconciler.PlanAppend` and `Reconciler.PlanTargets`. |
| Reconciler.Plan | server/api/index.js:91-123 | The writes for the sheet's data rows, with the header dropped. A plain definition, characterised by `Reconciler.PlanTargets`, `Reconciler.SaveKeepsHeader` and `Reconciler.SaveIdempotent`. |
| Reconciler.PlanOnSnoc | server/api/index.js:94 | One more entry appends that entry's writes after the earlier ones. |
| Reconciler.PlanAppend | server/api/index.js:94-123 | Entries are processed in order and independently. The plan for a concatenation is the concatenation of the plans. |
| Reconciler.PlanNothingSelected | server/api/index.js:95 | Without a selected entry nothing is written. |
| Reconciler.PlanTargets | server/api/index.js:94-118 | Every write holds the name and goes to a week column of an existing data row, never the header. That row's column A is the id of a selected entry. |
| Reconciler.SetCell | server/api/index.js:104-113 | One cell update: the cell then holds the value, and the sheet grows only as far as that row. `Reconciler.SetCellFrame` and `Reconciler.SetCellHeld` characterise the rest. |
| Reconciler.ApplyWrites | server/api/index.js:103-118 | The writes applied in order, each one skipped when it fails. The sheet only grows. `Reconciler.ApplyWritesSnoc`, `Reconciler.ApplyUntouched`, `Reconciler.ApplyStamped` and `Reconciler.ApplyAbsorbed` characterise it. |
| Reconciler.SetCellFrame | server/api/index.js:104-113 | Updating one cell leaves every other cell and row as it was. |
| Reconciler.SetCellHeld | server/api/index.js:104-113 | Writing a value a cell already holds leaves the sheet unchanged. |
| Reconciler.ApplyWritesSnoc | server/api/index.js:103-118 | Applying one more write applies it to the previous result unless it fails. |
| Reconciler.ApplyUntouched | server/api/index.js:103-118 | A cell that no write addresses keeps its value. |
| Reconciler.ApplyUntouchedRow | server/api/index.js:103-118 | A row that no write addresses is unchanged. |
| Reconciler.ApplyStamped | server/api/index.js:105-117 | When all writes carry the same value (as every plan's writes carry the operator's name), every write that does not fail holds afterwards, even when others fail. |
| Reconciler.ApplyAbsorbed | server/api/index.js:103-118 | Writes that already hold change nothing. |
| Reconciler.WriteKeepsKeys | server/api/index.js:101-113 | A week-column write leaves every row's column A unchanged. |
| Reconciler.ApplyKeepsKeys | server/api/index.js:97-113 | The writes never change column A, so later lookups find the same rows. |
| Reconciler.SaveIdempotent | server/api/index.js:94-118 | After a first save in which no write failed, saving the same request again plans the same writes and leaves the sheet as the first save left it, whichever of the second save's writes fail. |
| Reconciler.SaveKeepsHeader | server/api/index.js:92-100 | The header row is never written. |
| Reconciler.ArrayPayloadPlansNothing | server/api/index.js:94-95 | An array body has only index keys, so nothing is selected and nothing is written. |
| Reconciler.EditLog.Save | server/api/index.js:82-131 | 500 with no write on a failed read or a missing body. Otherwise 200 after attempting exactly the planned writes, with the sheet holding their effect minus the failed ones. |
| Reconciler.EditLog.SaveEntry | server/api/index.js:95-122 | One request entry: the writes attempted are exactly that entry's planned writes, appended after the earlier ones, and the sheet holds their effect minus the failed ones. |
| Reconciler.EditLog.StampWeekColumns | server/api/index.js:101-118 | Attempts the five week-column writes of one row in order. A failure skips that write only. |
| Report.ReverseTextForRtl | server/api/index.js:152 | `reverseTextForRTL`. A plain definition, characterised by `Report.RtlTokens`, `Report.RtlShape`, `Report.RtlWord`, `Report.RtlTwoWords` and `Report.RtlTwice`. |
| Report.RtlTokens | server/api/index.js:152 | The result's space-separated tokens are those of the space-padded text, reversed. |
| Report.PadTokens | server/api/index.js:152 | Padding adds one empty token at each end. |
| Report.RtlShape | server/api/index.js:152 | The result is two characters longer than the text and starts and ends with a space. |
| Report.RtlWord | server/api/index.js:152 | A word without spaces is only padded: `w` becomes `" w "`. |
| Report.RtlTwoWords | server/api/index.js:152 | Two words swap places, as with the "not selected" label. |
| Report.RtlTwice | server/api/index.js:152 | Applying the transform twice restores the token order, padded twice. |
| Report.HeadingDraws | server/api/index.js:166-170 | The heading row. A plain definition, characterised by `Report.TableLayout`. |
| Report.Interpolate | server/api/index.js:156 | A value turned into text by a template or by `" " + x`, as at lines 156 and 175: a string as is, `undefined` as the text "undefined". A plain definition; `Report.GeneratePdf` and `Wire.ReportItemCells` state its effect on the title and the symbol cell. |
| Report.OrNotSelected | server/api/index.js:175-177 | The fallback to the "not selected" label: the result is never empty; a non-empty given text is returned as is, and otherwise the result is "not selected". |
| Report.ItemTexts | server/api/index.js:175-177 | The three cell texts of one item, each passed through `reverseTextForRTL`. A plain definition; `Report.TableLayout` and `Wire.ReportItemCells` state what it draws. |
| Report.RowDraws | server/api/index.js:174-177 | One item's three cells at one height. A plain definition, characterised by `Report.RowDrawsColumns`. |
| Report.ItemRows | server/api/index.js:172-179 | The item rows, one row height apart. A plain definition, characterised by `Report.ItemRowsAt` and `Report.TableLayout`. |
| Report.RowYAt | server/api/index.js:161-178 | Row n, with the headings as row 0, sits at y = 90 + 20 n. |
| Report.ItemRowsAt | server/api/index.js:172-179 | Item i occupies three draws at y = 110 + 20 i. |
| Report.HeadedRowsAt | server/api/index.js:166-179 | With the headings first, item i occupies draws 3 + 3i to 5 + 3i. |
| Report.TableLayout | server/api/index.js:161-179 | The table is the heading row at y = 90 (day at x = 500, width 65; name at x = 135, width 300; symbol at x = 80, width 55), then one row per item. |
| Report.RowDrawsColumns | server/api/index.js:163-177 | Each row draws the symbol text at x = 80 (width 55), the name text at x = 135 (width 300) and the day text at x = 500 (width 65), side by side and all at the same y. |
| Report.DrawTable | server/api/index.js:166-179 | The loop draws the headings, then every item one row height lower than the previous. |
| Report.GeneratePdf | server/api/index.js:141-179 | Missing or empty data is rejected before any output. Otherwise the title is the transformed greeting, and item i is drawn at y = 110 + 20 i from its transformed texts. |
| Attendance.EntryOf | client/src/components/Attendance.js:27 | `prev[symbolId]` spread as an object, with no fields for a new id. A plain definition; `Attendance.HandleInputChange` states that the id's other fields are kept. |
| Attendance.HandleInputChange | client/src/components/Attendance.js:23-31 | The id's entry gets the field, keeps its other fields, and every other id keeps its entry. |
| Attendance.HandleInputChangeIdempotent | client/src/components/Attendance.js:24-30 | Repeating the same change changes nothing. |
| Attendance.HandleInputChangeLastWins | client/src/components/Attendance.js:24-30 | A later change of the same field overwrites the earlier value. |
| Attendance.HandleInputChangeCommutes | client/src/components/Attendance.js:24-30 | Changes to different fields, of one symbol or of two, commute. |
| Attendance.IsChecked | client/src/components/Attendance.js:36 | The filter's test: a `checked` field with a truthy value. A plain definition; `Attendance.SubmitDataMembers` makes it the exact condition for a pair to be sent, and `Attendance.DayOnlyNotSent` shows a day alone does not meet it. |
| Attendance.SubmitData | client/src/components/Attendance.js:35-37 | The checked-only filter: never longer than the form's key list. `Attendance.SubmitDataMembers`, `Attendance.SubmitDataDistinct` and `Attendance.SubmitDataExact` characterise it. |
| Attendance.SubmitDataMembers | client/src/components/Attendance.js:35-37 | A pair is sent iff its id is enumerated, it carries that id's entry, and the entry is checked. |
| Attendance.SubmitIdsEnumerated | client/src/components/Attendance.js:35-37 | Every id sent is one of the form's enumerated keys. |
| Attendance.SubmitDataDistinct | client/src/components/Attendance.js:35-37 | No id is sent twice. |
| Attendance.SubmitDataExact | client/src/components/Attendance.js:35-37 | The payload is exactly the checked `[id, entry]` pairs, one per checked id. |
| Attendance.DayOnlyNotSent | client/src/components/Attendance.js:35-37 | An entry with only a day set is never sent. |
| Attendance.FindSymbol | client/src/components/Attendance.js:53 | The first catalog row whose column 1 is the id, or none. |
| Attendance.CatalogName | client/src/components/Attendance.js:53 | The name is column 2 of the first catalog row listing the id. It is empty when no row lists the id or that row has no such cell. |
| Attendance.DayOf | client/src/components/Attendance.js:54 | The entry's day when set to a truthy value, otherwise "not selected". The result is always truthy. |
| Attendance.ChooseDayIsNotSelected | client/src/components/Attendance.js:54 | Choosing the empty "choose a day" option (line 107) reports "not selected". |
| Attendance.ReportRows | client/src/components/Attendance.js:49-55 | One row per sent pair, in the same order, keyed by that pair's id. |
| Attendance.ReportRowsExact | client/src/components/Attendance.js:49-55 | One report row per checked entry and no other, each id once. Each row carries the catalog name and the entry's day. |
| Wire.SubmitBody | client/src/components/Attendance.js:35-40 | The submitted `data` is an array with one element per checked pair. |
| Wire.SubmitBodyPlansNothing | server/api/index.js:94-95 | For the payload the client sends, the server plans no write, whatever is checked and whatever the sheet holds. |
| Wire.CheckedSymbolNotStamped | client/src/components/Attendance.js:35-40 | A checked symbol "17" whose row exists is still not stamped. |
| Wire.KeyedSubmitBody | server/api/index.js:94 | Its `Object.entries` are exactly the keyed entries. |
| Wire.KeyedBodyWritesChecked | server/api/index.js:94-113 | For a form whose ids contain no `_`, with the keyed payload every write goes to a week column of a checked symbol's row, with the operator's name. |
| Wire.KeyedBodyStampsChecked | server/api/index.js:94-113 | For a form whose ids contain no `_`, with the keyed payload every checked symbol that has a data row gets all five week columns written. |
| Wire.StampedAt | server/api/index.js:94-113 | For an id without `_`, an entry `weekly_<id>` = "on" anywhere in the body puts that id's row's five stamps in the plan. |
| Wire.UnderscoreIdStampsAnotherRow | server/api/index.js:96-98 | Why the keyed payload needs ids without `_`: `split('_')[1]` reads `weekly_a_b` as the id "a". With "a_b" checked and rows "a" and "a_b" in the sheet, the plan stamps the row of the unchecked "a" and not the row of "a_b". |
| Wire.ReportItemCells | server/api/index.js:175-177 | A name the catalog lacks arrives empty and is drawn as "not selected". The client's day is never empty and is drawn as sent. |

## Left out

- Express routing, CORS, body parsing, environment variables and `app.listen`: framework plumbing. Request fields arrive as parameters. For `/login`, `/symbols` and `/generate-pdf`, an absent `operatorName` or `data` is `None`.
- Reconciler.EditLog.Save: takes `operatorName` as a string. A `/save` body without `operatorName` still answers 200 and passes `[[undefined]]` (null in the JSON request) as each cell's value. The model cannot express that, because what the spreadsheet stores for it is outside the model.
- Lookups.Login, Lookups.ListSymbols: take `operatorName` as an optional string. A name of another JSON type makes `.trim` throw and the answer 500. For `/symbols` that holds only when the sheet has rows: on an empty sheet the filter never calls `.trim` and the answer is 404, as `ListSymbols` gives for a missing name. Examples are a number in the `/login` body, or an array from a repeated `/symbols` query parameter. Such names are not modelled.
- Report.GeneratePdf: takes `data` as an optional list of items. A truthy `data` that is not an array passes the emptiness check. `data.forEach` then throws after the PDF headers are set. That case is not modelled.
- The Google Sheets client, its authentication and the network calls. The sheet contents are an input. A failed read is a boolean. A failed cell update is an index in a set of failed attempts.
- pdfkit: document creation, the font file, response headers, streaming, and where the title lands (it flows with the document's margins). Only the title text and the table's draw commands are modelled.
- Console logging. Also the race between concurrent saves, which take no lock.
- `Report.Interpolate` and `Report.ItemTexts` carry no contract of their own. They only transcribe the template interpolation and the three `reverseTextForRTL` calls. `Wire.ReportItemCells` states their effect on what the client sends.
- Report.DrawTable: receives the items' cell texts already transformed. The source transforms each item inside the loop. Texts depend only on their own item, so the draws are the same.
- `Object.entries` moving integer-like keys ahead of other keys, and duplicate keys in a JSON body. An object body's fields are taken in the order given, and the client form's key order is a parameter.
- JSON numbers are integers, and non-string item fields in the report request are not modelled (`ReportItem` holds optional strings).
- Strings are sequences of characters. The UTF-16 code units JavaScript counts are not modelled.
- The A1 range string `Sheet!F12` built for each update. A write names its row and column.
- Wire.EntryJson: lists only the `checked` and `day` fields, in that order. These are the only fields the inputs set, and the field order of the objects inside the array does not affect the server.
- The client's other files (sign-in screen, routing, the fetch wrappers in `api.js`, and `TableRow.js` markup), and `localStorage`. This includes the default operator name "משתמש" when none is stored, and the storage key the sign-in screen writes. The operator name is a parameter.
- React state setters and rendering. The form is a value passed in and returned.

## Findings

| source | as written | input that shows it | evidently intended | confidence | as-written member | corrected member |
|---|---|---|---|---|---|---|
| client/src/components/Attendance.js:35-40 against server/api/index.js:94-95 | The client posts `data` as an array of `[id, entry]` pairs. The server runs `Object.entries(data)` and acts only on keys starting with `weekly_` whose value is "on". An array's keys are "0", "1", …, so no write is ever planned. | A form with symbol "17" checked, and a sheet whose data row has "17" in column A. The plan is empty. | The body carries `weekly_<id>` = "on" for each checked id, as the form's checkbox naming in `TableRow.js` implies. Each checked id without `_` that has a data row gets its five week columns stamped. An id containing `_` is cut at that `_` by `split('_')[1]` (`Wire.UnderscoreIdStampsAnotherRow`). | not executed | Wire.SubmitBodyPlansNothing | Wire.KeyedBodyStampsChecked |
