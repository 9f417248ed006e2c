# Receipt review state, in Dafny

A model of the receipt-digitising web app's review screen and the two small
pieces of pure logic that feed it. The app photographs a receipt, has its text
read and structured by external services, and lets the user review the result
before exporting the selected lines to a database. The model covers three
parts:

- **The review state.** A receipt is either not loaded (`Empty`) or loaded
  (`Loaded`). A loaded receipt carries its lines, one selection flag per line,
  the header date, the "a line date was edited by hand" flag, the three export
  column labels and the upload-in-progress flag. Every handler of the screen is
  a pure transition on that state: loading a receipt, select-all, a row
  checkbox, description and price edits, the header date picker, a row's date
  input, pressing upload and the upload settling. The table the screen draws is
  a pure function of the state. A session runs a sequence of these events.
- **Normalising the extraction result.** Markdown fences are cut out of the
  service's answer and the rest is trimmed. After parsing, an invalid receipt
  date is replaced by today's date, and every line is stamped with the
  receipt's date.
- **The storage key of an upload.** The key has the form
  `receipts/<YYYYMM>/<seconds>_<base>.<ext>`, and the public URL is the key
  under the public domain.

Modules: `ReceiptTypes` (the records), `Text` (JavaScript `trim` and `split`),
`Decimal` (`toString` of integers, `padStart`), `Selection` (the selection
mask, the filter and the total), `ItemEdits` (line edits), `ReviewState` (the
state and its transitions), `TableView` (what the table shows), `Session`
(event sequences), `Recognition` (fence stripping and normalisation), and
`ObjectKey` (the pre-signed URL route without signing).

Things the browser or the platform decides are parameters:

- `parsePrice` stands for `parseFloat` plus the NaN test. It answers `None`
  where the code sees NaN.
- `parseJson` stands for `JSON.parse` plus the shape the code relies on. It
  answers `None` wherever the code would throw.
- `validDate` stands for "`new Date(x)` is a valid date".
- `nowIso` stands for `new Date().toISOString()`.
- `Clock` holds `getFullYear()`, `getMonth()` and `getTime()`.
- `publicDomain` is the configured public domain.

Dates are kept as the text the record carries. Prices are `real`.

Behaviour of the code worth knowing:

- Toggling select-all twice restores the mask only when every entry was equal.
  A mixed selection ends up entirely cleared (`Selection.ToggleAllTwice`).
- The substitute date is the UTC calendar date, taken from `toISOString()`
  before the first 'T'. It is not the local date.
- Reloading a receipt resets the lines, the mask and the header date only. The
  edited-date flag and the labels keep their values (`ReviewState.Load`).
- Clearing a row's date input stores an invalid date for that line. The next
  time the table is drawn, formatting that date throws, so the table is not
  drawn.
- The code has no "add blank item", no label renaming, no out-of-range error
  and no missing-credentials error. It has no per-line export failure report
  either. The only guard is the disabled upload button.

## Model

| member | source | states |
|---|---|---|
| ReviewState.Load | components/ReceiptDetails.tsx:33-46 | A loaded receipt has every line selected, one mask entry per line, and the receipt's date in the header. On first mount the default labels are used and both flags are cleared. A reload keeps the edited-date flag, the labels and the upload flag. |
| Selection.SelectEvery | components/ReceiptDetails.tsx:44 | The fresh mask has one entry per line, all selected. |
| Selection.ToggleAll | components/ReceiptDetails.tsx:98-100 | Select-all keeps the mask length. It clears a fully selected mask and fills any other mask. |
| Selection.ToggleAllTwice | components/ReceiptDetails.tsx:98-100 | Two select-all toggles restore a uniform mask. A mixed mask becomes all false. |
| ReviewState.ToggleSelectAll | components/ReceiptDetails.tsx:98-100 | On the screen, select-all changes only the mask, as above. It does nothing without a receipt. |
| Selection.ToggleItem | components/ReceiptDetails.tsx:102-104 | A row checkbox flips exactly entry `index`. Every other entry and the length are kept. |
| Selection.ToggleItemProperties | components/ReceiptDetails.tsx:102-104 | An index outside the mask changes nothing. Flipping the same row twice restores the mask. |
| ReviewState.ToggleItemSelection | components/ReceiptDetails.tsx:102-104 | On the screen, a row checkbox changes only that mask entry. |
| ItemEdits.EditItem | components/ReceiptDetails.tsx:106-119 | A description is stored verbatim at `index`. A readable price replaces only that line's price. An unreadable price leaves the list unchanged. Other lines and the count are kept. |
| ItemEdits.EditItemIdempotent | components/ReceiptDetails.tsx:106-119 | Repeating an edit changes nothing more. |
| ItemEdits.EditItemsCommute | components/ReceiptDetails.tsx:106-119 | Edits to two different rows give the same result in either order. |
| ReviewState.ItemChange | components/ReceiptDetails.tsx:106-119 | On the screen, an edit touches only the lines. A description edit replaces only that line's description, keeping its price and date. A readable price replaces only that line's price. An unreadable price leaves the whole state unchanged. |
| ItemEdits.SetAllDates | components/ReceiptDetails.tsx:54-57 | Every line gets the new date and keeps its description and price. |
| ItemEdits.SetAllDatesLastWins | components/ReceiptDetails.tsx:54-57 | After two re-datings only the second date remains. |
| ItemEdits.SetAllDatesAfterSetItemDate | components/ReceiptDetails.tsx:48-61 | A header date overrides any date set earlier on a single line. |
| ReviewState.DateChange | components/ReceiptDetails.tsx:48-61 | A picked date becomes the header date, the receipt date and every line's date. Descriptions, prices and the mask are kept, and the edited-date flag is cleared. A cleared picker blanks only the header date. |
| ItemEdits.SetItemDate | components/ReceiptTable.tsx:95-100 | Only line `index` is re-dated, keeping its description and price. An index outside the list changes nothing. |
| ReviewState.ItemDateEdit | components/ReceiptTable.tsx:94-102 | A row's date input changes only that line's date and keeps the line count. It raises the edited-date flag. |
| Selection.SelectedIndices | components/ReceiptDetails.tsx:66 | The selected positions, strictly increasing. It holds exactly the positions whose entry is true. |
| Selection.FilterSelected | components/ReceiptDetails.tsx:66 | The upload list is exactly the lines at the selected positions, in receipt order. |
| Selection.FilterSelectedNonEmpty | components/ReceiptDetails.tsx:66 | The upload list is non-empty exactly when some line is selected. |
| ReviewState.StartUpload | components/ReceiptDetails.tsx:63-77 | A disabled button does nothing. An enabled one raises the upload flag and sends the selected lines in order, with the token, the database id and the labels. |
| ReviewState.FinishUpload | components/ReceiptDetails.tsx:93-95 | When the upload settles, success or failure, only the upload flag drops. The lines and the mask are untouched. |
| ReviewState.UploadEnabled | components/ReceiptDetails.tsx:164-166 | The button is enabled exactly when the token and database id are non-empty, no upload runs and the upload list is non-empty. |
| Selection.SelectedTotal | components/ReceiptTable.tsx:123-125 | The footer total equals the sum of prices over exactly the positions whose entry is true. |
| Selection.FilteredSumIsPriceWhereSelected | components/ReceiptTable.tsx:123-125 | Adding up the filtered lines left to right gives the positional sum over the selected entries. |
| Selection.NothingSelectedTotalZero | components/ReceiptTable.tsx:123-125 | With nothing selected the total is 0. |
| Selection.EverythingSelectedTotal | components/ReceiptTable.tsx:123-125 | With every line selected the total is the sum of all prices. |
| TableView.RowsOf | components/ReceiptTable.tsx:75-81 | One row per line, showing that line. A row is ticked exactly when its mask entry is true. |
| TableView.CheckedRowsTotalMatches | components/ReceiptTable.tsx:123-125 | The sum over the ticked rows equals the sum over the selected positions. |
| TableView.AllCheckedIffAllSelected | components/ReceiptTable.tsx:67 | The header checkbox is ticked exactly when every row is ticked, so also for a receipt without lines. |
| TableView.Render | components/ReceiptTable.tsx:37-39 | Without a receipt nothing is drawn. With one, the table shows the header date, the dimming flag, the rows, and the total of the ticked rows. |
| TableView.ExampleTotal | components/ReceiptTable.tsx:123-125 | Prices 5.95, 12.50 and 3.00 with the middle line deselected total 8.95. |
| Session.Step | components/ReceiptContext.tsx:10-24 | Every handler keeps one mask entry per line. A loaded screen stays loaded. Without a receipt only a new receipt changes anything. |
| Session.Run | components/ReceiptDetails.tsx:42-46 | After any sequence of events the mask still has one entry per line, and a loaded screen stays loaded. |
| Session.LoadedIffReceived | components/ReceiptDetails.tsx:42-46 | The screen leaves the empty state exactly when a receipt arrives, and never returns to it. |
| Session.ToggleAllTwiceOnScreen | components/ReceiptDetails.tsx:98-100 | Two select-all clicks give back the state only for a uniform mask. Otherwise everything is deselected. |
| Session.PickedDateReachesUpload | components/ReceiptDetails.tsx:48-66 | After a header date is picked, every line sent on upload carries that date. |
| Text.TrimStart | components/ReceiptOCR.tsx:46 | Only leading whitespace is removed. The result is a suffix that does not start with whitespace. |
| Text.TrimEnd | components/ReceiptOCR.tsx:46 | Only trailing whitespace is removed. The result is a prefix that does not end with whitespace. |
| Text.Trim | components/ReceiptOCR.tsx:46 | The trimmed text is a slice of the input with only whitespace before and after it, and neither of its ends is whitespace. |
| Text.TrimIgnoresSurroundingWhitespace | components/ReceiptOCR.tsx:46 | Whitespace added at either end disappears again under trim. |
| Text.TrimIdempotent | components/ReceiptOCR.tsx:46 | Trimming twice equals trimming once. |
| Recognition.RemoveFences | components/ReceiptOCR.tsx:46 | No three backticks in a row are left, so every "```json" and "```" is gone. The output is never longer than the input. Text without a backtick passes unchanged. |
| Recognition.RemoveFencesCutsOnlyFences | components/ReceiptOCR.tsx:46 | The result is the input with some "```json" and "```" pieces cut out and every other character kept in order; where "```json" starts it is cut whole or not at all. |
| Recognition.JsonFenceCutWhole | components/ReceiptOCR.tsx:46 | A "```json" after backtick-free text is cut as a whole, "json" included, as the regex tries that alternative first. |
| Recognition.FenceInsideText | components/ReceiptOCR.tsx:46 | "x```y" becomes "xy": a fence inside the text is cut and the text around it joined. |
| Recognition.RemoveFencesPlainPrefix | components/ReceiptOCR.tsx:46 | A backtick-free prefix passes through unchanged in front of the rest. |
| Recognition.StripFences | components/ReceiptOCR.tsx:46 | The stripped payload has no three backticks in a row. It is the fence-free text with only surrounding whitespace removed, and has no whitespace at either end. |
| Recognition.StripFencesUnwrapsFencedBody | components/ReceiptOCR.tsx:46 | "```json\n" + B + "\n```", with no backtick in B, strips to trim(B). |
| Recognition.TodayDate | components/ReceiptOCR.tsx:52-56 | The substitute date is the part of the ISO timestamp before its first 'T'. |
| Recognition.NormalizeRecord | components/ReceiptOCR.tsx:48-60 | A valid date is kept verbatim and an invalid one becomes today's date. Every line then carries exactly the receipt date, whatever it had before. Count, order, descriptions and prices are kept. |
| Recognition.NormalizeRecordIdempotent | components/ReceiptOCR.tsx:54-60 | Once today's date counts as valid, normalising twice equals normalising once. |
| Recognition.Recognize | components/ReceiptOCR.tsx:45-60 | A receipt is recognised exactly when the stripped payload parses. Its date is the parsed date if valid and today's date otherwise. It has as many lines as the parsed record, each the parsed line with the receipt date. |
| Recognition.ApplyRecognition | components/ReceiptOCR.tsx:45-73 | A failure before the receipt is handed over (recognition, the request, reading or parsing the answer) leaves the review state exactly as it was. Success is the screen's load of the recognised receipt: every line selected, the receipt date in the header, flags as on load. The date is valid or today's, and every line carries it. |
| Recognition.FencedInvalidDateBecomesToday | components/ReceiptOCR.tsx:46-62 | A fenced answer with an invalid date reaches the screen dated today. All its lines are dated today too. |
| Text.Split | app/api/getPresignedUrl/route.ts:27-28 | `split` returns at least one piece and no piece contains the separator. Joining the pieces gives back the input. |
| Text.BeforeFirst | app/api/getPresignedUrl/route.ts:28 | `split('.')[0]` is the prefix before the first '.', or the whole name. |
| Text.AfterLast | app/api/getPresignedUrl/route.ts:27 | `split('.').pop()` is the suffix after the last '.', or the whole name. |
| Text.NoSeparatorWholeString | app/api/getPresignedUrl/route.ts:27-28 | A name without '.' is its own base and its own extension. |
| Decimal.NatToString | app/api/getPresignedUrl/route.ts:25-26 | The digits of a number: non-empty, with no leading zero. |
| Decimal.NatToStringRoundTrip | app/api/getPresignedUrl/route.ts:25-26 | The digits read back as the number. |
| Decimal.IntToString | app/api/getPresignedUrl/route.ts:26 | The text has digits only, with a leading '-' exactly for a negative number, and the digits have no leading zero. |
| Decimal.IntToStringRoundTrip | app/api/getPresignedUrl/route.ts:26 | The text of an integer reads back as that integer. |
| Decimal.PadStart | app/api/getPresignedUrl/route.ts:25 | The text is padded on the left with the fill character to the width. The original text is kept as the suffix. |
| ObjectKey.DirectoryName | app/api/getPresignedUrl/route.ts:25 | The directory is at least two characters, all digits apart from a minus sign on a negative year. |
| ObjectKey.DirectoryNameReadsBack | app/api/getPresignedUrl/route.ts:25 | For a non-negative year, the directory is exactly the year's text followed by the two-digit month 1-12, and reads back as those numbers. |
| ObjectKey.Timestamp | app/api/getPresignedUrl/route.ts:26 | The seconds are the milliseconds divided by 1000 and rounded down, also before 1970. |
| ObjectKey.Missing | app/api/getPresignedUrl/route.ts:19 | A query parameter counts as missing exactly when it is absent or the empty string. |
| ObjectKey.ObjectPath | app/api/getPresignedUrl/route.ts:28-29 | The key starts with "receipts/" and the directory followed by '/', and ends with '.' and the extension. Its length is the parts' plus the 12 fixed characters. |
| ObjectKey.KeyPartsFor | app/api/getPresignedUrl/route.ts:25-28 | The directory is the year-month name of the clock and the stamp is the text of its seconds. The base is the name's prefix before its first '.'. The extension is the suffix after its last '.'. Neither contains '.'. |
| ObjectKey.ParseObjectPathRoundTrip | app/api/getPresignedUrl/route.ts:28-29 | A key splits back into exactly its directory, seconds, base and extension. |
| ObjectKey.GetPresignedUrl | app/api/getPresignedUrl/route.ts:19-45 | A missing or empty filename or contentType gives a 400 error with the route's message. Otherwise the key splits back into the year-month directory, the seconds, the base and the extension. The public URL is "https://" + domain + "/" + key. |
| ObjectKey.NameWithoutDot | app/api/getPresignedUrl/route.ts:27-28 | A name without '.' serves as both base and extension in the key. |

## Left out

- OCR, the language-model call and `JSON.parse` are not modelled. Their
  outcome enters as the `response` and `parseJson` parameters.
- `new Date` parsing and `toISOString` are not modelled. They enter as
  `validDate` and `nowIso`. Dates are text, so the header's `new Date(...)`
  wrapping is the identity here. A picked `Date` object is always truthy,
  which is why `DateChange` only distinguishes present from absent.
- `parseFloat` and `toFixed(2)` are not modelled. Prices are `real`, sums are
  exact, and display rounding is out of scope.
- TableView.Render: draws a table for every loaded state. In the code,
  formatting a line date that is not a valid date throws while drawing, so no
  table appears; date validity is a browser matter outside this model.
- Recognition.ApplyRecognition: a failure after the receipt is handed over
  (ending the OCR worker, storing the image) shows the error toast with the
  receipt already loaded; those steps are not modelled.
- ReviewState.ItemChange: requires the row to exist. The UI only passes row
  indices. With any other index, JavaScript would grow a sparse array, and the
  model does not represent holes. For the same reason `Session.Step` ignores
  such events.
- Decimal.IntToString: writes every integer in plain digits. JavaScript
  switches to exponent notation from 1e21, far beyond any year or second count
  the clock gives.
- The S3 client, presigning, and the 500 answer when signing fails are not
  modelled. The route's key and URLs are modelled without them.
- The network side of an upload is not modelled: the upload route's Notion
  loop and the request body's transport. Only the request the screen sends and
  the flag handling are modelled.
- Feedback upload and persistence, image conversion, the credentials dialog,
  toasts, local storage and rendering details are not modelled. Neither are
  the formatting of dates in inputs or the muted style, beyond the flag.
- The label setter is exposed by the context, but these files never call it.
  No renaming is modelled.
