# Sentiment table and link-group pages, modelled in Dafny

This project models the data handling of a small React client. The client has five pages.

- **Sentiment analysis page** (`AnalisaSentimen`). A CSV file of product reviews is uploaded and parsed into rows. The page filters, searches and sorts the rows, shows them ten to a page with a page-number strip, and charts the sentiment and rating counts. It can export the rows on screen as CSV text.
- **Link-group form** (`Generate`). The user edits rows of button name and URL. Blank fields are reported row by row. A valid form becomes a new `Data.json` entry with a random 10-character id, appended to the existing entries.
- **Search page** (`SearchButtons`). This lists every entry of `Data.json`, keeping only the buttons whose name contains the search term, case-insensitively, and hiding entries left empty.
- **Key page** (`ButtonPage`). This shows the buttons of the first entry whose id is the route's key. A click is accepted only for a URL starting with `http`.
- **Login page** (`Login`). It checks that both fields are filled in, then looks up the first user of `Login.json` whose username and password match exactly.

Every network answer is an input to the model: the GitHub token, each read of a JSON file, each PUT, and the CSV text of the uploaded file. `Remote.Response` models the three ways a `fetch` ends: an `ok` answer with its decoded body, a status outside 200-299, or a rejected promise with the error's message. The random picks of `generateRandomId` are inputs too.

Most modules are pure functions and lemmas:
- `Seqs`: filter and subsequence;
- `JsText`: `trim`, `toLowerCase`, `includes`, `split` and `join`;
- `JsNumber`: `parseInt` and integer `toString`;
- `SentimentCsv`: ingestion and export;
- `SentimentSort`: the comparator and the stable sort;
- `SentimentView`: filters, pagination, the strip, counts and options.

State the pages keep is modelled by classes whose methods update their fields:
- `SentimentPage.SentimentTable`
- `Generate.GenerateForm`
- `SearchButtons.SearchPage`
- `ButtonPage.ButtonPageState`
- `Login.LoginPage`

`SentimentTable.Consistent` is the table's invariant. Every row of `data` has the parser's shape (`Ingested`), since `data` changes only by an upload. The rows on screen are the view of the current criteria, on a page that exists. The handlers that re-run the filter/sort effect require `Ingested`; the download relies on it to prove that every exported line splits back into its cells.

The sort is an insertion sort done in place on an `array`. It is proved equal to a functional stable sort, and that sort is proved to be an ordered, stable permutation.

## Model

| member | source | states |
|---|---|---|
| Remote.AsList | src/pages/Generate.tsx:80 | a single JSON value is read as a one-element list; an array is kept as it is |
| Remote.TokenResult | src/pages/AnalisaSentimen.tsx:72-83 | the token is the answer's body when the request is ok; otherwise the error carries the prefix "Error fetching GitHub token: " and the failure's message |
| JsText.Trim | src/pages/AnalisaSentimen.tsx:87 | the result is a slice of the input with only white space cut away on either side; it is empty exactly when the input is all white space, and otherwise starts and ends with a non-space |
| JsText.TrimIdempotent | src/pages/AnalisaSentimen.tsx:87 | trimming twice is trimming once |
| JsText.IncludesIffOccurs | src/pages/SearchButtons.tsx:53 | `includes` holds exactly when the term occurs at some position |
| JsText.SplitJoin | src/pages/AnalisaSentimen.tsx:315 | splitting a join, when no part holds the separator, gives back the parts |
| JsText.JoinSplit | src/pages/AnalisaSentimen.tsx:87 | joining the pieces of a split restores the string |
| JsNumber.ParseInt | src/pages/AnalisaSentimen.tsx:107 | after leading blanks and one sign, NaN exactly when no digit follows (a hex digit after "0x"); otherwise the value of the longest leading run of digits, negated after a minus, with the rest of the text ignored; a string without digits gives NaN, which the fallback turns into 0 |
| JsNumber.ParseIntIgnoresTrailingText | src/pages/AnalisaSentimen.tsx:107 | a digit followed by white space and more text reads as that digit |
| JsNumber.ParseIntLeadingLetter | src/pages/AnalisaSentimen.tsx:107 | text that starts with a letter reads as NaN even when digits follow |
| JsNumber.ParseIntOfIntToString | src/pages/AnalisaSentimen.tsx:107 | `parseInt` reads back every integer the export writes |
| SentimentCsv.FindColumns | src/pages/AnalisaSentimen.tsx:89-102 | the columns are found exactly when all five header names are present, matched exactly; each index is the first occurrence |
| SentimentCsv.ParseCsvEmptyCases | src/pages/AnalisaSentimen.tsx:87-102 | ingestion gives no rows when every line is blank or a required header is missing |
| SentimentCsv.ParseCsvRows | src/pages/AnalisaSentimen.tsx:103-111 | with all headers present there is one row per non-blank line after the header, in order; a missing cell reads as "" or 0; the sentiment is Positive exactly when the label cell is "1" |
| SentimentCsv.ParsedRowsWellFormed | src/pages/AnalisaSentimen.tsx:87-111 | every ingested row has trimmed fields without commas or newlines, and a Positive or Negative sentiment |
| SentimentCsv.UnescapeEscape | src/pages/AnalisaSentimen.tsx:307 | doubling the quotes of a review loses nothing: undoubling restores it |
| SentimentCsv.ExportLineCount | src/pages/AnalisaSentimen.tsx:301-315 | the exported text splits into the header line followed by one line per row, one more line than rows in all |
| SentimentCsv.ExportLineCells | src/pages/AnalisaSentimen.tsx:305-312 | each exported line splits into the quoted review, the rating (which re-parses to the row's rating), kategori, namaProduk and sentiment |
| SentimentCsv.ExportFirstLine | src/pages/AnalisaSentimen.tsx:302-304 | the first line of the export is `Ulasan,Rating,Kategori,Nama Produk,Sentiment` |
| SentimentCsv.ExportNotReingestible | src/pages/AnalisaSentimen.tsx:302-304 | an exported file, uploaded again, yields no rows: its header has no `label` column |
| SentimentSort.CompareZero | src/pages/AnalisaSentimen.tsx:247-253 | the comparator returns 0 exactly for equal column values |
| SentimentSort.CompareAntisymmetric | src/pages/AnalisaSentimen.tsx:247-253 | `compare(a, b) > 0` exactly when `compare(b, a) < 0` |
| SentimentSort.CompareTransitive | src/pages/AnalisaSentimen.tsx:247-253 | "not after" under the comparator is transitive |
| SentimentSort.SortRowsPermutation | src/pages/AnalisaSentimen.tsx:246-254 | sorting keeps every row as often as it occurs |
| SentimentSort.SortRowsOrdered | src/pages/AnalisaSentimen.tsx:246-254 | the sorted rows are ascending, or descending, by the chosen column |
| SentimentSort.SortRowsStable | src/pages/AnalisaSentimen.tsx:246-254 | rows with equal values in the sort column keep their input order |
| SentimentSort.InsertAt | src/pages/AnalisaSentimen.tsx:247 | one insertion step on the array places `a[i]` into the sorted prefix and leaves the rest alone |
| SentimentSort.SortInPlace | src/pages/AnalisaSentimen.tsx:247 | sorting the array in place leaves exactly the stable sorted sequence |
| SentimentView.NarrowedIsSelected | src/pages/AnalisaSentimen.tsx:231-245 | filtering criterion by criterion, only for criteria that are set, keeps exactly the rows meeting all of them |
| SentimentView.ViewContents | src/pages/AnalisaSentimen.tsx:230-256 | the table holds exactly the matching rows of the data: in data order when unsorted; when sorted, ordered, a permutation, and stable |
| SentimentView.ResetShowsAll | src/pages/AnalisaSentimen.tsx:293-298 | after a reset the table shows all data in upload order |
| SentimentView.StricterSelectsFewer | src/pages/AnalisaSentimen.tsx:231-245 | setting one more criterion never brings rows back |
| SentimentView.TotalPages | src/pages/AnalisaSentimen.tsx:265 | the page count is `ceil(n / 10)`, which is 0 for no rows |
| SentimentView.PageWindow | src/pages/AnalisaSentimen.tsx:266-267 | page p shows rows `10(p-1)` to `10p`, at most ten of them, and is non-empty exactly when p is one of the pages |
| SentimentView.PagesCoverView | src/pages/AnalisaSentimen.tsx:265-267 | the pages together show every row once, in order |
| SentimentView.PrevPage | src/pages/AnalisaSentimen.tsx:622 | "Prev" never goes below page 1 and moves back one page otherwise |
| SentimentView.NextPage | src/pages/AnalisaSentimen.tsx:685 | "Next" never passes the last page and moves forward one page otherwise |
| SentimentView.PageStripShape | src/pages/AnalisaSentimen.tsx:628-683 | the strip runs from page 1 to the last page and includes the current one; its page numbers are increasing and in range, an ellipsis stands for skipped pages, and there are at most seven entries |
| SentimentView.SentimentCounts | src/pages/AnalisaSentimen.tsx:326-333 | the reduce's record has exactly the keys positive, negative and the rows' lower-cased labels, and each key maps to its number of rows |
| SentimentView.LabelsMembers | src/pages/AnalisaSentimen.tsx:326-333 | a tag is a label of the rows exactly when some row's label lower-cases to it |
| SentimentView.SentimentBarsCoverRows | src/pages/AnalisaSentimen.tsx:326-333 | for ingested rows, positive + negative is the number of rows |
| SentimentView.RatingCounts | src/pages/AnalisaSentimen.tsx:379-385 | each rating that occurs maps to its positive number of rows; others are absent |
| SentimentView.RatingSeries | src/pages/AnalisaSentimen.tsx:392 | the chart's five values are the counts of ratings 1 to 5 |
| SentimentView.RatingBarsAccount | src/pages/AnalisaSentimen.tsx:379-392 | the five bars plus the rows rated outside 1..5, which the chart does not show, are all rows |
| SentimentView.Distinct | src/pages/AnalisaSentimen.tsx:260-261 | each value once, exactly the values that occur, in the order of their first occurrence |
| SentimentView.KategoriOptions | src/pages/AnalisaSentimen.tsx:260 | the drop-down offers no category twice, in the order of first occurrence in the data |
| SentimentView.KategoriOptionsSelect | src/pages/AnalisaSentimen.tsx:260 | the drop-down offers exactly the categories in the data, and every category offered selects at least one row |
| SentimentView.NamaProdukOptions | src/pages/AnalisaSentimen.tsx:261 | the drop-down offers no product twice, in the order of first occurrence in the data |
| SentimentView.NamaProdukOptionsSelect | src/pages/AnalisaSentimen.tsx:261 | the drop-down offers exactly the products in the data, and every product offered selects at least one row |
| SentimentPage.WithFilter | src/pages/AnalisaSentimen.tsx:270-276 | a filter change sets the chosen drop-down and keeps the other two |
| SentimentPage.Narrow | src/pages/AnalisaSentimen.tsx:231-245 | the effect's filter chain yields the selected rows |
| SentimentPage.SortedCopy | src/pages/AnalisaSentimen.tsx:246-254 | the effect's sort yields the stable sorted rows |
| SentimentPage.SentimentTable.Refresh | src/pages/AnalisaSentimen.tsx:230-257 | the effect sets the table to the view of the current criteria and returns to page 1 |
| SentimentPage.SentimentTable.HandleSort | src/pages/AnalisaSentimen.tsx:283-290 | the same column flips the direction; a new column sorts ascending; the table is refreshed |
| SentimentPage.SentimentTable.ResetFilters | src/pages/AnalisaSentimen.tsx:293-298 | every criterion is cleared and the table shows all data |
| SentimentPage.SentimentTable.SetFilter | src/pages/AnalisaSentimen.tsx:270-276 | one drop-down is set and the table refreshed |
| SentimentPage.SentimentTable.SetSearch | src/pages/AnalisaSentimen.tsx:278-280 | the query is set; the table is refreshed only when the query changed |
| SentimentPage.SentimentTable.Prev | src/pages/AnalisaSentimen.tsx:622 | the page moves back by one, not below 1, and the table stays consistent |
| SentimentPage.SentimentTable.Next | src/pages/AnalisaSentimen.tsx:685 | the page moves forward by one, not past the last page |
| SentimentPage.SentimentTable.GoToPage | src/pages/AnalisaSentimen.tsx:628-683 | a page button of the strip always leads to an existing page |
| SentimentPage.SentimentTable.Shown | src/pages/AnalisaSentimen.tsx:266-267 | the page shows at most ten rows of the table, and none only when the table is empty |
| SentimentPage.SentimentTable.DownloadCsv | src/pages/AnalisaSentimen.tsx:301-315 | the downloaded text is the export of the table: the header, then one line per row, each splitting on commas into that row's five cells |
| SentimentCsv.WellFormedRowExports | src/pages/AnalisaSentimen.tsx:301-315 | a parsed row exports to one line that splits back into its five cells, the rating cell re-parsing to the rating |
| SentimentPage.SentimentTable.Apply | src/pages/AnalisaSentimen.tsx:182-192 | the status and token are stored, and new rows replace the data and refresh the table |
| SentimentPage.SentimentTable.UploadFile | src/pages/AnalisaSentimen.tsx:155-195 | an upload loads the parsed rows and refreshes the table when it succeeds, and otherwise keeps the table |
| SentimentPage.TokenFor | src/pages/AnalisaSentimen.tsx:72-83 | a non-empty cached token is used as is; an absent or empty one is fetched, succeeding exactly when the endpoint answers ok, with the token it sends |
| SentimentPage.UploadAsWrittenHangs | src/pages/AnalisaSentimen.tsx:159-190 | as written, whenever a token is obtained but the PUT fails or the file has no usable rows, the status stays "Processing file..." and no rows are loaded |
| SentimentPage.UploadSettles | src/pages/AnalisaSentimen.tsx:155-195 | corrected, the upload always settles: it succeeds exactly with a token, an accepted PUT and some rows, and otherwise reports an error; the cached token is kept when non-empty and replaced by a freshly fetched one otherwise |
| SentimentPage.UploadAgreesWhenSettled | src/pages/AnalisaSentimen.tsx:155-195 | wherever the code as written settles, the corrected upload agrees with it |
| Generate.Alphabet | src/pages/Generate.tsx:39-40 | the alphabet has 62 characters: A-Z, a-z, then 0-9 |
| Generate.CharacterIndexInverse | src/pages/Generate.tsx:39-40 | every character occurs in the alphabet once |
| Generate.IdFrom | src/pages/Generate.tsx:41-43 | an id has one character per pick, each from the alphabet |
| Generate.IdFromInjective | src/pages/Generate.tsx:38-45 | different picks give different ids |
| Generate.GenerateRandomId | src/pages/Generate.tsx:38-45 | the loop builds a 10-character id over the alphabet, character i given by pick i |
| Generate.ErrorsFor | src/pages/Generate.tsx:153-160 | a row's buttonName error is set exactly when its trimmed name is empty, and its url error exactly when its trimmed URL is empty |
| Generate.Validate | src/pages/Generate.tsx:151-163 | one error record per form, reporting exactly its blank fields; `hasError` is set exactly when some row is invalid |
| Generate.ButtonsKeepForms | src/pages/Generate.tsx:183-189 | the new entry's buttons are the forms' names and URLs as typed, in order |
| Generate.LoadDataJson | src/pages/Generate.tsx:61-84 | a 404 is an empty list; an ok answer gives its items, a single value as a one-entry list; other failures carry the prefix "Error fetching Data.json: " |
| Generate.PushResult | src/pages/Generate.tsx:87-111 | the PUT succeeds exactly on an ok answer; failures carry the prefix "Error pushing Data.json: " |
| Generate.PrepareUpdateAppends | src/pages/Generate.tsx:178-204 | the PUT is prepared exactly when the token, the data and the sha reads succeed; it carries the existing entries unchanged followed by the new one |
| Generate.RemoveAt | src/pages/Generate.tsx:132-135 | removing index i drops exactly that element and keeps the others in order; an index out of range changes nothing |
| Generate.GenerateForm.AddNewForm | src/pages/Generate.tsx:126-129 | one blank row and one empty error record are appended, so the two lists stay the same length |
| Generate.GenerateForm.RemoveForm | src/pages/Generate.tsx:132-135 | row i and its error record are removed together |
| Generate.GenerateForm.HandleInputChange | src/pages/Generate.tsx:115-123 | only the chosen field of the chosen row changes, and only that field's error is cleared |
| Generate.GenerateForm.HandleSubmit | src/pages/Generate.tsx:150-221 | an invalid form only reports its blanks; otherwise the existing data plus the new entry is pushed; on success the modal shows the new id and the form is reset; on a failure the modal shows "Error: " with the message |
| Generate.GenerateForm.CloseModal | src/pages/Generate.tsx:224-226 | the modal closes and nothing else changes |
| SearchButtons.Narrow | src/pages/SearchButtons.tsx:50-54 | a group keeps its id, and its buttons become the matching ones in order, every matching button kept as often as it occurs |
| SearchButtons.NarrowNonEmpty | src/pages/SearchButtons.tsx:55 | a narrowed group is non-empty exactly when one of its buttons matches |
| SearchButtons.SearchResultsShape | src/pages/SearchButtons.tsx:50-55 | the results keep the group order and are no longer than the data; every group listed is non-empty with only matching buttons; every group with a match is listed |
| SearchButtons.EmptyTermShowsAll | src/pages/SearchButtons.tsx:50-55 | with an empty term every group that has a button is listed whole |
| SearchButtons.ExtendingTermNarrows | src/pages/SearchButtons.tsx:52-54 | typing more never brings a button back |
| SearchButtons.SearchPage.Shown | src/pages/SearchButtons.tsx:50-55 | the page lists at most one group per entry, each an entry narrowed to its matching buttons and non-empty, and lists every entry with a match |
| SearchButtons.SearchPage.FetchData | src/pages/SearchButtons.tsx:29-47 | the loaded data is the answer as a list; a failure sets the error instead; loading ends either way |
| SearchButtons.SearchPage.HandleSearchChange | src/pages/SearchButtons.tsx:58-60 | the term is set and the listing becomes the results for it |
| SearchButtons.SearchPage.HandleButtonClick | src/pages/SearchButtons.tsx:63-68 | the URL is stored for the link page |
| ButtonPage.FindEntry | src/pages/ButtonPage.tsx:42 | there is no entry exactly when no id equals the key; otherwise the entry found is in the data and has that id |
| ButtonPage.FindEntryFirst | src/pages/ButtonPage.tsx:42 | the entry found is the first with that id |
| ButtonPage.ValidUrlIffHttp | src/pages/ButtonPage.tsx:63 | a URL is accepted exactly when it starts with "http" |
| ButtonPage.ButtonPageState.FetchButtons | src/pages/ButtonPage.tsx:34-59 | with no key, nothing happens; otherwise the first matching entry's buttons are shown and the error is cleared, or the list is emptied and the error says why |
| ButtonPage.ButtonPageState.HandleButtonClick | src/pages/ButtonPage.tsx:62-68 | an invalid URL only sets "Invalid URL provided"; a valid one is stored |
| Login.ValidateLogin | src/pages/Login.tsx:74-76 | a username error exactly when the trimmed username is empty; a password error exactly when the password is empty, untrimmed |
| Login.PasswordNotTrimmed | src/pages/Login.tsx:75-76 | a password of spaces passes while a username of spaces fails |
| Login.LoadLoginData | src/pages/Login.tsx:50-70 | an ok answer gives its users, a single value as a one-user list; failures carry the prefix "Error fetching login data: " |
| Login.FindUser | src/pages/Login.tsx:95-97 | no user exactly when nobody has these credentials; a user found has them and is in the list |
| Login.FindUserFirst | src/pages/Login.tsx:95-97 | the user found is the first with these credentials |
| Login.Authenticate | src/pages/Login.tsx:91-124 | login succeeds exactly when the token and the data load and some user has the typed username and password; otherwise the message is the load error or "Invalid username or password" |
| Login.LoginPage.HandleLogin | src/pages/Login.tsx:73-125 | missing fields stop before any lookup with "Please fill in all required fields"; otherwise the session holds the matching user, with a welcome message, or the modal shows the failure |
| Login.LoginPage.Settle | src/pages/Login.tsx:78-124 | the state after the check: the field errors, then the error modal, or the user and welcome, or the failure |
| Login.LoginPage.SetUsername | src/pages/Login.tsx:146 | typing in the username field sets the username and nothing else |
| Login.LoginPage.SetPassword | src/pages/Login.tsx:155 | typing in the password field sets the password and nothing else |
| Login.LoginPage.CloseModal | src/pages/Login.tsx:128-130 | the modal closes and nothing else changes |

## Left out

- Network requests are not modelled. This covers the GitHub token endpoint and the Contents API reads and PUTs. Their answers are inputs, so timing, retries and concurrent requests are not modelled.
- `deleteFromGitHub`, the removal of the uploaded file after a successful upload, is not modelled. It is a network call whose own errors are only logged.
- Base64 (`btoa`/`atob`) and `JSON.parse`/`JSON.stringify` are not modelled. A decoded body arrives already as entries, users or a token.
- The body of a rejected decode is also not modelled. Malformed JSON is one more rejected promise with its message.
- The key page reads `Data.json` as an array without normalising it, so its input is a list of entries.
- `FileReader` and `file.text()` are not modelled. The upload receives the file's text.
- The `text/csv` type check and the drag-and-drop state are not modelled. They depend on browser file objects.
- `sessionStorage` is a field of each class. The session check at page load, `window.open`, `postMessage`, the `setTimeout` redirects and `navigate` are not modelled, nor is the random redirect URL.
- Chart.js and all rendering are not modelled.
- `averageRating` is not modelled: `toFixed(2)` is floating-point formatting.
- `Math.random` in `generateRandomId` is replaced by the picks given as input, one index below 62 per character.
- `parseInt` is exact on unbounded integers. Precision loss beyond 2^53 is not modelled.
- `toLowerCase` maps only A-Z. Other Unicode case mappings are not modelled.
- String `<` compares characters, not UTF-16 code units. The two differ only for characters outside the Basic Multilingual Plane.
- React batching and re-rendering are modelled only by calling `Refresh` wherever a dependency of the filter/sort effect changes.
- Generate.GenerateForm.HandleInputChange: requires an index in range, because the source fails there (`newForms[index]` is undefined). It updates the row as a value, so the aliasing of the shallow copy (the old array's row object is mutated too) is not modelled.
- Generate.GenerateForm.HandleSubmit: the loading modal shown while the requests run is not part of the final state it describes.
- Login.LoginPage.HandleLogin: the loading modal, and the closing of the modal after the redirect delay, are left out.
- SentimentPage.SentimentTable.UploadFile: it models the corrected upload described under Findings. The code as written is `SentimentPage.UploadAsWritten`.

## Findings

| source | as written | input that shows it | evidently intended | confidence | as-written member | corrected member |
|---|---|---|---|---|---|---|
| src/pages/AnalisaSentimen.tsx:159-190 | the PUT, the parse and their `throw`s run in `reader.onload`, after the `try` block has returned, so `catch` never sees them and the status stays "Processing file..." | a CSV whose header lacks `label`, or a PUT answered 403, with a valid token | every failure reported as "Error processing file: ..." | medium, not executed | SentimentPage.UploadAsWrittenHangs | SentimentPage.UploadSettles |
