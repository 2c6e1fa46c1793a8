# Insurance claims triage: a Dafny model

This project models the decision logic of an insurance-claims application, which has four parts.

- **The admin dashboard** (React). It puts every claim into one of three review buckets:
  - *fraud*,
  - *manual check needed*,
  - *authentic*.

  The buckets are decided by `authenticity_score` and `Fraud_Risk`. The dashboard orders each bucket by `rank_score`, highest first, using a stable sort applied in place to the freshly filtered array. It exports the current view as CSV text. It also keeps a training-in-flight flag and the model status.
- **The claims server** (FastAPI). Its claims file is a table of rows:
  - submitting appends one row, and the header is written only on the first write;
  - deleting removes every row with a given customer id and timestamp.

  Training checks the uploaded file's name. The model status reports the loaded model's meta. Each error has its own HTTP status and detail.
- **The Streamlit prototype.** It has:
  - keyword-based urgency;
  - a fraud-risk label derived from an outlier predictor;
  - the training column rules;
  - the submission validation and save;
  - the admin view's category filter and counts.
- **The theme switch** in the navigation bar. It starts from the stored preference, toggles between light and dark, and mirrors every theme into storage and onto the document.

The modules are:
- `Wrappers`: Option and Result.
- `Sequences`: join and split.
- `JsValues`: JSON scalars, records as ordered fields, and JavaScript truthiness and number conversion.
- `JsonText`: `JSON.stringify` string quoting and its inverse.
- `StableSort`: a generic stable descending sort, and its in-place array version.
- `ClaimTriage`: the dashboard's buckets, rank key and filtered view.
- `ClaimsExport`: CSV text and the file name.
- `AdminDashboard`: the component state as a class.
- `TrainingMeta`: the model meta.
- `ClaimsTable`: the claims file as lines.
- `ClaimsApi`: the server as a class over the file.
- `ClaimsProcessor`: the Streamlit rules and app state.
- `Navbar`: the theme switch.

Some behaviour is driven by things outside the modelled code. These are parameters:
- server answers;
- the clock;
- the trained predictors and the model's analysis;
- the text of numbers.

Some behaviour of the code follows from the exact comparisons it makes:
- **Scores that are neither numbers nor missing.** A score that converts to NaN, such as `"abc"`, lands in no bucket unless the claim is high-risk (`UncoercibleScoreBucket`). A `null` score counts as present and converts to 0, so it lands in the fraud bucket only (`NullScoreBucket`).
- **Overlapping buckets.** A high-risk claim is always in the fraud bucket. It is also in a second bucket when its score is missing or above 3 (`HighRiskOverlap`). A claim with a missing score is in the manual bucket, and in the fraud bucket as well when it is high-risk (`MissingScoreBucket`).
- **Export header.** The exported header is the first record's keys joined by commas, without quotes; keys that only later records have are dropped (`RowLineUsesHeadersOnly`).
- **Training alerts.** A training request that throws alerts "Training error"; an error answer alerts "Training failed: " and its detail (`Dashboard.FinishTrain`).
- **Toggling twice.** Two toggles restore the theme only for "light" and "dark"; a stored "blue" becomes "light" and then "dark" (`ToggleTwice`, `ToggleUnknownTheme`).
- **Texts that read back as NaN.** pandas reads "", "NA", "N/A", "null", "None", "nan" and its other NA spellings back as NaN. A claim whose description is "N/A" is listed back with an empty description (`NaDescriptionListsEmpty`), and a claim saved under the customer id "NA" cannot be deleted by that id (`NaCustomerIdNeverMatches`).

The score badge in the table reads an empty score as 0, so it is red. The filter reads the same empty score as missing, so the claim sits in the manual tab (`EmptyScoreBadge`).

## Model

| member | source | states |
|---|---|---|
| ClaimTriage.Bucket | apps/client/src/pages/AdminDashboard.tsx:12-22 | a record is in a tab's filtered list exactly when it is in the claims and satisfies that tab's predicate |
| ClaimTriage.BucketMultiplicity | apps/client/src/pages/AdminDashboard.tsx:12-22 | the filter keeps every copy of a qualifying record and no copy of any other |
| ClaimTriage.InBucket | apps/client/src/pages/AdminDashboard.tsx:14-20 | a missing score belongs to manual, a numeric score to the tab its thresholds 3 and 7 name, a NaN score to none, and a "High" record to fraud besides |
| ClaimTriage.MissingScoreBucket | apps/client/src/pages/AdminDashboard.tsx:14-20 | an undefined or "" score puts the record in manual, never in authentic, and in fraud exactly when Fraud_Risk is "High" |
| ClaimTriage.NumericScoreBucket | apps/client/src/pages/AdminDashboard.tsx:14-20 | a present score x gives: fraud iff x <= 3 or "High"; manual iff 3 < x < 7; authentic iff x >= 7 |
| ClaimTriage.BucketsCover | apps/client/src/pages/AdminDashboard.tsx:12-22 | a record with a missing or numeric score is in at least one bucket and at most two, and in exactly one unless Fraud_Risk is "High" |
| ClaimTriage.HighRiskOverlap | apps/client/src/pages/AdminDashboard.tsx:14-20 | a "High" record is in fraud, and in two buckets exactly when its score is missing or above 3 |
| ClaimTriage.UncoercibleScoreBucket | apps/client/src/pages/AdminDashboard.tsx:14-20 | a present score that converts to NaN is in neither manual nor authentic, and in fraud only when "High" |
| ClaimTriage.NullScoreBucket | apps/client/src/pages/AdminDashboard.tsx:14-20 | a null score compares as 0 and lands in fraud only |
| ClaimTriage.BadgeAgreesWithBucket | apps/client/src/pages/AdminDashboard.tsx:247-248 | for a present score the badge is green exactly in the authentic bucket, red only in fraud, yellow with a number only in manual |
| ClaimTriage.ScoreBadge | apps/client/src/pages/AdminDashboard.tsx:247-248 | a numeric score shows the colour of the tab its thresholds name; a NaN score shows yellow |
| ClaimTriage.EmptyScoreBadge | apps/client/src/pages/AdminDashboard.tsx:247-248 | an empty score is in the manual bucket yet shows a red badge |
| ClaimTriage.RankKeyValue | apps/client/src/pages/AdminDashboard.tsx:25 | a falsy rank sorts as 0 and a numeric rank as itself |
| ClaimTriage.RankKey | apps/client/src/pages/AdminDashboard.tsx:25 | the key is the rank converted to a number, and 0 only replaces a rank that converts to NaN |
| ClaimTriage.FilteredView | apps/client/src/pages/AdminDashboard.tsx:8-26 | the view is the bucket reordered stably, non-increasing by rank, and has the same elements with the same multiplicities |
| ClaimTriage.ExampleBuckets | apps/client/src/pages/AdminDashboard.tsx:12-22 | scores 8, 2 and missing fall in authentic, fraud and manual respectively and in no other bucket |
| ClaimTriage.ThreeRecordExample | apps/client/src/pages/AdminDashboard.tsx:8-26 | on a three-record list each tab shows exactly its one record |
| StableSort.InsertMultiset | apps/client/src/pages/AdminDashboard.tsx:25 | one insertion step adds exactly the inserted element, so the sort is a permutation |
| StableSort.SortSorted | apps/client/src/pages/AdminDashboard.tsx:25 | the sort result is non-increasing in the key |
| StableSort.SortStable | apps/client/src/pages/AdminDashboard.tsx:25 | records with equal key keep their input order |
| StableSort.SortCharacterised | apps/client/src/pages/AdminDashboard.tsx:25 | a sequence is the sort result exactly when it is non-increasing and keeps the order within each key; it is then a permutation |
| StableSort.InsertInPlace | apps/client/src/pages/AdminDashboard.tsx:25 | one step of the in-place sort inserts the next element into the sorted prefix and leaves the rest of the array alone |
| StableSort.SortInPlace | apps/client/src/pages/AdminDashboard.tsx:25 | sorting the array in place leaves exactly the stable sort of its old contents |
| AdminDashboard.Dashboard.constructor | apps/client/src/pages/AdminDashboard.tsx:3-36 | the initial tabs are train and manual, with no file, not training, no claims, and the status from the first fetch |
| AdminDashboard.Dashboard.TrainDisabled | apps/client/src/pages/AdminDashboard.tsx:117 | the button is disabled while training, and an enabled button has a file to send |
| AdminDashboard.Dashboard.SelectTab | apps/client/src/pages/AdminDashboard.tsx:31-36 | only a change of tab refetches the status, and on the claims tab the claims; a failed fetch changes nothing |
| AdminDashboard.Dashboard.SelectSubTab | apps/client/src/pages/AdminDashboard.tsx:187 | only the classification tab changes |
| AdminDashboard.Dashboard.ChooseFiles | apps/client/src/pages/AdminDashboard.tsx:52-56 | a file list selects its first file, or none when empty; no list changes nothing |
| AdminDashboard.Dashboard.BeginTrain | apps/client/src/pages/AdminDashboard.tsx:58-60 | without a file nothing happens; with one training is marked in flight, so a click on the enabled button always starts training |
| AdminDashboard.Dashboard.FinishTrain | apps/client/src/pages/AdminDashboard.tsx:64-81 | success alerts and shows the meta as active; an error answer alerts its detail; an exception alerts "Training error"; training always ends |
| AdminDashboard.Dashboard.GetFilteredClaims | apps/client/src/pages/AdminDashboard.tsx:8-26 | the filtered array sorted in place equals the specified view, which orders the bucket stably by rank; the claims list is untouched |
| AdminDashboard.Dashboard.ExportClaims | apps/client/src/pages/AdminDashboard.tsx:143-164 | exports the current view, and alerts exactly when nothing is exported |
| ClaimsExport.Cells | apps/client/src/pages/AdminDashboard.tsx:152 | one cell per header, each the stringified value under that header |
| ClaimsExport.Cell | apps/client/src/pages/AdminDashboard.tsx:152 | an absent key gives an empty cell; a string reads back from its cell as that string, and null as the empty string |
| ClaimsExport.RowLines | apps/client/src/pages/AdminDashboard.tsx:152 | one line per record in view order |
| ClaimsExport.CsvText | apps/client/src/pages/AdminDashboard.tsx:149-153 | unless a key holds a line feed, splitting the text at line feeds gives the header line, then each record's line in view order |
| ClaimsExport.CellHasNoLineFeed | apps/client/src/pages/AdminDashboard.tsx:152 | no cell contains a line feed |
| ClaimsExport.CsvLines | apps/client/src/pages/AdminDashboard.tsx:149-153 | splitting the text at line feeds gives the header line and then each record's line, data.length + 1 lines in all |
| ClaimsExport.CellContents | apps/client/src/pages/AdminDashboard.tsx:152 | an absent key gives an empty cell, null gives `""`, a string gives a double-quoted literal that JSON reads back as the string |
| ClaimsExport.RowLineUsesHeadersOnly | apps/client/src/pages/AdminDashboard.tsx:149-152 | a line depends only on the first record's keys, so keys seen only in later records are dropped |
| ClaimsExport.CommaInValueSplitsCell | apps/client/src/pages/AdminDashboard.tsx:150-152 | a value with a comma makes a line that naive comma splitting reads as two fields |
| ClaimsExport.WithoutColons | apps/client/src/pages/AdminDashboard.tsx:159 | the result holds no colon and is no longer than the input |
| ClaimsExport.WithoutColonsKeeps | apps/client/src/pages/AdminDashboard.tsx:159 | removing colons drops each colon and keeps the other characters in order |
| ClaimsExport.ExportFileName | apps/client/src/pages/AdminDashboard.tsx:159 | the file name holds no colon |
| ClaimsExport.ExportFileNameOfIso | apps/client/src/pages/AdminDashboard.tsx:159 | an ISO timestamp gives claims_export_ followed by date, T and time digits, then .csv |
| ClaimsExport.Export | apps/client/src/pages/AdminDashboard.tsx:144-159 | an empty view alerts "No claims to export." and downloads nothing; otherwise the view's CSV is offered under the timestamped name |
| JsValues.Get | apps/client/src/pages/AdminDashboard.tsx:14 | a property is undefined exactly when no field has the key, and otherwise is the value of a field with the key |
| JsValues.Keys | apps/client/src/pages/AdminDashboard.tsx:149 | the keys are the record's field names in order |
| JsValues.Truthy | apps/client/src/pages/AdminDashboard.tsx:25 | the falsy values are exactly undefined, null, false, 0 and the empty string |
| JsValues.ToNumber | apps/client/src/pages/AdminDashboard.tsx:14-20 | undefined is NaN, other non-strings are numbers that are 0 exactly when falsy, and "" is 0 |
| JsValues.StringToNumber | apps/client/src/pages/AdminDashboard.tsx:14-20 | "" is 0, a string of digits is the number it spells, and a text without digits is NaN |
| JsValues.DecimalTextToNumber | apps/client/src/pages/AdminDashboard.tsx:14 | a string of digits, with or without a minus sign, compares as the number it spells |
| JsValues.FractionTextToNumber | apps/client/src/pages/AdminDashboard.tsx:14 | "6.5" compares as 6.5 and "abc" as NaN |
| JsonText.EscapeChar | apps/client/src/pages/AdminDashboard.tsx:152 | an escaped character has no control characters, and is the character itself exactly when it needs no escape |
| JsonText.Quote | apps/client/src/pages/AdminDashboard.tsx:152 | a quoted string starts and ends with a double quote and has no control characters |
| JsonText.UnquoteQuote | apps/client/src/pages/AdminDashboard.tsx:152 | reading a quoted string back as JSON gives the original string |
| Sequences.SplitJoin | apps/client/src/pages/AdminDashboard.tsx:153 | joining parts free of the separator and splitting again gives the parts back |
| ClaimsTable.Stored | apps/server/routers/api.py:45-49 | a text that read_csv takes for NaN ("", "NA", "N/A", "null", "None", "nan" and the rest) is stored as NaN, the empty text included; every other cell is stored as it is |
| ClaimsTable.SaveAppendsOneRow | apps/server/routers/api.py:45-49 | a save keeps the file well formed and adds exactly one data line; a header is written only for a new file, and an existing header is kept |
| ClaimsTable.Save | apps/smart-claims-processor/app.py:75-81 | a new file gets the header and then the row; an existing file keeps all its lines and gains the row at the end; a well-formed file stays well formed |
| ClaimsTable.SaveAllHeaderOnce | apps/smart-claims-processor/app.py:75-81 | after any number of saves the file has one header, first, and one row per save |
| ClaimsTable.FilledJson | apps/server/routers/api.py:18 | a NaN cell is listed as "" and every cell as a string or a number |
| ClaimsTable.FilledStored | apps/server/routers/api.py:17-18 | a written cell lists back as its value with NA texts turned into "" |
| ClaimsTable.RecordOf | apps/server/routers/api.py:18 | a listed record has the header's keys, each with its filled-in cell |
| ClaimsTable.RecordOfStored | apps/server/routers/api.py:17-18 | a row written and read back lists as the record of the row with every NA text turned into "" |
| ClaimsTable.Listed | apps/server/routers/api.py:17-18 | the listing has one record per data line, in file order |
| ClaimsTable.ListedAfterSave | apps/server/routers/api.py:45-49 | after a save the listing is the old listing plus the saved record |
| ClaimsApi.ClaimCells | apps/server/routers/api.py:29-43 | the saved row copies the request's id, description, amount and tenure and has Status "Pending Review" |
| ClaimsApi.ClaimRecord | apps/server/routers/api.py:29-43 | the returned record has the thirteen claim columns as keys, in order |
| ClaimsApi.ListedAsReturned | apps/server/routers/api.py:29-51 | a saved claim is listed back as the record the submission returned, with any NA text listed as "" |
| ClaimsApi.PlainClaimListsAsReturned | apps/server/routers/api.py:29-51 | a claim without NA texts is listed back as exactly the returned record |
| ClaimsApi.NaDescriptionListsEmpty | apps/server/routers/api.py:29-51 | a description "N/A" is listed back as "" |
| ClaimsApi.SavedClaimListed | apps/server/routers/api.py:45-51 | after a save the listing is the old listing followed by the returned record as the file gives it back |
| ClaimsApi.CsvNameSuffix | apps/server/routers/api.py:55 | a name passes exactly when it ends in ".csv", case-sensitively |
| ClaimsApi.SaveKeepsServerFile | apps/server/routers/api.py:45-49 | appending a submitted claim keeps the file's header and row layout |
| ClaimsApi.Unmatched | apps/server/routers/api.py:89-94 | every kept row is in the server's layout and does not match both the id and the timestamp as strings |
| ClaimsApi.UnmatchedMultiplicity | apps/server/routers/api.py:89-94 | every copy of a matching row goes and every copy of any other row stays |
| ClaimsApi.UnmatchedKeepsOrder | apps/server/routers/api.py:94 | with no match the rows are kept exactly, in order |
| ClaimsApi.UnmatchedInOrder | apps/server/routers/api.py:89-94 | the surviving rows are the old rows at exactly the non-matching positions, in their original order |
| ClaimsApi.NaCustomerIdNeverMatches | apps/server/routers/api.py:79-89 | a claim saved with customer id "NA" reads back with a NaN id, whose string "nan" never equals "NA" |
| ClaimsApi.ClaimsServer.constructor | apps/server/routers/api.py:14-19 | a server starts from a claims file in its layout, or none, and the persisted model's meta, and is valid |
| ClaimsApi.ClaimsServer.GetClaims | apps/server/routers/api.py:14-19 | no file lists nothing; otherwise one record per row in order, keyed by the columns, NaN filled as "" |
| ClaimsApi.ClaimsServer.GetModelStatus | apps/server/routers/api.py:70-75 | active exactly when a model loads, with its meta; otherwise no meta |
| ClaimsApi.ClaimsServer.SubmitClaim | apps/server/routers/api.py:21-51 | no model gives 503 and leaves the file alone; otherwise one row is appended, the header written only for a new file, and the listing grows by exactly the returned record as the file gives it back |
| ClaimsApi.ClaimsServer.TrainModel | apps/server/routers/api.py:53-68 | a non-.csv name gives 400 first; undecodable bytes give a bare 500; a failure gives 500 with its text; success installs and returns the meta |
| ClaimsApi.ClaimsServer.DeleteClaim | apps/server/routers/api.py:77-99 | no file gives 404; no match gives the 500 "Error deleting claim: 404: Claim not found" and no change; otherwise exactly the unmatched rows remain, in order |
| ClaimsProcessor.Lower | apps/smart-claims-processor/app.py:94 | lower-casing maps each character and keeps the length |
| ClaimsProcessor.LowerIdempotent | apps/smart-claims-processor/app.py:94 | lower-casing twice is lower-casing once |
| ClaimsProcessor.OccursAt | apps/smart-claims-processor/app.py:94 | `k in s` holds exactly when some slice of s equals k |
| ClaimsProcessor.Urgency | apps/smart-claims-processor/app.py:92-95 | the urgency is "High" or "Medium" |
| ClaimsProcessor.UrgencyHighIff | apps/smart-claims-processor/app.py:92-95 | the urgency is "High" exactly when some keyword is a slice of the lower-cased description |
| ClaimsProcessor.UrgencyIgnoresCase | apps/smart-claims-processor/app.py:94 | the urgency of a description and of its lower-cased form agree |
| ClaimsProcessor.UrgencyExamples | apps/smart-claims-processor/app.py:92-95 | "painting" is urgent because it contains "pain", and "CRASH" is urgent because the text is lower-cased first |
| ClaimsProcessor.UrgencyMedium | apps/smart-claims-processor/app.py:92-95 | "Lost" contains no keyword and is of medium urgency |
| ClaimsProcessor.FraudRisk | apps/smart-claims-processor/app.py:98-107 | no detector gives ("Unknown", 0.0); with one the label is "High" iff the prediction is -1, else "Low", and the score is the decision value |
| ClaimsProcessor.TrainSystem | apps/smart-claims-processor/app.py:41-73 | a missing Description or Policy_Type fails with the quoted column name; fraud detection exists iff Amount and Customer_Tenure both exist; the meta counts the rows |
| ClaimsProcessor.NoNumericColumnsNoFraudLabel | apps/smart-claims-processor/app.py:59-64 | a model trained without Amount labels every claim "Unknown" |
| ClaimsProcessor.SaveKeepsAppFile | apps/smart-claims-processor/app.py:75-81 | saving a row of the app's width keeps the app's header and row layout |
| ClaimsProcessor.SubmissionCells | apps/smart-claims-processor/app.py:214-228 | the saved row holds the description, predicted category, urgency, fraud label and "Pending Review" |
| ClaimsProcessor.ValidSubmission | apps/smart-claims-processor/app.py:208 | a form is rejected exactly when the description is empty or the amount is not positive |
| ClaimsProcessor.ReceiptNote | apps/smart-claims-processor/app.py:240-243 | the receipt asks for verification exactly when the risk is "High" |
| ClaimsProcessor.Unique | apps/smart-claims-processor/app.py:164 | the distinct values are exactly the column's values, each once |
| ClaimsProcessor.Column | apps/smart-claims-processor/app.py:164 | a column holds each row's cell at that position |
| ClaimsProcessor.RowsWhere | apps/smart-claims-processor/app.py:166 | every kept row has the value in the column and every row with it is kept, with NaN equal to nothing |
| ClaimsProcessor.RowsWhereInOrder | apps/smart-claims-processor/app.py:166 | the filtered table is the table at exactly the matching positions, in table order |
| ClaimsProcessor.RowsWhereMultiplicity | apps/smart-claims-processor/app.py:166 | every copy of a matching row is kept and no copy of any other |
| ClaimsProcessor.RowsWhereCount | apps/smart-claims-processor/app.py:176-179 | the filtered table has as many rows as there are matching positions |
| ClaimsProcessor.RowsWhereChoice | apps/smart-claims-processor/app.py:164-166 | a category some row has shows at least one row; choosing NaN shows none |
| ClaimsProcessor.ReviewStats | apps/smart-claims-processor/app.py:172-180 | the counts are the number of rows, of rows whose Fraud_Risk is "High" and of rows whose Urgency is "High" |
| ClaimsProcessor.ClaimsApp.constructor | apps/smart-claims-processor/app.py:75-81 | the app starts from its own claims file, or none, and the persisted model, with no notices, and is valid |
| ClaimsProcessor.ClaimsApp.Train | apps/smart-claims-processor/app.py:135-147 | a failure reports "Training Failed: ..." and keeps the old model; a success saves the new one and reports the record count and time, after the warning when fraud detection is off |
| ClaimsProcessor.ClaimsApp.SubmitForm | apps/smart-claims-processor/app.py:189-243 | no model shows the maintenance error and no form; an invalid form shows the warning and saves nothing; otherwise exactly one analysed row is saved, the success message shows, and the receipt asks for verification iff the risk is "High" |
| ClaimsProcessor.ClaimsApp.CategoryOptions | apps/smart-claims-processor/app.py:164 | "All" first, then each category of the file exactly once |
| ClaimsProcessor.ClaimsApp.Shown | apps/smart-claims-processor/app.py:165-166 | "All" shows every row; any other choice shows the rows at exactly the positions whose category equals it, in file order |
| ClaimsProcessor.ClaimsApp.ShownStats | apps/smart-claims-processor/app.py:172-180 | on the filtered table: its rows, its rows with Fraud_Risk "High" and its rows with Urgency "High" |
| Navbar.InitialTheme | apps/client/src/components/Navbar.tsx:4 | a non-empty stored theme is used, otherwise "light" |
| Navbar.Toggled | apps/client/src/components/Navbar.tsx:11-13 | the toggle yields "dark" exactly from "light", and "light" from anything else |
| Navbar.ToggleTwice | apps/client/src/components/Navbar.tsx:12 | two toggles restore a theme exactly when it is "light" or "dark" |
| Navbar.ToggleUnknownTheme | apps/client/src/components/Navbar.tsx:12 | "blue" becomes "light" and then "dark" |
| Navbar.ToggleIcon | apps/client/src/components/Navbar.tsx:32 | the moon shows exactly for "light" |
| Navbar.ThemeSwitch.constructor | apps/client/src/components/Navbar.tsx:4-9 | the initial theme comes from storage and is written back to storage and the document |
| Navbar.ThemeSwitch.Sync | apps/client/src/components/Navbar.tsx:6-9 | storage and the document attribute both equal the theme |
| Navbar.ThemeSwitch.Toggle | apps/client/src/components/Navbar.tsx:11-13 | the theme toggles, and storage and the document follow it |

## Left out

- HTTP, fetch, FastAPI routing, Streamlit widgets and all rendering. The claim-detail modal, styling, `time.sleep`, `hash(description)`, `st.json`/`st.dataframe` display and the 4-decimal anomaly formatting are not modelled. Server answers and fetched data are method parameters.
- Asynchrony: fetch answers are taken to arrive before the next user action. Interleavings, stale answers and unmounting are not modelled.
- Machine learning is not modelled. The fitted classifier, the isolation forest, the server's `analyze_claim` and `train_system_logic`, and joblib persistence are parameters: a category function, a detector returning -1 or 1, an `Analysis` value, and a training outcome.
- The clock is a parameter: the current timestamp and ISO time are passed in as strings.
- ClaimsExport.Cell: the digits of a number come from a parameter, because JavaScript's shortest round-trip number formatting is not modelled. The parameter is only constrained to number characters.
- JsValues.StringToNumber: handles an optional sign, digits and one decimal point. Whitespace, exponents, hexadecimal, `Infinity` and the like are treated as NaN, unlike JavaScript.
- ClaimTriage.RankKey: a truthy rank that converts to NaN sorts as 0. JavaScript's comparator would return NaN, which leaves the order implementation-defined.
- JsValues.Keys: records are ordered field lists. JavaScript's rule that integer-like keys come first in `Object.keys` is not modelled.
- ClaimsTable: pandas text rendering is not modelled, in particular number formatting and CSV quoting on write.
- ClaimsTable.Stored: pandas' NA texts are modelled as read back as NaN, and the listing and delete follow from that. Type inference on other texts is not: a Customer_ID like "007" would read back as the number 7, while the model keeps it as text.
- JsValues.Get: takes the first field with a key. The records come from pandas rows, whose column names are distinct, so no record has a key twice. A JSON object with a repeated key, where `JSON.parse` keeps the last value, is not modelled.
- Numbers are exact reals. IEEE-754 rounding is not modelled: a score written as 3.0000000000000001 is the double 3 in JavaScript, so it passes `<= 3`, while the model compares the exact value and finds it above 3.
- ClaimsProcessor.Lower: lower-cases ASCII letters only. Python's `str.lower` covers all of Unicode.
- ClaimsProcessor.TrainSystem: only the column errors are modelled. Other fitting failures (for example an empty frame) are not. A CSV parse error raised before the try block in the Streamlit page is not modelled.
- ClaimsApi.ClaimsServer.TrainModel: the uploaded content is reduced to whether it decodes as UTF-8. A failure while saving the model is part of the training outcome.
- ClaimsApi.ClaimsServer.DeleteClaim: the detail of the 500 assumes the 404's string form is "404: Claim not found". Failures while reading or writing the file are not modelled.
- ClaimsApi.ClaimsServer.SubmitClaim: the analysis values are a parameter, because the server's `analyze_claim` is not part of this model.
- apps/client/src/components/ClaimForm.tsx is not part of this model: it only coerces form fields with `parseFloat`/`parseInt` and keeps a submitting flag.
