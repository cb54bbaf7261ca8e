# Job Offer Viewer — catalog model

The Job Offer Viewer is a desktop application. It loads a JSON array of job-offer
records and shows one record at a time: title, company, salary, description and
an "Apply Now" button. The user pages through the records with Previous and Next,
and narrows them with a keyword search. Almost all of the program is widget
wiring. Its logic is a small catalog held by the main window:

- `job_data`: every loaded record.
- `filtered_data`: the records the search lets through, in their original order.
- `current_index`: the cursor into `filtered_data`, or -1 when that is empty.

This project models that catalog and the values the window derives from it.

- `Wrappers` (`wrappers.dfy`) defines `Option`.
- `Text` (`text.dfy`) models the string operations the search uses.
  - Lower-casing is ASCII-only.
  - Python's `needle in hay` becomes `Contains`, proved equal to "occurs at some position".
- `Jobs` (`jobs.dfy`) covers records and the search.
  - A record is a `map<string, string>`.
  - `Matches` is the search predicate; a missing field reads as `""`.
  - `Filter` is the list comprehension of `apply_filter`. It is characterised exactly: it is an order-preserving subsequence that keeps every copy of each matching record and nothing else, and it is the only such sequence.
- `View` (`view.dfy`) covers what `update_display`, `toggle_navigation` and `open_job_link` compute from the state:
  - the display texts and their defaults;
  - salary-label and apply-button visibility;
  - the progress value and maximum;
  - the Previous/Next enabled flags;
  - the URL that would be opened, if any.
- `Catalog` (`catalog.dfy`) holds the class `JobViewer` with the three fields and the operations that change them:
  - `Load` (the validation and reset of `load_json`);
  - `ApplyFilter`, `NextJob` and `PrevJob`;
  - `OpenJobLink`, which only reads.
  - `Valid()` is the class invariant: `-1 <= currentIndex < |filteredData|`, `currentIndex == -1` exactly when `filteredData` is empty, and `filteredData` is a subsequence of `jobData`. Every method keeps it.
  - `Walkthrough` steps through two records: load, search "Cook", Next, then clear the search.

The button that opens a link is shown when a record has the key `Link`
(JobViewerApp.py:298). The click handler reads the key `link` (JobViewerApp.py:325).
The model keeps this mismatch as written. `View.ApplyButtonOpensNothing` shows a
record for which the button is visible but nothing is opened.

The search, Previous and Next handlers return nothing (JobViewerApp.py:267-320),
so `ApplyFilter`, `NextJob` and `PrevJob` return nothing either. The salary-label
and apply-button visibility right after a load is covered under Findings.

## Model

| member | source | states |
|---|---|---|
| `Catalog.JobViewer.constructor` | JobViewerApp.py:24-28 | At start-up no records are loaded, the view is empty, the cursor is -1, and the invariant holds |
| `Catalog.JobViewer.Load` | JobViewerApp.py:237-249 | For inputs whose array elements are records: a cancelled dialog, an unreadable file, invalid JSON, a non-array and an empty array each give their own outcome and leave all three fields unchanged. A non-empty array becomes both the records and the view, the cursor moves to 0, and the count is reported. The current search text is not re-applied. The invariant is kept |
| `Catalog.JobViewer.ApplyFilter` | JobViewerApp.py:267-280 | The view becomes the records matching the lower-cased query; both branches, the empty-query copy and the comprehension, give this. The records are untouched. The cursor is 0 for a non-empty view and -1 otherwise. The invariant is kept |
| `Catalog.JobViewer.NextJob` | JobViewerApp.py:308-310 | The cursor advances by one only when it is before the last record, and otherwise stays. Records and view are untouched. The invariant is kept |
| `Catalog.JobViewer.PrevJob` | JobViewerApp.py:315-317 | The cursor goes back by one only when it is past the first record, and otherwise stays. Records and view are untouched. The invariant is kept |
| `Catalog.JobViewer.OpenJobLink` | JobViewerApp.py:322-326 | The URL handed to the OS is exactly `LinkToOpen` of the current view and cursor |
| `Catalog.NextIndex` | JobViewerApp.py:309-310 | One forward step or none. The step happens iff the cursor is before the last position. A valid cursor stays valid |
| `Catalog.PrevIndex` | JobViewerApp.py:316-317 | One backward step or none. The step happens iff the cursor is past 0. A valid cursor stays valid for every view size |
| `Catalog.NextTimesClamps` | JobViewerApp.py:308-310 | k presses of Next from position i reach min(i + k, last): there is no wrap-around, and the cursor rests on the last record |
| `Catalog.PrevTimesClamps` | JobViewerApp.py:315-317 | k presses of Previous from position i reach max(i - k, 0): there is no wrap-around, and the cursor rests on the first record |
| `Catalog.ButtonsMatchMoves` | JobViewerApp.py:305-317 | With navigation enabled and a valid cursor, Next is enabled iff Next would move the cursor. The same holds for Previous |
| `Catalog.FilterButtonsAgree` | JobViewerApp.py:280-282 | After a filter, the buttons set with "enabled = view non-empty" equal those set by the following display refresh. Both are disabled when nothing matched |
| `View.Navigation` | JobViewerApp.py:304-306 | Disabled navigation disables both buttons. Previous is enabled only past position 0, and Next only before the last position |
| `View.Render` | JobViewerApp.py:285-300 | Nothing is rendered iff the view is empty or the cursor is negative. Otherwise the salary is shown iff it is present and non-empty, and the apply button is visible iff key `Link` is present. The progress maximum is the view size and the progress value is cursor + 1, which lies between 1 and that maximum |
| `View.DisplayDefaults` | JobViewerApp.py:290-297 | A missing title, company or description falls back to "No title", "Company: Not specified" and "No description available". A present field, even an empty one, is shown as it is. A shown salary is prefixed "SalaryOrBudgetOffered: " |
| `View.LinkToOpen` | JobViewerApp.py:322-326 | A URL is produced iff the cursor is in range and the current record has a non-empty lower-case `link`. That value is the URL |
| `View.ApplyButtonOpensNothing` | JobViewerApp.py:323-325 | A record with only `Link` shows the apply button, but clicking it opens nothing, because the click handler reads `link` |
| `View.VisibilityAfterLoadAsWritten` | JobViewerApp.py:250-255 | After a successful load, the salary label and the apply button are both visible, whatever the first record holds |
| `View.AfterLoadShowsAbsentFields` | JobViewerApp.py:250-255 | A first record with no salary and no `Link` still shows the salary label and the apply button right after a load |
| `View.VisibilityAfterLoad` | JobViewerApp.py:292-298 | Corrected: after a load, the salary label is visible iff the first record has a non-empty salary, and the apply button iff it has `Link` |
| `Jobs.Filter` | JobViewerApp.py:272-278 | The result is no longer than the records, and every record in it matches |
| `Jobs.FilterMembership` | JobViewerApp.py:272-278 | A record is in the result iff it is among the loaded records and matches the search text |
| `Jobs.FilterIsSubsequence` | JobViewerApp.py:272-278 | The result is an order-preserving subsequence of the loaded records |
| `Jobs.FilterKeepsExactlyMatching` | JobViewerApp.py:272-278 | Each matching record appears as often as among the loaded records; a non-matching record does not appear |
| `Jobs.FilterUnique` | JobViewerApp.py:272-278 | Any order-preserving subsequence that keeps exactly the matching records equals the filter result, so the two lemmas above characterise it fully |
| `Jobs.FilterIdempotent` | JobViewerApp.py:272-278 | Filtering the result again with the same text gives the same result |
| `Jobs.FilterEmptyText` | JobViewerApp.py:269-270 | The empty search text keeps every record, so the source's shortcut for an empty query agrees with the comprehension |
| `Jobs.CaseInsensitiveHit` | JobViewerApp.py:268-277 | A query that equals, up to letter case, some window of one of the four searched fields matches once lower-cased |
| `Jobs.LowerQueryFindsUpperTitle` | JobViewerApp.py:268-274 | The query "cook" finds a record whose title is "COOK" |
| `Jobs.QueryCaseIrrelevant` | JobViewerApp.py:268-278 | Two queries that differ only in letter case select exactly the same records |
| `Jobs.RecordCaseIrrelevant` | JobViewerApp.py:274-277 | Two records whose four searched fields differ only in letter case match exactly the same search texts |
| `Jobs.SubsequenceReflexive` | JobViewerApp.py:247-248 | The records are a subsequence of themselves, which is what a load installs as the view |
| `Jobs.SubsequenceMultiset` | JobViewerApp.py:272-278 | A subsequence never holds more copies of a record than the sequence it is taken from |
| `Text.LowerChar` | JobViewerApp.py:268 | An upper-case ASCII letter becomes its lower-case letter (code + 32), and every other character is unchanged, so no upper-case letter remains |
| `Text.SameIgnoringCaseIff` | JobViewerApp.py:268-277 | Two strings lower-case to the same string iff they are equal character by character up to ASCII letter case |
| `Text.LowerIdempotent` | JobViewerApp.py:268 | Lower-casing twice is the same as lower-casing once |
| `Text.LowerSlice` | JobViewerApp.py:274-277 | Lower-casing commutes with taking a slice |
| `Text.ContainsIff` | JobViewerApp.py:274-277 | `Contains` (Python's `in` on strings) holds iff the needle occurs at some position of the text |
| `Text.ContainsLower` | JobViewerApp.py:274-277 | A needle found in the text is also found once both are lower-cased |
| `Catalog.LongerNeverContained` | JobViewerApp.py:274-277 | Helper for the walkthrough example: a needle longer than the text is never found |
| `Catalog.FirstCharAbsent` | JobViewerApp.py:274-277 | Helper for the walkthrough example: a non-empty needle whose first character the text lacks is never found |

## Left out

- The file dialog, opening the file and JSON parsing (JobViewerApp.py:234-239) are not modelled. `Load` receives their result as a `Parsed` value: cancelled, unreadable, malformed, not an array, or an array of records.
- Message boxes, the status-bar message and the log viewer (JobViewerApp.py:227-229, 257-265, 283, 313, 320, 327) only inform the user. The model keeps only the load outcome.
- `QDesktopServices.openUrl` is an operating-system call. The model decides only which URL, if any, would be opened.
- Window construction, layout and style sheets (JobViewerApp.py:32-225) have no behaviour to verify. The application bootstrap (JobViewerApp.py:329-333) is left out as well.
- The window title (JobViewerApp.py:301) is not modelled as text. It shows the same two numbers as the progress bar, which `Render` does model.
- Widget contents are not state in the model. When `update_display` returns early, the widgets keep showing the previous record; `Render` returns `None` there and does not say what stays on screen. Placeholder visibility is not modelled either.
- `Text.Lower` models Python's `str.lower()` for ASCII only. Unicode case mapping is not modelled.
- Records are maps from strings to strings. Non-object array elements and non-string field values are outside the model. The program treats them differently:
  - A non-object element fails at `.get()` when it is searched (JobViewerApp.py:274) or displayed (JobViewerApp.py:290).
  - A non-string title or description in the first record fails in `setText` during a load (JobViewerApp.py:290, 297). Lines 263-265 then report a failed load, although lines 247-249 have already replaced all three fields; this is the effect described for `[1]` below.
  - A non-string salary or company is displayed without error (JobViewerApp.py:291-293).
  - In the search, `.lower()` on a non-string value fails only when it is reached, that is when none of the fields tested before it in the `or` chain matched (JobViewerApp.py:274-277).
- `Catalog.JobViewer.Load` promises "a failure leaves the catalog unchanged" only for arrays of records. The program accepts an array whose first element is not an object, such as `[1]`: the checks at JobViewerApp.py:241-245 pass and lines 247-249 replace all three fields. `update_display` then fails at line 290, and lines 263-265 report "Failed to load file". The program therefore reports a failed load but keeps the new catalog. The model cannot express this, because its array elements are always records.
- The program stores the parsed list itself as `job_data` and stores copies as `filtered_data`. Nothing mutates either list afterwards, so the model keeps values and no sharing.

## Findings

| source | as written | input that shows it | evidently intended | confidence | as-written member | corrected member |
|---|---|---|---|---|---|---|
| JobViewerApp.py:250-255 | `update_display` sets the salary label's and apply button's visibility from the first record, then the load handler makes every detail widget visible, overriding both | load `[{"JobOfferTitle": "Cook"}]`: the salary label shows (with empty or stale text) and the apply button shows, though the record has neither salary nor `Link` | salary label visible iff the salary is present and non-empty, apply button visible iff `Link` is present, as on every later display | not executed; high | `View.VisibilityAfterLoadAsWritten` (exhibited by `View.AfterLoadShowsAbsentFields`) | `View.VisibilityAfterLoad` |
