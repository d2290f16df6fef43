# Receipt OCR expense tracker: a Dafny model of its record logic

`app.py` is a Streamlit page. The user uploads a photo of a 7-Eleven receipt, a
Gemini model reads it and returns a JSON list of line items, and the user
corrects that table and saves it into a running ledger held in the session.
The page then charts spending per day and per category. This project models
the deterministic part of that pipeline and proves properties of it:

- cleaning the model's reply of code fences (`text.dfy`, `extraction.dfy`);
- defaulting and parsing the Timestamp column (`extraction.dfy`);
- merging a corrected batch into the ledger with `drop_duplicates()`
  (`distinct.dfy`, `ledger.dfy`);
- the session store with its ledger and pending-scan slots, which are
  updated in place (`session.dfy`, a `Session` class);
- the category view with its keyword filter and grand total, and the daily
  time series (`grouping.dfy`, `summary.dfy`).

A line item is `Records.Row<T>` with the five columns Timestamp, Item,
Category, Price and Size. Each cell is an `Option`, where `None` is a
missing key or a null. `T` is the type of the Timestamp cell: text as
parsed from the JSON, `DateTime` once `pd.to_datetime` has run. A Price is a
`Scalar`: a number in minor currency units (satang, not floating-point
baht) or a piece of text. The remote model call, `json.loads` together with
`pd.DataFrame`, `pd.to_datetime` on one cell, and `pd.to_numeric` on a text
cell are function parameters. The clock is the parameter `now`.

Behaviours of the code that are easy to miss, and that the model keeps:

- Line 86 stores the extraction result even when it is `None`. A failed
  scan therefore also discards an earlier pending scan.
- `groupby("Category")` drops rows whose Category is null. Such rows count
  neither in a category nor in the grand total.
- The daily series (line 110) groups on `.dt.date`, so rows whose timestamp
  did not parse (NaT) are in no bucket. It sums the raw Price column, not
  the coerced one.
- When line 110 raises, the run ends there, so neither the category view
  nor the grand total (lines 118-146) is computed.
- An exception in `genai.configure` or `GenerativeModel` (lines 40-41,
  outside the `try`) ends the run before line 86 assigns, so the earlier
  pending scan survives.

## Model

| member | source | states |
|---|---|---|
| `Text.Contains` | app.py:131 | `p in s` holds exactly when `p` starts at some index of `s` |
| `Text.RemoveAllNoMatch` | app.py:51 | `replace(p, '')` leaves a string in which `p` does not occur unchanged |
| `Text.RemoveAllAbsent` | app.py:51 | `replace(p, '')` leaves a string unchanged when the first character of `p` never occurs in it |
| `Text.RemoveAllSkip` | app.py:51 | a prefix without the first character of `p` is copied through, and the removal continues after it |
| `Text.RemoveAllLead` | app.py:51 | an occurrence of `p` at the start is removed, and the removal continues after it |
| `Text.RemoveAllFenceLeavesNone` | app.py:51 | after `replace('```', '')` no triple backtick is left anywhere in the string |
| `Text.LeadingSpaces` | app.py:51 | the count that `lstrip()` cuts: all whitespace, and the next character, if any, is not whitespace |
| `Text.TrailingSpaces` | app.py:51 | the count that `rstrip()` cuts: all whitespace, and the character before it, if any, is not whitespace |
| `Text.Strip` | app.py:51 | the result is the slice after the leading whitespace; everything cut on either side is whitespace (Python's `str.isspace`); the result neither starts nor ends with whitespace |
| `Text.StrippedAtUnique` | app.py:51 | there is only one such slice, so the strip is fully determined |
| `Text.StripIs` | app.py:51 | any slice meeting the strip conditions is what `Strip` returns |
| `Text.StripUnchanged` | app.py:51 | a string without outer whitespace is its own strip |
| `Text.StripPadded` | app.py:51 | whitespace added on either side does not change the strip |
| `Extraction.CleanReply` | app.py:51 | the cleaned reply contains neither ```` ``` ```` nor ```` ```json ````; a reply without backticks and without outer whitespace comes back unchanged |
| `Extraction.CleanReplyFenced` | app.py:51 | a reply of the form ```` ```json ```` + payload + ```` ``` ````, with whitespace around each fence and no backtick in the payload, is cleaned to the stripped payload |
| `Extraction.HasTimestampColumn` | app.py:56 | a column present means at least one record; a column missing means every row's Timestamp is null |
| `Extraction.StampAll` | app.py:56-57 | when the column is missing, every row gets `now`; nothing else changes |
| `Extraction.FillNullTimestamps` | app.py:59 | each null Timestamp becomes `now`; present ones and the other cells stay |
| `Extraction.StampAllIsFill` | app.py:56-59 | when the column is missing, stamping every row gives the same table as filling the nulls, so the branch at line 56 does not change the outcome |
| `Extraction.DefaultTimestamps` | app.py:55-59 | on both paths of line 56, each row keeps its own Timestamp or else gets `now`; Item, Category, Price, Size and the row count are unchanged |
| `Extraction.ParseTimestamps` | app.py:60 | each Timestamp goes through `to_datetime`, and text that does not parse becomes NaT (None); the other cells and the row count are unchanged |
| `Extraction.Extract` | app.py:34-65 | the extraction succeeds exactly when the API key is set and non-empty, the remote call returned, and the cleaned reply parses; the result then has one row per parsed record, whose Timestamp is the record's own or else `now`, passed through `to_datetime`, and whose other cells are the record's |
| `Distinct.FirstIndex` | app.py:98 | the index of the first occurrence: the element is there, and nowhere before it |
| `Distinct.Dedup` | app.py:98 | `drop_duplicates()`: no two equal rows, the same rows as the input, in the order of their first occurrences |
| `Distinct.DedupUnique` | app.py:98 | that contract determines the result: any sequence meeting it equals `Dedup` |
| `Ledger.Merge` | app.py:98 | the merged ledger has no duplicate rows; its rows are exactly those of the ledger and the batch, ordered by first occurrence in the concatenation |
| `Ledger.MergeIsFirstOccurrences` | app.py:98 | any sequence in first-occurrence order of ledger ++ batch is the merge |
| `Ledger.MergeKeepsLedger` | app.py:98 | a duplicate-free ledger is a prefix of the merge result |
| `Ledger.MergeEmptyBatch` | app.py:98 | merging an empty batch leaves a duplicate-free ledger unchanged |
| `Ledger.MergeIdempotent` | app.py:98 | merging the same batch a second time changes nothing |
| `Ledger.MergeSequential` | app.py:98 | merging batch 1, then batch 2, equals one merge of batch 1 ++ batch 2 |
| `Ledger.MergeOccursOnce` | app.py:98 | a row from the ledger or the batch occurs in the merge exactly once |
| `Ledger.SameRowTwice` | app.py:98 | a row present in two batches saved one after the other is in the ledger exactly once |
| `SessionStore.Session.constructor` | app.py:22-31 | a new session has no ledger and no pending scan |
| `SessionStore.Session.Initialize` | app.py:30-31 | creates an empty ledger only when none exists; the pending scan is untouched |
| `SessionStore.Session.Scan` | app.py:86 | the pending scan becomes the extraction result, including a failure (None), unless the key is set and the client set-up of lines 40-41 raises, which ends the run and leaves the old pending scan; the ledger is unchanged |
| `SessionStore.Session.Save` | app.py:97-100 | the ledger becomes the merge of the old ledger with the edited table; the old ledger stays a prefix; the pending scan is cleared; the ledger stays duplicate-free |
| `SessionStore.Session.Reset` | app.py:22-23 | clearing the session leaves no ledger and no pending scan |
| `SessionStore.HardResetAndRerun` | app.py:22-31 | a hard reset followed by the rerun's initialisation gives an empty ledger and no pending scan |
| `Grouping.Keys` | app.py:134 | the group keys are listed without repetition |
| `Grouping.KeysMembers` | app.py:134 | a key is a group exactly when some entry carries it; null keys form no group |
| `Grouping.GroupBy` | app.py:110 | every key of the grouped view is carried by an entry, and its value is the sum of that key's amounts |
| `Grouping.GroupByCovers` | app.py:110 | every non-null key of the entries appears in the grouped view |
| `Grouping.SumOfGroups` | app.py:145 | the group values, each key once, add up to the sum over all entries with a key |
| `Grouping.GroupByTotal` | app.py:145 | the values of the grouped map add up to the sum over all entries with a key: no entry is counted twice or lost |
| `Summary.KeywordsAreLiteral` | app.py:126-131 | there are 11 keywords and none has a regex metacharacter, so the joined pattern matches where a keyword occurs as a substring |
| `Summary.MentionsKeyword` | app.py:131 | the alternation matches an Item exactly when one of the keywords starts at some index of it (case-sensitive) |
| `Summary.Excluded` | app.py:131 | a null Item is never masked (`na=False`) |
| `Summary.ItemsOnly` | app.py:131-132 | a row is kept exactly when it is in the ledger and is not excluded |
| `Summary.CoercePrice` | app.py:123 | a null price counts 0, a number counts as itself, a text price counts as its parsed value, or 0 when it does not parse |
| `Summary.CategoryEntries` | app.py:123 | one entry per row, keyed by its Category, whose amount is the coerced price in each of the null, number and text cases |
| `Summary.CategoryValue` | app.py:134 | the group of category `c` is the sum of the coerced prices of the kept rows whose Category is exactly `c` |
| `Summary.KeptKeys` | app.py:131-134 | the grouped entries carry category `c` exactly when some kept row has that category |
| `Summary.CategorySummary` | app.py:122-134 | a category is in the summary exactly when a kept row has it, and its value is the coerced spend of the kept rows of that category |
| `Summary.TotalSpent` | app.py:145 | the grand total is the sum of the category values, and equals the coerced prices summed over the kept rows that have a Category |
| `Summary.DateOf` | app.py:109 | the calendar date of a parsed timestamp, with the time of day dropped; none for NaT |
| `Summary.DailyEntries` | app.py:108-110 | one entry per row, keyed by its date (none for NaT), with a numeric price as itself and a null as 0 |
| `Summary.DailySpend` | app.py:110 | the daily series can be computed exactly when no row with a parsed timestamp has a text Price |
| `Summary.DayValue` | app.py:110 | each date's group is the sum of the prices of the rows on that date |
| `Summary.DailySpendValues` | app.py:108-110 | a date is in the series exactly when some row's timestamp falls on it, and its value is that day's spend |
| `Summary.DailySpendTotal` | app.py:108-110 | the values of the daily series add up to the prices of all rows whose timestamp parsed |
| `Summary.Dashboard` | app.py:104-146 | nothing is drawn for an empty ledger; in the model, the run raises at line 110 exactly when a dated row has a text price, and then no category view follows; otherwise it shows the daily series, the category view and the total, with the values above |
| `Summary.ViewsAgree` | app.py:110-145 | for dated, categorised item rows with numeric prices, the grand total equals the sum of the daily series |
| `Summary.ExcludedLineIgnored` | app.py:131-145 | adding a summary line to the ledger changes neither the category view nor the total |
| `Summary.OneItem` | app.py:122-145 | a ledger of one kept item with a category gives a one-entry category view holding its coerced price, and that price is the total |
| `Summary.SummaryLineScenario` | app.py:122-145 | an item ("Chips", 40 baht) followed by the receipt's grand-total line ("ยอดรวม", 500 baht) gives the single category "Snacks" holding 40 baht, and 40 baht is the total |

## Left out

- The Streamlit layout: buttons, spinners, `st.error`/`st.success`, the
  editor widget and the charts and tables (lines 18-27, 68-101, 104-146)
  are UI. `st.data_editor` is called without `num_rows` (lines 91-95), so
  the user edits cells while the row count stays fixed, and column types
  limit what a cell holds. `Save` takes any table as the edited one, which
  covers every such edit.
- The history sort at line 115 only orders a display.
- Loading `.env` (line 14) and reading the API key (line 35) are I/O. The
  key is a parameter of `Extract`, and a missing or empty key is its
  failure branch.
- The Gemini call, `PIL.Image.open` (lines 44-50) and the temp-file write
  (lines 83-84) are foreign calls and I/O. The reply is a parameter, and
  `None` stands for any exception raised inside the `try`. Whether the
  client set-up at lines 40-41 raises is the parameter `setupRaised` of
  `Scan`.
- `json.loads` with `pd.DataFrame` (lines 52-53), `pd.to_datetime` (line 60)
  and `pd.to_numeric` on text (line 123) are parameters. Their permissive
  parsing is not re-implemented.
- Extraction.ParseTimestamps: applies `to_datetime` cell by cell. pandas
  infers one format for the whole column, so the model does not capture a
  cell that parses alone but not in its column.
- Extraction.DefaultTimestamps: uses one `now`. Lines 57 and 59 each read
  the clock, so the two values could differ by a minute boundary.
- Summary.DailySpend: returns None when a row with a parsed timestamp has
  a text Price, and Dashboard then ends the run. pandas may instead join
  the strings when every price of a group is text; that outcome is not
  modelled.
- The views are maps with no order, and the grand total adds them up in
  first-occurrence order. pandas sorts the group keys, which only affects
  display.
- Floating-point prices and the `{:,.2f} THB` formatting (lines 145-146):
  prices are integers in minor units.
- `st.cache_data.clear()` (line 24) empties a library cache; this state is
  not part of the model.
- An Item that is not text (a number, say) gives NaN in `str.contains` and
  is kept. Item is modelled as text or null only.
- Text.RemoveAll: its own contract only bounds the length; what it
  removes is stated by the lemmas RemoveAllNoMatch, RemoveAllAbsent,
  RemoveAllSkip, RemoveAllLead and RemoveAllFenceLeavesNone.
- Extraction.Extract: `parseJson` yields rows of the five known keys with
  scalar cells. `pd.DataFrame` (line 53) keeps any further JSON key as an
  extra column, and `drop_duplicates()` (line 98) compares that column
  too, so two rows equal on the five cells but different in an extra one
  both stay in the ledger, while Merge keeps one. A list or object in a
  cell makes `drop_duplicates()` raise, which ends the run before line 100
  and leaves the ledger and the pending scan as they were; in the model
  Save always succeeds.
