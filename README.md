# Open pull request dashboard: a Dafny model

`streamlit_app.py` is a small dashboard. It makes one pass over the open pull
requests of a GitHub repository:

1. It fetches every open pull request from the paginated listing endpoint,
   100 per page. It stops at the first empty page and aborts on any non-200
   status.
2. For each pull request it builds a row of a records table. The row holds the
   id, title, author, assignee logins, requested-reviewer logins and the
   parsed creation time. The same loop counts how many pull requests carry
   each label.
3. It counts how often each assignee and each requested reviewer occurs over
   the rows.
4. It buckets the rows by creation month (`YYYY-MM`) and counts them in
   ascending month order. It also ranks the assignee, reviewer and label
   counts, highest count first.

The model keeps that structure, one module per concern:

| module | file | models |
|---|---|---|
| `Records` | records.dfy | the pull request fields the script reads |
| `Fetch` | fetch.dfy | `fetch_pull_requests`: the page loop, imperative, proved against `Outcome` |
| `Tallies` | tally.dfy | a Python dict used as a counter: the counting step and its fold |
| `Timestamps` | timestamps.dfy | `strptime` with `%Y-%m-%dT%H:%M:%SZ`, its inverse, and the month key |
| `StringOrder` | string_order.dfy | Python's ordering of `str` values, which orders the month index |
| `Ranking` | ranking.dfy | `sort_values(by="count", ascending=False)` and `sort_index()` |
| `Dashboard` | dashboard.dfy | the script body: the two counting loops, monthly counts, ranked tables, one full pass |

HTTP is replaced by a sequence of responses. `responses[p - 1]` is the answer
to the request for page `p`. Each counting loop is a method with loop
invariants. Each is proved equal to a fold, `TallyOf`, whose meaning is
proved separately: every key that occurs, with its number of occurrences, and
a total equal to the number of occurrences counted. The Python dict is a map
plus its insertion order, which is the order `DataFrame.from_dict` presents
before sorting.

## Model

| member | source | states |
|---|---|---|
| `Fetch.StopIndex` | streamlit_app.py:16-23 | the page where the loop stops is the first answer that is an error or an empty list; every earlier answer is a non-empty success |
| `Fetch.FetchPullRequests` | streamlit_app.py:11-28 | the loop returns exactly `Outcome`: the records of all pages before the first empty page, in order, or the failing status and its page number; it requests pages 1, 2, ... up to the stopping page, each with `per_page=100`, and no others |
| `Fetch.EndsAt` | streamlit_app.py:16-21 | once some answer is an error or an empty page, the loop ends |
| `Fetch.ErrorAborts` | streamlit_app.py:18-27 | a non-200 answer after successful non-empty pages aborts the whole fetch with that status and page; records already collected are discarded |
| `Fetch.EmptyPageCompletes` | streamlit_app.py:18-23 | an empty successful page ends the fetch with all earlier pages' records, as many as those pages hold together |
| `Fetch.ItemsLength` | streamlit_app.py:22 | `extend` keeps every record: the result is as long as all pages together |
| `Fetch.ItemsKeepsPageOrder` | streamlit_app.py:22 | record `i` of page `p` sits right after all records of earlier pages |
| `Tallies.Tally.Add` | streamlit_app.py:50-53 | the counting step: a known key's count goes up by one and the insertion order is unchanged; a new key starts at one and is appended to the insertion order; other keys are untouched; the dict invariant is kept |
| `Tallies.Tally.Entries` | streamlit_app.py:84 | the `(key, count)` rows of a dict: one per key, no key twice, each with its count |
| `Tallies.TallyOfCounts` | streamlit_app.py:48-53 | after counting a list, the keys are exactly the elements of the list and each count is that element's number of occurrences |
| `Tallies.AddTotal` | streamlit_app.py:50-53 | each counting step raises the total of all counts by exactly one |
| `Tallies.TallyOfTotal` | streamlit_app.py:48-53 | the counts of a list add up to its length |
| `Tallies.EntriesSize` | streamlit_app.py:84 | the table of a dict has one row per key |
| `StringOrder.LessIrreflexive` | streamlit_app.py:79 | no month string sorts before itself |
| `StringOrder.LessTransitive` | streamlit_app.py:79 | the string order is transitive |
| `StringOrder.LessTotal` | streamlit_app.py:79 | of two different strings, one sorts first |
| `StringOrder.LessConcat` | streamlit_app.py:79 | comparing two equal-length prefixes and then the rests is comparing the whole strings |
| `Timestamps.Parse` | streamlit_app.py:41 | an accepted timestamp has the `YYYY-MM-DDTHH:MM:SSZ` layout and is a real date and time |
| `Timestamps.DigitsAreDigits` | streamlit_app.py:41 | writing a number zero-padded produces only digits |
| `Timestamps.DigitsOfDecimalValue` | streamlit_app.py:41 | a digit field, read and written back at its width, is unchanged |
| `Timestamps.DecimalValueOfDigits` | streamlit_app.py:41 | a number that fits the width, written and read back, is unchanged |
| `Timestamps.FormatParse` | streamlit_app.py:41 | every accepted timestamp is the formatting of what was parsed from it |
| `Timestamps.ParseFormat` | streamlit_app.py:41 | every valid date and time, formatted, is parsed back to itself |
| `Timestamps.MonthKeyIsPrefix` | streamlit_app.py:78 | the month period of an accepted timestamp is its first seven characters |
| `Timestamps.DigitsOrder` | streamlit_app.py:79 | zero-padded digit strings of one width sort exactly as the numbers do |
| `Timestamps.MonthKeyChronological` | streamlit_app.py:78-79 | one month key sorts before another exactly when its month comes earlier in the calendar |
| `Timestamps.YearBoundary` | streamlit_app.py:41 | worked example: 2023-12-31T23:59:00Z and 2024-01-01T00:00:01Z parse to their fields and fall into months "2023-12" and "2024-01", and the first sorts first |
| `Ranking.InsertByCountCorrect` | streamlit_app.py:84 | inserting a row into a ranked table keeps it ranked, adds exactly that row and adds its count to the total |
| `Ranking.SortByCountCorrect` | streamlit_app.py:84 | the ranking is ordered by count, highest first, is a permutation of its input and keeps the total |
| `Ranking.InsertByCountDistinct` | streamlit_app.py:84 | inserting a row with a new key keeps the keys distinct |
| `Ranking.SortByCountDistinct` | streamlit_app.py:84 | ranking a table with distinct keys keeps them distinct |
| `Ranking.InsertByKeyCorrect` | streamlit_app.py:79 | inserting a row with a new key into a table ordered by key keeps it strictly ordered, adds exactly that row and adds its count to the total |
| `Ranking.SortByKeyCorrect` | streamlit_app.py:79 | ordering a table with distinct keys gives strictly ascending keys, the same rows and the same total |
| `Ranking.Rank` | streamlit_app.py:84 | the ranked table of a dict is ordered by count, highest first, and has distinct keys; it holds exactly the dict's `(key, count)` pairs, one row per key, and keeps the total |
| `Dashboard.RowOfRecord` | streamlit_app.py:38-47 | each row keeps its record's id, title, author, assignees and reviewers; its creation time, formatted back, is the record's `created_at` string |
| `Dashboard.CountEach` | streamlit_app.py:48-53 | the inner counting loop leaves the dict equal to the count of everything seen so far plus this list |
| `Dashboard.CollectRows` | streamlit_app.py:35-53 | either the first record whose timestamp is rejected, with all earlier ones accepted; or all timestamps accepted, one row per record, and label counts that hold exactly the label names that occur, each with its number of occurrences, at least one |
| `Dashboard.CountAssigneesAndReviewers` | streamlit_app.py:56-69 | the two dicts hold exactly the assignee (reviewer) logins that occur over the rows, each with its number of occurrences; the counts add up to the number of (row, login) pairs |
| `Dashboard.MonthKeys` | streamlit_app.py:78 | the month column has one entry per row: the first seven characters (`YYYY-MM`) of that row's creation time written in the timestamp layout |
| `Dashboard.MonthlyCounts` | streamlit_app.py:78-79 | months in strictly ascending order; every month of some row appears, with the number of rows created in it; no other month appears; the counts add up to the number of rows |
| `Dashboard.NoOpenPullRequests` | streamlit_app.py:16-21 | on any endpoint whose first answer is an empty 200 page, the fetch succeeds with no records, whatever later answers would be; the corrected run then shows five empty views |
| `Dashboard.MonthlyCountsChronological` | streamlit_app.py:79-81 | in any table ordered by month key, such as the monthly counts, an earlier row is for an earlier calendar month: the bar chart runs in calendar order |
| `Dashboard.MonthOfRecord` | streamlit_app.py:78 | the month a record is counted under is the first seven characters of its `created_at` |
| `Dashboard.Ranked` | streamlit_app.py:84-96 | a ranked count table: ordered by count, highest first, with distinct keys; exactly the keys that occur, each with its number of occurrences; the counts add up to the number of occurrences |
| `Dashboard.RunIsDetermined` | streamlit_app.py:31-96 | the description of a run (`IsRunOf`) fixes its ending: two runs on the same answers end the same way |
| `Dashboard.RenderPass` | streamlit_app.py:31-96 | the corrected script: a run aborts exactly when the fetch fails, with its status and page. It stops at the first rejected timestamp. Otherwise it shows the rows, the monthly counts and the ranked assignee, reviewer and label tables of exactly the fetched records; with no records these are five empty views |
| `Dashboard.RenderPassAsWritten` | streamlit_app.py:31-96 | the script as written: it fails at the month column (line 78) exactly when the fetch succeeds with no records, and otherwise ends exactly as `RenderPass` does |

## Left out

- HTTP, the `GITHUB_TOKEN` environment variable and the `Authorization` header are left out. The endpoint's answers are a parameter, and the fixed repository URL is not modelled.
- `@st.cache_data` is left out: caching does not change the result of one run.
- Every `st.*` call is left out: titles, the raw-data checkbox, the bar chart, the tables, and the error message and JSON body shown when the fetch fails. The model returns what would be shown.
- `raise SystemExit` and the `ValueError` that `strptime` raises both end the script. They become the `FetchAborted` and `TimestampRejected` outcomes of `Dashboard.Pass`. The `KeyError` at line 78 becomes `MonthColumnMissing`.
- `Fetch.FetchPullRequests`: requires that some answer is an error or an empty page. With an endpoint that never stops returning records, the script never ends, and the model does not describe that case.
- The JSON payload is already decoded. Logins are taken from `assignee["login"]`, label names from `label["name"]`, and the author from `pr["user"]["login"]`. Missing keys and malformed JSON are not modelled.
- `Timestamps.Parse`: accepts only the zero-padded layout that the listing endpoint emits, and ASCII digits only. `strptime` also accepts single-digit months, days, hours, minutes and seconds, a space-padded day, non-ASCII decimal digits, and a lower-case `t` and `z`, because it matches the format without regard to case.
- The year range is the one `datetime` accepts (1 to 9999). pandas' nanosecond timestamp range is narrower (years 1677 to 2262) and is not modelled.
- `Ranking.Rank`: says nothing about the order of rows with equal counts. pandas' default sort is not stable. The model's insertion sort fixes one order, and no claim is made about it.
- The author field is carried in each row but never counted, as in the script. Pandas column types and the DataFrame index are not modelled.

## Findings

| source | as written | input that shows it | evidently intended | confidence | as-written member | corrected member |
|---|---|---|---|---|---|---|
| streamlit_app.py:78 | with no pull requests, `pd.DataFrame([])` has no columns, so `df["created_at"]` raises `KeyError` | the first page is a 200 response with an empty list (a repository with no open pull requests) | an empty chart and empty tables | not executed; high | `Dashboard.RenderPassAsWritten` (its first ensures; the input is the one in `Dashboard.NoOpenPullRequests`) | `Dashboard.RenderPass` (with `Dashboard.NoOpenPullRequests`: five empty views) |
