# BankSight dashboard: decision rules in Dafny

BankSight is a single-file Streamlit dashboard (`app.py`). It builds a SQLite
database from CSV and JSON files, then lets a user browse and filter tables,
run CRUD operations and simulate deposits and withdrawals. Most of the file
is UI and database plumbing. This project models the small, pure decision
rules inside it as functions over immutable values and proves what they
guarantee:

- **Primary-key resolver** (`PrimaryKey`). A single pass over the
  `PRAGMA table_info` rows picks the first column that is flagged as a key
  or whose lower-cased name contains `"id"`. The fallback is the first
  column, and the result is none when the table has no columns. Both page
  variants are modelled: Update also accepts the text `'1'` as a flag and
  Delete does not.
- **Balance simulator** (`Balance`). "Load balance" and "Execute
  transaction" act on the one piece of session state, the current balance.
  A withdrawal is refused when it would leave less than 1000. A write
  happens only when the balance changes.
- **Filter composer** (`Filters`). Each shown column is classified as a
  numeric range, a date range or a categorical filter. The widget defaults
  come from the column's values. The filters are applied as a left fold,
  and the result is proved equal to the conjunction of all of them.
- **ND-JSON fallback reader** (`Loader`). When a file does not decode as one
  JSON document, its lines are stripped and decoded one by one. Blank lines
  and lines that fail to decode are skipped. Column names are stripped
  before a table is written.
- **Form payloads and statements** (`Crud`). Empty fields are dropped, the
  Update form never contains the key column, and the INSERT, UPDATE and
  DELETE statements are built with their parameter dicts.

The shared helpers are `Text` (Python's `strip`, `lower`, `in` and `join`),
`Dicts` (insertion-ordered Python dicts as sequences of pairs) and
`Wrappers` (`Option`).

Abstractions:
- Money is an exact `real`.
- Dates are day numbers.
- pandas dtypes are an abstract tag.
- The JSON decoders, the date parser (`pd.to_datetime(...).date()`), the
  database's acceptance of a write, the clock, the text typed into widgets
  and the query results are all parameters.

Behaviour of the code that a reader might not expect:
- The key resolver makes one pass that accepts a flagged column or a name
  containing "id", whichever comes first. So an earlier `user_id` beats a
  later flagged key, and `uuid` matches `"id"`.
- A column gets a numeric range when pandas gives it a numeric dtype,
  whatever its values look like.
- A failed "Load balance" does not clear the balance already held by the
  session.
- A key column whose name is the empty string counts as "no key found"
  (`not pk_col`), so the fallback applies.
- The page loads whatever balance the accounts table holds. The minimum of
  1000 is only checked on withdrawals.

## Model

| member | source | states |
|---|---|---|
| PrimaryKey.FirstQualifying | app.py:491-494 | the loop stops at a qualifying row, every earlier row fails the test, and it runs to the end exactly when no row qualifies |
| PrimaryKey.Resolve | app.py:489-496 | the result is none exactly when there are no columns, and any column it returns is one of the table's columns |
| PrimaryKey.ResolvePicksFirst | app.py:489-494 | the first qualifying column in declared order, if its name is non-empty, is the key |
| PrimaryKey.ResolveFallsBack | app.py:492-496 | when no column qualifies, or the first one that does has an empty name (whatever qualifies after it), the first column is the key |
| PrimaryKey.EmptyNameStopsScan | app.py:492-496 | for `a`, an empty-named column flagged pk = 1, then `b_id`: the scan breaks at the empty name, `not pk_col` holds, and `a` is used, not `b_id` |
| PrimaryKey.ScanForKey | app.py:489-496 | the literal scan-break-fallback loop computes the same key as the one-pass definition |
| PrimaryKey.UpdateStopsNoLater | app.py:516-523 | any column the Delete page accepts is accepted by the Update page, so the Update scan stops no later |
| PrimaryKey.PagesAgreeWithoutTextFlag | app.py:516-523 | the Update and Delete pages resolve the same key unless some pk cell is the text '1' |
| PrimaryKey.IdTestIgnoresCase | app.py:492 | the "id" name test gives the same answer for a name and its lower-cased form |
| PrimaryKey.UuidIsPicked | app.py:492 | given `uuid`, `customer_id`, `name` with no flags, `uuid` is chosen because it contains "id" |
| PrimaryKey.IdNameBeatsLaterFlag | app.py:519-521 | an earlier `user_id` beats a later column flagged pk = 1 |
| Balance.Load | app.py:541-547 | the first returned row sets the balance; with no row the page reports "not found" and the session is unchanged |
| Balance.Execute | app.py:551-574 | with no loaded balance: an error and nothing changes. A withdrawal is refused exactly when the balance would fall below 1000. A write happens exactly when a balance is loaded, the amount is non-zero, the write succeeds and the operation is not refused. The write carries the new balance (cur + amt or cur - amt, at least 1000 for withdrawals) and the typed customer id, and the session mirrors it. Otherwise the session is unchanged |
| Balance.RunKeepsMinimum | app.py:556-562 | over any sequence of non-negative transactions and of loads that return at least 1000, a session at or above 1000 stays at or above 1000. That loads return at least 1000 is an assumption about the accounts table, which the page does not check |
| Balance.LowLoadBreaksMinimum | app.py:541-547 | loading a balance of 500 takes the session below 1000: the page does not check loaded balances |
| Balance.NothingWrittenBeforeLoad | app.py:552-553 | before any load, execute presses write nothing and leave the session empty |
| Balance.WriteTargetsTypedCustomer | app.py:540-568 | the write goes to the customer id typed at execution time, not to the customer whose balance was loaded |
| Balance.WithdrawalExamples | app.py:558-562 | from 1500: withdrawing 600 is refused, withdrawing 400 leaves 1100, and withdrawing 500 leaves exactly 1000 |
| Filters.Classify | app.py:428-439 | a column gets a numeric range exactly when its dtype is numeric |
| Filters.ClassifyPrecedence | app.py:428-439 | a numeric dtype always gives a range. Otherwise a datetime dtype or a name containing "date" or "time" gives a date range. Only a non-numeric, non-datetime column without such a name is categorical |
| Filters.ClassifyIgnoresCase | app.py:433 | classification gives the same answer for a name and its lower-cased form |
| Filters.UpdatedByIsDateColumn | app.py:433 | the name test is a plain substring test, so a text column `updated_by` gets a date range |
| Filters.Numbers | app.py:429-430 | a number is in the list exactly when it occurs as a non-null numeric cell of the column |
| Filters.Days | app.py:434-435 | a day is in the list exactly when some non-null cell of the column parses to it |
| Filters.RealExtremes | app.py:429-430 | for a non-empty list, min and max are members of the list and bound every element; the result is none for an empty list |
| Filters.DayExtremes | app.py:434-435 | the same min/max guarantees for day numbers |
| Filters.SliderDefault | app.py:429-431 | the default slider range runs from the column's smallest number to its largest: both ends are numeric cells of the column and every numeric cell lies between them. It is (0.0, 0.0) for a column with no numbers |
| Filters.DatesDefault | app.py:434-437 | the default date range runs from the earliest parsed day to the latest: both ends are the parse of some cell and every parsable cell lies between them. It is (today, today) when no cell parses |
| Filters.Unique | app.py:440 | `.unique()` returns distinct values, exactly the ones not seen before |
| Filters.UniqueOrder | app.py:440 | `.unique()` lists values in order of first appearance: a later value in its output first occurs later in its input |
| Filters.Present | app.py:440 | `.dropna()` keeps exactly the non-null values, and no more values than cells |
| Filters.PresentConcat | app.py:440 | `.dropna()` works cell by cell and keeps row order: the values of a concatenation are the values of its parts, in order |
| Filters.UniquePrefixClosed | app.py:440 | any cut of `.unique()`'s output holds every value that first appears before one of its members |
| Filters.Candidates | app.py:440 | the candidates are the first 200 distinct non-null values in order of first appearance: distinct, taken from the non-null cells, in first-appearance order, closed under "appears earlier", and either 200 of them or all of them |
| Filters.FilterFor | app.py:428-443 | a numeric column's filter is the slider's range (the user's bounds, or the column's min and max when untouched). A date column's filter is the chosen start and end (or the earliest and latest parsed day). A categorical column's filter is the user's non-empty selection. An empty selection gives none, and untouched it is the first (at most 5) candidates |
| Filters.BuildFilters | app.py:426-443 | the filters dict has distinct keys, each entry keyed by its filter's column. Looking a column up gives exactly that column's filter from its widgets when the column is shown, and nothing otherwise |
| Filters.Holds | app.py:432-443 | a missing or null cell fails every filter, and a text cell fails a numeric range |
| Filters.Keep | app.py:432 | one filter keeps only rows of its input that pass it |
| Filters.Apply | app.py:445-447 | the loop over `filters.values()` keeps only rows of the table, never more than it had |
| Filters.Conjunction | app.py:445-448 | the reference meaning: a row is kept exactly when it passes every filter, each passing row is kept as many times as it occurs (so `len(result)` counts duplicates), and the result is an order-preserving subsequence of the input |
| Filters.ApplyIsConjunction | app.py:445-447 | the left fold over the filters equals their conjunction |
| Filters.KeepThenConjunction | app.py:446-447 | filtering by one filter and then by the rest is filtering by all of them |
| Filters.ConjunctionOfNothing | app.py:445 | with no filters every row is kept |
| Filters.FilterPageMeaning | app.py:426-448 | the page keeps a row exactly when it passes the filter each shown column gets from its widgets (its slider range, dates or selection), and keeps every copy of such a row, so the printed row count is the number of passing rows; the result is an order-preserving subsequence of the rows, and with no shown columns it is all of them |
| Filters.BuiltFiltersPerColumn | app.py:426-447 | passing every filter in the dict is passing the filter of every shown column that has one |
| Filters.DefaultRangeKeepsNumbers | app.py:429-432 | the default numeric range keeps every row whose cell is a number |
| Filters.DefaultDatesKeepParsable | app.py:434-438 | the default date range keeps every row whose cell parses as a date |
| Filters.DefaultRangeExample | app.py:429-432 | for values 10, 20, 30 the default slider range is [10, 30] |
| Filters.RangeKeepExample | app.py:432 | both bounds are inclusive: for values 10, 20, 30 the range [10, 30] keeps all three, and [15, 25] keeps only 20 |
| Loader.Universal | app.py:58 | text-mode reading leaves no carriage return in the text, never lengthens it, and leaves a text without carriage returns unchanged |
| Loader.UniversalReadsCrlf | app.py:58 | a file written with "\r\n" line endings reads back as exactly the text that was written |
| Loader.UniversalReadsCrOnly | app.py:58 | a file written with lone "\r" line endings reads back as exactly the text that was written |
| Loader.SplitLines | app.py:59 | the file is cut into at least one piece and no piece contains a newline |
| Loader.SplitLinesRoundTrip | app.py:59 | joining the pieces with newlines gives back the text |
| Loader.ReadLines | app.py:57-67 | the fallback reader gives at most one record per line |
| Loader.ReadLinesCount | app.py:57-68 | at most one record per non-blank line, and exactly one per non-blank line when every such line decodes |
| Loader.ReadLinesAppend | app.py:59-67 | lines are read independently and in order: reading a concatenation concatenates the records |
| Loader.ReadLinesSources | app.py:60-64 | every record is the decoding of some non-blank stripped line |
| Loader.ReadLinesLoop | app.py:57-67 | the literal append loop computes the same records as the recursive definition |
| Loader.ReadJson | app.py:48-68 | a text that decodes as a whole yields those records. Otherwise the result is the line-by-line reading of the text's lines after newline translation, so ReadLinesCount, ReadLinesSources and ReadLinesAppend apply to it |
| Loader.ThreeLineExample | app.py:55-68 | lines `{"a":1}`, `{bad}`, `{"a":2}` give the two good records, not a failure |
| Loader.StripColumns | app.py:105 | one name per column, each the stripped original (so an infix of it, per Text.StripIsInfix), none longer than the original and none starting or ending with whitespace |
| Loader.StripColumnsIdempotent | app.py:118 | stripping column names again changes nothing |
| Text.Strip | app.py:60 | the result neither starts nor ends with whitespace, and it is empty exactly when the line is whitespace only |
| Text.StripIsInfix | app.py:60 | the result is an infix of the input with only whitespace removed around it |
| Text.StripIdempotent | app.py:105 | stripping twice is stripping once |
| Text.ContainsIffOccurs | app.py:492 | `sub in s` holds exactly when `sub` occurs at some position of `s` |
| Dicts.Put | app.py:180 | dict assignment stores the value, keeps the position of an existing key and appends a new one |
| Dicts.PutOthers | app.py:179-180 | assigning one key leaves every other key's lookup unchanged |
| Dicts.GetAt | app.py:168-178 | in a dict with distinct keys, looking up the key of any entry finds that entry's value |
| Dicts.GetWhere | app.py:473 | the comprehension keeps exactly the entries whose value passes, with their values unchanged |
| Crud.FillForm | app.py:469-503 | the form has one field per column except the skipped key column, each holding the text typed for it, with no repeated key |
| Crud.DropEmpty | app.py:473-506 | the comprehension keeps exactly the form's non-empty fields, with their values, and keeps keys distinct |
| Crud.CreatePayload | app.py:468-473 | the insert payload has exactly the columns whose field is non-empty, each with the typed value, and no repeated key |
| Crud.UpdatePayload | app.py:499-506 | the update payload has exactly the non-key columns whose field is non-empty, each with the typed value; the resolved key column is never in it |
| Crud.BindAll | app.py:170-182 | binding pairs each column with the value of its placeholder, and fails exactly when some placeholder has no parameter |
| Crud.InsertStatement | app.py:165-171 | binding the INSERT's VALUES placeholders to its parameters writes exactly the record: each column, in key order, gets its own value |
| Crud.UpdateStatement | app.py:176-183 | the SET clause assigns each update column its own value in key order, except that a column named `pk_val` gets the key value. The WHERE clause compares the rendered key column with the key value. `pk_val` is bound to the key value and every other key keeps its update value |
| Crud.PkValShadowsUpdate | app.py:178-180 | updating a column named `pk_val` to "x" with key value "7" assigns "7" to it |
| Crud.DeleteStatement | app.py:187-191 | the WHERE clause compares the rendered key column with the key value, and that value is the only parameter |
| Crud.InsertTextExample | app.py:167-169 | for the record `a`, `b` in table `t` the text sent is `INSERT INTO t (a, b) VALUES (:a, :b)` |
| Crud.UpdateTextExample | app.py:178-181 | for one update of `c` keyed by `k` the text sent is `UPDATE t SET c = :c WHERE k = :pk_val` |
| Crud.DeleteTextExample | app.py:189 | the text is `DELETE FROM t WHERE k = :v`, and `DELETE FROM t WHERE None = :v` when no key column was found |

## Left out

- Page layout, widgets, messages and navigation (app.py:348-604) are UI. What the widgets return is a parameter. Their own clamping of slider and date values is not modelled.
- Creating the SQLite database: the engine, `to_sql` with replace, the index creation, the per-file error handling and the existence checks (app.py:41-43, 73-137). These are I/O against a foreign database. Only the column-name stripping at app.py:105 and app.py:118 is modelled.
- The cached `read_table` and `read_sql_query` (app.py:142-160), and the wholesale `.clear()` after writes, are framework memoization. A failed query reaching the balance page is modelled as "no rows".
- The fifteen fixed analytical SQL strings (app.py:198-343): their meaning lives in SQLite.
- `json.load`, `json.loads`, `pd.json_normalize`, `pd.read_csv` type inference and `pd.to_datetime` are library behaviour. They are parameters (decoders, day parser) or an abstract dtype tag.
- Filters.Holds: `pd.to_datetime(d[c])` at app.py:438 runs without `errors='coerce'`, so a cell that cannot be parsed makes pandas raise. The model instead treats such a cell as failing the date range.
- Text.Lower maps only ASCII letters. Full Unicode lower-casing differs on other characters, but not for the ASCII needles "id", "date" and "time" used here.
- Balance.Execute: amounts are exact reals. Float rounding is not modelled, so a tiny deposit that floating point would absorb is treated as a change.
- Balance.Load: `float(...)` of a non-numeric `account_balance` raises on the page. The model takes balances as numbers.
- Floating-point NaN handling is not modelled. Nulls are `None` cells, which fail every filter test.
- Crud.InsertStatement: statements are modelled as structured SQL (`Sql`) with the f-string text given by `SqlText`. The contracts state what binding the placeholders does; the characters of the text are pinned only by the three text examples. Whether SQLite accepts the text, for example with an empty column list or the column name "None", is the database's business.
- String-interpolated table and column names (app.py:146, 169, 181, 542) are not checked for injection.
- The View Tables, Read, Introduction, Analytical Insights and About pages only display data.
