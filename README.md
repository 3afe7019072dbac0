# Client query management: a Dafny model of the ticket logic

This project models the ticket logic behind the Streamlit pages of a small
support-desk application. Clients submit queries ("tickets"). Support staff
close and reopen them. Both roles see filtered tables and dashboard
statistics, and both can edit their profile. What is modelled comes from
`support_page.py` and `client_page.py`:

- the rows of the `queries` table (`Tickets.Ticket`) and the text operations
  applied to them: Python's `str.strip()`, `str.lower()` and string order
  (`Text`);
- the boolean-mask idioms of pandas: mask selection, `unique()`, `sorted`,
  `sort_values`, `value_counts()`, and `max`/`min`/`sum` (`Sequences`);
- the filters each page applies, and the status and category normalisation
  of the dashboards (`Filters`);
- the dashboard statistics (`Aggregation`):
  - status and category counts;
  - highest, lowest and mean resolution time;
  - the per-category mean resolution time;
  - the closed queries ordered by closing time;
  - the queries pending for more than 24 hours;
- the ticket lifecycle (`Lifecycle`):
  - the "close" and "reopen" candidate lists;
  - the close and reopen updates, applied in place to a `QueryTable` object;
  - "Submit Query", which appends a row;
- the profile update of both roles, applied in place to a `UserTable`
  object (`Profile`);
- each page as one method (`Pages`). The method narrows a copy of the table
  step by step, as the page reassigns `table_content`. The candidate lists,
  counts and statistics are computed from the unfiltered table.

Times are whole seconds on a single clock, and the current time is passed in
as `now`. A mean is kept as its total and its count.

Three details of the code shape the model:

- "Submit Query" inserts the row whenever the description is filled in,
  even when another field was just reported as required. See Findings.
- The page does not write a status when it inserts a row; the row gets the
  column's database default. That value is the `defaultStatus` field of
  `QueryTable`.
- The support query page only lower-cases the status before comparing it.
  The two dashboards strip it as well.

## Model

| member | source | states |
|---|---|---|
| Text.Strip | support_page.py:113-114 | the result has no whitespace at either end; it is the contiguous middle of the input; everything cut away is whitespace; it is empty exactly when the input is all whitespace |
| Text.Lower | support_page.py:50 | same length; every character is lowered individually (ASCII letters only) |
| Text.NormaliseStatus | client_page.py:60 | a normalised status has no surrounding whitespace and no upper-case letter, and is no longer than the input |
| Text.NormaliseStatusIdempotent | support_page.py:113 | normalising a status twice gives the same as normalising it once |
| Text.LexLeTransitive | support_page.py:127 | the code-point order `sorted` uses on strings is transitive (with `LexLeTotal` and `LexLeAntisymmetric`, a total order) |
| Text.LexLeTotal | client_page.py:78 | any two strings are comparable in that order |
| Text.StrictlyAscendingUnique | client_page.py:78 | two strictly ascending sequences of the same strings are equal; it rests on antisymmetry (`LexLeAntisymmetric`) |
| Sequences.Keep | support_page.py:50 | a mask selection is an order-preserving subsequence holding each element exactly as often as the input when it passes the mask, and never otherwise |
| Sequences.SelectTwice | support_page.py:46-56 | applying a second mask to a selection selects, in order and with multiplicities, what both masks select together |
| Sequences.Unique | support_page.py:39 | `unique()`: no repetitions, same members as the input, and the values in the order of their first appearance |
| Sequences.UniqueKeepsFirstAppearance | support_page.py:39 | that order is forced: `[1, 2, 1]` gives `[1, 2]` |
| Sequences.SortBy | support_page.py:193 | the result is sorted by the given total preorder and is a permutation of the input |
| Sequences.ValueCounts | support_page.py:143 | distinct keys; every value appears as a key; each count is the number of occurrences and is positive; the counts sum to the input length |
| Sequences.Max | support_page.py:167 | `.max()` of a non-empty column: a value of the column, and no value is larger |
| Sequences.Min | support_page.py:168 | `.min()` of a non-empty column: a value of the column, and no value is smaller |
| Sequences.MeanBetweenMinAndMax | support_page.py:167-169 | min·n ≤ sum ≤ max·n, so the mean lies between the lowest and highest value |
| Filters.ChoiceKey | support_page.py:49-52 | "Open" is compared with `open` and "Closed" with `closed` |
| Filters.SelectLowerStatus | support_page.py:48-52 | "All" keeps the table; otherwise it keeps exactly the rows whose lower-cased status is the chosen one, in order and with multiplicities |
| Filters.SelectStatus | client_page.py:81-86 | the same over normalised statuses |
| Filters.CheckboxChoice | support_page.py:130-133 | exactly one ticked box selects its status; both or neither select everything |
| Filters.SelectByCheckboxes | support_page.py:129-133 | both or no boxes keep the table; "open" alone keeps exactly the open rows, "closed" alone exactly the closed rows; in order, with multiplicities |
| Filters.SelectCategories | support_page.py:54-56 | an empty selection keeps the table; otherwise exactly the rows whose category was selected remain, in order and with multiplicities |
| Filters.OwnedBy | client_page.py:50 | exactly the session user's rows, in order and with multiplicities |
| Filters.NormaliseRow | client_page.py:60-61 | status stripped and lowered, category stripped; every other column unchanged |
| Filters.Normalise | support_page.py:112-114 | every row normalised, with the row count unchanged |
| Filters.NormaliseIdempotent | client_page.py:59-61 | normalising a normalised table changes nothing |
| Filters.CategoryOptions | support_page.py:39 | each category of the table once, and no other value |
| Filters.SortedCategoryOptions | client_page.py:76-79 | each category of the table once, in strictly ascending string order |
| Filters.SortedCategoryOptionsUnique | client_page.py:76-79 | any strictly ascending list of exactly the table's categories is the one `sorted` gives |
| Aggregation.StatusCounts | support_page.py:143 | one entry per distinct status; each count equals that status's number of rows and is positive; counts sum to the row count |
| Aggregation.CategoryCounts | client_page.py:115-121 | the same for categories (the pie chart's shares) |
| Aggregation.ClosedRows | support_page.py:158 | exactly the rows with status `closed`, in order and with multiplicities |
| Aggregation.ResolutionSeconds | support_page.py:163 | `time_taken` of a row with a closing time: creation time plus it is the closing time |
| Aggregation.Durations | support_page.py:163-164 | the `seconds` column: never more entries than rows (`DurationsPerRow` gives one per row that has a closing time, in order) |
| Aggregation.Timed | support_page.py:164 | exactly the rows that have a closing time, in order and with multiplicities |
| Aggregation.DurationsPerRow | support_page.py:161-164 | one duration per row that has a closing time, in order: entry `i` is the closing minus creation time of the `i`-th such row; rows without one (NaN) are skipped |
| Aggregation.DurationsMembers | support_page.py:161-164 | the durations are exactly the resolution times of the rows that have a closing time |
| Aggregation.ResolutionStats | support_page.py:158-169 | "no closed queries" exactly when no row is closed; no statistics exactly when no closed row has a closing time; otherwise lowest ≤ highest, both attained by a closed row, every resolution time between them, and lowest·count ≤ total ≤ highest·count |
| Aggregation.ResolutionScenario | support_page.py:167-169 | three closed queries resolved in 10, 20 and 30 seconds give highest 30, lowest 10 and mean 60 / 3 = 20 |
| Aggregation.GroupTime | support_page.py:207 | one group of `groupby('category')`, labelled with its category (`GroupTimeCounts` gives its count) |
| Aggregation.GroupTimeCounts | support_page.py:207 | a group's count is the number of its category's rows that have a closing time, and it is 0 (a NaN mean) exactly when none has one |
| Aggregation.CategoryTimes | support_page.py:207 | one group per category in strictly ascending order; each group holds the total and count of its category's resolution times |
| Aggregation.CategoryTimesCover | support_page.py:207 | there is a group for every category of the closed rows and for no other |
| Aggregation.CategoryMeanWithinOverall | support_page.py:205-208 | every per-category mean lies between the overall lowest and highest resolution time |
| Aggregation.ClosedTimeLeTotalPreorder | support_page.py:193 | ordering by closing time, with missing times last, is a total preorder |
| Aggregation.ResolutionSeries | support_page.py:192-193 | the closed rows, permuted into ascending closing time |
| Aggregation.Pending | support_page.py:221-226 | exactly the open rows created strictly more than 24 hours before `now`, in order and with multiplicities |
| Aggregation.PendingThreshold | support_page.py:224-226 | open and 25 hours old: pending; 23 hours or exactly 24 hours old: not pending; closed: never pending |
| Lifecycle.WrittenStatusesLower | support_page.py:67-73 | the `Closed` and `Open` texts the updates write lower-case to the keys the lists compare with |
| Lifecycle.Apply | support_page.py:71-90 | closing sets the status and closing time; reopening sets the status and creation time and clears the closing time; no other column changes |
| Lifecycle.ClosingSetsResolution | support_page.py:71-75 | a query closed at `at` has a closing time, and its resolution time is `at` minus its creation time |
| Lifecycle.CloseThenReopen | support_page.py:71-90 | close then reopen leaves a query open, created at the moment of reopening, with no closing time, all else as before |
| Lifecycle.UpdateWhere | support_page.py:71-74 | the update applies to every row with the given id and to no other; the row count is unchanged |
| Lifecycle.UpdateKeepsIds | support_page.py:87-89 | updates never change ids, so ids stay a primary key |
| Lifecycle.UpdateKeepsClosedIffTimed | support_page.py:71-90 | if every query has a closing time exactly when its status reads "closed", the close and reopen updates keep it so |
| Lifecycle.OpenIds | support_page.py:67 | an id is offered for closing iff some row with it has lower-cased status `open` |
| Lifecycle.ClosedIds | support_page.py:83 | an id is offered for reopening iff some row with it has lower-cased status `closed` |
| Lifecycle.CandidateListsPartition | support_page.py:65-95 | with unique ids, a row is in the close list iff it is open and in the reopen list iff it is closed; no id is in both |
| Lifecycle.UpdateMovesChosenId | support_page.py:65-93 | closing an offered id puts it in the reopen list and takes it out of the close list; reopening does the reverse |
| Lifecycle.UpdateKeepsOtherIds | support_page.py:65-93 | every other id keeps the lists it was in |
| Lifecycle.SubmitErrors | client_page.py:23-32 | a message for a field iff that field is empty, in the order of the form, each at most once |
| Lifecycle.CategoryChoiceNeverMissing | client_page.py:15-18 | the ten choices are distinct; a category picked from the box never raises its message |
| Lifecycle.NewTicket | client_page.py:36 | the inserted row carries the submitted fields, the user, the creation time, the default status and no closing time |
| Lifecycle.QueryTable.constructor | client_page.py:36 | an empty table whose first insert gets id 1, with the table invariant established |
| Lifecycle.QueryTable.Close | support_page.py:70-75 | the table becomes the close update of the chosen id; ids stay unique, and a query stays closed exactly when it has a closing time |
| Lifecycle.QueryTable.Reopen | support_page.py:86-91 | the table becomes the reopen update of the chosen id; ids stay unique, and a query stays closed exactly when it has a closing time |
| Lifecycle.QueryTable.Insert | client_page.py:34-37 | appends the new row, which is not closed and has no closing time, under the next id; ids stay unique |
| Lifecycle.QueryTable.Submit | client_page.py:22-36 | as written: every empty field is reported, and a row is appended exactly when the description is filled in |
| Lifecycle.SubmitWithoutEmail | client_page.py:23-36 | an empty e-mail with a description reports only "Email field is required!" and still inserts query 1 |
| Lifecycle.QueryTable.SubmitChecked | client_page.py:22-36 | corrected: a row is appended exactly when no message is raised, i.e. every field is filled in |
| Profile.Decide | support_page.py:263-280 | rejects when name, e-mail or phone is empty; rejects a password mismatch; writes the password too exactly when a matching one was entered; each case iff its condition |
| Profile.MismatchNeverWrites | support_page.py:267-270 | different password and confirmation never lead to a write |
| Profile.UpdateUser | support_page.py:274-280 | the rows with the id get the new name, e-mail and phone, and the new credential only when one is given; all other rows and columns are unchanged |
| Profile.UserTable.UpdateProfile | client_page.py:168-211 | no user id: not logged in; unknown id: not found; otherwise the outcome is the decision, the table changes only on a save, and a save is the corresponding update |
| Pages.FilterQueryTable | support_page.py:45-56 | the query table holds exactly the rows passing both filters, in order and with multiplicities |
| Pages.SupportQueryView | support_page.py:9-95 | nothing is shown for an empty table; otherwise the filtered table, each category once as options, and the close and reopen candidate lists of the whole table |
| Pages.FilterSupportDashboardTable | support_page.py:118-137 | the dashboard table holds exactly the normalised rows passing the checkboxes and the category filter, in order and with multiplicities |
| Pages.SupportDashboardView | support_page.py:98-233 | nothing for an empty table; otherwise the filtered table, each category once as options in strictly ascending order, the status counts summing to the row count, the resolution statistics, the sorted series of closed rows, the per-category groups and the pending rows (in order and with multiplicities), all over the normalised table |
| Pages.NormaliseKeepsOwner | client_page.py:50-61 | normalising the user's rows keeps them the user's |
| Pages.FilterClientDashboardTable | client_page.py:81-90 | the client table holds exactly the normalised rows passing the status and category filters, in order and with multiplicities |
| Pages.ClientDashboardView | client_page.py:43-160 | nothing when the user has no queries; otherwise only the user's rows, filtered; sorted distinct category options; status and category counts summing to the user's row count; the resolution statistics of the user's rows |

## Left out

- Streamlit widgets, session state, messages, `st.experimental_rerun`/`st.rerun` and `time.sleep` are not modelled. Widget values are parameters.
- The plotly charts are not modelled. Only the data behind them is.
- The database connection and the SQL text are not modelled. The two tables are sequences of rows, and the auto-increment id is the `nextId` field.
- bcrypt is not modelled. The salted hash of the new password is the `digest` parameter of `Profile.UserTable.UpdateProfile`.
- Floating-point seconds, `round(2)` and the `to_timedelta` text are not modelled. Resolution times are whole seconds, and means are kept as total and count.
- `Sequences.ValueCounts`: keys come in order of first appearance, not in the count-descending order of `value_counts()`.
- `Sequences.SortBy`: the relative order of rows with equal closing time is not fixed, as the default `sort_values` kind does not fix it either.
- NULL status or category values and `dropna()` are not modelled. Every row has a status and a category text.
- `Text.Lower`: only ASCII letters are lowered. Non-ASCII case mapping is not modelled.
- Lifecycle.QueryTable.constructor: it requires the database's default status not to read "closed" once lower-cased. The schema is not part of these files, and without that assumption an inserted query could be closed and have no closing time.
- `Aggregation.Pending`: a missing creation time (NaT) is not modelled. Every row has one.
- The value the database gives the status column of an inserted row is not known from these files. It is the `defaultStatus` field, not a fixed text.
- The `None` user id is not modelled. The profile pages' "not logged in" case is user id 0, since ids are integers here.
- Concurrent edits by two support users (last write wins) are not modelled.
- `app.py` (the page router) and `login_page.py` (registration and login) are not part of this model.

## Findings

| source | as written | input that shows it | evidently intended | confidence | as-written member | corrected member |
|---|---|---|---|---|---|---|
| client_page.py:23-36 | the `else` that inserts the row belongs only to the description check, so a query is inserted whenever the description is filled in, even when the form has just reported another field as required | e-mail empty; mobile, category, heading and description filled in: "Email field is required!" is shown and the query is still inserted | insert only when no field is missing | not executed | Lifecycle.SubmitWithoutEmail | Lifecycle.QueryTable.SubmitChecked |
