# Gym supplies request: a Dafny model of the cart, submission, history, export and login logic

The application is a gym staff tool: staff members put supply items into a
pending cart and submit the cart as one batch. Administrators read every
batch and export the selected ones as one text record per item. This project models the logic
under the user interface:

- **The table store** (`tables.dfy`, module `Tables`). It has three tables:
  `pending_cart`, `submitted_items` and `submission_summary`. Each table is a
  sequence of rows. One counter, `next`, gives each new row both its id and
  its timestamp, so insertion order is time order. `Valid` states the
  invariant this produces: pending rows are strictly ascending by
  `added_date` and by id, and summaries are strictly ascending by
  `submitted_date`.
- **The pending cart** (`cart.dfy`, module `CartOps`):
  - load, add and remove-by-position;
  - the request page's "delete all" loop;
  - the page's item count and total.
- **Submission** (`submission.dfy`, module `Submission`). It copies the
  snapshot into `submitted_items` under one batch id, writes the summary
  row, then deletes the user's pending rows. These are separate calls. A
  backend error at call `k` is a parameter: it aborts the remaining calls
  and keeps the earlier writes.
- **History** (`history.dfy`, module `History`). Summaries are listed newest
  first and joined to their batch's items, for one user or for all users.
- **The add form** (`addform.dfy`, module `AddForm`):
  - the required-field check;
  - removal of `,` and whitespace stripping before `int()`;
  - `total_price = quantity * unit_price`.
- **Export** (`export.dfy`, module `Export`). Each selected entry yields one
  record per item, named `{batch_id}_{k}.md` with `k` counting from 1.
- **Administrator page state** (`adminview.dfy`, module `AdminView`): the
  accordion toggle and the set of ticked entries.
- **Sheet login** (`auth.dfy`, module `Auth`). Login is a linear search
  that compares the string forms of username and password. Logout resets
  the session's login fields.
- **Python text semantics** (`text.dfy`, module `Text`), in the subset the
  code relies on:
  - `str.strip` and `str.split()[0]` with Python's whitespace set;
  - `str.replace(',', '')`;
  - `int()` with an optional sign and ASCII digits;
  - `str(int)`.

Backend errors, batch ids, and the store's rendering of "now" are
parameters. Reads that fail return `[]` with the warning text the page
shows. Writes that fail return `Fail(message)` and keep every write made
before the failing call. For the single-call writes this means the store is
unchanged; a submission keeps the item rows it had already inserted.

## Model

| member | source | states |
|---|---|---|
| CartOps.LoadPendingCart | utils/database.py:58-78 | The load returns exactly the pending rows owned by the user. A backend error yields `[]` and the "장바구니 불러오기 오류: " warning. |
| CartOps.LoadIsAscendingListing | utils/database.py:65-74 | The loaded cart is strictly ascending by `added_date`. Any other ascending listing of the same rows equals it, so the result is the ordered query's answer. |
| CartOps.AddToPendingCart | utils/database.py:80-107 | One row is appended, carrying the given fields verbatim. `total_price` is stored as passed. The other tables are unchanged. An error keeps the store and returns "장바구니 추가 오류: " plus the message. |
| CartOps.AddThenLoad | utils/database.py:85-101 | After an add, the fresh cart is the old cart with the new row last. The new row occurs once. Other users' carts are unchanged, and the store stays valid. |
| CartOps.RemoveFromPendingCart | utils/database.py:109-134 | An in-range position deletes exactly the row with that position's id. An index past the end changes nothing and still succeeds. An error keeps the store. |
| CartOps.RemoveAt | utils/database.py:115-125 | Removing position `i` leaves the user's cart as `cart[..i] + cart[i+1..]`. Other users' carts are untouched. Exactly one row leaves the table (multiset), and validity is kept. |
| CartOps.DeleteAllDropsOldest | app.py:421-424 | The "전체 삭제" (delete all) loop removes the `k` oldest rows of the fresh cart, where `k` is the number of calls that succeed, capped at the cart length. A grown cart keeps its newest rows. |
| CartOps.DeleteAllValid | app.py:421-424 | The "delete all" loop keeps the store valid, whichever calls fail. |
| CartOps.DeleteAllKeepsOthers | app.py:421-424 | The "delete all" loop leaves every other user's cart exactly as it was. |
| CartOps.DeleteAllEmpties | app.py:421-424 | With no errors, on an unchanged cart of `n` rows, `n` removals at index 0 empty the cart. |
| CartOps.CartTotals | app.py:382-418 | The displayed count is the cart length. The displayed total is the sum of `total_price` over the loaded cart. |
| Submission.SubmitCart | utils/database.py:140-187 | Success holds iff every call completes. The item inserts that ran copy the snapshot's items in order, under one batch id and owned by the user. The summary, when written, holds the count and the sum of `total_price`. When the delete runs it removes every pending row of the user and nothing else. A failure keeps earlier writes and returns "제출 오류: " plus the message. |
| Submission.SubmitPreservesValid | utils/database.py:148-175 | Every submission keeps the store valid, whichever call fails. |
| Submission.SubmitClearsCart | utils/database.py:174-175 | After a successful submit the user's cart is empty, including rows not in the snapshot. Other users' carts are unchanged. |
| Submission.FailedDeleteKeepsCart | utils/database.py:149-187 | A failure at the final delete leaves the whole cart pending, although its items are already stored under the new batch. |
| Submission.SubmitPreservesConsistency | utils/database.py:149-172 | With a fresh batch id, no failure point makes a summary's count or total disagree with the items stored under its batch. |
| History.GetSubmissionHistory | utils/database.py:193-246 | There is one entry per summary of the user. A backend error yields `[]` and the "내역 조회 오류: " warning. |
| History.HistoryIsUsersSummaries | utils/database.py:200-240 | The history is strictly newest first. It holds an entry for each of the user's summaries and no other entries. Each entry's items are exactly the rows stored under its batch id. |
| History.GetAllSubmissionHistory | utils/database.py:252-306 | There is one entry per summary of any user. A backend error yields `[]` and the "전체 내역 조회 오류: " warning. |
| History.AllHistoryNewestFirst | utils/database.py:258-261 | The administrator's history is strictly newest first by `submitted_date` across all users, so a position in it follows time order. |
| History.AllHistoryIsEveryUsersHistory | utils/database.py:259-300 | Keeping one owner's entries of the administrator's history gives exactly that owner's history, in the same order. Each entry is tagged with its summary's username. |
| History.SubmitThenHistory | utils/database.py:164-240 | A successful submit with a fresh batch id puts one new entry at the head of the user's history. It carries the snapshot's count, sum and items. The older entries read as before. |
| AddForm.SubmitAddForm | app.py:326-351 | An empty name, link, quantity text or price text gives the required-fields error and no change. A failed parse gives the numbers-only error and no change. Otherwise one row is appended with `total_price = quantity * unit_price` and the option kept as typed; earlier pending rows and both history tables are kept. A backend error gives "장바구니 추가 오류: " plus the message and no change. |
| AddForm.CommasIgnored | app.py:332-333 | A `,` anywhere in the text does not change the parsed value. |
| AddForm.SurroundingSpaceIgnored | app.py:332-333 | Whitespace around the number does not change the parsed value. |
| AddForm.TypedIntegerParses | app.py:332-334 | `str(n)` parses back to `n` for every integer, negatives included, since there is no sign check. |
| AddForm.ParsedHasDigit | app.py:330-333 | Only a text containing a digit parses. |
| AddForm.NoDigitsRejected | app.py:332-333 | A text of only commas and whitespace, the empty text included, fails the parse. |
| AddForm.NonNumericQuantityRejected | app.py:327-351 | A non-empty quantity text of only commas and whitespace passes the required check and gets the numbers-only error, with the store unchanged. |
| AddForm.FormAddsProduct | app.py:332-344 | The form with texts `str(q)` and `str(p)` appends one row with total `q * p` to the user's cart and leaves other carts unchanged. |
| Export.ExportCount | app.py:514-535 | The archive has one file per item of every selected entry. |
| Export.ItemExportedAt | app.py:514-535 | Conversely, every item `j` of every selected entry gets its file. It sits right after the files of the items selected before it, as entry `e`'s file `EntryFiles(e)[j]`. |
| Export.EntryFileIsItemFile | app.py:520-534 | An entry's file for item `j` (from 0) is that item's record, named `{batch_id}_{j+1}.md`. |
| Export.ExportedFileIsItemRecord | app.py:514-535 | Every archive file is the record of one item of a selected entry. It is named after the batch id and the item's 1-based position. The requester is the entry's owner and the request date is the first token of its date. |
| Export.FileNameInjective | app.py:534 | For batch ids without `_`, `{batch_id}_{k}.md` determines both the batch id and `k`. |
| Export.EntryNamesDistinct | app.py:520-534 | The files of one entry have pairwise distinct names, whatever the batch id. |
| Export.RecordReadsBack | app.py:521-533 | A record splits into its lines in this fixed order: name, requester, request date, link, option (`""` when falsy), quantity, unit price, an empty 신청일 field, and status `리스트업`, between `---` fences. Quantity and price parse back to the item's integers. |
| AdminView.Toggle | app.py:589-592 | Clicking the expanded entry collapses it. Clicking any other entry expands that entry only. |
| AdminView.ToggleTwice | app.py:589-592 | Two clicks on the same entry restore a collapsed state, and re-open an entry that was open. |
| AdminView.CheckBox | app.py:566-579 | After the checkbox of `idx` is drawn, `idx` is selected iff it is ticked. Other indices are unchanged. A rerun happens exactly when the set changed. |
| AdminView.CheckBoxStable | app.py:566-579 | Drawing a checkbox with its current state changes nothing and does not rerun. |
| AdminView.ClearSelection | app.py:550-551 | "선택 초기화" (clear selection) leaves no entry selected. |
| Auth.Login | utils/auth.py:4-28 | Login succeeds iff some record matches both the username's and the password's string forms. The name comes from the first match. Otherwise the fixed wrong-credentials message is returned. A failed fetch yields the "로그인 중 오류가 발생했습니다: " message, never an exception. |
| Auth.Logout | utils/auth.py:30-34 | Logout sets `logged_in` to false and `username` and `name` to `None`, and keeps every other session field. |

## Left out

- Streamlit rendering, layout, CSS, the debug lines and the user history tab's accordion are left out. They are presentation, not logic.
- The Supabase client and `utils.sheets` are left out. They are replaced by the in-memory store and a record-list parameter.
- `st.cache_data` caching is left out: reads are always fresh. With caching, a page can show a cart up to 30 seconds stale, and the "delete all" lemma covers a cart that changed since it was displayed.
- `uuid.uuid4()` batch ids are parameters. Lemmas that need a new batch id take `FreshBatch` as a precondition, because uniqueness of a random id is probabilistic.
- `datetime.now()` and the database's `DEFAULT NOW()` are the counter `next` plus a text parameter `now`. The unused `submitted_date` local of `submit_cart` is not modelled.
- The default `status` of `submitted_items` is not visible in the code. It is the store field `defaultStatus`.
- `submitted_items` rows of one batch come back in insertion order. The query has no `order` clause.
- Zip compression, `BytesIO`, pandas tables and `:,` thousands formatting are left out.
- Python `int()` accepts underscores between digits, Unicode digits, and leading or trailing whitespace inside the parse. The model accepts only an optional sign followed by ASCII digits. The form strips whitespace before parsing, so underscores and Unicode digits are the differences on that side.
- AddForm.TypedIntegerParses: `ParseInt` and `Show` have no length limit. Since Python 3.11, `int()` and `str()` raise `ValueError` on more than 4300 decimal digits by default (`sys.set_int_max_str_digits`). The lemma's "every integer" therefore covers texts the program would reject. `AddForm.SubmitAddForm` likewise accepts such texts, where the page would show the numbers-only error.
- `database.login` (utils/database.py:22-46) is one filtered query and is not modelled. The sheet login in utils/auth.py is modelled.
- Sheet cells that hold floats are not modelled. A cell is text or an integer.
- Export.ExportSelected: requires the selected indices to be distinct, as members of a Python set are. It also requires every selected index to name an existing entry whose date has a token: for any other index the page raises `IndexError` on `history[idx]` or `split()[0]`, and that export is not modelled.
- The iteration order of the Python set of selected indices is a parameter `order`.
- Export.RecordReadsBack: requires fields without newlines, since the form's inputs are single-line text boxes.
- CartOps.DeleteAll: each of the loop's calls fails or succeeds as its parameter says. The page ignores the outcome of each call.
- `remove_from_pending_cart` returns `{'success': False}` without a message and shows "삭제 오류: " plus the error instead. The model puts that shown text in `Fail`.
