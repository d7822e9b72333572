# e-foncier land-parcel registry: a verified model of its core

e-foncier keeps the land parcels of a cadastral office. Citizens can also request documents about a parcel. This project models three parts of it in Dafny and proves properties of that model:

- **The parcel and request store** of the Express server (`server/index.js`).
  - The SQLite tables are maps from id to row.
  - The parcel create, lookup, listing and request-create handlers are functions from the tables and the request body to the HTTP reply.
  - The counters of the two statistics endpoints are counts over the tables.
  - The twelve-month `monthlyEvolution` window is a loop.
  - The start-up column migration (`ensureColumn`) is a class method over the column list.
- **The parcel edit page** (`src/pages/ParcelDetail.tsx`).
  - A class `ParcelEditor` whose fields are the page's state variables.
  - Its methods are the handlers: load, field edit with per-field checks, change test, required-field gate, save with its change-set, section steps, and adding, reporting, editing and deleting notes.
  - Functions cover the history filter and the status colours.
- **The six-step registration wizard** (`src/pages/AddParcel.tsx`).
  - A class `Wizard` holding the form, the step, the message and the loading flag.
  - The per-step required lists, the input typing, the step counter and the reset after a successful submit.

Modules:

| file | module | contents |
|---|---|---|
| text.dfy | Text | Trimming: JavaScript's `trim` (full ECMAScript whitespace set) and SQLite's `TRIM` (spaces only). Lower-casing, substring search, decimal numerals, `padStart`. |
| values.dfy | Values | JavaScript values and objects (`Obj = map<string, Value>`), truthiness, `===`. The required-field test shared by all three files, as the function `FirstMissing` and the loop `FindMissing`. The outcome of an awaited API call. |
| monthly.dfy | Monthly | The calendar-month arithmetic of `new Date(y, m - i, 1)`, the `YYYY-MM` labels, and the window loop. |
| store.dfy | ParcelStore | Rows and tables. Parameter binding as better-sqlite3 does it. The handlers, the counters, the column list, and the class `Store`. |
| parcel_detail.dfy | ParcelDetail | The edit page. |
| add_parcel.dfy | AddParcel | The wizard. |

Some things the code reads from its surroundings are parameters:

- `randomUUID()`, `new Date()` and the current year and month;
- the outcome of every awaited backend call, as an `Awaited` value that either resolves with a value or rejects with an optional message;
- `parseFloat` and `Number()` on strings, as functions `string -> Num`;
- `new Date(s)` on history dates, as `string -> Option<int>`;
- `JSON.parse` of a history entry's changes;
- the answer of `window.confirm`;
- the rows of the per-month SQL query.

The edit page's handlers return the backend calls they start (as `ApiCall` values) instead of performing them.

Where the code and the documentation of the project disagree, the model follows the code:

- `POST /api/requests` refuses a **falsy** `citizen_name`, `parcel_reference` or `document_type` (`!v`). It does not trim. A string of spaces is accepted, while the number 0 is refused.
- A server error answers `{ error: 'Server error' }`, not the exception's message.
- A parcel's duplicate **id** also breaks a UNIQUE constraint, so it gets the same 409 as a duplicate reference. In the request handler the same failure is a 500.

## Model

| member | source | states |
|---|---|---|
| Text.TrimStart | server/index.js:140 | The result is a suffix of the input. Every dropped leading character is whitespace, and the first kept one is not. |
| Text.TrimEnd | server/index.js:140 | The result is a prefix of the input. Every dropped trailing character is whitespace, and the last kept one is not. |
| Text.Trim | server/index.js:248 | Everything before the kept part is in the trimmed set. The result is a prefix of the rest of the input, and what it leaves of that rest is in the trimmed set. No trimmed character is left at either end. It is empty exactly when every character is in the trimmed set. Used both for SQLite's `TRIM` and for JavaScript's `trim`. |
| Text.TrimIdempotent | server/index.js:140 | Trimming a trimmed string changes nothing. |
| Text.JsTrim | server/index.js:152 | `s.trim() === ''` exactly when `s` is empty or only whitespace. |
| Text.JsTrimStable | server/index.js:140 | A string that is not blank trims to one that is not blank, and trimming that again changes nothing. |
| Text.LowerChar | src/pages/ParcelDetail.tsx:556 | A capital (A-Z, or a Latin-1 capital other than U+00D7) becomes the small letter 32 code points above it, so `'A'` becomes `'a'`. The result is never upper-case, and a character that is not upper-case is left as it is. |
| Text.ToLower | src/pages/ParcelDetail.tsx:556 | The same length as the input. Each capital is replaced by its small letter, every other character is kept, and no upper-case letter is left. |
| Text.ContainsAt | src/pages/ParcelDetail.tsx:556 | `includes` holds exactly when the needle occurs at some offset of the string. |
| Text.NatToDecimal | server/index.js:234 | `String(n)` is a non-empty string of digits, with no leading zero. |
| Text.DecimalRoundTrip | server/index.js:234 | Reading the numeral back gives the number. |
| Text.NatToDecimalInjective | server/index.js:234 | Different numbers have different numerals. |
| Text.IntToDecimalSign | server/index.js:234 | The numeral of an integer starts with `-` exactly when the integer is negative. |
| Text.PadStart | server/index.js:234 | `padStart(w, c)` has length max(\|s\|, w), ends with `s`, and is `c` before it. |
| Values.FirstMissing | server/index.js:151-155 | None exactly when no listed key is undefined, null or blank. Otherwise it names the first such key, in list order. |
| Values.FirstMissingNamesAKey | server/index.js:146-155 | The reported key is one of the listed keys, and a value for every listed key passes the check. |
| Values.FindMissing | server/index.js:151-155 | The loop with its early return reports what `FirstMissing` specifies. |
| Monthly.MonthsBefore | server/index.js:233 | `new Date(y, m - i, 1)` always lands on a month from 1 to 12, with the overflow carried into the year. |
| Monthly.MonthsBeforeConsecutive | server/index.js:232-233 | The month i + 1 months back, advanced by one month, is the month i months back. |
| Monthly.MonthsBeforeNow | server/index.js:233 | Going back 0 months from `getMonth()` is the current calendar month, for a year the Date constructor takes literally. |
| Monthly.LabelInjective | server/index.js:234-235 | Two months get the same `YYYY-MM` label exactly when they are the same month. |
| Monthly.LabelParts | server/index.js:234 | A label is the year's numeral, a dash, and exactly two month digits. |
| Monthly.PaddedValue | server/index.js:234 | A month padded to two digits reads back as itself. |
| Monthly.IntToDecimalInjective | server/index.js:234 | Different years have different numerals. |
| Monthly.FindCount | server/index.js:235 | `find(r => r.ym === ym)`: no result exactly when no row has the key. Otherwise it is the count of the first row with it. |
| Monthly.EntryForCount | server/index.js:235-236 | A window entry carries its month's label and the count of the first row with that label. It is 0 when no row has the label. |
| Monthly.MonthlyEvolution | server/index.js:230-237 | The loop yields exactly 12 entries. Entry j is the month 11 - j months back, with its count. |
| Monthly.WindowIsConsecutive | server/index.js:232-233 | The 12 entries are consecutive calendar months. The last one is the current month. |
| Monthly.WindowLabelsDistinct | server/index.js:232-235 | The 12 labels are pairwise different, so no count is shown twice. |
| ParcelStore.Bind | server/index.js:171-175 | A string is stored as TEXT, a number as REAL (NaN as NULL), and null or undefined as NULL. |
| ParcelStore.BindIsText | server/index.js:171-175 | A bound value is a given text exactly when it was that string. |
| ParcelStore.OrNull | server/index.js:173-175 | `v \|\| null` is `v` when it is truthy and null otherwise. |
| ParcelStore.ReferenceFor | server/index.js:140 | A non-blank string reference is stored trimmed. Any other gives `AUTO-` and the first 8 characters of the UUID, 13 characters in all. The stored reference is never blank. |
| ParcelStore.NewRowFields | server/index.js:141-177 | The inserted row has the handler's own id, reference and timestamps, with created_at = updated_at. Non-numeric GPS values become 0. Certificate, authority and plan fields that are not strings become `''`. Area and status are as the body gave them. |
| ParcelStore.CreateParcelReply | server/index.js:138-185 | The create handler's reply, in the code's order. 400 `Missing field: k` for the first missing key. 400 `Invalid numeric fields` for a non-numeric area. 500 `Server error` only when a value cannot be bound or a NOT NULL column would get NULL. 409 exactly when the checks pass but the id or the reference is already present. A body that passes the checks, binds, and has a fresh id and reference always gets 201 with the row to insert. |
| ParcelStore.CreateParcelReplyAsWritten | server/index.js:162-183 | The handler with the INSERT as written (33 columns, 32 placeholders): the same two 400 replies, and exactly `500 Server error` for every body that passes both checks. |
| ParcelStore.AsWrittenNeverCreates | server/index.js:162-183 | As written, every create fails and leaves the table unchanged. Each body the corrected handler stores gets a 500 instead. With 33 placeholders the statement prepares. |
| ParcelStore.CheckNewParcel | server/index.js:146-160 | The required-field loop and the following checks compute `CreateParcelReply`. A success never reuses an id or a reference. |
| ParcelStore.AfterCreateKeepsWellFormed | server/index.js:171-178 | Storing a successful reply keeps rows keyed by id and references unique. |
| ParcelStore.CreateKeepsWellFormed | server/index.js:138-185 | A create keeps the table well formed. A success adds exactly the new id (one more row). Every failure leaves the table unchanged. |
| ParcelStore.InsertKeepsWellFormed | server/index.js:171-176 | An insert under a fresh id and a fresh reference keeps the table well formed and adds exactly that key. |
| ParcelStore.FindByReference | server/index.js:132-136 | Lookup by reference returns the row with that reference, or 404 `Not found` exactly when there is none. |
| ParcelStore.CreateThenFind | server/index.js:132-178 | A parcel just created is found under its stored reference. |
| ParcelStore.ResubmittedReference | server/index.js:140 | Sending a stored, typed reference again gives the same stored reference, since trimming twice is trimming once. |
| ParcelStore.CreateTakesReference | server/index.js:171-176 | After a successful create, its reference is taken in the table. |
| ParcelStore.TakenReferenceConflicts | server/index.js:159-183 | A body that passes the checks but whose reference is taken gets 409 `Reference already exists`, so the table is unchanged. With the two rows above: a stored reference, sent again, is refused. |
| ParcelStore.ListParcels | server/index.js:121-130 | With a status that is given, not empty and not `all`, the listing has exactly the rows with that status. Otherwise it has every row. |
| ParcelStore.CreateRequestReply | server/index.js:192-209 | 400 `Invalid payload` when a required value is falsy. 500 `Server error` when a value cannot be bound or the id is taken. A 400 only for a falsy required value. A body with truthy, bindable values and a fresh id always gets 201, with the bound values, equal timestamps, and status `En attente` when none is given. |
| ParcelStore.IdsWhere | server/index.js:212-215 | A `WHERE` count counts rows of the table. |
| ParcelStore.MissingDocs | server/index.js:239-241 | The parcels no document points at are at most all parcels. |
| ParcelStore.PendingRequests | server/index.js:216 | The pending requests are at most all requests. |
| ParcelStore.StatsOf | server/index.js:211-218 | The total is the number of rows and the pending count is the number of requests in state `En attente`; free + disputed + mortgaged never exceeds the total, and pending requests never exceed the requests. |
| ParcelStore.DisputedAreConflicts | server/index.js:247-249 | Every disputed parcel is counted as a boundary conflict. |
| ParcelStore.ListingMatchesCounters | server/index.js:121-215 | Listing by each status gives as many rows as that status's counter. `all` or no status gives the total. |
| ParcelStore.CountAfterInsert | server/index.js:212-215 | A row under a fresh id adds one to exactly the counters whose condition it meets. |
| ParcelStore.InsertCountsMissingDocs | server/index.js:239-241 | A new parcel no document points at adds one to the missing-documents counter. |
| ParcelStore.CreateUpdatesCounters | server/index.js:239-245 | A created parcel without a document adds one to missing documents. It adds one to in validation exactly when its certificate number, authority or plan reference is `''` or not a string. |
| ParcelStore.InsertUpdatesStats | server/index.js:212-216 | A new row adds one to the total and to the counter of its status, and leaves the pending count alone. |
| ParcelStore.CreateUpdatesStats | server/index.js:212-216 | A created parcel is counted under the status the body gave. |
| ParcelStore.InsertCountsPending | server/index.js:216 | A new request adds one to the pending counter exactly when its status is `En attente`. |
| ParcelStore.CreateRequestCountsPending | server/index.js:199-216 | A request created without a status, or with `En attente`, is counted as pending. Any other is not. |
| ParcelStore.WithColumn | server/index.js:85-90 | After `ensureColumn(name)` the name is a column. The old columns keep their places. Nothing changes when the name was there. No duplicate appears. |
| ParcelStore.WithColumnsGrows | server/index.js:91-115 | After a series of calls, every name is a column, the old columns are a prefix, and no duplicate appears. |
| ParcelStore.WithColumnsPresent | server/index.js:85-90 | Calls for names that are already columns change nothing. |
| ParcelStore.MigrationIdempotent | server/index.js:84-115 | Running the start-up migration twice is running it once. |
| ParcelStore.Store.constructor | server/index.js:84 | The store starts from the given column list and tables. |
| ParcelStore.Store.EnsureColumn | server/index.js:85-90 | Pushes the name only when it is absent. The tables are untouched, and the column list stays free of duplicates. |
| ParcelStore.Store.Migrate | server/index.js:91-115 | The 25 `ensureColumn` calls, in order, leave the column list `WithColumns(old, MigratedColumns)`. |
| ParcelStore.Store.CreateParcel | server/index.js:138-185 | Replies with `CreateParcelReply` and stores the row exactly on success. The table stays well formed. |
| ParcelStore.Store.CreateRequest | server/index.js:192-209 | Replies with `CreateRequestReply` and stores the row exactly on success. |
| ParcelStore.Store.Extended | server/index.js:220-249 | The missing-documents, in-validation and boundary-conflict counters. The conflicts are at least the disputed parcels. The 12-entry monthly window. |
| ParcelDetail.FieldError | src/pages/ParcelDetail.tsx:112-128 | `area` errs exactly when not finite or ≤ 0. `gps_lat` errs exactly when not finite or outside [-90, 90]. `gps_long` errs exactly when not finite or outside [-180, 180]. Any other key gets `''`. |
| ParcelDetail.FormOf | src/pages/ParcelDetail.tsx:63-94 | The loaded form has exactly the 30 editable keys, each with the parcel's value. |
| ParcelDetail.ChangeSet | src/pages/ParcelDetail.tsx:160-166 | Exactly the form keys whose value is not `===` the stored one, each as `{from: stored, to: form}`. |
| ParcelDetail.ChangeSetNonEmptyIffChanged | src/pages/ParcelDetail.tsx:130-169 | The change-set is non-empty, so history is posted, exactly when `hasChanges` holds. |
| ParcelDetail.LoadedFormUnchanged | src/pages/ParcelDetail.tsx:63-139 | Right after loading a parcel that came from JSON, `hasChanges` is false and the change-set is empty. |
| ParcelDetail.PrevStep | src/pages/ParcelDetail.tsx:241 | `max(0, s - 1)`, which stays in [0, 5]. |
| ParcelDetail.NextStep | src/pages/ParcelDetail.tsx:244 | `min(5, s + 1)`, which stays in [0, 5]. |
| ParcelDetail.NextThenPrev | src/pages/ParcelDetail.tsx:241-244 | Next then previous returns to the section, except from the last one. |
| ParcelDetail.Prepend | src/pages/ParcelDetail.tsx:613 | The added note comes first, followed by the old list. |
| ParcelDetail.ReplaceNote | src/pages/ParcelDetail.tsx:596 | Same length. Exactly the notes with the id are replaced, and all others are kept in place. |
| ParcelDetail.RemoveNote | src/pages/ParcelDetail.tsx:602 | A note remains exactly when it was there and has another id. |
| ParcelDetail.RemoveNoteConcat | src/pages/ParcelDetail.tsx:602 | Removal works segment by segment, so the rest keep their order. |
| ParcelDetail.RemoveNoteCounts | src/pages/ParcelDetail.tsx:602 | Every copy with the id is removed, and every other note keeps its multiplicity. |
| ParcelDetail.RemoveAfterPrepend | src/pages/ParcelDetail.tsx:602-613 | Deleting a note just added, whose id was new, gives the previous list back. |
| ParcelDetail.RemoveAbsent | src/pages/ParcelDetail.tsx:602 | Deleting an id no note has changes nothing. |
| ParcelDetail.RemoveAfterReplace | src/pages/ParcelDetail.tsx:596-602 | Editing a note and then deleting it is deleting it. |
| ParcelDetail.TextKeptMeans | src/pages/ParcelDetail.tsx:552-557 | A non-blank filter keeps an entry exactly when its changes parse and the lower-cased trimmed filter occurs inside some lower-cased key. A blank filter keeps every entry. |
| ParcelDetail.VisibleHistory | src/pages/ParcelDetail.tsx:548-559 | An entry is shown exactly when it is in the history and passes the date bounds and the text filter. An invalid date fails every bound. |
| ParcelDetail.VisibleHistoryCons | src/pages/ParcelDetail.tsx:548-559 | The first entry, when it passes, is shown before what the rest shows. |
| ParcelDetail.VisibleHistoryOne | src/pages/ParcelDetail.tsx:548-559 | A single entry is shown exactly when it passes the filter. |
| ParcelDetail.VisibleHistoryConcat | src/pages/ParcelDetail.tsx:548-559 | The filter works segment by segment, so the shown entries keep their order and their multiplicity. |
| ParcelDetail.NoFilterShowsAll | src/pages/ParcelDetail.tsx:548-559 | With no date bounds and a blank filter, the whole history is shown, in order. |
| ParcelDetail.ListedKeys | src/pages/ParcelDetail.tsx:561-565 | At most 4 key names, the first ones of the changes. None when the changes do not parse. |
| ParcelDetail.StatusColor | src/pages/ParcelDetail.tsx:42-53 | Green for `Libre`, orange for `En litige`, red for `Hypothéqué`, grey otherwise. |
| ParcelDetail.StatusColorsDistinct | src/pages/ParcelDetail.tsx:42-53 | The three statuses get three different colours, none of them the grey one. |
| ParcelDetail.ParcelEditor.constructor | src/pages/ParcelDetail.tsx:11-27 | The page starts with no parcel, an empty form, no errors, step 0, and empty lists and inputs. |
| ParcelDetail.ParcelEditor.Load | src/pages/ParcelDetail.tsx:55-108 | A missing reference, a failed lookup and an absent parcel each set their own error. A loaded parcel sets the form to `FormOf`, the step to 0 and the lists (empty on failure), and clears the error. |
| ParcelDetail.ParcelEditor.SetField | src/pages/ParcelDetail.tsx:112-128 | Only `form[k]` and `errors[k]` change, and `errors[k]` is `FieldError`. |
| ParcelDetail.ParcelEditor.HasChanges | src/pages/ParcelDetail.tsx:130-139 | False with no parcel. Otherwise true exactly when some form key differs from the parcel's value. |
| ParcelDetail.ParcelEditor.ValidateRequired | src/pages/ParcelDetail.tsx:141-151 | True exactly when none of the 14 keys is missing. Otherwise it sets the error naming the first missing one. Nothing else changes. |
| ParcelDetail.ParcelEditor.Save | src/pages/ParcelDetail.tsx:153-177 | Nothing is sent with no parcel or a missing required field. Field errors never block. A failed update keeps the parcel and shows the error. A successful one sends the update, then one history entry with the change-set exactly when it is non-empty, and shows the returned parcel. |
| ParcelDetail.ParcelEditor.Prev | src/pages/ParcelDetail.tsx:241 | Only the step changes, to `PrevStep`. |
| ParcelDetail.ParcelEditor.Next | src/pages/ParcelDetail.tsx:244 | Only the step changes, to `NextStep`. |
| ParcelDetail.ParcelEditor.AddAgentNote | src/pages/ParcelDetail.tsx:613 | A blank text or no parcel does nothing. Otherwise the trimmed text is posted as the agent's. On success the note is prepended and the input cleared. |
| ParcelDetail.ParcelEditor.SubmitReport | src/pages/ParcelDetail.tsx:503 | As adding a note, with the text prefixed by `Signalement: ` and posted as the citizen's. On success the report box also closes. |
| ParcelDetail.ParcelEditor.StartEdit | src/pages/ParcelDetail.tsx:601 | The note's id and text go into the edit state. Nothing else changes. |
| ParcelDetail.ParcelEditor.CancelEdit | src/pages/ParcelDetail.tsx:597 | The edit state is cleared. Nothing else changes. |
| ParcelDetail.ParcelEditor.SaveEdit | src/pages/ParcelDetail.tsx:596 | A blank edit does nothing. Otherwise the trimmed text is sent. On success only the note with that id is replaced and the edit box closes. |
| ParcelDetail.ParcelEditor.Delete | src/pages/ParcelDetail.tsx:602 | Without confirmation nothing is sent. Otherwise the delete is sent, and on success exactly the notes with that id are removed. |
| ParcelDetail.SavedHistory | src/pages/ParcelDetail.tsx:167-169 | One history call, by `Agent`, exactly when the change-set is non-empty. |
| ParcelDetail.BuildChangeSet | src/pages/ParcelDetail.tsx:160-166 | The key-by-key loop builds exactly `ChangeSet`. |
| AddParcel.StepRequired | src/pages/AddParcel.tsx:88-96 | A step has required keys exactly when it is 1 to 6, and each of them is a key the server requires. |
| AddParcel.StepsCoverServerKeys | src/pages/AddParcel.tsx:88-95 | A key is required by the server exactly when some step requires it. |
| AddParcel.AllStepsIffServerChecks | src/pages/AddParcel.tsx:87-105 | A form passes all six steps exactly when it passes the server's required-field check and has a numeric area. |
| AddParcel.ValidFormNotRejectedAsInvalid | src/pages/AddParcel.tsx:87-105 | The server never answers a form that passed every step with a 400. When its values bind and its id and reference are fresh, the answer is 201 with the new row. |
| AddParcel.InputValue | src/pages/AddParcel.tsx:78-84 | The three numeric inputs store the parsed number, or 0 when it is 0 or NaN, so never NaN. Every other input stores its text. |
| AddParcel.FormWith | src/pages/AddParcel.tsx:7-31 | The form has exactly the given keys, each with its initial value. |
| AddParcel.FormWithTyped | src/pages/AddParcel.tsx:7-31 | Initial values have their input's type. |
| AddParcel.InitialFormTyped | src/pages/AddParcel.tsx:7-31 | The initial form is typed: numbers for the numeric inputs and text elsewhere. |
| AddParcel.InitialFormHasNumbers | src/pages/AddParcel.tsx:15-17 | The initial form has the three numeric inputs. |
| AddParcel.InitialFormStep1 | src/pages/AddParcel.tsx:87-99 | A fresh form cannot pass the first step. |
| AddParcel.InputKeepsTyped | src/pages/AddParcel.tsx:78-84 | Storing an input keeps the form typed. |
| AddParcel.TypedFormFacts | src/pages/AddParcel.tsx:101-103 | On a typed form the step-3 area test always holds, and a missing key is a blank text. |
| AddParcel.NextStep | src/pages/AddParcel.tsx:113 | `min(s + 1, 6)`, which stays in [1, 6]. |
| AddParcel.PrevStep | src/pages/AddParcel.tsx:118 | `max(s - 1, 1)`, which stays in [1, 6]. |
| AddParcel.PrevUndoesNext | src/pages/AddParcel.tsx:107-119 | Previous undoes next, except on the last step. |
| AddParcel.Wizard.constructor | src/pages/AddParcel.tsx:7-34 | The wizard starts on step 1 with the initial form, no message, and not loading. |
| AddParcel.Wizard.HandleChange | src/pages/AddParcel.tsx:78-84 | Only the named key changes, to `InputValue`, and the form stays typed. |
| AddParcel.Wizard.ValidateStep | src/pages/AddParcel.tsx:87-105 | The loop and the area test compute `StepValid`. |
| AddParcel.Wizard.HandleNext | src/pages/AddParcel.tsx:107-114 | An incomplete step keeps the step and shows the error message. A complete one clears the message and moves to `min(step + 1, 6)`. |
| AddParcel.Wizard.HandlePrev | src/pages/AddParcel.tsx:116-119 | Clears the message and moves to `max(step - 1, 1)`. |
| AddParcel.Wizard.HandleSubmit | src/pages/AddParcel.tsx:36-76 | Posts the current form. On success the form is reset to exactly the initial defaults and the success message shown. On failure the form is kept and the error shown. Loading ends false, and the step is never reset. |

## Left out

- SQLite DDL, the index creation and the `ALTER TABLE` statements (server/index.js:16-82, 87). Only the column-name list and the tables as maps are modelled.
- The SQL type affinity of SQLite is not modelled. For example, a number bound to a TEXT column is stored as text. Cells keep the type they were bound with.
- Express, CORS, `express.json`, `app.listen` and the `res.json` serialisation are I/O plumbing. The request body is a JSON object (`JsonObject`: no value undefined or NaN, while an overflowing literal such as `1e400` gives an infinity) in the lemmas that need it.
- `randomUUID()` and `new Date()` are parameters (`uuid`, `id`, `now`, the year and month index).
- `GET /api/requests` and the `ORDER BY datetime(created_at)` of the listings are left out. Tables are maps keyed by id, so listings are sets of rows without order.
- ParcelStore.Unbindable: a JSON object or array in a body field is taken as refused by `run`, so the handler answers 500. better-sqlite3 spreads an array argument into the positional parameters, so a one-element array holding a bindable value would be bound like that value. Arrays are not modelled element by element.
- A `status` query parameter given as an array is left out. The model takes it as an optional string.
- Several counters of `/api/stats/extended` are left out: `parcelsThisMonth` (SQLite's own clock), `parcelsByProvince` and `parcelsByCity` (grouped and ordered lists), and `pendingRequestsAvgDays` (float averaging of julian days). The per-month SQL query is an input of the window loop, not modelled.
- ParcelStore.Store.Extended: the catch that turns a failing query into a 500 is not modelled, because the modelled queries cannot fail on maps.
- The `documents` table is modelled only through the `parcel_id` links that the missing-documents counter reads.
- `src/lib/api.ts` and the backend routes it calls that the server shown does not implement (parcel update, history, notes, documents). Their outcomes are parameters.
- Number parsing (`parseFloat`, `Number()` on strings) and date parsing (`new Date(s)`) are parameters.
- ParcelDetail.ToNumber: `Number()` of an object or array is taken to be NaN. JavaScript would first convert it to a primitive.
- Lower-casing folds only A-Z and the Latin-1 capitals. Other Unicode case mappings are not modelled.
- The enumeration order of `Object.keys` is not modelled. Forms and change-sets are maps, and the history keys are an input sequence.
- The JSON serialisation of the form sent by `save` and by the wizard is not modelled. The call's argument is the form itself. `JSON.stringify` writes an infinite number as `null`, so a wizard area typed as `Infinity` reaches the server as null and gets `Missing field: area`; AddParcel.ValidFormNotRejectedAsInvalid speaks of the body the server receives, not of that form.
- JSX rendering is not modelled: the loading and saving spinners, the secondary tab, the drop-down open flags, the map links, and the opening and closing of the report box by its own buttons. Neither are the `loading` and `saving` flags of the edit page, nor its documents list and documents lookup.
- The history date inputs and the filter text are parameters of `VisibleHistory`, not page fields.
- `sessionStorage` is modelled only as the stored reference, a parameter of `Load`. `window.confirm` is the `confirmed` parameter of `Delete`. The confirmation before leaving with unsaved changes is not modelled, only `hasChanges` itself.
- Each handler is one atomic step. React's batching of state updates and the interleaving of concurrent awaits are not modelled.
- The two pages read an error's message differently (`typeof message === 'string'`, `instanceof Error`). Both are captured as the optional message of a rejected call.
- That a fresh wizard form passes step 3 is not stated as a lemma. It follows from `InitialFormTyped` and `TypedFormFacts`, but proving it about the 23-key literal is too costly for the verifier.

## Findings

| source | as written | input that shows it | evidently intended | confidence | as-written member | corrected member |
|---|---|---|---|---|---|---|
| server/index.js:162-170 | The parcel INSERT names 33 columns but its VALUES list has 32 `?` placeholders (`.run` passes 33 arguments). SQLite refuses to prepare the statement. The error is thrown inside the `try`, and its message does not contain `UNIQUE`, so the handler answers 500 `Server error`. | Any body with all 17 required fields non-blank, a numeric `area`, and bindable values, for example the wizard's form after all six steps. The reply is 500 and no row is stored. | One placeholder per column, so that a valid body is stored and answered with 201 and the row. | not executed | ParcelStore.AsWrittenNeverCreates | ParcelStore.CreateParcelReply |
