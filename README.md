# BreakMyWallet maintenance store, in Dafny

BreakMyWallet is a desktop tracker for BMW maintenance records. One window
holds a sidebar of four vehicles and a table view. Its data lives in a SQLite
table `maintenance` (`id`, `vehicle`, `task`, `last_date`, `last_mileage`,
`notes`) and can be exported to and imported from JSON.

This project models the record store behind that window: the table with its
AUTOINCREMENT ids, the per-vehicle view with its default-task placeholders,
the validated insert of the "Add Maintenance" form, export, and the
row-by-row import. It also proves properties of the model.

- `wrappers.dfy` (`Wrappers`): `Option` and `Result`.
- `text.dfy` (`Text`): Python's `str.strip()`, using the whitespace set of
  `str.isspace()`.
- `values.dfy` (`Values`): the values a column holds and the value
  `json.load` returns. It also states how Python iterates over a value and
  unpacks it, and which values the `sqlite3` module can bind as parameters.
- `catalog.dfy` (`Catalog`): the `VEHICLES` and `DEFAULT_TASKS` constants.
- `store.dfy` (`Store`): each statement's effect as a pure function of the
  rows (listing, placeholders, the new record, export, the import plan),
  plus the lemmas about those functions.
- `app.dfy` (`Tracker`): the class `BreakMyWalletApp`. Its fields are the
  table, the id counter, the selected vehicle and the view. Its methods
  change those fields step by step, as the source does, and each method's
  postcondition ties the new state to the `Store` functions.

Behaviour of the code that the model keeps:

- The form binds `last_mileage` as the stripped text it received, or NULL
  when that text is empty. SQLite's affinity conversion of that text is left
  out (see "Left out"). An explicit `"0"` is therefore kept and is never NULL. The date and the notes are stored as
  text even when they are empty. They are never NULL.
- The source's `save_record` returns nothing. `SaveRecord` reports the id
  the row received so that its postcondition can name it.
- Import commits only after its loop ends. The rows inserted before a failing
  entry stay in the open transaction of the one connection. Later reads see
  them, and the next commit writes them. The model therefore appends each row
  at once and keeps those rows when the import fails.
- Import unpacks any iterable with exactly five items. A five-character
  string or a five-key object is therefore accepted as an entry, and its
  characters or keys become the columns.
- Table order is insertion order: ids grow with every insert and the listing
  queries scan in rowid order.

## Model

| member | source | states |
|---|---|---|
| `Text.Strip` | bmw_maint_tracker.py:152-155 | the stripped field is empty exactly when every character is whitespace; otherwise it neither starts nor ends with whitespace |
| `Text.SkipSpace` | bmw_maint_tracker.py:152-155 | the leading whitespace `strip` drops ends at the first non-whitespace character |
| `Text.SkipSpaceBack` | bmw_maint_tracker.py:152-155 | the trailing whitespace `strip` drops starts after the last non-whitespace character |
| `Text.StripIsSlice` | bmw_maint_tracker.py:152-155 | reference definition: `strip` returns the slice with only whitespace around it that starts and ends with non-whitespace |
| `Text.StripIdempotent` | bmw_maint_tracker.py:152-155 | stripping an already stripped field changes nothing |
| `Values.Items` | bmw_maint_tracker.py:193 | what `for v, t, d, m, n in data` draws from a value: the elements of a list, one one-character string per character of a str, the keys of a dict in order; numbers, booleans and null are not iterable |
| `Values.Bind` | bmw_maint_tracker.py:194-196 | `sqlite3` binds None as NULL, a bool as the integer 0 or 1, a 64-bit int as itself, a float and a str as themselves; it refuses lists, dicts and ints outside 64 bits; every bound value is storable |
| `Values.BindToJson` | bmw_maint_tracker.py:183-196 | a stored value written by `json.dump` binds back to itself |
| `Catalog.CatalogWellFormed` | bmw_maint_tracker.py:18-32 | four vehicles with distinct names, five default tasks |
| `Store.IdsUnique` | bmw_maint_tracker.py:56 | no two rows of a valid table share an id |
| `Store.AppendNumberedValid` | bmw_maint_tracker.py:160-165 | rows inserted with AUTOINCREMENT ids keep the table valid; each new id exceeds every earlier id |
| `Store.SelectByVehicle` | bmw_maint_tracker.py:115 | the listing has at most one row per table row |
| `Store.SelectAfterInsert` | bmw_maint_tracker.py:160-166 | after an insert, the new row is listed last for its own vehicle and for no other vehicle |
| `Store.SelectAppend` | bmw_maint_tracker.py:115 | the listing keeps table order: listing `a + b` is listing `a` followed by listing `b` |
| `Store.SelectEmptyIff` | bmw_maint_tracker.py:115-119 | the listing is empty exactly when no row has that vehicle name |
| `Store.SelectSound` | bmw_maint_tracker.py:115-117 | every listed row projects some row whose `vehicle` equals the name |
| `Store.SelectComplete` | bmw_maint_tracker.py:115-117 | every row whose `vehicle` equals the name is listed |
| `Store.PlaceholderRows` | bmw_maint_tracker.py:119-121 | the placeholders are the five default tasks in catalog order, each `(task, "—", "—", "")` |
| `Store.Display` | bmw_maint_tracker.py:113-121 | the view is never empty |
| `Store.DisplayCases` | bmw_maint_tracker.py:113-121 | a vehicle with rows shows exactly its listing; a vehicle without rows shows exactly the five placeholders |
| `Store.NewRecord` | bmw_maint_tracker.py:151-163 | the form inserts nothing exactly when the task is blank; otherwise the row holds the vehicle's name, the stripped task (not empty), the stripped date and notes as text, and a mileage that is NULL exactly when the typed mileage is blank and otherwise the stripped mileage text |
| `Store.ExplicitZeroMileageKept` | bmw_maint_tracker.py:154-163 | a mileage of `" 0 "` is stored as the text `"0"`, not as NULL |
| `Store.TaskIsStripped` | bmw_maint_tracker.py:152-156 | a task typed with surrounding blanks is stored without them |
| `Store.InsertThenList` | bmw_maint_tracker.py:151-166 | saving for a vehicle with no history makes its listing exactly the one saved record |
| `Store.ExportShape` | bmw_maint_tracker.py:181-182 | export has one 5-tuple per row, in table order, equal to the row without its id |
| `Store.ExportNumbered` | bmw_maint_tracker.py:181-196 | exporting rows inserted from tuples gives back those tuples, because ids are dropped |
| `Store.ExportAppend` | bmw_maint_tracker.py:181 | the export of a longer table extends the export of a shorter one |
| `Store.FirstUnbindable` | bmw_maint_tracker.py:194-196 | finds the first parameter that cannot be bound; all parameters before it bind |
| `Store.DecodeEntry` | bmw_maint_tracker.py:193-196 | an inserted entry holds only values SQLite can store |
| `Store.DecodeEntryMeaning` | bmw_maint_tracker.py:193-196 | an entry is inserted exactly when it unpacks into five bindable values; otherwise it reports a non-iterable entry, the wrong count, or the first unbindable column |
| `Store.DecodeEntries` | bmw_maint_tracker.py:193-197 | the loop inserts at most one row per entry; it inserts all entries unless it stops, and it stops at the entry that comes right after the inserted ones |
| `Store.DecodeEntriesMeaning` | bmw_maint_tracker.py:193-203 | the inserted rows are the decoded entries 0..k-1 in file order, and the failure names entry k and why it failed |
| `Store.ImportStopsAtFirstFailure` | bmw_maint_tracker.py:193-203 | when entry k is the first malformed one, exactly entries 0..k-1 are inserted and entry k is reported |
| `Store.ImportAllEntries` | bmw_maint_tracker.py:193-198 | when every entry is well formed, all of them are inserted in file order and nothing fails |
| `Store.DecodedPrefixGrows` | bmw_maint_tracker.py:193-196 | one loop pass over a well-formed entry adds exactly that entry |
| `Store.DecodedPrefixFails` | bmw_maint_tracker.py:193-203 | one loop pass over a malformed entry ends the import with what is already inserted |
| `Store.DecodeRowJson` | bmw_maint_tracker.py:183-196 | an exported tuple imports back as itself |
| `Store.ImportExportedDocument` | bmw_maint_tracker.py:181-197 | importing an exported document inserts every exported tuple, in order, without failing |
| `Store.ExportImportRoundTrip` | bmw_maint_tracker.py:181-197 | export, import into an empty table, export again: the two exports are identical |
| `Store.ImportKeepsEmptyTask` | bmw_maint_tracker.py:193-196 | import does not validate: an entry with an empty task is inserted as it is |
| `Store.ThirdEntryMalformed` | bmw_maint_tracker.py:191-203 | when the third entry is malformed, only the first two are inserted and entry 2 is reported |
| `Text.IsSpace` | bmw_maint_tracker.py:152-155 | the whitespace `strip` removes: the characters for which `str.isspace()` holds (definition, no contract) |
| `Values.ToJson` | bmw_maint_tracker.py:183 | `json.dump` writes a column value as a scalar: never a list, a dict or a bool |
| `Store.Placeholder` | bmw_maint_tracker.py:120-121 | the row for one default task: its name, a dash for date and for mileage, empty notes |
| `Store.Placeholders` | bmw_maint_tracker.py:119-121 | one placeholder row per default task, in catalog order, named after that task |
| `Store.MileageValue` | bmw_maint_tracker.py:163 | `mileage or None`: NULL exactly for the empty string, otherwise the text itself |
| `Store.ExportRows` | bmw_maint_tracker.py:181-182 | the export query's result (definition; its meaning is stated by `Store.ExportShape`) |
| `Store.RowJson` | bmw_maint_tracker.py:183 | one exported tuple is written as a 5-element list of scalars |
| `Store.ExportDocument` | bmw_maint_tracker.py:183 | the exported document is a list holding one 5-element list per tuple, in order |
| `Store.ImportPlanOf` | bmw_maint_tracker.py:191-203 | a document that is not iterable inserts nothing and fails with a TypeError; this is the only way the whole document is refused |
| `Tracker.BreakMyWalletApp.constructor` | bmw_maint_tracker.py:36-47 | opening the file keeps an existing table and its counter, or starts an empty table whose first id is 1; no vehicle is selected and the view is empty |
| `Tracker.BreakMyWalletApp.CreateTables` | bmw_maint_tracker.py:52-64 | idempotent: an existing table keeps every row and the id counter; a missing table is created empty |
| `Tracker.BreakMyWalletApp.Insert` | bmw_maint_tracker.py:160-165 | appends exactly one row and leaves earlier rows unchanged; the new id is the counter, greater than every earlier id, and the counter advances |
| `Tracker.BreakMyWalletApp.LoadVehicle` | bmw_maint_tracker.py:110-121 | selects the vehicle, sets the heading to its name and rebuilds the view so that it equals `Display` for that vehicle |
| `Tracker.BreakMyWalletApp.AddMaintenancePopup` | bmw_maint_tracker.py:126-129 | the form opens exactly when a vehicle is selected; without one, nothing changes |
| `Tracker.BreakMyWalletApp.SaveRecord` | bmw_maint_tracker.py:151-169 | a blank task changes nothing; otherwise exactly one row (`NewRecord`) is appended under the next id and the view is reloaded |
| `Tracker.BreakMyWalletApp.ExportData` | bmw_maint_tracker.py:176-184 | read-only; returns one 5-element list per row, and importing that document would insert those tuples without failing |
| `Tracker.BreakMyWalletApp.InsertEntry` | bmw_maint_tracker.py:193-196 | one loop pass: either nothing is inserted and the entry's error is returned, or its decoded row is appended under the next id |
| `Tracker.BreakMyWalletApp.InsertEntries` | bmw_maint_tracker.py:193-197 | the table becomes the old rows plus the planned entries, numbered from the old counter; the failure is the plan's failure |
| `Tracker.BreakMyWalletApp.ImportData` | bmw_maint_tracker.py:186-203 | appends the entries in file order up to the first malformed one and keeps them when the import fails; reloads the view only after a complete import with a vehicle selected |

## Left out

- The Tkinter window is not modelled: layout, widgets, popups and message boxes. The messages are represented by the outcome values (`TaskRequired`, `ImportError`, a `false` from `AddMaintenancePopup`). The view keeps the cell values; the Treeview's conversion of those values to strings is not modelled. Closing the popup is not modelled.
- File dialogs, a cancelled dialog, opening files, and the JSON text format are not modelled, including `json.dump`'s 2-space indentation. Import and export work on the parsed JSON value. A file that `json.load` cannot parse shows an error and inserts nothing; the model starts from a parsed value. Dict keys are taken as distinct and in file order, as `json.load` produces them.
- The SQLite connection, commits, transactions and the database path are not modelled. Each INSERT appends to the table at once.
- Database failures are not modelled: a file that cannot be opened, a locked or corrupt database, a full disk, or the "Database Error" path of `save_record`.
- SQLite type affinity is not modelled. In the source, `last_mileage` turns `"7500"` into the integer 7500, and the TEXT columns turn numbers into text. In the model a column holds exactly the value that was bound. As a result, an imported numeric `vehicle` never matches a vehicle name in the listing.
- Values.Bind: `json.load` accepts `NaN`, and SQLite stores a bound NaN float as NULL. `Bind` keeps it as `Real("NaN")`, because floats are kept as their decimal text and not evaluated.
- AUTOINCREMENT's ceiling of 2^63-1 is not modelled. After that id SQLite refuses inserts; the model's ids are unbounded.
- The PIL images, the logo and icon paths, and window geometry are not modelled. The `logo` of each vehicle is kept as data only. The mileage and month intervals of `DEFAULT_TASKS` are kept as data; no behaviour reads them.
- Row order: the SELECTs have no ORDER BY. The model fixes their order as table (insertion) order.
- Text encoding is not modelled. A Python `str` is a sequence of Dafny `char`s, and whitespace is the set of characters for which `str.isspace()` holds.
