# Expense tracker record layer, in Dafny

This project models the record layer of a command-line expense tracker:

- **The expense entity** (`src/models/expense.py`). Construction rejects a non-positive amount and fills in a missing date, id or creation stamp. It also covers id generation (`exp_YYYYMMDD_HHMMSS_<6 random chars>`) and the six-key record that `to_dict` writes and `from_dict` reads back.
- **The file store** (`src/storage/expense_storage.py`). It keeps one JSON file per expense in a data directory. `ExpenseStorage` saves, lists, loads and deletes those files.
- **The input validators** (`src/utils/validators.py`) for amounts, categories and dates.

Modules:

- `Exceptions`: Option, Result and the Python exception kinds involved.
- `Calendar`: the Gregorian calendar, a wall-clock reading, and `strftime`/`isoformat`.
- `Text`: the `str` methods used.
- `Expenses`: the entity.
- `Storage`: the store, with the `ExpenseStorage` class.
- `Validators`: the validators.

How the environment is modelled:

- **The clock.** `datetime.now()` is a parameter `now: Clock`: one reading of a valid date and time.
- **Random suffixes.** `random.choices` is a parameter `suffix: Suffix`: six characters from `[a-z0-9]`. While loading, an id generated for the file `n` gets the suffix `draw(n)`.
- **The directory.** It is the field `entries` of `ExpenseStorage`. This is a map from file name to what `json.load` makes of the file: a parsed record, or `Corrupt` for text that is not JSON.
- **Listing order.** `iterdir()` order is arbitrary. Load and delete therefore take it as a parameter `listing`, which names every file of the directory exactly once.

The main results:

- **Records round-trip.** Every constructed expense is read back from its record unchanged (`Expenses.RoundTrip`). A complete record is written back unchanged (`Expenses.RecordRoundTrip`).
- **`from_dict` failures.** For amounts a float can hold, `from_dict` fails exactly on:
  - a missing `amount`, `category` or `description`: a `KeyError` naming the first one missing, in that order;
  - a non-numeric amount: a `TypeError`;
  - a non-positive amount: a `ValueError` from the constructor.
- **What `load_all_expenses` returns.** It is specified by `Storage.LoadSpec` and proved equal to it.
  - The load fails exactly when some listed expense file raises an error its except clause does not name.
  - Otherwise it returns one expense per file that loads, each such file's expense and nothing else.
  - The count does not depend on listing order.
- **Save then load.** Saved into an empty directory, an expense loads back alone (`Storage.SaveThenLoad`). In any directory, every load that succeeds includes it (`Storage.LoadAfterSave`); a load can still fail because of another file (see below). Both need an id that starts with `exp_`.
- **What `delete_expense` removes.** It removes exactly the first file, in listing order, whose stored `"id"` equals the argument, and reports whether there was one.
- **`validate_date`.** It accepts exactly what `strptime(s, "%Y-%m-%d")` and `datetime.date` accept.
  - This includes one-digit months and days, and a space-padded day.
  - Surrounding whitespace is rejected.
  - On zero-padded text: exactly the calendar dates, leap years included.

Two consequences of the code are easy to miss:

- **A non-numeric `amount` ends the whole load.** The except clause of `load_all_expenses` (`src/storage/expense_storage.py:55`) names `JSONDecodeError`, `KeyError` and `ValueError`, and the tests at `tests/test_expense_storage.py:129-155` skip only a file that is not JSON or lacks a key. A file whose `amount` is a JSON string or null instead makes `from_dict` raise a `TypeError` at `amount <= 0` (`src/models/expense.py:19`). The clause does not name it, so the error propagates and no list is returned. `Storage.LoadFile` models this as `Aborted`, and `Storage.LoadSpec` as an `Err` result.
- **Stored dates are not always valid calendar dates.** That invariant holds only for dates that went through `validate_date`. The constructor and `from_dict` keep any non-empty date as given (`Expenses.NewDefaults`, `Expenses.FromDictFields`).

## Model

| member | source | states |
|---|---|---|
| Calendar.DaysInMonth | src/utils/validators.py:64 | The month lengths `datetime.date` enforces: 29 days exactly for February of a Gregorian leap year, 28 for any other February, 30 for April, June, September and November, 31 for the other months |
| Calendar.FormatDate | src/models/expense.py:25 | `strftime("%Y-%m-%d")` is ten characters, with '-' at positions 4 and 7 and the zero-padded four-digit year first |
| Calendar.IsoFormat | src/models/expense.py:27 | `isoformat()` is 19 characters, or 26 when the microseconds are not zero; it starts with the `%Y-%m-%d` date followed by 'T' |
| Calendar.FormatStamp | src/models/expense.py:40 | `strftime("%Y%m%d_%H%M%S")` is 15 characters: 8 digits, '_', 6 digits; the 8 digits are the year, month and day of the `%Y-%m-%d` date without the dashes |
| Calendar.IsCalendarDate | src/utils/validators.py:64 | The dates `datetime.date` accepts: year 1 to 9999, month 1 to 12, day 1 to the month's length (`Calendar.DaysInMonth`) |
| Text.Strip | src/utils/validators.py:41 | `str.strip()` is empty exactly when the text is all whitespace; otherwise it starts and ends with a non-whitespace character; and it is the slice of the text that has only whitespace before it (what `lstrip` removes) and only whitespace after it |
| Text.Split | tests/test_expense.py:129 | `str.split(sep)` gives at least one part, and no part holds the separator |
| Text.JoinSplit | tests/test_expense.py:129 | Joining the parts of a split with the separator restores the text |
| Text.SplitJoin | tests/test_expense.py:129 | Splitting the join of separator-free parts gives those parts back |
| Text.Capitalize | src/utils/validators.py:44 | `str.capitalize()` keeps the length, upper-cases the first character and lower-cases every later one |
| Expenses.Supplied | src/models/expense.py:25-27 | `value if value else default`: None and "" give the default; any other value is kept |
| Expenses.New | src/models/expense.py:7-27 | Construction fails exactly when amount <= 0, with ValueError "Amount must be greater than zero"; otherwise it keeps amount, category and description, and the expense has a positive amount and non-empty id, date and creation stamp |
| Expenses.NewDefaults | src/models/expense.py:25-27 | A non-empty date, id or created_at is kept verbatim; an absent or empty one becomes today's date, a generated id or the current ISO timestamp |
| Expenses.GenerateId | src/models/expense.py:30-42 | A generated id is 26 characters: "exp_", 8 digits, '_', 6 digits, '_', then the six random characters |
| Expenses.GenerateIdFormat | src/models/expense.py:39-42 | A generated id starts with "exp_" and splits on '_' into exactly four parts: "exp", the 8 digits of the date, the 6 digits of the time, and the random suffix |
| Expenses.SplitStampId | tests/test_expense.py:125-134 | "exp_" + date + "_" + time + "_" + suffix splits on '_' into those four pieces when none of them holds a '_' |
| Expenses.ToDict | src/models/expense.py:51-58 | The record has exactly the keys id, amount, category, description, date and created_at, each holding its field |
| Expenses.Get | src/models/expense.py:75-77 | `data.get(key)` yields a string exactly when the key is present and holds one; absent and null both give None |
| Expenses.FromDict | src/models/expense.py:61-78 | A successful from_dict had amount, category and description present and gives a well-formed expense; a failure is a KeyError for amount, category or description, a TypeError, or the constructor's ValueError, and nothing else |
| Expenses.FromDictFailures | src/models/expense.py:71-78 | from_dict fails exactly when a required key is missing (KeyError naming the first missing key, in the order amount, category, description), the amount is not a number (TypeError), or it is not positive (ValueError) |
| Expenses.FromDictFields | src/models/expense.py:71-78 | A successful from_dict keeps amount, category and description; keeps a non-empty id, date or created_at; and fills an absent, null or empty one with its default |
| Expenses.RoundTrip | src/models/expense.py:44-78 | Round trip: from_dict(to_dict(e)) gives back e for every constructed expense, whatever the clock and random draw |
| Expenses.RecordRoundTrip | src/models/expense.py:44-78 | Inverse round trip: to_dict(from_dict(d)) == d for a record holding all six keys with a positive amount and non-empty id, date and created_at |
| Validators.ValidateAmount | src/utils/validators.py:17-25 | Accepts exactly a number > 0 and returns it; 0 or less raises "Amount must be greater than zero"; text float() cannot convert raises "Amount must be a valid number" |
| Validators.ValidateCategory | src/utils/validators.py:41-44 | Fails with "Category cannot be empty" exactly when the text is all whitespace; otherwise returns the stripped text capitalized |
| Validators.ValidatedCategoryShape | src/utils/validators.py:41-44 | An accepted category is non-empty, has no surrounding whitespace, starts with an upper-cased character and has every later character lower-cased |
| Validators.ValidateCategoryIdempotent | src/utils/validators.py:41-44 | validate_category accepts its own output and returns it unchanged |
| Validators.DayField | src/utils/validators.py:64 | The day strptime's %d reads is between 1 and 31 |
| Validators.DateFields | src/utils/validators.py:64 | A match of strptime's "%Y-%m-%d" pattern gives a year of 0 to 9999, a month of 1 to 12 and a day of 1 to 31 |
| Validators.IsBlank | src/utils/validators.py:60 | `not date_str or date_str.strip() == ""`: None, or text that strips to nothing |
| Validators.BlankIsWhitespace | src/utils/validators.py:60 | Present text is blank exactly when it is all whitespace, the empty text included |
| Validators.ValidateDate | src/utils/validators.py:60-67 | A blank input (None, "" or only whitespace) gives today's date; any other accepted input is returned unchanged; a rejection is ValueError "Date must be in YYYY-MM-DD format" |
| Validators.ValidateDateReads | src/utils/validators.py:60-67 | For text without surrounding whitespace, validate_date returns the text exactly when strptime reads it as a calendar date, and rejects it otherwise |
| Validators.PaddedDateFields | src/utils/validators.py:64 | strptime reads zero-padded YYYY-MM-DD text as the year, month and day it spells, exactly when the month is 1 to 12 and the day 1 to 31 |
| Validators.PaddedDateAccepted | src/utils/validators.py:63-67 | Zero-padded YYYY-MM-DD text is accepted exactly when it is a Gregorian calendar date (year 1 to 9999, month 1 to 12, day within the month) |
| Validators.TodayAccepted | src/utils/validators.py:60-67 | The default date validate_date returns for a blank input is itself accepted unchanged |
| Validators.UnpaddedDateAccepted | src/utils/validators.py:63-65 | A one-digit month and a one-digit day are accepted, and the text is returned as given; every year from 1 on qualifies |
| Validators.LeapDay | src/utils/validators.py:63-67 | "YYYY-02-29", for any four digits YYYY denoting a year from 1 on (0001 included), is accepted exactly when YYYY is a Gregorian leap year |
| Validators.NoDashRejected | src/utils/validators.py:63-67 | Non-empty text with no surrounding whitespace whose fifth character is not '-' is rejected |
| Validators.LeadingSpaceRejected | src/utils/validators.py:60-67 | Non-blank text that starts with whitespace is rejected; it is not stripped before strptime reads it |
| Validators.TrailingSpaceRejected | src/utils/validators.py:60-67 | Non-blank text that ends with whitespace is rejected; it is not stripped before strptime reads it |
| Validators.LastNotDigitNoFields | src/utils/validators.py:64 | Text that does not end in a digit matches no "%Y-%m-%d" reading, since the day field ends the text |
| Validators.SlashDateRejected | tests/test_validators.py:74-77 | "12/21/2025" is rejected with the format message |
| Validators.BlankDateExamples | tests/test_validators.py:68-91 | "   " and None both give today's date |
| Validators.ValidatedInputsConstruct | src/models/expense.py:19-25 | Amount, category and date that pass the validators construct an expense; the constructor keeps the category and date and the amount's value |
| Storage.IsExpenseFile | src/storage/expense_storage.py:107 | The filter of `get_all_expense_files`: `f.suffix == '.json'` and the name starts with "exp_" (restated as prefix and ending by `Storage.ExpenseFileFilter`) |
| Storage.PathSuffix | src/storage/expense_storage.py:107 | The suffix is empty, or starts with '.', is shorter than the name and ends it |
| Storage.ExpenseFileFilter | src/storage/expense_storage.py:107 | The listing filter (suffix ".json" and prefix "exp_") holds exactly for names that start with "exp_" and end with ".json" |
| Storage.FilterEdgeCases | src/storage/expense_storage.py:107 | "exp_.json" is kept; "exp_1.json.bak", "exp_1.JSON" and "Exp_1.json" are not |
| Storage.ExpenseFilename | src/storage/expense_storage.py:83-95 | The file name is the id followed by ".json" |
| Storage.ExpenseFilenameListed | src/storage/expense_storage.py:95-107 | The file of a saved expense is listed again exactly when its id starts with "exp_" |
| Storage.FilenameInjective | src/storage/expense_storage.py:95 | Expenses with different ids are saved to different files |
| Storage.ExpenseFiles | src/storage/expense_storage.py:104-107 | When the directory does not exist, no files; otherwise only listed names, and no more of them than listed |
| Storage.ExpenseFilesDistinct | src/storage/expense_storage.py:107 | A listing without repeats yields expense files without repeats |
| Storage.ExpenseFilesMembers | src/storage/expense_storage.py:107 | A name is among the files kept exactly when it is listed and passes the filter |
| Storage.ExpenseFileKept | src/storage/expense_storage.py:107 | The same, stated for one name |
| Storage.ExpenseFilesSingle | src/storage/expense_storage.py:107 | A one-name listing keeps that name exactly when it passes the filter |
| Storage.ExpenseFilesCons | src/storage/expense_storage.py:107 | The head of a listing is kept exactly when it passes the filter, in front of what the rest yields |
| Storage.ExpenseFilesAppend | src/storage/expense_storage.py:104-107 | The filter keeps listing order: filtering a concatenation gives the concatenation of the filtered parts |
| Storage.LoadFile | src/storage/expense_storage.py:51-57 | One file is skipped exactly when it is not valid JSON or from_dict fails with anything other than TypeError; it aborts the load exactly when from_dict fails with TypeError; a loaded expense is from_dict's result and is well-formed |
| Storage.LoadSpec | src/storage/expense_storage.py:48-59 | A successful load returns at most one expense per file, all well-formed |
| Storage.LoadSpecMeaning | src/storage/expense_storage.py:48-59 | The load fails exactly when some file aborts; otherwise every returned expense comes from some file that loads, and every file that loads contributes its expense |
| Storage.LoadSpecStep | src/storage/expense_storage.py:50-57 | One more file appends its expense when it loads, leaves the result alone when it is skipped, and ends the load with its error when it aborts |
| Storage.LoadSpecStopsAtError | src/storage/expense_storage.py:50-57 | Once a file aborts the load, later files change nothing: the error is that of the first aborting file |
| Storage.LoadedNames | src/storage/expense_storage.py:50-54 | The names of the files that load |
| Storage.LoadCount | src/storage/expense_storage.py:48-59 | For duplicate-free files, a successful load returns exactly one expense per file that loads |
| Storage.GoodNames | src/storage/expense_storage.py:50-57 | The expense files of the directory that load |
| Storage.LoadAllCount | src/storage/expense_storage.py:48-59 | Whatever the listing order, a successful load returns as many expenses as the directory has good files |
| Storage.LoadOne | src/storage/expense_storage.py:50-57 | If one file loads and every other file is skipped, the load returns that file's expense alone |
| Storage.LoadSkipsBadFiles | tests/test_expense_storage.py:129-155 | A directory with one saved expense plus files that are not JSON or lack a required key loads that expense alone, in any listing order |
| Storage.GoodNamesRemove | src/storage/expense_storage.py:71-77 | Removing a file removes at most that name from the good files; the count drops by one when it was good |
| Storage.HasId | src/storage/expense_storage.py:75 | `data.get("id") == expense_id` on a parsed file: the key is present and holds exactly that string (`Storage.FirstMatch` finds the first such file) |
| Storage.FirstMatch | src/storage/expense_storage.py:71-81 | The index of the first file whose stored id matches, with no earlier file matching; None exactly when no file matches |
| Storage.ExpenseStorage.constructor | src/storage/expense_storage.py:8-20 | The store keeps the given data directory, "data" by default, and opens an existing directory unchanged or creates it empty |
| Storage.ExpenseStorage.SaveExpense | src/storage/expense_storage.py:33-39 | The expense's file now holds to_dict of it, any earlier file of that name replaced; every other file is unchanged; the returned path is the directory, '/', and the file name |
| Storage.ExpenseStorage.LoadAllExpenses | src/storage/expense_storage.py:48-59 | The result is the load over the listed expense files, in listing order; the directory is unchanged |
| Storage.ExpenseStorage.DeleteExpense | src/storage/expense_storage.py:71-81 | Returns true exactly when some listed expense file holds the id; then exactly the first such file is removed, otherwise the directory is unchanged |
| Storage.LoadFiles | src/storage/expense_storage.py:48-59 | The loop of load_all_expenses returns exactly the load over the files it is given |
| Storage.FindMatch | src/storage/expense_storage.py:71-81 | The loop of delete_expense stops at exactly the first file holding the id, or reports that none does |
| Storage.DeleteRemovesMatch | src/storage/expense_storage.py:71-81 | A deleted file is an expense file of the directory holding the id; nothing is deleted exactly when no expense file holds it |
| Storage.DeleteGoodFile | src/storage/expense_storage.py:71-77 | Deleting a file that loads lowers the number of good files by exactly one |
| Storage.DeleteByStoredId | src/storage/expense_storage.py:71-79 | Delete matches the id stored inside a file, not the file's name, and passes over invalid JSON |
| Storage.SaveThenLoad | src/storage/expense_storage.py:33-59 | An expense saved into an empty directory loads back alone and unchanged, when its id starts with "exp_" |
| Storage.SaveAddsGood | src/storage/expense_storage.py:33-39 | Saving adds the expense's file to the good files and leaves the others as they were |
| Storage.LoadAfterSave | tests/test_expense_storage.py:62-78 | After a save into any directory, a successful load includes the saved expense and returns one expense per good file, the saved one included |
| Storage.SaveLoadDelete | tests/test_expense_storage.py:86-95 | Save, load, delete by id, load: the first load returns the expense, the delete succeeds and the second load returns nothing |
| Storage.Persistence | tests/test_expense_storage.py:157-168 | A second store opened on the first store's directory loads what the first one saved |

## Left out

- File I/O itself is not modelled: opening and closing files, the JSON text and its `indent=2` layout, and `mkdir` with `parents=True`. OS errors are not modelled either: reads never fail, and a matched delete always succeeds. Neither is removing the data directory from outside, so the store always passes "directory exists" to `ExpenseFiles`.
- The warning printed for a skipped file is not modelled. It is output only.
- Parsed JSON covers objects holding strings, numbers and null only. Arrays, booleans and objects that are not records are not modelled. Neither are numbers or nulls in the text fields category and description.
- Expenses.IsRecord also leaves out a number in `id`, `date` or `created_at`. `from_dict` would keep a non-zero number there as the field's value, and replace 0 by the default; the record model holds strings or null in those keys.
- A file whose bytes are not valid text is not modelled: `Content` is parsed JSON or `Corrupt`. `load_all_expenses` would skip such a file, since `UnicodeDecodeError` is a `ValueError` (`src/storage/expense_storage.py:55`). `delete_expense` would let the error propagate, since its except clause (`src/storage/expense_storage.py:78`) names only `JSONDecodeError` and `KeyError`.
- Subdirectories named like expense files are not modelled. Neither are ids holding '/' (which would save into a subdirectory), or path normalisation for `str(filepath)` (a data directory given as "." prints no "./" prefix).
- Clock readings are modelled with years 1000 to 9999 only, since `%Y` then prints exactly four digits. The constructor reads `datetime.now()` up to three times; the model uses one reading.
- Storage.LoadSpec, Storage.LoadFile: one clock reading `now` serves the whole load, whereas each `from_dict` that fills a default reads the clock again, so defaults filled in one load all come from the same moment in the model.
- The random draw is modelled as a function of the file name during a load, not as a sequence of draws.
- Expenses.FromDict, Expenses.FromDictFailures, Storage.LoadFile: a JSON integer amount outside the range of a float (a 400-digit integer, say) passes `amount <= 0` but makes `float(amount)` (`src/models/expense.py:22`) raise `OverflowError`. The except clause at `src/storage/expense_storage.py:55` does not name that error, so the whole load fails. The model reads every JSON number as a real, so it constructs such an expense and the file loads.
- Floats are modelled as reals. NaN, infinities and rounding are not modelled, and neither is the grammar of `float()`. `Validators.ValidateAmount` takes the parse outcome: a number, or "could not convert". The `TypeError` of `float(None)` is left out, because the input is always text.
- Case mapping is ASCII only. The `\d` of strptime's pattern is modelled as the ASCII digits, though Python's matches every Unicode decimal digit. Text is sequences of characters with no Unicode normalisation.
- The uniqueness of generated ids is not modelled. It rests on the clock and the random draw.
- `Expense.__str__` is not modelled: display formatting.
- `get_valid_input` is not modelled: an interactive prompt loop.
- `src/ui/menu.py` and `main.py` are not part of this model.
