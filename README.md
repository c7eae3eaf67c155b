# Internship tracker: a Dafny model of its record store

The system is a small Flask web application in which students' internship
records, internship diaries and certificates are kept. It has three
SQLite tables (internships, diaries, certificates) and two upload
directories (diaries, certificates). Three POST handlers check a form and
append one row:

- `add_internship`;
- `diary_upload`, which also saves the uploaded file;
- `certificates`, which also saves the uploaded file.

The GET side has five views:

- the dashboard, with every internship in roll order;
- the 50 most recent diaries;
- the 50 most recent certificates;
- the print view of the diaries of rolls 37 to 54;
- the print checklist of rolls 37 to 54, each marked by whether a
  certificate exists for it.

This project models that core in Dafny:

- The tables are sequences of row datatypes.
- The database is a `Store` class. Its handler methods append a row (and
  save a file) and change nothing else.
- The queries are pure functions over the tables, with their ordering,
  filtering and limit stated and proved.
- The checklist loop of `print_certificates` is a method proved equal to a
  declarative map.

Modules:

| module | file | models |
|---|---|---|
| `Wrappers` | wrappers.dfy | `Option` |
| `Text` | text.dfy | Python's `str.strip()` (with the exact code points `str.isspace()` accepts), `str.lower()` and the last-dot search of `str.rsplit(".", 1)` |
| `Collation` | collation.dfy | SQLite's default BINARY text order used by every `ORDER BY` |
| `Sorting` | sorting.dfy | `ORDER BY`, `WHERE ... IN`, `LIMIT` as functions on sequences |
| `Uploads` | uploads.dfy | `ALLOWED` and `allowed_file` |
| `Rolls` | rolls.dfy | `ROLLS_37_54` (`str(i)` for `i` in `range(37, 55)`) |
| `Records` | records.dfy | rows, submitted forms, and the checks each POST handler makes |
| `Queries` | queries.dfy | the SELECTs of the dashboard, the two lists and the two print views; the presence checklist |
| `Database` | database.dfy | the store with its three tables, two directories and id counters; the three POST handlers |

Some of the system's behaviour is not under its control, and the model
takes it as parameters:

- the current time `now` is the ISO timestamp stored in
  `created_at`/`uploaded_at`;
- `today` is the date used when none is submitted;
- `stamp` is the integer seconds value used in a stored file name;
- werkzeug's `secure_filename` is a function parameter `secure`. The
  model fixes the string it is applied to, `roll + "_" + str(stamp) + "_" +
  original name`.

Three details of the code the model follows:

- A form that lacks the `roll` (or `student_name`) field entirely makes
  `.strip()` raise on `None`, so the request fails before the validation
  flash. The model has a separate outcome for this (`Failed`). Nothing is
  written either way.
- The code writes `request.form.get("date") or today`, so a submitted but
  empty `date` is replaced by today's date, as an absent one is.
- The diary and certificate handlers call `.strip()` on the roll, as the
  internship handler does, and store the stripped roll.

## Model

| member | source | states |
|---|---|---|
| `Text.IsSpace` | Manasvi_Portfolio_intersipp/app.py:80 | the characters `strip()` removes: exactly the code points Python's `str.isspace()` accepts |
| `Text.Strip` | Manasvi_Portfolio_intersipp/app.py:80-81 | `strip()` gives the empty string exactly when the input is all whitespace; otherwise the result starts and ends with a non-whitespace character |
| `Text.StripOfTrimmed` | Manasvi_Portfolio_intersipp/app.py:80-81 | a string with no whitespace at either end is left unchanged by `strip()` |
| `Text.StripIdempotent` | Manasvi_Portfolio_intersipp/app.py:103 | stripping twice is stripping once |
| `Text.StripIsInfix` | Manasvi_Portfolio_intersipp/app.py:128 | the stripped roll is a contiguous slice of the submitted one, and only whitespace was cut at both ends |
| `Text.TrimStart` | Manasvi_Portfolio_intersipp/app.py:80 | the result is a suffix of the input, everything cut is whitespace, and the result does not start with whitespace |
| `Text.TrimEnd` | Manasvi_Portfolio_intersipp/app.py:80 | the result is a prefix of the input, everything cut is whitespace, and the result does not end with whitespace |
| `Text.BlankConcat` | Manasvi_Portfolio_intersipp/app.py:86 | a concatenation is all whitespace exactly when both parts are |
| `Text.Lower` | Manasvi_Portfolio_intersipp/app.py:63 | the model of `lower()` keeps the length and lower-cases each ASCII letter in place (Python's `lower()` also maps non-ASCII letters; see Left out) |
| `Text.LastIndexOf` | Manasvi_Portfolio_intersipp/app.py:63 | finds no index exactly when the character is absent; otherwise finds an occurrence with none after it |
| `Text.LastIndexOfUnique` | Manasvi_Portfolio_intersipp/app.py:63 | an occurrence with no later occurrence is the one `rsplit(".", 1)` splits at |
| `Collation.Le` | Manasvi_Portfolio_intersipp/app.py:73 | SQLite's BINARY text order of `ORDER BY roll`: compare character by character, the smaller code point first at the first difference, and a proper prefix first |
| `Collation.LeIsLexicographic` | Manasvi_Portfolio_intersipp/app.py:73 | the text order equals an independent definition: a prefix first, otherwise the first differing character decides |
| `Collation.LeReflexive` | Manasvi_Portfolio_intersipp/app.py:73 | the text order is reflexive |
| `Collation.LeTotal` | Manasvi_Portfolio_intersipp/app.py:73 | any two strings are comparable |
| `Collation.LeAntisymmetric` | Manasvi_Portfolio_intersipp/app.py:73 | two strings ordered both ways are equal |
| `Collation.LtAsymmetric` | Manasvi_Portfolio_intersipp/app.py:73 | a string strictly before another is not after it |
| `Collation.LeTransitive` | Manasvi_Portfolio_intersipp/app.py:73 | the text order is transitive |
| `Collation.RollOrderExamples` | Manasvi_Portfolio_intersipp/app.py:73 | roll order is text order, not numeric: "100" sorts before "37" and "50" before "6" |
| `Sorting.InOrderTotal` | Manasvi_Portfolio_intersipp/app.py:121 | in either direction, any two keys are comparable |
| `Sorting.InOrderTransitive` | Manasvi_Portfolio_intersipp/app.py:121 | in either direction, the order is transitive |
| `Sorting.Insert` | Manasvi_Portfolio_intersipp/app.py:73 | inserting adds exactly one occurrence of the new row |
| `Sorting.InsertSorted` | Manasvi_Portfolio_intersipp/app.py:73 | inserting into a sorted table keeps it sorted |
| `Sorting.SortBy` | Manasvi_Portfolio_intersipp/app.py:73 | `ORDER BY` returns a permutation of the table |
| `Sorting.SortBySorted` | Manasvi_Portfolio_intersipp/app.py:73 | the result of `ORDER BY` is sorted by the key in the requested direction |
| `Sorting.KeepIf` | Manasvi_Portfolio_intersipp/app.py:165 | `WHERE` keeps each passing row as often as it occurs and drops every other row |
| `Sorting.Take` | Manasvi_Portfolio_intersipp/app.py:121 | `LIMIT n` returns min(n, size) rows, all from the input |
| `Sorting.TakeOfSortedIsTop` | Manasvi_Portfolio_intersipp/app.py:121 | on a sorted table, no row cut off by `LIMIT` sorts before a row kept |
| `Sorting.TakeOfSortedIsSorted` | Manasvi_Portfolio_intersipp/app.py:121 | `LIMIT` keeps a sorted table sorted |
| `Sorting.CutOffIsTail` | Manasvi_Portfolio_intersipp/app.py:147 | the rows `LIMIT` cuts off are those after the first n |
| `Uploads.Allowed` | Manasvi_Portfolio_intersipp/app.py:13 | `ALLOWED`: the four lower-case extensions png, jpg, jpeg and pdf |
| `Uploads.AllowedFile` | Manasvi_Portfolio_intersipp/app.py:62-63 | `allowed_file`: the name holds a "." and the text after its last ".", lower-cased, is in `ALLOWED` |
| `Uploads.Extension` | Manasvi_Portfolio_intersipp/app.py:63 | `rsplit(".", 1)[1]` is the suffix after a "." that contains no "." |
| `Uploads.AllowedFileIff` | Manasvi_Portfolio_intersipp/app.py:62-63 | a name is accepted exactly when it ends in "." plus one of png, jpg, jpeg, pdf, in any letter case |
| `Uploads.EndsWithExtensionAccepted` | Manasvi_Portfolio_intersipp/app.py:13 | a name ending in "." and an allowed extension is accepted |
| `Uploads.NoDotRejected` | Manasvi_Portfolio_intersipp/app.py:63 | a name without "." is refused |
| `Uploads.EmptyExtensionRejected` | Manasvi_Portfolio_intersipp/app.py:63 | a name ending in "." is refused |
| `Uploads.AllowedFileSplit` | Manasvi_Portfolio_intersipp/app.py:62-63 | only the text after the last "." decides, case-insensitively |
| `Uploads.UpperCaseExtensionAccepted` | Manasvi_Portfolio_intersipp/app.py:63 | "x.PDF" is accepted |
| `Uploads.InnerExtensionIgnored` | Manasvi_Portfolio_intersipp/app.py:63 | "a.pdf.exe" is refused |
| `Uploads.EmptyStemAccepted` | Manasvi_Portfolio_intersipp/app.py:63 | ".png" is accepted |
| `Rolls.Decimal` | Manasvi_Portfolio_intersipp/app.py:160 | `str(i)` is a non-empty digit string that starts with "0" only when it is the single digit of `i` < 10, and it has exactly one digit exactly when `i` < 10 |
| `Rolls.ParseDecimalOfDecimal` | Manasvi_Portfolio_intersipp/app.py:160 | reading `str(i)` back as a number gives `i` |
| `Rolls.PrintableRolls` | Manasvi_Portfolio_intersipp/app.py:160 | every entry of `ROLLS_37_54` is a digit string |
| `Rolls.PrintableRollsAreTheRange` | Manasvi_Portfolio_intersipp/app.py:160 | the list has 18 entries, and entry i denotes 37 + i |
| `Rolls.PrintableRollsEnds` | Manasvi_Portfolio_intersipp/app.py:160 | the list runs from "37" to "54" |
| `Rolls.TwoDigitNumeral` | Manasvi_Portfolio_intersipp/app.py:160 | `str(n)` for 10 <= n < 100 is its two digits |
| `Rolls.TwoDigitValue` | Manasvi_Portfolio_intersipp/app.py:160 | a two-digit string denotes 10 × first digit + second digit |
| `Rolls.PrintableRollsIncreasing` | Manasvi_Portfolio_intersipp/app.py:160 | entries strictly increase in value, so none repeats |
| `Rolls.PrintableRollCount` | Manasvi_Portfolio_intersipp/app.py:160 | there are exactly 18 distinct printable rolls |
| `Rolls.DistinctCardinality` | Manasvi_Portfolio_intersipp/app.py:176 | a list without repeats has as many distinct entries as entries |
| `Rolls.InPrintableRolls` | Manasvi_Portfolio_intersipp/app.py:160 | a roll is printable exactly when it is a two-digit numeral from 37 to 54: " 40", "040" and "40.0" are not |
| `Rolls.PrintableRollIsNumeral` | Manasvi_Portfolio_intersipp/app.py:160 | every printable roll is a two-digit numeral from 37 to 54 |
| `Rolls.NumeralIsPrintableRoll` | Manasvi_Portfolio_intersipp/app.py:160 | every two-digit numeral from 37 to 54 is a printable roll |
| `Rolls.PrintableRollOrderIsNumeric` | Manasvi_Portfolio_intersipp/app.py:165 | on printable rolls, text order coincides with numeric order |
| `Rolls.PrintableRollsSortedAsText` | Manasvi_Portfolio_intersipp/app.py:160 | `ROLLS_37_54` is strictly sorted as text |
| `Records.CheckInternship` | Manasvi_Portfolio_intersipp/app.py:80-88 | a missing roll or name field fails the request; otherwise the form passes exactly when neither is all whitespace, and a passing roll is non-empty and trimmed |
| `Records.CheckInternshipStrips` | Manasvi_Portfolio_intersipp/app.py:80-81 | a passing form yields its roll and student name stripped, both non-empty and trimmed |
| `Records.CheckUpload` | Manasvi_Portfolio_intersipp/app.py:103-109 | a missing roll field fails; otherwise the upload passes exactly when the roll is not all whitespace, a file with a non-empty name was sent, and its name is allowed |
| `Records.CheckUploadStrips` | Manasvi_Portfolio_intersipp/app.py:128-135 | a passing upload yields the stripped roll and the file as sent |
| `Records.CleanInternshipFormPasses` | Manasvi_Portfolio_intersipp/app.py:86-88 | a form whose roll and name are already clean passes with them unchanged |
| `Records.CleanUploadPasses` | Manasvi_Portfolio_intersipp/app.py:133-135 | an upload with a clean roll and an allowed file passes with the roll unchanged |
| `Records.FilePresent` | Manasvi_Portfolio_intersipp/app.py:106-107 | the truth value of the uploaded file: a file part was sent and its name is non-empty |
| `Records.DateOrToday` | Manasvi_Portfolio_intersipp/app.py:105 | `get("date") or today`: the submitted date when it is present and non-empty, today otherwise |
| `Records.StoredName` | Manasvi_Portfolio_intersipp/app.py:110 | the stored file name: `secure_filename` applied to the stripped roll, "_", the decimal timestamp, "_" and the original name |
| `Records.UploadNeedsOnlyAllowedName` | Manasvi_Portfolio_intersipp/app.py:107 | once a file was sent, `not file` adds nothing to `allowed_file`: an allowed name is never empty |
| `Queries.Dashboard` | Manasvi_Portfolio_intersipp/app.py:73 | the dashboard shows every internship, each as often as stored, in text order of roll |
| `Queries.DashboardShowsInserted` | Manasvi_Portfolio_intersipp/app.py:89-97 | a row just inserted appears on the dashboard |
| `Queries.RecentDiaries` | Manasvi_Portfolio_intersipp/app.py:121 | at most 50 diaries (all of them if fewer), all from the table, newest first, and none left out is newer than one shown |
| `Queries.RecentCertificates` | Manasvi_Portfolio_intersipp/app.py:147 | the same for certificates |
| `Queries.PrintDiaries` | Manasvi_Portfolio_intersipp/app.py:165-166 | exactly the diaries whose roll is in `ROLLS_37_54`, with multiplicity, in text order of roll |
| `Queries.PrintDiariesEmpty` | Manasvi_Portfolio_intersipp/app.py:165-166 | with no diary for a printable roll, the print view is empty |
| `Queries.PrintDiariesInNumericOrder` | Manasvi_Portfolio_intersipp/app.py:165 | the print view is also in numeric order of roll |
| `Queries.PrintCertificates` | Manasvi_Portfolio_intersipp/app.py:173-174 | exactly the certificates whose roll is in `ROLLS_37_54`, with multiplicity, in text order of roll |
| `Queries.Presence` | Manasvi_Portfolio_intersipp/app.py:176-178 | the `present` dict, stated declaratively: one key per printable roll, true exactly when some certificate has that roll |
| `Queries.PresenceChecklist` | Manasvi_Portfolio_intersipp/app.py:173-178 | the checklist built by the loop is the map from each printable roll to whether a certificate exists for it |
| `Queries.MarkRolls` | Manasvi_Portfolio_intersipp/app.py:177-178 | the loop adds no key and marks a roll exactly when it was marked before or a returned row has it |
| `Queries.ChecklistIsPresence` | Manasvi_Portfolio_intersipp/app.py:176-178 | marking the rolls found by the print query over all-false printable rolls gives the declarative checklist |
| `Queries.PrintCertificatesRolls` | Manasvi_Portfolio_intersipp/app.py:173-174 | every row of the print query has a printable roll |
| `Queries.PrintCertificatesHasRoll` | Manasvi_Portfolio_intersipp/app.py:173-174 | the print query has a row with a printable roll exactly when the table does |
| `Queries.PresenceKeys` | Manasvi_Portfolio_intersipp/app.py:176 | the checklist has exactly the 18 printable rolls as keys |
| `Queries.PresenceMeaning` | Manasvi_Portfolio_intersipp/app.py:176-178 | a roll is checked exactly when some certificate row has it, so a roll with none is unchecked |
| `Queries.PresenceIgnoresRepeats` | Manasvi_Portfolio_intersipp/app.py:177-178 | a second certificate for a checked roll, or one for a roll outside the range, changes nothing |
| `Queries.PresenceMarksRoll` | Manasvi_Portfolio_intersipp/app.py:177-178 | a certificate for a printable roll checks that roll and leaves the other entries alone |
| `Database.NumberedAppend` | Manasvi_Portfolio_intersipp/app.py:89-93 | appending a row with the next id and a clean roll keeps any table's ids increasing and below the next id, and every roll clean; the next id advances by one |
| `Database.FiledAppend` | Manasvi_Portfolio_intersipp/app.py:110-115 | saving a row's file and then appending the row keeps every row's file in the directory |
| `Database.Store.Valid` | Manasvi_Portfolio_intersipp/app.py:110-115 | the store's invariant: in every table ids increase and stay below the next id and rolls are non-empty and trimmed; every diary and certificate row names a file that exists in its directory |
| `Database.Store.constructor` | Manasvi_Portfolio_intersipp/app.py:27-60 | a new database has empty tables and directories, and ids start at 1 |
| `Database.Store.AddInternship` | Manasvi_Portfolio_intersipp/app.py:77-97 | a refused or failed form changes nothing; a passing one appends exactly one row, with the next id, the stripped roll and name, the other fields as sent, and the creation time; the invariant holds |
| `Database.Store.InsertInternship` | Manasvi_Portfolio_intersipp/app.py:89-95 | the INSERT appends the row and advances the next id |
| `Database.Store.UploadDiary` | Manasvi_Portfolio_intersipp/app.py:100-119 | a refused or failed upload writes no file and no row; a passing one saves the content under the stored name (overwriting a file of that name) and appends one row with that name, the stripped roll and the submitted date or today |
| `Database.Store.SaveDiary` | Manasvi_Portfolio_intersipp/app.py:110-115 | the file is saved under the row's name, then the row is appended |
| `Database.Store.UploadCertificate` | Manasvi_Portfolio_intersipp/app.py:125-145 | the same as UploadDiary for certificates, with type and issuer as sent |
| `Database.Store.SaveCertificate` | Manasvi_Portfolio_intersipp/app.py:136-141 | the file is saved under the row's name, then the row is appended |
| `Database.DashboardOfTwo` | Manasvi_Portfolio_intersipp/app.py:73 | two rows come out in roll order whatever their insertion order |
| `Database.DashboardScenario` | Manasvi_Portfolio_intersipp/app.py:77-97 | two accepted internships, the second with the smaller roll: the dashboard lists the second (id 2) first |
| `Database.DiaryScenario` | Manasvi_Portfolio_intersipp/app.py:100-123 | one accepted diary: the diary list shows one row with the stripped roll, and its stored name holds the uploaded bytes |

## Left out

- Flask plumbing is not modelled: routing, templates, flash messages, redirects and the GET renderings of the forms. A refused form is the `Refused` outcome; an exception in a handler is `Failed`.
- The second, GET-only `/add` route is not modelled. It only renders a form.
- Serving stored files (`send_from_directory`) is not modelled, nor its protection against path traversal.
- werkzeug's `secure_filename` is a parameter; what it does to a name is not modelled.
- Connection handling, commits and the table DDL are not modelled. The tables are fields of the store, and AUTOINCREMENT is a counter per table starting at 1.
- The clock is replaced by parameters.
- A failing `file.save` (IOError) and `os.makedirs` are left out. A save always succeeds in the model.
- Concurrent requests are not modelled.
- `sample_populate.py` is not part of this model.
- Text.Lower: lower-cases ASCII letters only and keeps the length, which Python's `lower()` does not always do. Two non-ASCII characters lower-case to something with an ASCII letter: KELVIN SIGN (U+212A) becomes "k", and LATIN CAPITAL LETTER I WITH DOT ABOVE (U+0130) becomes the two characters "i" and U+0307. No allowed extension contains "k" or "i", so `allowed_file`'s result is the same.
- Queries.Dashboard: SQLite leaves the order of rows with equal rolls unspecified. The model fixes one (insertion sort), and its contract states only what holds of any order: sorted, and a permutation of the table.
- Queries.RecentDiaries: the same for rows with equal `uploaded_at`. Which of several tied rows falls at the 50-row cut is also unspecified.
- Queries.RecentCertificates: the same as RecentDiaries.
- Queries.PrintDiaries: the same for rows with equal rolls.
- Queries.PrintCertificates: the same for rows with equal rolls.
- Queries.Presence: a Python dict keeps insertion order, so the checklist page lists the rolls in `ROLLS_37_54` order; the model's map has no key order. That order is the text order that `Rolls.PrintableRollsSortedAsText` proves.
- The model does not track the character encoding of text columns. BINARY collation compares UTF-8 bytes, which gives the same order as comparing code points, and code points are what the model compares.
