# Reconciliation and ID assignment of the account-application checker

This project models the logic of a small desktop tool that checks account applications.
The tool reads three tables:

- an account export, with the account ID in column 0 and four role-slot email columns
  (8, 16, 25 and 42);
- an optional table of unregistered users, with the email in column 5 and a provisional
  ID (PID) in column 7;
- an application-form workbook, whose emails are checked against the other two.

The compare pass gives every form row an ID. The ID comes from the account export when
the email already has one. Otherwise a new ID is minted from a counter, which starts one
above the largest numeric ID. The pass also decides which emails are targets. The download
then writes the workbook's "Upload" rows for the emails minted an ID in this or an earlier
run. Column 0 of each row holds the ID the latest compare pass assigned to its email, and
is missing when that pass assigned none.

Modules, one per component:

- `Tables`: cells (`Option<string>`, where `None` is a missing value), positional tables,
  and `Str`, the stringification the source applies before every comparison.
- `Numeric`: integer literals read as numbers and numbers written as decimal text, with
  their round trip.
- `AccountExport`: the ID seed, the email→existing-ID map, the four slot sets and the
  email→PID lookup. The overwriting loops are methods proved against functions, and the
  functions are proved against per-email reference definitions.
- `Matching`: the row pass as a pure fold (`Pass`, one `Step` per form row), with lemmas
  that give its result in closed form.
- `Export`: the filter-and-stamp download, written as functions.
- `Checker`: the shared `state` record as a class. `RunCompare` resets and refills the
  per-run fields and is proved equal to `Matching.Pass`. `Download` only reads the state.

## Behaviour of the code worth knowing

- The export selects rows by `new_id_emails`, the emails minted an ID, not by
  `target_emails`. Its "nothing to export" check also tests `new_id_emails`
  (src/main.py:66, 82).
- `new_id_emails` is never reset. Only `target_emails` and `email_to_assigned_id` are
  reset at the start of a run (src/main.py:108-109). An email minted in an earlier run
  therefore stays selected for export. If the current form no longer has it, its column 0
  is written as missing (`Checker.ExportAfterRun`).
- An email that appears twice without an existing ID is minted a new ID on each row. The
  map keeps the second one (`Matching.DuplicateEmailMintedTwice`).
- The status headers (src/main.py:150) name column 8 pre-individual, column 16
  individual, column 25 import and column 42 bulk. The target rule tests flags 1 and 3
  (src/main.py:190), so it tests the individual and bulk columns.
- A missing form email is compared as the text "nan". A slot column with at least one
  blank cell also contains "nan", so a blank email counts as present in that column.

## Model

| member | source | states |
|---|---|---|
| `AccountExport.MaxId` | src/main.py:116-117 | the largest numeric value in column 0 is attained by some row and bounds every numeric row; none exists exactly when no row is numeric |
| `AccountExport.Seed` | src/main.py:115-121 | the seed is 1 when column 0 has no numeric value; otherwise it is one more than a numeric ID that occurs, and above every numeric ID |
| `AccountExport.SeedExample` | src/main.py:115-121 | IDs "3", "7", "x" and a blank give the seed 8 |
| `AccountExport.LastRecord` | src/main.py:127-129 | finds the last row that has the key in the key column and a value in the value column; no later row has both; when it finds nothing, no row has both |
| `AccountExport.AddPairsKeepsLast` | src/main.py:127-129 | after the overwriting scan, a key is present iff it was present before or some kept row has it; its value comes from the last such row |
| `AccountExport.FillPairs` | src/main.py:127-129 | the loop over the rows where neither cell is missing builds exactly the overwriting scan |
| `AccountExport.ExistingIdOf` | src/main.py:124-129 | reference lookup, newest slot column first: an email has an existing ID iff some slot column that exists records it next to a non-missing ID |
| `AccountExport.ExistingIdsAgree` | src/main.py:124-129 | the map built by scanning columns 8, 16, 25, 42 in order agrees with the reference: the last column that has the email decides, through its last row |
| `AccountExport.BuildExistingIds` | src/main.py:124-129 | the nested loops build the existing-ID map, skipping slot columns beyond the table width |
| `AccountExport.LaterSlotColumnWins` | src/main.py:125-129 | an email with ID "10" under column 8 and ID "20" under column 42 resolves to "20" |
| `AccountExport.SlotSet` | src/main.py:137-142 | the set of a slot column is empty when the export lacks that column; otherwise it holds the text of every cell of the column and nothing else, including "nan" when a cell is blank |
| `AccountExport.UnregisteredLookup` | src/main.py:144-145 | the PID lookup is empty when the table is not loaded or has fewer than 8 columns |
| `AccountExport.UnregisteredLookupLast` | src/main.py:146-148 | an email is in the lookup iff some row has it in column 5 and a PID in column 7; the PID comes from the last such row |
| `AccountExport.BuildUnregisteredLookup` | src/main.py:144-148 | the guard and the loop build exactly that lookup |
| `Numeric.NatToDecimal` | src/main.py:165 | `str()` of a natural number is a non-empty string of digits with no leading zero |
| `Numeric.NatToDecimalValue` | src/main.py:165 | the decimal text of a natural number has that number as its value |
| `Numeric.DecimalRoundTrip` | src/main.py:116 | reading a minted ID's text as a number gives back the number minted |
| `Numeric.DecimalInjective` | src/main.py:165 | distinct minted numbers are written as distinct IDs |
| `Matching.HighlightOf` | src/main.py:186-192 | a row is coloured as unregistered iff its email is in the PID lookup; a row is coloured at all iff the target rule holds (unregistered, or in neither slot 1 nor slot 3) |
| `Matching.SlotFlagsOfRow` | src/main.py:137-142 | there are four flags; flag k is set iff some cell of slot column k stringifies to the email; it is never set when the column does not exist |
| `Matching.Step` | src/main.py:156-192 | one loop iteration as a value; its properties are stated by `Matching.StepKeepsEarlier` and `Matching.StepMinted` |
| `Matching.StepKeepsEarlier` | src/main.py:170-171 | a step leaves earlier records alone and keeps the entry of every other email |
| `Matching.StepMinted` | src/main.py:161-168 | a step adds the counter's value to the minted numbers exactly when the row has no non-empty existing ID |
| `Matching.Pass` | src/main.py:107-192 | the whole row loop from the reset state and the seed, as a fold of `Step`; its properties are stated by `Matching.PassRecords`, `Matching.MintedGapFree`, `Matching.AssignedKeys`, `Matching.AssignedIsLastOccurrence` and `Matching.PassSets` |
| `Matching.PassCounter` | src/main.py:121 | one record per form row; the counter ends at the seed plus the number of rows with no non-empty existing ID |
| `Matching.PassRecords` | src/main.py:156-192 | each row shows its email, flags, PID and colour; it shows the existing ID when non-empty, origin existing; otherwise the ID seed + (number of earlier rows that needed one), origin minted |
| `Matching.MintedGapFree` | src/main.py:161-168 | the numbers minted, in row order, are exactly seed, seed+1, … with one per row that needed a new ID |
| `Matching.MintedIncreasing` | src/main.py:164-166 | minted numbers strictly increase along the rows |
| `Matching.AssignedKeys` | src/main.py:109 | after a run, `email_to_assigned_id` has an entry for every form email and for nothing else |
| `Matching.AssignedIsLastOccurrence` | src/main.py:170-171 | each email's entry is the ID shown on the last form row carrying that email |
| `Matching.PassSets` | src/main.py:186-192 | the run's `target_emails` is exactly the form emails meeting the target rule; the emails it mints are exactly the form emails with no non-empty existing ID |
| `Matching.MintedEmailsHaveMintedIds` | src/main.py:164-171 | every email minted in the run has an entry that reads back as a number in [seed, final counter) |
| `Matching.DuplicateEmailMintedTwice` | src/main.py:164-171 | an email on two rows with no existing ID is minted 5 and then 6, and the map keeps "6" |
| `Export.IndexOf` | src/main.py:82 | finds the first column named "email"; when it finds nothing, the sheet has no such column |
| `Export.KeptIndices` | src/main.py:82 | the rows kept are in sheet order, without repeats, and are exactly those whose stringified email is selected |
| `Export.ExportRows` | src/main.py:82-87 | one output row per kept row; column 0 holds the email's assigned ID, or is missing when it has none; every other column is unchanged |
| `Export.ExportUpload` | src/main.py:61-91 | with no workbook no file is written; with no minted email there is nothing to export; rows are written iff a path was chosen and the sheet has an "email" column; the written rows are the filtered, stamped rows, the header is the sheet's, and the count reported is the number of rows written |
| `Export.ExportExample` | src/main.py:82-91 | with rows for a, b and c, where a and b are selected and have IDs "8" and "20", the export writes two rows, stamped "8" and "20" |
| `Checker.Checker.constructor` | src/main.py:8-16 | the state starts with no inputs loaded and with empty target, assigned-ID and new-ID collections |
| `Checker.Checker.LoadAccountExport` | src/main.py:34 | stores the account export and touches nothing else |
| `Checker.Checker.LoadUnregistered` | src/main.py:44 | stores the unregistered table and touches nothing else |
| `Checker.Checker.LoadApplicationForm` | src/main.py:54-55 | stores the workbook path and the form and touches nothing else |
| `Checker.Checker.RunCompare` | src/main.py:98-197 | with the export or the form missing, nothing changes; otherwise the result rows and the target count are those of `Pass`; `target_emails` and `email_to_assigned_id` are replaced by its results; `new_id_emails` gains exactly the emails it minted |
| `Checker.Checker.MatchRows` | src/main.py:155-194 | the row loop, counter and in-place updates included, computes exactly `Pass` |
| `Checker.Checker.MatchRow` | src/main.py:156-192 | one iteration takes the result rows, the counter and the three collections from the state before a form row to the state `Step` gives after it |
| `Checker.Checker.AssignId` | src/main.py:157-171 | a non-empty existing ID is kept; otherwise the counter's value is shown, the counter advances by one and the email joins `new_id_emails`; the shown ID is recorded for the email either way |
| `Checker.Checker.ClassifyRow` | src/main.py:177-192 | the four slot flags, the PID and the colour are those of the row's email, and the email joins `target_emails` exactly when the row is coloured |
| `Checker.Checker.Download` | src/main.py:60-91 | reading the shared state: no workbook gives no file, an empty `new_id_emails` gives nothing to export, and a file is written iff a path is chosen and the Upload sheet has an "email" column; the written rows are the sheet's rows filtered by `new_id_emails` and stamped from `email_to_assigned_id` |
| `Checker.Checker.CompareThenDownload` | src/main.py:60-197 | a download right after a compare pass exports by `new_id_emails` grown by the emails that pass minted and by the IDs it assigned; with an input missing, by the state as it was |
| `Checker.CompareTwice` | src/main.py:107-197 | running the compare pass twice on the same inputs gives the same rows and leaves `new_id_emails` as after the first run |
| `Checker.ExportAfterRun` | src/main.py:82-87 | after a run, an exported row whose email was minted in that run carries a minted ID in column 0; a row kept only through an earlier run's email that is not on the form gets a missing ID |

## Left out

- The user interface is not modelled: the page, buttons, result-table cells and colours,
  log messages and file pickers. The row colour is kept as `Matching.Highlight`. The save
  dialog becomes a `path` parameter, where `None` or an empty path means cancelled.
- pandas I/O is not modelled: `read_csv`, `read_excel` (with the 7-row skip and the
  "Upload" sheet) and `to_csv` with its BOM encoding. The tables are given as values. A
  failed read of the Upload sheet becomes `upload == None`. A failure while writing the
  CSV is not modelled.
- The reshape of the form to columns 1-9 and the renaming of its headers are not modelled.
  The form is given as its email column. The `KeyError` the source raises when the
  renamed email column is absent is therefore not modelled.
- Numeric.ParseInt: recognises only an optional minus sign followed by decimal digits.
  pandas `to_numeric` also accepts decimals, exponents and surrounding blanks. The
  truncation in `int(max_id + 1)` of a fractional maximum is therefore not modelled. A
  leading `+` and the texts `inf`/`-inf` are not accepted either. An `inf` ID makes the
  maximum infinite, and `int(max_id + 1)` at src/main.py:121 lies outside the `try` at
  src/main.py:115-119, so the source raises and aborts the run after the resets at
  src/main.py:108-109. The model treats such a cell as non-numeric and mints from the
  largest finite ID instead.
- Tables.Str: cells hold the text `str()` gives for them. pandas' choice of dtype
  (for example `"10.0"` for an integer column that has blanks) is not modelled. Only the
  "nan" text of a missing value is.
- Export.IndexOf: takes the first column named "email". When reading a sheet, pandas
  renames later columns with that name to "email.1", "email.2" and so on, so
  `df_upload["email"]` is that first column. `UploadSheet.header` is the header as pandas
  reads it, with the renamed names. The renaming itself is not modelled.
- Exceptions are not modelled. An exception in the middle of the source's `try` blocks
  leaves the state partly updated, and the model makes no claim about atomicity.
- `async`/`await` scheduling is not modelled. The handlers run one after another.
