# Praktikumsplaner in Dafny

Praktikumsplaner plans school internships. A trainee teacher uploads the
school's WILLI2 timetable export, picks the subjects to observe with a weight
for each, and a branch-and-bound search picks one class per timetable slot.
The plan should use few distinct classes and keep the subjects near their
weights. This project models the logic underneath and proves properties of
it:

- **PlannerCore, PlannerSearch, PlannerFixture** (`core/src/lib.rs`):
  - The search problem, its cost function and the depth-first search
    `Problem::search`.
  - `Search` follows the code. Its class loop, branch body and leaf step are
    separate methods, because the source's `&mut` arguments are exclusive
    borrows. So a path (`current`, `used_classes`, `subject_counts`) and an
    incumbent (`best`, `best_cost`) pass in as values and come back out.
  - Proved: backtracking restores the path, `used_classes` stays free of
    duplicates, the counters match the assignment, and `best_cost` never
    rises.
  - `SearchBounded` is the corrected search, and `Solve` proves it optimal
    (see Findings).
- **Strings**: the pieces of Rust's `str` the WILLI2 parsers use. These are
  `split(' ')`, `split_once`, `find`, `char::is_alphabetic` and 64-bit
  `usize` parsing.
- **WilliHeader**: the header-line grammar `WilliHeader::from_str`, which both
  WILLI2 readers share.
- **Willi** (`willi/src/lib.rs`):
  - The hole-padded `SparseVec` as a class over a sequence of slots.
  - The `"Tag Stunde"` splitter and the type/id split of the first column.
  - `WilliStundenplan::parse`, whose loop routes each record into one of
    eight tables.
  - The parse is proved against `Replay`, a fold of per-record effects. The
    lemmas about `Replay` state the routing rules: last write wins for keyed
    tables and the school record, lesson lines are appended in order, and
    errors are reported in record order.
- **WilliDocument** (`crates/willi/src/lib.rs`): the second-generation reader.
  It has a mandatory header line, line errors that are collected, and CSV
  errors that abort.
- **FileUpload** (`src/hooks/file_upload.rs`): the upload state machine, as a
  class whose fields are the `state` and `is_valid` signals.
- **ReorderableList** (`src/components/reorderable_list/mod.rs`): the
  click-to-activate and arrow-key swap handlers.
- **SubjectCounts** (`lib/willi.ts`): the per-subject lesson histogram.
- **SolutionDialog** (`src/blocks/solution-dialog.tsx`): the period-by-day
  transpose of a solution and the filter that hides empty days.

Widths and foreign calls:

- Rust `usize` is unbounded `nat`. Where a value is parsed, the 64-bit bound
  `USIZE_MAX` is enforced.
- The CSV reader is a parameter `tokenize` from the body text to records.
  Each record is either a field sequence or `Malformed`, a CSV-level error.
- The serde row decoders are a parameter `decodes(table, row)`.
- The upload's `on_change` callback is a field of type
  `UploadedFile -> Result<(), ()>`.

Where the code and its comments disagree, the model follows the code:

- The search prunes only on `cost < best_cost`.
- `crates/willi` reads the type column from field 1, where the old reader uses
  field 0.
- `csv::Reader::from_reader` treats the first body row as column names, so
  `WilliDocument.BodyRecords` drops it. That reader is also not flexible, so
  every later row of another width is a CSV error. The old reader switches
  both off with `has_headers(false)` and `flexible(true)`.
- `crates/willi` splits the type column with `split_once`, which drops the id's
  first character (see Findings). The whole second-generation pipeline uses
  that split as written.

## Model

| member | source | states |
|---|---|---|
| PlannerCore.SubjectPosition | core/src/lib.rs:88-92 | the index of the first weight entry for the subject; None exactly when no entry names it |
| PlannerCore.SubjectAt | core/src/lib.rs:77-92 | for a well-formed problem, the counter index of the subject a class is taught at a slot is in range and names that subject |
| PlannerCore.ImbalanceNonNegative | core/src/lib.rs:47-54 | with positive ideal counts the imbalance sum is never negative |
| PlannerCore.Cost | core/src/lib.rs:35-57 | the cost is the number of distinct classes plus 0.1 times the imbalance, so it is at least the class count |
| PlannerCore.OfferedBelowAll | core/src/lib.rs:73-116 | the `assigned` flag after classes `0..c` is true exactly when one of them has a lesson at the slot |
| PlannerCore.CompletionExtend | core/src/lib.rs:121-129 | a full path that extends a prefix also extends the prefix one slot longer |
| PlannerCore.ExplorableSlot | core/src/lib.rs:116-130 | on every explored path a slot is empty exactly when no class has a lesson there |
| PlannerCore.Zeros | core/src/lib.rs:28-30 | the all-zero counter vector the search must start from |
| PlannerCore.Counts | core/src/lib.rs:77-93 | the subject counters a path implies, one per weight entry |
| PlannerCore.CountsSum | core/src/lib.rs:77-93 | the counters add up to the number of attended slots of the path |
| PlannerCore.Retain | core/src/lib.rs:112 | `retain(c != class)` keeps exactly the other elements and never grows |
| PlannerCore.SumUpdate | core/src/lib.rs:93-110 | bumping or lowering one counter changes the sum by exactly that amount |
| PlannerCore.SumZeros | core/src/lib.rs:28-30 | the starting counters sum to zero |
| PlannerCore.FeasibleAppend | core/src/lib.rs:77-79 | writing a class that has a lesson at the next slot keeps every entry backed by a lesson |
| PlannerCore.ExplorableAppend | core/src/lib.rs:77-130 | appending an offered class, or None at a slot nobody offers, keeps the path explorable |
| PlannerCore.CountsAppend | core/src/lib.rs:88-93 | appending a class bumps exactly its subject's counter, appending None changes none |
| PlannerCore.ClassesOfAppend | core/src/lib.rs:79-85 | appending a class adds exactly that class to the set of used classes |
| PlannerCore.DistinctCardinality | core/src/lib.rs:80-85 | a duplicate-free class list has as many elements as its set |
| PlannerCore.RetainAppend | core/src/lib.rs:80-113 | removing a freshly pushed class restores the list it was pushed onto |
| PlannerCore.ClassesOfPrefix | core/src/lib.rs:79-85 | a path uses every class that any prefix of it uses |
| PlannerCore.CompletionCostBound | core/src/lib.rs:44-56 | every completion of a prefix costs at least the prefix's distinct-class count |
| PlannerSearch.DominatesWeaken | core/src/lib.rs:63-67 | a cost bound that every completion meets stays met when the bound drops |
| PlannerSearch.DominatesStep | core/src/lib.rs:75-77 | the class loop's coverage invariant advances by one class |
| PlannerSearch.DominatesAllClasses | core/src/lib.rs:73-118 | once every class has been tried at an offered slot, every completion of the prefix is covered |
| PlannerSearch.DominatesUnattended | core/src/lib.rs:121-130 | at a slot nobody offers, covering the completions through None covers all of them |
| PlannerSearch.BoundedPruneSound | core/src/lib.rs:96 | pruning once the distinct-class count reaches the incumbent's cost discards no better completion |
| PlannerSearch.ImprovesTransitive | core/src/lib.rs:63-67 | two successive non-increasing incumbent updates compose into one |
| PlannerSearch.PushedClasses | core/src/lib.rs:80-85 | pushing a class only when it is missing keeps `used_classes` free of duplicates and equal to the path's classes |
| PlannerSearch.PlacedPath | core/src/lib.rs:79-93 | placing a class extends the explorable path and bumps the counter of its subject |
| PlannerSearch.PlacedConsistent | core/src/lib.rs:79-93 | the three updates of a branch keep the path, class list and counters consistent one slot further |
| PlannerSearch.Place | core/src/lib.rs:79-93 | writes the class, pushes it if new (`wasNew` exactly when it was missing), bumps its subject's counter and keeps the path consistent |
| PlannerSearch.Undo | core/src/lib.rs:108-113 | resetting the slot, lowering the counter and retaining only on `wasNew` gives back exactly the pre-branch path |
| PlannerSearch.Complete | core/src/lib.rs:60-71 | at the last slot the incumbent is replaced exactly on a strict improvement, and then `best_cost` is the new path's cost |
| PlannerSearch.Skip | core/src/lib.rs:121-130 | a slot no class offers is skipped with the path left unassigned there and still consistent |
| PlannerSearch.Search | core/src/lib.rs:23-131 | the search as written: returns the path unchanged, keeps a valid incumbent whose cost never rises and that changes only to an extension of the current prefix, and finds some plan when it starts from +infinity |
| PlannerSearch.Classes | core/src/lib.rs:73-118 | the class loop: path unchanged, incumbent only improves, and the `assigned` flag is true exactly when some class offers the slot |
| PlannerSearch.Branch | core/src/lib.rs:77-117 | one class branch: place, descend only when the partial cost is below `best_cost`, undo; the path comes back unchanged |
| PlannerSearch.SearchBounded | core/src/lib.rs:23-131 | the corrected search: everything `Search` promises, and in addition every completion of the prefix costs at least the final `best_cost` |
| PlannerSearch.ClassesBounded | core/src/lib.rs:73-118 | the corrected class loop also covers every completion through an offered slot |
| PlannerSearch.BranchBounded | core/src/lib.rs:77-117 | the corrected branch covers every completion that places this class at this slot |
| PlannerSearch.Solve | core/src/lib.rs:23-131 | started from empty path, zero counters and +infinity, the corrected search returns a full explorable plan of minimum cost |
| PlannerFixture.FixtureCells | core/src/lib.rs:6-14 | the fixture constant is the four-slot, two-class problem used below |
| PlannerFixture.FixtureSubjects | core/src/lib.rs:88-92 | in the fixture each subject's counter index is the subject itself |
| PlannerFixture.FixtureWellFormed | core/src/lib.rs:88-92 | the fixture meets the search's precondition |
| PlannerFixture.FixtureImbalance | core/src/lib.rs:47-54 | in the fixture the imbalance is the sum of the two counters' distances from 2, halved |
| PlannerFixture.FixtureStep | core/src/lib.rs:88-93 | one placed class in the fixture bumps the counter of its subject |
| PlannerFixture.AllClassZero | core/src/lib.rs:38-57 | observing only class 0 costs 1.1 |
| PlannerFixture.AllClassOne | core/src/lib.rs:38-57 | observing only class 1 costs 1.0 |
| PlannerFixture.PlacedClassOne | core/src/lib.rs:79-96 | after placing class 1 at slot 0 the partial cost is 1.15 |
| PlannerFixture.PruningCounterexample | core/src/lib.rs:96 | with incumbent cost 1.1 the source's test prunes class 1 at slot 0, though a completion through it costs 1.0 |
| PlannerFixture.TwoClassesPruned | core/src/lib.rs:96 | with incumbent cost 1.1 the source's test never descends from a state using two classes, so after the first leaf no branch descends |
| PlannerFixture.SolveFixture | core/src/lib.rs:23-131 | the corrected search finds the 1.0 plan of the fixture |
| Strings.FindFrom | willi/src/lib.rs:50-51 | the first occurrence of the pattern at or after an index, or none at all |
| Strings.SplitOnce | willi/src/lib.rs:50-53 | `split_once`: text before and after the first occurrence, None exactly when the pattern does not occur |
| Strings.SplitOnceCrlf | crates/willi/src/lib.rs:37 | a header line without CR splits off at the CRLF that ends it |
| Strings.IndexOf | willi/src/lib.rs:267 | the first index of the separator, or the length when there is none |
| Strings.Split | willi/src/lib.rs:267 | `split(' ')` yields at least one piece and no piece contains the separator |
| Strings.JoinSplit | willi/src/lib.rs:267 | joining the pieces with the separator gives back the text |
| Strings.SplitCons | willi/src/lib.rs:267 | a separator-free first piece is peeled off intact |
| Strings.SplitNone | willi/src/lib.rs:267 | text without the separator is one piece |
| Strings.FirstNonAlphabetic | willi/src/lib.rs:100-102 | `find(!is_alphabetic)` or the length: all before it are letters, the character there is not |
| Strings.ParseUsize | willi/src/lib.rs:277 | `parse::<usize>`: optional `+`, then only digits, at least one, with a value that fits in 64 bits |
| Strings.DecimalString | willi/src/lib.rs:277 | a decimal numeral made of digits only |
| Strings.DecimalValueOfString | willi/src/lib.rs:277 | a numeral denotes the number it was printed from |
| Strings.ParseDecimalString | willi/src/lib.rs:277 | parsing a printed `usize` gives it back |
| Strings.ParseLeadingZero | willi/src/lib.rs:277 | a leading zero or plus sign does not change the parsed value |
| Strings.ZeroPrefix | willi/src/lib.rs:277 | a leading zero keeps the digits valid and the value unchanged |
| WilliHeader.HeaderVersion | willi/src/lib.rs:266-280 | succeeds exactly when the 4th space-separated token is `Version:` and the 5th parses as a `usize`, which is the version |
| WilliHeader.HeaderRoundTrip | crates/willi/src/lib.rs:109-125 | a header of three words, `Version:` and a printed version reads back that version |
| WilliHeader.LeadingTokens | willi/src/lib.rs:267-269 | the first four tokens of such a header are the three words and `Version:` |
| WilliHeader.FirstTokenIsNumeral | willi/src/lib.rs:273 | the token after `Version:` is exactly the printed number |
| Willi.Holes | willi/src/lib.rs:727-729 | the padding `insert` pushes is all holes |
| Willi.Lookup | willi/src/lib.rs:735-737 | `get`: the slot's content for an index in range, None beyond the end |
| Willi.Inserted | willi/src/lib.rs:722-733 | after an insert the index holds the value, every other index reads as before, and the length is kept or grows to index + 1 |
| Willi.Entries | willi/src/lib.rs:743-749 | every yielded pair is a filled slot with its value, in strictly ascending index order |
| Willi.EntriesComplete | willi/src/lib.rs:743-749 | every filled slot is yielded |
| Willi.SparseVec.constructor | willi/src/lib.rs:715-719 | the default vector is empty |
| Willi.SparseVec.Insert | willi/src/lib.rs:722-733 | in range: replaces in place and returns the old content; beyond: pads with holes, appends, returns None; then `get(idx)` is the value and every other `get` is unchanged |
| Willi.SparseVec.Get | willi/src/lib.rs:735-737 | Some only for a filled slot in range, with its content |
| Willi.SparseVec.Iter | willi/src/lib.rs:743-749 | yields `(index, value)` pairs that `get` confirms, in strictly ascending index order |
| Willi.ParseTagStunde | willi/src/lib.rs:684-700 | splits at the first space into day and period; fails with "Ungültige Stundenzuordnung" exactly when there is no space |
| Willi.TagStundeRoundTrip | willi/src/lib.rs:691-698 | a space-free day, a space and a period split back into the two |
| Willi.TypeAndId | willi/src/lib.rs:88-106 | the longest letter prefix is the type and the rest parsed as `usize` is the id, 0 when it does not parse |
| Willi.TypeAndIdRoundTrip | willi/src/lib.rs:98-105 | letters followed by a printed id split back into both |
| Willi.TableOf | willi/src/lib.rs:132-144 | the table for each of W, F, U, PL, K, T, S and L; no table for any other type |
| Willi.EffectOf | willi/src/lib.rs:77-144 | a CSV error, a record without fields, a row that fails to decode, an unknown type (ignored) or a store into the type's table at its id |
| Willi.Effects | willi/src/lib.rs:77-145 | one effect per record, in order |
| Willi.SplitHeader | willi/src/lib.rs:50-53 | the header is the text before the first CRLF; without one there is no header and the body is the whole source |
| Willi.HeaderOf | willi/src/lib.rs:55-58 | a present header line yields exactly its parsed version (None when malformed), and no header line yields None |
| Willi.HeaderErrors | willi/src/lib.rs:55-58 | a malformed header is one error at the start position; a missing one is none |
| Willi.HeaderLine | willi/src/lib.rs:50-58 | for a CR-free first line, the header and its error follow from that line alone |
| Willi.Stundenplan.constructor | willi/src/lib.rs:60-70 | the plan starts with the given header and all tables empty |
| Willi.Stundenplan.Store | willi/src/lib.rs:132-144 | one dispatch arm: the tables become exactly `Applied(t, Store(...))` |
| Willi.ReadRecord | willi/src/lib.rs:77-144 | one loop iteration applies the record's effect and appends its error, tagged with the record's index, when it fails |
| Willi.ReadRecords | willi/src/lib.rs:77-145 | the loop leaves the tables at the replay of all effects and appends every failure in order |
| Willi.Parse | willi/src/lib.rs:47-148 | the header, the tables as the replay of the body's effects, and the header error followed by the record errors |
| Willi.AppliedKeyed | willi/src/lib.rs:136-142 | a keyed store writes only its own table and id |
| Willi.KeyedLastWins | willi/src/lib.rs:136-142 | a keyed table holds at each id the row of the last record stored there |
| Willi.KeyedNeverStored | willi/src/lib.rs:136-142 | an id no record stored is a hole |
| Willi.SchuldatenLastWins | willi/src/lib.rs:133-135 | the school record is the last W row |
| Willi.LehrerplanGrows | willi/src/lib.rs:138 | the lesson list only grows: each prefix's list is a prefix of the final one |
| Willi.LehrerplanRecord | willi/src/lib.rs:138 | a PL row is appended at the end of the list and stays in the final list |
| Willi.Stores | willi/src/lib.rs:132-144 | the stores among the effects |
| Willi.OnlyStoresMatter | willi/src/lib.rs:77-144 | errors and unknown types leave the tables untouched |
| Willi.ErrorsAscending | willi/src/lib.rs:77-145 | every record error names its record, and errors come in strictly ascending record order |
| Willi.FaultReported | willi/src/lib.rs:77-118 | every failing record is reported with its index |
| Willi.ReportedIsFault | willi/src/lib.rs:77-118 | every reported error comes from the record it names |
| WilliDocument.SplitTypeIdAsWritten | crates/willi/src/lib.rs:68-72 | as written: splits at the first non-letter and drops it; the rest must parse (else BadId); letters only give id 0 |
| WilliDocument.AsWrittenDropsFirstDigit | crates/willi/src/lib.rs:68-72 | "F12" gives id 2 and "F5" gives BadId |
| WilliDocument.AsWrittenRejectsOneDigitIds | crates/willi/src/lib.rs:68-72 | letters followed by a one-digit id are always rejected |
| WilliDocument.SplitTypeId | crates/willi/src/lib.rs:68-72 | corrected: the letter prefix is the type, the rest from the first non-letter must parse as the id (else BadId), letters only give id 0 |
| WilliDocument.SplitTypeIdRoundTrip | crates/willi/src/lib.rs:68-72 | letters followed by a printed id split back into both |
| WilliDocument.SplitTypeIdLettersOnly | crates/willi/src/lib.rs:72 | a column of letters only is its own type with id 0 |
| WilliDocument.AsWrittenSkipsSeparator | crates/willi/src/lib.rs:68-72 | as written, letters, one non-letter and a printed id split back into the letters and the id |
| WilliDocument.ParseRecord | crates/willi/src/lib.rs:63-99 | MissingType exactly without field 1, BadId exactly when the as-written split fails, a panic for the unimplemented types, accepted otherwise (unknown types included) |
| WilliDocument.RecordsAsWritten | crates/willi/src/lib.rs:63-99 | through the as-written split, "F5" and "Q5" are BadId line errors and "F 3" panics in the F arm |
| WilliDocument.FirstStop | crates/willi/src/lib.rs:51-52 | the first record that is a CSV error or a panicking type |
| WilliDocument.WidthChecked | crates/willi/src/lib.rs:48-52 | a row keeps its fields exactly when it has the expected width, and is a CSV error otherwise |
| WilliDocument.BodyRecords | crates/willi/src/lib.rs:48-52 | the reader yields the rows after the first, each a CSV error unless as wide as the first; a malformed first row is the first error |
| WilliDocument.Parse | crates/willi/src/lib.rs:36-61 | the parse outcome is `DocumentOutcome` of the source |
| WilliDocument.ReadBody | crates/willi/src/lib.rs:51-58 | the record loop's outcome is `RecordsOutcome` of the records |
| WilliDocument.NoCrlfIsMissingHeader | crates/willi/src/lib.rs:37-39 | a source without CRLF is MissingHeader |
| WilliDocument.BadHeaderIsInvalid | crates/willi/src/lib.rs:41 | a bad header line is InvalidHeader, whatever the body |
| WilliDocument.GoodHeaderReadsBody | crates/willi/src/lib.rs:41-58 | a valid header line leads to reading the body's records under that version |
| WilliDocument.FirstRowOnlyWidth | crates/willi/src/lib.rs:48-52 | given the same later rows, two column-name rows of the same width give the same outcome |
| WilliDocument.BadFirstRowAborts | crates/willi/src/lib.rs:48-52 | a malformed column-name row ends the parse with a CSV error |
| WilliDocument.WidthMismatchAborts | crates/willi/src/lib.rs:48-52 | the first later row whose width differs from the column-name row's ends the parse with a CSV error, unless a record panicked before it |
| WilliDocument.LineErrorCollected | crates/willi/src/lib.rs:54-57 | every rejected record is collected with its error |
| WilliDocument.LineErrorIsRejection | crates/willi/src/lib.rs:54-57 | every collected line error is a rejected record |
| WilliDocument.ParsedMeansClean | crates/willi/src/lib.rs:51-60 | a successful parse saw no CSV error and no unimplemented type, and keeps the header's version |
| WilliDocument.CsvErrorAborts | crates/willi/src/lib.rs:52 | a CSV error before any panic ends the parse with the CSV error |
| FileUpload.StateFile | src/hooks/file_upload.rs:129-135 | `file()` is Some exactly in Done, with its file |
| FileUpload.StateFileName | src/hooks/file_upload.rs:52-59 | `file_name()` is None exactly in Empty and otherwise the state's name |
| FileUpload.FileUpload.constructor | src/hooks/file_upload.rs:23-27 | valid; Done with the initial file when there is one, else Empty |
| FileUpload.FileUpload.IsValid | src/hooks/file_upload.rs:44-46 | the flag is false only for a finished upload |
| FileUpload.FileUpload.IsEmpty | src/hooks/file_upload.rs:48-50 | true exactly in Empty |
| FileUpload.FileUpload.FileName | src/hooks/file_upload.rs:52-59 | None exactly in Empty |
| FileUpload.FileUpload.File | src/hooks/file_upload.rs:61-63 | Some exactly in Done |
| FileUpload.FileUpload.IsReady | src/hooks/file_upload.rs:67-69 | true exactly when not Uploading |
| FileUpload.FileUpload.Begin | src/hooks/file_upload.rs:74-84 | when ready: Uploading under the name, valid, returns true; otherwise returns false and changes nothing |
| FileUpload.FileUpload.Abort | src/hooks/file_upload.rs:87-94 | Uploading becomes Failed under the same name; any other state is kept |
| FileUpload.FileUpload.Finish | src/hooks/file_upload.rs:96-107 | Uploading becomes Done with the name and content, valid exactly when the callback accepts; any other state is kept |
| ReorderableList.Swapped | src/components/reorderable_list/mod.rs:63-67 | `swap(i, j)` exchanges the two items and keeps the others and the length |
| ReorderableList.SwappedPermutes | src/components/reorderable_list/mod.rs:63-67 | a swap permutes the list |
| ReorderableList.SwappedTwice | src/components/reorderable_list/mod.rs:63-67 | swapping the same pair twice restores the list |
| ReorderableList.AfterKey | src/components/reorderable_list/mod.rs:57-72 | the key handler keeps length and multiset, keeps an in-range active index in range, and panics exactly on ArrowUp with an active index past the end |
| ReorderableList.StillKeys | src/components/reorderable_list/mod.rs:60-70 | no active item, another key, ArrowDown on the last item or ArrowUp on the first change nothing |
| ReorderableList.DownThenUpRestores | src/components/reorderable_list/mod.rs:62-69 | ArrowDown then ArrowUp restores list and active index |
| ReorderableList.UpThenDownRestores | src/components/reorderable_list/mod.rs:62-69 | ArrowUp then ArrowDown restores list and active index |
| ReorderableList.ActiveItemMoves | src/components/reorderable_list/mod.rs:62-70 | the active index keeps pointing at the same item |
| ReorderableList.ReorderableList.constructor | src/components/reorderable_list/mod.rs:41 | the list starts with its items and no active item |
| ReorderableList.ReorderableList.Click | src/components/reorderable_list/mod.rs:50-56 | clicking the active item deselects it, clicking another makes it active |
| ReorderableList.ReorderableList.KeyDown | src/components/reorderable_list/mod.rs:57-72 | the handler updates list and index exactly as `AfterKey` says, and a panic changes nothing |
| SubjectCounts.Count | lib/willi.ts:8-10 | the number of records of the subject is at most the number of records |
| SubjectCounts.CountPositive | lib/willi.ts:3-10 | a subject's count is positive exactly when some record teaches it |
| SubjectCounts.CountIsMultiplicity | lib/willi.ts:8-10 | the count is the subject's multiplicity among the records |
| SubjectCounts.ComputeSubjectCounts | lib/willi.ts:5-13 | the keys are exactly the subjects of the records and each maps to its count, which is at least 1 |
| SubjectCounts.Distinct | lib/willi.ts:8-10 | the subjects of the records, each once |
| SubjectCounts.SumOfCountsAppend | lib/willi.ts:8-10 | adding a key adds its count to the sum |
| SubjectCounts.SumOfCountsGrow | lib/willi.ts:9 | one more record adds one to the sum over distinct keys exactly when its subject is a key |
| SubjectCounts.CountsCoverRecords | lib/willi.ts:8-10 | the counts of the distinct subjects add up to the number of records |
| SolutionDialog.Longest | src/blocks/solution-dialog.tsx:32-34 | the maximum day length, 0 without days |
| SolutionDialog.CellAt | src/blocks/solution-dialog.tsx:37-41 | null past the day's end or for a null or 0 index; the lesson at the index when it is in range; `undefined` otherwise |
| SolutionDialog.Transpose | src/blocks/solution-dialog.tsx:27-43 | no rows without a solution or a plan; otherwise one row per period up to the longest day, each with one cell per day |
| SolutionDialog.ColumnReadsDay | src/blocks/solution-dialog.tsx:36-41 | column d of the grid reads day d back, period by period |
| SolutionDialog.ColumnPadding | src/blocks/solution-dialog.tsx:36-39 | below a shorter day's end its column holds null |
| SolutionDialog.NonEmptyDays | src/blocks/solution-dialog.tsx:72-89 | the number of days with periods is at most the number of days |
| SolutionDialog.KeepNonEmpty | src/blocks/solution-dialog.tsx:72-89 | the filter keeps one element per non-empty day, only original elements, and everything when no day is empty |
| SolutionDialog.HeaderDays | src/blocks/solution-dialog.tsx:63-73 | empty without a solution; a `TypeError` for fewer than seven days; else one name per non-empty day of the first seven |
| SolutionDialog.RowCells | src/blocks/solution-dialog.tsx:88-89 | a row shows one cell per non-empty day |
| SolutionDialog.NonEmptyDaysAppend | src/blocks/solution-dialog.tsx:72-89 | the count of non-empty days adds over concatenation |
| SolutionDialog.NoNonEmptyDays | src/blocks/solution-dialog.tsx:72-89 | no non-empty days exactly when every day is empty |
| SolutionDialog.SuffixEmpty | src/blocks/solution-dialog.tsx:72-89 | the days from an index on are empty exactly when the suffix has only empty days |
| SolutionDialog.LaterDaysEmpty | src/blocks/solution-dialog.tsx:72-89 | the first week holds every non-empty day exactly when no later day has periods |
| SolutionDialog.ColumnsAgree | src/blocks/solution-dialog.tsx:72-89 | with seven days or more, every row shows as many cells as the header has names exactly when no day after the seventh has periods |

## Left out

- `cost` is computed over `real`; IEEE `f64` rounding is not modelled.
- `de_german_float` and `ser_german_float` are not part of this model, because they are float parsing and formatting.
- `Problem::new` is not modelled: it is unfinished and returns no value.
- The problem generator and the example binaries are not part of this model.
- CSV tokenisation is a parameter, `tokenize`. A `csv::Error`'s byte and line position is reduced to the record's index.
- Serde row decoding is a parameter, `decodes`.
- The decoded row types are represented by their field sequences.
- The `warn!` log lines are not modelled: overwriting a record and meeting an unknown type only log.
- `WilliDocument.ParseRecord`: the `todo!()` arms are modelled as the `Unimplemented` outcome, a panic; no per-type record handling exists to model.
- `WilliDocument.Parse`: the source collects `line_errors` and then drops them. The model returns them in `Parsed`.
- `days` is never filled by the source, so the model does not keep it.
- `SparseVec::get_mut` is not modelled: it needs a mutable borrow of a slot, which the model does not have.
- Indices are `nat`. A `usize` index cannot reach `usize::MAX + 1` elements in practice, so the model does not bound it.
- `Strings.IsAlphabetic` is exact on Latin-1 only. Any other character counts as non-alphabetic, because the full Unicode alphabetic table is not modelled.
- `PlannerSearch.Search` is not claimed optimal, because it is not (see Findings). Its contract gives the same state guarantees as the corrected search, without the coverage clause.
- Panics that the preconditions exclude are not modelled: a subject without a weight entry, or a schedule that is not `classes × time_slots`.
- `WilliDocument.SplitTypeId`: the corrected split stands on its own, with its round trip. `ParseRecord` and the rest of the second-generation pipeline use the split as written, as the code does.
- `PlannerCore.Cost`: `IdealsPositive` requires every ideal count `time_slots × weight` to be positive. This excludes two silent behaviours of the `f64` code, not panics. A zero ideal makes a term infinite or NaN, so `cost < best_cost` never holds and the search returns with `best` still `None`. A negative ideal gives a negative term that rewards imbalance.
- wasm-bindgen and `js_sys` glue, the solver worker and its message protocol are not part of this model: they exist for foreign calls and concurrency.
- File reading, rendering and styling are not part of this model: they are I/O or presentation.
- `arrayMove` and the selection filters in `solver-form.tsx` are not part of this model, as library wrappers.
- `SubjectCounts.ComputeSubjectCounts`: keys inherited from `Object.prototype` are not modelled. These are a subject named `constructor` or `toString`, which makes `result[f] || 0` start from a function value.
- `SolutionDialog.CellAt`: lesson indices are integers. A fractional or `NaN` index from the worker is not modelled.
- Rendering `cell?.raum` shows nothing for both a null and an `undefined` cell. The model keeps the two apart.
- `SolutionDialog.Transpose`: `useMemo` caching is not modelled. The function is the memo's value.
- `ReorderableList.AfterKey`: an active index past the end is possible only after the list shrinks under it. In that case ArrowUp panics in `swap`. The model returns `None`, and `KeyDown` reports `panicked` with nothing changed.
- Two behaviours of the header in `solution-dialog.tsx` are modelled as written, not corrected: the `TypeError` for fewer than seven days, and the misalignment when a day after the seventh has periods. Both are stated in `HeaderDays` and `ColumnsAgree`. They are not claimed as findings, because how many days the solver emits is not visible here.

## Findings

| source | as written | input that shows it | evidently intended | confidence | as-written member | corrected member |
|---|---|---|---|---|---|---|
| core/src/lib.rs:96 | the search descends only while the partial cost is below `best_cost`, but the imbalance term of a partial path can fall as later slots fill, so this prunes subtrees that hold cheaper plans | 4 slots, 2 classes, subjects 0 and 1 weighted 0.5; class 0 teaches 0,0,0,1 and class 1 teaches 0,1,0,1. The search first finds all-class-0 at cost 1.1, then prunes class 1 at slot 0 (partial 1.15), though all-class-1 costs 1.0 | a branch-and-bound that returns a cheapest plan, pruning only on a lower bound such as the distinct-class count | not executed | PlannerSearch.Search, PlannerFixture.PruningCounterexample, PlannerFixture.TwoClassesPruned | PlannerSearch.SearchBounded, PlannerSearch.Solve |
| crates/willi/src/lib.rs:68-72 | `split_once` on the first non-letter drops that character, so the id loses its first digit | "F12" gives type F with id 2; "F5" fails with BadId | the id is the whole remainder after the letters, as in `willi/src/lib.rs:98-105` | not executed | WilliDocument.SplitTypeIdAsWritten, WilliDocument.AsWrittenDropsFirstDigit, WilliDocument.RecordsAsWritten | WilliDocument.SplitTypeId, WilliDocument.SplitTypeIdRoundTrip |
