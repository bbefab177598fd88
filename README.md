# SubjectsEditor: a verified model of the record, storage and export core

SubjectsEditor keeps a register of people ("subjects"). Each record has a
name, surname, patronymic, passport number and birthday. The program checks
each record when it is constructed. It stores records one per line in a
';'-delimited text file, reads them back at start-up, and exports a sorted
CSV view. The repository holds two nearly identical copies of this logic: a
desktop (WPF) copy in `SubjectsEditor/Model/Model.cs` and a console copy in
`SubjectsEditor/Program.cs`. This project models both with one validator
parameterised by `Subjects.Config`:

- `Desktop`: the passport range starts at 0101000001, and a null name is rejected.
- `Console`: the range starts at 0100000001, and a null name is dereferenced, which throws.

Files and modules:

- `common.dfy` (`Common`): `Option` (also stands for a null reference), `Result`, and `Outcome`, which is either a normal return or a thrown NullReferenceException.
- `text.dfy` (`Text`): `String.Split(';')`, fields joined by ';', `long.ToString()`, `long.Parse`, and zero-padded digits.
- `dates.dfy` (`Dates`): `DateTime` as a valid calendar day, its ordering, its invariant-culture text, and its parser.
- `subjects.dfy` (`Subjects`): the field rules, `CheckStringValue` (a loop method with its specification function), the first-failure chain of `CheckValues`, both constructors as all-or-nothing functions returning `Result<Subject, Failure>`, both `TryParse`, and the desktop form's predicates.
- `storage.dfy` (`Storage`): the storage line format, the line-by-line reading of `GetAllSubjects`, and the class `SubjectsStorage`. The class holds the file as a sequence of lines plus the shared stream's position.
- `export.dfy` (`Export`): `ConvertToCsvString`, `SaveToCsv`'s line loop, and the `OrderBy/ThenBy` four-key stable sort.
- `registry.dfy` (`Registry`): `AppModel`. It seeds the collection from storage, appends each added record to storage, and exports sorted.

The main invariant is `Registry.AppModel.Valid`. Re-reading the storage file
always yields exactly the records held in memory, with a null patronymic
coming back as "". So a record is never lost from the next read, provided
the file ends with a line terminator, as every file the program writes does
(see `Storage.SubjectsStorage.PutSubject` under "## Left out").

## Where the code does not do what it sets out to

The model follows the code in each case.

- `CheckBirthday` (SubjectsEditor/Model/Model.cs:234-241) refuses a birthday on or before 1900-01-01. Neither constructor applies that rule: `CheckValues` (SubjectsEditor/Model/Model.cs:138-164, SubjectsEditor/Program.cs:106-132) receives the birthday and never reads it (`Subjects.BirthdayFloorAccepted`).
- The storage interface offers `GetAllSubjects` as a query for all records (SubjectsEditor/Program.cs:16). The implementation reads from the shared stream's current position (SubjectsEditor/Model/Model.cs:326) and leaves it at the end, so a second call returns nothing (`Storage.SubjectsStorage.GetAllSubjects`).
- The comment at SubjectsEditor/Model/Model.cs:26 makes the first two digits a region code, and the range starts at 0101000001, so a passport is ten digits with a possible leading zero. The CSV export prints the number unpadded (SubjectsEditor/Model/Model.cs:265). So 0101000001 exports as serial `1010` and passport `1010-00001`, not `0101` and `0101-000001`.
- Every message is added to `Exception.Data` under the one key "Bad input" (SubjectsEditor/Model/Model.cs:79-82, 120-123; SubjectsEditor/Program.cs:97-100). A second message therefore throws a duplicate-key ArgumentException that carries none of the messages. So a rejection with two or more messages reports nothing, for example an unparsable passport with good names (`Subjects.UnparsablePassportCollectedTwice`, `Subjects.FillExceptionData`). The console then prints an empty `exc.Data["Bad input"]` (SubjectsEditor/Program.cs:416).
- A batch written with `PutSubjects` is never read back (see Findings). The commented-out ';'-separated `ToString` at SubjectsEditor/Model/Model.cs:249-254 shows the batch once wrote storage lines.

## Model

| member | source | states |
|---|---|---|
| `Subjects.CheckStringValue` | SubjectsEditor/Model/Model.cs:171-186 | The loop returns exactly what the length-and-alphabet rule decides: true iff the value is present, has 1 to 25 characters, and every character is in U+0410..U+044F or is '-' or ' '. |
| `Subjects.StringValueCheck` | SubjectsEditor/Program.cs:134-149 | Same rule. A null value makes the console copy throw NullReferenceException; the desktop copy returns false for it. |
| `Subjects.FieldCheck` | SubjectsEditor/Model/Model.cs:146-161 | Names at most one message: the first failing rule in the order name, surname, patronymic (only when non-empty), passport range. Each message appears iff its rule fails and every earlier rule holds. |
| `Subjects.CheckValues` | SubjectsEditor/Program.cs:106-132 | Keeps the earlier messages as a prefix and adds at most one: exactly the message `FieldCheck` names for the first failing rule, and none when every rule holds. Succeeds iff the final list is empty, i.e. no earlier parse error and all four field rules hold. Throws only in the console copy, on a null name, or on a null surname after a good name. |
| `Subjects.ParseErrors` | SubjectsEditor/Program.cs:65-83 | Parse failures are collected first. "Invalid passport number" is present iff the passport text does not parse. "Invalid birth date" is present iff a birthday text is given and does not parse. When both are present, the passport message comes first. |
| `Subjects.Construct` | SubjectsEditor/Model/Model.cs:66-84 | All or nothing: success iff there are no parse errors and all field rules hold; on success all five fields are set from the inputs. A rejection lists the parse errors followed by at most one field message, which is the one `FieldCheck` names for the first failing rule. |
| `Subjects.NewSubject` | SubjectsEditor/Program.cs:62-103 | String constructor: succeeds iff both texts parse and the field rules hold; the record carries the parsed values. A rejection lists the parse errors, then the message of the first failing field rule, if any. |
| `Subjects.NewSubjectOn` | SubjectsEditor/Model/Model.cs:94-126 | Date constructor: succeeds iff the passport parses and the field rules hold, whatever the birthday. A rejection lists the passport parse error, if any, then the message of the first failing field rule, if any. |
| `Subjects.TryParseDesktop` | SubjectsEditor/Model/Model.cs:188-203 | Returns a record iff the line has at least five ';'-fields and the string constructor accepts the first five; extra fields are ignored. The record is built from those five fields and is a valid desktop record. |
| `Subjects.TryParseConsole` | SubjectsEditor/Program.cs:151-170 | Returns a record iff the line has exactly six ';'-fields and the string constructor accepts the first five. The record is built from those five fields and is a valid console record. |
| `Subjects.CheckName` | SubjectsEditor/Model/Model.cs:205-208 | True iff the name is present and follows the name rule. |
| `Subjects.CheckSurname` | SubjectsEditor/Model/Model.cs:210-213 | True iff the surname is present and follows the name rule. |
| `Subjects.CheckPatronymic` | SubjectsEditor/Model/Model.cs:215-222 | True for null or ""; otherwise agrees with the name rule. |
| `Subjects.CheckPassportNumber` | SubjectsEditor/Model/Model.cs:224-232 | True iff the text parses to n with 101000001 <= n <= 9999999999. |
| `Subjects.CheckBirthday` | SubjectsEditor/Model/Model.cs:234-241 | True iff the date is strictly after 1900-01-01, stated on year, month and day. |
| `Subjects.DesktopPassportBoundaries` | SubjectsEditor/Model/Model.cs:27-28 | 101000001 and 9999999999 are accepted; 101000000 and 10000000000 are refused. |
| `Subjects.PassportRangeDecides` | SubjectsEditor/Program.cs:126-129 | With well-formed names, either constructor accepts a passport printed by `ToString()` iff it lies in the copy's range. |
| `Subjects.CopiesDisagreeOnLowerBound` | SubjectsEditor/Program.cs:21-24 | The console string constructor accepts 0100000001. The desktop copy rejects it from either constructor, with only "Incorrect passport number". |
| `Subjects.UnparsablePassportCollectedTwice` | SubjectsEditor/Model/Model.cs:98-108 | An unparsable passport leaves 0 behind. With good names, both "Invalid passport number" and "Incorrect passport number" are collected (but see `Subjects.FillExceptionData`: two messages are never reported). |
| `Subjects.BadNameHidesLaterFaults` | SubjectsEditor/Model/Model.cs:146-149 | When the passport text parses, a bad first name is the only message, whatever the surname, patronymic and passport value. |
| `Subjects.MessageTextsDistinct` | SubjectsEditor/Model/Model.cs:56-160 | The six message literals are pairwise distinct. |
| `Subjects.FillExceptionData` | SubjectsEditor/Model/Model.cs:76-84 | The rejection's loop over `Exception.Data.Add("Bad input", …)`: a duplicate key is hit iff there are two or more messages. Otherwise the data holds the single message's text under "Bad input", or nothing. |
| `Subjects.DisplayString` | SubjectsEditor/Model/Model.cs:243-255 | `ToString()`: the display text contains ';' iff the surname, name or patronymic does. |
| `Subjects.NullNameHandling` | SubjectsEditor/Program.cs:134-139 | A null name is reported by the desktop copy (from either constructor). The console string constructor throws NullReferenceException for it, whatever the surname, patronymic and birthday text hold. Both halves assume the passport text parses. |
| `Subjects.FormPredicatesMatchConstructor` | SubjectsEditor/Model/Model.cs:205-232 | The date constructor succeeds iff `CheckName`, `CheckSurname`, `CheckPatronymic` and `CheckPassportNumber` all hold. |
| `Subjects.BirthdayFloorAccepted` | SubjectsEditor/Model/Model.cs:234-241 | 1900-01-01 fails `CheckBirthday` and 1900-01-02 passes it, yet the constructor accepts a record born on 1900-01-01. |
| `Text.LongText` | SubjectsEditor/Model/Model.cs:308 | `long.ToString()`: the decimal digits of a non-negative number; never contains ';'. |
| `Text.ParseLong` | SubjectsEditor/Model/Model.cs:52 | `long.Parse`: a parsed value lies in the 64-bit range and comes from a present, non-empty text. |
| `Text.ParseLongText` | SubjectsEditor/Model/Model.cs:308 | Every 64-bit number's invariant text parses back to the same number. |
| `Text.Split` | SubjectsEditor/Model/Model.cs:329 | `Split(';')`: at least one field, and no field contains ';'. |
| `Text.SplitNoSeparator` | SubjectsEditor/Model/Model.cs:330 | A text without ';' splits into the one field it is. |
| `Text.SplitJoin` | SubjectsEditor/Model/Model.cs:329 | Splitting ';'-joined fields gives the fields back when none contains ';'. |
| `Dates.FormatInvariant` | SubjectsEditor/Model/Model.cs:309 | A date's invariant text is 19 characters long and holds no ';'. |
| `Dates.ShortDate` | SubjectsEditor/Model/Model.cs:266 | The short date text is 10 characters long and holds no ';'. |
| `Dates.CompareDates` | SubjectsEditor/Model/Model.cs:382 | The birthday comparison returns -1, 0 or 1; 0 iff the dates are equal; below 0 iff the first date is earlier by year, then month, then day. |
| `Dates.CompareDatesTransitive` | SubjectsEditor/Model/Model.cs:382 | The date order is transitive (antisymmetry in `Dates.CompareDatesAntisymmetric`). |
| `Dates.ParseDate` | SubjectsEditor/Model/Model.cs:60 | The modelled `DateTime.Parse`, narrowed to two shapes: a text it accepts is 10 or 19 characters long. |
| `Dates.ParsedDateIsFormatted` | SubjectsEditor/Program.cs:78 | The only texts the modelled parser accepts are a date's short text and its invariant text. With `Dates.ParseFormatted`, the modelled parser and the two formats are inverse. |
| `Dates.ParseFormatted` | SubjectsEditor/Model/Model.cs:309 | A date's invariant text (and its short text) parses back to the same date. |
| `Storage.StorageFields` | SubjectsEditor/Model/Model.cs:306-309 | `PutSubject` writes five fields. |
| `Storage.Stored` | SubjectsEditor/Model/Model.cs:307 | A record as it reads back: a null patronymic becomes "" and every other field is unchanged. |
| `Storage.ParseLine` | SubjectsEditor/Model/Model.cs:329-347 | A line is kept iff it splits into exactly five fields and the string constructor accepts them. The kept record is built from the five fields (the patronymic field as given, possibly ""), and it is valid. |
| `Storage.ParseLines` | SubjectsEditor/Model/Model.cs:323-352 | Reading keeps at most one record per line; every record kept is valid. |
| `Storage.SubjectsStorage.constructor` | SubjectsEditor/Model/Model.cs:288-302 | Opening a file leaves its lines unchanged, with the stream at the start. |
| `Storage.SubjectsStorage.PutSubject` | SubjectsEditor/Model/Model.cs:304-312 | Appends exactly the record's storage line; the stream ends at the end of the file. |
| `Storage.SubjectsStorage.PutSubjects` | SubjectsEditor/Model/Model.cs:314-321 | Appends each record's display line, in order, and nothing else. |
| `Storage.SubjectsStorage.PutSubjectsAsRecords` | SubjectsEditor/Model/Model.cs:314-321 | Corrected batch write: appends each record's storage line, in order. |
| `Storage.SubjectsStorage.ReadRecord` | SubjectsEditor/Model/Model.cs:329-347 | One pass of the reading loop: a record comes out iff the line has exactly five fields and the string constructor accepts them, and it is the record built from those fields. |
| `Storage.SubjectsStorage.GetAllSubjects` | SubjectsEditor/Program.cs:248-277 | Returns, in file order, the records of the lines from the stream position on, leaving the file unchanged and the stream at its end. |
| `Storage.StorageLineFields` | SubjectsEditor/Model/Model.cs:304-312 | The line `Storage.StorageLine` writes for a valid record (its five fields joined by ';') splits back into exactly those five fields: name, surname, patronymic, passport, birthday. |
| `Storage.StorageRoundTrip` | SubjectsEditor/Program.cs:230-238 | Reading back the line written for a valid record gives that record; a null patronymic comes back as "". |
| `Storage.ParseLinesAppend` | SubjectsEditor/Model/Model.cs:327-350 | Reading two parts of a file in turn gives the records of the first part followed by those of the second. |
| `Storage.StoredFormsOfParsed` | SubjectsEditor/Model/Model.cs:339-341 | Records read from storage are already in their stored form. |
| `Storage.AppendedRecordReadsBack` | SubjectsEditor/Model/Model.cs:374 | Appending a valid record's storage line to a file that reads back as some records makes it read back as those records followed by the new one. |
| `Storage.ReadBackAll` | SubjectsEditor/Program.cs:248-277 | Valid records written one by one read back as the same records, in the same order. |
| `Storage.ResaveIsStable` | SubjectsEditor/Model/Model.cs:323-352 | Writing back what was read and reading again gives the same records. |
| `Storage.SkippedLineIsHarmless` | SubjectsEditor/Model/Model.cs:330-347 | A line that fails to parse changes nothing about the records read from the lines around it. |
| `Storage.DisplayLineIsSkipped` | SubjectsEditor/Model/Model.cs:243-255 | A record's display line holds no ';', so reading always skips it. |
| `Storage.DisplayLinesAreSkipped` | SubjectsEditor/Model/Model.cs:316-319 | Reading back everything `PutSubjects` writes yields no records. |
| `Storage.TryParseOnStoredLines` | SubjectsEditor/Program.cs:155-158 | The desktop `TryParse` reads a stored line back; the console `TryParse` never accepts one. |
| `Storage.ConsoleRecordSkippedByDesktop` | SubjectsEditor/Model/Model.cs:27 | A console record with a passport below 0101000001 is read back by the console copy and skipped by the desktop copy. |
| `Export.ConvertToCsvString` | SubjectsEditor/Program.cs:190-196 | The line exists iff the passport text has at least four characters; shorter text makes `Insert(4, "-")` throw. |
| `Export.ValidRecordConverts` | SubjectsEditor/Model/Model.cs:265 | Every valid record converts. |
| `Export.CsvFields` | SubjectsEditor/Model/Model.cs:263-269 | Six fields: surname, name, patronymic, short birthday, the first four passport digits, and the digits with '-' after the fourth. The serial is a prefix of the last field, and removing the '-' gives the digits back. |
| `Export.SaveToCsv` | SubjectsEditor/Model/Model.cs:271-280 | One line per record, in the given order, each the record's CSV line. |
| `Export.CompareOrdinal` | SubjectsEditor/Model/Model.cs:379-380 | String comparison returns -1, 0 or 1, and 0 iff the strings are equal. |
| `Export.CompareNullable` | SubjectsEditor/Model/Model.cs:381 | The patronymic comparison of possibly-null strings returns -1, 0 or 1, and 0 iff both are null or both are the same string. |
| `Export.CompareKeys` | SubjectsEditor/Program.cs:389-392 | The four-key comparison returns -1, 0 or 1, and 0 iff surname, name, patronymic and birthday are all equal. |
| `Export.CompareKeysTransitive` | SubjectsEditor/Model/Model.cs:379-382 | The four-key order is transitive (antisymmetry in `Export.CompareKeysAntisymmetric`). |
| `Export.Insert` | SubjectsEditor/Model/Model.cs:379-382 | Inserting a record adds exactly that record: the result is the old sequence's multiset plus the record. |
| `Export.InsertSorted` | SubjectsEditor/Model/Model.cs:379-382 | Inserting into a sorted sequence keeps it sorted. |
| `Export.InsertWithKey` | SubjectsEditor/Program.cs:389-392 | Inserting a record leaves every other key's records in their order and puts the new record first among its own key. |
| `Export.OrderByKeys` | SubjectsEditor/Program.cs:389-392 | The sort returns a permutation of its input. |
| `Export.OrderByKeysSorted` | SubjectsEditor/Model/Model.cs:379-382 | The result is ordered by surname, then name, then patronymic, then birthday. |
| `Export.OrderByKeysStable` | SubjectsEditor/Program.cs:389-392 | Records with equal keys keep their original relative order. |
| `Export.OrderByKeysIsTheStableSort` | SubjectsEditor/Model/Model.cs:379-382 | Any sequence that is ordered by the keys and keeps each key's records in input order equals the sort's result. |
| `Registry.AppModel.constructor` | SubjectsEditor/Model/Model.cs:371-375 | The collection starts as exactly the records read from the file. |
| `Registry.AppModel.Add` | SubjectsEditor/Model/Model.cs:374 | Adding a record appends it to the collection and its storage line to the file, keeping "re-reading the file gives the collection". |
| `Registry.AppModel.SortAndSaveSubjects` | SubjectsEditor/Model/Model.cs:377-384 | Exports one CSV line per record, in the stable four-key order. |

## Findings

| source | as written | input that shows it | evidently intended | confidence | as-written member | corrected member |
|---|---|---|---|---|---|---|
| SubjectsEditor/Model/Model.cs:314-321 | `PutSubjects` writes each record's `ToString()` display form, which contains no ';' | any valid record, e.g. name "А", surname "А", passport 101000001: its display line splits into one field, so `GetAllSubjects` skips it | write each record as `PutSubject` does, so that the batch reads back | medium, not executed | `Storage.DisplayLinesAreSkipped` | `Storage.SubjectsStorage.PutSubjectsAsRecords` |

`Storage.SubjectsStorage.PutSubjects` models the code as written. With
`Storage.DisplayLinesAreSkipped`, it shows that nothing a batch write puts in
the file is ever read back. The corrected `PutSubjectsAsRecords` appends
`StorageLines(ss)`. `Storage.ReadBackAll` proves those lines read back as the
same records, in order. Program.cs:240-247 has the same code.

## Left out

- File handles and streams (`FileInfo`, `StreamReader`/`StreamWriter`, `Flush`, `Dispose`): the file is a sequence of lines, and flushing is not modelled.
- The failure of opening the storage file is left out. The source only logs it and keeps a half-built store.
- Writing the export file, and console `SaveSubjects`: `Export.SaveToCsv` and `Registry.AppModel.SortAndSaveSubjects` return the lines that would be written.
- The console command loop, prompts and `ReadAndSaveSubject`: interactive I/O. The insertion they trigger is `Registry.AppModel.Add`.
- `Console.WriteLine` diagnostics in `GetAllSubjects` and `TryParse`: output only.
- The WPF view models, converters and `Command`: UI bindings. `CollectionChanged` wiring is folded into `Registry.AppModel.Add`.
- `Subjects.Construct`, `Subjects.NewSubject`, `Subjects.NewSubjectOn`: a rejection returns the list of messages collected. The exception actually thrown is given separately by `Subjects.FillExceptionData`. With two or more messages, that exception is the duplicate-key ArgumentException from `Exception.Data.Add`, which carries none of the texts. The constructors' results do not fold this in.
- `Subjects.TryParseDesktop`, `Subjects.TryParseConsole`: take a non-null line. In the source, `Split` runs outside the `try` (SubjectsEditor/Model/Model.cs:191, SubjectsEditor/Program.cs:154), so a null line throws NullReferenceException instead of returning false. Both methods are deprecated and never called.
- The deprecated `CreateSubject(string, string, string, long, DateTime)` (SubjectsEditor/Program.cs:33-54) and the console `SaveToCsv` (SubjectsEditor/Program.cs:199-209): both throw `NotImplementedException` and model no behaviour. The deprecated five-string `CreateSubject` (SubjectsEditor/Program.cs:56-60) only forwards to the string constructor, which `Subjects.NewSubject` with `Console` models.
- `Text.ParseLong`: an optional '-' and ASCII digits only. Leading or trailing white space and a leading '+', which .NET accepts, are not modelled.
- `Dates.ParseDate`: only MM/dd/yyyy, optionally followed by " 00:00:00". Other shapes `DateTime.Parse` accepts are not modelled, and there is no time of day.
- `Dates.ShortDate`: assumes the invariant culture's MM/dd/yyyy; other cultures' short dates are not modelled.
- `Export.CompareKeys`: compares strings by ordinal code point, not by the culture-sensitive collation of the default string comparer. This changes the export order for ordinary input: ordinally every capital U+0410..U+042F sorts before every small letter, so "Петров" comes before "иванов", which the culture comparer puts first. The proofs about the sort hold for this ordinal order only.
- Characters are Unicode scalar values rather than UTF-16 code units; the accepted alphabet lies in the Basic Multilingual Plane, so the name rule is unaffected.
- `Storage.SubjectsStorage.PutSubject`: the file is a sequence of complete lines, so it is assumed to end with a line terminator, as every file the program writes does. If a file edited by hand ends without one, the source's `WriteLine` continues that last line. The old last record and the new one then form one line of nine fields, and the next read skips both. The model does not capture this. It also always appends. The source writes at the shared stream's position, which is the file's end only after the initial read (as both programs do). Writing before that read would overwrite the head of the file, and that is not modelled.
- `Storage.SubjectsStorage.PutSubjects`: the same stream-position simplification as `PutSubject`.
- `Export.SaveToCsv`: requires every record to convert. The source throws part-way through the file otherwise. Registry records always convert (`Export.ValidRecordConverts`).
- `Registry.AppModel.Add`: requires a record valid for the copy's `Config`. In the source, a `Subject` exists only once its constructor has accepted it, and the datatype here does not carry that fact.
- `Registry.AppModel.constructor`: requires the configuration to be one of the two copies, whose passport ranges make every record convert to CSV.
