# Verified model of the LDP staging, history and upgrade logic

LDP copies records from FOLIO into an analytic PostgreSQL database. This project models the parts of LDP that hold
real state and proves what they promise, in Dafny. `dafny verify dfyconfig.toml` checks everything.

**Loading a table.** A page is a stream of JSON events. The handler cuts it into records and prints each record again
as JSON text with trailing commas; the text is parsed back, listed fields are blanked in place through JSON Pointers
while the tree is traversed, and members are sorted. Pass 1 counts the kinds of the scalars and chooses columns; pass
2 prints one row per record in COPY text format into a buffer that is sent in batches.

- `Wrappers`, `CStrings`, `Decimal`, `Identifiers`: options, NUL-terminated strings and `strcmp` order, decimal
  numerals, names on the server.
- `JsonTree`, `JsonText`, `JsonLayout`, `JsonPointer`: record trees, their printer and parser (RFC 8259, with the
  trailing commas that the handler leaves, and without exponents), the layout of indented text, and pointers (RFC
  6901, section 4).
- `CopyText`, `SqlText`, `CamelCase`: the codecs, each with an independent reader.
- `TypeStats`, `Inference`: statistics, type selection, the columns of a table.
- `Records`, `Normalization`: the traversal of a record, as code that changes a tree in place, and what the result
  means.
- `Rows`: the row of a record, in a build with RapidJSON's assertions or without them.
- `Events`, `Staging`, `HollowText`, `Pages`, `Loading`: the event machine, what it keeps outside the arrays, pages,
  and both passes end to end.
- `Cells`: when pass 2 can write what pass 1 counted, when a cell says what the value says, when its text fits.
- `CutPages`: pages that break off at any event.
- `Paging`: the second event machine, which decides whether a page is empty.

**Replacing a table.** `History` is the merge of a snapshot into the history table, `Database` the statements and the
constraints the server enforces, `ForeignKeys` the processing of configured foreign keys with its swallowed failures,
`EnforcedKeys` which keys it enforces, `DeletedRows` which rows it deletes, and `StageMerge` the transaction that
replaces a table, over any sequence of updates, clearings and key processing; `StrayConstraints` follows constraints
whose catalog record is lost. `Updates` puts loading and replacing together: what the history shows of the records
that were staged.

**Running an update.** `Workers` is the fork and wait loop with the lifetimes of extraction files.

**Upgrading.** `Upgrade` holds steps 15 to 35 as statements over a connection that may be lost before any of them,
`ResumedUpgrades` proves that interruptions leave no trace, `UpgradeEffects` and `UpgradeContents` what every step
leaves and a database at some version contains, and `UpgradeCompletes` and `UpgradeFromEarlier` exactly when an
upgrade completes.

Objects that the C++ code updates are classes here, loops are loops, and the statements of a connection are methods;
each such method is proved equal to a function, and the lemmas are about that function. Reading files, the network,
the clock and the server are parameters: event streams, times, faults, what a process does, when a line is lost.

## Where the code does not do what one would expect

- The default build defines `NDEBUG` (`CMakeLists.txt:35-40`), so that RapidJSON's accessors check nothing. Pass 2
  then refuses only a record without an id (`Cells.InferredColumnsLoadIff`), and writes wrong cells without an error:
  an integer beyond 32 bits becomes its low 32 bits, 5000000000 for instance 705032704 (`Cells.WideIntegerIsCut`), a
  boolean in a bigint column becomes what its number part holds (`Cells.BooleanIsReadAsNumber`), and in any build a
  number above 10^10 in a numeric column becomes 0, with a warning (`Cells.LargeNumberIsZeroed`). All cells say what
  the records say if and only if no field mixes numbers and booleans without a string and all values keep within their
  columns' limits (`Cells.StoredRowsSayIff`). A build with assertions ends at such a cell instead, exactly if the
  field is mixed or an integer is too wide (`Cells.ColumnLoadsIff`).
- A field of uuids or of dates may hold numbers and booleans besides: pass 1 counts strings only, so that the column
  is a uuid column and gets the number's text, which the server will not take (`Cells.NumberInUuidColumn`). Such
  columns suit their values exactly if the field holds only strings (`TypeStats.SelectedTypeSuits`). The width of a
  varchar column is taken from strings alone; a number beside them can be longer, too long for the server
  (`Cells.VarcharFitsIff`, `Cells.NumberOutgrowsVarchar`).
- A constraint that is added but not recorded: its name is longer than 63 characters, so that it is enforced under a
  cut name and the catalog refuses the long one, or its catalog INSERT fails and the failure is swallowed. The catalog
  stays in step exactly if this never happens (`ForeignKeys.KeysSoundIff`, `StageMerge.CatalogStaysInStepIff`). Where
  it does, the constraint stays until its referencing table is replaced; until then, and no longer, it makes every
  update of the table it references fail (`StrayConstraints.StrayBlocksUntilReplaced`,
  `StrayConstraints.AnyUpdateCommitsIff`).
- A configured key is enforced exactly if its columns and its target's key are there, its name as cut is free, and
  every reference has a target or the DELETE of those without one succeeds (`EnforcedKeys.KeyEnforcedIff`). So of two
  keys whose names are cut alike at most one is enforced (`EnforcedKeys.CutNamesCanCollide`), and the order of the
  keys, which the query leaves open, can decide: an earlier key keeps a row from being deleted that a later key needs
  deleted (`EnforcedKeys.OrderDecides`). Cut names are the only cause if no earlier key references a later key's
  table, none references its own, no column has two keys, every target column is a key without nulls, every
  referencing table has an `id`, and nothing is enforced before (`EnforcedKeys.EveryKeyEnforcedIff`).
- An object directly inside an object directly under a page, outside the top-level arrays, is closed as if it were a
  record, with its names but without its scalars. Pass 1 counts nothing of it, and pass 2 finds no id in it and fails,
  so that the table is not updated (`HollowText.HollowParses`, `Loading.HollowNeverLoads`, `Loading.PageStaged`).
- `reader.Parse` is called without looking at its result. A page that breaks off loses the rows still in the buffer,
  without an error, exactly if it breaks off where a record has been closed since the end of the last top-level array
  (`CutPages.CutPageLosesRowsIff`).
- Pointers are built without escaping. Setting through a path reaches the node exactly if no name on the path holds a
  slash or a tilde (`JsonPointer.SetByTextReachesIffPlain`). Otherwise the listed value survives, if each tilde is
  followed by 0 or 1; if not, the text is no pointer, and in the default build setting overwrites the whole record
  (`JsonPointer.ValueSurvivesIff`, `JsonPointer.SetThroughPath`). What the traversal as a whole does to such a record
  is not defined: the member that is added instead can move the array that the iterator walks.
- The history's primary key refuses a merge exactly if an id occurs twice in the snapshot with values that are not in
  force; the loading table has no key at that point (`History.MergeFailsIff`).
- `wait_stage_merge` reads an uninitialized status when the process was reaped before, as happens after a killed
  worker and a failing `fork`. Whether the files of the killed worker are deleted depends on it
  (`Workers.WorkerProtocol`); if the next `fork` succeeds they are not (`Workers.KilledWorkerLeaks`).
- The loop does not delete extraction files when extraction or single-process staging throws, or when `fork` fails;
  they stay until the next run removes the directory (`src/update.cpp:27-35`).

## Model

| member | source | states |
|---|---|---|
| CamelCase.DecodeTriple | src/camelcase.cpp:28-75 | the middle character is lowercased, with an underscore exactly at a word start |
| CamelCase.DecodeCamelCase | src/camelcase.cpp:89-109 | the sliding window computes the decoding defined position by position |
| CamelCase.DecodedAt | src/camelcase.cpp:28-109 | where each input character is in the output, its case, and that an underscore stands before it exactly when it starts a word |
| CamelCase.DecodingKeepsLetters | src/camelcase.cpp:89-109 | apart from underscores, decoding only lowers case |
| CamelCase.DecodingIsIdempotent | src/camelcase.cpp:89-109 | decoding a decoded name changes nothing |
| CopyText.EncodeCopy | src/dbtype.cpp:149-182 | the loop writes the escapes of the string up to its first NUL |
| CopyText.EncodingInvertedIffNoNul | src/dbtype.cpp:149-182 | COPY unescaping gives back the string if and only if it holds no NUL |
| CopyText.FramedHasNoDelimiter | src/dbtype.cpp:155-176 | an encoded field has no raw tab, newline or carriage return |
| CopyText.EscapedIsFramed | src/dbtype.cpp:149-182 | every encoded value is framed, and none is the null marker |
| CopyText.EncodedFieldReads | src/dbtype.cpp:149-182 | an encoded field, null included, reads back as itself and is not the end-of-data line |
| CopyText.CopyRoundTrip | src/stage.cpp:326-430 | splitting a stream at newlines and tabs recovers exactly the rows written |
| SqlText.EncodeStr | src/dbtype.cpp:184-221 | the loop writes the quoted and escaped string up to its first NUL |
| SqlText.ConstantReadsBack | src/dbtype.cpp:184-236 | an escape string constant reads back as the string and ends at its own closing quote; all of the string comes back if and only if it holds no NUL |
| JsonText.EncodeJson | src/stage.cpp:523-561 | the loop appends the JSON escapes of the string up to its first NUL |
| JsonText.StringReadsBackIffNoNul | src/stage.cpp:523-583 | a JSON string reads back up to its first NUL, so completely if and only if it has none |
| JsonText.ValueReads | src/stage.cpp:437-643 | the text of any value, followed by anything that cannot continue a number, parses to the value and leaves the rest |
| JsonText.DocumentRoundTrip | src/stage.cpp:437-521 | every record text parses back to the tree it was printed from; only the handler's style needs the trailing commas |
| JsonText.FractionForm | src/stage.cpp:283-304 | a fraction has six digits in a record text and in cells, and in the data column no zero at its end beyond the first digit |
| JsonLayout.PrettyIsLaidOut | src/stage.cpp:402-405 | the indented text is the compact text, read character by character and laid out: every element and member on a line of its own, four spaces a level, a space after every colon, nothing inside strings |
| JsonPointer.PathParsesIffPlain | src/stage.cpp:95-172 | the path text built during traversal parses to the names on the path if and only if no name holds a slash or a tilde |
| JsonPointer.PointerTextParses | src/stage.cpp:95-172 | so the path of a clean record always does |
| JsonPointer.SetReachesNode | src/stage.cpp:67-172 | setting by the names on a path replaces exactly the node under traversal, in any tree without repeated names |
| JsonPointer.GetReachesNode | src/stage.cpp:345-350 | looking up by the names on a path finds exactly the node at its end |
| JsonPointer.SetByTextReachesIffPlain | src/stage.cpp:97-134 | setting a new value by the path's text replaces exactly that node if and only if no name on the path holds a slash or a tilde |
| JsonPointer.PathIsPointerIff | src/stage.cpp:95-172 | the path text is a pointer at all if and only if in every name each tilde is followed by 0 or 1 |
| JsonPointer.ListedValueSurvives | src/stage.cpp:97-134 | if it is one and some name holds a slash or a tilde, the node at the end of the path keeps its value, whatever the tree and the value set |
| JsonPointer.SetThroughPath | src/stage.cpp:97-134 | setting through any path text: the node is replaced, or survives, or the whole root is overwritten because the text is no pointer |
| JsonPointer.ValueSurvivesIff | src/stage.cpp:97-134 | the node survives the setting of another scalar if and only if some name holds a slash or a tilde and each tilde is followed by 0 or 1 |
| JsonPointer.Below | src/stage.cpp:136-172 | replacing a child from the root equals replacing it in its parent |
| JsonPointer.PutPut | src/stage.cpp:87-177 | a replaced node is what was put there, its path is unchanged, and a second replacement hides the first |
| TypeStats.TallyAt | src/stage.cpp:97-134 | the counters of a field are the count of the values observed under it, and a field is known exactly if it was observed |
| TypeStats.TallyOrderIndependent | src/stage.cpp:97-134 | observations in any order give the same statistics |
| TypeStats.CountersTellKinds | src/stage.cpp:97-134 | integers and floats add up to numbers, uuids and dates are among the strings, and each counter is positive exactly if such a value occurred |
| TypeStats.TestUuid | src/util.cpp:5-45 | the loop tells exactly the strings of 36 characters with hyphens at 8, 13, 18 and 23 and hexadecimal digits elsewhere |
| TypeStats.DateTimeHasParts | src/stage.cpp:53-57 | a string that looks like a date and time starts with year, month, day, T or a space, hour, minute and second |
| TypeStats.DateTimeIsPrefix | src/stage.cpp:53-57 | and every string that starts so looks like one |
| TypeStats.SelectedByKinds | src/schema.cpp:814-859 | with strings: uuid if all of them are uuids, else timestamp if all are date-times, else varchar; without: numeric if a number has a fraction, else bigint if there is a number, else boolean if there is a boolean, else varchar; the recorded maximum is the length of the longest string |
| TypeStats.SelectedTypeSuits | src/schema.cpp:814-859 | a uuid or timestamp type suits all values counted if and only if all are strings, any other type if and only if there is a string or not both numbers and booleans; no string is longer than the recorded maximum |
| Records.StatisticsMap.Note | src/stage.cpp:97-134 | one scalar more: the counters of other fields stay, and those of its field go on telling which kinds were counted, how many strings are no uuid or date, and the greatest length |
| Records.Document.Blank | src/stage.cpp:87-134 | setting through the pointer text changes exactly the node at the current position |
| Records.Document.ProcessScalar | src/stage.cpp:97-134 | a listed scalar becomes false, 0 or "" by kind, and what is left is counted if it is shallow enough |
| Records.Document.ProcessArray | src/stage.cpp:136-155 | an array is cut to null if listed or filtered, else every element is processed in place |
| Records.Document.ProcessObject | src/stage.cpp:156-172 | an object is cut to null if listed or filtered, else it is sorted and every member is processed in place |
| Records.Document.ProcessNode | src/stage.cpp:87-177 | the in-place traversal below a position equals structural recursion on the node there, and leaves the rest of the tree alone |
| Records.Document.ProcessRecord | src/stage.cpp:87-177 | the in-place traversal of a record equals structural recursion, for the tree and for the statistics |
| CStrings.LessAtFirstDifference | src/stage.cpp:49 | strcmp is less if and only if, where the strings first differ, the left one has ended or has the smaller character |
| Records.SortedByName | src/stage.cpp:40-51 | sorting keeps all members, puts `id` first, and of any two others the left name is the smaller where they first differ |
| Normalization.RulesMean | src/stage.cpp:59-84 | a scalar is blanked if and only if its field is listed for the table; an array or object is cut if and only if it is listed or, in one of the nine course tables, its path ends in `Object` or `Objects`, unless it starts with `/instructorObjects` in the course listings |
| Normalization.BlanksExactlyListedPaths | src/stage.cpp:67-177 | looked up before and after, a path is gone exactly below a cut container, is blanked by kind if listed, and keeps its value otherwise |
| Normalization.SlashInNameDefeatsBlanking | src/stage.cpp:97-134 | a concrete record: with a slash inside its name a listed member survives and another one appears (the condition is SetByTextReachesIffPlain) |
| Normalization.NormalizationIsCanonical | src/stage.cpp:40-177 | records equal up to member order at any depth become identical |
| Normalization.NormalizationKeepsMeaning | src/stage.cpp:156-172 | when nothing is listed, equal results come only from records equal up to member order |
| Normalization.ResultInNameOrder | src/stage.cpp:156-172 | in every object of the result, at every depth, `id` is first and of any two other names the left is the smaller where they first differ |
| Normalization.NormalizationIsIdempotent | src/stage.cpp:87-177 | processing a processed record changes nothing |
| Rows.WriteCell | src/stage.cpp:337-400 | appends the encoded cell and a tab: what the accessor of the column's type reads, right or wrong; in a build with assertions it fails exactly if the accessor does not accept the value |
| Rows.WriteCells | src/stage.cpp:337-400 | appends the cells of all columns but `id`, in order; it fails only in a build with assertions |
| Rows.WriteData | src/stage.cpp:402-430 | the data field is the indented text, the compact text if that is too long, or null |
| Rows.WriteTuple | src/stage.cpp:308-435 | appends the encoded row of the record, and fails exactly if the record has none: no id, or, in a build with assertions, a refused accessor |
| Rows.RowMatchesTable | src/stage.cpp:783-825 | a row has as many fields as the loading table has columns, each for the column created at its place |
| Rows.ExpandsFirstSlash | src/stage.cpp:30-38 | a column of a nested field is created with two underscores in place of the first slash |
| Rows.RowEnds | src/stage.cpp:317-335 | the first field is the string member `id`, or only where there is none the string member `notificationId`, and without either there is no row; the last is the indented text if it fits, else the compact text if that does, else null |
| Inference.BuildColumns | src/stage.cpp:915-940 | exactly one column for every kept field, in the order of the statistics map, with the type and length its counters select |
| Inference.ColumnsMean | src/stage.cpp:915-940 | a column exists for exactly the observed fields, but for those that SRS records skip; its name is the field's decoded from camel case, its type follows from the kinds of the field's values, its length is that of the longest string and at least 1 |
| Inference.FoundIsCounted | src/stage.cpp:97-134 | a non-null value that pass 2 finds under a plain field was counted by pass 1 |
| Inference.CountedIsFound | src/stage.cpp:337-358 | a value counted by pass 1 is found by pass 2 under the same field |
| Inference.ColumnsSuitRecords | src/stage.cpp:850-940 | the values of a plain field are of the kind of the column that pass 1 chose, if and only if the field holds only strings, for a uuid or timestamp column, or does not mix numbers and booleans without a string, for any other; strings fit its length |
| Inference.ColumnsIgnoreOrder | src/stage.cpp:850-940 | the same records in any order give the same statistics and the same columns |
| Cells.ColumnLoadsIff | src/stage.cpp:359-400 | pass 2 writes some cell of the column for every record in the default build always, and in a build with assertions if and only if the field is unmixed and, where the column is bigint, within 32 bits |
| Cells.SaysIff | src/stage.cpp:283-400 | one cell says what its value says (the characters of a string up to a NUL, a numeral that reads back as the number, 1 or 0, `true` or `false`, null for null) if and only if the column's type has a form for the value and its limit is kept |
| Cells.ColumnSaysIff | src/stage.cpp:337-400 | in any build every cell of a column that pass 1 chose says what its value says if and only if the field is unmixed and its values keep within the column's limit: 32 bits, 10^10 or the longest text |
| Cells.StoredRowsSayIff | src/stage.cpp:308-435 | the same for all cells of all rows that a load stores |
| Cells.VarcharFitsIff | src/stage.cpp:783-825 | the cells of a varchar column fit its width if and only if those of the numbers among its values do |
| Cells.BooleanIsReadAsNumber | src/stage.cpp:359-363 | an integer in one record, a boolean in another: pass 1 chooses bigint, the default build stores the boolean's number part, a build with assertions ends |
| Cells.WideIntegerIsCut | src/stage.cpp:361-363 | any integer beyond 32 bits, such as 5000000000: pass 1 chooses bigint, the default build stores its low 32 bits, which is another number, a build with assertions ends |
| Cells.LargeNumberIsZeroed | src/stage.cpp:367-380 | a number with a fraction, above 10^10: pass 1 chooses numeric and pass 2 stores 0 |
| Cells.NumberInUuidColumn | src/stage.cpp:383-400 | a uuid in one record, a number in another: pass 1 chooses uuid and pass 2 writes the number's text |
| Cells.NumberOutgrowsVarchar | src/stage.cpp:381-387 | a string of at most 16 characters in one record, a number in another: where pass 1 chooses varchar, the column is varchar(16) and pass 2 writes the number's text, of whatever length |
| Cells.LongNumber | src/stage.cpp:381-387 | for instance "abc" and 12345678901, whose text has more than 17 characters |
| Staging.JSONHandler.StartObject | src/stage.cpp:252-262 | the handler's fields change as the event machine does |
| Staging.JSONHandler.EndObject | src/stage.cpp:437-489 | at level 3 the record is closed: parsed, processed, counted or written; an exception stops the handler |
| Staging.JSONHandler.StartArray | src/stage.cpp:491-503 | the handler's fields change as the event machine does |
| Staging.JSONHandler.EndArray | src/stage.cpp:505-521 | at the end of a top-level array the buffer is sent if records were counted |
| Staging.JSONHandler.EndCopyBatch | src/stage.cpp:269-281 | the buffer is sent whole and emptied |
| Staging.JSONHandler.LoadRecord | src/stage.cpp:471-481 | room is made before the row is appended, and the record count follows the buffer |
| Staging.JSONHandler.Handle | src/stage.cpp:563-643 | every event changes the handler as the event machine does |
| Pages.RunValue | src/stage.cpp:437-643 | inside a record, the events of a value append its text and a comma and change nothing else |
| Pages.RunRecord | src/stage.cpp:252-489 | the events of a record close exactly that record |
| Pages.RunPage | src/stage.cpp:252-521 | the events of a page close, in order, the objects directly inside its top-level arrays and, without their scalars, the objects directly inside its top-level objects; the level returns to 0 |
| Pages.RunInner | src/stage.cpp:252-489 | an object directly inside a top-level object is closed too, as what its names and brackets parse to |
| HollowText.HollowParses | src/stage.cpp:437-465 | which is the object without its scalars if no member at any depth is one, and otherwise does not parse |
| Loading.HollowNeverLoads | src/stage.cpp:317-324 | such an object has no id, so that pass 2 fails |
| Loading.ScalarlessUnobserved | src/stage.cpp:97-134 | and pass 1 counts nothing of it |
| Loading.StagePage | src/stage.cpp:665-708 | driving the handler over a stream leaves the work of the event machine |
| Loading.ClosedBatched | src/stage.cpp:471-481 | a record's row joins the rows sent or pending, pending rows imply a positive count, and the buffer was at most 10,500,000 long before the append |
| Loading.ArrayBatched | src/stage.cpp:505-521 | after a top-level array all its rows are sent and nothing is pending |
| Loading.PageAnalyzed | src/stage.cpp:665-708 | pass 1 over any page sends nothing and adds exactly the observations of its records, the objects directly inside its top-level arrays |
| Loading.PageStaged | src/stage.cpp:665-708 | the server decodes exactly one row per record of the page, in order, and every chunk alone holds whole rows; the page fails exactly if a record cannot be loaded or an object directly under it directly holds another one |
| CutPages.CutPageLosesRowsIff | src/stage.cpp:678-683 | a page that would load, cut after any of its events: nothing is thrown, the rows sent and those left in the buffer are the rows of the records closed so far, and none is lost if and only if no record was closed since the end of the last top-level array |
| Loading.CutPageLosesRows | src/stage.cpp:678-683 | a concrete cut, after the first record of the first array: its row is lost |
| Identifiers.CreatableIff | src/stage.cpp:783-825 | CREATE TABLE takes the column names if and only if none is empty and no two are equal or agree in their first 63 characters |
| Loading.StageTable1 | src/stage.cpp:850-944 | the columns are those of the statistics of all records of all pages |
| Loading.StageTable2 | src/stage.cpp:946-989 | the loading table receives the row function mapped over all records of all pages, or the pass fails, exactly if one record cannot be loaded or a page has an object directly inside a top-level object |
| Loading.StageTable | src/stage.cpp:850-989 | both passes: the rows stored are the row function, with the inferred columns, mapped over the records, unless CREATE TABLE refuses the column names, empty or equal after 63 characters, a record cannot be loaded, which in the default build means that it has no id, or a page has an object directly inside a top-level object |
| Cells.InferredColumnsLoadIff | src/stage.cpp:308-435 | with the columns of pass 1, pass 2 loads all records if and only if each has an id and, in a build with assertions, every stored column's field, being plain, is unmixed and within 32 bits |
| Loading.DataReadsBack | src/stage.cpp:402-430 | the data field, if present, is JSON for the processed record |
| Paging.PagingJSONHandler.Handle | src/paging.cpp:46-118 | the first object at level 2 is remembered and stops the reader |
| Paging.PageIsEmpty | src/paging.cpp:120-129 | a page is empty if its events never reach an object at level 2 |
| Paging.MachinesAgree | src/paging.cpp:46-129 | for every page value, paging finds an object exactly if staging closes a record, and both levels return to 0 unless a reader is stopped |
| History.LatestOfId | src/merge.cpp:22-33 | the latest-history rows of an id are its last history row alone |
| History.AfterRunOfId | src/merge.cpp:74-86 | seen by one id, a merge adds one row if the value is new or changed, else none |
| History.HistoryIsDeduplicatedSnapshots | src/merge.cpp:5-89 | the history rows of an id are its staged values with consecutive duplicates removed, in increasing time |
| History.MergeFailsIff | src/merge.cpp:61-89 | a later merge violates the history's primary key if and only if an id occurs twice in the snapshot with values that are not in force |
| History.RepeatedIdIsRefused | src/merge.cpp:61-89 | as two rows of an id that the history does not have, with any values |
| History.MergeSucceeds | src/merge.cpp:61-89 | so with increasing times and unique ids it never does |
| History.RepeatedRunAddsNothing | src/merge.cpp:74-86 | a run that stages only rows that the committed run before it staged leaves the history as it was |
| History.HistoryShowsEveryRun | src/merge.cpp:22-86 | the row in force at the time of a committed run holds what that run staged, whatever ran later |
| History.UnchangedAddsNothing | src/merge.cpp:84-86 | a snapshot whose values are all in force adds no row |
| Database.MakeForeignKeyConstraintName | src/update.cpp:170-179 | the loop computes the constraint name: the table name after its first underscore, the column, and `_fk` |
| Database.NamesDiffer | src/update.cpp:170-179 | on one table, equal constraint names come only from equal columns |
| ForeignKeys.Session.ProcessKey | src/update.cpp:223-318 | one key: exceptions found, deleted, constraint added and recorded, with every failure swallowed but that of the final drop |
| ForeignKeys.Session.ProcessForeignKeys | src/update.cpp:219-320 | all keys in order; without force nothing changes; only a failing drop of the temporary table ends the loop |
| ForeignKeys.ConstraintStepSound | src/update.cpp:288-318 | the catalog stays equal to what is enforced if and only if an added constraint has a name of at most 63 characters and its INSERT succeeds |
| ForeignKeys.KeyStepSound | src/update.cpp:223-318 | the same for a whole key, with any of its other statements failing |
| ForeignKeys.KeysSoundIff | src/update.cpp:219-320 | any keys in any order, with any swallowed failures: the catalog equals what is enforced afterwards if and only if every constraint that the loop adds is recorded, its name fitting and its INSERT succeeding |
| EnforcedKeys.KeyResult | src/update.cpp:223-318 | one key, on any database whose constraints hold, without faults: it is enforced if and only if its columns and target key are there, its cut name is free, and nothing dangles or the DELETE succeeds and leaves nothing dangling; it is recorded if and only if moreover its name fits and its column is not listed |
| EnforcedKeys.DeleteAllowedIff | src/update.cpp:260-279 | the DELETE succeeds if and only if every enforced constraint that references the table still finds its targets |
| DeletedRows.KeyDeletesRows | src/update.cpp:223-279 | one key, with any swallowed failures: every table keeps its columns and the order of its rows, and a row goes, with all its copies, if and only if the DELETE is carried out, its referencing column is not null, and its value is not among those of the referenced column, none of which is null |
| DeletedRows.LoopDeletesRows | src/update.cpp:219-320 | after any keys in any order a row is gone if and only if that was so in the turn of some key the loop came to |
| EnforcedKeys.KeysEnforcedIff | src/update.cpp:219-320 | any keys in any order, without faults: what is enforced and recorded is what was, and the keys that were enforceable, and recordable, when their turn came; all constraints hold |
| EnforcedKeys.KeyEnforcedIff | src/update.cpp:219-320 | a key of such a loop, on columns of their own, ends up enforced if and only if it was enforceable when its turn came, and recorded if and only if its name fits too |
| EnforcedKeys.OrderDecides | src/update.cpp:150-156 | two keys, the first on a row that the second needs deleted: the second is not enforced in this order, and both are in the other |
| EnforcedKeys.OrderCanDecide | src/update.cpp:150-156 | three concrete tables with such keys |
| EnforcedKeys.EveryKeyEnforcedIff | src/update.cpp:219-320 | for keys none of which references its own table or the table of a later key, on columns of their own, in tables with an `id`, with target keys without nulls and nothing enforced before, without failures: all end up enforced and satisfied if and only if no two names of a table are cut to the same identifier; a key is then recorded if and only if its name fits |
| EnforcedKeys.CutNamesCanCollide | src/update.cpp:170-179 | two columns of 62 characters whose constraint names are cut alike: at most one of the two keys is enforced |
| EnforcedKeys.EveryKeyRecordedIffNamesFit | src/update.cpp:285-318 | for the same keys, all end up recorded if and only if all constraint names fit |
| EnforcedKeys.LongNameBlocksDrop | src/update.cpp:292-312 | a key with a longer name is enforced and not recorded, and its referenced table cannot be dropped |
| StageMerge.Connection.RemoveForeignKeyConstraints | src/update.cpp:130-144 | all recorded constraints are dropped and the catalog is emptied, or the method fails |
| StageMerge.Connection.Transact | src/update.cpp:353-383 | the statements of the transaction in order, up to the first failure |
| StageMerge.Connection.StageMerge | src/update.cpp:342-389 | without a commit the database is as before; with one it is the outcome of all statements |
| StageMerge.UpdateCommitsIff | src/update.cpp:342-389 | whatever records are lost, an update commits if and only if staging succeeds, the merge violates no key, no statement is struck and no unrecorded constraint of another table references its table; it leaves the staged rows and, of the foreign keys, the unrecorded ones of other tables |
| StageMerge.SoundUpdateCommits | src/update.cpp:342-389 | so on a sound database foreign keys never matter and none is left |
| StageMerge.CommittedTable | src/update.cpp:342-389 | the table then holds the staged rows in order, and `id` is a primary key of it if and only if it was one when staged, or its columns call for one and no row lacks an id and no two share one |
| StageMerge.ClearEmpties | src/update.cpp:633-641 | clearing a table takes all of its rows and nothing else, and is refused if and only if the table is missing or a row of another table references it |
| StageMerge.HistoryGrows | src/merge.cpp:61-89 | committed or not, an update leaves every history an extension of what it was, with (id, updated) unique |
| StageMerge.UnrecordedConstraintBlocksUpdates | src/update.cpp:377-378 | an enforced constraint missing from the catalog makes every update of the referenced table fail |
| StageMerge.CatalogStaysInStepIff | src/update.cpp:130-144 | over any sequence of updates, clearings and key processing, with any failures, the recorded constraints are the enforced ones at every moment if and only if every constraint that is added is recorded |
| StageMerge.NextUpdateCommits | src/update.cpp:377-378 | then no foreign key ever blocks the next update |
| StrayConstraints.StraysIff | src/update.cpp:130-144 | after any sequence of updates, clearings and key processing, with any failures, the unrecorded constraints are those that were unrecorded before or lost their record in it, and whose table has not been replaced since |
| StrayConstraints.AnyUpdateCommitsIff | src/update.cpp:377-378 | after any such sequence an update commits if and only if staging succeeds, the merge violates no key, no statement is struck and none of these constraints, of another table, references its table |
| StrayConstraints.StrayBlocksUntilReplaced | src/update.cpp:377-378 | an unrecorded constraint stays enforced at every moment if and only if no replacement of its table commits, and until then every update of the table it references fails |
| StrayConstraints.ReplacingHealsIff | src/update.cpp:377-382 | a committed update leaves a sound database if and only if every unrecorded constraint was of its own table |
| StrayConstraints.LostRecordBlocksUpdates | src/update.cpp:300-318 | a constraint whose record is lost, by a long name or a swallowed INSERT, makes every update of the referenced table fail until its own table is replaced, which heals a database that was sound before |
| StageMerge.HistoryFollowsRuns | src/update.cpp:342-384 | over any such sequence, and on top of any earlier runs, a history table is the log of the committed runs of its table |
| StageMerge.HistoryShowsEveryUpdate | src/update.cpp:342-384 | after any such sequence, the history as of a committed update shows each record that it staged |
| Updates.SnapshotOfRecords | src/merge.cpp:74-86 | what the merge reads of a table staged from records is the id and the normalized text of each, in order |
| Updates.UpdateTable | src/update.cpp:342-389 | both passes and the transaction: the update that is carried out stages the row function over the records of the pages |
| Updates.PublicTableSaysIff | src/update.cpp:342-389 | after a committed update, in any build, the public table has a row for every record, in order, and every column that pass 1 chose says of it what the record says, if and only if all fields are unmixed and within their columns' limits |
| Updates.UpdateIsRun | src/update.cpp:342-384 | a committed update is one run of its history, with the ids and texts of its records |
| Updates.ReorderingAddsNothing | src/stage.cpp:156-172 | a run that stages the records of the run before it with members reordered, at any depth, adds no history row |
| Updates.ReorderedUpdateAddsNothing | src/update.cpp:342-384 | the same for two committed updates of a table in a row: all histories are as before the second |
| Updates.HistoryShowsRecords | src/update.cpp:342-384 | the history as of a committed update holds, for each record it staged, the normalized text, which is JSON for the normalized record |
| Workers.UpdateLoop.WaitStageMerge | src/update.cpp:444-459 | a live worker is reaped and its ending returned; a worker already reaped gives a stale answer |
| Workers.UpdateLoop.UpdateTable | src/update.cpp:573-703 | one table: what is allocated, forked, reaped and deleted, and whether the loop goes on |
| Workers.RunUpdate | src/update.cpp:562-711 | the loop is left early exactly when an exception cannot be logged; else its events are those of all tables and the final wait |
| Workers.OneWorkerAtATime | src/update.cpp:660-684 | at every moment of an allowed trace at most one worker is alive and its files are there |
| Workers.AlwaysSettled | src/update.cpp:569-705 | between two tables every allocated set of files is deleted, leaked for a stated reason, or held by the worker |
| Workers.WorkerProtocol | src/update.cpp:562-711 | for all tables, failures and endings: one worker at a time, none at the end, no files deleted under a worker or twice, and a set is deleted if and only if it does not leak |
| Workers.TracesStage | src/update.cpp:562-711 | whether the loop finishes or is left early, the tables forked for, or staged in the process itself, are exactly those so far that are selected, set up, not anonymized, have data, are not only extracted and whose fork succeeds, in their order |
| Workers.TablesAreStaged | src/update.cpp:660-703 | in a finished run each of these is staged once, after its files were allocated and before they are deleted or its worker is reaped, and no other table is |
| Workers.KilledWorkerLeaks | src/update.cpp:660-684 | a killed worker followed by a successful fork: its files are allocated and never deleted by the loop |
| Workers.FaultFreeDeletesOnce | src/update.cpp:562-711 | on a fault-free run every set of files is deleted exactly once |
| Upgrade.Connection.SelectDatabaseVersion | src/init.cpp:69-120 | the newer location is read first, the older one on any failure |
| Upgrade.Connection.Step | src/dbup1.cpp:1215-1646 | the statements of a step in order, in a transaction or not, with or without swallowed failures, the version write last |
| Upgrade.Connection.UpgradeAll | src/init.cpp:374-396 | the loop performs the steps after the given version in order and stops at the first that fails |
| Upgrade.UpgradeDatabase | src/init.cpp:429-453 | reads and validates the version and upgrades from it; what was committed stays |
| ResumedUpgrades.TransactionIsAtomic | src/dbup1.cpp:1247-1271 | wherever the connection is lost, a step other than 15, 27 and 34 has happened completely or not at all |
| ResumedUpgrades.StatementsStop | src/dbup1.cpp:1477-1500 | a step outside a transaction stops after some of its statements, its version unwritten, or is complete |
| ResumedUpgrades.StopsAfterAny | src/dbup1.cpp:1477-1500 | and it can stop after any number of them, with what they did committed: steps 15, 27 and 34, of which the last two go on after a refused statement |
| ResumedUpgrades.PrefixRepeats | src/dbup1.cpp:1600-1628 | after some statements of a repeatable step, executing it again leads where it would have led at once |
| ResumedUpgrades.StepLocated | src/dbup1.cpp:1301-1331 | a completed step moves the one readable version location from v - 1 to v, across the rename of step 18 too |
| ResumedUpgrades.VersionReadIsTrue | src/init.cpp:69-120 | after any interrupted runs exactly one location is readable, and the database is the ideal one of the version read, or that and a part of a repeatable step |
| ResumedUpgrades.InterruptionsLeaveNoTrace | src/init.cpp:374-396 | any interrupted runs and then an uninterrupted one end as one uninterrupted run does, with the same database |
| ResumedUpgrades.CompletedUpgradeIsIdeal | src/init.cpp:429-453 | any run that completes leaves version 35 and the database of one uninterrupted run |
| UpgradeEffects.AddTableInstalls | src/dbup1.cpp:84-131 | a table added has its columns, a history, the grants to both users on both, and its catalog row |
| UpgradeContents.TableAdded | src/initutil.cpp:3-49 | the same exactly: the table was not there, is empty and has a required uuid `id` and a jsonb `data`; a history that was not there is empty and has a required uuid `id`, jsonb `data` and timestamp `updated`; one that was there gets the two grants; the catalog gets one row; every other table is as it was |
| UpgradeContents.LaterStepLeaves | src/dbup1.cpp:1360-1646 | a completed step from 20 on, for every table of the database: what it is afterwards, columns, rows and grants, in terms of what it was |
| UpgradeContents.EarlyStepLeaves | src/dbup1.cpp:1215-1357 | the same for steps 15 to 19, with the defaults, the column added anew, the new table, the renamed schemas and column |
| UpgradeEffects.StepEffects | src/dbup1.cpp:1215-1646 | after an uninterrupted upgrade to version v every effect of the steps up to v is there |
| UpgradeEffects.EffectsUpToVersion | src/init.cpp:97-120 | after any interrupted runs the effects of all steps up to the version read are there: columns, renames, new tables, dropped tenant ids, converted types |
| UpgradeContents.ContentsUpToVersion | src/dbup1.cpp:1360-1646 | after any interrupted runs: every table of records that was there keeps its columns and rows, but for tenant ids and values converted as their casts say; the others are those of the steps up to the version read, as they were created |
| UpgradeCompletes.NewTablesAre | src/dbup1.cpp:1360-1646 | which step adds which table, name by name |
| UpgradeCompletes.UpgradeCompletesIffVacant | src/init.cpp:374-396 | from version 19 on an upgrade completes if and only if no table still to be added is in the public schema already |
| UpgradeFromEarlier.UpgradeCompletesIff | src/dbup1.cpp:1215-1357 | from versions 14 to 19 it completes if and only if the columns, schemas and tables that steps 15 to 19 change are there, those that they add are not, no view holds what they drop, and no table still to be added is there |

## Left out

- Doubles are modelled by the six-decimal value that `to_string` prints; binary rounding, exponents and negative zero are not.
- Integers are unbounded in record trees; counters and lengths do not wrap at 32 bits.
- Strings are sequences of characters that stand for bytes; UTF-8 validity and `\u` escapes of the readers from U+0080 on are not modelled, nor octal and hexadecimal escapes of COPY and SQL, which the writers never produce.
- RapidJSON's reader is modelled by its events and by a parser written for this model. What an accessor without assertions finds in a value of another kind depends on RapidJSON's layout, which is a parameter (`slot`). In a build with assertions a refused accessor ends the process; here, like an exception, it ends the loading of the table. Pointers that are no pointers are modelled for the default build.
- Records with a NUL in a string or name, `/` or `~` in a name, or repeated names within an object: the traversal is stated without them, and for `/` and `~` the pointers are.
- Pages that are not JSON objects.
- CutPages.CutPageLosesRowsIff: for pages that would load whole; one that would not fails once the cut is past what cannot be loaded.
- Column names with a double quote, which end the identifier in CREATE TABLE early, and tables with more columns than the server allows.
- Columns whose field is an array or object in some record, or indexes into an array: pass 2 then calls scalar accessors on containers, and what they read is the parameter `slot`; the statements about columns are for plain fields.
- Statements of an upgrade that are refused for a passing reason, such as a lock timeout, while the connection stays up: steps 27 and 34 swallow such a refusal and never try again. Otherwise a statement succeeds or fails as the database decides.
- Upgrade steps 1 to 14 cannot be repeated after an interruption and are not modelled; nor are the upgrade logs.
- The order of columns, indexes, constraints of record tables and the NOT NULL check of primary keys in upgrades.
- What the server checks about a cell's text beyond COPY format, such as dates and UUIDs, and the loading table's column types; a row the server refuses is a staging failure in `StageMerge`. The form in which it stores a uuid or jsonb value is taken to be its text.
- The restriction of history to some source types is folded into one flag of an update.
- Failures of CREATE INDEX and VACUUM on the temporary table change nothing and are folded into those around them; foreign key warnings only read.
- Case folding and quoting of identifiers; table names are taken as written.
- RENAME TABLE is modelled for tables no constraint mentions, as the loading table is.
- A child process whose handlers cannot log, and so returns into the parent's loop; signals and sleeping.
- Bookkeeping after COMMIT (row counts, indexes, optional columns, users), option parsing, logging, extraction from the sources, kept temporary files.
- Redshift: the connection is always PostgreSQL.
