# linkrs core: a verified model

A Dafny model of the stateful data structures, the type system and the type language of
linkrs, with proofs about all inputs, all runs and all interleavings.

* `SessionVariables`: the transactional store of session variables (base map and operation
  log with undo values and savepoint markers) against a stack of whole snapshots.
* `Options`, `Integers`, `Strings`, `Remainders`: small shared notions.
* `DataTypes`, `TypeAlgebra`: value types and the common type as a join in a promotion order.
* `TypeDisplay`: the printed form of a type and its unique readability.
* `TypeText`, `TypeParser`, `ParserLoops`, `PrintedText`, `TypeRoundTrip`, `ParsedTypes`: the type
  parser, its scanning loops, and exactly which types survive printing and parsing.
* `TypeSpellings`, `TypeFolding`, `TypeGrammar`: the spellings of the types, the texts the parser
  cannot tell apart, and a grammar of types that the parser is proved to accept exactly.
* `Words`, `NullBitmap`: 64-bit words and the bit-packed null bitmap against a sequence of
  booleans, with explicit stray bits past the end.
* `EventDispatch`, `AsyncForwarder`: re-entrant dispatch over a snapshot, and the bounded
  hand-off to a worker, as state machines over atomic steps.
* `Murmur`, `BloomFilter`, `BloomExact`: the hash on machine words; Bloom filters over whole
  histories, their byte form, and scalable growth, with exactly what is set and reported.
* `Fnv`, `Columnar`: the row hash on machine words; the column-major batch with a selection
  vector against a sequence of rows.
* `PointIds`, `Fusion`: vector point ids and reciprocal rank fusion in exact arithmetic.
* `NPath`: parent-linked paths against flat paths, reversal and splicing.

Entities the source mutates are classes (`Store`, `NullBitmap`, `EventSubscriptions`, `Bloom`,
`ScalableBloom`, `MaterializedBatch`, `NPathIter`); loops of the source are loops here. Each is
proved against a function on values, and the laws are stated about those functions.
The sizing of new filters, value encodings, observer behaviour and thread schedules are
parameters, so the results hold for all of them. So are the hash functions of Bloom filters and
linked paths; what depends on the one the Bloom filter uses (`Murmur`) says so. Rows are hashed
with the hash of the code (`Fnv`). Panics are outcomes or preconditions, error values of the
parser are reduced to "no type".

## Where code and documentation differ

The model follows the code. These statements of the documentation do not hold in general,
and the model gives the exact condition under which they do.

* The parser is documented as the exact mirror of the printer (`types/parse.rs:4-5`). It does
  not protect commas inside parentheses, so a STRUCT field or UNION member of type DECIMAL or
  UNION with several members does not come back; it reads UNION members from uppercase text,
  so field names inside them change; it refuses STRUCT and UNION without members and 16 or
  more levels. `ParsedTypes.PrintParseExact` is the exact law: the round trip holds for
  precisely those types that any text parses to.
* Numbered integer names are documented to follow the bit width (`types/parse.rs:75-76`). INT16
  is a 32-bit INT (`TypeSpellings.NumberedIntegers`).
* The element type of a container is documented as the common type of its elements
  (`value/value_def.rs:181-186`). An EMPTY element that comes before every proper type ends the
  fold, so proper types after it are ignored (`TypeAlgebra.ElementTypeIsJoin`; `[EMPTY, INT]`
  in `LeadingEmptyBails`, `[NULL, EMPTY, INT]` in `EmptyAfterNullBails`).
* The null bitmap leaves set bits past `len` in `all_null`, `fill(true)`, `invert` and a
  shrinking `resize`; later growth makes them visible (`NullBitmap.StepExact`, `StepClean`).
* `into_rows` is documented to leave the batch empty; an installed selection stays
  (`Columnar.MaterializedBatch.IntoRows`; one row in `SelectionOutlivesRows`).
* `append_row` is documented to panic on another arity; a batch that holds rows without
  columns accepts a wider row (`Columnar.AppendRowValid`; two rows in `WiderRowBreaks`).
* `append_reverse` keeps the old target vertices and so does not append the reversed path
  (`NPath.AppendReverseNeedsLoops`; one edge in `AppendedEdgeIsMisplaced`).
* The iterators over a linked path are documented to run from its starting point
  (`npath.rs:247-257`); they run from its end (`NPath.UpwardIsReversed`,
  `IterationStartsAtEnd`).
* Ids that are not vector points are documented to pass through normalisation unchanged
  (`fusion.rs:170-171`); escape sequences in them are decoded (`PointIds.NormalizeKeeps`).
* Vector hits of another index pass the filter when names contain `#` (`PointIds.SuffixExact`).

Two more effects that no documentation mentions:

* Merging Bloom filters of equal size can lose the keys of the other filter if it probes
  fewer positions (`BloomFilter.SurvivesExactly`; with the hash of the code in
  `MurmurLosesKey`).
* A non-transactional write to a variable that the open log has written is lost
  (`SessionVariables.StepRefines`; three commands in `NonTransactionalWriteIsLost`).

## Model

| member | source | states |
|---|---|---|
| `SessionVariables.RunRefines` | crates/linkrs-api/src/session_variables.rs:51-193 | over every run of commands from an empty log, the store is a stack of whole snapshots: the visible map, the map a full ROLLBACK returns to and the map at every surviving savepoint are those of the stack, and lookup agrees with the visible map for every name |
| `SessionVariables.StepRefines` | crates/linkrs-api/src/session_variables.rs:51-193 | each command keeps the hidden invariant (every `prev` is the value just before its entry; the base differs from the starting map only on variables that still have an entry), moves the snapshots as specified, and gives the specified answer; a non-transactional write to a variable with an entry has no effect |
| `SessionVariables.RollbackRestoresStart` | crates/linkrs-api/src/session_variables.rs:131-133 | after any transactional run, with any number of partial rollbacks, ROLLBACK gives back the exact starting map and an empty log |
| `SessionVariables.SavepointRestores` | crates/linkrs-api/src/session_variables.rs:137-139 | whatever ran under a savepoint that did not remove it (COMMIT, ROLLBACK, reusing or releasing the name, rolling back past it), ROLLBACK TO finds it and the visible map is again the one at the savepoint |
| `SessionVariables.NonTransactionalWriteIsLost` | crates/linkrs-api/src/session_variables.rs:51-58 | a transactional and then a non-transactional assignment of one variable, then COMMIT: the second one leaves no trace |
| `SessionVariables.PartialRollbackDirtiesBase` | crates/linkrs-api/src/session_variables.rs:177-191 | a concrete run after which the base holds an uncommitted value |
| `SessionVariables.UndoTail` | crates/linkrs-api/src/session_variables.rs:159-193 | writing the `prev` values of a log tail back, latest first, leaves a base that the remaining log shadows |
| `SessionVariables.MarkerIsLatest` | crates/linkrs-api/src/session_variables.rs:163-173 | the last marker with a name in the log is the latest snapshot with that name, with the same visible map |
| `SessionVariables.DropKeeps` | crates/linkrs-api/src/session_variables.rs:143-146 | RELEASE drops every marker of the name and no other, and changes no value |
| `SessionVariables.VisibleFromStart` | crates/linkrs-api/src/session_variables.rs:78-110 | what is visible over the base is what is visible over the starting map |
| `SessionVariables.Store.SetVariable` | crates/linkrs-api/src/session_variables.rs:51-58 | new state is the specified one, in or out of a transaction |
| `SessionVariables.Store.RemoveVariable` | crates/linkrs-api/src/session_variables.rs:62-74 | new state as specified; answers whether the variable was visible, unless the write is lost |
| `SessionVariables.Store.VariableValue` | crates/linkrs-api/src/session_variables.rs:78-92 | the backward scan returns the value in the visible map |
| `SessionVariables.Store.VariablesSnapshot` | crates/linkrs-api/src/session_variables.rs:96-110 | the forward replay returns the whole visible map |
| `SessionVariables.Store.CommitVariables` | crates/linkrs-api/src/session_variables.rs:114-128 | the visible map becomes the starting map |
| `SessionVariables.Store.RollbackVariables` | crates/linkrs-api/src/session_variables.rs:131-133 | the starting map becomes visible again |
| `SessionVariables.Store.RollbackVariablesTo` | crates/linkrs-api/src/session_variables.rs:137-139 | state as specified; answers true exactly when a snapshot with the name is on the stack |
| `SessionVariables.Store.ReleaseSavepoint` | crates/linkrs-api/src/session_variables.rs:143-146 | all snapshots of the name leave the stack, nothing else changes |
| `SessionVariables.Store.PushSavepoint` | crates/linkrs-api/src/session_variables.rs:150-154 | the visible map is pushed |
| `SessionVariables.Store.RestoreOverlayAfter` | crates/linkrs-api/src/session_variables.rs:159-193 | search, drain and undo loops together do one rollback step of the snapshot stack |
| `TypeAlgebra.CommonTypeIsJoin` | crates/linkrs-core/src/type_system.rs:94-171 | `get_common_type` is the least upper bound when no aligned components clash; when some do, the two types have no upper bound at all. The order is defined on its own: integers by their width 16 < 32 < 64, every integer below DECIMAL128 and FLOAT, those two below DOUBLE and not below each other; DATE below DATETIME; fields, elements and sentinels |
| `TypeAlgebra.CommonTypeCommutes` | crates/linkrs-core/src/type_system.rs:114-171 | swapping the arguments changes at most struct field order, if and only if no two different sentinels (EMPTY, NULL, UNKNOWN) meet at the same place |
| `TypeAlgebra.CommonTypeAbsorbs` | crates/linkrs-core/src/type_system.rs:114-171 | without sentinels, the result absorbs both arguments if and only if nothing clashes |
| `TypeAlgebra.CommonTypeAssociates` | crates/linkrs-core/src/type_system.rs:114-171 | both groupings of three types clash, if and only if no type is above all three; otherwise the two results are below each other |
| `TypeAlgebra.CleanAssociates` | crates/linkrs-core/src/type_system.rs:114-171 | without sentinels, the two results are the same up to field order |
| `TypeAlgebra.SentinelsRegroup` | crates/linkrs-core/src/type_system.rs:114-189 | LIST of NULL, ARRAY of EMPTY, LIST of UNKNOWN: nothing clashes, and the groupings give arrays of UNKNOWN and of NULL |
| `TypeAlgebra.ClashesRegroup` | crates/linkrs-core/src/type_system.rs:114-171 | INT, BOOL, BIGINT: both groupings clash and give BIGINT and INT |
| `TypeAlgebra.CleanCommutes` | crates/linkrs-core/src/type_system.rs:114-171 | one argument without sentinels is enough for the order not to matter |
| `TypeAlgebra.LeqTransitive` | crates/linkrs-core/src/type_system.rs:94-171 | the promotion order is transitive |
| `TypeAlgebra.LeqAntisymmetric` | crates/linkrs-core/src/type_system.rs:94-171 | and antisymmetric up to struct field order |
| `TypeAlgebra.CommonWellFormed` | crates/linkrs-core/src/type_system.rs:114-211 | unique field names are kept at every level |
| `TypeAlgebra.FindCombined` | crates/linkrs-core/src/type_system.rs:191-211 | what every name means in a combined struct, from its meaning in each side |
| `TypeAlgebra.CombineStructTypes` | crates/linkrs-core/src/type_system.rs:191-211 | the two loops with the set of seen names build the combined struct, field order included |
| `TypeAlgebra.ContainerElementType` | crates/linkrs-core/src/value/value_def.rs:188-200 | the fold with its early exit |
| `TypeAlgebra.ElementTypeIsJoin` | crates/linkrs-core/src/value/value_def.rs:183-200 | the result is below every upper bound of the element types; it is an upper bound, and so the least one, if and only if they have one at all and no EMPTY element comes before every proper one and after it a proper one |
| `TypeAlgebra.LeadingEmptyBails` | crates/linkrs-core/src/value/value_def.rs:193-198 | elements EMPTY, INT: the result is EMPTY, which does not bound INT |
| `TypeAlgebra.EmptyAfterNullBails` | crates/linkrs-core/src/value/value_def.rs:193-198 | elements NULL, EMPTY, INT: the same |
| `TypeAlgebra.LaterEmptyIsSkipped` | crates/linkrs-core/src/value/value_def.rs:193-198 | elements INT, EMPTY, BIGINT: the result is BIGINT |
| `TypeDisplay.DisplayUnique` | crates/linkrs-core/src/types.rs:124-210 | a printed type followed by a delimiter can be read back in one way only |
| `TypeDisplay.DisplayInjective` | crates/linkrs-core/src/types.rs:124-210 | no two types print alike, for field names without a space and not starting with `>` |
| `TypeDisplay.SpacesCollide` | crates/linkrs-core/src/types.rs:191-200 | two different structs print alike when a field name holds a space |
| `TypeDisplay.BracketsCollide` | crates/linkrs-core/src/types.rs:181-200 | two different unions print alike when a field name starts with `>`, without any space |
| `TypeDisplay.Fmt` | crates/linkrs-core/src/types.rs:125-210 | the formatter loops append exactly the printed form |
| `TypeDisplay.FmtTypes` | crates/linkrs-core/src/types.rs:181-190 | the member loop with its separators |
| `TypeDisplay.FmtFields` | crates/linkrs-core/src/types.rs:191-200 | the field loop with its separators |
| `ParsedTypes.PrintParseExact` | crates/linkrs-core/src/types/parse.rs:1-8 | for every type: printing and parsing gives the type back, if and only if some text parses to it at all, if and only if its names are good, its members can be taken apart within the depth limit, and its field names inside UNIONs are uppercase |
| `ParsedTypes.ParsePrintParse` | crates/linkrs-core/src/types/parse.rs:41-43 | parsing, printing and parsing again gives the first result, for every text |
| `ParsedTypes.ParsedIsSound` | crates/linkrs-core/src/types/parse.rs:49-113 | every type parsed from any text, at any depth, meets the conditions; brackets of the text match; uppercase text gives uppercase names |
| `TypeRoundTrip.ReadBack` | crates/linkrs-core/src/types/parse.rs:49-238 | what parsing a printed type gives at every depth: the type with names inside UNIONs in uppercase, or else an error or a type that differs in more than letter case |
| `TypeRoundTrip.RoundTrip` | crates/linkrs-core/src/types/parse.rs:49-238 | the equivalence for types with good names |
| `TypeRoundTrip.NamedKeyword` | crates/linkrs-core/src/types/parse.rs:68-105 | every printed keyword names its own type; no alias gets in the way |
| `ParsedTypes.DecimalFieldIsLost` | crates/linkrs-core/src/types/parse.rs:270-287 | no STRUCT with a DECIMAL field among its fields survives, whatever the names: its comma is taken for a separator |
| `ParsedTypes.CommaMemberIsLost` | crates/linkrs-core/src/types/parse.rs:270-287 | the same for every STRUCT field and UNION member that prints a comma outside angle brackets |
| `TypeRoundTrip.UnionRaisesNames` | crates/linkrs-core/src/types/parse.rs:201-220 | a UNION of a STRUCT comes back with the field name in uppercase |
| `TypeRoundTrip.StructOutcome` | crates/linkrs-core/src/types/parse.rs:160-174 | a printed STRUCT is taken apart into exactly its fields, or has more pieces than fields |
| `TypeRoundTrip.UnionOutcome` | crates/linkrs-core/src/types/parse.rs:201-220 | the same for UNION members, read from uppercase text |
| `PrintedText.DisplayPieces` | crates/linkrs-core/src/types/parse.rs:270-287 | a printed type is one piece, unless a DECIMAL or a UNION puts a comma outside angle brackets |
| `PrintedText.UpperDisplay` | crates/linkrs-core/src/types/parse.rs:62-66 | the uppercase form of a printed type prints the type with uppercase field names |
| `PrintedText.DisplayTidy` | crates/linkrs-core/src/types/parse.rs:62-66 | printed types have single spaces only, so whitespace normalisation leaves them alone |
| `TypeText.TakeAngleWord` | crates/linkrs-core/src/types/parse.rs:254-267 | the brackets after a word enclose exactly the balanced text between them |
| `TypeText.SplitConcat` | crates/linkrs-core/src/types/parse.rs:270-287 | the pieces of a concatenation from the pieces of its parts |
| `ParsedTypes.SplitParts` | crates/linkrs-core/src/types/parse.rs:270-287 | each piece of a balanced text is balanced and cannot be split again |
| `TypeParser.DigitsValue` | crates/linkrs-core/src/types/parse.rs:357-374 | reading the decimal digits of a number gives the number |
| `ParserLoops.TakeAngleBrackets` | crates/linkrs-core/src/types/parse.rs:254-267 | the scanning loop returns what the specification of bracket matching says |
| `ParserLoops.SplitTopLevelCommas` | crates/linkrs-core/src/types/parse.rs:270-287 | the scanning loop returns the specified pieces |
| `ParserLoops.ParseType` | crates/linkrs-core/src/types/parse.rs:49-238 | the recursive parser computes the specified result, which `TypeGrammar.ParserIsGrammar` shows to be that of the grammar |
| `ParserLoops.ParseStructType` | crates/linkrs-core/src/types/parse.rs:289-326 | the field loop, with its error exits |
| `ParserLoops.ParseUnionType` | crates/linkrs-core/src/types/parse.rs:201-220 | the member loop, which skips blank members |
| `TypeGrammar.ParserIsGrammar` | crates/linkrs-core/src/types/parse.rs:49-374 | for every text, depth and type: the parser gives the type, if and only if the text stands for it in a grammar of types that uses no function of the parser, only string operations (blanks, upper case, bracket depth): spellings, decimal notation, a word in any letter case before closed text in brackets, whole pieces between commas, names before types, lengths, at most 16 levels |
| `TypeGrammar.SplitExact` | crates/linkrs-core/src/types/parse.rs:270-287 | the pieces of a closed text are the only closed texts without a comma outside their brackets that it consists of, with commas between them |
| `TypeGrammar.LengthExact` | crates/linkrs-core/src/types/parse.rs:330-353 | the text after an array is a given length, or none, if and only if it is blank or the decimal notation in parentheses, with blanks anywhere around |
| `TypeGrammar.OpensStarts` | crates/linkrs-core/src/types/parse.rs:129-181 | text that opens with the word passes the prefix test, and the brackets taken are its own |
| `TypeGrammar.StartsOpens` | crates/linkrs-core/src/types/parse.rs:129-181 | text that passes the prefix test and has brackets opens with the word in some letter case, after blanks only |
| `TypeSpellings.PrintsCanonical` | crates/linkrs-core/src/types.rs:124-180 | a scalar type is printed as its word, never as an alias |
| `TypeSpellings.FlatTextExact` | crates/linkrs-core/src/types/parse.rs:62-112 | text without `<` and `(` is a given type, at any depth, if and only if the depth is below 16 and the text, squeezed and in capitals, is one of the listed spellings of that type |
| `TypeSpellings.NamedExact` | crates/linkrs-core/src/types/parse.rs:68-105 | the lookup of names agrees with the table of spellings by type, in both directions |
| `TypeSpellings.NumberedIntegers` | crates/linkrs-core/src/types/parse.rs:75-79 | for every n, INTn is a type if and only if n is 2, 4, 8, 16, 32 or 64; its width is 8n bits for a byte count, n bits for a bit count, but never less than 32 for a bit count |
| `TypeSpellings.SizedTextExact` | crates/linkrs-core/src/types/parse.rs:221-236 | any text is FIXEDSTRING(n), VECTOR_DENSE(n) or VECTOR_SPARSE(n), if and only if it is one of the words of that type and the size in parentheses, in decimal notation with blanks around it or not |
| `TypeSpellings.DecimalTextExact` | crates/linkrs-core/src/types/parse.rs:182-200 | any text is DECIMAL(p, s), if and only if it is that word and two bytes in parentheses with one comma between them |
| `TypeSpellings.SizeExact` | crates/linkrs-core/src/types/parse.rs:357-374 | a size is read if and only if the text is its decimal notation, leading zeros allowed |
| `TypeSpellings.ByteExact` | crates/linkrs-core/src/types/parse.rs:193-198 | a byte may have one plus sign in front as well |
| `TypeSpellings.NestingLimit` | crates/linkrs-core/src/types/parse.rs:34-58 | lists n deep come back from printing and parsing, if and only if n is at most 15 |
| `TypeFolding.ParseFolds` | crates/linkrs-core/src/types/parse.rs:49-238 | for every text: replacing each run of blanks by a space leaves the parsed type as it is, and changing to capitals as well changes field names to capitals and nothing else |
| `TypeFolding.SpacingIgnored` | crates/linkrs-core/src/types/parse.rs:59-66 | anywhere in any text, one run of blanks can stand for another |
| `TypeFolding.PaddingIgnored` | crates/linkrs-core/src/types/parse.rs:59-66 | blanks before and after any text do not matter |
| `TypeFolding.CaseIgnored` | crates/linkrs-core/src/types/parse.rs:59-68 | texts that differ in letter case only are both types or both not, equal up to the letter case of field names |
| `TypeFolding.FlatCaseIgnored` | crates/linkrs-core/src/types/parse.rs:59-68 | without `<` and `(`, they are the same type |
| `NullBitmap.StepExact` | crates/linkrs-core/src/null_bitmap.rs:76-254 | a command does to the flags what it does to a growable sequence of booleans, if and only if it makes no stray bit past `len` visible |
| `NullBitmap.StepClean` | crates/linkrs-core/src/null_bitmap.rs:76-254 | a command keeps all bits past `len` zero, if and only if it is not one of the listed exceptions (shrinking `resize`, `fill(true)`, `invert` with a partial word) |
| `NullBitmap.CleanExposesNothing` | crates/linkrs-core/src/null_bitmap.rs:76-254 | with a clean tail no command makes a stray bit visible |
| `NullBitmap.RunExact` | crates/linkrs-core/src/null_bitmap.rs:76-254 | from any bitmap, a run agrees with the growable sequence of booleans at every moment, if and only if no command of it makes a stray bit visible |
| `NullBitmap.RunRefines` | crates/linkrs-core/src/null_bitmap.rs:76-254 | over every run of clean commands the bitmap is a growable sequence of booleans |
| `NullBitmap.StepEffect` | crates/linkrs-core/src/null_bitmap.rs:76-254 | all of this for one command, flag by flag |
| `NullBitmap.AlwaysCleanKeeps` | crates/linkrs-core/src/null_bitmap.rs:76-254 | `reserve`, `set`, `push`, `set_null_range`, `clear`, growing `resize`, `fill(false)` and the binary operators on clean operands always keep the tail clean |
| `NullBitmap.NewBitmaps` | crates/linkrs-core/src/null_bitmap.rs:43-58 | contents of `with_len` and `all_null`; the latter has a clean tail exactly for multiples of 64 |
| `NullBitmap.PushExposesStrayBit` | crates/linkrs-core/src/null_bitmap.rs:224-235 | `all_null(1)` then `push(false)` reports two nulls |
| `NullBitmap.AtExec` | crates/linkrs-core/src/null_bitmap.rs:76-254 | every stored bit after every command, from the stored bits before it |
| `NullBitmap.AtRangeWords` | crates/linkrs-core/src/null_bitmap.rs:144-172 | the mask form sets exactly the bits of the range and keeps every other stored bit, for all word-boundary cases |
| `NullBitmap.RangeIsOneByOne` | crates/linkrs-core/src/null_bitmap.rs:144-172 | and so equals setting them one by one |
| `NullBitmap.IsNullExact` | crates/linkrs-core/src/null_bitmap.rs:94-99 | after every run in which no stray bit becomes visible, `is_null` answers from the sequence of booleans, and true past its end |
| `NullBitmap.BooleanAlgebra` | crates/linkrs-core/src/null_bitmap.rs:331-369 | De Morgan, double negation and conjunction on `is_null`, whatever lies past the end |
| `NullBitmap.NullCount` | crates/linkrs-core/src/null_bitmap.rs:185-201 | the word-wise population count is the number of null positions below `len` |
| `NullBitmap.Indices` | crates/linkrs-core/src/null_bitmap.rs:257-292 | the indices are increasing and exactly the positions below `len` with the wanted flag |
| `NullBitmap.Combine` | crates/linkrs-core/src/null_bitmap.rs:331-359 | the word loop for AND and OR, on bitmaps of different lengths |
| `NullBitmap.NullBitmap.WithLength` | crates/linkrs-core/src/null_bitmap.rs:43-49 | no element is null and no bit past the end is set |
| `NullBitmap.NullBitmap.AllNulls` | crates/linkrs-core/src/null_bitmap.rs:52-58 | every element is null; the tail is clean if and only if the length is a multiple of 64 |
| `NullBitmap.NullBitmap.Resize` | crates/linkrs-core/src/null_bitmap.rs:85-89 | kept flags do not change and new ones are the stray bits; equals cutting or padding the flags if and only if no stray bit becomes visible; when the tail stays clean |
| `NullBitmap.NullBitmap.Set` | crates/linkrs-core/src/null_bitmap.rs:116-126 | the flag is as asked for and no other flag below the old end changes; equals writing a growable sequence if and only if no stray bit becomes visible |
| `NullBitmap.NullBitmap.Push` | crates/linkrs-core/src/null_bitmap.rs:224-235 | one more flag, set if asked for or if its bit already was; equals appending if and only if it was not; the tail stays clean |
| `NullBitmap.NullBitmap.SetNullRange` | crates/linkrs-core/src/null_bitmap.rs:144-172 | exactly the flags of the range are set, the others do not change: three masks with the loop over whole words |
| `NullBitmap.NullBitmap.Fill` | crates/linkrs-core/src/null_bitmap.rs:244-247 | every flag is the given one, whatever was stored; when the tail stays clean |
| `NullBitmap.NullBitmap.Invert` | crates/linkrs-core/src/null_bitmap.rs:250-254 | every flag is the other way round; when the tail stays clean |
| `EventDispatch.RemoveOnce` | crates/linkrs-core/src/event_dispatch.rs:182-187 | `remove` answers true exactly for a registered id, cuts out that entry and leaves the others in order, and never again answers true for the id, whatever happens later |
| `EventDispatch.IdsNeverReused` | crates/linkrs-core/src/event_dispatch.rs:167-180 | an id drawn from the counter is below every id drawn later, in every interleaving of the two halves of registration |
| `EventDispatch.RunInv` | crates/linkrs-core/src/event_dispatch.rs:153-193 | ids in use are distinct and below the counter, over every run |
| `EventDispatch.RunRetired` | crates/linkrs-core/src/event_dispatch.rs:182-187 | an id that was issued and is gone stays gone |
| `EventDispatch.VisitsAreTheSnapshot` | crates/linkrs-core/src/event_dispatch.rs:219-270 | whatever filters and callbacks do to the registry, the snapshot is visited completely, once and in order; a callback runs if and only if there is no filter or it matched; the registry is left as the actions of the filters and of the callbacks that ran leave it, in that order |
| `EventDispatch.EachCountedOnce` | crates/linkrs-core/src/event_dispatch.rs:234-270 | the positions delivered, the positions not invoked and the positions whose callback panicked add up to all visits |
| `EventDispatch.EventSubscriptions.DispatchDetailed` | crates/linkrs-core/src/event_dispatch.rs:234-270 | visits the observers registered at the start, as their behaviour demands; delivered is the number of positions invoked without a panic, skipped the number not invoked, panics the number of panicked callbacks plus the number of panicked filters; their sum is the visits plus the filter panics |
| `EventDispatch.EventSubscriptions.RunObserver` | crates/linkrs-core/src/event_dispatch.rs:95-139 | one filter and callback, each a source of further registry actions |
| `EventDispatch.EventSubscriptions.AddFiltered` | crates/linkrs-core/src/event_dispatch.rs:167-180 | a fresh id, the entry at the end |
| `EventDispatch.EventSubscriptions.RemoveId` | crates/linkrs-core/src/event_dispatch.rs:182-187 | answers whether the id was registered; exactly that entry is gone |
| `EventDispatch.EventSubscriptions.RemoveAll` | crates/linkrs-core/src/event_dispatch.rs:190-192 | no observer is left; ids already drawn are not given out again |
| `AsyncForwarder.EveryRun` | crates/linkrs-core/src/event_dispatch.rs:413-439 | in every interleaving: handled is a prefix of accepted, accepted a subsequence of forwarded, the buffer within capacity, every forwarded event handled, in hand, queued, dropped or about to be counted; the last two are as many as there are sends at which the accepted events not yet received were as many as the capacity (without a buffer: the worker did not wait), and if there are none, accepted is forwarded |
| `AsyncForwarder.ForwardExact` | crates/linkrs-core/src/event_dispatch.rs:434-439 | on an open channel of capacity c >= 1 a forward is rejected if and only if the queue holds exactly c events, with c = 0 if and only if the worker is not waiting; otherwise the event is accepted last |
| `AsyncForwarder.Burst` | crates/linkrs-core/src/event_dispatch.rs:413-444 | a new forwarder of capacity c accepts the first c events of a burst, in order, and rejects the others, as long as its worker does not run |
| `AsyncForwarder.DropsExact` | crates/linkrs-core/src/event_dispatch.rs:434-444 | the same count from any state that the invariant allows |
| `AsyncForwarder.WorkerTurn` | crates/linkrs-core/src/event_dispatch.rs:421-427 | on an open channel a turn of the worker brings it one step nearer to an empty channel, or it waits because nothing is left to do |
| `AsyncForwarder.CanAlwaysEnd` | crates/linkrs-core/src/event_dispatch.rs:395-430 | from every such state the forwards under way can finish, the handles can be dropped and the worker can end, with every accepted event handled and every rejected one counted |
| `AsyncForwarder.RunInv` | crates/linkrs-core/src/event_dispatch.rs:413-439 | every run of atomic steps keeps the invariant behind this: handled, in hand and queued make up accepted, in order |
| `AsyncForwarder.ClosedDrains` | crates/linkrs-core/src/event_dispatch.rs:421-430 | once closed, in every interleaving: the worker has ended if and only if it had enough turns, and then it has handled every accepted event in order and handled + dropped = forwarded |
| `BloomFilter.NoFalseNegatives` | crates/linkrs-core/src/bloom_filter.rs:53-96 | after every history of inserts, merges and reloads since the last clear, every known key is reported |
| `BloomFilter.SurvivesExactly` | crates/linkrs-core/src/bloom_filter.rs:192-204 | for a given hash function, a key survives a merge into an empty filter of the same size, if and only if every position this filter probes is one the other has set for it |
| `BloomFilter.MurmurLosesKey` | crates/linkrs-core/src/bloom_filter.rs:86-204 | with the hash of the code: the key of one zero byte, inserted with one probe, is lost in a merge into a filter of 64 bits and two probes |
| `BloomFilter.MergeNeedsFewerHashes` | crates/linkrs-core/src/bloom_filter.rs:192-204 | when keys survive a merge whatever the hash function: if the size divides 2^64, if and only if this filter probes no more positions than the other or the other probes as many as it has bits; if not, if and only if it probes no more positions (for other filters with probes times size up to 2^64, and for all that probe fewer positions than they have bits) |
| `Murmur.MurmurHash3` | crates/linkrs-core/src/bloom_filter.rs:98-153 | the loops over chunks and remaining bytes compute the specified hash |
| `Murmur.ZeroByteHashes` | crates/linkrs-core/src/bloom_filter.rs:86-153 | both hash words of the key of one zero byte |
| `Murmur.NineBytesHash` | crates/linkrs-core/src/bloom_filter.rs:98-153 | the hash of the bytes 1 to 9 with seed 7: a whole chunk and a rest |
| `BloomFilter.BytesRoundTrip` | crates/linkrs-core/src/bloom_filter.rs:206-244 | reading back written bytes gives a filter with the same answers to every query, and writing it again gives identical bytes |
| `BloomFilter.AcceptedBytes` | crates/linkrs-core/src/bloom_filter.rs:206-244 | for every byte string that is accepted, writing the filter again gives its header and the bytes that were needed, and reading that gives the same filter |
| `BloomFilter.ReportsExactly` | crates/linkrs-core/src/bloom_filter.rs:70-96 | a key is reported if and only if each of its probes hits a probe of an inserted key |
| `BloomFilter.BitsAreLit` | crates/linkrs-core/src/bloom_filter.rs:53-60 | a bit is set if and only if some inserted key probes it |
| `BloomFilter.ScalableStep` | crates/linkrs-core/src/bloom_filter.rs:275-289 | an insert makes the key reported, forgets no key and is counted once, whether or not it opens a filter |
| `BloomFilter.ScalableReports` | crates/linkrs-core/src/bloom_filter.rs:275-293 | a scalable filter reports every inserted key |
| `BloomFilter.ScalableGrowth` | crates/linkrs-core/src/bloom_filter.rs:275-297 | after n inserts with capacity c >= 1 and m filters: lengths add up to n, filter i < m - 1 holds c * 2^i items, and n lies between the capacities of m - 1 and m filters |
| `BloomFilter.NewFilter` | crates/linkrs-core/src/bloom_filter.rs:24-47 | a new filter has the asked-for bits but at least 64, and the asked-for hashes but between 1 and 20; 1024 bits and 3 hashes for no items; no bit is set |
| `BloomFilter.Bloom.Insert` | crates/linkrs-core/src/bloom_filter.rs:53-60 | new filter as specified; the key is reported |
| `BloomFilter.Bloom.Contains` | crates/linkrs-core/src/bloom_filter.rs:70-76 | the early-exit loop over the probes |
| `BloomFilter.Bloom.MergeFrom` | crates/linkrs-core/src/bloom_filter.rs:192-204 | new filter as specified, for equal and for different sizes |
| `BloomFilter.ScalableBloom.Insert` | crates/linkrs-core/src/bloom_filter.rs:275-289 | the key is reported from now on, every key reported before still is, and the length grows by one |
| `BloomFilter.ScalableBloom.Contains` | crates/linkrs-core/src/bloom_filter.rs:291-293 | some filter reports the key |
| `BloomFilter.ScalableBloom.Length` | crates/linkrs-core/src/bloom_filter.rs:295-297 | the sum of the lengths |
| `BloomExact.BitsAfter` | crates/linkrs-core/src/bloom_filter.rs:53-244 | after every history of inserts, merges, reloads and clears, a bit is set if and only if it was set at the start, by a probe of an inserted key or by a merged filter of the same size, with no clear since |
| `BloomExact.ReportsAfter` | crates/linkrs-core/src/bloom_filter.rs:70-244 | and so exactly which keys are reported after every history |
| `BloomExact.ClearForgets` | crates/linkrs-core/src/bloom_filter.rs:155-158 | right after a clear no key is reported, unless the filter has no hashes, and the length is 0 |
| `BloomExact.LengthAfter` | crates/linkrs-core/src/bloom_filter.rs:53-162 | without merges the length is the number of inserts since the last clear |
| `BloomExact.MergeLength` | crates/linkrs-core/src/bloom_filter.rs:192-204 | a merge of filters of equal size has the greater of the two lengths |
| `BloomExact.ScalableHolds` | crates/linkrs-core/src/bloom_filter.rs:275-289 | with capacity c >= 1, filter i is a new filter of its generation with exactly the inserts from c * 2^i - c up to 2c * 2^i - c in it |
| `BloomExact.ScalableExact` | crates/linkrs-core/src/bloom_filter.rs:275-293 | a scalable filter reports a key if and only if the probes of the key into one of its filters all hit probes of the keys that filter took |
| `BloomExact.ZeroCapacityHolds` | crates/linkrs-core/src/bloom_filter.rs:275-289 | with capacity 0 every insert has a filter of its own, of 1024 bits and 3 hashes |
| `BloomExact.ByteLayout` | crates/linkrs-core/src/bloom_filter.rs:206-218 | bytes 0 to 23 are bit count, hash count and length, lowest byte first; bit i is bit i % 8 of byte 24 + i / 8 |
| `Columnar.AppendRowValid` | crates/linkrs-core/src/columnar.rs:258-276 | a batch stays well-formed if and only if the row fits: a batch that holds rows without columns accepts a wider row and breaks |
| `Columnar.AppendRowRows` | crates/linkrs-core/src/columnar.rs:258-276 | the new row is the last logical row without a selection; with one, the logical rows do not change |
| `Columnar.WiderRowBreaks` | crates/linkrs-core/src/columnar.rs:258-276 | a row without columns, then one with a column: accepted, and the batch is not well-formed |
| `Columnar.FromRowsRoundTrip` | crates/linkrs-core/src/columnar.rs:221-228 | of all row lists that are taken without a panic, those of one arity and no others give a well-formed batch with the same rows |
| `Columnar.DrainedExact` | crates/linkrs-core/src/columnar.rs:329-356 | what `into_rows` leaves is empty, and well-formed, if and only if no rows were selected |
| `Columnar.SelectionOutlivesRows` | crates/linkrs-core/src/columnar.rs:329-370 | a batch of one selected row claims one row after draining and is not well-formed |
| `Columnar.GatherSelects` | crates/linkrs-core/src/columnar.rs:447-468 | the gathered rows are the selected logical rows |
| `Columnar.GatherGather` | crates/linkrs-core/src/columnar.rs:447-468 | gathering twice composes the positions |
| `Columnar.HashGather` | crates/linkrs-core/src/columnar.rs:472-499 | hashing after gathering is gathering the hashes |
| `Columnar.HashTellsApart` | crates/linkrs-core/src/columnar.rs:472-499 | rows whose bytes differ in one place have different hashes |
| `Fnv.OneByteApart` | crates/linkrs-core/src/columnar.rs:37-43 | a change of a single byte, wherever it is, changes the hash |
| `Fnv.UpdateConcat` | crates/linkrs-core/src/columnar.rs:37-43 | hashing a text in parts is hashing it whole |
| `Fnv.PublishedHashes` | crates/linkrs-core/src/columnar.rs:34-43 | the published FNV-1a hashes of "a" and "foobar" |
| `Fnv.UpdateBytes` | crates/linkrs-core/src/columnar.rs:37-43 | the byte loop |
| `Columnar.MaterializedBatch.Append` | crates/linkrs-core/src/columnar.rs:258-276 | new batch as specified |
| `Columnar.MaterializedBatch.IntoRows` | crates/linkrs-core/src/columnar.rs:329-356 | returns the logical rows; the batch is left empty, and well-formed, if and only if no rows were selected |
| `Columnar.MaterializedBatch.SetSelection` | crates/linkrs-core/src/columnar.rs:368-370 | the logical rows are those at the selected positions; well-formed if and only if the selection stays inside the physical rows |
| `Columnar.MaterializedBatch.GatherRows` | crates/linkrs-core/src/columnar.rs:447-468 | the loop over positions and columns |
| `Columnar.MaterializedBatch.SliceRows` | crates/linkrs-core/src/columnar.rs:414-443 | the rows are the logical rows from the smaller of offset and row count up to the smaller of offset + length and row count, on both branches; names and fingerprint are kept |
| `Columnar.MaterializedBatch.HashAll` | crates/linkrs-core/src/columnar.rs:472-499 | hash i is FNV-1a from the seed 0xdeadbeefcafe over the bytes of the projected values of logical row i, each followed by 0xff |
| `PointIds.NormalizeFormat` | crates/linkrs-core/src/fusion.rs:172-176 | for every vertex key, tag and field, normalising the written id gives the key back |
| `PointIds.NormalizeKeeps` | crates/linkrs-core/src/fusion.rs:172-176 | an id passes through unchanged if and only if it lacks the suffix and holds neither escape sequence |
| `PointIds.EdgeKeyIsDecoded` | crates/linkrs-core/src/fusion.rs:168-176 | an edge document key with an escape sequence in it is changed |
| `PointIds.EscapeIsCodes` | crates/linkrs-sync/src/manager/intents.rs:174-186 | the two replacements of the writer escape each character on its own |
| `PointIds.SuffixExact` | crates/linkrs-core/src/fusion.rs:180-186 | for any names, a written point is kept if and only if the suffix of its index ends with the requested one |
| `PointIds.SuffixIdentifiesIndex` | crates/linkrs-core/src/fusion.rs:180-186 | for names without `#`, it is kept if and only if tag and field are the requested ones |
| `PointIds.DelimiterInNameConfuses` | crates/linkrs-core/src/fusion.rs:180-186 | a tag with `#` makes points of another index pass |
| `Fusion.NormalizeHitsKeepsIndex` | crates/linkrs-core/src/fusion.rs:180-192 | of written points, exactly those of the requested index are kept, in order, under the raw key |
| `Fusion.MergeTakesFirst` | crates/linkrs-core/src/fusion.rs:105-136 | every payload key, and highlights and source, come from the first hit that has them |
| `Fusion.MergeHits` | crates/linkrs-core/src/fusion.rs:105-136 | the loop over hits, with the payload map in any order |
| `Fusion.Accumulate` | crates/linkrs-core/src/fusion.rs:16-31 | score sums and contributing hits of every id |
| `Fusion.SortByScore` | crates/linkrs-core/src/fusion.rs:36 | descending, the same hits |
| `Fusion.RrfFuse` | crates/linkrs-core/src/fusion.rs:16-39 | for any map order: as many ids as asked for, each once and the merge of all its contributing hits, in descending order of the sum of 1 / (k + rank) over all occurrences, and no omitted id sums to more than a kept one |
| `Fusion.TopIsFusion` | crates/linkrs-core/src/fusion.rs:31-38 | the best fused rows are such a fusion |
| `Fusion.TruncateIsTop` | crates/linkrs-core/src/fusion.rs:36-38 | cutting a sorted list leaves the best |
| `NPath.FlatChain` | crates/linkrs-core/src/npath.rs:129-206 | a flat path survives the way through linked nodes |
| `NPath.ChainFlat` | crates/linkrs-core/src/npath.rs:44-140 | a built chain is determined by its flat path; cached length and hash carry nothing of their own |
| `NPath.UpwardIsReversed` | crates/linkrs-core/src/npath.rs:312-384 | the iterators yield the vertices and edges in reverse |
| `NPath.IterationStartsAtEnd` | crates/linkrs-core/src/npath.rs:247-260 | the first vertex yielded is the end of the path, the last one its start |
| `NPath.ContainsVertexIsMembership` | crates/linkrs-core/src/npath.rs:208-216 | `contains_vertex` is membership |
| `NPath.EqualIsSameWalk` | crates/linkrs-core/src/npath.rs:294-305 | the quick comparison is equality of vertex ids and edges |
| `NPath.ExploreNeverLoops` | crates/linkrs-core/src/npath.rs:101-116 | any number of chains grown by `extend_with_set` with one shared, seeded set: no chain repeats a vertex, no two end at the same one, the set holds exactly the seeds and the ends of the added chains, and every vertex tried from an existing chain is in it |
| `NPath.ExtendsUnseen` | crates/linkrs-core/src/npath.rs:101-114 | a vertex is refused if and only if it is in the set; otherwise the path gains that step and the set that vertex |
| `NPath.FromPath` | crates/linkrs-core/src/npath.rs:129-140 | the loop builds the chain of the path |
| `NPath.ToPath` | crates/linkrs-core/src/npath.rs:184-206 | the upward loop and the reversal give the flat path |
| `NPath.NPathIter.NextVertex` | crates/linkrs-core/src/npath.rs:337-360 | yields the next remaining vertex, then nothing |
| `NPath.NPathIter.NextEdge` | crates/linkrs-core/src/npath.rs:363-384 | yields the next remaining edge, stops at the start node |
| `NPath.ReverseInvolution` | crates/linkrs-core/src/vertex_edge_path.rs:646-672 | reversing twice gives the path back; a path is a walk exactly when its reverse is |
| `NPath.ReversePath` | crates/linkrs-core/src/vertex_edge_path.rs:646-672 | the backward loop over the vertex list |
| `NPath.CombinePaths` | crates/linkrs-core/src/npath.rs:394-412 | nothing unless the ends meet, else the spliced path |
| `NPath.SpliceJoins` | crates/linkrs-core/src/npath.rs:394-412 | two walks that meet are joined into one walk through exactly their vertices |
| `NPath.AppendedEdgeIsMisplaced` | crates/linkrs-core/src/vertex_edge_path.rs:676-691 | one edge between two vertices, appended at its end: not a walk, and it ends at the wrong vertex |
| `NPath.AppendReverseNeedsLoops` | crates/linkrs-core/src/vertex_edge_path.rs:676-691 | `append_reverse` gives a walk if and only if the appended walk never leaves its vertex |

## Left out

- HTTP and gRPC clients, command line, service management, frontend, build scripts: input and output over code that is not modelled.
- Configuration structs and validators, permissions, error codes: single-branch range checks.
- Storage, transactions, query compilation, migration: other crates, not part of this model.
- Locking inside the session variables: each method is one atomic step.
- Reasons inside parser errors: an error is the absence of a type.
- `can_cast`, `get_cast_targets`, `as_u8` and `from_u8`: finite tables that enumeration settles.
- `are_types_compatible` and `binary_operation_result_type`: thin wrappers over the common type.
- `weighted_fuse` and the rounding of scores: scores are exact reals.
- The floating-point formulas for bits and hashes in `BloomFilter::new`, false-positive estimates and the quality of the hash functions: they are not stated.
- `dispatch_timed`, `SubscriptionGuard` and logging: they add easy members to the dispatch model.
- `append_column`, `refresh_fingerprint` and `memory_size`: no property needs them.
- `has_common_vertices`, `contains_edge` and `has_duplicates`: membership again.
- EventDispatch.IdsNeverReused: ids are unbounded, so the wrap-around of the 64-bit counter is not modelled.
- NullBitmap.RunRefines: lengths are unbounded, so overflow of `usize` arithmetic is not modelled.
- BloomFilter.MergeNeedsFewerHashes: for a size that does not divide 2^64, loss is not shown for filters that probe at least as many positions as they have bits and whose probes times size exceed 2^64.
- Columnar.MaterializedBatch.SliceRows: where the source adds offset and length, the sum must fit a `usize`, because it adds them unchecked.
- TypeAlgebra.CleanAssociates: types that contain EMPTY, NULL or UNKNOWN are excluded, because which of them survives depends on the grouping (`SentinelsRegroup`); `CommonTypeAssociates` covers them.
- Fusion.NormalizeHitsKeepsIndex: names with `#` are excluded; `PointIds.SuffixExact` says which points pass then.
