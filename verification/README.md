# Verified models of Neomacs tooling

A Dafny model of the parts of Neomacs whose correctness is not visible from one
function: the profile encoder and reports of the diagnostics server, its capture
protocols, the DOC scanner, font identity, the effect registry, and four small
text and graph algorithms of the build scripts. Every main operation is tied to an
independent definition: a reader for an encoder, a positional definition for a
lexer, a batch function for a streaming one, a reachability predicate for a
worklist, runs of a state machine for a protocol.

| file | what it models |
|---|---|
| `Text.dfy` | splitting, joining, decimal numerals, byte order |
| `Wire.dfy`, `Folded.dfy`, `FoldedText.dfy`, `FoldedTrim.dfy`, `Pprof.dfy` | protobuf wire format, folded stacks, the pprof encoder and a reader for it |
| `Ranking.dfy`, `Report.dfy`, `ReportLaws.dfy`, `Percentile.dfy` | aggregation, ranking, diff, histogram percentile |
| `Capture.dfy`, `NativeCapture.dfy` | the capture protocols as step systems over any number of requests |
| `DocStream.dfy`, `DocText.dfy`, `DocMachine.dfy`, `DocKeyword.dfy`, `DocBatch.dfy` | the pushback stream, the grammar of doc strings and comments, the whitespace and keyword machine |
| `DocRead.dfy`, `DocReader.dfy` | reading a body, as a function of the file and as the loops that compute it |
| `DocArgs.dfy`, `DocHeads.dfy`, `DocLog.dfy`, `DocScan.dfy` | usage lines, the heads of a C file and what becomes of them, and the scanner |
| `DocWrite.dfy`, `DocBody.dfy`, `DocUsage.dfy`, `DocDeclare.dfy` | writers: string and comment bodies, documentation with its usage line, parameter lists, whole declarations |
| `DocDeclared.dfy`, `DocPrint.dfy` | what the scanner makes of what the writers write |
| `FontIdentity.dfy` | variation sets, stable keys, identity |
| `EffectJson.dfy`, `EffectRules.dfy`, `EffectValueLaws.dfy`, `Effects.dfy` | typed effect values, what is accepted and stored, and batches of operations |
| `IfZero.dfy`, `Reach.dfy`, `Literal.dfy` | `#if 0` stripping, safepoint reachability, Rust string literals |

`dafny verify dfyconfig.toml` checks the whole project.

## Conventions

Text is bytes in the profile and DOC models, code points elsewhere. Counts,
durations, percentages and quantiles are exact integers and reals; saturating
casts, two's complement and the f32 range test are written out. A Rust error or a
Python exception is a result value or an out-parameter `raised`. The iteration order
of a hash map or a set is arbitrary. Where a claim about the code holds only under a
condition, the condition is proved to be exact, or a run shows what happens without
it. Every lemma carries `{:induction false}`: all inductions are written out. A few lemmas
`hide` function bodies that they do not need. Writers have their own letters and
character classes, so that a law about reading back does not rest on the reader.

## What the proofs found

- A C string in the DOC scanner closes at the quote that ends an odd run of
  unescaped quotes, so `"a""""` is still open: the first unescaped quote not
  followed by a quote is the end only after an even number of quotes before it.
- A comment that the file does not end gets a star it does not have, unless it ends
  in an unescaped star or has nothing after its whitespace. A backslash at the end of
  the file raises an exception.
- A body that ends inside a `usage:` keyword loses that beginning of it, and a blank
  inside one is moved before it. Blanks inside do not keep a keyword from completing.
- A head whose first argument is not a string literal is dropped without being
  listed among the heads without documentation.
- The Lisp profiler's start and stop leave the diagnostics ownership mark alone, so
  a user session started after the user stopped a capture is ended by that capture.
- An abort after a stop that timed out can end a user session; a request dropped
  while its start is awaited leaves a session behind, and one dropped while its stop
  is awaited has its session stopped and aborted.
- A start can take over an interactive session when the mark of an earlier capture was
  left standing, although starts are documented never to do so.
- When a file ends before the parameter list that a `DEFUN` needs, the stream holds
  its documentation and the records do not.
- A colour text may have a plus sign for the first digit of a byte: `#+1+2+3` is one.
- A quantile of zero or less selects the first bucket even when it is empty, and one
  above 1 reports 0.
- Self% changes sum to 100 or -100 when exactly one of the captures is empty.
- An integer property that holds a non-negative value refuses negative ones even
  where its name allows them, so setting a negative offset to zero cannot be undone.
- The second and third raw-string delimiters of the literal printer are never used.
- A folded line whose first frame starts with whitespace, or a frame with a semicolon
  or a newline in its name, does not survive the diagnostics parser.

## Model

| member | source | states |
|---|---|---|
| `Wire.VarintSelfDelimiting` | crates/neomacs-diagnostics/src/pprof.rs:27-38 | reading an encoded varint followed by any bytes returns the value and exactly those bytes |
| `Wire.VarintLength` | crates/neomacs-diagnostics/src/pprof.rs:27-38 | a varint takes at most `k` bytes if and only if its value is below 128 to the `k` |
| `Wire.VarintAtMostTen` | crates/neomacs-diagnostics/src/pprof.rs:27-38 | every u64 takes at most ten bytes, and ten is reached |
| `Wire.FieldSelfDelimiting` | crates/neomacs-diagnostics/src/pprof.rs:40-58 | a field of either wire type splits off any byte string that follows it, whatever its payload bytes are |
| `Wire.FieldsRoundTrip` | crates/neomacs-diagnostics/src/pprof.rs:40-58 | a message reads back as exactly its fields, in order |
| `Wire.PackedRoundTrip` | crates/neomacs-diagnostics/src/pprof.rs:60-66 | a packed list reads back as exactly its values |
| `Wire.ProtoBuf.constructor` | crates/neomacs-diagnostics/src/pprof.rs:22-25 | a new buffer holds no field |
| `Wire.ProtoBuf.Varint` | crates/neomacs-diagnostics/src/pprof.rs:27-38 | the loop appends the base-128 form of the value that the reader undoes |
| `Wire.ProtoBuf.Tag` | crates/neomacs-diagnostics/src/pprof.rs:40-42 | a field number and wire type become one varint |
| `Wire.ProtoBuf.FieldVarint` | crates/neomacs-diagnostics/src/pprof.rs:44-47 | the bytes stay the encoding of a field list, now with this varint field at its end |
| `Wire.ProtoBuf.FieldBytes` | crates/neomacs-diagnostics/src/pprof.rs:49-53 | likewise for a length-delimited field with any payload |
| `Wire.ProtoBuf.FieldMessage` | crates/neomacs-diagnostics/src/pprof.rs:55-58 | likewise for a nested message, whose payload is the encoding of its own fields |
| `Wire.ProtoBuf.FieldPackedU64` | crates/neomacs-diagnostics/src/pprof.rs:60-66 | likewise for a packed list |
| `FoldedText.CountMeaning` | crates/neomacs-diagnostics/src/pprof.rs:120-122 | a count is accepted exactly when it is digits after at most one sign, minus for i64 only, that spell a number of its Rust type |
| `FoldedText.LineMeaning` | crates/neomacs-diagnostics/src/pprof.rs:112-130 | a line gives a stack exactly when the text before its last space has a frame and the text after it is a count; the frames are the pieces between semicolons at a strictly increasing list of positions that holds exactly those of the pieces that are not empty |
| `FoldedText.StacksAreGiven` | crates/neomacs-diagnostics/src/report.rs:44-59 | the stacks parsed are those of exactly the lines that give one, at a strictly increasing list of positions |
| `FoldedTrim.TrimMeaning` | crates/neomacs-diagnostics/src/pprof.rs:113 | on any text of Unicode characters, `trim` takes exactly the white space characters off both ends |
| `FoldedText.StackInOrder` | crates/neomacs-diagnostics/src/report.rs:44-59 | the stacks parsed are those of the lines that give one, each at the position of its line among them |
| `FoldedText.WriteFolded` | crates/neovm-core/src/emacs_core/system/profiler/mod.rs:465-471 | the output loop writes one line per stack, as `Render` defines the text |
| `FoldedText.LineRoundTrip` | crates/neovm-core/src/emacs_core/system/profiler/mod.rs:440-471 | a written line parses back to the same stack and count if and only if no frame is empty or holds a semicolon and the line does not start with whitespace |
| `FoldedText.FoldedRoundTrip` | crates/neovm-core/src/emacs_core/system/profiler/mod.rs:440-471 | a whole folded text parses back to the same stacks in the same order if and only if every frame is printable and free of newlines |
| `Pprof.StringTable.constructor` | crates/neomacs-diagnostics/src/pprof.rs:76-83 | index 0 is the empty string |
| `Pprof.StringTable.Intern` | crates/neomacs-diagnostics/src/pprof.rs:85-94 | the returned index names the string; a known string adds nothing, a new one only itself at the end |
| `Pprof.InternedDistinct` | crates/neomacs-diagnostics/src/pprof.rs:85-94 | no string is ever stored twice |
| `Pprof.OrderCovers` | crates/neomacs-diagnostics/src/pprof.rs:127-133 | every frame of every parsed stack gets a function number |
| `Pprof.NoteFrames` | crates/neomacs-diagnostics/src/pprof.rs:127-133 | function ids stay the one-based positions in first-seen order |
| `Pprof.Collect` | crates/neomacs-diagnostics/src/pprof.rs:112-135 | the loop yields exactly the parsed stacks, and ids and order that agree |
| `Pprof.LocationIdList` | crates/neomacs-diagnostics/src/pprof.rs:155 | location ids come leaf first |
| `Pprof.SampleRoundTrip` | crates/neomacs-diagnostics/src/pprof.rs:152-159 | reading one sample message and resolving location, function and string gives the stack root first and the signed count, negative counts included |
| `Pprof.LocationsRoundTrip` | crates/neomacs-diagnostics/src/pprof.rs:161-170 | the location messages read back as the location table |
| `Pprof.FunctionsRoundTrip` | crates/neomacs-diagnostics/src/pprof.rs:172-179 | the function messages read back as the function table, with name indices |
| `Pprof.TablesRoundTrip` | crates/neomacs-diagnostics/src/pprof.rs:161-184 | all three tables are recovered from the emitted fields |
| `Pprof.ValueTypeRoundTrip` | crates/neomacs-diagnostics/src/pprof.rs:146-150 | the sample type reads back as samples/count, also when frames carry those names |
| `Pprof.SamplesRoundTrip` | crates/neomacs-diagnostics/src/pprof.rs:152-159 | all samples are recovered, in order |
| `Pprof.ProfileRoundTrip` | crates/neomacs-diagnostics/src/pprof.rs:102-188 | reading the encoded profile gives back exactly the list of stacks |
| `Pprof.InternNames` | crates/neomacs-diagnostics/src/pprof.rs:138-139 | each function name's index names it in the finished table |
| `Pprof.EmitSamples` | crates/neomacs-diagnostics/src/pprof.rs:152-159 | appends exactly one sample field per stack and nothing else |
| `Pprof.EmitLocations` | crates/neomacs-diagnostics/src/pprof.rs:161-170 | appends exactly one location field per function |
| `Pprof.EmitFunctions` | crates/neomacs-diagnostics/src/pprof.rs:172-179 | appends exactly one function field per function |
| `Pprof.EmitStrings` | crates/neomacs-diagnostics/src/pprof.rs:181-184 | appends the string table in index order |
| `Pprof.EmitProfile` | crates/neomacs-diagnostics/src/pprof.rs:141-187 | the bytes are the encoding of the specified fields |
| `Pprof.FoldedToPprof` | crates/neomacs-diagnostics/src/pprof.rs:102-188 | an independent reader of the bytes recovers exactly the parsed stacks of any input text |
| `DocStream.Stream.constructor` | scripts/make_docfile.py:76-79 | the cursor starts at 0 |
| `DocStream.Stream.Getc` | scripts/make_docfile.py:81-89 | with or without pushback, it reads the character under the cursor, or EOF, and moves by one |
| `DocStream.Stream.Ungetc` | scripts/make_docfile.py:91-95 | pushes back any byte but EOF; the byte just read moves the cursor back over it |
| `DocStream.Stream.ScanfInt` | scripts/make_docfile.py:97-121 | equals an integer scan at the cursor of the plain data; a failed match moves nothing |
| `DocStream.Stream.AtEof` | scripts/make_docfile.py:123-125 | true exactly when the cursor has passed the end |
| `DocText.LexStops` | scripts/make_docfile.py:231-263 | a body ends at the first terminator by a positional definition: an unescaped `*/`, or the quote that ends an odd run of unescaped quotes; without one it ends with the file, and dangles exactly when the end of the file is escaped |
| `DocText.EvenRunStaysOpen` | scripts/make_docfile.py:259-263 | the body of `"a""""` is not closed |
| `DocText.UnterminatedComment` | scripts/make_docfile.py:251-258 | a comment that the file ends is decoded whole, with one star more exactly when something follows its whitespace and that does not end in an unescaped star |
| `DocWrite.LexSource` | scripts/make_docfile.py:231-263 | however a body is written, with characters as they are or behind a backslash, `\n` and `\t`, line continuations and adjacent strings, it reads as what its pieces stand for and ends at its terminator |
| `DocWrite.TextReadsBack` | scripts/make_docfile.py:224-263 | every byte text comes back from the string or the comment it is written as, a leading blank and a `*/` in a comment included |
| `DocBody.TidyIsKept` | scripts/make_docfile.py:142-158 | a text without a space before a newline and without a blank at its end is kept as it is |
| `DocBody.EndDropped` | scripts/make_docfile.py:142-158 | blanks at the end of any text are dropped |
| `DocBody.SpaceDropped` | scripts/make_docfile.py:245-250 | a space before a newline is dropped from any text |
| `DocBody.DocumentReadsBack` | scripts/make_docfile.py:161-266 | written documentation reads as its text; a usage line in it becomes a blank line, `(fn` and the rest of the line behind the function's name, and is noticed exactly when there is one |
| `DocMachine.StreamingIsBatch` | scripts/make_docfile.py:142-158 | without the keyword, deferred spaces and newlines give the batch text: spaces before a newline deleted, trailing blanks deleted |
| `DocMachine.KeywordLosesNothing` | scripts/make_docfile.py:161-204 | non-blank output followed by the held prefix equals the non-blank input, over every sequence of matches and false alarms |
| `DocKeyword.HeldIsPositional` | scripts/make_docfile.py:163-204 | what is held back after any text is what its position says: the characters since the last `u` that follows a newline and no open prefix |
| `DocKeyword.CompletesIsSeen` | scripts/make_docfile.py:163-173 | a keyword completes at a character exactly when the text up to it holds a whole `usage:` by that definition |
| `DocKeyword.TextLostExactlyWhenOpen` | scripts/make_docfile.py:196-204 | text is missing at the end of a body if and only if the text ends inside a keyword, and it is that beginning of the keyword |
| `DocBatch.KeywordIsBatch` | scripts/make_docfile.py:142-204 | with the keyword, the text is the batch text if and only if it does not end inside a keyword and no blank lies inside one |
| `DocRead.ReadNameIsBatch` | scripts/make_docfile.py:207-266 | a name is the batch text of its body; it raises if and only if the body dangles |
| `DocRead.ReadDocumentation` | scripts/make_docfile.py:161-266 | documentation is the machine's text of its body up to the first `usage:`, then a blank line, `(fn`, and what is read afresh behind the function's name |
| `DocRead.RaisesExactly` | scripts/make_docfile.py:178-190 | reading documentation raises if and only if some `usage:` of the body is not followed by a parenthesis and a name that ends, or the last stretch of the body dangles |
| `DocReader.RcsocState.PutChar` | scripts/make_docfile.py:142-158 | writes the owed newlines, spaces and the character; raises exactly for EOF with a sink |
| `DocReader.RcsocState.FinishKeyword` | scripts/make_docfile.py:170-194 | raises exactly when no parenthesis follows the blanks or the name does not end; otherwise writes a blank line and `(fn` and leaves the cursor at the end of the name |
| `DocReader.RcsocState.ReleaseHeld` | scripts/make_docfile.py:196-203 | a false alarm writes back the held prefix |
| `DocReader.RcsocState.ScanKeywordOrPutChar` | scripts/make_docfile.py:161-204 | one step of the keyword machine, or the jump of a completed keyword |
| `DocReader.ReadEscape` | scripts/make_docfile.py:233-241 | a backslash and what it escapes keep what is still to be read in step with the file; what an escape stands for is fixed by `DocWrite.LexSource` |
| `DocReader.ReadRun` | scripts/make_docfile.py:232-249 | the inner loop reads on to a star, a quote or the end in step |
| `DocReader.AfterStar` | scripts/make_docfile.py:251-258 | a star ends a comment or belongs to its text |
| `DocReader.AfterQuote` | scripts/make_docfile.py:251-263 | a quote ends a string or joins it to the next |
| `DocReader.ReadRuns` | scripts/make_docfile.py:231-263 | the outer loop reads the body to its end, and raises exactly when the reading of the file does |
| `DocReader.ReadCStringOrComment` | scripts/make_docfile.py:207-266 | terminates on every input; text, usage flag, exception and position are those of the reading of the file from the cursor on, which `DocWrite.TextReadsBack` and `DocBody.DocumentReadsBack` tie to writers |
| `DocArgs.WriteCArgs` | scripts/make_docfile.py:269-303 | the usage line lists the last identifier of every parameter but a lone `void`, in Lisp spelling, with `&optional` before the first that may be left out |
| `DocUsage.UsageReadsBack` | scripts/make_docfile.py:269-303 | the usage line of a parameter list written out, with any type words and names in either case, gives the names in capitals with hyphens, in order, `defalt` as `DEFAULT` and `void` as none, with `&optional` before the MIN-th name if MAX is larger |
| `DocLog.MatchingIsBalanced` | scripts/make_docfile.py:531-539 | the parameter list ends at the one parenthesis that closes the first balanced stretch |
| `DocLog.LogInOrder` | scripts/make_docfile.py:351-553 | the heads of a file are in file order and apart, each is the head on its line, and only the last can be cut off or raise |
| `DocLog.LogComplete` | scripts/make_docfile.py:351-553 | every line that starts with a head is that of a head found, lies inside one, or comes after one that raised |
| `DocScan.Scanner.FindHead` | scripts/make_docfile.py:360-421 | a head is recognised if and only if the line carries one, and otherwise no other line start is consumed |
| `DocScan.Scanner.ReadArity` | scripts/make_docfile.py:449-469 | MIN and MAX are integer scans at the argument; MANY and UNEVALLED are -1; anything else keeps the earlier number |
| `DocScan.Scanner.SkipCommas` | scripts/make_docfile.py:445-474 | stops behind the counted comma, or reports the end of the file exactly when it comes first |
| `DocScan.Scanner.FindOpening` | scripts/make_docfile.py:476-501 | finds where the documentation of the head opens, past an old-style spec and a `doc:` marker |
| `DocScan.Scanner.ReadBalanced` | scripts/make_docfile.py:531-539 | the parameter list is the file text from a parenthesis to the one that matches it; false exactly when none does |
| `DocScan.Scanner.ReadArgs` | scripts/make_docfile.py:522-539 | the list read is the first one behind the documentation, past the parenthesis of the macro where that is still open |
| `DocScan.Scanner.WriteDoc` | scripts/make_docfile.py:513-518 | stream and record text grow by the same bytes |
| `DocScan.Scanner.FinishDoc` | scripts/make_docfile.py:520-553 | a usage line is added exactly for a `DEFUN` of fixed arity without a usage line of its own; the record is what the stream holds |
| `DocScan.Scanner.EmitDoc` | scripts/make_docfile.py:513-553 | one record with the documentation at the opening, or the file ended inside the parameter list, or reading raised, as the file says |
| `DocScan.Scanner.AfterName` | scripts/make_docfile.py:436-553 | a head is listed without documentation exactly when none opens behind its counted commas; how many are counted is fixed by `DocPrint.PrintThenScan` |
| `DocScan.Scanner.AfterHead` | scripts/make_docfile.py:425-553 | a head comes to exactly what the file says it comes to |
| `DocScan.Scanner.Pass` | scripts/make_docfile.py:351-553 | every iteration advances the cursor and the log of heads by what the file holds there |
| `DocScan.ScanCFile` | scripts/make_docfile.py:332-560 | terminates on every file; records, heads without documentation and DOC stream are those of the heads of the file, and it raises exactly when one of them does; for files written out, what they are is fixed by `DocPrint.PrintThenScan` |
| `DocDeclared.DeclarationFate` | scripts/make_docfile.py:350-553 | a declaration written out byte by byte is found on its line and comes to its record, or to its name without documentation, and scanning goes on behind it |
| `DocPrint.PrintThenScan` | scripts/make_docfile.py:332-560 | print, then scan: a file written as any list of declarations with quiet text between them gives exactly their records, with kind, name, documentation, usage line and offset, exactly the names of those without documentation, and their stream; `DEFUN`, indented `DEFVAR_`, `DEFVAR_PER_BUFFER` and other column-zero `DEF` macros, numerals, `MANY`, `UNEVALLED` or inherited arities, old-style specs, `doc:` markers, comments and strings, usage lines |
| `DocPrint.ExampleSource` | scripts/make_docfile.py:332-560 | one such declaration, letter by letter |
| `DocPrint.Example` | scripts/make_docfile.py:332-560 | and the one record that scanning it gives |
| `DocPrint.NamelessIsDropped` | scripts/make_docfile.py:430-433 | a macro whose first argument is not a string literal leaves no record, no name and nothing in the stream |
| `DocPrint.CutOffIsStreamed` | scripts/make_docfile.py:520-539 | a file that ends before the parameter list its last function needs has that function's documentation in the stream and not among the records |
| `FontIdentity.NewVariationSet` | crates/neomacs-display-protocol/src/font.rs:154-160 | the set is sorted by tag without duplicates and keeps each tag's last value |
| `FontIdentity.SortedUnique` | crates/neomacs-display-protocol/src/font.rs:142-160 | two sorted sets with the same values are equal |
| `FontIdentity.OrderInsensitive` | crates/neomacs-display-protocol/src/font.rs:142-160 | with distinct tags the order of the input does not matter |
| `FontIdentity.AppendVariationKey` | crates/neomacs-display-protocol/src/font.rs:400-414 | the loop appends one item per coordinate |
| `FontIdentity.KeyRoundTrip` | crates/neomacs-display-protocol/src/font.rs:264-265 | a reader working from the right recovers path, face and coordinates from any key, whatever characters path and tags hold |
| `FontIdentity.KeySpelled` | crates/neomacs-display-protocol/src/font.rs:400-414 | a key is the path, a hash and the face, then an at sign before the first coordinate and a comma before each other |
| `FontIdentity.ItemSpelled` | crates/neomacs-display-protocol/src/font.rs:409-412 | a coordinate is the four bytes of its tag, an equals sign and eight lower-case hexadecimal digits |
| `FontIdentity.FromFileWithVariations` | crates/neomacs-display-protocol/src/font.rs:255-275 | the key is that of the path, the collection face and the canonical coordinates |
| `FontIdentity.FromPlatformFileWithVariations` | crates/neomacs-display-protocol/src/font.rs:283-310 | the same for every backend |
| `FontIdentity.IdentityIsExact` | crates/neomacs-display-protocol/src/font.rs:386-390 | two file-backed identities of any backends are equal if and only if path, file face index and canonical variations are |
| `FontIdentity.SelectorsAgree` | crates/neomacs-display-protocol/src/font.rs:367-372 | for the same file and coordinates two Fontconfig selectors are equal if and only if they differ by a multiple of 65536, two of other backends if and only if they are the same |
| `Report.SelfTotalMaps` | crates/neomacs-diagnostics/src/report.rs:188-215 | the maps hold exactly the functions of the capture, with their self and total counts |
| `Report.SelfMapMeaning` | crates/neomacs-diagnostics/src/report.rs:71-73 | the self map is the sum of counts over stacks that end in the function |
| `Report.TotalMapMeaning` | crates/neomacs-diagnostics/src/report.rs:63-70 | the total map counts a stack once however often the function recurs in it |
| `Report.AddTotals` | crates/neomacs-diagnostics/src/report.rs:63-70 | the `seen` loop adds the count once per distinct frame |
| `Report.CpuReportFromFolded` | crates/neomacs-diagnostics/src/report.rs:38-116 | totals agree with `SelfTotalMaps`; the list is the truncated ranking of exactly the functions that appear |
| `Report.CpuRankingUnique` | crates/neomacs-diagnostics/src/report.rs:92-108 | there is one such ranking, so the list does not depend on hash-map order |
| `Report.EdgeMapMeaning` | crates/neomacs-diagnostics/src/report.rs:160-171 | the edge maps sum the count over adjacent frame pairs |
| `Report.CallersReportFromFolded` | crates/neomacs-diagnostics/src/report.rs:146-184 | callers and callees are the rankings of exactly the adjacent frames |
| `Report.DiffFromFolded` | crates/neomacs-diagnostics/src/report.rs:238-278 | the list is the truncated ranking of exactly the functions of either capture, with their self% change |
| `ReportLaws.SelfTotalGrand` | crates/neomacs-diagnostics/src/report.rs:60-73 | self <= total <= grand for every function |
| `ReportLaws.SelfSumsToGrand` | crates/neomacs-diagnostics/src/report.rs:60-73 | self samples over all functions sum to the grand total |
| `ReportLaws.CpuReportConserves` | crates/neomacs-diagnostics/src/report.rs:78-90 | the untruncated report's self samples sum to its total, and each row is bounded |
| `ReportLaws.TopIsHottest` | crates/neomacs-diagnostics/src/report.rs:92-108 | the first row has the most samples of the kind that is sorted by |
| `ReportLaws.RowMeaning` | crates/neomacs-diagnostics/src/report.rs:78-90 | a row gives its function's samples, and percentages that times all samples are a hundred times those |
| `ReportLaws.FlowConserved` | crates/neomacs-diagnostics/src/report.rs:160-171 | callee weights plus self samples equal the sum of count times occurrences |
| `ReportLaws.CallersReportConserves` | crates/neomacs-diagnostics/src/report.rs:146-184 | the same for the rows of the callers report |
| `ReportLaws.CallEdgeSymmetry` | crates/neomacs-diagnostics/src/report.rs:160-171 | `g` is a callee of `f` with weight `w` if and only if `f` is a caller of `g` with weight `w` |
| `ReportLaws.EdgeRankingUnique` | crates/neomacs-diagnostics/src/report.rs:280-290 | the edge list does not depend on hash-map order |
| `ReportLaws.HeaviestEdgeFirst` | crates/neomacs-diagnostics/src/report.rs:280-290 | callers and callees come heaviest first |
| `ReportLaws.PctSumsToWhole` | crates/neomacs-diagnostics/src/report.rs:118-124 | self percentages sum to 100, or to 0 without samples |
| `ReportLaws.DeltasSumToZero` | crates/neomacs-diagnostics/src/report.rs:250-262 | self% changes sum to zero if and only if both captures have samples or neither has |
| `ReportLaws.DiffRankingUnique` | crates/neomacs-diagnostics/src/report.rs:264-270 | the diff list does not depend on hash-map order |
| `ReportLaws.LargestChangeFirst` | crates/neomacs-diagnostics/src/report.rs:264-270 | the largest change comes first, in either direction |
| `ReportLaws.ChangeHasSign` | crates/neomacs-diagnostics/src/report.rs:250-262 | a function only the second capture has at a leaf has a positive change, one only the first has a negative one, and both are its share |
| `Ranking.RankingIsUnique` | crates/neomacs-diagnostics/src/report.rs:103-108 | a set of rows has one order under the comparator |
| `Ranking.Sort` | crates/neomacs-diagnostics/src/report.rs:92-108 | the result is ordered and a permutation |
| `Ranking.RankedDescends` | crates/neomacs-diagnostics/src/report.rs:103-107 | in a ranking the first keys descend, then the second, and names ascend byte by byte |
| `Ranking.LexMeaning` | crates/neomacs-diagnostics/src/report.rs:107 | names compare by the first byte in which they differ, and a beginning comes first |
| `Percentile.PercentileFromBuckets` | crates/neomacs-diagnostics/src/metrics.rs:79-103 | reports the first bucket whose running sum reaches the target, and 0 exactly when there are no samples or none reaches it |
| `Percentile.ScanReturnsExactlyUpToOne` | crates/neomacs-diagnostics/src/metrics.rs:84-103 | with samples the scan finds a bucket if and only if q <= 1, but for a count that saturates the cast |
| `Percentile.SelectsNearestRank` | crates/neomacs-diagnostics/src/metrics.rs:79-103 | for 0 < q <= 1 the selected bucket holds the sample of rank ceil(n q) in sorted order |
| `Percentile.NonPositiveQuantile` | crates/neomacs-diagnostics/src/metrics.rs:84-92 | q <= 0 selects the first bucket, empty or not |
| `Percentile.ReportedMonotone` | crates/neomacs-diagnostics/src/metrics.rs:86-101 | the reported value never falls as q grows, the unbounded bucket included |
| `Percentile.ReportedBrackets` | crates/neomacs-diagnostics/src/metrics.rs:86-101 | the reported value is the bound of the bucket of the nearest-rank sample, or for the unbounded bucket the last finite bound, which that sample exceeds |
| `Percentile.ReportedWithoutBound` | crates/neomacs-diagnostics/src/metrics.rs:89-98 | a bucket without a bound, or without a finite one below it, reports 0 |
| `Percentile.TotalIsCount` | crates/neomacs-diagnostics/src/metrics.rs:80 | the buckets of a histogram sum to the number of samples |
| `Capture.CpuProfiler.CpuStart` | crates/neovm-core/src/emacs_core/system/profiler/mod.rs:365-379 | starts exactly when nothing runs; the ownership mark is left alone |
| `Capture.CpuProfiler.CpuStop` | crates/neovm-core/src/emacs_core/system/profiler/mod.rs:392-402 | stops what runs; the ownership mark is left alone |
| `Capture.CpuProfiler.DiagnosticsStart` | crates/neovm-core/src/emacs_core/system/profiler/mod.rs:484-497 | starts exactly when nothing runs or what runs has the ownership mark; then the session is its own and marked, and otherwise nothing changes |
| `Capture.CpuProfiler.DiagnosticsStop` | crates/neovm-core/src/emacs_core/system/profiler/mod.rs:503-517 | ends whatever runs and drops the mark |
| `Capture.LockExclusive` | crates/neomacs-diagnostics/src/server.rs:196-245 | in every run, with any cancellations and timeouts, at most one request is inside the protocol, and it holds the lock |
| `Capture.InteractiveSessionsSurvive` | crates/neomacs-diagnostics/src/server.rs:196-245 | diagnostics never ends an interactive session, if awaited stops are left alone and the user stops only their own sessions |
| `Capture.CapturesAreIsolated` | crates/neomacs-diagnostics/src/server.rs:171-245 | if awaited starts and stops are left alone, whatever the user does: no start meets a leftover session, no session is both stopped and aborted, and a session without its lock holder has its abort next on the channel |
| `Capture.StartTakesOrLeaves` | crates/neovm-core/src/emacs_core/system/profiler/mod.rs:484-497 | in every reachable state, the start at the head of the channel is refused and changes nothing exactly when an unmarked session runs; otherwise the session afterwards is its own |
| `Capture.TerminatorEndsAll` | crates/neovm-core/src/emacs_core/system/profiler/mod.rs:503-517 | in every reachable state, after the stop or abort at the head of the channel nothing runs and nothing is marked |
| `Capture.RefusedExactlyWhenInteractive` | crates/neovm-core/src/emacs_core/system/profiler/mod.rs:476-491 | if awaited stops are left alone and the user stops only their own sessions, a start is refused exactly when an interactive session runs |
| `Capture.RefusedEndsNothing` | crates/neomacs-diagnostics/src/server.rs:217-231 | in every run, no session is ever stopped or aborted on behalf of a request whose start was refused |
| `Capture.StaleMarkHijacks` | crates/neovm-core/src/emacs_core/system/profiler/mod.rs:476-497 | a run where a start takes over an interactive session, because the mark of a session the user stopped was left standing |
| `Capture.OwnershipMarkGoesStale` | crates/neovm-core/src/emacs_core/system/profiler/mod.rs:392-402 | a run where the user stops a capture, starts a session of their own, and the capture's stop ends it |
| `Capture.LateAbortStopsUser` | crates/neomacs-diagnostics/src/server.rs:184-192 | a run where a stop times out and its abort later ends a user session |
| `Capture.CancelledStartLeavesSession` | crates/neomacs-diagnostics/src/server.rs:217-231 | a run where a request dropped while starting leaves a session that the next start meets |
| `Capture.CancelledStopAborts` | crates/neomacs-diagnostics/src/server.rs:237-243 | a run where a request dropped while stopping has its session both stopped and aborted |
| `NativeCapture.OneProfiler` | crates/neomacs-diagnostics/src/server.rs:321-346 | at most one profiler is installed in every reachable state, whatever futures are dropped and tasks panic |
| `NativeCapture.LockAroundAwaitRaces` | crates/neomacs-diagnostics/src/server.rs:330-336 | the rejected design, a lock around the await, lets two in |
| `EffectValueLaws.StoreKeepsShape` | crates/neomacs-display-protocol/src/effect_command.rs:294-351 | an accepted value has the shape of the value it replaces: kind, list length, colour components, duration |
| `EffectValueLaws.ColorLength` | crates/neomacs-display-protocol/src/effect_command.rs:505-530 | a parsed colour has exactly the requested number of components |
| `EffectValueLaws.ReadBack` | crates/neomacs-display-protocol/src/effect_command.rs:532-588 | for values without colours, read-back is the identity if and only if the stored value obeys the rules of its own name |
| `EffectValueLaws.DurationReadBack` | crates/neomacs-display-protocol/src/effect_command.rs:334-347 | a duration survives if and only if its nanoseconds are below one second |
| `EffectValueLaws.DurationIsNearest` | crates/neomacs-display-protocol/src/effect_command.rs:334-340 | for every non-negative number of seconds the stored duration is the nearest number of nanoseconds, carry included, if and only if that fits |
| `EffectValueLaws.NumberReadBack` | crates/neomacs-display-protocol/src/effect_command.rs:353-402 | a number survives if and only if it is in range and its name allows it |
| `EffectValueLaws.Undo` | crates/neomacs-display-protocol/src/effect_command.rs:294-402 | storing the value read over any value of the same shape restores it if and only if no negative integer became non-negative on the way |
| `EffectValueLaws.StoreTwice` | crates/neomacs-display-protocol/src/effect_command.rs:294-402 | storing a value twice is storing it once, but for 2^63 over a negative integer |
| `EffectRules.NumberAccepted` | crates/neomacs-display-protocol/src/effect_command.rs:353-417 | a value is accepted over a number if and only if it is a finite number in the range of the kind stored, whole for integers, and its property's name allows it: at most 1 for proportions, positive and whole for `fps`, at most 100 for `_pct`, negative for seven names only; that number is stored, but for the powers of two just above the integer ranges |
| `EffectRules.DurationAccepted` | crates/neomacs-display-protocol/src/effect_command.rs:334-347 | a duration takes every number of seconds that is not negative, and an integer is stored as that many seconds |
| `EffectRules.ColorMeaning` | crates/neomacs-display-protocol/src/effect_command.rs:505-530 | a text is accepted as a colour if and only if it is a hash and the hexadecimal digits of three bytes, or of four where four components are asked for, and gives that colour, opaque without a fourth byte; a plus sign may stand for the first digit of a byte |
| `EffectRules.ColorListMeaning` | crates/neomacs-display-protocol/src/effect_command.rs:316-328 | a list of colours is converted element by element |
| `Effects.NameRoundTrip` | crates/neomacs-display-protocol/src/effect_command.rs:286-292 | a Lisp name leads back to its storage name if and only if that has no hyphen |
| `Effects.KeyMeaning` | crates/neomacs-display-protocol/src/effect_command.rs:286-288 | a storage name has underscores for hyphens and is otherwise the name |
| `Effects.SetInPlace` | crates/neomacs-display-protocol/src/effect_command.rs:197-210 | the property loop, first failure first |
| `Effects.ApplyEffects` | crates/neomacs-display-protocol/src/effect_command.rs:185-223 | the operation loop is a fold that stops at the first failure, and its result is what deserialization accepts of it; single operations mean what `Effects.SetMeaning`, `Effects.ResetMeaning` and `EffectRules.NumberAccepted` say |
| `Effects.SetMeaning` | crates/neomacs-display-protocol/src/effect_command.rs:193-210 | a Set of one property stores the converted value there and changes nothing else; its failures name the effect, the property or what is expected |
| `Effects.ResetMeaning` | crates/neomacs-display-protocol/src/effect_command.rs:212-217 | a Reset puts the default object in place and changes nothing else |
| `Effects.SetInOrder` | crates/neomacs-display-protocol/src/effect_command.rs:197-210 | setting properties together is setting them one after the other |
| `Effects.ApplyAppend` | crates/neomacs-display-protocol/src/effect_command.rs:192-219 | applying `a ++ b` is applying `a`, then `b`; a failure of `a` is the failure of both |
| `Effects.UnnamedUnchanged` | crates/neomacs-display-protocol/src/effect_command.rs:192-219 | an effect no operation names keeps its configuration |
| `Effects.TrailingReset` | crates/neomacs-display-protocol/src/effect_command.rs:212-217 | a trailing Reset makes the batch equal to one without the earlier operations on that effect |
| `Effects.ApplyKeepsShape` | crates/neomacs-display-protocol/src/effect_command.rs:185-223 | a successful batch keeps effect names, property names and value shapes |
| `Effects.ListedNamesAccepted` | crates/neomacs-display-protocol/src/effect_command.rs:225-231 | a listed name is accepted and leads back to its effect if and only if that is an object under a name without hyphen |
| `Effects.EffectReadBack` | crates/neomacs-display-protocol/src/effect_command.rs:233-254 | feeding `effect_values` into a Set is the identity on the configuration if and only if all stored values obey their names, for every map order |
| `Effects.EffectUndo` | crates/neomacs-display-protocol/src/effect_command.rs:185-254 | after any successful batch, setting the values read before brings the effect back if and only if no negative integer became non-negative |
| `IfZero.ZeroOpens` | scripts/extract_gnu_defvar_object_names.py:67-70 | every `#if 0` line is an opening line |
| `IfZero.DirectiveMeaning` | scripts/extract_gnu_defvar_object_names.py:67-70 | a line is an opening, `#if 0`, closing or dividing one if and only if it is written so: white space, a hash, white space, one of `if`, `ifdef`, `ifndef`, `endif`, `else`, `elif`, and a word boundary |
| `IfZero.MarkFollowsStack` | scripts/extract_gnu_defvar_object_names.py:101-111 | depth and mark move as the height and the outermost dead frame of a stack of conditionals, unbalanced `#endif` included |
| `IfZero.StripIfZero` | scripts/extract_gnu_defvar_object_names.py:73-113 | the line loop computes the stack semantics |
| `IfZero.DeadExactlyInside` | scripts/extract_gnu_defvar_object_names.py:98-112 | a line is dead if and only if it lies in the first group of some `#if 0`, by nesting level alone |
| `IfZero.StrippedLine` | scripts/extract_gnu_defvar_object_names.py:98-112 | exactly those lines are blanked, all others kept |
| `IfZero.StripKeepsOffsets` | scripts/extract_gnu_defvar_object_names.py:88-89 | same length, newlines in place, every other character kept or blanked |
| `IfZero.NoZeroSurvives` | scripts/extract_gnu_defvar_object_names.py:73-113 | no line of the result is an `#if 0` head |
| `IfZero.StripIdempotent` | scripts/extract_gnu_defvar_object_names.py:73-113 | stripping twice is stripping once |
| `Reach.ReverseEdges` | tools/gc-audit/reach.py:91-94 | exactly the edges of the call graph turned around |
| `Reach.Grow` | tools/gc-audit/reach.py:96-102 | terminates on every graph with a closed set inside every closed set around the start |
| `Reach.PresentSeeds` | tools/gc-audit/reach.py:95 | the membership test is: defined, or called by something |
| `Reach.LeastClosed` | tools/gc-audit/reach.py:95-102 | every set closed under callers that holds the present seeds holds all names that reach one |
| `Reach.Reachable` | tools/gc-audit/reach.py:88-102 | the result is exactly the names with a call path to a present seed |
| `Reach.SafepointNames` | tools/gc-audit/reach.py:34-40 | the same for the script's seeds |
| `Literal.ChainIsEscape` | scripts/extract_gnu_defun_docs.py:78-83 | the four replaces are one map over the characters |
| `Literal.LiteralForm` | scripts/extract_gnu_defun_docs.py:69-84 | only one-hash raw literals and escaped literals are ever printed, and when each is |
| `Literal.FindRawString` | scripts/convert-melpa-case-constructors.py:32-48 | finds a raw literal up to its first closing delimiter if and only if one starts here |
| `Literal.ParseStringLiteral` | scripts/convert-melpa-case-constructors.py:51-65 | returns the literal that starts here, None if and only if there is none |
| `Literal.LiteralUnique` | scripts/convert-melpa-case-constructors.py:32-65 | at most one literal starts at a place |
| `Literal.PrintedIsLiteral` | scripts/extract_gnu_defun_docs.py:69-84 | between any prefix and any following text, a printed literal is a literal of exactly its length |
| `Literal.PrintedDenotes` | scripts/extract_gnu_defun_docs.py:69-84 | un-escaping a printed literal gives the string |
| `Literal.PrintThenParse` | scripts/convert-melpa-case-constructors.py:51-65 | lexing a printed literal consumes exactly the literal, and it denotes the string |

## Left out

- HTTP routing, SSE, JSON rendering, capture storage, flame graphs and the native sampling library: plumbing around what is modelled.
- Capture.InteractiveSessionsSurvive: assumes that awaited stops are neither dropped nor timed out and that the user stops only their own sessions; the runs named above show that each assumption is needed.
- Capture.CapturesAreIsolated: assumes that awaited starts and stops are neither dropped nor timed out; a run shows what happens without each.
- Capture: the profiler log, the sampling timer and a failing blocking task are not modelled; a start that answers with an error leaves no session.
- Wire.ProtoBuf.FieldVarint: values and lengths are unbounded naturals; that ids, indices and lengths fit u64 is assumed.
- Report.CpuReportFromFolded: sums are unbounded integers; u64 overflow is assumed not to happen.
- FoldedText.LineMeaning: text is taken as the UTF-8 bytes of a valid string.
- FoldedText.WriteFolded: sampling, merging of equal stacks and sorting of the lines are not modelled, only the written text.
- DocScan.ScanCFile: bytes only; line numbers, UTF-8 replacement decoding and directory walking are not modelled.
- DocPrint.PrintThenScan: the type words of parameters hold no parentheses or commas, and every declaration is followed by whole lines; `DocLog.LogInOrder`, `DocLog.LogComplete` and `DocLog.MatchingIsBalanced` cover all other files.
- FontIdentity.IdentityIsExact: covers file-backed identities; native and in-memory identities take their key from the caller.
- EffectValueLaws.ReadBack: excludes colours, whose conversion through the sRGB curve is lossy; the curve is a parameter.
- Effects.ApplyEffects: what deserialization accepts is a parameter; the laws about batches are about the JSON before it. Floating-point rounding is not modelled, and colour text is taken as ASCII.
- Effects.ApplyKeepsShape: requires that the default configuration has the shape of the current one, as two values of one type have.
- Percentile.SelectsNearestRank: quantiles are exact reals.
- IfZero.StripIfZero: which characters above ASCII are letters or digits is a parameter.
- Reach.Reachable: the call graph is given; scanning Rust sources for it is not modelled.
- Literal.PrintedDenotes: denotation covers the escapes the printer writes; Rust's own ban on a bare carriage return is not modelled.
- The other extraction, parity and refactoring scripts and all rendering, layout and evaluator code: regular-expression heuristics or easy members.
