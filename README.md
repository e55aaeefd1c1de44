# jsonpp, modelled in Dafny

jsonpp is a JSON pretty-printer. It reads standard input or each named file
in turn. In line mode (the default) every line is one JSON document. In single
mode (`-s`) the whole source, with its line feeds deleted, is one document.
Each document goes to `encoding/json.Indent`. The indented text goes to
standard output. A refused document is reported with its line number and,
for a syntax error, a context snippet of at most 30 bytes. The process exit
status is 0, 1 (a document was refused, or the last file could not be opened)
or 2 (a read failed).

The model has five modules:

- `Streams` (streams.dfy): bytes, the line feed and carriage return, and `Source`. A `Source` is the bytes a stream delivers, then a clean end of stream or a read error.
- `Report` (report.dfy): the indenter as a function value `JsonIndent`, `indentAndPrint`, the context window and `bytes.TrimRight` of `malformedJSON`, and the diagnostics. Everything a run writes is a `Log` value: stdout bytes, stderr diagnostics, and the documents handed to the indenter with their line numbers.
- `LineMode` (line_mode.dfy): `bufio.Reader.ReadBytes('\n')`, the cut of a stream into lines, and `processMultipleFile` as a loop proved against a specification function.
- `SingleMode` (single_mode.dfy): `bytes.Split`/`bytes.Join`, the line-feed strip, and `processSingularFile`.
- `Jsonpp` (jsonpp.dfy): the indent default, the choice of mode, and `main`'s loop over the file arguments, as a method proved against a fold.

The indenter is not modelled. It is a parameter of every operation, and one
assumption is made about it (`OffsetsInRange`): a syntax error's offset is never
past the end of the document. Without that, the slice at jsonpp.go:141 would
panic.

Where the code and the specification disagree, this model follows the code.
At jsonpp.go:54 each processed file overwrites the exit status. So an open
failure followed by a cleanly processed file exits 0 (`OpenFailureForgotten`),
although the specification says the status stays at least 1. Also, `...` is
appended whenever `begin + 30 <= len(js)`, including when the window ends
exactly at the end of the document. `ErrorContextShape` states this as written.

## Model

| member | source | states |
|---|---|---|
| Report.ContextWindow | jsonpp.go:129-140 | the window lies inside the document, holds the error offset, is at most 30 bytes wide, starts 15 bytes before the offset exactly when the offset is past 15 (at 0 otherwise), and is cut short only at the end of the document |
| Report.TrimRight | jsonpp.go:141 | the result is a prefix of the input that does not end in `\r` or `\n`, and every byte removed is `\r` or `\n` |
| Report.ErrorContextShape | jsonpp.go:126-142 | the snippet is the literal bytes at the start of the window with only trailing line breaks removed; `...` before it exactly when the window does not start at byte 0; `...` after it exactly when the window is a full 30 bytes, and without it the window reaches the end of the document |
| Report.MalformedJson | jsonpp.go:120-146 | a syntax error is reported with its line, its offset and the context line; any other error with the line only |
| Report.IndentAndPrint | jsonpp.go:109-118 | the document is handed to the indenter once with its line number; status 0 exactly when the indenter succeeds, and then its text is written and nothing is reported; otherwise status 1, nothing on stdout, one diagnostic |
| Report.IndentAndPrintReports | jsonpp.go:111-113 | the one diagnostic of a refused document is the `malformedJSON` report for that document and line |
| LineMode.LineEnd | jsonpp.go:71 | the first line of a stream ends right after its first line feed, or at the end of the stream when there is none |
| LineMode.ReadBytes | jsonpp.go:71-79 | a read returns a prefix of the unread bytes with no line feed before its last byte; it ends at the delimiter exactly when it ends in a line feed; otherwise it returns all the rest and fails exactly when the source is broken |
| LineMode.Numbered | jsonpp.go:69-87 | the k-th unit (from 0) gets line number `line + k` |
| LineMode.FirstFailure | jsonpp.go:81-84 | every unit before the returned index is accepted by the indenter, and the unit at it (if any) is refused |
| LineMode.LinesConcat | jsonpp.go:70-92 | the units of a clean stream, concatenated in order, give back the stream exactly |
| LineMode.LinesShape | jsonpp.go:71-79 | every unit is non-empty with a line feed at most at its end, and every unit but the last ends in a line feed |
| LineMode.LinesOfConcat | jsonpp.go:71-79 | conversely, any such sequence of lines is exactly the cut of its concatenation: the cut is unique |
| LineMode.DeliveredUnits | jsonpp.go:71-79 | a clean stream delivers all its lines; a broken one delivers exactly the bytes up to its last line feed, as lines each ending in a line feed |
| LineMode.DeliveredCons | jsonpp.go:71-89 | a line completed by a line feed is delivered first, followed by the units of the rest of the stream |
| LineMode.DeliveredLast | jsonpp.go:71-90 | a stream with no line feed is one unit, delivered only when no read error follows it |
| LineMode.DroppedTail | jsonpp.go:72-74 | when the read fails, the bytes after the last line feed are dropped and contain no line feed |
| LineMode.RunUnitsOutcome | jsonpp.go:81-87 | the indenter sees the units in order, numbered up by one from the start line, up to and including the first refused one and none after; status 1 if one is refused, else 0 |
| LineMode.RunUnitsWrites | jsonpp.go:81-87 | stdout holds the indented texts of the units before the first refused one, in order; stderr holds that unit's report with its line number, or nothing |
| LineMode.LineModeOutcome | jsonpp.go:65-95 | status 1 if a delivered line is refused, else 2 if the read failed, else 0; line numbers start at 1; no line after the first refused one is formatted |
| LineMode.EmptyInput | jsonpp.go:70-94 | a clean empty stream formats nothing, writes nothing and gives status 0 |
| LineMode.ReadingIsLineMode | jsonpp.go:70-94 | reading one line at a time (a read error gives 2, a clean empty end gives 0, otherwise format the line and stop on failure or at end of stream) gives exactly the status and output of formatting the delivered lines |
| LineMode.ProcessMultipleFile | jsonpp.go:65-95 | the read-format loop's status and output are exactly those of the line-mode specification `LineModeResult` |
| SingleMode.Without | jsonpp.go:103 | deleting a byte leaves none of it in the result |
| SingleMode.WithoutKeeps | jsonpp.go:103 | deleting a byte keeps every other byte with its multiplicity |
| SingleMode.SplitPieces | jsonpp.go:103 | `bytes.Split` gives one more piece than there are separators, and no piece contains the separator |
| SingleMode.SplitJoin | jsonpp.go:103 | joining the pieces with the separator gives the input back |
| SingleMode.SplitJoinEmpty | jsonpp.go:103 | joining the pieces with nothing between them deletes every separator and keeps the other bytes in order |
| SingleMode.StripNewlines | jsonpp.go:103 | the single-mode document is the input with every line feed deleted, and it contains no line feed |
| SingleMode.ProcessSingularFile | jsonpp.go:97-107 | a failed read gives status 2 with nothing formatted; otherwise the stripped input is formatted once as line 1, with status 0 exactly when the indenter accepts it, else 1 |
| Jsonpp.IndentSetting | jsonpp.go:33-36 | the indent is never empty: two spaces when the environment value is empty, the value verbatim otherwise |
| Jsonpp.ProcessFile | jsonpp.go:38-41 | `-s` selects single mode, otherwise line mode |
| Jsonpp.ProcessStatus | jsonpp.go:65-107 | a source's status is 0, 1 or 2, and 2 exactly when its read failed after every delivered document was accepted |
| Jsonpp.FirstFailingFile | jsonpp.go:54-57 | every argument before the returned index failed to open or was processed with status 0, and the one at it (if any) opened and failed |
| Jsonpp.RunFilesStops | jsonpp.go:54-57 | the first opened file that fails decides the exit status, and the arguments after it play no part in the run |
| Jsonpp.RunFilesNoFailure | jsonpp.go:45-58 | when no opened file fails, each result overwrote the one before: the exit status is 1 exactly when the last argument could not be opened |
| Jsonpp.ExitStatusRange | jsonpp.go:43-62 | the exit status is 0, 1 or 2 |
| Jsonpp.OpenFailureForgotten | jsonpp.go:47-56 | an unopenable file followed by a cleanly processed one is reported and exits 0 |
| Jsonpp.Run | jsonpp.go:43-62 | the loop over the arguments (standard input when there are none) gives exactly the status and output of the fold `Jsonpp` |

## Left out

- `encoding/json.Indent` (jsonpp.go:110) is a library call. It is a parameter here, so its indentation and validation rules, and the value round-trip and idempotence they give, are not modelled.
- Flag parsing, `-help` and the usage text (jsonpp.go:22-31) are command-line plumbing. The run takes the `-s` flag, the `JSONPP_INDENT` value and the file arguments as parameters.
- Real I/O is not modelled. An opened source is its delivered bytes plus a read-error flag. A file that cannot be opened is `Unopenable`. The bytes read before a read error are dropped, as the code drops them.
- The message text of each diagnostic (`fmt.Fprintf`, the error's own message) is not modelled. Only its kind, line number, offset and context are.
- `os.Stdout.Sync()` and the relative order of stdout and stderr writes are not modelled. The log keeps each stream in order on its own.
- `defer file.Close()` has no observable effect on the status or output, so it is not modelled.
- The 1 MiB buffer preallocation and `buf.Reset()` (jsonpp.go:67-68, 86) are not modelled. They only ensure the buffer is empty before each document.
- Line numbers are unbounded. The `int64` line counter cannot overflow in practice.
