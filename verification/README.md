# godump, modelled in Dafny

godump pretty-prints arbitrary Go values for debugging. This project models
its core:

- the recursive renderer `printValue` and its helpers;
- the hex dump of byte slices;
- the escaping of control characters;
- `writeDump`;
- the functional options and `NewDumper`;
- the call-site lookup behind the dump header;
- the two plain colorizers;
- `parseHTTPDump` from the HTTP debug transport.

It then proves properties of this model.

Go's `reflect.Value` becomes a closed datatype, `Values.Value`. It has one
constructor per kind that printValue distinguishes. Pointer targets live in a
`Heap` keyed by address, so pointer graphs may be cyclic.

Two reflect flags depend on the path by which a value was reached. `Views.View`
carries them: addressability, and the read-only flag with its two flavours,
sticky and embedded. Each way of reaching a value sets these flags as reflect
does:

- pointer `Elem` keeps the read-only flag as it is;
- interface `Elem`, `Index`, `MapIndex` and `MapKeys` make any read-only flag sticky;
- `Field` keeps only the sticky part, and adds its own flag for an unexported field.

`Printer.Render` is printValue as a pure function. It returns one of three
outcomes:

- the text written, before tabwriter alignment and without colour codes;
- the panic the Go code would raise;
- `Overflow`, when the nesting of printValue calls exceeds a `fuel` bound. This
  models Go's stack running out.

The package-level `referenceMap` and `nextRefID` are threaded through as
`Refs`. A `Build` parameter selects one of two versions:

- **AsWritten** is the code as it stands.
- **Corrected** differs only in the three defects listed under Findings: it registers every pointer it follows, it prints a read-only byte slice without panicking, and it prints the keys of a read-only map without panicking.

Every operation has a reference definition or a partner property proved
against it:

- `writeDump` has `Dump.DumpAll`.
- `findFirstNonInternalFrame` has `Frames.Located`.
- `NewDumper` has `Options.Chosen`.
- parseHTTPDump's loop has `HttpDump.Payload`, read directly off the lines.
- The hex dump is decoded back to its bytes.
- Escaping is inverted.
- The dump header is parsed back.
- ANSI colouring is stripped back to the unstyled text.
- isNil is tied to the list of nil-able kinds (`Views.NilOnlyNilable`), and what a nil value prints is `RenderProps.NilValue`.

## Model

| member | source | states |
|---|---|---|
| Colors.ColorizeUnstyled | godump.go:53-58 | the text comes back unchanged, whatever the colour code |
| Colors.ColorizeANSI | godump.go:63-65 | the result is the colour code, then the text, then the reset sequence, and nothing else |
| Colors.StripANSI | godump.go:56-65 | stripping the code and the reset from colorizeANSI's output gives exactly colorizeUnstyled's output, so ANSI colouring loses no text |
| Options.Apply | godump.go:107-157 | a numeric option changes exactly its own setting, and only when its argument is not negative; WithWriter changes only the writer; every other field is unchanged |
| Options.NegativeIgnored | godump.go:107-157 | a numeric option with a negative argument leaves the dumper exactly as it was |
| Options.ChosenNonNegative | godump.go:161-174 | whatever the options, no setting they choose is negative |
| Options.NewDumper | godump.go:161-174 | each numeric setting is the argument of the last non-negative option for it, or its default; the writer is the last WithWriter, or stdout; no numeric setting is negative |
| Options.NoOptionDefaults | godump.go:161-169 | with no options the settings are the documented defaults 15, 100, 100000 and 0, and the writer is stdout |
| Options.NegativeDepthKeepsDefault | godump.go:105-114 | appending WithMaxDepth(n) with n < 0 does not change the chosen depth, so a negative depth never means "unbounded" |
| Dump.ChosenPolicy | godump.go:161-174 | the three limits that printValue reads from a dumper built by NewDumper are all non-negative |
| Frames.ExternalFrom | godump.go:310-324 | every frame the walk can report exists and lies outside the package: unknown function, function without "godump", or a _test.go file |
| Frames.FindFirstNonInternalFrame | godump.go:309-326 | the loop returns the file and line of the (skip+1)-th external frame among frames 2 to 9 before the first missing one, and ("", 0) when there is none |
| Frames.ReportedIsExternal | godump.go:316-322 | a reported frame exists and is external |
| Frames.InternalFramesPassedOver | godump.go:315-324 | a frame inside the package changes nothing about which frame is found |
| Frames.SkipMovesOn | godump.go:317-320 | skipping one more frame reports the next external frame |
| Frames.Header | godump.go:291-305 | the header is empty exactly when the frame's file is empty, which includes the case where no frame was found |
| Frames.HeaderRoundTrip | godump.go:297-305 | reading the header line back gives the path (the relative one when available, else the file) and the line number |
| HexDump.Hex2 | godump.go:358 | `%02x` of a byte is exactly two hex digits |
| HexDump.Hex2RoundTrip | godump.go:358 | the two digits read back in base 16 give the byte |
| HexDump.Hex2IsPadded | godump.go:358 | the two-digit cell agrees with the general zero-padded hex formatting of width 2 |
| HexDump.Slots | godump.go:355-361 | a line has 16 slots: the line's bytes in order, then empty slots |
| HexDump.Cell | godump.go:355-366 | each hex cell is 3 columns wide, and the 8th is 4 |
| HexDump.AsciiChars | godump.go:376-383 | the ASCII column has one character per byte, the byte's own character when printable and '.' otherwise |
| HexDump.AsciiPadded | godump.go:376-386 | the ASCII column is padded with spaces to exactly 16 characters |
| HexDump.RowCount | godump.go:342-344 | the dump has ceil(len/16) lines |
| HexDump.RowAt | godump.go:342-344 | line k starts at offset 16k, within the data, and shows bytes 16k up to min(16k+16, len) |
| HexDump.RowsCover | godump.go:342-344 | the lines' bytes, concatenated in order, are exactly the data |
| HexDump.RowOffsets | godump.go:342-349 | every line's offset is inside the data |
| HexDump.FormatByteSliceAsHexDump | godump.go:329-394 | the dump starts with the `([]uint8) (len=n cap=c) {` line and ends with a brace indented one level less than the body |
| HexDump.DumpLines | godump.go:329-394 | split at its line breaks, the returned text is the header line, then ceil(len/16) row lines, each the body indentation followed by that row's line text, then the closing brace one level less indented |
| HexDump.DumpTextDecodes | godump.go:329-394 | the row lines of the returned text, with the body indentation removed, decode back to exactly the input bytes, so the dump loses nothing |
| HexDump.OffsetWidth | godump.go:349 | for offsets below 2^32 the offset field is 10 columns wide, and its 8 digits read back as the offset |
| HexDump.LineParts | godump.go:346-387 | a line is the offset field, the 16 hex cells, then the ASCII column after one space of padding |
| HexDump.LineLength | godump.go:346-387 | every line, full or short, is 80 columns wide, and it begins with its offset |
| HexDump.LineCell | godump.go:355-367 | column 10 + 3j (plus 1 from j = 8) of a line holds the j-th byte in hex, or blanks past the end of a short line |
| HexDump.LineAscii | godump.go:370-386 | column 62 + j holds the j-th byte's ASCII character, or a space past the end of a short line |
| HexDump.DecodeShown | godump.go:355-367 | reading the hex cells of any text laid out like a line, from cell j on, gives the line's bytes from j on |
| HexDump.DecodeLine | godump.go:342-388 | the hex cells of one line decode back to exactly its bytes |
| HexDump.DecodeRows | godump.go:342-388 | the hex cells of a sequence of lines decode back to the concatenation of their bytes |
| HexDump.DecodeDump | godump.go:342-388 | the hex cells of the rows' line texts, read in order, decode back to exactly the input bytes |
| Escape.EscapeChar | godump.go:610-617 | one of the six control characters becomes a backslash escape; any other character stays itself; the result contains no control character |
| Escape.EscapeControl | godump.go:609-622 | no replaced control character is left; text without one is unchanged; escaping never shortens the text |
| Escape.EscapeConcat | godump.go:610-622 | escaping the concatenation of two texts is escaping each and concatenating |
| Escape.UnescapeRoundTrip | godump.go:610-622 | for text without a backslash, undoing the escapes gives back the original text, so escaping is injective there |
| Escape.Clip | godump.go:523-526 | text within the limit is kept; longer text is cut to its first maxStringLen characters plus an ellipsis |
| Escape.QuotedString | godump.go:521-527 | the string value is quoted; between the quotes is the escaped text, or its first maxStringLen characters followed by an ellipsis |
| Text.Indent | godump.go:566-568 | the indentation of a level is 2 spaces per level and nothing else |
| Text.DecimalRoundTrip | godump.go:534-537 | the decimal text of an integer reads back as that integer |
| Text.HexPaddedRoundTrip | godump.go:349 | zero-padded hex text reads back as the number |
| Text.SplitPieces | http_dumper.go:87 | no piece of a split on '\n' contains '\n' |
| Text.SplitJoin | http_dumper.go:87 | joining the pieces of a split with the separator gives back the input |
| Text.Find | http_dumper.go:115-116 | the position found is the first occurrence of the separator, or -1 when there is none |
| Text.TrimRightCutset | http_dumper.go:94 | the result is a prefix of the line that does not end in a cut character, and everything removed is a cut character |
| Text.TrimSpace | http_dumper.go:117-118 | the result neither starts nor ends with white space, and it is empty exactly when the input is all white space |
| Text.TrimSpaceIsSlice | http_dumper.go:117-118 | the result is the input with a leading and a trailing run of white space cut off |
| Views.Derived | godump.go:483-491 | interface Elem, Index, MapIndex and MapKeys turn a read-only flag of either kind into the sticky one |
| Views.ForceExported | godump.go:571-580 | the value is unchanged; the result can be interfaced exactly when the input could be or was addressable; otherwise the input comes back as it was |
| Views.NilOnlyNilable | godump.go:600-607 | only values of the six nil-able kinds (pointer, slice including []byte, map, interface, func, channel) are nil; a pointer, interface or channel is nil exactly when it has no target, dynamic value or channel |
| Views.MakeAddressable | godump.go:583-597 | the value is unchanged; it is addressable afterwards exactly when it was before or is a struct; a copied struct can be interfaced |
| Views.EmbeddedFlagNotInherited | godump.go:457-465 | an exported field below an unexported embedded field can be interfaced, and one below an unexported non-embedded field cannot |
| Views.EmbeddedPointerField | godump.go:450-465 | the same holds when the unexported field is a pointer that is followed first, because pointer Elem keeps the embedded flag |
| Views.ReadOnlyIsSticky | godump.go:449-516 | everything reached from a read-only value, through pointer, slice, array, map or interface, is read-only too |
| Printer.Register | godump.go:443-446 | a newly seen pointer target gets the current id, the counter moves on, and ids stay distinct |
| Printer.AsStringer | godump.go:548-563 | the text is non-empty exactly when the value is a Stringer that can be interfaced after forceExported; it is then `type(nil)` for a nil pointer, and otherwise the String text followed by ` #type` |
| Printer.Render | godump.go:407-447 | the reference map only grows, and ids registered during the call come from the counter range it used |
| Printer.RenderKind | godump.go:449-545 | the same for the kind switch |
| Printer.FieldOf | godump.go:458-465 | an exported field inherits addressability and can be interfaced unless its parent is sticky read-only; an unexported field can be interfaced exactly when its parent is addressable |
| Printer.RenderFields | godump.go:457-474 | the reference map only grows over the fields |
| Printer.RenderEntries | godump.go:481-495 | the reference map only grows over the entries |
| Printer.RenderItems | godump.go:508-520 | the reference map only grows over the elements |
| RenderProps.DepthMarker | godump.go:408-411 | past the depth limit the output is the max-depth marker, and nothing is registered |
| RenderProps.StringerFirst | godump.go:417-420 | a readable Stringer prints its String text and type, or `type(nil)`, before any kind is looked at |
| RenderProps.UnreadableStringerSkipped | godump.go:548-562 | a read-only value that is not addressable is never asked for its String text |
| RenderProps.NilValue | godump.go:432-436 | a nil pointer, slice, map, interface or func prints `type(nil)` |
| RenderProps.ChannelValue | godump.go:422-430 | a non-nil channel prints its type and address |
| RenderProps.ReachesKind | godump.go:438-449 | a value that passes the early checks and is not tracked goes straight to the kind switch |
| RenderProps.PointerSameDepth | godump.go:438-451 | following a pointer does not increase the depth, and it registers the target only when it is tracked |
| RenderProps.InterfaceSameDepth | godump.go:449-451 | unwrapping an interface does not increase the depth |
| RenderProps.InterfaceAtLimit | godump.go:449-451 | an interface holding an int at exactly the depth limit still prints the int |
| RenderProps.StringerFieldPastLimit | godump.go:466-473 | at the depth limit, a field line shows the field's Stringer text when it has one, and the max-depth marker otherwise |
| RenderProps.FieldsAtLimitLines | godump.go:457-474 | at the depth limit, every field's line is fixed by the field alone: its Stringer text or the marker |
| RenderProps.StructFrame | godump.go:452-476 | a struct prints `#type {`, its field lines, then the closing brace at its own indentation |
| RenderProps.StructAtLimit | godump.go:452-476 | a struct at the depth limit prints every field's name with its Stringer text or the max-depth marker, and registers nothing |
| RenderProps.ItemsTruncation | godump.go:508-520 | a slice or array shows its first maxItems elements, then a truncation line when there are more |
| RenderProps.EntriesTruncation | godump.go:482-495 | a map shows its first maxItems entries, then a truncation marker without a newline when there are more |
| RenderProps.EntriesHead | godump.go:484-493 | a map entry line is the key text, ` => `, then the value one level deeper |
| RenderProps.ItemsBeyondLimitUnseen | godump.go:510-514 | elements past maxItems do not influence the output |
| RenderProps.BackReference | godump.go:438-442 | a tracked pointer whose target is already registered prints `↩︎ &id` with that target's id |
| RenderProps.FirstVisitRegisters | godump.go:443-446 | the first visit to a tracked pointer registers its target under the current counter |
| RenderProps.SecondPointerIsBackReference | godump.go:438-446 | a second tracked pointer to the same target prints a back-reference to the id the first one registered |
| RenderProps.StringValue | godump.go:521-527 | a string prints quoted, escaped and clipped to maxStringLen; a negative limit panics with slice bounds out of range |
| RenderProps.BytesValue | godump.go:497-506 | a byte slice prints its hex dump at the next indentation; as written, a read-only one panics instead |
| RenderProps.BytesIgnoreItemLimit | godump.go:497-506 | the hex dump of a byte slice does not depend on maxItems |
| RenderProps.ScalarValues | godump.go:528-537 | ints and uints print as decimal text that reads back as the number; bools print `true` or `false` |
| Termination.RenderFinishes | godump.go:407-546 | in the corrected build, over a closed heap, printValue needs at most (cells × (cell size + 1)) + size nested calls, whatever the cycles and limits |
| Termination.KindFinishes | godump.go:449-545 | the same bound for the kind switch |
| Termination.PointerFinishes | godump.go:438-451 | the same bound for a pointer seen for the first time |
| Termination.FieldsFinish | godump.go:457-474 | the same bound for a struct's fields |
| Termination.EntriesFinish | godump.go:481-495 | the same bound for a map's entries |
| Termination.ItemsFinish | godump.go:508-520 | the same bound for a slice's or array's elements |
| Termination.DumpFinishes | godump.go:396-405 | every top-level value of a dump finishes within that bound |
| Dump.DumpAll | godump.go:396-405 | the reference map starts empty, and every id handed out is at least the counter left by the previous dump |
| Dump.WriteDump | godump.go:396-405 | the loop computes the reference dump; the ids stay distinct and the counter never goes back |
| Dump.DumpStops | godump.go:399-404 | a panic or overflow in one value ends the dump there |
| Dump.OneValue | godump.go:399-404 | a dump of one value is that value, made addressable, printed at depth 0 and followed by a newline |
| Dump.CycleReference | godump_test.go:67-75 | as written, one dump of `n := &Node{}; n.Next = n` prints the node, its `Next` field as the node again, and inside that a back-reference `↩︎ &id` to the id the inner field registered; exactly one id is handed out |
| Dump.CounterCarriesOver | godump.go:396-405 | as written, dumping that same `n` twice in a row prints `↩︎ &1` in the first dump and `↩︎ &2` in the second, because the reference map is reset but the counter is not |
| PanicFree.RenderNeverPanics | godump.go:407-546 | in the corrected build with a non-negative string limit, printValue never panics, for every value, view and limit |
| PanicFree.KindNeverPanics | godump.go:449-545 | the same for the kind switch |
| PanicFree.FieldsNeverPanic | godump.go:457-474 | the same for struct fields |
| PanicFree.EntriesNeverPanic | godump.go:481-495 | the same for map entries, read-only maps included |
| PanicFree.ItemsNeverPanic | godump.go:496-520 | the same for slices and arrays |
| PanicFree.DumpNeverPanics | godump.go:396-405 | the same for a whole dump |
| PanicFree.ConfiguredDumpNeverPanics | godump.go:161-174 | with limits from any options passed to NewDumper, a corrected dump never panics |
| Findings.AsWrittenLoopOverflows | godump.go:438-451 | as written, a pointer to a cell that holds itself (`p := new(any); *p = p`) recurses until the stack runs out, whatever the fuel |
| Findings.PointerToCell | godump.go:438-451 | as written, the self pointer is not registered and unfolds to its cell |
| Findings.CellToPointer | godump.go:449-451 | the cell unfolds back to the self pointer |
| Findings.CorrectedLoopRefersBack | godump.go:438-447 | corrected, the self pointer prints a back-reference to itself and registers one id |
| Findings.CorrectedLoopFirstDump | godump.go:438-447 | corrected, the first dump of the self pointer is `↩︎ &1` |
| Findings.HolderFieldReadOnly | godump.go:459-465 | an unexported []byte field of a struct reached through a map value is read-only and not addressable |
| Findings.AsWrittenBytesPanic | godump.go:498-500 | as written, dumping a map whose struct value has an unexported []byte field panics with reflect's read-only error |
| Findings.CorrectedFieldHexDump | godump.go:497-503 | corrected, that field prints its hex dump |
| Findings.CorrectedHolderDump | godump.go:452-476 | corrected, the struct holding the field prints normally |
| Findings.CorrectedBytesDump | godump.go:481-495 | corrected, the whole map prints normally |
| Findings.InnerMapReadOnly | godump.go:459-465 | an unexported map field of a struct reached through a map value is read-only and has no Stringer text |
| Findings.AsWrittenMapKeyPanic | godump.go:489 | as written, dumping a map whose struct value has an unexported map field panics on `key.Interface()` |
| Findings.CorrectedMapKeys | godump.go:483-495 | corrected, that inner map prints its key and value lines |
| Findings.InnerEntry | godump.go:484-493 | corrected, the inner map's entry line is ` key => 1` at the next indentation |
| HttpDump.FirstKey | http_dumper.go:96-101 | the first line is stored under "Request-Line" exactly when the label is "Request", and under "Status" otherwise |
| HttpDump.HeaderLineRoundTrip | http_dumper.go:115-119 | a line `name: value` with trimmed name and value and no colon in the name is read back as exactly that name and value |
| HttpDump.HeaderLineKey | http_dumper.go:115-117 | the key is the trimmed text before the first colon |
| HttpDump.HeaderLineValue | http_dumper.go:116-118 | the value is the trimmed rest after the first colon, later colons included |
| HttpDump.HeaderMapKeys | http_dumper.go:110-120 | a name is a header key exactly when some header line before the first empty line names it |
| HttpDump.LastWins | http_dumper.go:119 | for a repeated header name, the value of its last line is kept |
| HttpDump.FirstBlankIsFirst | http_dumper.go:105-113 | header mode ends at the first empty line and no earlier one |
| HttpDump.CleanStrips | http_dumper.go:94 | exactly the trailing run of CR and LF characters is removed from a line |
| HttpDump.ScanMeaning | http_dumper.go:93-121 | after all lines, the loop's state is the header map of the lines before the first empty line, body mode exactly when there is an empty line, and the lines after it as the body |
| HttpDump.PayloadFromScan | http_dumper.go:93-139 | assembling the loop's final state gives the reference payload |
| HttpDump.NextLine | http_dumper.go:104-120 | one iteration: in body mode the line is appended with a newline; outside it, an empty line starts the body and other lines may add a header |
| HttpDump.FirstLine | http_dumper.go:96-102 | the first line is the payload's only entry, under its key |
| HttpDump.Finish | http_dumper.go:123-139 | the headers are added over the first entry, then the trimmed body when it is not blank |
| HttpDump.ParseHTTPDump | http_dumper.go:86-140 | the parser computes the reference payload of its label and dump text |
| HttpDump.PayloadParts | http_dumper.go:86-140 | the payload is the first line, the header map and the body text, assembled |
| HttpDump.AssembleKeys | http_dumper.go:123-137 | a key is in the payload exactly when it is the first line's key, a header name, or "Body" with a non-blank body |
| HttpDump.AssembleValues | http_dumper.go:123-137 | header values override the first line; the trimmed body overrides a header named "Body" |
| HttpDump.PayloadKeys | http_dumper.go:86-140 | a key is in the payload exactly when it is the first line's key, some header line's name, or "Body" with a non-blank body |
| HttpDump.FirstLineKept | http_dumper.go:96-101 | unless a header has the same name, the first line's key holds the first line without its line ending |
| HttpDump.HeaderShadowsFirstLine | http_dumper.go:119-131 | a header named "Status" or "Request-Line" replaces the first line in the payload |
| HttpDump.HeaderValueInPayload | http_dumper.go:115-131 | the last line for each header name supplies that name's value in the payload |
| HttpDump.BodyStored | http_dumper.go:133-137 | a non-blank body is stored under "Body", trimmed |
| HttpDump.HeadersEndAtBlank | http_dumper.go:105-113 | once the empty line has been seen, later lines add no headers |
| HttpDump.BodyTakesTheRest | http_dumper.go:105-108 | once the empty line has been seen, every later line goes to the body |

## Left out

- `Dump`, `Fdump`, `DumpStr`, `DumpHTML`, `DumpJSON`, `DumpJSONStr`, `Dd` and `clone` (godump.go:176-279) are not modelled. They are wrappers that write to an io.Writer, serialise JSON, emit HTML or exit the process.
- The tabwriter that DumpStr pipes the output through is not modelled. The model's text is the text before column alignment, with the tab before `=>` still in it.
- Colour is not modelled. The renderer is modelled with the identity colorizer, and `colorize`'s lazy choice by environment variables (`detectColor`) is left out. `colorizeHTML` is not modelled.
- `runtime.Caller` and `runtime.FuncForPC` become a parameter: the stack as a sequence of `Frames.Frame`. `os.Getwd` and `filepath.Rel` become an optional relative path passed to `Frames.Header`.
- Map iteration order is not modelled. A map's entries are taken in whatever order `MapKeys` returned them.
- printValue's `visited` parameter is not modelled, because nothing reads it.
- Go's stack depth is modelled as fuel. Running out of it is the `Overflow` outcome rather than a crash.
- Text that printValue takes from the Go runtime or from `fmt` is stored in the value as ready-made text. This covers floats (`%f`), complex numbers (`%v`), map keys (`%v`), channel and unsafe-pointer addresses (`%#x`), and the result of a String method. It is not derived from the value.
- Values.Value: a value's Stringer result is given freely. It is not tied to the method set of the value's type, nor to the dynamic value of an interface.
- Values.Heap: a heap cell holds one whole value. A pointer to a struct field (`&s.first`) therefore cannot share its address with a pointer to the struct (`&s`). The back-references that such sharing produces in Go are not modelled.
- Escape.QuotedString: strings are sequences of Unicode characters, not UTF-8 bytes. Go counts runes with `utf8.RuneCountInString` and converts invalid bytes to U+FFFD. The model clips by characters and does not model invalid UTF-8.
- HexDump.LineLength, HexDump.LineParts, HexDump.LineCell, HexDump.LineAscii, HexDump.DecodeLine, HexDump.DecodeRows: assume an offset below 2^32. Beyond that, `%08x` prints more than 8 digits and the line is wider. The formatting function itself handles any offset.
- HexDump.DecodeDump: assumes data of at most 2^32 bytes, for the same reason.
- HexDump.DumpTextDecodes: assumes data of at most 2^32 bytes, for the same reason.
- RenderProps.NilValue: the type text is printed verbatim. godump.go:434 passes it to `fmt.Fprintf` as the format string, so a `%` in a struct tag of the type is expanded by fmt: `var p *struct{ A int "x%d" }; Dump(p)` prints `*struct { A int "x%!d(MISSING)" }(nil)`. The model does not model fmt's verbs.
- Printer.Render: its own contract states only how the reference map evolves. What it prints is stated case by case by the RenderProps lemmas, its termination by the Termination lemmas, and the absence of panics by the PanicFree lemmas.
- Printer.Env: the limits that printValue reads are a parameter of the renderer. `Dump.ChosenPolicy` builds them from options exactly as NewDumper does, and `PanicFree.ConfiguredDumpNeverPanics` uses it. The other renderer lemmas hold for any limits.
- The HTTP debug transport itself (`NewHTTPDebugTransport`, `SetDebug`, `Dumper` and `RoundTrip`, http_dumper.go:21-83) is not modelled. It performs network I/O and calls `httputil.DumpRequest`. Only `parseHTTPDump` is modelled.
- HttpDump.Payload: the payload's values are all strings. Go's map holds them as `any`.
- Sorting the header keys before inserting them (http_dumper.go:123-131) has no effect on the resulting map's contents, so it is not modelled.

Where the code's behaviour differs from what one might expect from its documentation, the model follows the code:

- A negative WithMaxDepth, WithMaxItems, WithMaxStringLen or WithSkipStackFrames is ignored. It does not disable the limit (`Options.NegativeDepthKeepsDefault`).
- The map truncation marker has no trailing newline, while the slice marker has one (`RenderProps.EntriesTruncation`, `RenderProps.ItemsTruncation`).
- The hex dump of a byte slice ignores maxItems (`RenderProps.BytesIgnoreItemLimit`).
- writeDump resets the reference map but not the id counter. Ids keep increasing across dumps (`Dump.CounterCarriesOver`, in the code as written, on the self-referencing struct of godump_test.go).
- A header named "Status" or "Request-Line" overwrites the first line in the HTTP payload (`HttpDump.HeaderShadowsFirstLine`).

## Findings

| source | as written | input that shows it | evidently intended | confidence | as-written member | corrected member |
|---|---|---|---|---|---|---|
| godump.go:438-451 | only addressable pointers are registered in the reference map, so a non-addressable pointer is followed every time it is reached | `p := new(any); *p = p; Dump(p)`: the pointer is not addressable, so printValue recurses through `*p` until the stack overflows | every pointer that is followed is registered, so a cycle prints a back-reference | not executed | Findings.AsWrittenLoopOverflows | Findings.CorrectedLoopRefersBack |
| godump.go:498-500 | `v.Convert(...).Interface()` is called on a []byte even when it was reached through an unexported field, and reflect panics on read-only values | `map[string]struct{ b []byte }{"k": {[]byte("x")}}`: the struct is reached by MapIndex, so it is not addressable, and forceExported cannot clear the read-only flag | read the bytes without `Interface()`, as `v.Bytes()` does, so the hex dump is printed | not executed | Findings.AsWrittenBytesPanic | PanicFree.RenderNeverPanics |
| godump.go:489 | `key.Interface()` is called on the keys of a map that was reached through an unexported field, and MapKeys marks them read-only | `map[string]struct{ m map[string]int }{"k": {map[string]int{"a": 1}}}`: the inner map is read-only and not addressable | format the key without `Interface()`, so the inner map prints its entries | not executed | Findings.AsWrittenMapKeyPanic | Findings.CorrectedMapKeys |

The corrected build (`Build.Corrected`) has all three corrections: every followed pointer is registered, a read-only byte slice is read without `Interface()`, and the keys of a read-only map are formatted without `Interface()`.
`Termination.DumpFinishes` proves that every dump in it finishes.
`PanicFree.RenderNeverPanics` proves that it never panics, given a non-negative string limit, which NewDumper guarantees (`Dump.ChosenPolicy`).
