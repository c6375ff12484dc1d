# ncu-viewer core, modelled in Dafny

This project models the parts of ncu-viewer that read NVIDIA Nsight Compute reports and
the viewer logic built on them. Each part is proved correct against a specification.

- **The binary `.ncu-rep` reader** (`src/ncu-parser-protobufjs.js`).
  - `Wire.DecodeMessage` is the schema-free protobuf pass. It walks a reader position
    through a buffer and fills a dictionary from field number to the values seen under it.
  - `Schema` holds the `decode*` projections, which read typed records out of that
    dictionary by field number.
  - `Container.ParseFile` is the file walk. It checks the magic, decodes the file header,
    then loops over the blocks. Each block has a header, an optional string table, and
    three groups of length-prefixed entries.
  - `WireEncode` is an encoder written as the decoder's partner. The round-trip lemmas
    use it.
- **The text-report parser of the viewer server** (`ncu-viewer/server.js`).
  - `ReportParser.ParseNcuOutput` runs the line loops of `parseNcuOutput`. Each loop is a
    method proved equal to a function of the parser's variables.
  - `ReportLines` spells out the line patterns of `parseNcuOutput` as the match a
    backtracking engine finds. Greedy runs take as much as they can and the kernel name
    is lazy. `^\s+` gives white space back before the kernel name, and the `\s+` after
    `Section:` gives back its last character when nothing else follows. The short-name
    pattern of the summary is in `KernelList`.
  - `KernelList` models the per-kernel summary of `GET /api/kernels/:fileId`: the short
    name, the duration and the two throughput figures.
- **The browser viewer's state and helpers** (`src/app.js`).
  - `ViewerState.App` is a class with the fields the source mutates: `files`, the active
    indices, `baseline`, `compareMode` and `compareKernels`. Its methods are the compare
    button, `selectKernel` (both branches) and the baseline button.
  - `ViewerHelpers` holds the `kernelSummary` short name, CSV cell quoting, the hint
    comparator with an in-place sort of `allHints`, and the OPT/INF counts.

JavaScript semantics are modelled where they change the result.

- A value the decoder stored is a `Wire.Value`. A length-delimited value that passes the
  text heuristic is the `{bytes, string}` wrapper (`Text`). Any other length-delimited
  value is the bare array (`Bytes`).
- `Number()` of a stored value is a `Schema.Num`.
  - A one-byte array is its byte, the empty array is 0, a longer array is NaN, and the
    wrapper is NaN.
  - `for (i = 0; i < NaN; …)` runs zero times.
- An exception that escapes is a `Failure` of `Wrappers.Result`. The possible exceptions:
  - a past-the-end protobuf read;
  - an overlong varint;
  - `DataView.getUint32` out of range;
  - a property read on `undefined`;
  - the mix of Number and BigInt in the double branch of `decodeMetricValue`.

  `parseFile` has no `try` around `decodeProfileResult`, so an exception in any result
  entry fails the whole parse (`Container.ResultsFrom`).
- Integers are unbounded. The 32-bit `uint32()` reads (tags, lengths) are taken modulo
  2^32, and `uint64()` is taken modulo 2^64, assuming protobufjs has `Long` support
  (see `Schema.MetricValueOf` under "## Left out").

## Quirks of the code that the model keeps

- **Unknown wire types.** A tag with wire type 3, 4, 6 or 7 registers an empty list under
  its field number, and decoding resumes right after the tag
  (`WireEncode.UnknownWireTypeSkipsTag`).
- **Tag reads.** A tag read that runs off the end is outside the `try`, so it escapes
  `decodeMessage` (`WireEncode.TruncatedTagEscapes`). A failed value read ends the loop
  with the fields gathered so far (`WireEncode.TruncatedValueStops`).
- **The text heuristic.** A blob is text only when strictly more than 80% of its characters
  are printable (`Wire.IsPrintableString`).
- **Nested messages.** A nested message is decoded only when it carries `.bytes`, that is,
  when it was classified as text; `decodeMetricResult` alone also takes a bare array through
  `getBytes`. An encoded `Uint64x3` never passes the heuristic: every record's
  tag byte is unprintable, and a varint has at most one printable byte. So grid and
  block stay `{0, 0, 0}` (`SchemaProperties.GridAndBlockStayZero`). In the same way a
  block header keeps its string table only when the table's bytes pass the heuristic, and
  reports an empty table otherwise (`SchemaProperties.BlockHeaderRoundTrip`,
  `SchemaProperties.BlockHeaderDropsUnprintableTable`).
- **Empty lists.** A field that is present with an empty list makes
  `fields[n][0].value` a TypeError in every projection. The field listing that
  `decodeProfileResult` logs for the first kernel reads `fieldData[0]` for every field,
  so it throws too.
- **Overrunning entries.** A result entry that overruns the file ends only that block's
  result loop, and the walk goes on with
  the range entries, the payload jump and the next block
  (`ContainerProperties.OverrunEndsOnlyResults`).
- **Adding to the comparison.** In `src/app.js` the add path of `selectKernel` in
  compare mode pushes `{ fileIndex, kernelIndex, kernel }`. `kernelIndex` is not
  declared there, so the push throws a ReferenceError. The model treats that path as
  failing (`ViewerState.App.SelectKernel`). As a result, only `toggleCompareMode` ever
  adds an entry, and `App.Valid` keeps `compareKernels` at one entry at most.
- **CSV quoting.** `exportCSV` quotes a cell only when it holds a comma or a quote. A
  line break in a cell is written unquoted; `ViewerHelpers.CsvCellPlainOrQuoted` states
  which cells are quoted.

## Model

| member | source | states |
|---|---|---|
| Wire.ReadVarintWithin | src/ncu-parser-protobufjs.js:19 | a successful varint read consumes between 1 and the byte budget, and never more than the buffer |
| Wire.VarintReadOutcome | src/ncu-parser-protobufjs.js:19 | a varint read fails exactly when no byte within reach lacks the continuation bit; running out of input is reported before an overlong encoding; on success the last byte consumed is the first without that bit |
| Wire.LittleEndian | src/ncu-parser-protobufjs.js:36-39 | a little-endian word of n bytes is below 256^n |
| Wire.ReadFixed | src/ncu-parser-protobufjs.js:36-39 | fixed32/fixed64 reads succeed exactly when enough bytes remain, consume exactly the width, and give a value below 256^width |
| Wire.DecodeText | src/ncu-parser-protobufjs.js:46 | the ASCII restriction of TextDecoder gives one character per byte |
| Wire.PrintableCount | src/ncu-parser-protobufjs.js:78-81 | the printable count never exceeds the string length |
| Wire.IsPrintableString | src/ncu-parser-protobufjs.js:75-83 | false on the empty string; otherwise true exactly when the printable count is strictly more than 0.8 times the length |
| Wire.Classify | src/ncu-parser-protobufjs.js:40-54 | a length-delimited blob becomes the text wrapper exactly when its decoded text is printable, and the bare array otherwise; both keep the bytes |
| Wire.ReadValue | src/ncu-parser-protobufjs.js:31-62 | wire types 0, 1, 2 and 5 are read and any other is unknown; a read consumes at least one byte and no more than remain, and keeps its wire type |
| Wire.Register | src/ncu-parser-protobufjs.js:23-25 | registering a field number adds only that key, with an empty list when it was absent, and changes no other list |
| Wire.Next | src/ncu-parser-protobufjs.js:18-68 | one pass of the loop that goes on consumes between 1 and the remaining bytes |
| Wire.NextGrows | src/ncu-parser-protobufjs.js:23-64 | one pass only registers keys and appends to lists |
| Wire.DecodeFromGrows | src/ncu-parser-protobufjs.js:18-69 | decoding from any point never loses a field and never shortens or reorders a list |
| Wire.DecodedKeysAreSmall | src/ncu-parser-protobufjs.js:20 | every decoded field number is below 2^29, since `tag >>> 3` of a 32-bit tag |
| Wire.ReadField | src/ncu-parser-protobufjs.js:19-68 | one pass of the loop at a reader position is the step function on the rest of the buffer |
| Wire.DecodeMessage | src/ncu-parser-protobufjs.js:13-72 | the reader loop returns exactly the decoding of the whole buffer |
| WireEncode.EncodeVarint | src/ncu-parser-protobufjs.js:19 | an encoded varint has at least one byte |
| WireEncode.EncodeLittleEndian | src/ncu-parser-protobufjs.js:36-39 | an encoded word has exactly the width asked for |
| WireEncode.VarintRoundTrip | src/ncu-parser-protobufjs.js:19-33 | an encoded varint reads back as its value and its length, whatever follows it |
| WireEncode.VarintLength | src/ncu-parser-protobufjs.js:33 | a number below 128^m encodes in at most m bytes |
| WireEncode.Uint64VarintFits | src/ncu-parser-protobufjs.js:33 | every uint64 fits the reader's ten-byte limit |
| WireEncode.ReadVarintOfEncoding | src/ncu-parser-protobufjs.js:33 | the ten-byte reader reads every encoded uint64 back |
| WireEncode.LittleEndianRoundTrip | src/ncu-parser-protobufjs.js:37-56 | a little-endian word reads back as the number written |
| WireEncode.ReadFixedOfEncoding | src/ncu-parser-protobufjs.js:37-56 | a fixed-width read of a written word gives the number and its width |
| WireEncode.ReadBytesOfEncoding | src/ncu-parser-protobufjs.js:41-53 | a length-prefixed blob reads back as its classified bytes and consumes prefix plus blob |
| WireEncode.ReadPayload | src/ncu-parser-protobufjs.js:31-58 | reading a canonical payload with its wire type gives its decoded value and consumes exactly its encoding |
| WireEncode.ReadTag | src/ncu-parser-protobufjs.js:19-21 | an encoded tag reads back, and `>>> 3` and `& 7` recover its field number and wire type |
| WireEncode.RecordStep | src/ncu-parser-protobufjs.js:19-64 | an encoded record is read as one pass of the loop, appending its value under its field number |
| WireEncode.StepOfFailedRead | src/ncu-parser-protobufjs.js:65-68 | a failed value read after a good tag ends the loop with the fields gathered, the field number registered |
| WireEncode.StepOfUnknownWireType | src/ncu-parser-protobufjs.js:59-61 | an unknown wire type consumes only the tag and registers its field number |
| WireEncode.StepOfRead | src/ncu-parser-protobufjs.js:31-64 | a good tag and value append the value under the field number and consume both |
| WireEncode.DecodeRecordsThen | src/ncu-parser-protobufjs.js:18-69 | decoding a run of encoded records reads every record, then goes on with what follows |
| WireEncode.DecodeRecordThen | src/ncu-parser-protobufjs.js:18-69 | decoding one encoded record, then what follows |
| WireEncode.RoundTrip | src/ncu-parser-protobufjs.js:13-72 | an encoded message decodes to its records grouped by field number |
| WireEncode.GroupContents | src/ncu-parser-protobufjs.js:23-64 | after grouping, a field is present exactly when it was or a record names it, and its list is the old list followed by those records' values in order |
| WireEncode.MentionsCons | src/ncu-parser-protobufjs.js:23-25 | a field is named by a record list exactly when its head or its tail names it |
| WireEncode.FieldsInWriteOrder | src/ncu-parser-protobufjs.js:19-64 | decoding an encoded message succeeds; a field is present exactly when some record has that number, and its list holds those records' values in write order |
| WireEncode.UnknownWireTypeSkipsTag | src/ncu-parser-protobufjs.js:23-61 | a tag with wire type 3, 4, 6 or 7 registers an empty list and decoding resumes right after the tag |
| WireEncode.UnknownWireTypeStep | src/ncu-parser-protobufjs.js:59-61 | from any fields, an unknown-type tag is skipped with its field number registered |
| WireEncode.TruncatedValueStops | src/ncu-parser-protobufjs.js:40-68 | a blob claiming more bytes than remain ends decoding successfully, keeping every earlier field and registering its own |
| WireEncode.TruncatedValueStep | src/ncu-parser-protobufjs.js:65-68 | from any fields, a truncated blob ends decoding with the field registered |
| WireEncode.TruncatedTagEscapes | src/ncu-parser-protobufjs.js:18-30 | a message that ends inside a tag fails with the read error instead of returning fields |
| Schema.ToNumber | src/ncu-parser-protobufjs.js:145-164 | `Number()` of the text wrapper is NaN, and of a byte array is finite exactly when it has at most one byte |
| Schema.ToUint32 | src/ncu-parser-protobufjs.js:108-110 | ToUint32 gives a value below 2^32 and keeps an integer already in range |
| Schema.First | src/ncu-parser-protobufjs.js:102-145 | `fields[k][0]` throws exactly when field k is present with an empty list, gives the first entry when there is one, and nothing when k is absent |
| Schema.TextBlobs | src/ncu-parser-protobufjs.js:233-237 | the forEach over a field keeps at most as many blobs as entries |
| Schema.TextStrings | src/ncu-parser-protobufjs.js:424-430 | the string table keeps at most as many strings as entries |
| Schema.DecodeEach | src/ncu-parser-protobufjs.js:231-258 | decoding a list of blobs gives one result per blob, each that blob's decoding, or the failure of some blob |
| Schema.GetBytes | src/ncu-parser-protobufjs.js:86-93 | `getBytes` gives a blob exactly for the wrapper and the bare array, and it is the stored bytes |
| Schema.MetricValueOf | src/ncu-parser-protobufjs.js:98-138 | a string value comes exactly from a text field 1, and is that text; a float, double, uint32 or uint64 value needs its own field present and every lower of fields 2 to 5 absent; the fixed32 and fixed64 results are bit patterns in range; null exactly when none of fields 2 to 5 is present and field 1 is not text |
| Schema.SourceLocatorOf | src/ncu-parser-protobufjs.js:304-311 | the line number and file path id are fields 2 and 3 read as numbers, the file path is text field 4; the decoder throws exactly when one of those fields holds an empty list |
| Schema.SourceLineOf | src/ncu-parser-protobufjs.js:279-299 | the field listing throws on an empty list; the address is the first entry of field 1 or absent; sass and ptx are text fields 2 and 3; the locator is present exactly when field 5's first entry is text-wrapped, and is then that blob's decoding |
| Schema.SectionHeaderOf | src/ncu-parser-protobufjs.js:333-346 | one metric per text-wrapped entry of field 2, each the decoding of that entry; other entries are skipped |
| Schema.SectionOf | src/ncu-parser-protobufjs.js:316-328 | identifier and display name are text fields 1 and 2, order is field 3 as a number; the header is present exactly when field 4's first entry is text-wrapped, and is then that blob's decoding |
| Schema.RuleResultMessageOf | src/ncu-parser-protobufjs.js:410-415 | the message is text field 1 and its type field 2 as a number; the decoder throws exactly when one of them holds an empty list |
| Schema.RuleResultBodyItemOf | src/ncu-parser-protobufjs.js:396-405 | the message is present exactly when field 1's first entry is text-wrapped, and is then that blob's decoding |
| Schema.RuleResultBodyOf | src/ncu-parser-protobufjs.js:378-391 | one item per text-wrapped entry of field 1, each the decoding of that entry; other entries are skipped |
| Schema.RuleResultOf | src/ncu-parser-protobufjs.js:361-373 | identifier, display name and section identifier are text fields 1, 2 and 4; the body is present exactly when field 3's first entry is text-wrapped, and is then that blob's decoding |
| Schema.BlockHeaderOf | src/ncu-parser-protobufjs.js:438-452 | the four counts are fields 1, 2, 5 and 7 read as numbers; the string table is the decoding of field 4's first entry when that is text-wrapped, and empty otherwise |
| Schema.SourceLinesFrom | src/ncu-parser-protobufjs.js:219-228 | one source line per text-wrapped entry of field 12 |
| Schema.SourceLinesFromCons | src/ncu-parser-protobufjs.js:222-227 | a text-wrapped entry adds its own decoded line in front of the rest; any other entry adds nothing |
| Schema.SourceLineAt | src/ncu-parser-protobufjs.js:222-227 | source line i is the decoding of the i-th text-wrapped entry, with the field listing switched on only for the entry at list position 0 |
| Schema.ProfileListsOf | src/ncu-parser-protobufjs.js:216-256 | one metric result, section and rule result per text-wrapped entry of fields 13, 17 and 19, each the decoding of that entry; the source lines are those of field 12 |
| Schema.ProfileResultOf | src/ncu-parser-protobufjs.js:171-274 | the raw fields are kept; the three names are text fields 5, 6 and 7, the context and stream ids fields 22 and 23 as numbers; grid and block are the decodings of fields 10 and 11 when their first entry is text-wrapped, and zero otherwise; the four lists are those of fields 12, 13, 17 and 19, one entry per text-wrapped entry; the first kernel's field listing throws on an empty list |
| SchemaProperties.FirstPayload | src/ncu-parser-protobufjs.js:102 | a first payload exists exactly when some record has that number |
| SchemaProperties.ValuesOfStartsWithFirst | src/ncu-parser-protobufjs.js:64 | the values under a field start with the first record with that number |
| SchemaProperties.FirstEntryOfEncoding | src/ncu-parser-protobufjs.js:19-64 | in an encoded message, field k is present exactly when a record has that number, and its first entry is that record's value |
| SchemaProperties.NumberFieldOfEncoding | src/ncu-parser-protobufjs.js:145-164 | `fields[k] ? Number(fields[k][0].value) : 0` reads the first record numbered k or 0 |
| SchemaProperties.Uint64x3OfEncoding | src/ncu-parser-protobufjs.js:159-166 | each coordinate is read from the first record of its field, 0 when there is none |
| SchemaProperties.Uint64x3RoundTrip | src/ncu-parser-protobufjs.js:159-166 | a written coordinate triple reads back unchanged |
| SchemaProperties.EmptyMessageDefaults | src/ncu-parser-protobufjs.js:159-166 | an empty message gives the zero triple; the same holds for the other projections: a null metric value, file version 0, an empty section metric and an empty string table |
| SchemaProperties.SingleRecord | src/ncu-parser-protobufjs.js:13-72 | one record decodes to a one-entry map |
| SchemaProperties.AsciiBytes | src/ncu-parser-protobufjs.js:46 | the bytes of an ASCII string, one per character |
| SchemaProperties.AsciiDecodes | src/ncu-parser-protobufjs.js:46 | ASCII bytes decode back to their string |
| SchemaProperties.StringMetricRoundTrip | src/ncu-parser-protobufjs.js:101-104 | a printable string in field 1 is the metric's string value |
| SchemaProperties.FloatMetricRoundTrip | src/ncu-parser-protobufjs.js:106-112 | a fixed32 in field 2 is kept as its bit pattern |
| SchemaProperties.DoubleMetricRoundTrip | src/ncu-parser-protobufjs.js:114-125 | a fixed64 in field 3 is kept as its 64-bit pattern, low word plus high word times 2^32 |
| SchemaProperties.Uint32MetricRoundTrip | src/ncu-parser-protobufjs.js:127-130 | a varint in field 4 is the uint32 value |
| SchemaProperties.Uint64MetricRoundTrip | src/ncu-parser-protobufjs.js:132-135 | a varint in field 5 is the uint64 value |
| SchemaProperties.DoubleFromFixed32Throws | src/ncu-parser-protobufjs.js:115-121 | a fixed32 in field 3 is a plain Number, and mixing it with BigInt throws |
| SchemaProperties.MetricResultTakesBareBlob | src/ncu-parser-protobufjs.js:143-154 | a metric result decodes its value blob even when it is not text-wrapped |
| SchemaProperties.SectionMetricRoundTrip | src/ncu-parser-protobufjs.js:351-356 | the label is the given label when non-empty and the name otherwise |
| SchemaProperties.TableRecords | src/ncu-parser-protobufjs.js:424-430 | a string table is written as one field-1 record per string |
| SchemaProperties.TableValues | src/ncu-parser-protobufjs.js:424-430 | the printable strings of field 1 read back in order |
| SchemaProperties.StringTableRoundTrip | src/ncu-parser-protobufjs.js:420-433 | a table of printable strings decodes to itself |
| SchemaProperties.StringTableBounded | src/ncu-parser-protobufjs.js:424-430 | the table has at most as many strings as field 1 has entries |
| SchemaProperties.DecodeTextConcat | src/ncu-parser-protobufjs.js:46 | decoding text distributes over concatenation |
| SchemaProperties.PrintableCountConcat | src/ncu-parser-protobufjs.js:78-81 | the printable count adds up over concatenation |
| SchemaProperties.VarintHasOnePrintable | src/ncu-parser-protobufjs.js:78-81 | only the last byte of a varint can be printable |
| SchemaProperties.CoordinateRecordMostlyUnprintable | src/ncu-parser-protobufjs.js:75-83 | at most half of an encoded coordinate record is printable |
| SchemaProperties.CoordinatesMostlyUnprintable | src/ncu-parser-protobufjs.js:75-83 | at most half of an encoded coordinate message is printable |
| SchemaProperties.EncodedUint64x3IsNotText | src/ncu-parser-protobufjs.js:40-82 | an encoded `Uint64x3` is classified as a bare array |
| SchemaProperties.GridAndBlockStayZero | src/ncu-parser-protobufjs.js:207-213 | a profile result whose grid and block are written as coordinate messages decodes them as zero |
| SchemaProperties.MetricValueTextWins | src/ncu-parser-protobufjs.js:101-104 | in an encoded metric value, a field 1 whose first record reads as text gives that string, whatever the other fields hold |
| SchemaProperties.MetricValueFirstPresentWins | src/ncu-parser-protobufjs.js:106-135 | otherwise the lowest of fields 2 to 5 that has a record decides, from its first record alone, whatever the later fields hold |
| SchemaProperties.MetricValueAbsent | src/ncu-parser-protobufjs.js:137 | with no text in field 1 and no record numbered 2 to 5 the value is null |
| SchemaProperties.SourceLinesFromEach | src/ncu-parser-protobufjs.js:219-228 | every source line is the decoding of the text-wrapped entry at the same place, only position 0 with the field listing |
| SchemaProperties.ProfileResultEntries | src/ncu-parser-protobufjs.js:216-256 | every source line, metric result, section and rule result of a profile result is the decoding of the text-wrapped entry at the same place in fields 12, 13, 17 and 19 |
| SchemaProperties.StringFieldOfEncoding | src/ncu-parser-protobufjs.js:203 | `fields[k] && fields[k][0].valueType === 'string' ? … : ''` reads the text of the first record numbered k, or the empty string |
| SchemaProperties.ProfileNamesOfEncoding | src/ncu-parser-protobufjs.js:203-217 | in an encoded profile result the three names and the two ids are the first records of fields 5, 6, 7, 22 and 23, whatever else the message holds |
| SchemaProperties.KernelNameRoundTrip | src/ncu-parser-protobufjs.js:203 | a printable ASCII name written first in field 5 is the reported mangled name |
| SchemaProperties.FirstPayloadAt | src/ncu-parser-protobufjs.js:64 | the first record of a number is the earliest record carrying it |
| SchemaProperties.BlockHeaderOfEncoding | src/ncu-parser-protobufjs.js:438-452 | an encoded block header reads its counts from the first records of fields 1, 2, 5 and 7 and its table from field 4 when that reads as text |
| SchemaProperties.BlockHeaderRecordsRead | src/ncu-parser-protobufjs.js:441-444 | the written counts are the first records of their fields and the table blob the first record of field 4 |
| SchemaProperties.BlockHeaderRoundTrip | src/ncu-parser-protobufjs.js:438-452 | a block header whose string table reads as text decodes to its four counts and that table |
| SchemaProperties.BlockHeaderDropsUnprintableTable | src/ncu-parser-protobufjs.js:446-449 | a block header whose table blob does not read as text reports an empty table |
| Container.U32 | src/ncu-parser-protobufjs.js:478-494 | `getUint32` gives a value below 2^32 |
| Container.Skipped | src/ncu-parser-protobufjs.js:511-538 | skipping source or range entries never moves the offset back |
| Container.ResultsFrom | src/ncu-parser-protobufjs.js:518-531 | the result group never moves the offset back |
| Container.PayloadJump | src/ncu-parser-protobufjs.js:508-542 | the payload-end jump moves only forward, and only to header end plus payload size |
| Container.ReadBlock | src/ncu-parser-protobufjs.js:492-543 | the block loop stops exactly when fewer than 4 bytes remain or the header size is 0 or overruns; a block read moves forward |
| Container.TablesOf | src/ncu-parser-protobufjs.js:502-506 | the block headers' string tables, one per block |
| Container.Tagged | src/ncu-parser-protobufjs.js:529 | each result of a block is paired with the one table in effect |
| Container.Transformed | src/ncu-parser-protobufjs.js:550-552 | the kernels are `transformResult` of each raw result in order |
| Container.Lookup | src/ncu-parser-protobufjs.js:556-564 | `m[key]` as a condition: present exactly when the key is there with a truthy value |
| Container.Session | src/ncu-parser-protobufjs.js:555-565 | the session keeps the file version, and has device info exactly when the first kernel has a metric map |
| Container.SkipEntries | src/ncu-parser-protobufjs.js:511-538 | the skip loop ends where the group specification says |
| Container.ReadResults | src/ncu-parser-protobufjs.js:518-531 | the result loop pushes exactly the group's results, with the table in effect, and ends at the group's end or fails with its first error |
| Container.PairedSnoc | src/ncu-parser-protobufjs.js:502-529 | a new block's results are paired with its own table when non-empty, else with the last one kept |
| Container.ReadNextBlock | src/ncu-parser-protobufjs.js:493-542 | one iteration of the block loop stops, fails or moves to the state after the block |
| Container.WalkBlocks | src/ncu-parser-protobufjs.js:489-543 | the block loop gives the results of the walk paired with their tables, or its failure |
| Container.ParseFile | src/ncu-parser-protobufjs.js:466-568 | `parseFile` returns exactly what the file walk specifies |
| ContainerProperties.BadMagicFails | src/ncu-parser-protobufjs.js:471-473 | a bad magic fails before any decoder is consulted |
| ContainerProperties.TilesCons | src/ncu-parser-protobufjs.js:492-543 | a block that fits followed by tiling blocks tiles the file |
| ContainerProperties.BlocksCons | src/ncu-parser-protobufjs.js:492-543 | a walk that succeeds is the block read at the offset, then the walk after it |
| ContainerProperties.BlocksContiguous | src/ncu-parser-protobufjs.js:492-543 | the blocks the walk reads tile the file: each starts where the last ended, fits, and the offset never goes back |
| ContainerProperties.BlocksOfStep | src/ncu-parser-protobufjs.js:494-500 | the block read at an offset starts there, has a non-zero header that fits, and ends after it |
| ContainerProperties.LastTableIsLatest | src/ncu-parser-protobufjs.js:490-504 | the table kept is empty exactly when every table was empty, and otherwise is the last non-empty one |
| ContainerProperties.PairedSplit | src/ncu-parser-protobufjs.js:502-529 | pairing splits into the blocks so far and the rest from the table kept |
| ContainerProperties.PairedIsFrontToBack | src/ncu-parser-protobufjs.js:490-529 | the whole pairing is the front-to-back walk from an empty table |
| ContainerProperties.OverrunEndsOnlyResults | src/ncu-parser-protobufjs.js:518-542 | an overrunning result entry ends only that block's results; the block's range entries and payload jump still apply |
| ContainerProperties.U32OfEncoding | src/ncu-parser-protobufjs.js:478-494 | a written length prefix reads back |
| ContainerProperties.FramedHeader | src/ncu-parser-protobufjs.js:471-482 | the magic and file header framing read back as written |
| ContainerProperties.HeaderOnlyFile | src/ncu-parser-protobufjs.js:466-567 | magic plus file header and no blocks gives no kernels, the header version and no device info |
| ContainerProperties.CapabilityKnown | src/ncu-parser-protobufjs.js:559-562 | the compute capability is major.minor exactly when both are truthy, and 'Unknown' otherwise |
| ContainerProperties.ParsedKernels | src/ncu-parser-protobufjs.js:466-567 | a parse that succeeds has the magic, its kernels are the transformed front-to-back pairing, and its device info comes from the first kernel |
| JsText.LeadEnd | ncu-viewer/server.js:40 | the leading white space ends within the string |
| JsText.TrailStart | ncu-viewer/server.js:40 | the trailing white space starts within the range |
| JsText.LeadEndStops | ncu-viewer/server.js:40 | `trim` cuts all the leading white space and stops at the first other character |
| JsText.TrailStartStops | ncu-viewer/server.js:40 | `trim` cuts all the trailing white space and stops at the last other character |
| JsText.LeadEndIs | ncu-viewer/server.js:40 | a run of white space ended by another character is what `trim` cuts in front |
| JsText.TrailStartIs | ncu-viewer/server.js:40 | a run of white space ended by another character is what `trim` cuts behind |
| JsText.TrimOfPadded | ncu-viewer/server.js:107 | trimming white space around a trimmed core gives the core |
| JsText.TrimShape | ncu-viewer/server.js:107 | a trimmed string does not start or end with white space, lies inside the original, and only white space was cut |
| JsText.TrimIdempotent | ncu-viewer/server.js:107-115 | trimming twice is trimming once |
| JsText.FindFrom | src/app.js:372 | the first occurrence of the separator at or after a position, or none |
| JsText.IndexOf | src/app.js:370 | `indexOf` is the first position of the character, or -1 exactly when it is absent |
| JsText.Split | src/app.js:372 | `split` gives at least one piece |
| JsText.JoinSplit | src/app.js:372 | joining the pieces with the separator gives the string back |
| JsText.SplitPiecesAreFree | src/app.js:372 | no piece contains the separator |
| ReportLines.RunOf | ncu-viewer/server.js:37 | a run lies within the string |
| ReportLines.RunOfStops | ncu-viewer/server.js:37 | a greedy run takes every character of its class and stops at the first other |
| ReportLines.Lit | ncu-viewer/server.js:37 | a literal match ends after the literal |
| ReportLines.Run | ncu-viewer/server.js:37 | a greedy `+` run takes at least its least count |
| ReportLines.DigitListEnd | ncu-viewer/server.js:37 | `\d+(?:,\s*\d+)*` takes at least one character |
| ReportLines.ListRest | ncu-viewer/server.js:37 | the repeated `,\s*\d+` groups end within the string |
| ReportLines.LaunchAt | ncu-viewer/server.js:37-55 | the launch dimensions, when found, end within the line |
| ReportLines.StreamAt | ncu-viewer/server.js:37-55 | the pattern up to `Stream` includes the launch dimensions |
| ReportLines.TailAt | ncu-viewer/server.js:37 | the full pattern after the name includes the pattern up to `Stream` |
| ReportLines.NameFrom | ncu-viewer/server.js:37 | the lazy name is free of line terminators and followed by the full rest of the pattern |
| ReportLines.MatchFrom | ncu-viewer/server.js:37 | after giving back white space, the name starts inside the leading run and is followed by the rest of the pattern |
| ReportLines.MatchKernel | ncu-viewer/server.js:37 | a full kernel match has a name after at least one white space character, and the rest of the pattern after it |
| ReportLines.SectionName | ncu-viewer/server.js:60 | a section name is found only on a `Section:` line |
| ReportLines.HintStartOf | ncu-viewer/server.js:125-136 | a hint starts with OPT or INF |
| ReportLines.HintLine | ncu-viewer/server.js:125 | a hint line is a hint start |
| ReportLines.WideRunFrom | ncu-viewer/server.js:110 | a cut of `\s{2,}` starts at two white-space characters |
| ReportLines.WideSplit | ncu-viewer/server.js:110 | `split(/\s{2,}/)` gives at least one part |
| ReportLines.StreamFound | ncu-viewer/server.js:55 | the search finds a match whose name ends at any later point |
| ReportLines.HeaderIsStreamLine | ncu-viewer/server.js:37-55 | a full kernel line also matches the pattern that ends a kernel |
| ReportLines.StreamIsContext | ncu-viewer/server.js:135 | the pattern up to `Stream` implies the one up to `Context` |
| ReportLines.StreamLineIsContextLine | ncu-viewer/server.js:135 | a line that ends a section also ends a hint |
| ReportParser.Continued | ncu-viewer/server.js:132-143 | the continuation loop never moves back |
| ReportParser.SectionFrom | ncu-viewer/server.js:72-150 | the section loop never moves back |
| ReportParser.KernelFrom | ncu-viewer/server.js:52-157 | the kernel loop never moves back |
| ReportParser.ReadContinuation | ncu-viewer/server.js:132-143 | the continuation loop gives the text and line its specification does |
| ReportParser.ReadSection | ncu-viewer/server.js:60-153 | the section loop gives the section and line its specification does |
| ReportParser.ReadKernel | ncu-viewer/server.js:50-157 | the kernel loop gives the sections and line its specification does |
| ReportParser.ReadNextLine | ncu-viewer/server.js:34-163 | one outer iteration strictly advances the line index and keeps the rest of the parse |
| ReportParser.ParseNcuOutput | ncu-viewer/server.js:28-167 | `parseNcuOutput` returns exactly the parse of its text |
| ReportProperties.HeadersOf | ncu-viewer/server.js:159 | the headers of the kernel records, one per kernel |
| ReportProperties.NotEndsHintIsQuiet | ncu-viewer/server.js:135 | a line a hint takes is no kernel line |
| ReportProperties.ContinuedIsQuiet | ncu-viewer/server.js:132-143 | a hint's continuation lines are never kernel lines |
| ReportProperties.SectionIsQuiet | ncu-viewer/server.js:72-150 | a section reads no kernel line |
| ReportProperties.KernelIsQuiet | ncu-viewer/server.js:52-157 | a kernel reads no kernel line and ends at the next one or at the end |
| ReportProperties.NoStreamNoHeader | ncu-viewer/server.js:37-55 | a line that does not match the looser pattern holds no header |
| ReportProperties.HeadersFromSkip | ncu-viewer/server.js:163 | a line that is no kernel header adds no header |
| ReportProperties.HeadersFromHere | ncu-viewer/server.js:38-48 | a kernel header line adds its header |
| ReportProperties.NoHeadersBy | ncu-viewer/server.js:52-157 | lines without a header add none |
| ReportProperties.QuietHasNoHeaders | ncu-viewer/server.js:52-157 | the lines a kernel reads hold no header |
| ReportProperties.KernelsFromHeaders | ncu-viewer/server.js:33-164 | the outer loop from any line adds one kernel per header line after it, in order |
| ReportProperties.KernelsFromHeaderLine | ncu-viewer/server.js:38-160 | at a header line the loop adds that kernel, then one per later header line |
| ReportProperties.HeadersOfSnoc | ncu-viewer/server.js:159 | pushing a kernel adds its header |
| ReportProperties.KernelsFollowHeaderLines | ncu-viewer/server.js:28-167 | the kernels' headers are exactly the full kernel header lines, in file order, one kernel each; a line that matches only the looser pattern starts none |
| ReportProperties.HeaderNameTrimmed | ncu-viewer/server.js:40 | a kernel record's name is trimmed |
| ReportProperties.ContinuedBy | ncu-viewer/server.js:132-143 | the continuation loop with its stop test and line text as parameters never moves back |
| ReportProperties.ContinuedIsContinuedBy | ncu-viewer/server.js:132-143 | the continuation loop is the general one with the source's stop test and `trim` |
| ReportProperties.ContinuedByText | ncu-viewer/server.js:141 | the text is the first text followed by `' ' + piece` of each line taken |
| ReportProperties.ContinuedByStops | ncu-viewer/server.js:134-140 | the loop takes every line before the first that passes the stop test |
| ReportProperties.ContinuedText | ncu-viewer/server.js:128-141 | a hint's text is its first line's trimmed text, then `' '` plus each continuation line trimmed |
| ReportProperties.ContinuedStopsAtFirstEnd | ncu-viewer/server.js:132-143 | continuation stops at the first blank, section, kernel, hint or dash line, or the end, and takes every line before it |
| ReportProperties.HintKinds | ncu-viewer/server.js:125-146 | every recorded hint is OPT or INF |
| ReportProperties.DashCycle | ncu-viewer/server.js:85-97 | the first dash line opens the table, the second keeps it open, the third closes it and resets the count |
| ReportProperties.NoDashNoMetrics | ncu-viewer/server.js:85-106 | without a dash line no table opens and no metric is recorded |
| ReportProperties.SpreadEnds | ncu-viewer/server.js:110 | columns laid out with gaps start with the first column and end with the last |
| ReportProperties.WideRunIs | ncu-viewer/server.js:110 | the first pair of white space characters is where the split cuts |
| ReportProperties.NarrowHasNoWideRun | ncu-viewer/server.js:110 | a string without two white space characters in a row is not cut |
| ReportProperties.SpaceRunIs | ncu-viewer/server.js:110 | a maximal white space run is what the cut removes |
| ReportProperties.WideSplitSpread | ncu-viewer/server.js:110 | splitting columns laid out with wide gaps gives the columns back |
| ReportProperties.WideSplitAt | ncu-viewer/server.js:110 | one cut of the split: the first part, then the split of what follows the run |
| ReportProperties.TrimmedIsFixed | ncu-viewer/server.js:115 | a trimmed string is its own trim |
| ReportProperties.JoinTrimmed | ncu-viewer/server.js:114-115 | columns joined with single spaces are trimmed and keep their ends |
| ReportProperties.MetricRowOfColumns | ncu-viewer/server.js:106-119 | a padded row of columns: 3 or more give value, unit and the rest joined with single spaces as name; 2 give no unit; 1 gives no metric |
| ReportProperties.MetricRowOfParts | ncu-viewer/server.js:111-119 | the same on a trimmed row by its parts |
| KernelList.IndexOfNamed | ncu-viewer/server.js:206-212 | `find` by name gives the first section or metric with that name, or none |
| KernelList.DurationOf | ncu-viewer/server.js:203-209 | the duration is empty exactly when the speed-of-light section or its Duration metric is missing, and otherwise is value, space, unit |
| KernelList.OnlyFirstSectionCounts | ncu-viewer/server.js:206-209 | only the first speed-of-light section is read |
| KernelList.TemplateFrom | ncu-viewer/server.js:219 | the first `<` after a word character with no line terminator after it, or none |
| KernelList.WordStart | ncu-viewer/server.js:219 | the start of the word-character run that ends at a point |
| KernelList.Shorten | ncu-viewer/server.js:221 | the shortened name has at most 60 characters or is the name |
| KernelList.SummaryNameBounded | ncu-viewer/server.js:217-221 | the short name never exceeds 60 characters |
| KernelList.ShortenKeepsPrefix | ncu-viewer/server.js:221 | names of 60 or fewer are kept; longer ones become their first 57 plus `...`; the result starts with the name |
| KernelList.TemplateNameIs | ncu-viewer/server.js:219-220 | the capture is the maximal word run right before the first `<` the pattern can end on |
| KernelList.WordStartIs | ncu-viewer/server.js:219 | a bounded word run is the one found |
| KernelList.NoTemplateKeepsName | ncu-viewer/server.js:219-221 | without a template match the name is only shortened |
| KernelList.TemplateNameShape | ncu-viewer/server.js:219-220 | the capture is a non-empty run of word characters |
| KernelList.Summaries | ncu-viewer/server.js:201-234 | one summary per kernel, in order, numbered from 0 |
| KernelList.SummariesFaithful | ncu-viewer/server.js:201-234 | every summary keeps the kernel's index and name, with a short name of at most 60 characters |
| ViewerHelpers.NameBeforeParen | src/app.js:369-371 | the cut is 'Unknown' or a prefix of the name, holding no `(` when the name does not start with one |
| ViewerHelpers.LastPieceStep | src/app.js:372-373 | the last piece is the last piece after the first separator |
| ViewerHelpers.LastPieceIsSuffix | src/app.js:372-373 | the last piece ends the string and holds no separator |
| ViewerHelpers.LastPieceAfterSeparator | src/app.js:372-373 | unless it is the whole string, the separator is right before the last piece |
| ViewerHelpers.ShortNameShape | src/app.js:369-373 | the short name never contains `::` and ends the part of the name before the `(` |
| ViewerHelpers.ShortNameOfEmpty | src/app.js:369 | a kernel without a name is 'Unknown' |
| ViewerHelpers.ShortNameHasNoParen | src/app.js:370-371 | a name that does not start with `(` loses everything from its first `(` on |
| ViewerHelpers.PlainNameIsShortName | src/app.js:369-373 | a name with no `(` and no `::` is its own short name |
| ViewerHelpers.DoubleQuotes | src/app.js:116 | doubling quotes never shortens the text |
| ViewerHelpers.UndoubleDouble | src/app.js:116 | reading doubled quotes as one gives the text back |
| ViewerHelpers.DoubledQuotesPair | src/app.js:116 | every quote inside the field is half of a doubled pair |
| ViewerHelpers.CsvCellRoundTrip | src/app.js:113-118 | reading the written cell gives the trimmed text back |
| ViewerHelpers.CsvCellPlainOrQuoted | src/app.js:113-118 | a trimmed cell without `,` or `"` is unchanged; any other is wrapped in quotes |
| ViewerHelpers.CompareConsistent | src/app.js:756-760 | the comparator is antisymmetric and a strict weak order; OPT first, then higher priority |
| ViewerHelpers.InsertHint | src/app.js:756-760 | one insertion adds one entry |
| ViewerHelpers.SortHints | src/app.js:756-760 | the sort keeps the number of hints |
| ViewerHelpers.InsertHintPermutes | src/app.js:756-760 | insertion adds exactly the entry |
| ViewerHelpers.SortHintsPermutes | src/app.js:756-760 | the sort is a permutation |
| ViewerHelpers.InsertHintNoneAbove | src/app.js:756-760 | insertion keeps a lower bound |
| ViewerHelpers.InsertHintSorted | src/app.js:756-760 | insertion keeps the hints sorted |
| ViewerHelpers.SortHintsSorted | src/app.js:756-760 | the sorted hints are in comparator order |
| ViewerHelpers.TiedWithAppend | src/app.js:756-760 | the tied entries of a concatenation are those of each part |
| ViewerHelpers.NoneTiedAfter | src/app.js:756-760 | an entry that sorts after x is tied with nothing tied with x |
| ViewerHelpers.InsertHintStable | src/app.js:756-760 | insertion keeps tied entries in their order |
| ViewerHelpers.SortHintsStable | src/app.js:756-760 | the sort is stable: tied entries keep their original order |
| ViewerHelpers.InsertHintShift | src/app.js:756-760 | one shift of the insertion loop |
| ViewerHelpers.InsertHintStop | src/app.js:756-760 | where the insertion loop stops |
| ViewerHelpers.SortHintsSnoc | src/app.js:756-760 | sorting one more entry is inserting it into the sorted prefix |
| ViewerHelpers.InsertInPlace | src/app.js:756-760 | the in-place step leaves the prefix as the insertion of the entry and the rest untouched |
| ViewerHelpers.SortHintsInPlace | src/app.js:756-760 | the array is sorted in place into the stable sort of its old contents |
| ViewerHelpers.CountKind | src/app.js:763-764 | a count is at most the number of hints |
| ViewerHelpers.CountsBounded | src/app.js:763-764 | the OPT and INF counts add up to at most the number of hints |
| ViewerHelpers.CountKindSplit | src/app.js:763-764 | a count adds up over concatenation |
| ViewerHelpers.InsertHintCounts | src/app.js:763-764 | insertion keeps each count |
| ViewerHelpers.SortKeepsCounts | src/app.js:756-764 | sorting leaves both counts alone |
| ViewerState.KernelAt | src/app.js:506-509 | the kernel at a pair of indices exists exactly when both are in range |
| ViewerState.Without | src/app.js:466-468 | filtering never lengthens the list |
| ViewerState.InComparisonIff | src/app.js:63-67 | `isInComparison` is true exactly when some entry matches both indices |
| ViewerState.WithoutRemovesExactly | src/app.js:466-468 | removal drops that kernel and keeps every other entry |
| ViewerState.InComparisonAppend | src/app.js:63-67 | membership of a concatenation is membership of either part |
| ViewerState.WithoutKeepsOrder | src/app.js:466-468 | removal keeps the others in order |
| ViewerState.WithoutShrinksByOne | src/app.js:466-468 | in a list without repeats, removing a listed kernel shortens it by one |
| ViewerState.WithoutNothing | src/app.js:466-468 | removing an unlisted kernel changes nothing |
| ViewerState.WithoutDistinct | src/app.js:466-468 | removal keeps a list without repeats |
| ViewerState.App.constructor | src/app.js:10-18 | the initial state: no active kernel, no baseline, no comparison |
| ViewerState.App.ToggleCompareMode | src/app.js:34-61 | the mode flips; leaving empties the list; entering adds the active kernel once if it is not listed; nothing else changes |
| ViewerState.App.SelectKernel | src/app.js:460-488 | in compare mode a file index out of range throws a TypeError, a listed kernel is removed, and an unlisted one throws a ReferenceError below four entries and alerts at four, leaving the list alone; outside compare mode the kernel becomes active |
| ViewerState.App.ToggleBaseline | src/app.js:186-204 | the baseline is cleared when it is the active kernel, and otherwise set to the active kernel if there is one |

## Left out

- `NcuParser.transformResult` and `_metricMap` come from `./ncu-parser.js`, which is not part of this model. They are function parameters of `Container.ParseFile`, with `truthy` and `show` parameters standing for JavaScript's truthiness and string conversion of the map's values.
- The protobufjs `Reader` is not modelled itself. Its reads follow the Protocol Buffers encoding rules: varints of at most ten bytes, little-endian fixed words, and an error when a read overruns.
- `TextDecoder` is restricted to ASCII. A byte of 0x80 or more decodes to U+FFFD, where real UTF-8 may join several bytes into one character. String lengths are counted in code points, not UTF-16 units.
- Float32 and float64 values are kept as raw bit patterns, because IEEE-754 arithmetic is not modelled.
- `Number()` of a 64-bit value is the exact integer, because precision loss above 2^53 is not modelled. The `parseInt` of the context, stream and device captures is their exact decimal value.
- Console logging and `onProgress` are side effects only, and are not modelled. Where logging reads a field and throws, the throw is kept.
- The Express routing, multer upload, the `ncu` command, file cleanup and cache expiry of `ncu-viewer/server.js` are I/O, and are not modelled. `parseNcuOutput` takes the command's output as its argument.
- DOM rendering, alerts, downloads and file upload in `src/app.js` are UI, and are not modelled. An alert is an outcome of `ViewerState.App.SelectKernel`.
- `extractPriority` uses regular expressions and `parseFloat`, and is not modelled. A hint's priority is an input.
- `ViewerHelpers.SortHintsInPlace`: `Array.prototype.sort` does not fix its algorithm, so the model uses an insertion sort. Because the sort is stable and the comparator is a strict weak order, any stable sort gives the same result.
- `ViewerState.App.SelectKernel`: the alert dialog itself and the re-rendering after a change are not modelled; the alert's message is the outcome.
- `Schema.MetricValueOf`: the model assumes protobufjs is built with `Long` support, so `uint64()` and `fixed64()` return `Long` objects and the double branch combines their `low` and `high` words. Without `Long` those reads return Numbers, and the double branch throws a TypeError for every double metric. `SchemaProperties.DoubleMetricRoundTrip` and the `uint64()` reads taken modulo 2^64 rest on the same assumption.
