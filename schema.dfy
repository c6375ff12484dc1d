/** The schema projections of the `.ncu-rep` reader: each message type of the report is
    read out of the generic field map by fixed field numbers, with a default for every
    field that is absent. They follow the JavaScript closely in three respects:
    - a field that is present but holds an empty list (an unknown wire type, or a value
      whose read failed) makes `fields[n][0].…` a TypeError;
    - a nested message is decoded only when its blob passed the text heuristic, because
      only that form carries `.bytes`; `decodeMetricResult` alone also takes a bare blob;
    - a number is what `Number()` makes of the stored value. */
module Schema {
  import opened Wrappers
  import opened Wire

  /** What `Number()` yields: a non-negative integer, or NaN. */
  datatype Num = Finite(n: nat) | NaN {
    /** JavaScript truthiness of a number: 0 and NaN are falsy. */
    predicate Truthy() {
      Finite? && n != 0
    }
  }

  /** `Number(v)` for a stored value. A 64-bit reader result and a fixed32 are their
      numeric value. A bare byte array converts through its comma-joined text: empty is
      0, one byte is that byte, more is NaN. The `{bytes, string}` wrapper is NaN. */
  function ToNumber(v: Value): (r: Num)
    ensures v.Text? ==> r.NaN?
    ensures v.Bytes? ==> (r.Finite? <==> |v.b| <= 1)
  {
    match v
    case Varint(n) => Finite(n)
    case Fixed64(n) => Finite(n)
    case Fixed32(n) => Finite(n)
    case Bytes(b) => if |b| == 0 then Finite(0) else if |b| == 1 then Finite(b[0]) else NaN
    case Text(_, _) => NaN
  }

  /** ECMAScript ToUint32, as `DataView.setUint32` applies it. */
  function ToUint32(x: Num): (r: nat)
    ensures r < TWO_32
    ensures x.Finite? && x.n < TWO_32 ==> r == x.n
  {
    match x
    case NaN => 0
    case Finite(n) => n % TWO_32
  }

  /** `fields[k] ? fields[k][0] : (absent)`. An empty list is truthy, so its missing first
      entry is read, which throws. */
  function First(f: Fields, k: nat): (r: Result<Option<Value>, Error>)
    ensures r.Failure? <==> k in f && f[k] == []
    ensures r.Success? && r.value.Some? ==> k in f && r.value.value == f[k][0]
    ensures r.Success? && r.value.None? ==> k !in f
  {
    if k !in f then Success(None)
    else if f[k] == [] then Failure(TypeError)
    else Success(Some(f[k][0]))
  }

  /** `fields[k] ? Number(fields[k][0].value) : 0`. */
  function NumberField(f: Fields, k: nat): Result<Num, Error> {
    var v :- First(f, k);
    Success(if v.Some? then ToNumber(v.value) else Finite(0))
  }

  /** `fields[k] && fields[k][0].valueType === 'string' ? fields[k][0].value.string : ''`. */
  function StringField(f: Fields, k: nat): Result<string, Error> {
    var v :- First(f, k);
    Success(if v.Some? && v.value.Text? then v.value.s else "")
  }

  /** `fields[k] && fields[k][0].value.bytes`: the blob of the first entry, when that entry
      is the text wrapper. */
  function NestedBlob(f: Fields, k: nat): Result<Option<seq<byte>>, Error> {
    var v :- First(f, k);
    Success(if v.Some? && v.value.Text? then Some(v.value.b) else None)
  }

  /** The first entry under `k` exists and is the text wrapper. */
  predicate FirstIsText(f: Fields, k: nat) {
    k in f && f[k] != [] && f[k][0].Text?
  }

  /** The list under `k`, or nothing when `k` is absent. */
  function ListOf(f: Fields, k: nat): seq<Value> {
    if k in f then f[k] else []
  }

  /** `list.forEach(f => { if (f.value.bytes) … })`: the blobs of the text-wrapped entries,
      in order. */
  function TextBlobs(vs: seq<Value>): (r: seq<seq<byte>>)
    ensures |r| <= |vs|
    decreases |vs|
  {
    if vs == [] then []
    else (if vs[0].Text? then [vs[0].b] else []) + TextBlobs(vs[1..])
  }

  /** The text of the text-wrapped entries, in order. */
  function TextStrings(vs: seq<Value>): (r: seq<string>)
    ensures |r| <= |vs|
    decreases |vs|
  {
    if vs == [] then []
    else (if vs[0].Text? then [vs[0].s] else []) + TextStrings(vs[1..])
  }

  /** Decoding every blob in order and collecting the results, where the first decoder
      that throws ends the whole `forEach`. */
  function DecodeEach<T>(blobs: seq<seq<byte>>, decode: seq<byte> -> Result<T, Error>): (r: Result<seq<T>, Error>)
    ensures r.Success? ==> |r.value| == |blobs|
    ensures r.Success? ==> forall i :: 0 <= i < |blobs| ==> decode(blobs[i]) == Success(r.value[i])
    ensures r.Failure? ==> exists i :: 0 <= i < |blobs| && decode(blobs[i]) == Failure(r.error)
                             && forall j :: 0 <= j < i ==> decode(blobs[j]).Success?
    decreases |blobs|
  {
    if blobs == [] then Success([])
    else
      var head :- decode(blobs[0]);
      var tail :- DecodeEach(blobs[1..], decode);
      Success([head] + tail)
  }

  /** Some field number holds an empty list; the logging that reads `fieldData[0]` for
      every field then throws. */
  predicate HasEmptyList(f: Fields) {
    exists k :: k in f && f[k] == []
  }

  // ----- message types -----

  datatype Uint64x3 = Uint64x3(x: Num, y: Num, z: Num)

  const ZeroUint64x3 := Uint64x3(Finite(0), Finite(0), Finite(0))

  datatype MetricValue =
    | StringValue(s: string)
    | FloatBits(bits: nat)     // the fixed32 pattern given to getFloat32
    | DoubleBits(bits: nat)    // the 64-bit pattern given to getFloat64
    | Uint32Value(n: Num)
    | Uint64Value(n: Num)
    | NoValue                  // null

  datatype MetricResult = MetricResult(nameId: Num, value: MetricValue)

  datatype SourceLocator = SourceLocator(lineNumber: Num, filePathId: Num, filePath: string)

  /** `address` is the stored first value of field 1, or `None` for the `0n` default. */
  datatype SourceLine = SourceLine(address: Option<Value>, sass: string, ptx: string, locator: Option<SourceLocator>)

  /** `label` of the source. */
  datatype SectionMetric = SectionMetric(name: string, shownLabel: string)

  datatype SectionHeader = SectionHeader(metrics: seq<SectionMetric>)

  datatype Section = Section(identifier: string, displayName: string, order: Num, header: Option<SectionHeader>)

  datatype RuleResultMessage = RuleResultMessage(message: string, kind: Num)

  datatype RuleResultBodyItem = RuleResultBodyItem(message: Option<RuleResultMessage>)

  datatype RuleResultBody = RuleResultBody(items: seq<RuleResultBodyItem>)

  datatype RuleResult = RuleResult(identifier: string, displayName: string, sectionIdentifier: string, body: Option<RuleResultBody>)

  datatype BlockHeader = BlockHeader(numSources: Num, numResults: Num, payloadSize: Num, numRangeResults: Num, stringTable: seq<string>)

  datatype FileHeader = FileHeader(version: Num)

  datatype ProfileResult = ProfileResult(
    kernelMangledName: string,
    kernelFunctionName: string,
    kernelDemangledName: string,
    grid: Uint64x3,
    block: Uint64x3,
    contextId: Num,
    streamId: Num,
    sourceLines: seq<SourceLine>,
    metricResults: seq<MetricResult>,
    sections: seq<Section>,
    ruleResults: seq<RuleResult>,
    allFields: Fields)

  // ----- projections -----

  /** `getBytes`: the blob behind a stored value, whether text-wrapped or bare. */
  function GetBytes(v: Value): (r: Option<seq<byte>>)
    ensures r.Some? <==> v.Text? || v.Bytes?
    ensures r.Some? ==> r.value == v.b
  {
    match v
    case Text(b, _) => Some(b)
    case Bytes(b) => Some(b)
    case _ => None
  }

  /** `decodeMetricValue` on an already decoded field map: the first of fields 1 to 5
      that is present decides, field 1 only when it is text. */
  function MetricValueOf(f: Fields): (r: Result<MetricValue, Error>)
    ensures FirstIsText(f, 1) ==> r == Success(StringValue(f[1][0].s))
    ensures r.Success? && r.value.StringValue? ==> FirstIsText(f, 1) && r.value.s == f[1][0].s
    ensures r.Success? && r.value.FloatBits? ==> 2 in f && r.value.bits < TWO_32
    ensures r.Success? && r.value.DoubleBits? ==> 3 in f && 2 !in f && r.value.bits < TWO_64
    ensures r.Success? && r.value.Uint32Value? ==> 4 in f && 2 !in f && 3 !in f
    ensures r.Success? && r.value.Uint64Value? ==> 5 in f && 2 !in f && 3 !in f && 4 !in f
    ensures r == Success(NoValue) <==> !(2 in f || 3 in f || 4 in f || 5 in f) && (1 in f ==> f[1] != [] && !f[1][0].Text?)
  {
    var first :- First(f, 1);
    if first.Some? && first.value.Text? then Success(StringValue(first.value.s))
    else if 2 in f then
      var bits :- NumberField(f, 2);
      Success(FloatBits(ToUint32(bits)))
    else if 3 in f then
      var v :- First(f, 3);
      match v.value
      case Varint(n) => Success(DoubleBits(n % TWO_64))
      case Fixed64(n) => Success(DoubleBits(n % TWO_64))
      case _ => Failure(TypeError)   // a Number or a byte array mixed with BigInt operands
    else if 4 in f then
      var n :- NumberField(f, 4);
      Success(Uint32Value(n))
    else if 5 in f then
      var n :- NumberField(f, 5);
      Success(Uint64Value(n))
    else
      Success(NoValue)
  }

  function DecodeMetricValue(buffer: seq<byte>): Result<MetricValue, Error> {
    var f :- Decode(buffer);
    MetricValueOf(f)
  }

  function MetricResultOf(f: Fields): Result<MetricResult, Error> {
    var nameId :- NumberField(f, 1);
    var v :- First(f, 2);
    var blob := if v.Some? then GetBytes(v.value) else None;
    var value :- if blob.Some? then DecodeMetricValue(blob.value) else Success(NoValue);
    Success(MetricResult(nameId, value))
  }

  function DecodeMetricResult(buffer: seq<byte>): Result<MetricResult, Error> {
    var f :- Decode(buffer);
    MetricResultOf(f)
  }

  function Uint64x3Of(f: Fields): Result<Uint64x3, Error> {
    var x :- NumberField(f, 1);
    var y :- NumberField(f, 2);
    var z :- NumberField(f, 3);
    Success(Uint64x3(x, y, z))
  }

  function DecodeUint64x3(buffer: seq<byte>): Result<Uint64x3, Error> {
    var f :- Decode(buffer);
    Uint64x3Of(f)
  }

  function SourceLocatorOf(f: Fields): (r: Result<SourceLocator, Error>)
    ensures r.Success? ==> NumberField(f, 2) == Success(r.value.lineNumber) && NumberField(f, 3) == Success(r.value.filePathId)
    ensures r.Success? ==> StringField(f, 4) == Success(r.value.filePath)
    ensures r.Failure? <==> (2 in f && f[2] == []) || (3 in f && f[3] == []) || (4 in f && f[4] == [])
  {
    var lineNumber :- NumberField(f, 2);
    var filePathId :- NumberField(f, 3);
    var filePath :- StringField(f, 4);
    Success(SourceLocator(lineNumber, filePathId, filePath))
  }

  function DecodeSourceLocator(buffer: seq<byte>): Result<SourceLocator, Error> {
    var f :- Decode(buffer);
    SourceLocatorOf(f)
  }

  /** `decodeSourceLine`; with `logDetail` the field listing reads every field's first
      entry. */
  function SourceLineOf(f: Fields, logDetail: bool): (r: Result<SourceLine, Error>)
    ensures logDetail && HasEmptyList(f) ==> r == Failure(TypeError)
    ensures r.Success? ==> First(f, 1) == Success(r.value.address)
    ensures r.Success? ==> StringField(f, 2) == Success(r.value.sass) && StringField(f, 3) == Success(r.value.ptx)
    ensures r.Success? ==> (r.value.locator.Some? <==> FirstIsText(f, 5))
    ensures r.Success? && FirstIsText(f, 5) ==> DecodeSourceLocator(f[5][0].b) == Success(r.value.locator.value)
  {
    if logDetail && HasEmptyList(f) then Failure(TypeError)
    else
      var address :- First(f, 1);
      var sass :- StringField(f, 2);
      var ptx :- StringField(f, 3);
      var blob :- NestedBlob(f, 5);
      var locator :- if blob.Some? then var l :- DecodeSourceLocator(blob.value); Success(Some(l)) else Success(None);
      Success(SourceLine(address, sass, ptx, locator))
  }

  function DecodeSourceLine(buffer: seq<byte>, logDetail: bool): Result<SourceLine, Error> {
    var f :- Decode(buffer);
    SourceLineOf(f, logDetail)
  }

  function SectionMetricOf(f: Fields): Result<SectionMetric, Error> {
    var name :- StringField(f, 1);
    var given :- StringField(f, 2);
    Success(SectionMetric(name, if given == "" then name else given))
  }

  function DecodeSectionMetric(buffer: seq<byte>): Result<SectionMetric, Error> {
    var f :- Decode(buffer);
    SectionMetricOf(f)
  }

  function SectionHeaderOf(f: Fields): (r: Result<SectionHeader, Error>)
    ensures r.Success? ==> |r.value.metrics| == |TextBlobs(ListOf(f, 2))|
    ensures r.Success? ==> forall i :: 0 <= i < |r.value.metrics| ==>
      DecodeSectionMetric(TextBlobs(ListOf(f, 2))[i]) == Success(r.value.metrics[i])
  {
    var metrics :- DecodeEach(TextBlobs(ListOf(f, 2)), DecodeSectionMetric);
    Success(SectionHeader(metrics))
  }

  function DecodeSectionHeader(buffer: seq<byte>): Result<SectionHeader, Error> {
    var f :- Decode(buffer);
    SectionHeaderOf(f)
  }

  function SectionOf(f: Fields): (r: Result<Section, Error>)
    ensures r.Success? ==> StringField(f, 1) == Success(r.value.identifier) && StringField(f, 2) == Success(r.value.displayName)
    ensures r.Success? ==> NumberField(f, 3) == Success(r.value.order)
    ensures r.Success? ==> (r.value.header.Some? <==> FirstIsText(f, 4))
    ensures r.Success? && FirstIsText(f, 4) ==> DecodeSectionHeader(f[4][0].b) == Success(r.value.header.value)
  {
    var identifier :- StringField(f, 1);
    var displayName :- StringField(f, 2);
    var order :- NumberField(f, 3);
    var blob :- NestedBlob(f, 4);
    var header :- if blob.Some? then var h :- DecodeSectionHeader(blob.value); Success(Some(h)) else Success(None);
    Success(Section(identifier, displayName, order, header))
  }

  function DecodeSection(buffer: seq<byte>): Result<Section, Error> {
    var f :- Decode(buffer);
    SectionOf(f)
  }

  function RuleResultMessageOf(f: Fields): (r: Result<RuleResultMessage, Error>)
    ensures r.Success? ==> StringField(f, 1) == Success(r.value.message) && NumberField(f, 2) == Success(r.value.kind)
    ensures r.Failure? <==> (1 in f && f[1] == []) || (2 in f && f[2] == [])
  {
    var message :- StringField(f, 1);
    var kind :- NumberField(f, 2);
    Success(RuleResultMessage(message, kind))
  }

  function DecodeRuleResultMessage(buffer: seq<byte>): Result<RuleResultMessage, Error> {
    var f :- Decode(buffer);
    RuleResultMessageOf(f)
  }

  function RuleResultBodyItemOf(f: Fields): (r: Result<RuleResultBodyItem, Error>)
    ensures r.Success? ==> (r.value.message.Some? <==> FirstIsText(f, 1))
    ensures r.Success? && FirstIsText(f, 1) ==> DecodeRuleResultMessage(f[1][0].b) == Success(r.value.message.value)
  {
    var blob :- NestedBlob(f, 1);
    var message :- if blob.Some? then var m :- DecodeRuleResultMessage(blob.value); Success(Some(m)) else Success(None);
    Success(RuleResultBodyItem(message))
  }

  function DecodeRuleResultBodyItem(buffer: seq<byte>): Result<RuleResultBodyItem, Error> {
    var f :- Decode(buffer);
    RuleResultBodyItemOf(f)
  }

  function RuleResultBodyOf(f: Fields): (r: Result<RuleResultBody, Error>)
    ensures r.Success? ==> |r.value.items| == |TextBlobs(ListOf(f, 1))|
    ensures r.Success? ==> forall i :: 0 <= i < |r.value.items| ==>
      DecodeRuleResultBodyItem(TextBlobs(ListOf(f, 1))[i]) == Success(r.value.items[i])
  {
    var items :- DecodeEach(TextBlobs(ListOf(f, 1)), DecodeRuleResultBodyItem);
    Success(RuleResultBody(items))
  }

  function DecodeRuleResultBody(buffer: seq<byte>): Result<RuleResultBody, Error> {
    var f :- Decode(buffer);
    RuleResultBodyOf(f)
  }

  /** `decodeRuleResult`: fields 1, 2 and 4 are read before the body in field 3. */
  function RuleResultOf(f: Fields): (r: Result<RuleResult, Error>)
    ensures r.Success? ==> StringField(f, 1) == Success(r.value.identifier) && StringField(f, 2) == Success(r.value.displayName)
    ensures r.Success? ==> StringField(f, 4) == Success(r.value.sectionIdentifier)
    ensures r.Success? ==> (r.value.body.Some? <==> FirstIsText(f, 3))
    ensures r.Success? && FirstIsText(f, 3) ==> DecodeRuleResultBody(f[3][0].b) == Success(r.value.body.value)
  {
    var identifier :- StringField(f, 1);
    var displayName :- StringField(f, 2);
    var sectionIdentifier :- StringField(f, 4);
    var blob :- NestedBlob(f, 3);
    var body :- if blob.Some? then var b :- DecodeRuleResultBody(blob.value); Success(Some(b)) else Success(None);
    Success(RuleResult(identifier, displayName, sectionIdentifier, body))
  }

  function DecodeRuleResult(buffer: seq<byte>): Result<RuleResult, Error> {
    var f :- Decode(buffer);
    RuleResultOf(f)
  }

  /** `decodeStringTable`: the text-classified entries of field 1, in order. */
  function DecodeStringTable(buffer: seq<byte>): Result<seq<string>, Error> {
    var f :- Decode(buffer);
    Success(TextStrings(ListOf(f, 1)))
  }

  function BlockHeaderOf(f: Fields): (r: Result<BlockHeader, Error>)
    ensures r.Success? ==> NumberField(f, 1) == Success(r.value.numSources) && NumberField(f, 2) == Success(r.value.numResults)
    ensures r.Success? ==> NumberField(f, 5) == Success(r.value.payloadSize) && NumberField(f, 7) == Success(r.value.numRangeResults)
    ensures r.Success? && !FirstIsText(f, 4) ==> r.value.stringTable == []
    ensures r.Success? && FirstIsText(f, 4) ==> DecodeStringTable(f[4][0].b) == Success(r.value.stringTable)
  {
    var numSources :- NumberField(f, 1);
    var numResults :- NumberField(f, 2);
    var payloadSize :- NumberField(f, 5);
    var numRangeResults :- NumberField(f, 7);
    var blob :- NestedBlob(f, 4);
    var stringTable :- if blob.Some? then DecodeStringTable(blob.value) else Success([]);
    Success(BlockHeader(numSources, numResults, payloadSize, numRangeResults, stringTable))
  }

  function DecodeBlockHeader(buffer: seq<byte>): Result<BlockHeader, Error> {
    var f :- Decode(buffer);
    BlockHeaderOf(f)
  }

  function DecodeFileHeader(buffer: seq<byte>): Result<FileHeader, Error> {
    var f :- Decode(buffer);
    var version :- NumberField(f, 1);
    Success(FileHeader(version))
  }

  /** The source lines of field 12: every text-wrapped entry is decoded, and the one at
      position 0 of the list (if it is text-wrapped) with the field listing switched on. */
  function SourceLinesFrom(vs: seq<Value>, index: nat): (r: Result<seq<SourceLine>, Error>)
    ensures r.Success? ==> |r.value| == |TextBlobs(vs)|
    decreases |vs|
  {
    if vs == [] then Success([])
    else
      var head :- if vs[0].Text? then var l :- DecodeSourceLine(vs[0].b, index == 0); Success([l]) else Success([]);
      var tail :- SourceLinesFrom(vs[1..], index + 1);
      Success(head + tail)
  }

  /** One step of `SourceLinesFrom`: a text-wrapped first entry contributes its own line
      in front of the rest, any other first entry nothing. */
  lemma SourceLinesFromCons(vs: seq<Value>, index: nat)
    requires vs != [] && SourceLinesFrom(vs, index).Success?
    ensures SourceLinesFrom(vs[1..], index + 1).Success?
    ensures vs[0].Text? ==>
      DecodeSourceLine(vs[0].b, index == 0).Success? &&
      SourceLinesFrom(vs, index).value == [DecodeSourceLine(vs[0].b, index == 0).value] + SourceLinesFrom(vs[1..], index + 1).value
    ensures !vs[0].Text? ==> SourceLinesFrom(vs, index).value == SourceLinesFrom(vs[1..], index + 1).value
    ensures TextBlobs(vs) == (if vs[0].Text? then [vs[0].b] else []) + TextBlobs(vs[1..])
  {
  }

  /** Source line `i` is the decoding of the `i`-th text-wrapped entry; only the entry at
      list position 0 is decoded with the field listing. */
  lemma {:induction false} SourceLineAt(vs: seq<Value>, index: nat, i: nat)
    requires SourceLinesFrom(vs, index).Success? && i < |SourceLinesFrom(vs, index).value|
    ensures DecodeSourceLine(TextBlobs(vs)[i], index == 0 && i == 0 && vs[0].Text?) == Success(SourceLinesFrom(vs, index).value[i])
    decreases |vs|
  {
    SourceLinesFromCons(vs, index);
    var lines := SourceLinesFrom(vs, index).value;
    var rest := SourceLinesFrom(vs[1..], index + 1).value;
    var restBlobs := TextBlobs(vs[1..]);
    if vs[0].Text? && i == 0 {
      assert lines[0] == DecodeSourceLine(vs[0].b, index == 0).value && TextBlobs(vs)[0] == vs[0].b;
    } else if vs[0].Text? {
      SourceLineAt(vs[1..], index + 1, i - 1);
      assert DecodeSourceLine(restBlobs[i - 1], false) == Success(rest[i - 1]);
      assert lines[i] == rest[i - 1] && TextBlobs(vs)[i] == restBlobs[i - 1];
    } else {
      SourceLineAt(vs[1..], index + 1, i);
      assert DecodeSourceLine(restBlobs[i], false) == Success(rest[i]);
      assert lines == rest && TextBlobs(vs) == restBlobs;
    }
  }

  function OptionalUint64x3(blob: Option<seq<byte>>): Result<Uint64x3, Error> {
    if blob.Some? then DecodeUint64x3(blob.value) else Success(ZeroUint64x3)
  }

  /** The four repeated fields of a profile result, decoded in the order the source reads
      them. */
  datatype ProfileLists = ProfileLists(sourceLines: seq<SourceLine>, metricResults: seq<MetricResult>,
                                       sections: seq<Section>, ruleResults: seq<RuleResult>)

  /** Fields 12, 13, 17 and 19: every text-wrapped entry is decoded, the rest are skipped,
      and the first decoder that throws ends the whole profile result. */
  function ProfileListsOf(f: Fields): (r: Result<ProfileLists, Error>)
    ensures r.Success? ==> |r.value.sourceLines| == |TextBlobs(ListOf(f, 12))|
    ensures r.Success? ==> SourceLinesFrom(ListOf(f, 12), 0) == Success(r.value.sourceLines)
    ensures r.Success? ==> |r.value.metricResults| == |TextBlobs(ListOf(f, 13))|
    ensures r.Success? ==> forall i :: 0 <= i < |r.value.metricResults| ==>
      DecodeMetricResult(TextBlobs(ListOf(f, 13))[i]) == Success(r.value.metricResults[i])
    ensures r.Success? ==> |r.value.sections| == |TextBlobs(ListOf(f, 17))|
    ensures r.Success? ==> forall i :: 0 <= i < |r.value.sections| ==>
      DecodeSection(TextBlobs(ListOf(f, 17))[i]) == Success(r.value.sections[i])
    ensures r.Success? ==> |r.value.ruleResults| == |TextBlobs(ListOf(f, 19))|
    ensures r.Success? ==> forall i :: 0 <= i < |r.value.ruleResults| ==>
      DecodeRuleResult(TextBlobs(ListOf(f, 19))[i]) == Success(r.value.ruleResults[i])
  {
    var sourceLines :- SourceLinesFrom(ListOf(f, 12), 0);
    var metricResults :- DecodeEach(TextBlobs(ListOf(f, 13)), DecodeMetricResult);
    var sections :- DecodeEach(TextBlobs(ListOf(f, 17)), DecodeSection);
    var ruleResults :- DecodeEach(TextBlobs(ListOf(f, 19)), DecodeRuleResult);
    Success(ProfileLists(sourceLines, metricResults, sections, ruleResults))
  }

  /** `decodeProfileResult` on an already decoded field map. */
  function ProfileResultOf(f: Fields, logUnknown: bool): (r: Result<ProfileResult, Error>)
    ensures r.Success? ==> r.value.allFields == f
    ensures r.Success? ==>
      ProfileListsOf(f) == Success(ProfileLists(r.value.sourceLines, r.value.metricResults, r.value.sections, r.value.ruleResults))
    ensures r.Success? ==> |r.value.sourceLines| == |TextBlobs(ListOf(f, 12))|
    ensures r.Success? ==> |r.value.metricResults| == |TextBlobs(ListOf(f, 13))|
    ensures r.Success? ==> |r.value.sections| == |TextBlobs(ListOf(f, 17))|
    ensures r.Success? ==> |r.value.ruleResults| == |TextBlobs(ListOf(f, 19))|
    ensures r.Success? ==> StringField(f, 5) == Success(r.value.kernelMangledName)
    ensures r.Success? ==> StringField(f, 6) == Success(r.value.kernelFunctionName)
    ensures r.Success? ==> StringField(f, 7) == Success(r.value.kernelDemangledName)
    ensures r.Success? ==> NumberField(f, 22) == Success(r.value.contextId) && NumberField(f, 23) == Success(r.value.streamId)
    ensures r.Success? && !FirstIsText(f, 10) ==> r.value.grid == ZeroUint64x3
    ensures r.Success? && !FirstIsText(f, 11) ==> r.value.block == ZeroUint64x3
    ensures r.Success? && FirstIsText(f, 10) ==> DecodeUint64x3(f[10][0].b) == Success(r.value.grid)
    ensures r.Success? && FirstIsText(f, 11) ==> DecodeUint64x3(f[11][0].b) == Success(r.value.block)
    ensures logUnknown && HasEmptyList(f) ==> r == Failure(TypeError)
  {
    if logUnknown && HasEmptyList(f) then Failure(TypeError)
    else
      var mangled :- StringField(f, 5);
      var functionName :- StringField(f, 6);
      var demangled :- StringField(f, 7);
      var gridBlob :- NestedBlob(f, 10);
      var grid :- OptionalUint64x3(gridBlob);
      var blockBlob :- NestedBlob(f, 11);
      var block :- OptionalUint64x3(blockBlob);
      var contextId :- NumberField(f, 22);
      var streamId :- NumberField(f, 23);
      var lists :- ProfileListsOf(f);
      Success(ProfileResult(mangled, functionName, demangled, grid, block, contextId, streamId,
                            lists.sourceLines, lists.metricResults, lists.sections, lists.ruleResults, f))
  }

  function DecodeProfileResult(buffer: seq<byte>, logUnknown: bool): Result<ProfileResult, Error> {
    var f :- Decode(buffer);
    ProfileResultOf(f, logUnknown)
  }
}
