/** What the schema projections give back for messages built with the encoder: numbers and
    strings come from the first record of their field number, each metric value kind is
    recovered from the field that encodes it, and a string table of printable strings
    reads back unchanged. The text heuristic has a consequence worth stating on its own:
    an encoded `Uint64x3` never looks like text, so the grid and block of a profile result
    always keep their `{0, 0, 0}` default. */
module SchemaProperties {
  import opened Wrappers
  import opened Wire
  import opened WireEncode
  import opened Schema

  /** The payload of the first record numbered `k`. */
  function FirstPayload(rs: seq<Record>, k: nat): (r: Option<Payload>)
    ensures r.Some? <==> Mentions(rs, k)
    decreases |rs|
  {
    if rs == [] then None
    else
      MentionsCons(rs, k);
      if rs[0].field == k then Some(rs[0].payload) else FirstPayload(rs[1..], k)
  }

  /** `fields[k] ? Number(fields[k][0].value) : 0` on the records themselves. */
  function NumberOf(rs: seq<Record>, k: nat): Num {
    match FirstPayload(rs, k)
    case None => Finite(0)
    case Some(p) => ToNumber(Decoded(p))
  }

  lemma {:induction false} ValuesOfStartsWithFirst(rs: seq<Record>, k: nat)
    requires Mentions(rs, k)
    ensures ValuesOf(rs, k) != [] && ValuesOf(rs, k)[0] == Decoded(FirstPayload(rs, k).value)
    decreases |rs|
  {
    MentionsCons(rs, k);
    if rs[0].field != k {
      ValuesOfStartsWithFirst(rs[1..], k);
    }
  }

  /** In an encoded message, the first entry of field `k` is the first record numbered `k`,
      and no field holds an empty list. */
  lemma FirstEntryOfEncoding(rs: seq<Record>, k: nat)
    requires AllCanonical(rs)
    ensures Decode(EncodeRecords(rs)).Success?
    ensures k in Decode(EncodeRecords(rs)).value <==> FirstPayload(rs, k).Some?
    ensures FirstPayload(rs, k).Some? ==>
      Decode(EncodeRecords(rs)).value[k] != [] &&
      Decode(EncodeRecords(rs)).value[k][0] == Decoded(FirstPayload(rs, k).value)
  {
    FieldsInWriteOrder(rs, k);
    if Mentions(rs, k) {
      ValuesOfStartsWithFirst(rs, k);
    }
  }

  lemma NumberFieldOfEncoding(rs: seq<Record>, k: nat)
    requires AllCanonical(rs)
    ensures Decode(EncodeRecords(rs)).Success?
    ensures NumberField(Decode(EncodeRecords(rs)).value, k) == Success(NumberOf(rs, k))
  {
    FirstEntryOfEncoding(rs, k);
  }

  /** `decodeUint64x3` reads each coordinate from the first record of its field, and 0
      when there is none. */
  lemma Uint64x3OfEncoding(rs: seq<Record>)
    requires AllCanonical(rs)
    ensures DecodeUint64x3(EncodeRecords(rs)) == Success(Uint64x3(NumberOf(rs, 1), NumberOf(rs, 2), NumberOf(rs, 3)))
  {
    NumberFieldOfEncoding(rs, 1);
    NumberFieldOfEncoding(rs, 2);
    NumberFieldOfEncoding(rs, 3);
  }

  function Uint64x3Records(x: nat, y: nat, z: nat): seq<Record> {
    [Record(1, PVarint(x)), Record(2, PVarint(y)), Record(3, PVarint(z))]
  }

  /** Round trip of a coordinate triple. */
  lemma Uint64x3RoundTrip(x: nat, y: nat, z: nat)
    requires x < TWO_64 && y < TWO_64 && z < TWO_64
    ensures DecodeUint64x3(EncodeRecords(Uint64x3Records(x, y, z))) == Success(Uint64x3(Finite(x), Finite(y), Finite(z)))
  {
    var rs := Uint64x3Records(x, y, z);
    assert AllCanonical(rs);
    Uint64x3OfEncoding(rs);
    assert rs[1..] == [Record(2, PVarint(y)), Record(3, PVarint(z))];
    assert rs[1..][1..] == [Record(3, PVarint(z))];
    assert FirstPayload(rs, 1) == Some(PVarint(x));
    assert FirstPayload(rs, 2) == Some(PVarint(y));
    assert FirstPayload(rs[1..][1..], 3) == Some(PVarint(z));
    assert FirstPayload(rs[1..], 3) == Some(PVarint(z));
    assert FirstPayload(rs, 3) == Some(PVarint(z));
  }

  /** A message that was never written decodes to all defaults. */
  lemma EmptyMessageDefaults()
    ensures DecodeUint64x3([]) == Success(ZeroUint64x3)
    ensures DecodeMetricValue([]) == Success(NoValue)
    ensures DecodeFileHeader([]) == Success(FileHeader(Finite(0)))
    ensures DecodeSectionMetric([]) == Success(SectionMetric("", ""))
    ensures DecodeStringTable([]) == Success([])
  {
  }

  // ----- one-record messages and the metric value kinds -----

  lemma SingleRecord(r: Record)
    requires Canonical(r)
    ensures Decode(EncodeRecords([r])) == Success(map[r.field := [Decoded(r.payload)]])
  {
    assert AllCanonical([r]);
    RoundTrip([r]);
    assert [r][1..] == [];
    var g: Fields := map[];
    assert Register(g, r.field) == map[r.field := []];
    assert [] + [Decoded(r.payload)] == [Decoded(r.payload)];
    assert GroupOnto(g, [r]) == map[r.field := []][r.field := [Decoded(r.payload)]];
    assert map[r.field := []][r.field := [Decoded(r.payload)]] == map[r.field := [Decoded(r.payload)]];
  }

  predicate IsAscii(s: string) {
    forall i :: 0 <= i < |s| ==> s[i] as int < 128
  }

  function AsciiBytes(s: string): (b: seq<byte>)
    requires IsAscii(s)
    ensures |b| == |s|
  {
    seq(|s|, i requires 0 <= i < |s| => s[i] as int)
  }

  lemma AsciiDecodes(s: string)
    requires IsAscii(s)
    ensures DecodeText(AsciiBytes(s)) == s
  {
  }

  /** A printable ASCII string written as field 1 comes back as the metric's string value. */
  lemma StringMetricRoundTrip(s: string)
    requires IsAscii(s) && IsPrintableString(s) && |s| < TWO_32
    ensures DecodeMetricValue(EncodeRecords([Record(1, PBytes(AsciiBytes(s)))])) == Success(StringValue(s))
  {
    AsciiDecodes(s);
    SingleRecord(Record(1, PBytes(AsciiBytes(s))));
  }

  /** A fixed32 in field 2 is kept as its bit pattern. */
  lemma FloatMetricRoundTrip(bits: nat)
    requires bits < TWO_32
    ensures DecodeMetricValue(EncodeRecords([Record(2, PFixed32(bits))])) == Success(FloatBits(bits))
  {
    SingleRecord(Record(2, PFixed32(bits)));
  }

  /** A fixed64 in field 3 is kept as its bit pattern, low word plus high word times 2^32. */
  lemma DoubleMetricRoundTrip(bits: nat)
    requires bits < TWO_64
    ensures DecodeMetricValue(EncodeRecords([Record(3, PFixed64(bits))])) == Success(DoubleBits(bits))
  {
    SingleRecord(Record(3, PFixed64(bits)));
  }

  lemma Uint32MetricRoundTrip(n: nat)
    requires n < TWO_64
    ensures DecodeMetricValue(EncodeRecords([Record(4, PVarint(n))])) == Success(Uint32Value(Finite(n)))
  {
    SingleRecord(Record(4, PVarint(n)));
  }

  lemma Uint64MetricRoundTrip(n: nat)
    requires n < TWO_64
    ensures DecodeMetricValue(EncodeRecords([Record(5, PVarint(n))])) == Success(Uint64Value(Finite(n)))
  {
    SingleRecord(Record(5, PVarint(n)));
  }

  /** A fixed32 in field 3 of a metric value is a plain Number, which the double branch
      mixes with BigInt operands: the decoder throws. */
  lemma DoubleFromFixed32Throws(n: nat)
    requires n < TWO_32
    ensures DecodeMetricValue(EncodeRecords([Record(3, PFixed32(n))])) == Failure(TypeError)
  {
    SingleRecord(Record(3, PFixed32(n)));
  }

  /** A metric result accepts its value blob bare as well as text-wrapped. */
  lemma MetricResultTakesBareBlob(nameId: nat, bits: nat)
    requires nameId < TWO_64 && bits < TWO_32
    ensures DecodeMetricResult(EncodeRecords([Record(1, PVarint(nameId)),
                                              Record(2, PBytes(EncodeRecords([Record(2, PFixed32(bits))])))]))
         == Success(MetricResult(Finite(nameId), FloatBits(bits)))
  {
    var inner := EncodeRecords([Record(2, PFixed32(bits))]);
    FloatMetricRoundTrip(bits);
    assert |inner| == 5 by {
      assert inner == EncodeRecord(Record(2, PFixed32(bits))) + [];
      assert EncodeVarint(2 * 8 + 5) == [21];
    }
    var rs := [Record(1, PVarint(nameId)), Record(2, PBytes(inner))];
    assert AllCanonical(rs);
    FirstEntryOfEncoding(rs, 1);
    FirstEntryOfEncoding(rs, 2);
    assert rs[1..] == [Record(2, PBytes(inner))];
  }

  // ----- section metrics and string tables -----

  /** The displayed label is the label when there is one, and the name otherwise. */
  lemma SectionMetricRoundTrip(name: string, given: string)
    requires IsAscii(name) && IsPrintableString(name) && |name| < TWO_32
    requires IsAscii(given) && |given| < TWO_32
    requires given == "" || IsPrintableString(given)
    ensures DecodeSectionMetric(EncodeRecords([Record(1, PBytes(AsciiBytes(name))), Record(2, PBytes(AsciiBytes(given)))]))
         == Success(SectionMetric(name, if given == "" then name else given))
  {
    var rs := [Record(1, PBytes(AsciiBytes(name))), Record(2, PBytes(AsciiBytes(given)))];
    assert AllCanonical(rs);
    AsciiDecodes(name);
    AsciiDecodes(given);
    FirstEntryOfEncoding(rs, 1);
    FirstEntryOfEncoding(rs, 2);
    assert rs[1..] == [Record(2, PBytes(AsciiBytes(given)))];
  }

  function TableRecords(ss: seq<string>): (rs: seq<Record>)
    requires forall i :: 0 <= i < |ss| ==> IsAscii(ss[i])
    ensures |rs| == |ss|
  {
    seq(|ss|, i requires 0 <= i < |ss| => Record(1, PBytes(AsciiBytes(ss[i]))))
  }

  predicate PrintableTable(ss: seq<string>) {
    forall i :: 0 <= i < |ss| ==> IsAscii(ss[i]) && IsPrintableString(ss[i]) && |ss[i]| < TWO_32
  }

  lemma {:induction false} TableValues(ss: seq<string>)
    requires PrintableTable(ss)
    ensures TextStrings(ValuesOf(TableRecords(ss), 1)) == ss
    decreases |ss|
  {
    if ss != [] {
      var rs := TableRecords(ss);
      assert rs[1..] == TableRecords(ss[1..]);
      AsciiDecodes(ss[0]);
      TableValues(ss[1..]);
    }
  }

  /** A table of printable strings written as repeated field 1 reads back unchanged. */
  lemma StringTableRoundTrip(ss: seq<string>)
    requires PrintableTable(ss)
    ensures DecodeStringTable(EncodeRecords(TableRecords(ss))) == Success(ss)
  {
    var rs := TableRecords(ss);
    assert AllCanonical(rs);
    FieldsInWriteOrder(rs, 1);
    TableValues(ss);
    if ss != [] {
      assert rs[0].field == 1;
    }
  }

  /** `decodeStringTable` never yields more strings than field 1 holds entries. */
  lemma StringTableBounded(buffer: seq<byte>)
    ensures DecodeStringTable(buffer).Success? ==> |DecodeStringTable(buffer).value| <= |ListOf(Decode(buffer).value, 1)|
  {
  }

  // ----- the text heuristic and nested Uint64x3 messages -----

  lemma {:induction false} DecodeTextConcat(a: seq<byte>, b: seq<byte>)
    ensures DecodeText(a + b) == DecodeText(a) + DecodeText(b)
  {
  }

  lemma {:induction false} PrintableCountConcat(s: string, t: string)
    ensures PrintableCount(s + t) == PrintableCount(s) + PrintableCount(t)
    decreases |s|
  {
    if s != [] {
      assert (s + t)[1..] == s[1..] + t;
      PrintableCountConcat(s[1..], t);
    } else {
      assert s + t == t;
    }
  }

  /** Only the last byte of a varint can decode to a printable character. */
  lemma {:induction false} VarintHasOnePrintable(n: nat)
    ensures PrintableCount(DecodeText(EncodeVarint(n))) <= 1
    decreases n
  {
    if n >= 128 {
      var tail := EncodeVarint(n / 128);
      DecodeTextConcat([n % 128 + 128], tail);
      PrintableCountConcat(DecodeText([n % 128 + 128]), DecodeText(tail));
      VarintHasOnePrintable(n / 128);
    }
  }

  /** A coordinate record of a `Uint64x3` message. */
  predicate CoordinateRecord(r: Record) {
    1 <= r.field <= 3 && r.payload.PVarint? && r.payload.n < TWO_64
  }

  lemma CoordinateRecordMostlyUnprintable(r: Record)
    requires CoordinateRecord(r)
    ensures 2 * PrintableCount(DecodeText(EncodeRecord(r))) <= |EncodeRecord(r)|
  {
    var tag := EncodeVarint(r.field * 8);
    assert tag == [r.field * 8];
    var value := EncodeVarint(r.payload.n);
    DecodeTextConcat(tag, value);
    PrintableCountConcat(DecodeText(tag), DecodeText(value));
    VarintHasOnePrintable(r.payload.n);
  }

  lemma {:induction false} CoordinatesMostlyUnprintable(rs: seq<Record>)
    requires forall i :: 0 <= i < |rs| ==> CoordinateRecord(rs[i])
    ensures 2 * PrintableCount(DecodeText(EncodeRecords(rs))) <= |EncodeRecords(rs)|
    decreases |rs|
  {
    if rs != [] {
      CoordinateRecordMostlyUnprintable(rs[0]);
      CoordinatesMostlyUnprintable(rs[1..]);
      DecodeTextConcat(EncodeRecord(rs[0]), EncodeRecords(rs[1..]));
      PrintableCountConcat(DecodeText(EncodeRecord(rs[0])), DecodeText(EncodeRecords(rs[1..])));
    }
  }

  /** An encoded `Uint64x3` message, whatever its coordinates, fails the text heuristic:
      every varint record has a non-printable tag and at most one printable byte. */
  lemma EncodedUint64x3IsNotText(rs: seq<Record>)
    requires forall i :: 0 <= i < |rs| ==> CoordinateRecord(rs[i])
    ensures Classify(EncodeRecords(rs)).Bytes?
  {
    CoordinatesMostlyUnprintable(rs);
  }

  /** So a profile result whose grid (field 10) and block (field 11) are written as
      `Uint64x3` messages still reports both as `{0, 0, 0}`. */
  lemma GridAndBlockStayZero(rs: seq<Record>, logUnknown: bool, grid: seq<Record>, block: seq<Record>)
    requires AllCanonical(rs)
    requires forall i :: 0 <= i < |grid| ==> CoordinateRecord(grid[i])
    requires forall i :: 0 <= i < |block| ==> CoordinateRecord(block[i])
    requires FirstPayload(rs, 10) == Some(PBytes(EncodeRecords(grid)))
    requires FirstPayload(rs, 11) == Some(PBytes(EncodeRecords(block)))
    ensures DecodeProfileResult(EncodeRecords(rs), logUnknown).Success? ==>
      DecodeProfileResult(EncodeRecords(rs), logUnknown).value.grid == ZeroUint64x3 &&
      DecodeProfileResult(EncodeRecords(rs), logUnknown).value.block == ZeroUint64x3
  {
    FirstEntryOfEncoding(rs, 10);
    FirstEntryOfEncoding(rs, 11);
    EncodedUint64x3IsNotText(grid);
    EncodedUint64x3IsNotText(block);
  }

  // ----- which field a metric value comes from -----

  /** The metric value that field `k` (2 to 5) stands for, read from its first record. */
  function MetricFromPayload(k: nat, p: Payload): Result<MetricValue, Error>
    requires 2 <= k <= 5
  {
    var v := Decoded(p);
    if k == 2 then Success(FloatBits(ToUint32(ToNumber(v))))
    else if k == 3 then
      match v
      case Varint(n) => Success(DoubleBits(n % TWO_64))
      case Fixed64(n) => Success(DoubleBits(n % TWO_64))
      case _ => Failure(TypeError)
    else if k == 4 then Success(Uint32Value(ToNumber(v)))
    else Success(Uint64Value(ToNumber(v)))
  }

  /** A field 1 whose first record reads as text decides the metric value, whatever the
      other fields hold. */
  lemma MetricValueTextWins(rs: seq<Record>)
    requires AllCanonical(rs)
    requires FirstPayload(rs, 1).Some? && Decoded(FirstPayload(rs, 1).value).Text?
    ensures DecodeMetricValue(EncodeRecords(rs)) == Success(StringValue(Decoded(FirstPayload(rs, 1).value).s))
  {
    FirstEntryOfEncoding(rs, 1);
  }

  /** Otherwise the lowest of fields 2 to 5 that has a record decides, from its first
      record alone, whatever the later fields hold. */
  lemma MetricValueFirstPresentWins(rs: seq<Record>, k: nat)
    requires AllCanonical(rs)
    requires FirstPayload(rs, 1).None? || !Decoded(FirstPayload(rs, 1).value).Text?
    requires 2 <= k <= 5 && Mentions(rs, k)
    requires forall j :: 2 <= j < k ==> !Mentions(rs, j)
    ensures DecodeMetricValue(EncodeRecords(rs)) == MetricFromPayload(k, FirstPayload(rs, k).value)
  {
    FirstEntryOfEncoding(rs, 1);
    FirstEntryOfEncoding(rs, 2);
    FirstEntryOfEncoding(rs, 3);
    FirstEntryOfEncoding(rs, 4);
    FirstEntryOfEncoding(rs, 5);
  }

  /** With no text in field 1 and no record numbered 2 to 5, the value is `null`. */
  lemma MetricValueAbsent(rs: seq<Record>)
    requires AllCanonical(rs)
    requires FirstPayload(rs, 1).None? || !Decoded(FirstPayload(rs, 1).value).Text?
    requires forall j :: 2 <= j <= 5 ==> !Mentions(rs, j)
    ensures DecodeMetricValue(EncodeRecords(rs)) == Success(NoValue)
  {
    FirstEntryOfEncoding(rs, 1);
    FirstEntryOfEncoding(rs, 2);
    FirstEntryOfEncoding(rs, 3);
    FirstEntryOfEncoding(rs, 4);
    FirstEntryOfEncoding(rs, 5);
  }

  // ----- the contents of a profile result -----

  /** Each source line is the decoding of the text-wrapped entry at the same place among
      the text-wrapped entries; only the entry at list position 0 is decoded with the
      field listing. */
  lemma {:induction false} SourceLinesFromEach(vs: seq<Value>, index: nat)
    requires SourceLinesFrom(vs, index).Success?
    ensures forall i :: 0 <= i < |SourceLinesFrom(vs, index).value| ==>
      DecodeSourceLine(TextBlobs(vs)[i], index == 0 && i == 0 && vs[0].Text?) == Success(SourceLinesFrom(vs, index).value[i])
  {
    forall i | 0 <= i < |SourceLinesFrom(vs, index).value|
      ensures DecodeSourceLine(TextBlobs(vs)[i], index == 0 && i == 0 && vs[0].Text?) == Success(SourceLinesFrom(vs, index).value[i])
    {
      SourceLineAt(vs, index, i);
    }
  }

  /** Each entry of the four lists is the decoding of the text-wrapped entry at the same
      place in fields 12, 13, 17 and 19. */
  lemma ProfileResultEntries(f: Fields, logUnknown: bool)
    requires ProfileResultOf(f, logUnknown).Success?
    ensures var p := ProfileResultOf(f, logUnknown).value;
      forall i :: 0 <= i < |p.sourceLines| ==>
        DecodeSourceLine(TextBlobs(ListOf(f, 12))[i], i == 0 && ListOf(f, 12)[0].Text?) == Success(p.sourceLines[i])
    ensures var p := ProfileResultOf(f, logUnknown).value;
      forall i :: 0 <= i < |p.metricResults| ==> DecodeMetricResult(TextBlobs(ListOf(f, 13))[i]) == Success(p.metricResults[i])
    ensures var p := ProfileResultOf(f, logUnknown).value;
      forall i :: 0 <= i < |p.sections| ==> DecodeSection(TextBlobs(ListOf(f, 17))[i]) == Success(p.sections[i])
    ensures var p := ProfileResultOf(f, logUnknown).value;
      forall i :: 0 <= i < |p.ruleResults| ==> DecodeRuleResult(TextBlobs(ListOf(f, 19))[i]) == Success(p.ruleResults[i])
  {
    SourceLinesFromEach(ListOf(f, 12), 0);
  }

  /** `fields[k] && fields[k][0].valueType === 'string' ? … : ''` on the records themselves. */
  function StringOf(rs: seq<Record>, k: nat): string {
    match FirstPayload(rs, k)
    case None => ""
    case Some(p) => if Decoded(p).Text? then Decoded(p).s else ""
  }

  lemma StringFieldOfEncoding(rs: seq<Record>, k: nat)
    requires AllCanonical(rs)
    ensures Decode(EncodeRecords(rs)).Success?
    ensures StringField(Decode(EncodeRecords(rs)).value, k) == Success(StringOf(rs, k))
  {
    FirstEntryOfEncoding(rs, k);
  }

  /** In an encoded profile result the kernel names and the context and stream ids are
      the first records of fields 5, 6, 7, 22 and 23, whatever else the message holds. */
  lemma ProfileNamesOfEncoding(rs: seq<Record>, logUnknown: bool)
    requires AllCanonical(rs)
    requires DecodeProfileResult(EncodeRecords(rs), logUnknown).Success?
    ensures var p := DecodeProfileResult(EncodeRecords(rs), logUnknown).value;
      p.kernelMangledName == StringOf(rs, 5) && p.kernelFunctionName == StringOf(rs, 6) &&
      p.kernelDemangledName == StringOf(rs, 7) && p.contextId == NumberOf(rs, 22) && p.streamId == NumberOf(rs, 23)
  {
    StringFieldOfEncoding(rs, 5);
    StringFieldOfEncoding(rs, 6);
    StringFieldOfEncoding(rs, 7);
    NumberFieldOfEncoding(rs, 22);
    NumberFieldOfEncoding(rs, 23);
  }

  /** A printable ASCII kernel name written as the first record of field 5 is the mangled
      name the profile result reports. */
  lemma KernelNameRoundTrip(rs: seq<Record>, logUnknown: bool, name: string)
    requires AllCanonical(rs)
    requires IsAscii(name) && IsPrintableString(name)
    requires FirstPayload(rs, 5) == Some(PBytes(AsciiBytes(name)))
    ensures DecodeProfileResult(EncodeRecords(rs), logUnknown).Success? ==>
      DecodeProfileResult(EncodeRecords(rs), logUnknown).value.kernelMangledName == name
  {
    if DecodeProfileResult(EncodeRecords(rs), logUnknown).Success? {
      ProfileNamesOfEncoding(rs, logUnknown);
      AsciiDecodes(name);
    }
  }

  // ----- block headers -----

  /** The first record numbered like `rs[i]` is `rs[i]` when no earlier record shares its
      number. */
  lemma {:induction false} FirstPayloadAt(rs: seq<Record>, i: nat)
    requires i < |rs|
    requires forall j :: 0 <= j < i ==> rs[j].field != rs[i].field
    ensures FirstPayload(rs, rs[i].field) == Some(rs[i].payload)
    decreases i
  {
    if i > 0 {
      assert rs[1..][i - 1] == rs[i];
      FirstPayloadAt(rs[1..], i - 1);
    }
  }

  /** The string table field 4 stands for: decoded only when its first record reads as
      text, and empty otherwise. */
  function TableOf(rs: seq<Record>): Result<seq<string>, Error> {
    match FirstPayload(rs, 4)
    case None => Success([])
    case Some(p) => if Decoded(p).Text? then DecodeStringTable(Decoded(p).b) else Success([])
  }

  /** `decodeBlockHeader` reads the four counts from the first records of fields 1, 2, 5
      and 7, and the string table from field 4. */
  lemma BlockHeaderOfEncoding(rs: seq<Record>)
    requires AllCanonical(rs)
    ensures DecodeBlockHeader(EncodeRecords(rs)).Success? <==> TableOf(rs).Success?
    ensures TableOf(rs).Success? ==>
      DecodeBlockHeader(EncodeRecords(rs)) ==
        Success(BlockHeader(NumberOf(rs, 1), NumberOf(rs, 2), NumberOf(rs, 5), NumberOf(rs, 7), TableOf(rs).value))
  {
    NumberFieldOfEncoding(rs, 1);
    NumberFieldOfEncoding(rs, 2);
    NumberFieldOfEncoding(rs, 5);
    NumberFieldOfEncoding(rs, 7);
    FirstEntryOfEncoding(rs, 4);
  }

  function BlockHeaderRecords(numSources: nat, numResults: nat, tableBlob: seq<byte>, payloadSize: nat, numRangeResults: nat): seq<Record> {
    [Record(1, PVarint(numSources)), Record(2, PVarint(numResults)), Record(4, PBytes(tableBlob)),
     Record(5, PVarint(payloadSize)), Record(7, PVarint(numRangeResults))]
  }

  /** The counts of those records are read back from fields 1, 2, 5 and 7, and the table
      blob is the first record of field 4. */
  lemma BlockHeaderRecordsRead(numSources: nat, numResults: nat, tableBlob: seq<byte>, payloadSize: nat, numRangeResults: nat)
    requires numSources < TWO_64 && numResults < TWO_64 && payloadSize < TWO_64 && numRangeResults < TWO_64
    requires |tableBlob| < TWO_32
    ensures AllCanonical(BlockHeaderRecords(numSources, numResults, tableBlob, payloadSize, numRangeResults))
    ensures var rs := BlockHeaderRecords(numSources, numResults, tableBlob, payloadSize, numRangeResults);
      NumberOf(rs, 1) == Finite(numSources) && NumberOf(rs, 2) == Finite(numResults) &&
      NumberOf(rs, 5) == Finite(payloadSize) && NumberOf(rs, 7) == Finite(numRangeResults) &&
      FirstPayload(rs, 4) == Some(PBytes(tableBlob))
  {
    var rs := BlockHeaderRecords(numSources, numResults, tableBlob, payloadSize, numRangeResults);
    FirstPayloadAt(rs, 0);
    FirstPayloadAt(rs, 1);
    FirstPayloadAt(rs, 2);
    FirstPayloadAt(rs, 3);
    FirstPayloadAt(rs, 4);
  }

  /** A block header whose string table reads as text comes back with its four counts and
      that table. */
  lemma BlockHeaderRoundTrip(numSources: nat, numResults: nat, table: seq<string>, payloadSize: nat, numRangeResults: nat)
    requires numSources < TWO_64 && numResults < TWO_64 && payloadSize < TWO_64 && numRangeResults < TWO_64
    requires PrintableTable(table) && |EncodeRecords(TableRecords(table))| < TWO_32
    requires IsPrintableString(DecodeText(EncodeRecords(TableRecords(table))))
    ensures DecodeBlockHeader(EncodeRecords(BlockHeaderRecords(numSources, numResults, EncodeRecords(TableRecords(table)), payloadSize, numRangeResults)))
         == Success(BlockHeader(Finite(numSources), Finite(numResults), Finite(payloadSize), Finite(numRangeResults), table))
  {
    var rs := BlockHeaderRecords(numSources, numResults, EncodeRecords(TableRecords(table)), payloadSize, numRangeResults);
    var bytes := EncodeRecords(TableRecords(table));
    BlockHeaderRecordsRead(numSources, numResults, bytes, payloadSize, numRangeResults);
    assert Decoded(PBytes(bytes)) == Text(bytes, DecodeText(bytes));
    StringTableRoundTrip(table);
    assert TableOf(rs) == Success(table);
    BlockHeaderOfEncoding(rs);
  }

  /** A block header whose string table blob does not read as text reports an empty
      table, whatever the blob holds. */
  lemma BlockHeaderDropsUnprintableTable(numSources: nat, numResults: nat, tableBlob: seq<byte>, payloadSize: nat, numRangeResults: nat)
    requires numSources < TWO_64 && numResults < TWO_64 && payloadSize < TWO_64 && numRangeResults < TWO_64
    requires |tableBlob| < TWO_32 && !IsPrintableString(DecodeText(tableBlob))
    ensures DecodeBlockHeader(EncodeRecords(BlockHeaderRecords(numSources, numResults, tableBlob, payloadSize, numRangeResults)))
         == Success(BlockHeader(Finite(numSources), Finite(numResults), Finite(payloadSize), Finite(numRangeResults), []))
  {
    var rs := BlockHeaderRecords(numSources, numResults, tableBlob, payloadSize, numRangeResults);
    BlockHeaderRecordsRead(numSources, numResults, tableBlob, payloadSize, numRangeResults);
    assert Decoded(PBytes(tableBlob)) == Bytes(tableBlob);
    assert TableOf(rs) == Success([]);
    BlockHeaderOfEncoding(rs);
  }
}
