/** The `.ncu-rep` container, as `parseFile` walks it: a 4-byte magic, a length-prefixed
    file header, then length-prefixed blocks. Each block has a block header (with an
    optional string table) followed by three groups of length-prefixed entries: sources
    (skipped), profile results (decoded) and range results (skipped). Offsets are byte
    positions in the file; every length prefix is a little-endian uint32.

    The walk is first written as functions (`ReadBlock`, `Blocks`, `Paired`,
    `ParseFileSpec`) and the loops of the source are methods proved equal to them. */
module Container {
  import opened Wrappers
  import opened Wire
  import opened Schema

  const MAGIC: seq<byte> := [0x4E, 0x56, 0x52, 0x00]

  /** The three decoders the walk calls on the parser object. The walk is stated and
      proved for any decoders; `SchemaDecoders` are the ones `parseFile` uses. */
  datatype Decoders = Decoders(
    fileHeader: seq<byte> -> Result<FileHeader, Error>,
    blockHeader: seq<byte> -> Result<BlockHeader, Error>,
    profileResult: (seq<byte>, bool) -> Result<ProfileResult, Error>)

  const SchemaDecoders: Decoders := Decoders(DecodeFileHeader, DecodeBlockHeader, DecodeProfileResult)

  /** `DataView.getUint32(off, true)`, in range. */
  function U32(buf: seq<byte>, off: nat): (n: nat)
    requires off + 4 <= |buf|
    ensures n < 0x1_0000_0000
  {
    buf[off] as int + 0x100 * buf[off + 1] as int + 0x1_0000 * buf[off + 2] as int + 0x100_0000 * buf[off + 3] as int
  }

  /** How many times `for (let i = 0; i < x; i++)` can run: `i < NaN` is false. */
  function Count(x: Num): nat {
    if x.Finite? then x.n else 0
  }

  function Min(a: nat, b: nat): nat {
    if a <= b then a else b
  }

  /** A source or range group: up to `count` entries, each stepped over by its size
      prefix; a prefix that does not fit ends the group. */
  function Skipped(buf: seq<byte>, off: nat, count: nat): (next: nat)
    ensures next >= off
    decreases count
  {
    if count == 0 || off + 4 > |buf| then off
    else Skipped(buf, off + 4 + U32(buf, off), count - 1)
  }

  /** The profile results of one block, and the offset after them. */
  datatype Group = Group(results: seq<ProfileResult>, next: nat)

  /** The result group: up to `count` entries. A prefix that does not fit ends the group
      where it is; an entry that overruns the file ends it just after its prefix. Each
      entry is decoded with the field listing on only while nothing has been decoded yet
      (`decoded` counts the results of earlier blocks and entries). */
  function ResultsFrom(d: Decoders, buf: seq<byte>, off: nat, count: nat, decoded: nat): (r: Result<Group, Error>)
    ensures r.Success? ==> r.value.next >= off
    decreases count
  {
    if count == 0 || off + 4 > |buf| then Success(Group([], off))
    else
      var size := U32(buf, off);
      var start := off + 4;
      if start + size > |buf| then Success(Group([], start))
      else
        match d.profileResult(buf[start..start + size], decoded == 0)
        case Failure(e) => Failure(e)
        case Success(result) =>
          match ResultsFrom(d, buf, start + size, count - 1, decoded + 1)
          case Failure(e) => Failure(e)
          case Success(rest) => Success(Group([result] + rest.results, rest.next))
  }

  /** The payload-end jump: to `headerEnd + payloadSize` when that lies ahead. */
  function PayloadJump(off: nat, headerEnd: nat, payloadSize: Num): (next: nat)
    ensures next >= off
    ensures next > off ==> payloadSize.Finite? && next == headerEnd + payloadSize.n
  {
    if payloadSize.Finite? && payloadSize.n > 0 && off < headerEnd + payloadSize.n then headerEnd + payloadSize.n
    else off
  }

  /** One block of the walk: where its size prefix was, its header, its decoded results
      and the offset the walk goes on from. */
  datatype BlockStep = BlockStep(start: nat, header: BlockHeader, results: seq<ProfileResult>, next: nat)

  /** One iteration of the block loop at `off`; `None` when the loop stops there. */
  function ReadBlock(d: Decoders, buf: seq<byte>, off: nat, decoded: nat): (r: Result<Option<BlockStep>, Error>)
    ensures r == Success(None) <==> off + 4 > |buf| || U32(buf, off) == 0 || off + 4 + U32(buf, off) > |buf|
    ensures r.Success? && r.value.Some? ==>
      off + 4 <= |buf| && r.value.value.start == off && off + 4 + U32(buf, off) <= r.value.value.next
  {
    if off + 4 > |buf| then Success(None)
    else
      var size := U32(buf, off);
      var headerEnd := off + 4 + size;
      if size == 0 || headerEnd > |buf| then Success(None)
      else
        var header :- d.blockHeader(buf[off + 4..headerEnd]);
        var afterSources := Skipped(buf, headerEnd, Count(header.numSources));
        var group :- ResultsFrom(d, buf, afterSources, Count(header.numResults), decoded);
        var afterRanges := Skipped(buf, group.next, Count(header.numRangeResults));
        Success(Some(BlockStep(off, header, group.results, PayloadJump(afterRanges, headerEnd, header.payloadSize))))
  }

  /** The block loop from `off` to where it stops; an exception in a decoder ends the
      whole parse. */
  function Blocks(d: Decoders, buf: seq<byte>, off: nat, decoded: nat): (r: Result<seq<BlockStep>, Error>)
    decreases |buf| - off
  {
    var step :- ReadBlock(d, buf, off, decoded);
    if step.None? then Success([])
    else
      var rest :- Blocks(d, buf, step.value.next, decoded + |step.value.results|);
      Success([step.value] + rest)
  }

  /** What the loop has seen so far, put in front of what the rest of the walk gives. */
  function Prepended(done: seq<BlockStep>, rest: Result<seq<BlockStep>, Error>): Result<seq<BlockStep>, Error> {
    match rest
    case Success(bs) => Success(done + bs)
    case Failure(e) => Failure(e)
  }

  datatype RawResult = RawResult(profileResult: ProfileResult, stringTable: seq<string>)

  function TablesOf(bs: seq<BlockStep>): (ts: seq<seq<string>>)
    ensures |ts| == |bs|
    ensures forall i :: 0 <= i < |bs| ==> ts[i] == bs[i].header.stringTable
  {
    seq(|bs|, i requires 0 <= i < |bs| => bs[i].header.stringTable)
  }

  /** `lastStringTable` after a run of block headers: the last non-empty table, else `[]`. */
  function LastTable(ts: seq<seq<string>>): seq<string>
    decreases |ts|
  {
    if ts == [] then []
    else if |ts[|ts| - 1]| > 0 then ts[|ts| - 1]
    else LastTable(ts[..|ts| - 1])
  }

  function Tagged(results: seq<ProfileResult>, table: seq<string>): (raw: seq<RawResult>)
    ensures |raw| == |results|
    ensures forall i :: 0 <= i < |results| ==> raw[i] == RawResult(results[i], table)
  {
    seq(|results|, i requires 0 <= i < |results| => RawResult(results[i], table))
  }

  /** `rawResults` after the blocks `bs`: each block's results, paired with the table in
      effect for that block. */
  function Paired(bs: seq<BlockStep>): seq<RawResult>
    decreases |bs|
  {
    if bs == [] then []
    else Paired(bs[..|bs| - 1]) + Tagged(bs[|bs| - 1].results, LastTable(TablesOf(bs)))
  }

  function Transformed<K>(raw: seq<RawResult>, transform: (ProfileResult, seq<string>) -> K): (kernels: seq<K>)
    ensures |kernels| == |raw|
    ensures forall i :: 0 <= i < |raw| ==> kernels[i] == transform(raw[i].profileResult, raw[i].stringTable)
  {
    seq(|raw|, i requires 0 <= i < |raw| => transform(raw[i].profileResult, raw[i].stringTable))
  }

  // ----- session info -----

  /** The device attributes read from the first kernel's metric map. A `None` stands for
      the default the source falls back to: 'Unknown' for the device name, 0 for the
      counts. */
  datatype DeviceInfo<V> = DeviceInfo(deviceName: Option<V>, computeCapability: string, smCount: Option<V>, memoryTotal: Option<V>)

  datatype SessionInfo<V> = SessionInfo(fileVersion: Num, device: Option<DeviceInfo<V>>)

  datatype ParsedFile<K, V> = ParsedFile(kernels: seq<K>, fileVersion: Num, sessionInfo: SessionInfo<V>)

  /** `m[key]` used as a condition: absent keys and falsy values both fail. */
  function Lookup<V>(m: map<string, V>, key: string, truthy: V -> bool): (r: Option<V>)
    ensures r.Some? <==> key in m && truthy(m[key])
    ensures r.Some? ==> r.value == m[key]
  {
    if key in m && truthy(m[key]) then Some(m[key]) else None
  }

  function ComputeCapability<V>(m: map<string, V>, truthy: V -> bool, show: V -> string): string {
    var major := Lookup(m, "device__attribute_compute_capability_major", truthy);
    var minor := Lookup(m, "device__attribute_compute_capability_minor", truthy);
    if major.Some? && minor.Some? then show(major.value) + "." + show(minor.value) else "Unknown"
  }

  function DeviceOf<V>(m: map<string, V>, truthy: V -> bool, show: V -> string): DeviceInfo<V> {
    DeviceInfo(Lookup(m, "device__attribute_display_name", truthy),
               ComputeCapability(m, truthy, show),
               Lookup(m, "device__attribute_multiprocessor_count", truthy),
               Lookup(m, "device__attribute_global_memory_size", truthy))
  }

  /** Session info: the device fields come from the first kernel's metric map, when there
      is a first kernel and its map is set. */
  function Session<K, V>(version: Num, kernels: seq<K>, metricMap: K -> Option<map<string, V>>,
                         truthy: V -> bool, show: V -> string): (s: SessionInfo<V>)
    ensures s.fileVersion == version
    ensures s.device.Some? <==> |kernels| > 0 && metricMap(kernels[0]).Some?
  {
    if |kernels| > 0 && metricMap(kernels[0]).Some? then
      SessionInfo(version, Some(DeviceOf(metricMap(kernels[0]).value, truthy, show)))
    else
      SessionInfo(version, None)
  }

  /** `parseFile` as a function. `transform` is `NcuParser.transformResult`, `metricMap`
      reads a kernel's `_metricMap` (`None` when it is falsy), and `truthy`/`show` are
      JavaScript's truthiness and string conversion on its values. */
  function ParseFileSpec<K, V>(d: Decoders, buf: seq<byte>, transform: (ProfileResult, seq<string>) -> K,
                               metricMap: K -> Option<map<string, V>>,
                               truthy: V -> bool, show: V -> string): Result<ParsedFile<K, V>, Error>
  {
    if |buf| < 4 || buf[..4] != MAGIC then Failure(BadMagic)
    else if |buf| < 8 then Failure(HeaderLengthOutOfRange)
    else
      var size := U32(buf, 4);
      var fileHeader :- d.fileHeader(buf[8..Min(8 + size, |buf|)]);
      var blocks :- Blocks(d, buf, 8 + size, 0);
      var kernels := Transformed(Paired(blocks), transform);
      Success(ParsedFile(kernels, fileHeader.version, Session(fileHeader.version, kernels, metricMap, truthy, show)))
  }

  // ----- the loops -----

  /** The source-entry and range-entry loops. */
  method SkipEntries(buf: seq<byte>, off: nat, count: nat) returns (next: nat)
    ensures next == Skipped(buf, off, count)
  {
    next := off;
    var i := 0;
    while i < count
      invariant i <= count
      invariant Skipped(buf, off, count) == Skipped(buf, next, count - i)
    {
      if next + 4 > |buf| {
        break;
      }
      var entrySize := U32(buf, next);
      next := next + 4 + entrySize;
      i := i + 1;
    }
  }

  /** `rawResults` and the offset after a result group whose entries are pushed with
      `table`; an exception passes through. */
  function Pushed(rawResults: seq<RawResult>, table: seq<string>, group: Result<Group, Error>): Result<(seq<RawResult>, nat), Error> {
    match group
    case Success(g) => Success((rawResults + Tagged(g.results, table), g.next))
    case Failure(e) => Failure(e)
  }

  /** One decoded entry of a result group: pushing it and reading the rest of the group
      is the same as reading the whole group. */
  lemma PushedStep(d: Decoders, buf: seq<byte>, off: nat, count: nat, pushed: seq<RawResult>, table: seq<string>,
                   size: nat, result: ProfileResult, next: nat, left: nat)
    requires count > 0 && off + 4 <= |buf| && size == U32(buf, off) && off + 4 + size <= |buf|
    requires d.profileResult(buf[off + 4..off + 4 + size], |pushed| == 0) == Success(result)
    requires next == off + 4 + size && left == count - 1
    ensures Pushed(pushed, table, ResultsFrom(d, buf, off, count, |pushed|)) ==
      Pushed(pushed + [RawResult(result, table)], table, ResultsFrom(d, buf, next, left, |pushed + [RawResult(result, table)]|))
  {
    var rest := ResultsFrom(d, buf, next, left, |pushed| + 1);
    assert |pushed + [RawResult(result, table)]| == |pushed| + 1;
    if rest.Success? {
      assert ResultsFrom(d, buf, off, count, |pushed|) == Success(Group([result] + rest.value.results, rest.value.next));
      assert Tagged([result] + rest.value.results, table) == [RawResult(result, table)] + Tagged(rest.value.results, table);
      assert pushed + ([RawResult(result, table)] + Tagged(rest.value.results, table)) ==
        (pushed + [RawResult(result, table)]) + Tagged(rest.value.results, table);
    }
  }

  /** A result group that ends at `off` adds nothing. */
  lemma PushedNothing(pushed: seq<RawResult>, table: seq<string>, off: nat)
    ensures Pushed(pushed, table, Success(Group([], off))) == Success((pushed, off))
  {
    assert Tagged([], table) == [];
    assert pushed + [] == pushed;
  }

  /** The result-entry loop: pushes each decoded result onto `rawResults` with the
      block's effective string table. */
  method ReadResults(d: Decoders, buf: seq<byte>, off: nat, count: nat, table: seq<string>, rawResults: seq<RawResult>)
    returns (r: Result<(seq<RawResult>, nat), Error>)
    ensures r == Pushed(rawResults, table, ResultsFrom(d, buf, off, count, |rawResults|))
  {
    var offset: nat := off;
    var pushed := rawResults;
    var i := 0;
    ghost var left: nat := count;
    while i < count
      invariant i <= count && left == count - i
      invariant Pushed(rawResults, table, ResultsFrom(d, buf, off, count, |rawResults|)) ==
        Pushed(pushed, table, ResultsFrom(d, buf, offset, left, |pushed|))
    {
      if offset + 4 > |buf| {
        ResultsEnd(d, buf, offset, left, |pushed|);
        PushedNothing(pushed, table, offset);
        return Success((pushed, offset));
      }
      var entrySize := U32(buf, offset);
      ghost var entryStart := offset;
      offset := offset + 4;
      if offset + entrySize > |buf| {
        ResultsCut(d, buf, entryStart, left, |pushed|);
        PushedNothing(pushed, table, offset);
        return Success((pushed, offset));
      }
      var profileResult := d.profileResult(buf[offset..offset + entrySize], |pushed| == 0);
      if profileResult.Failure? {
        ResultsFail(d, buf, entryStart, left, |pushed|, profileResult.error);
        return Failure(profileResult.error);
      }
      PushedStep(d, buf, entryStart, left, pushed, table, entrySize, profileResult.value, offset + entrySize, left - 1);
      pushed := pushed + [RawResult(profileResult.value, table)];
      offset := offset + entrySize;
      i := i + 1;
      left := left - 1;
    }
    ResultsEnd(d, buf, offset, left, |pushed|);
    PushedNothing(pushed, table, offset);
    r := Success((pushed, offset));
  }

  /** A group with no entry left, or no room for a size field, is empty. */
  lemma ResultsEnd(d: Decoders, buf: seq<byte>, off: nat, count: nat, decoded: nat)
    requires count == 0 || off + 4 > |buf|
    ensures ResultsFrom(d, buf, off, count, decoded) == Success(Group([], off))
  {
  }

  /** An entry that runs past the buffer ends the group after its size field. */
  lemma ResultsCut(d: Decoders, buf: seq<byte>, off: nat, count: nat, decoded: nat)
    requires count > 0 && off + 4 <= |buf| && off + 4 + U32(buf, off) > |buf|
    ensures ResultsFrom(d, buf, off, count, decoded) == Success(Group([], off + 4))
  {
  }

  /** An entry that fails to decode fails the group. */
  lemma ResultsFail(d: Decoders, buf: seq<byte>, off: nat, count: nat, decoded: nat, e: Error)
    requires count > 0 && off + 4 <= |buf| && off + 4 + U32(buf, off) <= |buf|
    requires d.profileResult(buf[off + 4..off + 4 + U32(buf, off)], decoded == 0) == Failure(e)
    ensures ResultsFrom(d, buf, off, count, decoded) == Failure(e)
  {
  }

  lemma PairedSnoc(done: seq<BlockStep>, step: BlockStep)
    ensures Paired(done + [step]) == Paired(done) + Tagged(step.results, LastTable(TablesOf(done + [step])))
    ensures LastTable(TablesOf(done + [step])) ==
      if |step.header.stringTable| > 0 then step.header.stringTable else LastTable(TablesOf(done))
  {
    assert (done + [step])[..|done|] == done;
    assert TablesOf(done + [step])[..|done|] == TablesOf(done);
  }

  /** The walk's variables between two blocks. */
  datatype WalkState = WalkState(offset: nat, rawResults: seq<RawResult>, lastStringTable: seq<string>)

  /** The table a block's results are paired with, given the table kept so far. */
  function Sticky(last: seq<string>, table: seq<string>): seq<string> {
    if |table| > 0 then table else last
  }

  /** The state after the block `step`. */
  function After(step: BlockStep, rawResults: seq<RawResult>, lastStringTable: seq<string>): WalkState {
    var table := Sticky(lastStringTable, step.header.stringTable);
    WalkState(step.next, rawResults + Tagged(step.results, table), table)
  }

  /** One iteration of the block loop: `None` where the source breaks out of it. */
  method ReadNextBlock(d: Decoders, buf: seq<byte>, offset: nat, rawResults: seq<RawResult>, lastStringTable: seq<string>)
    returns (r: Result<Option<WalkState>, Error>)
    ensures ReadBlock(d, buf, offset, |rawResults|).Failure? ==> r == Failure(ReadBlock(d, buf, offset, |rawResults|).error)
    ensures ReadBlock(d, buf, offset, |rawResults|) == Success(None) ==> r == Success(None)
    ensures ReadBlock(d, buf, offset, |rawResults|).Success? && ReadBlock(d, buf, offset, |rawResults|).value.Some? ==>
      r == Success(Some(After(ReadBlock(d, buf, offset, |rawResults|).value.value, rawResults, lastStringTable)))
  {
    if offset + 4 > |buf| {
      return Success(None);
    }
    var blockHeaderSize := U32(buf, offset);
    var pos := offset + 4;
    if blockHeaderSize == 0 || pos + blockHeaderSize > |buf| {
      return Success(None);
    }
    var blockHeader :- d.blockHeader(buf[pos..pos + blockHeaderSize]);
    pos := pos + blockHeaderSize;
    var headerEnd := pos;

    var last := lastStringTable;
    if |blockHeader.stringTable| > 0 {
      last := blockHeader.stringTable;
    }
    var effectiveStringTable := if |blockHeader.stringTable| > 0 then blockHeader.stringTable else last;

    pos := SkipEntries(buf, pos, Count(blockHeader.numSources));
    var read :- ReadResults(d, buf, pos, Count(blockHeader.numResults), effectiveStringTable, rawResults);
    pos := SkipEntries(buf, read.1, Count(blockHeader.numRangeResults));

    if blockHeader.payloadSize.Finite? && blockHeader.payloadSize.n > 0 && pos < headerEnd + blockHeader.payloadSize.n {
      pos := headerEnd + blockHeader.payloadSize.n;
    }
    r := Success(Some(WalkState(pos, read.0, last)));
  }

  /** One completed iteration of the block loop, as the walk sees it. */
  lemma BlocksStep(d: Decoders, buf: seq<byte>, off: nat, decoded: nat, done: seq<BlockStep>, step: BlockStep, decodedNext: nat)
    requires ReadBlock(d, buf, off, decoded) == Success(Some(step))
    requires decodedNext == decoded + |step.results|
    ensures Prepended(done, Blocks(d, buf, off, decoded)) == Prepended(done + [step], Blocks(d, buf, step.next, decodedNext))
  {
    var rest := Blocks(d, buf, step.next, decodedNext);
    assert Blocks(d, buf, off, decoded) == Prepended([step], rest);
    if rest.Success? {
      assert done + ([step] + rest.value) == (done + [step]) + rest.value;
    }
  }

  /** The block loop of `parseFile`, from the first block header at `start`. */
  method WalkBlocks(d: Decoders, buf: seq<byte>, start: nat) returns (r: Result<seq<RawResult>, Error>)
    ensures Blocks(d, buf, start, 0).Failure? ==> r == Failure(Blocks(d, buf, start, 0).error)
    ensures Blocks(d, buf, start, 0).Success? ==> r == Success(Paired(Blocks(d, buf, start, 0).value))
  {
    var offset := start;
    var rawResults: seq<RawResult> := [];
    var lastStringTable: seq<string> := [];
    ghost var done: seq<BlockStep> := [];
    if Blocks(d, buf, start, 0).Success? {
      assert [] + Blocks(d, buf, start, 0).value == Blocks(d, buf, start, 0).value;
    }
    while offset < |buf|
      invariant Blocks(d, buf, start, 0) == Prepended(done, Blocks(d, buf, offset, |rawResults|))
      invariant rawResults == Paired(done)
      invariant lastStringTable == LastTable(TablesOf(done))
      decreases |buf| - offset
    {
      var next :- ReadNextBlock(d, buf, offset, rawResults, lastStringTable);
      if next.None? {
        break;
      }
      ghost var step := ReadBlock(d, buf, offset, |rawResults|).value.value;
      BlocksStep(d, buf, offset, |rawResults|, done, step, |next.value.rawResults|);
      PairedSnoc(done, step);
      offset, rawResults, lastStringTable := next.value.offset, next.value.rawResults, next.value.lastStringTable;
      done := done + [step];
    }
    assert Blocks(d, buf, offset, |rawResults|) == Success([]);
    assert done + [] == done;
    r := Success(rawResults);
  }

  /** `parseFile`: the magic and file header, then the block loop, then the transform
      and the session info. */
  method ParseFile<K, V>(d: Decoders, buf: seq<byte>, transform: (ProfileResult, seq<string>) -> K,
                         metricMap: K -> Option<map<string, V>>,
                         truthy: V -> bool, show: V -> string)
    returns (r: Result<ParsedFile<K, V>, Error>)
    ensures r == ParseFileSpec(d, buf, transform, metricMap, truthy, show)
  {
    if |buf| >= 4 {
      assert buf[..4] == [buf[0], buf[1], buf[2], buf[3]];
    }
    if |buf| < 4 || buf[0] != 0x4E || buf[1] != 0x56 || buf[2] != 0x52 || buf[3] != 0x00 {
      return Failure(BadMagic);
    }
    if |buf| < 8 {
      return Failure(HeaderLengthOutOfRange);
    }
    var offset: nat := 4;
    var fileHeaderSize := U32(buf, offset);
    offset := offset + 4;
    var fileHeader :- d.fileHeader(buf[offset..Min(offset + fileHeaderSize, |buf|)]);
    offset := offset + fileHeaderSize;
    var rawResults :- WalkBlocks(d, buf, offset);
    var kernels := Transformed(rawResults, transform);
    r := Success(ParsedFile(kernels, fileHeader.version, Session(fileHeader.version, kernels, metricMap, truthy, show)));
  }
}
