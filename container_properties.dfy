/** Properties of the `.ncu-rep` walk: the magic check comes first, the blocks tile the
    file from the end of the file header onwards and the walk stops only at one of its
    three stop conditions, an overrunning result entry ends only its own block's result
    group, the string table sticks until a later block brings a non-empty one, and the
    session info follows the first kernel's metric map. */
module ContainerProperties {
  import opened Wrappers
  import opened Wire
  import opened WireEncode
  import opened Schema
  import opened SchemaProperties
  import opened Container
  import opened Sequences

  /** A bad magic number is reported before any decoder is consulted. */
  lemma BadMagicFails<K, V>(d: Decoders, buf: seq<byte>, transform: (ProfileResult, seq<string>) -> K,
                            metricMap: K -> Option<map<string, V>>, truthy: V -> bool, show: V -> string)
    requires |buf| < 4 || buf[..4] != MAGIC
    ensures ParseFileSpec(d, buf, transform, metricMap, truthy, show) == Failure(BadMagic)
  {
  }

  /** The block loop stops at `off` exactly when fewer than 4 bytes remain, the block
      header size is 0, or the block header overruns the file. */
  predicate StopsAt(buf: seq<byte>, off: nat) {
    off + 4 > |buf| || U32(buf, off) == 0 || off + 4 + U32(buf, off) > |buf|
  }

  /** Where the walk that went through `bs` from `off` ended up. */
  function End(off: nat, bs: seq<BlockStep>): nat {
    if bs == [] then off else bs[|bs| - 1].next
  }

  /** The blocks `bs` tile the file from `off`: the first starts at `off`, each one has
      a non-empty header inside the file, each one starts where the previous one ended
      (so the offset strictly increases), and the walk ends at a stop condition. */
  predicate Tiles(buf: seq<byte>, off: nat, bs: seq<BlockStep>) {
    && (bs != [] ==> bs[0].start == off)
    && (forall i :: 0 <= i < |bs| ==>
          bs[i].start + 4 <= |buf| && U32(buf, bs[i].start) > 0 &&
          bs[i].start + 4 + U32(buf, bs[i].start) <= |buf| &&
          bs[i].start + 4 + U32(buf, bs[i].start) <= bs[i].next)
    && (forall i :: 0 <= i < |bs| - 1 ==> bs[i].next == bs[i + 1].start)
    && StopsAt(buf, End(off, bs))
  }

  lemma TilesCons(buf: seq<byte>, s: BlockStep, rest: seq<BlockStep>)
    requires s.start + 4 <= |buf| && U32(buf, s.start) > 0 && s.start + 4 + U32(buf, s.start) <= |buf|
    requires s.start + 4 + U32(buf, s.start) <= s.next
    requires Tiles(buf, s.next, rest)
    ensures Tiles(buf, s.start, [s] + rest)
  {
    var bs := [s] + rest;
    assert End(s.start, bs) == End(s.next, rest);
    assert forall i :: 1 <= i < |bs| ==> bs[i] == rest[i - 1];
  }

  /** One block of the walk, and the walk after it. */
  lemma BlocksCons(d: Decoders, buf: seq<byte>, off: nat, decoded: nat)
    requires Blocks(d, buf, off, decoded).Success?
    ensures ReadBlock(d, buf, off, decoded).Success?
    ensures ReadBlock(d, buf, off, decoded).value.None? ==> Blocks(d, buf, off, decoded).value == []
    ensures ReadBlock(d, buf, off, decoded).value.Some? ==>
      var s := ReadBlock(d, buf, off, decoded).value.value;
      && s.start == off && s.start + 4 <= |buf| && U32(buf, s.start) > 0
      && s.start + 4 + U32(buf, s.start) <= |buf| && s.start + 4 + U32(buf, s.start) <= s.next
      && Blocks(d, buf, s.next, decoded + |s.results|).Success?
      && Blocks(d, buf, off, decoded).value == [s] + Blocks(d, buf, s.next, decoded + |s.results|).value
  {
  }

  /** The blocks the walk reads tile the file from where the walk starts. */
  lemma {:induction false} BlocksContiguous(d: Decoders, buf: seq<byte>, off: nat, decoded: nat)
    requires Blocks(d, buf, off, decoded).Success?
    ensures Tiles(buf, off, Blocks(d, buf, off, decoded).value)
    decreases |buf| - off, 1
  {
    BlocksCons(d, buf, off, decoded);
    if ReadBlock(d, buf, off, decoded).value.Some? {
      BlocksContiguousStep(d, buf, off, decoded, ReadBlock(d, buf, off, decoded).value.value);
    }
  }

  /** The step of `BlocksContiguous` over one block. */
  lemma {:induction false} BlocksContiguousStep(d: Decoders, buf: seq<byte>, off: nat, decoded: nat, s: BlockStep)
    requires Blocks(d, buf, off, decoded).Success? && ReadBlock(d, buf, off, decoded) == Success(Some(s))
    ensures Tiles(buf, off, Blocks(d, buf, off, decoded).value)
    decreases |buf| - off, 0
  {
    BlocksOfStep(d, buf, off, decoded, s);
    var rest := Blocks(d, buf, s.next, decoded + |s.results|);
    BlocksContiguous(d, buf, s.next, decoded + |s.results|);
    TilesCons(buf, s, rest.value);
  }

  /** The walk over a block that was read: the block, then the walk after it. */
  lemma BlocksOfStep(d: Decoders, buf: seq<byte>, off: nat, decoded: nat, s: BlockStep)
    requires Blocks(d, buf, off, decoded).Success? && ReadBlock(d, buf, off, decoded) == Success(Some(s))
    ensures s.start == off && s.start + 4 <= |buf| && U32(buf, s.start) > 0
    ensures s.start + 4 + U32(buf, s.start) <= |buf| && s.start + 4 + U32(buf, s.start) <= s.next
    ensures Blocks(d, buf, s.next, decoded + |s.results|).Success?
    ensures Blocks(d, buf, off, decoded).value == [s] + Blocks(d, buf, s.next, decoded + |s.results|).value
  {
  }

  /** The last non-empty table of a run: `[]` exactly when every table is empty, and
      otherwise a table of the run after which only empty tables follow. */
  lemma {:induction false} LastTableIsLatest(ts: seq<seq<string>>)
    ensures LastTable(ts) == [] <==> forall i :: 0 <= i < |ts| ==> ts[i] == []
    ensures LastTable(ts) != [] ==>
      exists i :: 0 <= i < |ts| && ts[i] == LastTable(ts) && forall j :: i < j < |ts| ==> ts[j] == []
    decreases |ts|
  {
    if ts != [] {
      var front := ts[..|ts| - 1];
      LastTableIsLatest(front);
      assert forall i :: 0 <= i < |front| ==> ts[i] == front[i];
      if |ts[|ts| - 1]| == 0 {
        if LastTable(ts) != [] {
          var i :| 0 <= i < |front| && front[i] == LastTable(front) && forall j :: i < j < |front| ==> front[j] == [];
          assert ts[i] == LastTable(ts) && forall j :: i < j < |ts| ==> ts[j] == [];
        }
      } else {
        assert ts[|ts| - 1] == LastTable(ts);
      }
    }
  }

  /** The pairing as the block loop does it, front to back: each block's results get the
      block's own table when it is non-empty, else the table kept from earlier blocks. */
  function PairedFrom(bs: seq<BlockStep>, last: seq<string>): seq<RawResult>
    decreases |bs|
  {
    if bs == [] then []
    else
      var table := Sticky(last, bs[0].header.stringTable);
      Tagged(bs[0].results, table) + PairedFrom(bs[1..], table)
  }

  /** Pairing the blocks `done + rest` is pairing `done`, then carrying on over `rest`
      with the table `done` leaves behind. */
  lemma {:induction false} PairedSplit(done: seq<BlockStep>, rest: seq<BlockStep>)
    ensures Paired(done + rest) == Paired(done) + PairedFrom(rest, LastTable(TablesOf(done)))
    decreases |rest|
  {
    if rest == [] {
      assert done + rest == done;
    } else {
      var next := done + [rest[0]];
      ShiftOne(done, rest);
      PairedSplit(next, rest[1..]);
      PairedSnoc(done, rest[0]);
      var table := Sticky(LastTable(TablesOf(done)), rest[0].header.stringTable);
      assert LastTable(TablesOf(next)) == table;
      Associative(Paired(done), Tagged(rest[0].results, table), PairedFrom(rest[1..], table));
    }
  }

  /** `rawResults` at the end of the walk is the front-to-back pairing from an empty table. */
  lemma PairedIsFrontToBack(bs: seq<BlockStep>)
    ensures Paired(bs) == PairedFrom(bs, [])
  {
    PairedSplit([], bs);
    assert [] + bs == bs;
    assert Paired([]) + PairedFrom(bs, []) == PairedFrom(bs, []);
  }

  /** An entry whose size prefix fits but whose body overruns the file ends that block's
      result group just after the prefix; the block itself is still read to the end (its
      range entries and the payload jump), so the walk goes on with the next block. */
  lemma OverrunEndsOnlyResults(d: Decoders, buf: seq<byte>, off: nat, decoded: nat, header: BlockHeader, afterSources: nat)
    requires off + 4 <= |buf| && U32(buf, off) > 0 && off + 4 + U32(buf, off) <= |buf|
    requires d.blockHeader(buf[off + 4..off + 4 + U32(buf, off)]) == Success(header)
    requires afterSources == Skipped(buf, off + 4 + U32(buf, off), Count(header.numSources))
    requires Count(header.numResults) > 0
    requires afterSources + 4 <= |buf| && afterSources + 4 + U32(buf, afterSources) > |buf|
    ensures ReadBlock(d, buf, off, decoded) ==
      Success(Some(BlockStep(off, header, [],
        PayloadJump(Skipped(buf, afterSources + 4, Count(header.numRangeResults)), off + 4 + U32(buf, off), header.payloadSize))))
  {
    assert ResultsFrom(d, buf, afterSources, Count(header.numResults), decoded) == Success(Group([], afterSources + 4));
  }

  /** A little-endian length prefix reads back as its value. */
  lemma U32OfEncoding(n: nat, buf: seq<byte>, off: nat)
    requires n < 0x1_0000_0000
    requires off + 4 <= |buf| && buf[off..off + 4] == EncodeLittleEndian(n, 4)
    ensures U32(buf, off) == n
  {
    var n1, n2, n3 := n / 256, n / 256 / 256, n / 256 / 256 / 256;
    var e := EncodeLittleEndian(n, 4);
    assert e == [n % 256] + EncodeLittleEndian(n1, 3);
    assert EncodeLittleEndian(n1, 3) == [n1 % 256] + EncodeLittleEndian(n2, 2);
    assert EncodeLittleEndian(n2, 2) == [n2 % 256] + EncodeLittleEndian(n3, 1);
    assert EncodeLittleEndian(n3, 1) == [n3 % 256];
    assert e[0] as int == n % 256 && e[1] as int == n1 % 256 && e[2] as int == n2 % 256 && e[3] as int == n3 % 256;
    assert buf[off] == e[0] && buf[off + 1] == e[1] && buf[off + 2] == e[2] && buf[off + 3] == e[3];
    assert n == n % 256 + 256 * n1 && n1 == n1 % 256 + 256 * n2 && n2 == n2 % 256 + 256 * n3;
    assert n3 < 256;
  }

  /** The framing of a file that starts with the magic and a file header `h`. */
  lemma FramedHeader(h: seq<byte>, tail: seq<byte>)
    requires |h| < 0x1_0000_0000
    ensures var buf := MAGIC + EncodeLittleEndian(|h|, 4) + h + tail;
      && |buf| >= 8 && buf[..4] == MAGIC && U32(buf, 4) == |h| && buf[8..Min(8 + |h|, |buf|)] == h
      && (8 + |h| + 4 <= |buf| ==> U32(buf, 8 + |h|) == U32(tail, 0))
  {
    var buf := MAGIC + EncodeLittleEndian(|h|, 4) + h + tail;
    assert buf[..4] == MAGIC;
    assert buf[4..8] == EncodeLittleEndian(|h|, 4);
    U32OfEncoding(|h|, buf, 4);
    assert buf[8..Min(8 + |h|, |buf|)] == h;
    var end := 8 + |h|;
    if end + 4 <= |buf| {
      assert buf[end..end + 4] == tail[0..4];
    }
  }

  /** A file made of the magic, a file header holding the records `rs` and a tail at
      which the block loop stops at once: no kernels, the header's field 1 as the
      version, and no device info. */
  lemma HeaderOnlyFile<K, V>(rs: seq<Record>, tail: seq<byte>, transform: (ProfileResult, seq<string>) -> K,
                             metricMap: K -> Option<map<string, V>>, truthy: V -> bool, show: V -> string)
    requires AllCanonical(rs) && |EncodeRecords(rs)| < 0x1_0000_0000
    requires StopsAt(tail, 0)
    ensures var h := EncodeRecords(rs);
      ParseFileSpec(SchemaDecoders, MAGIC + EncodeLittleEndian(|h|, 4) + h + tail, transform, metricMap, truthy, show) ==
        Success(ParsedFile([], NumberOf(rs, 1), SessionInfo(NumberOf(rs, 1), None)))
  {
    var h := EncodeRecords(rs);
    var buf := MAGIC + EncodeLittleEndian(|h|, 4) + h + tail;
    FramedHeader(h, tail);
    NumberFieldOfEncoding(rs, 1);
    assert DecodeFileHeader(h) == Success(FileHeader(NumberOf(rs, 1)));
    var end := 8 + |h|;
    assert ReadBlock(SchemaDecoders, buf, end, 0) == Success(None);
    assert Blocks(SchemaDecoders, buf, end, 0) == Success([]);
  }

  /** `computeCapability` is `"major.minor"` when both attributes are truthy, and
      `'Unknown'` exactly when one of them is missing or falsy. */
  lemma CapabilityKnown<V>(m: map<string, V>, truthy: V -> bool, show: V -> string)
    ensures var major := "device__attribute_compute_capability_major";
      var minor := "device__attribute_compute_capability_minor";
      && (ComputeCapability(m, truthy, show) != "Unknown" <==>
            major in m && truthy(m[major]) && minor in m && truthy(m[minor]))
      && (major in m && truthy(m[major]) && minor in m && truthy(m[minor]) ==>
            ComputeCapability(m, truthy, show) == show(m[major]) + "." + show(m[minor]))
  {
    var major := "device__attribute_compute_capability_major";
    var minor := "device__attribute_compute_capability_minor";
    if major in m && truthy(m[major]) && minor in m && truthy(m[minor]) {
      var a := show(m[major]);
      var c := a + "." + show(m[minor]);
      assert c[|a|] == '.';
    }
  }

  /** A successful parse: the kernels are the transformed results of the walk, paired
      front to back, and the device info is read from the first kernel's metric map
      when it has one. */
  lemma ParsedKernels<K, V>(d: Decoders, buf: seq<byte>, transform: (ProfileResult, seq<string>) -> K,
                            metricMap: K -> Option<map<string, V>>, truthy: V -> bool, show: V -> string)
    requires ParseFileSpec(d, buf, transform, metricMap, truthy, show).Success?
    ensures var p := ParseFileSpec(d, buf, transform, metricMap, truthy, show).value;
      && |buf| >= 8 && buf[..4] == MAGIC
      && Blocks(d, buf, 8 + U32(buf, 4), 0).Success?
      && p.kernels == Transformed(PairedFrom(Blocks(d, buf, 8 + U32(buf, 4), 0).value, []), transform)
      && p.sessionInfo.fileVersion == p.fileVersion
      && (p.sessionInfo.device.Some? <==> |p.kernels| > 0 && metricMap(p.kernels[0]).Some?)
      && (p.sessionInfo.device.Some? ==> p.sessionInfo.device.value == DeviceOf(metricMap(p.kernels[0]).value, truthy, show))
  {
    PairedIsFrontToBack(Blocks(d, buf, 8 + U32(buf, 4), 0).value);
  }
}
