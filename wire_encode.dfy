/** The encoding side of the wire format, written as the partner of `Wire`: a message
    given as a sequence of records is encoded, and decoding it back yields each record's
    value under its field number, in the order the records were written. The same
    encoder exhibits the decoder's three ways of ending early. */
module WireEncode {
  import opened Wrappers
  import opened Wire
  import opened Sequences

  /** The payload a record carries, one per wire type the decoder understands. */
  datatype Payload =
    | PVarint(n: nat)
    | PFixed64(n: nat)
    | PBytes(b: seq<byte>)
    | PFixed32(n: nat)

  datatype Record = Record(field: nat, payload: Payload)

  function WireTypeOf(p: Payload): nat {
    match p
    case PVarint(_) => 0
    case PFixed64(_) => 1
    case PBytes(_) => 2
    case PFixed32(_) => 5
  }

  /** A record whose every number fits the width its wire type gives it. */
  predicate Canonical(r: Record) {
    r.field < 0x2000_0000 &&
    match r.payload
    case PVarint(n) => n < TWO_64
    case PFixed64(n) => n < TWO_64
    case PBytes(b) => |b| < TWO_32
    case PFixed32(n) => n < TWO_32
  }

  predicate AllCanonical(rs: seq<Record>) {
    forall i :: 0 <= i < |rs| ==> Canonical(rs[i])
  }

  function EncodeVarint(n: nat): (b: seq<byte>)
    ensures 1 <= |b|
    decreases n
  {
    if n < 128 then [n] else [n % 128 + 128] + EncodeVarint(n / 128)
  }

  function EncodeLittleEndian(n: nat, width: nat): (b: seq<byte>)
    ensures |b| == width
  {
    if width == 0 then [] else [n % 256] + EncodeLittleEndian(n / 256, width - 1)
  }

  function EncodePayload(p: Payload): seq<byte> {
    match p
    case PVarint(n) => EncodeVarint(n)
    case PFixed64(n) => EncodeLittleEndian(n, 8)
    case PBytes(b) => EncodeVarint(|b|) + b
    case PFixed32(n) => EncodeLittleEndian(n, 4)
  }

  function EncodeRecord(r: Record): seq<byte> {
    EncodeVarint(r.field * 8 + WireTypeOf(r.payload)) + EncodePayload(r.payload)
  }

  function EncodeRecords(rs: seq<Record>): seq<byte> {
    if rs == [] then [] else EncodeRecord(rs[0]) + EncodeRecords(rs[1..])
  }

  /** The entry the decoder stores for a payload. */
  function Decoded(p: Payload): Value {
    match p
    case PVarint(n) => Varint(n)
    case PFixed64(n) => Fixed64(n)
    case PBytes(b) => Classify(b)
    case PFixed32(n) => Fixed32(n)
  }

  /** The fields dictionary after `rs` have been read on top of `f`. */
  function GroupOnto(f: Fields, rs: seq<Record>): Fields
    decreases |rs|
  {
    if rs == [] then f
    else
      var g := Register(f, rs[0].field);
      GroupOnto(g[rs[0].field := g[rs[0].field] + [Decoded(rs[0].payload)]], rs[1..])
  }

  /** The values of the records numbered `n`, in order. */
  function ValuesOf(rs: seq<Record>, n: nat): seq<Value>
    decreases |rs|
  {
    if rs == [] then []
    else (if rs[0].field == n then [Decoded(rs[0].payload)] else []) + ValuesOf(rs[1..], n)
  }

  predicate Mentions(rs: seq<Record>, n: nat) {
    exists i :: 0 <= i < |rs| && rs[i].field == n
  }

  // ----- varints and fixed-width words -----

  lemma {:induction false} VarintRoundTrip(n: nat, rest: seq<byte>, budget: nat)
    requires |EncodeVarint(n)| <= budget
    ensures ReadVarintWithin(EncodeVarint(n) + rest, budget) == Success((n, |EncodeVarint(n)|))
    decreases n
  {
    var s := EncodeVarint(n) + rest;
    if n >= 128 {
      var tail := EncodeVarint(n / 128);
      assert s == [n % 128 + 128] + (tail + rest);
      assert s[1..] == tail + rest;
      VarintRoundTrip(n / 128, rest, budget - 1);
      assert s[0] - 128 + 128 * (n / 128) == n;
    } else {
      assert s[0] == n;
    }
  }

  lemma {:induction false} VarintLength(n: nat, m: nat)
    requires 1 <= m && n < Pow(128, m)
    ensures |EncodeVarint(n)| <= m
    decreases m
  {
    assert Pow(128, m) == 128 * Pow(128, m - 1);
    if n >= 128 && m > 1 {
      VarintLength(n / 128, m - 1);
    }
  }

  /** Every uint64 fits in the ten bytes the reader allows. */
  lemma Uint64VarintFits(n: nat)
    requires n < TWO_64
    ensures |EncodeVarint(n)| <= 10
  {
    assert Pow(128, 10) == 0x40_0000_0000_0000_0000;
    VarintLength(n, 10);
  }

  lemma ReadVarintOfEncoding(n: nat, rest: seq<byte>)
    requires n < TWO_64
    ensures ReadVarint(EncodeVarint(n) + rest) == Success((n, |EncodeVarint(n)|))
  {
    Uint64VarintFits(n);
    VarintRoundTrip(n, rest, 10);
  }

  lemma {:induction false} LittleEndianRoundTrip(n: nat, width: nat)
    requires n < Pow(256, width)
    ensures LittleEndian(EncodeLittleEndian(n, width)) == n
    decreases width
  {
    if width > 0 {
      var b := EncodeLittleEndian(n, width);
      assert b[1..] == EncodeLittleEndian(n / 256, width - 1);
      LittleEndianRoundTrip(n / 256, width - 1);
    }
  }

  lemma ReadFixedOfEncoding(n: nat, width: nat, rest: seq<byte>)
    requires n < Pow(256, width)
    ensures ReadFixed(EncodeLittleEndian(n, width) + rest, width) == Success((n, width))
  {
    assert (EncodeLittleEndian(n, width) + rest)[..width] == EncodeLittleEndian(n, width);
    LittleEndianRoundTrip(n, width);
  }

  // ----- one record, then many -----

  lemma ReadBytesOfEncoding(b: seq<byte>, rest: seq<byte>)
    requires |b| < TWO_32
    ensures ReadValue(EncodeVarint(|b|) + b + rest, 2) == Read(Classify(b), |EncodeVarint(|b|) + b|)
  {
    var s := EncodeVarint(|b|) + b + rest;
    assert s == EncodeVarint(|b|) + (b + rest);
    ReadVarintOfEncoding(|b|, b + rest);
    var k := |EncodeVarint(|b|)|;
    assert |b| % TWO_32 == |b|;
    assert s[k..k + |b|] == b;
  }

  /** Reading one value of a canonical payload consumes exactly its encoding. */
  lemma ReadPayload(p: Payload, rest: seq<byte>)
    requires Canonical(Record(0, p))
    ensures ReadValue(EncodePayload(p) + rest, WireTypeOf(p)) == Read(Decoded(p), |EncodePayload(p)|)
  {
    match p
    case PVarint(n) =>
      ReadVarintOfEncoding(n, rest);
      assert n % TWO_64 == n;
    case PFixed64(n) =>
      assert Pow(256, 8) == TWO_64;
      ReadFixedOfEncoding(n, 8, rest);
    case PBytes(b) =>
      ReadBytesOfEncoding(b, rest);
    case PFixed32(n) =>
      assert Pow(256, 4) == TWO_32;
      ReadFixedOfEncoding(n, 4, rest);
  }

  lemma ReadTag(field: nat, wireType: nat, rest: seq<byte>)
    requires field < 0x2000_0000 && wireType < 8
    ensures ReadVarint(EncodeVarint(field * 8 + wireType) + rest)
         == Success((field * 8 + wireType, |EncodeVarint(field * 8 + wireType)|))
    ensures (field * 8 + wireType) % 0x1_0000_0000 / 8 == field
    ensures (field * 8 + wireType) % 0x1_0000_0000 % 8 == wireType
  {
    ReadVarintOfEncoding(field * 8 + wireType, rest);
  }

  /** The tag of a record, then its value, are read as one step of the decoding loop. */
  lemma RecordStep(r: Record, rest: seq<byte>, f: Fields)
    requires Canonical(r)
    ensures Next(EncodeRecord(r) + rest, f)
         == Continue(|EncodeRecord(r)|,
                     Register(f, r.field)[r.field := Register(f, r.field)[r.field] + [Decoded(r.payload)]])
  {
    var v := r.field * 8 + WireTypeOf(r.payload);
    var tag := EncodeVarint(v);
    var s := EncodeRecord(r) + rest;
    var value := EncodePayload(r.payload) + rest;
    assert s == tag + value;
    ReadTag(r.field, WireTypeOf(r.payload), value);
    assert s[|tag|..] == value;
    assert Canonical(Record(0, r.payload));
    ReadPayload(r.payload, rest);
    StepOfRead(s, f, v, |tag|, Decoded(r.payload), |EncodePayload(r.payload)|);
  }

  lemma StepOfFailedRead(s: seq<byte>, f: Fields, v: nat, k: nat)
    requires ReadVarint(s) == Success((v, k))
    requires ReadValue(s[k..], v % 0x1_0000_0000 % 8).ReadFailed?
    ensures Next(s, f) == Done(Success(Register(f, v % 0x1_0000_0000 / 8)))
  {
  }

  lemma StepOfUnknownWireType(s: seq<byte>, f: Fields, v: nat, k: nat)
    requires ReadVarint(s) == Success((v, k))
    requires v % 0x1_0000_0000 % 8 in {3, 4, 6, 7}
    ensures Next(s, f) == Continue(k, Register(f, v % 0x1_0000_0000 / 8))
  {
  }

  /** How one step of the loop turns a tag read and a value read into its progress. */
  lemma StepOfRead(s: seq<byte>, f: Fields, v: nat, k: nat, value: Value, size: nat)
    requires ReadVarint(s) == Success((v, k))
    requires ReadValue(s[k..], v % 0x1_0000_0000 % 8) == Read(value, size)
    ensures Next(s, f) == Continue(k + size,
      Register(f, v % 0x1_0000_0000 / 8)[v % 0x1_0000_0000 / 8 := Register(f, v % 0x1_0000_0000 / 8)[v % 0x1_0000_0000 / 8] + [value]])
  {
  }

  /** Decoding a run of encoded records reads each of them and goes on with what follows. */
  lemma {:induction false} DecodeRecordsThen(rs: seq<Record>, rest: seq<byte>, f: Fields)
    requires AllCanonical(rs)
    ensures DecodeFrom(EncodeRecords(rs) + rest, f) == DecodeFrom(rest, GroupOnto(f, rs))
    decreases |rs|
  {
    if rs != [] {
      var tail := EncodeRecords(rs[1..]) + rest;
      assert EncodeRecords(rs) + rest == EncodeRecord(rs[0]) + tail;
      DecodeRecordThen(rs[0], tail, f);
      DecodeRecordsThen(rs[1..], rest, GroupOnto(f, [rs[0]]));
      assert GroupOnto(f, rs) == GroupOnto(GroupOnto(f, [rs[0]]), rs[1..]);
    } else {
      assert EncodeRecords(rs) + rest == rest;
    }
  }

  lemma DecodeRecordThen(r: Record, tail: seq<byte>, f: Fields)
    requires Canonical(r)
    ensures DecodeFrom(EncodeRecord(r) + tail, f) == DecodeFrom(tail, GroupOnto(f, [r]))
  {
    assert [r][1..] == [];
    var s := EncodeRecord(r) + tail;
    RecordStep(r, tail, f);
    assert s[|EncodeRecord(r)|..] == tail;
  }

  /** Round trip: an encoded message decodes to the records grouped by field number. */
  lemma RoundTrip(rs: seq<Record>)
    requires AllCanonical(rs)
    ensures Decode(EncodeRecords(rs)) == Success(GroupOnto(map[], rs))
  {
    DecodeRecordsThen(rs, [], map[]);
    assert EncodeRecords(rs) + [] == EncodeRecords(rs);
  }

  lemma {:induction false} GroupContents(f: Fields, rs: seq<Record>, n: nat)
    ensures n in GroupOnto(f, rs) <==> n in f || Mentions(rs, n)
    ensures n in GroupOnto(f, rs) ==> GroupOnto(f, rs)[n] == (if n in f then f[n] else []) + ValuesOf(rs, n)
    decreases |rs|
  {
    if rs != [] {
      var r := rs[0];
      var g0 := Register(f, r.field);
      var g := g0[r.field := g0[r.field] + [Decoded(r.payload)]];
      assert GroupOnto(f, rs) == GroupOnto(g, rs[1..]);
      GroupContents(g, rs[1..], n);
      MentionsCons(rs, n);
      if r.field == n {
        assert g[n] == (if n in f then f[n] else []) + [Decoded(r.payload)];
      } else {
        assert n in g <==> n in f;
      }
    }
  }

  lemma MentionsCons(rs: seq<Record>, n: nat)
    requires rs != []
    ensures Mentions(rs, n) <==> rs[0].field == n || Mentions(rs[1..], n)
  {
    if Mentions(rs, n) && rs[0].field != n {
      var i :| 0 <= i < |rs| && rs[i].field == n;
      assert rs[1..][i - 1].field == n;
    }
    if Mentions(rs[1..], n) {
      var i :| 0 <= i < |rs[1..]| && rs[1..][i].field == n;
      assert rs[i + 1].field == n;
    }
  }

  /** Each field's list holds the values of the records with that number, in the order
      they were written; a field number that was never written is absent. */
  lemma FieldsInWriteOrder(rs: seq<Record>, n: nat)
    requires AllCanonical(rs)
    ensures Decode(EncodeRecords(rs)).Success?
    ensures n in Decode(EncodeRecords(rs)).value <==> Mentions(rs, n)
    ensures Mentions(rs, n) ==> Decode(EncodeRecords(rs)).value[n] == ValuesOf(rs, n)
  {
    RoundTrip(rs);
    GroupContents(map[], rs, n);
  }

  // ----- the three ways decoding ends early -----

  /** A tag with an unknown wire type registers its field number with an empty list and
      decoding carries on right after the tag. */
  lemma UnknownWireTypeSkipsTag(rs: seq<Record>, field: nat, wireType: nat, rest: seq<byte>)
    requires AllCanonical(rs) && field < 0x2000_0000
    requires wireType in {3, 4, 6, 7}
    ensures Decode(EncodeRecords(rs) + EncodeVarint(field * 8 + wireType) + rest)
         == DecodeFrom(rest, Register(GroupOnto(map[], rs), field))
  {
    var tag := EncodeVarint(field * 8 + wireType);
    assert EncodeRecords(rs) + tag + rest == EncodeRecords(rs) + (tag + rest);
    DecodeRecordsThen(rs, tag + rest, map[]);
    UnknownWireTypeStep(GroupOnto(map[], rs), field, wireType, rest);
  }

  lemma UnknownWireTypeStep(f: Fields, field: nat, wireType: nat, rest: seq<byte>)
    requires field < 0x2000_0000
    requires wireType in {3, 4, 6, 7}
    ensures DecodeFrom(EncodeVarint(field * 8 + wireType) + rest, f) == DecodeFrom(rest, Register(f, field))
  {
    var tag := EncodeVarint(field * 8 + wireType);
    ReadTag(field, wireType, rest);
    assert (tag + rest)[|tag|..] == rest;
    StepOfUnknownWireType(tag + rest, f, field * 8 + wireType, |tag|);
  }

  /** A length-delimited value that claims more bytes than remain ends decoding; the
      field is registered and everything read before it is kept. */
  lemma TruncatedValueStops(rs: seq<Record>, field: nat, len: nat, payload: seq<byte>)
    requires AllCanonical(rs) && field < 0x2000_0000
    requires len < TWO_32 && |payload| < len
    ensures Decode(EncodeRecords(rs) + EncodeVarint(field * 8 + 2) + EncodeVarint(len) + payload)
         == Success(Register(GroupOnto(map[], rs), field))
  {
    var tag := EncodeVarint(field * 8 + 2);
    var value := EncodeVarint(len) + payload;
    Associative(EncodeRecords(rs) + tag, EncodeVarint(len), payload);
    Associative(EncodeRecords(rs), tag, value);
    DecodeRecordsThen(rs, tag + value, map[]);
    TruncatedValueStep(GroupOnto(map[], rs), field, len, payload);
  }

  lemma TruncatedValueStep(f: Fields, field: nat, len: nat, payload: seq<byte>)
    requires field < 0x2000_0000
    requires len < TWO_32 && |payload| < len
    ensures DecodeFrom(EncodeVarint(field * 8 + 2) + (EncodeVarint(len) + payload), f)
         == Success(Register(f, field))
  {
    var tag := EncodeVarint(field * 8 + 2);
    var value := EncodeVarint(len) + payload;
    ReadTag(field, 2, value);
    assert (tag + value)[|tag|..] == value;
    ReadVarintOfEncoding(len, payload);
    assert len % TWO_32 == len;
    assert ReadValue(value, 2).ReadFailed?;
    StepOfFailedRead(tag + value, f, field * 8 + 2, |tag|);
  }

  /** A message that ends inside a tag makes the decoder throw: the tag read is outside
      the source's `try`, so the error escapes instead of ending the loop. */
  lemma TruncatedTagEscapes(rs: seq<Record>, t: seq<byte>)
    requires AllCanonical(rs)
    requires 1 <= |t| && forall i :: 0 <= i < |t| ==> t[i] >= 128
    ensures Decode(EncodeRecords(rs) + t) == Failure(if |t| < 10 then IndexOutOfRange else InvalidVarint)
  {
    DecodeRecordsThen(rs, t, map[]);
    VarintReadOutcome(t, 10);
  }
}
