/** The generic wire decoder of the `.ncu-rep` reader (`decodeMessage` in
    src/ncu-parser-protobufjs.js): base-128 varints, fixed 32- and 64-bit
    little-endian words, length-delimited blobs, and the schema-free pass that turns a
    message into a map from field number to the list of values seen under it. */
module Wire {
  import opened Wrappers

  type byte = x: int | 0 <= x < 256

  const TWO_32: nat := 0x1_0000_0000
  const TWO_64: nat := 0x1_0000_0000_0000_0000

  /** The JavaScript exceptions that can escape the decoder. */
  datatype Error =
    | BadMagic                // 'Not a valid .ncu-rep file (bad magic header)'
    | IndexOutOfRange         // the protobuf reader ran past the end of its buffer
    | InvalidVarint           // a varint whose ten bytes all carry the continuation bit
    | HeaderLengthOutOfRange  // DataView.getUint32 past the end of the buffer
    | TypeError               // a property read on `undefined`, or a Number mixed with a BigInt

  function Pow(base: nat, e: nat): nat {
    if e == 0 then 1 else base * Pow(base, e - 1)
  }

  /** No byte among the first `budget` ones of `s` ends a varint. */
  predicate Unterminated(s: seq<byte>, budget: nat) {
    forall k :: 0 <= k < |s| && k < budget ==> s[k] >= 128
  }

  /** A base-128 varint at the front of `s`, least significant group first: its value
      and the number of bytes it occupies. At most `budget` bytes are examined. */
  function ReadVarintWithin(s: seq<byte>, budget: nat): (r: Result<(nat, nat), Error>)
    ensures r.Success? ==> 1 <= r.value.1 <= budget && r.value.1 <= |s|
    decreases budget
  {
    if budget == 0 then Failure(InvalidVarint)
    else if |s| == 0 then Failure(IndexOutOfRange)
    else if s[0] < 128 then Success((s[0], 1))
    else
      match ReadVarintWithin(s[1..], budget - 1)
      case Success((v, n)) => Success((s[0] - 128 + 128 * v, n + 1))
      case Failure(e) => Failure(e)
  }

  /** A varint read fails exactly when no byte within reach ends it; the reader reports
      running out of input before it reports an overlong encoding. When it succeeds, the
      last byte it consumed is the first one without the continuation bit. */
  lemma {:induction false} VarintReadOutcome(s: seq<byte>, budget: nat)
    ensures ReadVarintWithin(s, budget).Failure? <==> Unterminated(s, budget)
    ensures ReadVarintWithin(s, budget).Failure? ==>
      ReadVarintWithin(s, budget).error == (if |s| < budget then IndexOutOfRange else InvalidVarint)
    ensures ReadVarintWithin(s, budget).Success? ==>
      var n := ReadVarintWithin(s, budget).value.1;
      s[n - 1] < 128 && forall k :: 0 <= k < n - 1 ==> s[k] >= 128
    decreases budget
  {
    if budget > 0 && |s| > 0 && s[0] >= 128 {
      VarintReadOutcome(s[1..], budget - 1);
      if Unterminated(s[1..], budget - 1) {
        forall k | 0 <= k < |s| && k < budget
          ensures s[k] >= 128
        {
          if k > 0 {
            assert s[1..][k - 1] == s[k];
          }
        }
      } else {
        var j :| 0 <= j < |s[1..]| && j < budget - 1 && s[1..][j] < 128;
        assert s[j + 1] < 128;
      }
      if ReadVarintWithin(s, budget).Success? {
        var n := ReadVarintWithin(s, budget).value.1;
        forall k | 0 <= k < n - 1
          ensures s[k] >= 128
        {
          if k > 0 {
            assert s[1..][k - 1] == s[k];
          }
        }
      }
    }
  }

  /** A varint as the protobuf reader reads it: ten bytes at most. */
  function ReadVarint(s: seq<byte>): Result<(nat, nat), Error> {
    ReadVarintWithin(s, 10)
  }

  function LittleEndian(b: seq<byte>): (n: nat)
    ensures n < Pow(256, |b|)
  {
    if b == [] then 0 else b[0] + 256 * LittleEndian(b[1..])
  }

  /** A little-endian word of `width` bytes at the front of `s`. */
  function ReadFixed(s: seq<byte>, width: nat): (r: Result<(nat, nat), Error>)
    ensures r.Success? <==> width <= |s|
    ensures r.Success? ==> r.value.1 == width && r.value.0 < Pow(256, width)
  {
    if |s| < width then Failure(IndexOutOfRange) else Success((LittleEndian(s[..width]), width))
  }

  /** TextDecoder on a blob, restricted to ASCII: a byte below 0x80 is that character,
      any other byte the replacement character. */
  function DecodeText(b: seq<byte>): (s: string)
    ensures |s| == |b|
  {
    seq(|b|, i requires 0 <= i < |b| => if b[i] < 128 then b[i] as char else '�')
  }

  /** Printable ASCII, or TAB, LF, CR. */
  predicate IsPrintableChar(c: char) {
    (32 <= c as int <= 126) || c == '\t' || c == '\n' || c == '\r'
  }

  function PrintableCount(s: string): (n: nat)
    ensures n <= |s|
  {
    if s == [] then 0 else (if IsPrintableChar(s[0]) then 1 else 0) + PrintableCount(s[1..])
  }

  /** `isPrintableString`: more than 80% of the string's characters are printable. The
      source divides and compares the ratio with 0.8; for a non-empty string that is the
      comparison below, with the division multiplied out. */
  function IsPrintableString(s: string): (r: bool)
    ensures |s| == 0 ==> !r
    ensures r <==> |s| > 0 && PrintableCount(s) as real > 0.8 * (|s| as real)
  {
    var p, n := PrintableCount(s), |s|;
    assert (5 * p) as real == 5.0 * (p as real) && (4 * n) as real == 4.0 * (n as real);
    n > 0 && 5 * p > 4 * n
  }

  /** One entry of a field list: `{value, wireType, valueType}` of the source. A
      length-delimited value that passes the text heuristic is the `{bytes, string}`
      wrapper (`Text`); one that does not is the bare byte array (`Bytes`). */
  datatype Value =
    | Varint(n: nat)
    | Fixed64(n: nat)
    | Bytes(b: seq<byte>)
    | Text(b: seq<byte>, s: string)
    | Fixed32(n: nat)
  {
    function WireType(): nat {
      match this
      case Varint(_) => 0
      case Fixed64(_) => 1
      case Bytes(_) => 2
      case Text(_, _) => 2
      case Fixed32(_) => 5
    }
  }

  /** The text heuristic applied to every length-delimited value. */
  function Classify(b: seq<byte>): (v: Value)
    ensures v.WireType() == 2
    ensures v.Text? <==> IsPrintableString(DecodeText(b))
    ensures v.Text? ==> v.b == b && v.s == DecodeText(b)
    ensures v.Bytes? ==> v.b == b
  {
    var s := DecodeText(b);
    if IsPrintableString(s) then Text(b, s) else Bytes(b)
  }

  /** What reading one value of a given wire type from the front of `s` gives. */
  datatype Step = Read(v: Value, size: nat) | UnknownWireType | ReadFailed(e: Error)

  function ReadValue(s: seq<byte>, wireType: nat): (r: Step)
    ensures r.UnknownWireType? <==> wireType !in {0, 1, 2, 5}
    ensures r.Read? ==> 1 <= r.size <= |s| && r.v.WireType() == wireType
  {
    if wireType == 0 then
      match ReadVarint(s)
      case Success((n, size)) => Read(Varint(n % TWO_64), size)
      case Failure(e) => ReadFailed(e)
    else if wireType == 1 then
      match ReadFixed(s, 8)
      case Success((n, size)) => Read(Fixed64(n), size)
      case Failure(e) => ReadFailed(e)
    else if wireType == 2 then
      match ReadVarint(s)
      case Failure(e) => ReadFailed(e)
      case Success((n, k)) =>
        var len := n % TWO_32;
        if k + len > |s| then ReadFailed(IndexOutOfRange)
        else Read(Classify(s[k..k + len]), k + len)
    else if wireType == 5 then
      match ReadFixed(s, 4)
      case Success((n, size)) => Read(Fixed32(n), size)
      case Failure(e) => ReadFailed(e)
    else
      UnknownWireType
  }

  /** The `fields` dictionary: field number to its values in the order they occur. */
  type Fields = map<nat, seq<Value>>

  /** `if (!fields[n]) fields[n] = []`. */
  function Register(f: Fields, n: nat): (g: Fields)
    ensures g.Keys == f.Keys + {n}
    ensures forall k :: k in f ==> g[k] == f[k]
    ensures n !in f ==> g[n] == []
  {
    if n in f then f else f[n := []]
  }

  /** Field numbers that fit a 32-bit tag. */
  predicate SmallKeys(f: Fields) {
    forall k :: k in f ==> k < 0x2000_0000
  }

  /** One pass of the loop of `decodeMessage`: how many bytes it consumes and the fields
      it leaves, or the end of the loop. A failed tag read is outside the source's `try`
      and escapes; a good tag registers its field number; an unknown wire type consumes
      only the tag; a failed value read ends the loop with what has been gathered. */
  datatype Progress = Continue(consumed: nat, fields: Fields) | Done(result: Result<Fields, Error>)

  function Next(s: seq<byte>, f: Fields): (p: Progress)
    ensures p.Continue? ==> 1 <= p.consumed <= |s|
  {
    match ReadVarint(s)
    case Failure(e) => Done(Failure(e))
    case Success((v, k)) =>
      var tag := v % 0x1_0000_0000;
      var fieldNumber := tag / 8;
      var f1 := Register(f, fieldNumber);
      match ReadValue(s[k..], tag % 8)
      case UnknownWireType => Continue(k, f1)
      case ReadFailed(_) => Done(Success(f1))
      case Read(value, size) => Continue(k + size, f1[fieldNumber := f1[fieldNumber] + [value]])
  }

  /** `g` extends `f`: no field is lost, every list only gets longer at its end, and field
      numbers stay within what a 32-bit tag can carry. */
  predicate Grows(f: Fields, g: Fields) {
    f.Keys <= g.Keys
    && (forall k :: k in f ==> f[k] <= g[k])
    && (SmallKeys(f) ==> SmallKeys(g))
  }

  /** The loop of `decodeMessage` from a given point, as a function of the bytes left and
      the fields gathered so far. */
  function DecodeFrom(s: seq<byte>, f: Fields): (r: Result<Fields, Error>)
    decreases |s|
  {
    if |s| == 0 then Success(f)
    else
      match Next(s, f)
      case Done(r) => r
      case Continue(n, g) => DecodeFrom(s[n..], g)
  }

  function Decode(s: seq<byte>): Result<Fields, Error> {
    DecodeFrom(s, map[])
  }

  lemma NextGrows(s: seq<byte>, f: Fields)
    ensures Next(s, f).Continue? ==> Grows(f, Next(s, f).fields)
    ensures Next(s, f).Done? && Next(s, f).result.Success? ==> Grows(f, Next(s, f).result.value)
  {
  }

  /** Decoding only ever registers field numbers and appends values. */
  lemma {:induction false} DecodeFromGrows(s: seq<byte>, f: Fields)
    ensures DecodeFrom(s, f).Success? ==> Grows(f, DecodeFrom(s, f).value)
    decreases |s|
  {
    if |s| > 0 {
      NextGrows(s, f);
      match Next(s, f)
      case Done(_) =>
      case Continue(n, g) =>
        DecodeFromGrows(s[n..], g);
        GrowsTransitive(f, g, DecodeFrom(s[n..], g));
    }
  }

  lemma GrowsTransitive(f: Fields, g: Fields, h: Result<Fields, Error>)
    requires Grows(f, g)
    ensures h.Success? && Grows(g, h.value) ==> Grows(f, h.value)
  {
    if h.Success? && Grows(g, h.value) {
      forall k | k in f
        ensures f[k] <= h.value[k]
      {
        assert f[k] <= g[k] <= h.value[k];
      }
    }
  }

  /** Every field number in a decoded message fits in the 29 bits a 32-bit tag leaves. */
  lemma DecodedKeysAreSmall(s: seq<byte>)
    ensures Decode(s).Success? ==> SmallKeys(Decode(s).value)
  {
    DecodeFromGrows(s, map[]);
  }

  /** One pass of the loop of `decodeMessage`, with the reader at `pos`. */
  method ReadField(buffer: seq<byte>, pos: nat, fields: Fields) returns (p: Progress)
    requires pos < |buffer|
    ensures p == Next(buffer[pos..], fields)
  {
    var tagRead := ReadVarint(buffer[pos..]);
    if tagRead.Failure? {
      return Done(Failure(tagRead.error));
    }
    var v, k := tagRead.value.0, tagRead.value.1;
    var tag := v % 0x1_0000_0000;
    var fieldNumber := tag / 8;
    var wireType := tag % 8;
    var gathered := fields;
    if fieldNumber !in gathered {
      gathered := gathered[fieldNumber := []];
    }
    assert gathered == Register(fields, fieldNumber);
    assert buffer[pos..][k..] == buffer[pos + k..];
    var step := ReadValue(buffer[pos + k..], wireType);
    match step {
      case UnknownWireType =>
        p := Continue(k, gathered);
      case ReadFailed(_) =>
        // the `break` out of the loop: the fields gathered so far
        p := Done(Success(gathered));
      case Read(value, size) =>
        gathered := gathered[fieldNumber := gathered[fieldNumber] + [value]];
        p := Continue(k + size, gathered);
    }
  }

  /** `decodeMessage`: the reader's position advances through the buffer while the
      dictionary of fields fills up. */
  method DecodeMessage(buffer: seq<byte>) returns (r: Result<Fields, Error>)
    ensures r == Decode(buffer)
  {
    var fields: Fields := map[];
    var pos := 0;
    while pos < |buffer|
      invariant pos <= |buffer|
      invariant DecodeFrom(buffer[pos..], fields) == Decode(buffer)
      decreases |buffer| - pos
    {
      var p := ReadField(buffer, pos, fields);
      match p {
        case Done(result) =>
          return result;
        case Continue(n, g) =>
          assert buffer[pos..][n..] == buffer[pos + n..];
          pos, fields := pos + n, g;
      }
    }
    r := Success(fields);
  }
}
