/** The line classifiers of the `ncu` text-report parser. Each regular expression of the
    parser is written out as the match a backtracking engine finds for it: greedy runs
    take as much as they can, the lazy kernel name as little, and where a greedy run
    has to give characters back (the white space before a section name) the fallback
    is spelled out. */
module ReportLines {
  import opened Wrappers
  import opened JsText

  // ----- runs and literals -----

  /** The length of the run of characters in `inClass` starting at `i`. */
  function RunOf(s: string, i: nat, inClass: char -> bool): (n: nat)
    requires i <= |s|
    ensures i + n <= |s|
    decreases |s| - i
  {
    if i < |s| && inClass(s[i]) then 1 + RunOf(s, i + 1, inClass) else 0
  }

  /** The run takes every character of the class from `i` on and stops at the first
      one outside it. */
  lemma {:induction false} RunOfStops(s: string, i: nat, inClass: char -> bool)
    requires i <= |s|
    ensures forall k :: i <= k < i + RunOf(s, i, inClass) ==> inClass(s[k])
    ensures i + RunOf(s, i, inClass) == |s| || !inClass(s[i + RunOf(s, i, inClass)])
    decreases |s| - i
  {
    if i < |s| && inClass(s[i]) {
      RunOfStops(s, i + 1, inClass);
    }
  }

  predicate IsDash(c: char) {
    c == '-'
  }

  /** The class `[\d.]`. */
  predicate IsVersionChar(c: char) {
    IsDigit(c) || c == '.'
  }

  /** `lit` appears in `s` at `i`. */
  predicate LitAt(s: string, i: nat, lit: string) {
    i + |lit| <= |s| && s[i..i + |lit|] == lit
  }

  /** The value of a run of decimal digits, as `parseInt` reads it. */
  function DecimalValue(d: string): nat
    decreases |d|
  {
    if d == [] then 0
    else 10 * DecimalValue(d[..|d| - 1]) + (if IsDigit(d[|d| - 1]) then d[|d| - 1] as int - '0' as int else 0)
  }

  /** `lit` at `i`, and the position after it. */
  function Lit(s: string, i: nat, lit: string): (r: Option<nat>)
    ensures r.Some? ==> i <= r.value <= |s| && r.value == i + |lit|
  {
    if LitAt(s, i, lit) then Some(i + |lit|) else None
  }

  /** A greedy run of at least `least` characters of `inClass` at `i`, and the position
      after it. */
  function Run(s: string, i: nat, inClass: char -> bool, least: nat): (r: Option<nat>)
    ensures r.Some? ==> i + least <= r.value <= |s|
  {
    if i <= |s| && RunOf(s, i, inClass) >= least then Some(i + RunOf(s, i, inClass)) else None
  }

  /** Where `\d+(?:,\s*\d+)*` starting at `i` ends. A comma that is not followed by
      digits is left for the next token, which then fails to match it. */
  function DigitListEnd(s: string, i: nat): (r: Option<nat>)
    ensures r.Some? ==> i < r.value <= |s|
  {
    var e :- Run(s, i, IsDigit, 1);
    Some(ListRest(s, e))
  }

  function ListRest(s: string, j: nat): (e: nat)
    requires j <= |s|
    ensures j <= e <= |s|
    decreases |s| - j
  {
    if j < |s| && s[j] == ',' then
      var w := RunOf(s, j + 1, IsSpace);
      var d := RunOf(s, j + 1 + w, IsDigit);
      if d > 0 then ListRest(s, j + 1 + w + d) else j
    else j
  }

  // ----- the kernel line -----

  /** The launch dimensions captured by `\s+\((…)\)x\((…)\),\s*Context` from `j`, and the
      position after `Context`. */
  datatype Launch = Launch(grid: string, block: string, rest: nat)

  function LaunchAt(s: string, j: nat): (r: Option<Launch>)
    ensures r.Some? ==> j < r.value.rest <= |s|
  {
    var p :- Run(s, j, IsSpace, 1);
    var g0 :- Lit(s, p, "(");
    var g1 :- DigitListEnd(s, g0);
    var b0 :- Lit(s, g1, ")x(");
    var b1 :- DigitListEnd(s, b0);
    var c :- Lit(s, b1, "),");
    var c1 :- Run(s, c, IsSpace, 0);
    var rest :- Lit(s, c1, "Context");
    Some(Launch(s[g0..g1], s[b0..b1], rest))
  }

  /** `\s+(\d+),\s*Stream` after the launch dimensions: the context digits and the
      position after `Stream`. */
  datatype Streamed = Streamed(launch: Launch, context: string, rest: nat)

  function StreamAt(s: string, j: nat): (r: Option<Streamed>)
    ensures r.Some? ==> LaunchAt(s, j).Some? && r.value.rest <= |s|
  {
    var l :- LaunchAt(s, j);
    var d0 :- Run(s, l.rest, IsSpace, 1);
    var d1 :- Run(s, d0, IsDigit, 1);
    var c :- Lit(s, d1, ",");
    var c1 :- Run(s, c, IsSpace, 0);
    var rest :- Lit(s, c1, "Stream");
    Some(Streamed(l, s[d0..d1], rest))
  }

  /** What the full kernel-line pattern captures after the name. */
  datatype Tail = Tail(grid: string, block: string, context: string, stream: string, device: string, cc: string)

  /** `\s+(\d+),\s*Device\s+(\d+),\s*CC\s+([\d.]+)\s*$` after `Stream`. */
  function TailAt(s: string, j: nat): (r: Option<Tail>)
    ensures r.Some? ==> StreamAt(s, j).Some?
  {
    var st :- StreamAt(s, j);
    var s0 :- Run(s, st.rest, IsSpace, 1);
    var s1 :- Run(s, s0, IsDigit, 1);
    var c :- Lit(s, s1, ",");
    var c1 :- Run(s, c, IsSpace, 0);
    var dv :- Lit(s, c1, "Device");
    var d0 :- Run(s, dv, IsSpace, 1);
    var d1 :- Run(s, d0, IsDigit, 1);
    var e :- Lit(s, d1, ",");
    var e1 :- Run(s, e, IsSpace, 0);
    var cc :- Lit(s, e1, "CC");
    var k0 :- Run(s, cc, IsSpace, 1);
    var k1 :- Run(s, k0, IsVersionChar, 1);
    var end :- Run(s, k1, IsSpace, 0);
    if end != |s| then None
    else Some(Tail(st.launch.grid, st.launch.block, st.context, s[s0..s1], s[d0..d1], s[k0..k1]))
  }

  /** `^\s+.+` can end just before `j`: after at least one character of leading white
      space, the name runs up to `j` without a line terminator. The name can start
      anywhere in the leading white space; the latest start is the one to check. */
  predicate NameBefore(s: string, j: nat)
    requires j <= |s|
  {
    var lead := RunOf(s, 0, IsSpace);
    2 <= j && lead >= 1 && NoTerminator(s[if lead < j - 1 then lead else j - 1..j])
  }

  /** `/^\s+.+\s+\(\d+(?:,\s*\d+)*\)x\(\d+(?:,\s*\d+)*\),\s*Context/` matches with the name
      ending at `j` or later. */
  predicate ContextFrom(s: string, j: nat)
    decreases |s| - j
  {
    j <= |s| && ((NameBefore(s, j) && LaunchAt(s, j).Some?) || ContextFrom(s, j + 1))
  }

  /** The same pattern up to `Stream`. */
  predicate StreamFrom(s: string, j: nat)
    decreases |s| - j
  {
    j <= |s| && ((NameBefore(s, j) && StreamAt(s, j).Some?) || StreamFrom(s, j + 1))
  }

  /** The pattern up to `Context`: the check that ends a hint's continuation lines. */
  predicate ContextLine(s: string) {
    ContextFrom(s, 0)
  }

  /** The pattern up to `Stream`: the check that ends a kernel and a section. */
  predicate StreamLine(s: string) {
    StreamFrom(s, 0)
  }

  /** A kernel header line, as the parser records it. */
  datatype Header = Header(name: string, grid: string, block: string, context: nat, stream: nat, device: nat, cc: string)

  /** Where the full pattern matches: the start and end of the lazy name and the rest of
      the captures. */
  datatype KernelMatch = KernelMatch(nameStart: nat, nameEnd: nat, tail: Tail)

  /** The lazy name from `k`: the shortest one, free of line terminators, after which the
      rest of the pattern matches. */
  function NameFrom(s: string, k: nat, j: nat): (r: Option<KernelMatch>)
    requires 1 <= k < j <= |s| + 1 && NoTerminator(s[k..j - 1])
    ensures r.Some? ==> r.value.nameStart == k && j <= r.value.nameEnd <= |s|
    ensures r.Some? ==> NoTerminator(s[k..r.value.nameEnd]) && TailAt(s, r.value.nameEnd) == Some(r.value.tail)
    decreases |s| + 1 - j
  {
    if j > |s| || IsLineTerminator(s[j - 1]) then None
    else
      NoTerminatorLonger(s, k, j);
      match TailAt(s, j)
      case Some(t) => Some(KernelMatch(k, j, t))
      case None => NameFrom(s, k, j + 1)
  }

  lemma NoTerminatorLonger(s: string, k: nat, j: nat)
    requires k < j <= |s| && NoTerminator(s[k..j - 1]) && !IsLineTerminator(s[j - 1])
    ensures NoTerminator(s[k..j])
  {
    assert forall q :: k <= q < j - 1 ==> s[k..j - 1][q - k] == s[q];
    assert forall q :: 0 <= q < j - k ==> s[k..j][q] == s[k + q];
  }

  /** `^\s+` gives back its white space one character at a time when no name fits. */
  function MatchFrom(s: string, k: nat): (r: Option<KernelMatch>)
    requires 1 <= k <= RunOf(s, 0, IsSpace)
    ensures r.Some? ==> 1 <= r.value.nameStart <= k && r.value.nameStart < r.value.nameEnd <= |s|
    ensures r.Some? ==> NoTerminator(s[r.value.nameStart..r.value.nameEnd]) && TailAt(s, r.value.nameEnd) == Some(r.value.tail)
    decreases k
  {
    match NameFrom(s, k, k + 1)
    case Some(m) => Some(m)
    case None => if k == 1 then None else MatchFrom(s, k - 1)
  }

  function MatchKernel(s: string): (r: Option<KernelMatch>)
    ensures r.Some? ==> 1 <= r.value.nameStart <= RunOf(s, 0, IsSpace) && r.value.nameStart < r.value.nameEnd <= |s|
    ensures r.Some? ==> NoTerminator(s[r.value.nameStart..r.value.nameEnd]) && TailAt(s, r.value.nameEnd) == Some(r.value.tail)
  {
    if RunOf(s, 0, IsSpace) == 0 then None else MatchFrom(s, RunOf(s, 0, IsSpace))
  }

  /** The full kernel-line pattern, with its captures as the parser stores them: the name
      trimmed, the dimension lists as text, the three ids through `parseInt`. */
  function KernelHeader(s: string): Option<Header> {
    match MatchKernel(s)
    case None => None
    case Some(m) =>
      Some(Header(Trim(s[m.nameStart..m.nameEnd]), m.tail.grid, m.tail.block,
        DecimalValue(m.tail.context), DecimalValue(m.tail.stream), DecimalValue(m.tail.device), m.tail.cc))
  }

  // ----- the other line kinds -----

  /** `/^\s+Section:\s+/`. */
  predicate SectionStart(s: string) {
    var lead := RunOf(s, 0, IsSpace);
    lead >= 1 && LitAt(s, lead, "Section:") && RunOf(s, lead + 8, IsSpace) >= 1
  }

  /** The capture of `/^\s+Section:\s+(.+)$/`. The white space run gives back its last
      character when nothing follows it, so that `.+` has something to match. */
  function SectionName(s: string): (r: Option<string>)
    ensures r.Some? ==> SectionStart(s)
  {
    var lead := RunOf(s, 0, IsSpace);
    if lead == 0 || !LitAt(s, lead, "Section:") then None
    else
      var p := lead + 8;
      var w := RunOf(s, p, IsSpace);
      if w == 0 then None
      else if p + w < |s| then (if NoTerminator(s[p + w..]) then Some(s[p + w..]) else None)
      else if w >= 2 && !IsLineTerminator(s[|s| - 1]) then Some(s[|s| - 1..])
      else None
  }

  /** `/^\s+[-]+\s+[-]+/`. */
  predicate DashLine(s: string) {
    var lead := RunOf(s, 0, IsSpace);
    var d := RunOf(s, lead, IsDash);
    lead >= 1 && d >= 1 && RunOf(s, lead + d, IsSpace) >= 1 && LitAt(s, lead + d + RunOf(s, lead + d, IsSpace), "-")
  }

  /** `/^\s+(OPT|INF)\s+/`: the hint kind and where the white space after it ends. */
  function HintStartOf(s: string): (r: Option<(string, nat)>)
    ensures r.Some? ==> (r.value.0 == "OPT" || r.value.0 == "INF") && r.value.1 <= |s|
  {
    var lead := RunOf(s, 0, IsSpace);
    if lead == 0 || lead + 3 > |s| then None
    else
      var kind := s[lead..lead + 3];
      var w := RunOf(s, lead + 3, IsSpace);
      if (kind == "OPT" || kind == "INF") && w >= 1 then Some((kind, lead + 3 + w)) else None
  }

  predicate HintStart(s: string) {
    HintStartOf(s).Some?
  }

  /** `/^\s+(OPT|INF)\s+(.*)$/`: the kind and the text. */
  function HintLine(s: string): (r: Option<(string, string)>)
    ensures r.Some? ==> HintStart(s)
  {
    match HintStartOf(s)
    case None => None
    case Some((kind, c)) => if NoTerminator(s[c..]) then Some((kind, s[c..])) else None
  }

  /** ASCII case folding, the only folding `/i` does on these literals. */
  function Upper(c: char): char {
    if 'a' <= c <= 'z' then (c as int - 32) as char else c
  }

  predicate LitAtFolded(s: string, i: nat, lit: string) {
    i + |lit| <= |s| && forall k :: 0 <= k < |lit| ==> Upper(s[i + k]) == Upper(lit[k])
  }

  predicate MetricHeaderAt(s: string, p: nat) {
    var a := p + 11;
    var w1 := if a <= |s| then RunOf(s, a, IsSpace) else 0;
    var b := a + w1 + 11;
    var w2 := if b <= |s| then RunOf(s, b, IsSpace) else 0;
    LitAtFolded(s, p, "Metric Name") && w1 >= 1 && LitAtFolded(s, a + w1, "Metric Unit") &&
    w2 >= 1 && LitAtFolded(s, b + w2, "Metric Value")
  }

  /** `/Metric Name\s+Metric Unit\s+Metric Value/i` matches at `p` or later. */
  predicate MetricHeaderFrom(s: string, p: nat)
    decreases |s| - p
  {
    p <= |s| && (MetricHeaderAt(s, p) || MetricHeaderFrom(s, p + 1))
  }

  /** The table header row: the pattern anywhere in the line. */
  predicate MetricHeader(s: string) {
    MetricHeaderFrom(s, 0)
  }

  /** The checks that end a hint's continuation lines. */
  predicate EndsHint(s: string) {
    SectionStart(s) || ContextLine(s) || HintStart(s) || DashLine(s) || Trim(s) == ""
  }

  // ----- metric rows -----

  /** The first position at or after `from` where two white-space characters follow
      each other: where `/\s{2,}/` matches first. */
  function WideRunFrom(s: string, from: nat): (r: Option<nat>)
    ensures r.Some? ==> from <= r.value && r.value + 1 < |s| && IsSpace(s[r.value]) && IsSpace(s[r.value + 1])
    decreases |s| - from
  {
    if from + 1 >= |s| then None
    else if IsSpace(s[from]) && IsSpace(s[from + 1]) then Some(from)
    else WideRunFrom(s, from + 1)
  }

  /** `s.split(/\s{2,}/)`: cut at every maximal run of two or more white-space characters. */
  function WideSplit(s: string): (parts: seq<string>)
    ensures |parts| >= 1
    decreases |s|
  {
    match WideRunFrom(s, 0)
    case None => [s]
    case Some(q) => [s[..q]] + WideSplit(s[q + RunOf(s, q, IsSpace)..])
  }

  datatype Metric = Metric(name: string, unit: string, value: string)

  /** A metric row, split from the right: the value is the last column, the unit the one
      before, and the name the rest joined with single spaces; two columns have no unit,
      and a single column is no row at all. */
  function MetricRow(trimmed: string): Option<Metric>
  {
    var parts := WideSplit(trimmed);
    var n := |parts|;
    if n >= 3 then Some(Metric(Trim(Join(parts[..n - 2], " ")), Trim(parts[n - 2]), Trim(parts[n - 1])))
    else if n == 2 then Some(Metric(Trim(parts[0]), "", Trim(parts[1])))
    else None
  }

  // ----- how the kernel patterns nest -----

  lemma NoTerminatorInside(s: string, a: nat, b: nat, c: nat)
    requires a <= b <= c <= |s| && NoTerminator(s[a..c])
    ensures NoTerminator(s[b..c])
  {
    assert forall k :: 0 <= k < c - b ==> s[b..c][k] == s[a..c][k + b - a];
  }

  /** A match with the name ending at `j0` is found by the search from any `j <= j0`. */
  lemma {:induction false} StreamFound(s: string, j: nat, j0: nat)
    requires j <= j0 <= |s| && NameBefore(s, j0) && StreamAt(s, j0).Some?
    ensures StreamFrom(s, j)
    decreases j0 - j
  {
    if j < j0 {
      StreamFound(s, j + 1, j0);
    }
  }

  /** A line that matches the full kernel pattern also matches the pattern up to
      `Stream`, so the inner loops stop at it and leave it to the outer loop. */
  lemma HeaderIsStreamLine(s: string)
    requires KernelHeader(s).Some?
    ensures StreamLine(s)
  {
    var m := MatchKernel(s).value;
    var j := m.nameEnd;
    var lead := RunOf(s, 0, IsSpace);
    NoTerminatorInside(s, m.nameStart, if lead < j - 1 then lead else j - 1, j);
    StreamFound(s, 0, j);
  }

  /** The pattern up to `Stream` implies the one up to `Context`. */
  lemma {:induction false} StreamIsContext(s: string, j: nat)
    requires StreamFrom(s, j)
    ensures ContextFrom(s, j)
    decreases |s| - j
  {
    if !(NameBefore(s, j) && StreamAt(s, j).Some?) {
      StreamIsContext(s, j + 1);
    }
  }

  lemma StreamLineIsContextLine(s: string)
    requires StreamLine(s)
    ensures ContextLine(s)
  {
    StreamIsContext(s, 0);
  }
}
