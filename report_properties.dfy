/** What the text-report parser promises: one kernel per full kernel header line, in file
    order; hints that gather their continuation lines; the three-dash cycle of a metric
    table; and metric rows that split back into the columns they were printed from. */
module ReportProperties {
  import opened Wrappers
  import opened JsText
  import opened ReportLines
  import opened ReportParser
  import opened Sequences

  // ----- kernels follow the header lines -----

  /** No line in `[i, j)` matches the kernel pattern up to `Stream`. */
  predicate Quiet(lines: seq<string>, i: nat, j: nat)
    requires i <= j <= |lines|
  {
    forall k :: i <= k < j ==> !StreamLine(lines[k])
  }

  /** The headers `header` finds in the lines from `i` on, in order. */
  function HeadersBy(lines: seq<string>, i: nat, header: string -> Option<Header>): seq<Header>
    requires i <= |lines|
    decreases |lines| - i
  {
    if i == |lines| then []
    else
      var here := match header(lines[i]) case Some(h) => [h] case None => [];
      here + HeadersBy(lines, i + 1, header)
  }

  /** The headers of the full kernel lines from line `i` on, in order. */
  function HeadersFrom(lines: seq<string>, i: nat): seq<Header>
    requires i <= |lines|
  {
    HeadersBy(lines, i, KernelHeader)
  }

  function HeadersOf(kernels: seq<Kernel>): (r: seq<Header>)
    ensures |r| == |kernels|
    ensures forall i :: 0 <= i < |kernels| ==> r[i] == kernels[i].header
  {
    seq(|kernels|, i requires 0 <= i < |kernels| => kernels[i].header)
  }

  lemma NotEndsHintIsQuiet(s: string)
    requires !EndsHint(s)
    ensures !StreamLine(s)
  {
    if StreamLine(s) {
      StreamLineIsContextLine(s);
    }
  }

  /** The continuation lines of a hint are never kernel lines. */
  lemma {:induction false} ContinuedIsQuiet(lines: seq<string>, i: nat, text: string)
    requires i <= |lines|
    ensures Quiet(lines, i, Continued(lines, i, text).1)
    decreases |lines| - i
  {
    if i < |lines| && !EndsHint(lines[i]) {
      NotEndsHintIsQuiet(lines[i]);
      ContinuedIsQuiet(lines, i + 1, text + " " + Trim(lines[i]));
    }
  }

  /** A section reads no kernel line. */
  lemma {:induction false} SectionIsQuiet(lines: seq<string>, i: nat, section: Section, t: TableState)
    requires i <= |lines|
    ensures Quiet(lines, i, SectionFrom(lines, i, section, t).1)
    decreases |lines| - i
  {
    if i < |lines| {
      var line := lines[i];
      if StreamLine(line) || SectionStart(line) {
      } else if DashLine(line) {
        SectionIsQuiet(lines, i + 1, section, DashStep(t));
      } else if t.inTable && MetricHeader(line) {
        SectionIsQuiet(lines, i + 1, section, t);
      } else if t.inTable && Trim(line) != "" {
        SectionIsQuiet(lines, i + 1, section.(metrics := section.metrics + RowMetrics(line)), t);
      } else {
        match HintLine(line)
        case Some((kind, text)) =>
          var hint := Continued(lines, i + 1, Trim(text));
          ContinuedIsQuiet(lines, i + 1, Trim(text));
          SectionIsQuiet(lines, hint.1, section.(hints := section.hints + [Hint(kind, hint.0)]), t);
        case None =>
          SectionIsQuiet(lines, i + 1, section, t);
      }
    }
  }

  /** A kernel's sections read no kernel line: the kernel ends at the next one. */
  lemma {:induction false} KernelIsQuiet(lines: seq<string>, i: nat, sections: seq<Section>)
    requires i <= |lines|
    ensures Quiet(lines, i, KernelFrom(lines, i, sections).1)
    ensures KernelFrom(lines, i, sections).1 == |lines| || StreamLine(lines[KernelFrom(lines, i, sections).1])
    decreases |lines| - i
  {
    if i < |lines| && !StreamLine(lines[i]) {
      match SectionName(lines[i])
      case Some(name) =>
        var s := SectionFrom(lines, i + 1, Section(Trim(name), [], []), NoTable);
        SectionIsQuiet(lines, i + 1, Section(Trim(name), [], []), NoTable);
        KernelIsQuiet(lines, s.1, sections + [s.0]);
      case None =>
        KernelIsQuiet(lines, i + 1, sections);
    }
  }

  /** A line that is not a kernel line holds no header. */
  lemma NoStreamNoHeader(s: string)
    requires !StreamLine(s)
    ensures KernelHeader(s).None?
  {
    if KernelHeader(s).Some? {
      HeaderIsStreamLine(s);
    }
  }

  lemma HeadersFromSkip(lines: seq<string>, i: nat)
    requires i < |lines| && KernelHeader(lines[i]).None?
    ensures HeadersFrom(lines, i) == HeadersFrom(lines, i + 1)
  {
    assert [] + HeadersFrom(lines, i + 1) == HeadersFrom(lines, i + 1);
  }

  lemma HeadersFromHere(lines: seq<string>, i: nat, h: Header)
    requires i < |lines| && KernelHeader(lines[i]) == Some(h)
    ensures HeadersFrom(lines, i) == [h] + HeadersFrom(lines, i + 1)
  {
  }

  lemma {:induction false} NoHeadersBy(lines: seq<string>, i: nat, j: nat, header: string -> Option<Header>)
    requires i <= j <= |lines| && forall k :: i <= k < j ==> header(lines[k]).None?
    ensures HeadersBy(lines, i, header) == HeadersBy(lines, j, header)
    decreases j - i
  {
    if i < j {
      assert [] + HeadersBy(lines, i + 1, header) == HeadersBy(lines, i + 1, header);
      NoHeadersBy(lines, i + 1, j, header);
    }
  }

  /** Lines that are not kernel lines hold no header. */
  lemma QuietHasNoHeaders(lines: seq<string>, i: nat, j: nat)
    requires i <= j <= |lines| && Quiet(lines, i, j)
    ensures HeadersFrom(lines, i) == HeadersFrom(lines, j)
  {
    forall k | i <= k < j
      ensures KernelHeader(lines[k]).None?
    {
      NoStreamNoHeader(lines[k]);
    }
    NoHeadersBy(lines, i, j, KernelHeader);
  }

  lemma {:induction false} KernelsFromHeaders(lines: seq<string>, i: nat, kernels: seq<Kernel>)
    requires i <= |lines|
    ensures HeadersOf(KernelsFrom(lines, i, kernels)) == HeadersOf(kernels) + HeadersFrom(lines, i)
    decreases |lines| - i, 1
  {
    if i == |lines| {
      assert HeadersOf(kernels) + [] == HeadersOf(kernels);
    } else if KernelHeader(lines[i]).Some? {
      KernelsFromHeaderLine(lines, i, kernels, KernelHeader(lines[i]).value);
    } else {
      KernelsOther(lines, i, kernels);
      HeadersFromSkip(lines, i);
      KernelsFromHeaders(lines, i + 1, kernels);
    }
  }

  /** The step of `KernelsFromHeaders` at a kernel line. */
  lemma {:induction false} KernelsFromHeaderLine(lines: seq<string>, i: nat, kernels: seq<Kernel>, h: Header)
    requires i < |lines| && KernelHeader(lines[i]) == Some(h)
    ensures HeadersOf(KernelsFrom(lines, i, kernels)) == HeadersOf(kernels) + HeadersFrom(lines, i)
    decreases |lines| - i, 0
  {
    var k := KernelFrom(lines, i + 1, []);
    KernelsOpen(lines, i, kernels, h);
    KernelIsQuiet(lines, i + 1, []);
    QuietHasNoHeaders(lines, i + 1, k.1);
    KernelsFromHeaders(lines, k.1, kernels + [Kernel(h, k.0)]);
    HeadersOfSnoc(kernels, Kernel(h, k.0));
    HeadersFromHere(lines, i, h);
    Associative(HeadersOf(kernels), [h], HeadersFrom(lines, k.1));
  }

  lemma HeadersOfSnoc(kernels: seq<Kernel>, k: Kernel)
    ensures HeadersOf(kernels + [k]) == HeadersOf(kernels) + [k.header]
  {
  }

  /** Every line that matches the full kernel pattern starts exactly one kernel record,
      which holds that line's captures, and the records come in file order: the headers of
      the parse are the headers of the lines. A line that matches only the shorter pattern
      starts none. */
  lemma KernelsFollowHeaderLines(text: string)
    ensures HeadersOf(ParseReport(text)) == HeadersFrom(Split(text, "\n"), 0)
    ensures |ParseReport(text)| == |HeadersFrom(Split(text, "\n"), 0)|
  {
    KernelsFromHeaders(Split(text, "\n"), 0, []);
    assert HeadersOf([]) == [];
  }

  /** A kernel record keeps the name trimmed. */
  lemma HeaderNameTrimmed(s: string)
    requires KernelHeader(s).Some?
    ensures Trimmed(KernelHeader(s).value.name) && Trim(KernelHeader(s).value.name) == KernelHeader(s).value.name
  {
    var m := MatchKernel(s).value;
    TrimShape(s[m.nameStart..m.nameEnd]);
    TrimIdempotent(s[m.nameStart..m.nameEnd]);
  }

  // ----- hints -----

  /** `' ' + line.trim()` for each line in `[i, j)`. */
  function Appended(lines: seq<string>, i: nat, j: nat): string
    requires i <= j <= |lines|
  {
    AppendedBy(lines, i, j, Trim)
  }

  /** The continuation loop with the stop test and the per-line text left open: the
      proofs below go through it so that they need not look inside either. */
  function ContinuedBy(lines: seq<string>, i: nat, text: string, ends: string -> bool, piece: string -> string): (r: (string, nat))
    requires i <= |lines|
    ensures i <= r.1 <= |lines|
    decreases |lines| - i
  {
    if i == |lines| || ends(lines[i]) then (text, i)
    else ContinuedBy(lines, i + 1, text + " " + piece(lines[i]), ends, piece)
  }

  /** `' ' + piece(line)` for each line in `[i, j)`. */
  function AppendedBy(lines: seq<string>, i: nat, j: nat, piece: string -> string): string
    requires i <= j <= |lines|
    decreases j - i
  {
    if i == j then "" else " " + piece(lines[i]) + AppendedBy(lines, i + 1, j, piece)
  }

  lemma {:induction false} ContinuedIsContinuedBy(lines: seq<string>, i: nat, text: string)
    requires i <= |lines|
    ensures Continued(lines, i, text) == ContinuedBy(lines, i, text, EndsHint, Trim)
    decreases |lines| - i
  {
    if i < |lines| && !EndsHint(lines[i]) {
      ContinuedIsContinuedBy(lines, i + 1, text + " " + Trim(lines[i]));
    }
  }

  lemma {:induction false} ContinuedByText(lines: seq<string>, i: nat, text: string, ends: string -> bool, piece: string -> string)
    requires i <= |lines|
    ensures var c := ContinuedBy(lines, i, text, ends, piece); c.0 == text + AppendedBy(lines, i, c.1, piece)
    decreases |lines| - i
  {
    if i == |lines| || ends(lines[i]) {
      assert text + "" == text;
    } else {
      var next := text + " " + piece(lines[i]);
      ContinuedByText(lines, i + 1, next, ends, piece);
      var j := ContinuedBy(lines, i + 1, next, ends, piece).1;
      var rest := AppendedBy(lines, i + 1, j, piece);
      assert AppendedBy(lines, i, j, piece) == " " + piece(lines[i]) + rest;
      assert next + rest == text + (" " + piece(lines[i]) + rest);
    }
  }

  lemma {:induction false} ContinuedByStops(lines: seq<string>, i: nat, text: string, ends: string -> bool, piece: string -> string)
    requires i <= |lines|
    ensures var j := ContinuedBy(lines, i, text, ends, piece).1;
      && (forall k :: i <= k < j ==> !ends(lines[k]))
      && (j == |lines| || ends(lines[j]))
    decreases |lines| - i
  {
    if i < |lines| && !ends(lines[i]) {
      ContinuedByStops(lines, i + 1, text + " " + piece(lines[i]), ends, piece);
    }
  }

  /** A hint's text is its first line's text followed by each continuation line, trimmed
      and joined with single spaces. */
  lemma ContinuedText(lines: seq<string>, i: nat, text: string)
    requires i <= |lines|
    ensures Continued(lines, i, text).0 == text + Appended(lines, i, Continued(lines, i, text).1)
  {
    ContinuedIsContinuedBy(lines, i, text);
    ContinuedByText(lines, i, text, EndsHint, Trim);
  }

  /** The continuation stops at the first blank, section, kernel, hint or dash line, or at
      the end of the report, and takes every line before it. */
  lemma ContinuedStopsAtFirstEnd(lines: seq<string>, i: nat, text: string)
    requires i <= |lines|
    ensures var j := Continued(lines, i, text).1;
      && (forall k :: i <= k < j ==> !EndsHint(lines[k]))
      && (j == |lines| || EndsHint(lines[j]))
  {
    ContinuedIsContinuedBy(lines, i, text);
    ContinuedByStops(lines, i, text, EndsHint, Trim);
  }

  /** Every hint a section records is an OPT or an INF hint. */
  lemma {:induction false} HintKinds(lines: seq<string>, i: nat, section: Section, t: TableState)
    requires i <= |lines|
    requires forall h :: h in section.hints ==> h.kind == "OPT" || h.kind == "INF"
    ensures forall h :: h in SectionFrom(lines, i, section, t).0.hints ==> h.kind == "OPT" || h.kind == "INF"
    decreases |lines| - i
  {
    if i < |lines| {
      var line := lines[i];
      if StreamLine(line) || SectionStart(line) {
      } else if DashLine(line) {
        HintKinds(lines, i + 1, section, DashStep(t));
      } else if t.inTable && MetricHeader(line) {
        HintKinds(lines, i + 1, section, t);
      } else if t.inTable && Trim(line) != "" {
        HintKinds(lines, i + 1, section.(metrics := section.metrics + RowMetrics(line)), t);
      } else {
        match HintLine(line)
        case Some((kind, text)) =>
          var hint := Continued(lines, i + 1, Trim(text));
          assert kind == HintStartOf(line).value.0;
          HintKinds(lines, hint.1, section.(hints := section.hints + [Hint(kind, hint.0)]), t);
        case None =>
          HintKinds(lines, i + 1, section, t);
      }
    }
  }

  // ----- the metric table -----

  /** The states the dash count can be in. */
  predicate TableOk(t: TableState) {
    t.dashes <= 2 && t.inTable == (t.dashes > 0)
  }

  /** The first dash line opens the table, the second (under the header row) keeps it
      open, the third closes it and starts the count again; no other state is reached. */
  lemma DashCycle(t: TableState)
    requires TableOk(t)
    ensures TableOk(DashStep(t))
    ensures DashStep(NoTable) == TableState(true, 1)
    ensures DashStep(TableState(true, 1)) == TableState(true, 2)
    ensures DashStep(TableState(true, 2)) == NoTable
  {
  }

  /** Without a dash line no table opens, so a section records no metric: rows are kept
      only while the table is open. */
  lemma {:induction false} NoDashNoMetrics(lines: seq<string>, i: nat, section: Section, t: TableState)
    requires i <= |lines| && !t.inTable
    requires forall k :: i <= k < |lines| ==> !DashLine(lines[k])
    ensures SectionFrom(lines, i, section, t).0.metrics == section.metrics
    decreases |lines| - i
  {
    if i < |lines| {
      var line := lines[i];
      if StreamLine(line) || SectionStart(line) {
      } else {
        match HintLine(line)
        case Some((kind, text)) =>
          var hint := Continued(lines, i + 1, Trim(text));
          NoDashNoMetrics(lines, hint.1, section.(hints := section.hints + [Hint(kind, hint.0)]), t);
        case None =>
          NoDashNoMetrics(lines, i + 1, section, t);
      }
    }
  }

  // ----- metric rows -----

  /** No two white-space characters in a row. */
  predicate Narrow(p: string) {
    forall k :: 0 <= k < |p| - 1 ==> !(IsSpace(p[k]) && IsSpace(p[k + 1]))
  }

  /** A printed column: not empty, trimmed, and without a wide gap inside. */
  predicate Column(p: string) {
    p != [] && Trimmed(p) && Narrow(p)
  }

  /** The white space between two columns: two characters or more. */
  predicate Gap(g: string) {
    |g| >= 2 && AllSpaces(g)
  }

  /** The columns laid out with the gaps between them. */
  function Spread(parts: seq<string>, gaps: seq<string>): string
    requires |parts| >= 1 && |gaps| == |parts| - 1
    decreases |parts|
  {
    if |parts| == 1 then parts[0] else parts[0] + gaps[0] + Spread(parts[1..], gaps[1..])
  }

  lemma {:induction false} SpreadEnds(parts: seq<string>, gaps: seq<string>)
    requires |parts| >= 1 && |gaps| == |parts| - 1 && forall i :: 0 <= i < |parts| ==> parts[i] != []
    ensures |Spread(parts, gaps)| >= |parts[0]|
    ensures Spread(parts, gaps)[0] == parts[0][0]
    ensures Spread(parts, gaps)[|Spread(parts, gaps)| - 1] == parts[|parts| - 1][|parts[|parts| - 1]| - 1]
    decreases |parts|
  {
    if |parts| > 1 {
      SpreadEnds(parts[1..], gaps[1..]);
    }
  }

  lemma {:induction false} WideRunIs(s: string, from: nat, q: nat)
    requires from <= q && q + 1 < |s| && IsSpace(s[q]) && IsSpace(s[q + 1])
    requires forall k :: from <= k < q ==> !(IsSpace(s[k]) && IsSpace(s[k + 1]))
    ensures WideRunFrom(s, from) == Some(q)
    decreases q - from
  {
    if from < q {
      WideRunIs(s, from + 1, q);
    }
  }

  lemma {:induction false} NarrowHasNoWideRun(s: string, from: nat)
    requires Narrow(s)
    ensures WideRunFrom(s, from) == None
    decreases |s| - from
  {
    if from + 1 < |s| {
      NarrowHasNoWideRun(s, from + 1);
    }
  }

  lemma {:induction false} SpaceRunIs(s: string, i: nat, n: nat)
    requires i + n <= |s| && (forall k :: i <= k < i + n ==> IsSpace(s[k])) && (i + n == |s| || !IsSpace(s[i + n]))
    ensures RunOf(s, i, IsSpace) == n
    decreases n
  {
    if n > 0 {
      SpaceRunIs(s, i + 1, n - 1);
    }
  }

  /** Splitting on wide white space gives the columns back. */
  lemma {:induction false} WideSplitSpread(parts: seq<string>, gaps: seq<string>)
    requires |parts| >= 1 && |gaps| == |parts| - 1
    requires forall i :: 0 <= i < |parts| ==> Column(parts[i])
    requires forall i :: 0 <= i < |gaps| ==> Gap(gaps[i])
    ensures WideSplit(Spread(parts, gaps)) == parts
    decreases |parts|
  {
    var s := Spread(parts, gaps);
    if |parts| == 1 {
      assert s == parts[0];
      NarrowHasNoWideRun(s, 0);
    } else {
      var p0 := parts[0];
      var g0 := gaps[0];
      var rest := Spread(parts[1..], gaps[1..]);
      assert s == p0 + g0 + rest;
      SpreadEnds(parts[1..], gaps[1..]);
      assert rest[0] == parts[1][0];
      forall k | 0 <= k < |p0|
        ensures !(IsSpace(s[k]) && IsSpace(s[k + 1]))
      {
        if k < |p0| - 1 {
          assert s[k] == p0[k] && s[k + 1] == p0[k + 1];
        } else {
          assert s[k] == p0[|p0| - 1];
        }
      }
      assert s[|p0|] == g0[0] && s[|p0| + 1] == g0[1];
      WideRunIs(s, 0, |p0|);
      forall k | |p0| <= k < |p0| + |g0|
        ensures IsSpace(s[k])
      {
        assert s[k] == g0[k - |p0|];
      }
      assert s[|p0| + |g0|] == rest[0];
      SpaceRunIs(s, |p0|, |g0|);
      assert s[|p0| + |g0|..] == rest;
      assert s[..|p0|] == p0;
      WideSplitAt(s, |p0|, |g0|);
      WideSplitSpread(parts[1..], gaps[1..]);
      HeadAndRest(parts);
    }
  }

  /** One cut of `WideSplit`. */
  lemma WideSplitAt(s: string, q: nat, n: nat)
    requires WideRunFrom(s, 0) == Some(q) && RunOf(s, q, IsSpace) == n
    ensures q + n <= |s| && WideSplit(s) == [s[..q]] + WideSplit(s[q + n..])
  {
  }

  lemma TrimmedIsFixed(t: string)
    requires Trimmed(t)
    ensures Trim(t) == t
  {
    assert [] + t + [] == t;
    TrimOfPadded([], t, []);
  }

  /** Columns joined with single spaces are trimmed. */
  lemma {:induction false} JoinTrimmed(parts: seq<string>)
    requires |parts| >= 1 && forall i :: 0 <= i < |parts| ==> parts[i] != [] && Trimmed(parts[i])
    ensures Join(parts, " ") != [] && Trimmed(Join(parts, " "))
    ensures Join(parts, " ")[0] == parts[0][0]
    ensures Join(parts, " ")[|Join(parts, " ")| - 1] == parts[|parts| - 1][|parts[|parts| - 1]| - 1]
    decreases |parts|
  {
    if |parts| > 1 {
      JoinTrimmed(parts[1..]);
      var j := Join(parts, " ");
      assert j == parts[0] + " " + Join(parts[1..], " ");
    }
  }

  /** A row printed as columns with wide gaps, padded with white space, is read back as
      those columns: the last is the value, the one before the unit, and the rest, joined
      with single spaces, the name; two columns have no unit; one column is no metric. */
  lemma MetricRowOfColumns(pad: string, parts: seq<string>, gaps: seq<string>, tail: string)
    requires AllSpaces(pad) && AllSpaces(tail)
    requires |parts| >= 1 && |gaps| == |parts| - 1
    requires forall i :: 0 <= i < |parts| ==> Column(parts[i])
    requires forall i :: 0 <= i < |gaps| ==> Gap(gaps[i])
    ensures var n := |parts|; var line := pad + Spread(parts, gaps) + tail;
      && (n == 1 ==> RowMetrics(line) == [])
      && (n == 2 ==> RowMetrics(line) == [Metric(parts[0], "", parts[1])])
      && (n >= 3 ==> RowMetrics(line) == [Metric(Join(parts[..n - 2], " "), parts[n - 2], parts[n - 1])])
  {
    var s := Spread(parts, gaps);
    SpreadEnds(parts, gaps);
    assert Trimmed(s);
    TrimOfPadded(pad, s, tail);
    WideSplitSpread(parts, gaps);
    MetricRowOfParts(s, parts);
  }

  /** `MetricRow` on a trimmed row whose wide split gives the columns `parts`. */
  lemma MetricRowOfParts(s: string, parts: seq<string>)
    requires WideSplit(s) == parts
    requires forall i :: 0 <= i < |parts| ==> Column(parts[i])
    ensures var n := |parts|;
      && (n == 1 ==> MetricRow(s) == None)
      && (n == 2 ==> MetricRow(s) == Some(Metric(parts[0], "", parts[1])))
      && (n >= 3 ==> MetricRow(s) == Some(Metric(Join(parts[..n - 2], " "), parts[n - 2], parts[n - 1])))
  {
    var n := |parts|;
    TrimmedIsFixed(parts[n - 1]);
    TrimmedIsFixed(parts[0]);
    if n >= 2 {
      TrimmedIsFixed(parts[n - 2]);
    }
    if n >= 3 {
      var front := parts[..n - 2];
      assert forall i :: 0 <= i < |front| ==> front[i] == parts[i];
      JoinTrimmed(front);
      TrimmedIsFixed(Join(front, " "));
    }
  }
}
