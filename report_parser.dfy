/** `parseNcuOutput`: the line-driven parser of the text report `ncu --page details`
    prints. Kernel header lines open kernels, `Section:` lines open sections, dash lines
    frame a metric table, and `OPT`/`INF` lines open hints that run on over their
    continuation lines.

    The parse is first written as functions that carry the parser's variables along
    (`KernelsFrom`, `KernelFrom`, `SectionFrom`, `Continued`), one per loop; the loops
    themselves are methods proved equal to them. */
module ReportParser {
  import opened Wrappers
  import opened JsText
  import opened ReportLines

  datatype Hint = Hint(kind: string, text: string)

  datatype Section = Section(name: string, metrics: seq<Metric>, hints: seq<Hint>)

  datatype Kernel = Kernel(header: Header, sections: seq<Section>)

  /** `inMetricTable` and `dashCount` of the section loop. */
  datatype TableState = TableState(inTable: bool, dashes: nat)

  const NoTable := TableState(false, 0)

  /** A dash line: the first one opens the table, the third closes it and starts the
      count again. */
  function DashStep(t: TableState): TableState {
    var dashes := t.dashes + 1;
    var inTable := if dashes == 1 then true else t.inTable;
    if dashes >= 3 then TableState(false, 0) else TableState(inTable, dashes)
  }

  /** The metric a data row adds: none when it has a single column. */
  function RowMetrics(line: string): seq<Metric> {
    match MetricRow(Trim(line))
    case None => []
    case Some(m) => [m]
  }

  /** The continuation loop of a hint from line `i`: the text so far, and the line the
      loop stops at. */
  function Continued(lines: seq<string>, i: nat, text: string): (r: (string, nat))
    requires i <= |lines|
    ensures i <= r.1 <= |lines|
    decreases |lines| - i
  {
    if i == |lines| || EndsHint(lines[i]) then (text, i)
    else Continued(lines, i + 1, text + " " + Trim(lines[i]))
  }

  /** The section loop from line `i`, with the section and the table state so far. */
  function SectionFrom(lines: seq<string>, i: nat, section: Section, t: TableState): (r: (Section, nat))
    requires i <= |lines|
    ensures i <= r.1 <= |lines|
    decreases |lines| - i
  {
    if i == |lines| then (section, i)
    else
      var line := lines[i];
      if StreamLine(line) || SectionStart(line) then (section, i)
      else if DashLine(line) then SectionFrom(lines, i + 1, section, DashStep(t))
      else if t.inTable && MetricHeader(line) then SectionFrom(lines, i + 1, section, t)
      else if t.inTable && Trim(line) != "" then
        SectionFrom(lines, i + 1, section.(metrics := section.metrics + RowMetrics(line)), t)
      else match HintLine(line)
        case Some((kind, text)) =>
          var hint := Continued(lines, i + 1, Trim(text));
          SectionFrom(lines, hint.1, section.(hints := section.hints + [Hint(kind, hint.0)]), t)
        case None => SectionFrom(lines, i + 1, section, t)
  }

  /** The kernel loop from line `i`, with the sections so far. */
  function KernelFrom(lines: seq<string>, i: nat, sections: seq<Section>): (r: (seq<Section>, nat))
    requires i <= |lines|
    ensures i <= r.1 <= |lines|
    decreases |lines| - i
  {
    if i == |lines| || StreamLine(lines[i]) then (sections, i)
    else match SectionName(lines[i])
      case Some(name) =>
        var s := SectionFrom(lines, i + 1, Section(Trim(name), [], []), NoTable);
        KernelFrom(lines, s.1, sections + [s.0])
      case None => KernelFrom(lines, i + 1, sections)
  }

  /** The outer loop from line `i`, with the kernels so far. */
  function KernelsFrom(lines: seq<string>, i: nat, kernels: seq<Kernel>): seq<Kernel>
    requires i <= |lines|
    decreases |lines| - i
  {
    if i == |lines| then kernels
    else match KernelHeader(lines[i])
      case Some(h) =>
        var k := KernelFrom(lines, i + 1, []);
        KernelsFrom(lines, k.1, kernels + [Kernel(h, k.0)])
      case None => KernelsFrom(lines, i + 1, kernels)
  }

  /** `parseNcuOutput(text)`. */
  function ParseReport(text: string): seq<Kernel> {
    KernelsFrom(Split(text, "\n"), 0, [])
  }

  // ----- the loops -----

  /** The continuation-line loop of a hint. */
  method ReadContinuation(lines: seq<string>, start: nat, text: string) returns (hintText: string, i: nat)
    requires start <= |lines|
    ensures (hintText, i) == Continued(lines, start, text)
  {
    hintText, i := text, start;
    while i < |lines|
      invariant start <= i <= |lines|
      invariant Continued(lines, start, text) == Continued(lines, i, hintText)
      decreases |lines| - i
    {
      var contLine := lines[i];
      if SectionStart(contLine) || ContextLine(contLine) || HintStart(contLine) || DashLine(contLine) || Trim(contLine) == "" {
        break;
      }
      hintText := hintText + " " + Trim(contLine);
      i := i + 1;
    }
  }

  // One lemma per branch of the section loop.

  lemma SectionStops(lines: seq<string>, i: nat, section: Section, t: TableState)
    requires i <= |lines| && (i == |lines| || StreamLine(lines[i]) || SectionStart(lines[i]))
    ensures SectionFrom(lines, i, section, t) == (section, i)
  {
  }

  lemma SectionDash(lines: seq<string>, i: nat, section: Section, t: TableState)
    requires i < |lines| && !StreamLine(lines[i]) && !SectionStart(lines[i]) && DashLine(lines[i])
    ensures SectionFrom(lines, i, section, t) == SectionFrom(lines, i + 1, section, DashStep(t))
  {
  }

  lemma SectionHeaderRow(lines: seq<string>, i: nat, section: Section, t: TableState)
    requires i < |lines| && !StreamLine(lines[i]) && !SectionStart(lines[i]) && !DashLine(lines[i])
    requires t.inTable && MetricHeader(lines[i])
    ensures SectionFrom(lines, i, section, t) == SectionFrom(lines, i + 1, section, t)
  {
  }

  lemma SectionRow(lines: seq<string>, i: nat, section: Section, t: TableState)
    requires i < |lines| && !StreamLine(lines[i]) && !SectionStart(lines[i]) && !DashLine(lines[i])
    requires t.inTable && !MetricHeader(lines[i]) && Trim(lines[i]) != ""
    ensures SectionFrom(lines, i, section, t) ==
      SectionFrom(lines, i + 1, section.(metrics := section.metrics + RowMetrics(lines[i])), t)
  {
  }

  lemma SectionHint(lines: seq<string>, i: nat, section: Section, t: TableState, kind: string, text: string)
    requires i < |lines| && !StreamLine(lines[i]) && !SectionStart(lines[i]) && !DashLine(lines[i])
    requires !(t.inTable && MetricHeader(lines[i])) && !(t.inTable && Trim(lines[i]) != "")
    requires HintLine(lines[i]) == Some((kind, text))
    ensures SectionFrom(lines, i, section, t) ==
      SectionFrom(lines, Continued(lines, i + 1, Trim(text)).1,
        section.(hints := section.hints + [Hint(kind, Continued(lines, i + 1, Trim(text)).0)]), t)
  {
  }

  lemma SectionOther(lines: seq<string>, i: nat, section: Section, t: TableState)
    requires i < |lines| && !StreamLine(lines[i]) && !SectionStart(lines[i]) && !DashLine(lines[i])
    requires !(t.inTable && MetricHeader(lines[i])) && !(t.inTable && Trim(lines[i]) != "")
    requires HintLine(lines[i]).None?
    ensures SectionFrom(lines, i, section, t) == SectionFrom(lines, i + 1, section, t)
  {
  }

  /** The section loop: reads metric rows and hints until the next kernel or section. */
  method ReadSection(lines: seq<string>, start: nat, name: string) returns (section: Section, i: nat)
    requires start <= |lines|
    ensures (section, i) == SectionFrom(lines, start, Section(name, [], []), NoTable)
  {
    section := Section(name, [], []);
    i := start;
    var inMetricTable := false;
    var dashCount: nat := 0;
    while i < |lines|
      invariant start <= i <= |lines|
      invariant SectionFrom(lines, start, Section(name, [], []), NoTable) ==
        SectionFrom(lines, i, section, TableState(inMetricTable, dashCount))
      decreases |lines| - i
    {
      var sLine := lines[i];
      ghost var t := TableState(inMetricTable, dashCount);
      if StreamLine(sLine) || SectionStart(sLine) {
        SectionStops(lines, i, section, t);
        break;
      }
      if DashLine(sLine) {
        SectionDash(lines, i, section, t);
        dashCount := dashCount + 1;
        if dashCount == 1 {
          inMetricTable := true;
        }
        if dashCount >= 3 {
          inMetricTable := false;
          dashCount := 0;
        }
        assert TableState(inMetricTable, dashCount) == DashStep(t);
        i := i + 1;
        continue;
      }
      if inMetricTable && MetricHeader(sLine) {
        SectionHeaderRow(lines, i, section, t);
        i := i + 1;
        continue;
      }
      if inMetricTable && Trim(sLine) != "" {
        SectionRow(lines, i, section, t);
        ghost var updated := section.(metrics := section.metrics + RowMetrics(sLine));
        var row := MetricRow(Trim(sLine));
        if row.Some? {
          assert RowMetrics(sLine) == [row.value];
          section := section.(metrics := section.metrics + [row.value]);
        } else {
          assert RowMetrics(sLine) == [];
          assert section.metrics + [] == section.metrics;
        }
        assert section == updated;
        i := i + 1;
        continue;
      }
      var hintMatch := HintLine(sLine);
      if hintMatch.Some? {
        SectionHint(lines, i, section, t, hintMatch.value.0, hintMatch.value.1);
        var hintText, next := ReadContinuation(lines, i + 1, Trim(hintMatch.value.1));
        section := section.(hints := section.hints + [Hint(hintMatch.value.0, hintText)]);
        i := next;
        continue;
      }
      SectionOther(lines, i, section, t);
      i := i + 1;
    }
    if i == |lines| {
      SectionStops(lines, i, section, TableState(inMetricTable, dashCount));
    }
  }

  lemma KernelStops(lines: seq<string>, i: nat, sections: seq<Section>)
    requires i <= |lines| && (i == |lines| || StreamLine(lines[i]))
    ensures KernelFrom(lines, i, sections) == (sections, i)
  {
  }

  lemma KernelSection(lines: seq<string>, i: nat, sections: seq<Section>, name: string)
    requires i < |lines| && !StreamLine(lines[i]) && SectionName(lines[i]) == Some(name)
    ensures KernelFrom(lines, i, sections) ==
      KernelFrom(lines, SectionFrom(lines, i + 1, Section(Trim(name), [], []), NoTable).1,
        sections + [SectionFrom(lines, i + 1, Section(Trim(name), [], []), NoTable).0])
  {
  }

  lemma KernelOther(lines: seq<string>, i: nat, sections: seq<Section>)
    requires i < |lines| && !StreamLine(lines[i]) && SectionName(lines[i]).None?
    ensures KernelFrom(lines, i, sections) == KernelFrom(lines, i + 1, sections)
  {
  }

  lemma KernelsOpen(lines: seq<string>, i: nat, kernels: seq<Kernel>, h: Header)
    requires i < |lines| && KernelHeader(lines[i]) == Some(h)
    ensures KernelsFrom(lines, i, kernels) ==
      KernelsFrom(lines, KernelFrom(lines, i + 1, []).1, kernels + [Kernel(h, KernelFrom(lines, i + 1, []).0)])
  {
  }

  lemma KernelsOther(lines: seq<string>, i: nat, kernels: seq<Kernel>)
    requires i < |lines| && KernelHeader(lines[i]).None?
    ensures KernelsFrom(lines, i, kernels) == KernelsFrom(lines, i + 1, kernels)
  {
  }

  /** The kernel loop: reads sections until the next kernel line. */
  method ReadKernel(lines: seq<string>, start: nat) returns (sections: seq<Section>, i: nat)
    requires start <= |lines|
    ensures (sections, i) == KernelFrom(lines, start, [])
  {
    sections := [];
    i := start;
    while i < |lines|
      invariant start <= i <= |lines|
      invariant KernelFrom(lines, start, []) == KernelFrom(lines, i, sections)
      decreases |lines| - i
    {
      var nextLine := lines[i];
      if StreamLine(nextLine) {
        KernelStops(lines, i, sections);
        break;
      }
      var sectionMatch := SectionName(nextLine);
      if sectionMatch.Some? {
        KernelSection(lines, i, sections, sectionMatch.value);
        var section, next := ReadSection(lines, i + 1, Trim(sectionMatch.value));
        sections := sections + [section];
        i := next;
        continue;
      }
      KernelOther(lines, i, sections);
      i := i + 1;
    }
    if i == |lines| {
      KernelStops(lines, i, sections);
    }
  }

  /** One iteration of the outer loop of `parseNcuOutput` at line `i`: a kernel line opens
      a kernel and reads its sections, any other line is passed over. */
  method ReadNextLine(lines: seq<string>, i: nat, kernels: seq<Kernel>) returns (next: nat, kernels': seq<Kernel>)
    requires i < |lines|
    ensures i < next <= |lines|
    ensures KernelsFrom(lines, i, kernels) == KernelsFrom(lines, next, kernels')
  {
    var kernelMatch := KernelHeader(lines[i]);
    if kernelMatch.Some? {
      KernelsOpen(lines, i, kernels, kernelMatch.value);
      var sections;
      sections, next := ReadKernel(lines, i + 1);
      kernels' := kernels + [Kernel(kernelMatch.value, sections)];
    } else {
      KernelsOther(lines, i, kernels);
      next, kernels' := i + 1, kernels;
    }
  }

  lemma KernelsDone(lines: seq<string>, kernels: seq<Kernel>)
    ensures KernelsFrom(lines, |lines|, kernels) == kernels
  {
  }

  /** `parseNcuOutput`: the kernels of the report, in the order of their header lines. */
  method ParseNcuOutput(text: string) returns (kernels: seq<Kernel>)
    ensures kernels == ParseReport(text)
  {
    var lines := Split(text, "\n");
    kernels := [];
    var i := 0;
    while i < |lines|
      invariant i <= |lines|
      invariant KernelsFrom(lines, 0, []) == KernelsFrom(lines, i, kernels)
      decreases |lines| - i
    {
      i, kernels := ReadNextLine(lines, i, kernels);
    }
    KernelsDone(lines, kernels);
  }
}
