/** The per-kernel summary the `/api/kernels/:fileId` handler of the viewer server sends
    for a parsed text report: a short display name and three figures taken from the
    `GPU Speed Of Light Throughput` section. */
module KernelList {
  import opened Wrappers
  import opened JsText
  import opened ReportLines
  import opened ReportParser

  /** The section the figures come from. */
  const SpeedOfLight := "GPU Speed Of Light Throughput"

  // ----- Array.prototype.find over sections and metrics -----

  /** Where the first element whose name is `name` is, or `|xs|` when there is none. */
  function IndexOfNamed<T>(xs: seq<T>, nameOf: T -> string, name: string): (r: nat)
    ensures r <= |xs|
    ensures r < |xs| ==> nameOf(xs[r]) == name
    ensures forall j :: 0 <= j < r ==> nameOf(xs[j]) != name
  {
    if xs == [] then 0
    else if nameOf(xs[0]) == name then 0
    else 1 + IndexOfNamed(xs[1..], nameOf, name)
  }

  function NameOfSection(s: Section): string { s.name }

  function NameOfMetric(m: Metric): string { m.name }

  /** `sections.find(s => s.name === name)`. */
  function FindSection(sections: seq<Section>, name: string): Option<Section> {
    var i := IndexOfNamed(sections, NameOfSection, name);
    if i < |sections| then Some(sections[i]) else None
  }

  /** `metrics.find(m => m.name === name)`. */
  function FindMetric(metrics: seq<Metric>, name: string): Option<Metric> {
    var i := IndexOfNamed(metrics, NameOfMetric, name);
    if i < |metrics| then Some(metrics[i]) else None
  }

  // ----- the figures -----

  /** `value + ' ' + unit` of the `Duration` metric, or the empty string. */
  function Duration(k: Kernel): string {
    match FindSection(k.sections, SpeedOfLight)
    case None => ""
    case Some(sol) =>
      match FindMetric(sol.metrics, "Duration")
      case None => ""
      case Some(m) => m.value + " " + m.unit
  }

  /** The value of the named metric of the first speed-of-light section, or the empty string. */
  function Throughput(k: Kernel, metric: string): string {
    match FindSection(k.sections, SpeedOfLight)
    case None => ""
    case Some(sol) =>
      match FindMetric(sol.metrics, metric)
      case None => ""
      case Some(m) => m.value
  }

  /** The duration is empty exactly when the first speed-of-light section is missing or
      has no `Duration` metric; otherwise it is the first such metric's value and unit. */
  lemma DurationOf(k: Kernel)
    ensures Duration(k) == "" <==>
      var i := IndexOfNamed(k.sections, NameOfSection, SpeedOfLight);
      i == |k.sections| || IndexOfNamed(k.sections[i].metrics, NameOfMetric, "Duration") == |k.sections[i].metrics|
    ensures Duration(k) != "" ==>
      var sol := k.sections[IndexOfNamed(k.sections, NameOfSection, SpeedOfLight)];
      var m := sol.metrics[IndexOfNamed(sol.metrics, NameOfMetric, "Duration")];
      Duration(k) == m.value + " " + m.unit
  {
    var i := IndexOfNamed(k.sections, NameOfSection, SpeedOfLight);
    if i < |k.sections| {
      var sol := k.sections[i];
      var j := IndexOfNamed(sol.metrics, NameOfMetric, "Duration");
      if j < |sol.metrics| {
        var m := sol.metrics[j];
        assert (m.value + " " + m.unit)[|m.value|] == ' ';
      }
    }
  }

  /** A second speed-of-light section never contributes: only the first one is read. */
  lemma OnlyFirstSectionCounts(k: Kernel, i: nat)
    requires i < |k.sections| && k.sections[i].name == SpeedOfLight
    requires forall j :: 0 <= j < i ==> k.sections[j].name != SpeedOfLight
    ensures Duration(k) == (match FindMetric(k.sections[i].metrics, "Duration")
                            case None => ""
                            case Some(m) => m.value + " " + m.unit)
  {
    assert IndexOfNamed(k.sections, NameOfSection, SpeedOfLight) == i;
  }

  // ----- the short name -----

  /** A `<` at `z` that `(\w+)<.*$` can end on: a word character before it and no line
      terminator after it. */
  predicate TemplateAt(s: string, z: nat) {
    0 < z < |s| && s[z] == '<' && IsWordChar(s[z - 1]) && NoTerminator(s[z + 1..])
  }

  /** The first `z >= from` with `TemplateAt(s, z)`. */
  function TemplateFrom(s: string, from: nat): (r: Option<nat>)
    ensures r.Some? ==> from <= r.value && TemplateAt(s, r.value)
    ensures forall z :: from <= z && (r.None? || z < r.value) ==> !TemplateAt(s, z)
    decreases |s| - from
  {
    if from >= |s| then None
    else if TemplateAt(s, from) then Some(from)
    else TemplateFrom(s, from + 1)
  }

  /** Where the run of word characters that ends at `z` begins. */
  function WordStart(s: string, z: nat): (m: nat)
    requires z <= |s|
    ensures m <= z
    ensures forall k :: m <= k < z ==> IsWordChar(s[k])
    ensures m == 0 || !IsWordChar(s[m - 1])
    decreases z
  {
    if z > 0 && IsWordChar(s[z - 1]) then WordStart(s, z - 1) else z
  }

  /** The capture of `/(?:void\s+)?(?:[\w:]+::)*(\w+)<.*$/`. The characters the prefix
      groups may take (`void`, white space, word characters and colons) never include
      `<`, so the leftmost match ends on the first `<` that `(\w+)<.*$` can end on, and
      the group then holds the whole run of word characters before that `<`: it cannot
      start later, because the prefix groups end in white space or `::`, and it cannot
      start earlier, because the run is bounded by a character that is not a word
      character. */
  function TemplateName(s: string): Option<string> {
    match TemplateFrom(s, 0)
    case None => None
    case Some(z) => Some(s[WordStart(s, z)..z])
  }

  /** Names longer than 60 code points keep their first 57 and get `...`. */
  function Shorten(name: string): (r: string)
    ensures |r| <= 60 || r == name
  {
    if |name| > 60 then name[..57] + "..." else name
  }

  /** `shortName`: the template function's own name when there is one, shortened. */
  function SummaryName(name: string): string {
    match TemplateName(name)
    case None => Shorten(name)
    case Some(fn) => Shorten(fn)
  }

  /** The short name never runs over 60 code points. */
  lemma SummaryNameBounded(name: string)
    ensures |SummaryName(name)| <= 60
  {
  }

  /** Shortening keeps a name of at most 60 code points and cuts a longer one to 57 plus an
      ellipsis; either way what is kept is a prefix of the name. */
  lemma ShortenKeepsPrefix(name: string)
    ensures |name| <= 60 ==> Shorten(name) == name
    ensures |name| > 60 ==> |Shorten(name)| == 60 && Shorten(name) == name[..57] + "..."
    ensures var r := Shorten(name); var p := if |name| > 60 then 57 else |name|; r[..p] == name[..p]
  {
  }

  /** The group the pattern captures: a non-empty run of word characters, as long as it
      can be, right before the first `<` it may end on. */
  lemma TemplateNameIs(s: string, m: nat, z: nat)
    requires TemplateAt(s, z) && forall y :: 0 <= y < z ==> !TemplateAt(s, y)
    requires m < z && (forall k :: m <= k < z ==> IsWordChar(s[k])) && (m == 0 || !IsWordChar(s[m - 1]))
    ensures TemplateName(s) == Some(s[m..z])
  {
    WordStartIs(s, m, z);
  }

  lemma {:induction false} WordStartIs(s: string, m: nat, z: nat)
    requires m <= z <= |s| && (forall k :: m <= k < z ==> IsWordChar(s[k])) && (m == 0 || !IsWordChar(s[m - 1]))
    ensures WordStart(s, z) == m
    decreases z
  {
    if m < z {
      WordStartIs(s, m, z - 1);
    }
  }

  /** Without a `<` the pattern can end on, the name is only shortened. */
  lemma NoTemplateKeepsName(name: string)
    requires forall z :: 0 <= z < |name| ==> !TemplateAt(name, z)
    ensures SummaryName(name) == Shorten(name)
  {
  }

  /** A captured name is made of word characters only and is followed by `<` in the full name. */
  lemma TemplateNameShape(s: string)
    requires TemplateName(s).Some?
    ensures var fn := TemplateName(s).value; fn != [] && forall k :: 0 <= k < |fn| ==> IsWordChar(fn[k])
  {
    var z := TemplateFrom(s, 0).value;
    var m := WordStart(s, z);
    assert IsWordChar(s[z - 1]);
    assert m < z;
    assert forall k :: 0 <= k < z - m ==> s[m..z][k] == s[m + k];
  }

  // ----- the summary record -----

  datatype Summary = Summary(index: nat, name: string, shortName: string, grid: string, block: string,
                             cc: string, duration: string, computeThroughput: string, memoryThroughput: string)

  /** The summary of kernel number `idx`. */
  function Summarize(k: Kernel, idx: nat): Summary {
    Summary(idx, k.header.name, SummaryName(k.header.name), k.header.grid, k.header.block, k.header.cc,
            Duration(k), Throughput(k, "Compute (SM) Throughput"), Throughput(k, "Memory Throughput"))
  }

  /** `report.kernels.map(...)`: one summary per kernel, in order, numbered from 0. */
  function Summaries(kernels: seq<Kernel>): (r: seq<Summary>)
    ensures |r| == |kernels|
    ensures forall i :: 0 <= i < |r| ==> r[i] == Summarize(kernels[i], i)
  {
    seq(|kernels|, i requires 0 <= i < |kernels| => Summarize(kernels[i], i))
  }

  /** Every summary keeps the kernel's own name and launch figures and a short name of
      at most 60 code points. */
  lemma SummariesFaithful(kernels: seq<Kernel>)
    ensures forall i :: 0 <= i < |kernels| ==>
      && Summaries(kernels)[i].index == i
      && Summaries(kernels)[i].name == kernels[i].header.name
      && |Summaries(kernels)[i].shortName| <= 60
  {
    forall i | 0 <= i < |kernels|
      ensures |Summaries(kernels)[i].shortName| <= 60
    {
      SummaryNameBounded(kernels[i].header.name);
    }
  }
}
