/** The pure helpers of the browser viewer: the sidebar's short kernel name, the quoting
    of one CSV cell on export, and the order and counts of the summary page's hints. */
module ViewerHelpers {
  import opened Wrappers
  import opened JsText

  // ----- kernelSummary short name -----

  /** `kernel.name || 'Unknown'`, cut before the first `(` unless that is its first code
      point. */
  function NameBeforeParen(name: string): (cut: string)
    ensures cut == "Unknown" || cut <= name
    ensures name != "" && name[0] != '(' ==> '(' !in cut
  {
    var named := if name == "" then "Unknown" else name;
    var parenIdx := IndexOf(named, '(');
    if parenIdx > 0 then named[..parenIdx] else named
  }

  /** The short name: the last `::` piece of the name before its `(`. */
  function KernelShortName(name: string): string {
    LastPiece(NameBeforeParen(name), "::")
  }

  /** The last piece of `s.split(sep)`. */
  function LastPiece(s: string, sep: string): string
    requires |sep| > 0
  {
    var parts := Split(s, sep);
    parts[|parts| - 1]
  }

  lemma LastPieceStep(s: string, sep: string, q: nat)
    requires |sep| > 0 && FindFrom(s, sep, 0) == Some(q)
    ensures LastPiece(s, sep) == LastPiece(s[q + |sep|..], sep)
  {
    var parts := Split(s[q + |sep|..], sep);
    assert Split(s, sep) == [s[..q]] + parts;
  }

  /** The last piece of a split is the end of the string, and it holds no separator. */
  lemma {:induction false} LastPieceIsSuffix(s: string, sep: string)
    requires |sep| > 0
    ensures |LastPiece(s, sep)| <= |s| && s[|s| - |LastPiece(s, sep)|..] == LastPiece(s, sep)
    ensures Free(LastPiece(s, sep), sep)
    decreases |s|
  {
    match FindFrom(s, sep, 0)
    case None =>
      assert Split(s, sep) == [s];
    case Some(q) =>
      var rest := s[q + |sep|..];
      LastPieceStep(s, sep, q);
      LastPieceIsSuffix(rest, sep);
      var last := LastPiece(rest, sep);
      assert s[|s| - |last|..] == rest[|rest| - |last|..];
  }

  /** Unless the last piece is the whole string, the separator comes right before it. */
  lemma {:induction false} LastPieceAfterSeparator(s: string, sep: string)
    requires |sep| > 0
    ensures |LastPiece(s, sep)| < |s| ==>
      |s| - |LastPiece(s, sep)| >= |sep| && OccursAt(s, sep, |s| - |LastPiece(s, sep)| - |sep|)
    decreases |s|
  {
    match FindFrom(s, sep, 0)
    case None =>
      assert Split(s, sep) == [s];
    case Some(q) =>
      var rest := s[q + |sep|..];
      LastPieceStep(s, sep, q);
      LastPieceIsSuffix(rest, sep);
      LastPieceAfterSeparator(rest, sep);
      var last := LastPiece(rest, sep);
      if |last| == |rest| {
        assert |s| - |last| - |sep| == q;
      } else {
        var o := |rest| - |last| - |sep|;
        assert s[q + |sep| + o..q + |sep| + o + |sep|] == rest[o..o + |sep|];
        assert |s| - |last| - |sep| == q + |sep| + o;
      }
  }

  /** The short name never contains `::`; it ends the part of the name before the `(`,
      and unless it is all of that part, a `::` comes right before it. */
  lemma ShortNameShape(name: string)
    ensures var r := KernelShortName(name); var cut := NameBeforeParen(name);
      && Free(r, "::")
      && |r| <= |cut| && cut[|cut| - |r|..] == r
      && (|r| < |cut| ==> |cut| - |r| >= 2 && cut[|cut| - |r| - 2..|cut| - |r|] == "::")
  {
    var cut := NameBeforeParen(name);
    var r := LastPiece(cut, "::");
    LastPieceIsSuffix(cut, "::");
    LastPieceAfterSeparator(cut, "::");
    if |r| < |cut| {
      assert OccursAt(cut, "::", |cut| - |r| - 2);
    }
  }

  /** A kernel without a name is shown as `Unknown`. */
  lemma ShortNameOfEmpty()
    ensures KernelShortName("") == "Unknown"
  {
    assert NameBeforeParen("") == "Unknown";
    assert FindFrom("Unknown", "::", 0).None? by {
      assert !OccursAt("Unknown", "::", 0);
    }
    assert Split("Unknown", "::") == ["Unknown"];
  }

  /** A name that does not start with `(` loses everything from its first `(` on. */
  lemma ShortNameHasNoParen(name: string)
    requires name != "" && name[0] != '('
    ensures '(' !in KernelShortName(name)
  {
    var cut := NameBeforeParen(name);
    assert '(' !in cut;
    var r := LastPiece(cut, "::");
    LastPieceIsSuffix(cut, "::");
    assert forall k :: 0 <= k < |r| ==> r[k] == cut[|cut| - |r| + k];
  }

  /** A name with no `(` and no `::` is its own short name. */
  lemma PlainNameIsShortName(name: string)
    requires name != "" && '(' !in name && Free(name, "::")
    ensures KernelShortName(name) == name
  {
    assert IndexOf(name, '(') == -1;
    assert FindFrom(name, "::", 0).None?;
  }

  // ----- CSV cells -----

  /** `text.replace(/"/g, '""')`. */
  function DoubleQuotes(text: string): (r: string)
    ensures |r| >= |text|
  {
    if text == [] then []
    else (if text[0] == '"' then "\"\"" else [text[0]]) + DoubleQuotes(text[1..])
  }

  /** The reading of a quoted field's inside: `""` is one quote. */
  function UndoubleQuotes(text: string): string
    decreases |text|
  {
    if |text| >= 2 && text[0] == '"' && text[1] == '"' then "\"" + UndoubleQuotes(text[2..])
    else if text == [] then []
    else [text[0]] + UndoubleQuotes(text[1..])
  }

  /** One table cell as `exportCSV` writes it: trimmed, and quoted with its quotes doubled
      when it contains a comma or a quote. */
  function CsvCell(cellText: string): string {
    var text := Trim(cellText);
    if ',' in text || '"' in text then "\"" + DoubleQuotes(text) + "\"" else text
  }

  /** A reader of the cell: a quoted field is unquoted and its doubled quotes read as one. */
  function ReadCsvCell(cell: string): string {
    if |cell| >= 2 && cell[0] == '"' && cell[|cell| - 1] == '"' then UndoubleQuotes(cell[1..|cell| - 1])
    else cell
  }

  lemma {:induction false} UndoubleDouble(text: string)
    ensures UndoubleQuotes(DoubleQuotes(text)) == text
    decreases |text|
  {
    if text != [] {
      UndoubleDouble(text[1..]);
      var rest := DoubleQuotes(text[1..]);
      if text[0] == '"' {
        assert DoubleQuotes(text) == "\"\"" + rest;
        assert ("\"\"" + rest)[2..] == rest;
      } else {
        assert DoubleQuotes(text) == [text[0]] + rest;
        assert ([text[0]] + rest)[1..] == rest;
      }
    }
  }

  /** Inside the quotes, every quote is half of a doubled pair, so a reader that splits on
      commas outside quotes sees the cell whole. */
  lemma {:induction false} DoubledQuotesPair(text: string, k: nat)
    requires k < |DoubleQuotes(text)|
    ensures DoubleQuotes(text)[k] == '"' ==>
      (k + 1 < |DoubleQuotes(text)| && DoubleQuotes(text)[k + 1] == '"') || (k > 0 && DoubleQuotes(text)[k - 1] == '"')
    decreases |text|
  {
    var head := if text[0] == '"' then "\"\"" else [text[0]];
    var rest := DoubleQuotes(text[1..]);
    assert DoubleQuotes(text) == head + rest;
    if k >= |head| {
      DoubledQuotesPair(text[1..], k - |head|);
      assert DoubleQuotes(text)[k] == rest[k - |head|];
      if k - |head| > 0 {
        assert DoubleQuotes(text)[k - 1] == rest[k - |head| - 1];
      } else if DoubleQuotes(text)[k] == '"' {
        assert rest[0] == '"';
        assert k - |head| + 1 < |rest| && rest[1] == '"';
      }
      if k - |head| + 1 < |rest| {
        assert DoubleQuotes(text)[k + 1] == rest[k - |head| + 1];
      }
    }
  }

  /** Reading the written cell gives the trimmed text back. */
  lemma CsvCellRoundTrip(cellText: string)
    ensures ReadCsvCell(CsvCell(cellText)) == Trim(cellText)
  {
    var text := Trim(cellText);
    if ',' in text || '"' in text {
      var body := DoubleQuotes(text);
      var cell := "\"" + body + "\"";
      assert cell[1..|cell| - 1] == body;
      UndoubleDouble(text);
    } else if |text| >= 2 {
      assert text[0] != '"';
    }
  }

  /** A cell without a comma or a quote is written as its trimmed self; any other is
      quoted. */
  lemma CsvCellPlainOrQuoted(cellText: string)
    ensures var text := Trim(cellText);
      (',' !in text && '"' !in text) ==> CsvCell(cellText) == text
    ensures var text := Trim(cellText); var c := CsvCell(cellText);
      (',' in text || '"' in text) ==> |c| >= 2 && c[0] == '"' && c[|c| - 1] == '"'
  {
  }

  // ----- the summary page's hints -----

  /** One entry of `allHints`. The priority is what `extractPriority` found in the text. */
  datatype HintEntry = HintEntry(fileIndex: nat, kernelIndex: nat, kernelName: string, kernelFullName: string,
                                 sectionName: string, kind: string, text: string, priority: real)

  /** The comparator passed to `allHints.sort`. */
  function Compare(a: HintEntry, b: HintEntry): real {
    if a.kind == "OPT" && b.kind != "OPT" then -1.0
    else if a.kind != "OPT" && b.kind == "OPT" then 1.0
    else b.priority - a.priority
  }

  /** `a` sorts strictly before `b`. */
  predicate Before(a: HintEntry, b: HintEntry) {
    Compare(a, b) < 0.0
  }

  /** Neither sorts before the other. */
  predicate Tied(a: HintEntry, b: HintEntry) {
    Compare(a, b) == 0.0
  }

  /** The comparator is consistent: antisymmetric, and `Before` is a strict weak order
      (irreflexive, transitive, and ties are an equivalence), so a stable sort with it
      has one outcome. OPT hints come before the others, and within one class higher
      priority comes first. */
  lemma CompareConsistent(a: HintEntry, b: HintEntry, c: HintEntry)
    ensures Compare(a, b) == -Compare(b, a)
    ensures !Before(a, a)
    ensures Before(a, b) && Before(b, c) ==> Before(a, c)
    ensures Tied(a, b) && Tied(b, c) ==> Tied(a, c)
    ensures Before(a, b) ==> Before(a, c) || Before(c, b)
    ensures Before(a, b) <==>
      (a.kind == "OPT" && b.kind != "OPT") || ((a.kind == "OPT") == (b.kind == "OPT") && a.priority > b.priority)
  {
  }

  /** No entry comes after one it sorts before. */
  predicate SortedHints(s: seq<HintEntry>) {
    forall i, j :: 0 <= i < j < |s| ==> !Before(s[j], s[i])
  }

  /** Insert `x` behind every entry of `s` it does not sort before. */
  function InsertHint(s: seq<HintEntry>, x: HintEntry): (r: seq<HintEntry>)
    ensures |r| == |s| + 1
    decreases |s|
  {
    if s == [] || !Before(x, s[|s| - 1]) then s + [x]
    else InsertHint(s[..|s| - 1], x) + [s[|s| - 1]]
  }

  /** A stable insertion sort of the hints with `Compare`. */
  function SortHints(s: seq<HintEntry>): (r: seq<HintEntry>)
    ensures |r| == |s|
    decreases |s|
  {
    if s == [] then []
    else InsertHint(SortHints(s[..|s| - 1]), s[|s| - 1])
  }

  lemma {:induction false} InsertHintPermutes(s: seq<HintEntry>, x: HintEntry)
    ensures multiset(InsertHint(s, x)) == multiset(s) + multiset{x}
    decreases |s|
  {
    if s != [] && Before(x, s[|s| - 1]) {
      InsertHintPermutes(s[..|s| - 1], x);
      assert s == s[..|s| - 1] + [s[|s| - 1]];
    }
  }

  /** The sort only reorders: the same entries, as often as before. */
  lemma {:induction false} SortHintsPermutes(s: seq<HintEntry>)
    ensures multiset(SortHints(s)) == multiset(s)
    decreases |s|
  {
    if s != [] {
      SortHintsPermutes(s[..|s| - 1]);
      InsertHintPermutes(SortHints(s[..|s| - 1]), s[|s| - 1]);
      assert s == s[..|s| - 1] + [s[|s| - 1]];
    }
  }

  /** `z` sorts before none of the entries of `s`. */
  predicate NoneAbove(z: HintEntry, s: seq<HintEntry>) {
    forall i :: 0 <= i < |s| ==> !Before(z, s[i])
  }

  lemma {:induction false} InsertHintNoneAbove(s: seq<HintEntry>, x: HintEntry, z: HintEntry)
    requires NoneAbove(z, s) && !Before(z, x)
    ensures NoneAbove(z, InsertHint(s, x))
    decreases |s|
  {
    if s != [] && Before(x, s[|s| - 1]) {
      InsertHintNoneAbove(s[..|s| - 1], x, z);
    }
  }

  lemma {:induction false} InsertHintSorted(s: seq<HintEntry>, x: HintEntry)
    requires SortedHints(s)
    ensures SortedHints(InsertHint(s, x))
    decreases |s|
  {
    var r := InsertHint(s, x);
    if s == [] || !Before(x, s[|s| - 1]) {
      assert r == s + [x];
      forall i | 0 <= i < |s|
        ensures !Before(x, s[i])
      {
        CompareConsistent(x, s[i], s[|s| - 1]);
      }
    } else {
      var p := s[..|s| - 1];
      var last := s[|s| - 1];
      InsertHintSorted(p, x);
      CompareConsistent(x, last, last);
      InsertHintNoneAbove(p, x, last);
      var q := InsertHint(p, x);
      assert r == q + [last];
    }
  }

  /** The sort puts the hints in order. */
  lemma {:induction false} SortHintsSorted(s: seq<HintEntry>)
    ensures SortedHints(SortHints(s))
    decreases |s|
  {
    if s != [] {
      SortHintsSorted(s[..|s| - 1]);
      InsertHintSorted(SortHints(s[..|s| - 1]), s[|s| - 1]);
    }
  }

  /** The entries tied with `x`, in their order in `s`. */
  function TiedWith(s: seq<HintEntry>, x: HintEntry): seq<HintEntry>
    decreases |s|
  {
    if s == [] then []
    else TiedWith(s[..|s| - 1], x) + (if Tied(s[|s| - 1], x) then [s[|s| - 1]] else [])
  }

  lemma {:induction false} TiedWithAppend(a: seq<HintEntry>, b: seq<HintEntry>, x: HintEntry)
    ensures TiedWith(a + b, x) == TiedWith(a, x) + TiedWith(b, x)
    decreases |b|
  {
    if b == [] {
      assert a + b == a;
    } else {
      var b0 := b[..|b| - 1];
      TiedWithAppend(a, b0, x);
      assert (a + b)[..|a + b| - 1] == a + b0;
      assert (a + b)[|a + b| - 1] == b[|b| - 1];
    }
  }

  /** Entries that `x` sorts before are never tied with anything tied with `x`. */
  lemma {:induction false} NoneTiedAfter(s: seq<HintEntry>, x: HintEntry, y: HintEntry)
    requires SortedHints(s) && s != [] && Before(x, s[|s| - 1]) && Tied(x, y)
    ensures TiedWith(s[..|s| - 1], y) + TiedWith([s[|s| - 1]], y) == TiedWith(s[..|s| - 1], y)
  {
    CompareConsistent(x, s[|s| - 1], y);
    CompareConsistent(y, x, s[|s| - 1]);
    CompareConsistent(s[|s| - 1], y, x);
    assert !Tied(s[|s| - 1], y);
    assert TiedWith([s[|s| - 1]], y) == TiedWith([], y) + [] by {
      assert [s[|s| - 1]][..0] == [];
    }
  }

  lemma {:induction false} InsertHintStable(s: seq<HintEntry>, x: HintEntry, y: HintEntry)
    requires SortedHints(s)
    ensures TiedWith(InsertHint(s, x), y) == TiedWith(s + [x], y)
    decreases |s|
  {
    if s == [] || !Before(x, s[|s| - 1]) {
    } else {
      var p := s[..|s| - 1];
      var last := s[|s| - 1];
      assert SortedHints(p);
      InsertHintStable(p, x, y);
      TiedWithAppend(InsertHint(p, x), [last], y);
      TiedWithAppend(p + [x], [last], y);
      TiedWithAppend(p, [x], y);
      TiedWithAppend(p, [last], y);
      TiedWithAppend(p + [last], [x], y);
      assert s == p + [last];
      assert p + [x] + [last] == p + [x, last];
      if Tied(x, y) {
        NoneTiedAfter(s, x, y);
        CompareConsistent(x, y, last);
        assert TiedWith([last], y) == [] by {
          assert !Tied(last, y) by {
            CompareConsistent(last, y, x);
            CompareConsistent(x, last, y);
          }
          assert [last][..0] == [];
        }
      } else {
        assert TiedWith([x], y) == [] by {
          assert [x][..0] == [];
          if Tied(x, y) {
          }
        }
      }
    }
  }

  /** The sort is stable: the entries tied with any `y` keep their original order. */
  lemma {:induction false} SortHintsStable(s: seq<HintEntry>, y: HintEntry)
    ensures TiedWith(SortHints(s), y) == TiedWith(s, y)
    decreases |s|
  {
    if s != [] {
      var p := s[..|s| - 1];
      SortHintsStable(p, y);
      SortHintsSorted(p);
      InsertHintStable(SortHints(p), s[|s| - 1], y);
      TiedWithAppend(SortHints(p), [s[|s| - 1]], y);
      TiedWithAppend(p, [s[|s| - 1]], y);
      assert s == p + [s[|s| - 1]];
    }
  }

  lemma InsertHintShift(sorted: seq<HintEntry>, j: nat, x: HintEntry)
    requires 0 < j <= |sorted| && Before(x, sorted[j - 1])
    ensures InsertHint(sorted[..j], x) + sorted[j..] == InsertHint(sorted[..j - 1], x) + sorted[j - 1..]
  {
    assert sorted[..j][..j - 1] == sorted[..j - 1];
    assert sorted[j - 1..] == [sorted[j - 1]] + sorted[j..];
  }

  lemma InsertHintStop(sorted: seq<HintEntry>, j: nat, x: HintEntry)
    requires j <= |sorted| && (j == 0 || !Before(x, sorted[j - 1]))
    ensures InsertHint(sorted[..j], x) + sorted[j..] == sorted[..j] + [x] + sorted[j..]
  {
  }

  lemma SortHintsSnoc(s: seq<HintEntry>, i: nat)
    requires i < |s|
    ensures SortHints(s[..i + 1]) == InsertHint(SortHints(s[..i]), s[i])
  {
    assert s[..i + 1][..i] == s[..i];
  }

  /** One step of the sort: the entry at `i` moves down past every entry of the sorted
      prefix it sorts before. */
  method InsertInPlace(a: array<HintEntry>, i: nat)
    requires i < a.Length
    modifies a
    ensures a[..i + 1] == InsertHint(old(a[..i]), old(a[i]))
    ensures forall k :: i < k < a.Length ==> a[k] == old(a[k])
  {
    var x := a[i];
    ghost var sorted := a[..i];
    var j := i;
    assert sorted[..j] == sorted && sorted[j..] == [];
    while j > 0 && Before(x, a[j - 1])
      invariant 0 <= j <= i
      invariant forall k :: 0 <= k < j ==> a[k] == sorted[k]
      invariant forall k :: j < k <= i ==> a[k] == sorted[k - 1]
      invariant forall k :: i < k < a.Length ==> a[k] == old(a[k])
      invariant InsertHint(sorted, x) == InsertHint(sorted[..j], x) + sorted[j..]
    {
      InsertHintShift(sorted, j, x);
      a[j] := a[j - 1];
      j := j - 1;
    }
    InsertHintStop(sorted, j, x);
    a[j] := x;
    ghost var inserted := sorted[..j] + [x] + sorted[j..];
    assert forall k :: 0 <= k <= i ==> a[k] == inserted[k];
  }

  /** `allHints.sort(compare)`, in place. */
  method SortHintsInPlace(a: array<HintEntry>)
    modifies a
    ensures a[..] == SortHints(old(a[..]))
  {
    ghost var s := a[..];
    var i := 0;
    while i < a.Length
      invariant 0 <= i <= a.Length
      invariant a[..i] == SortHints(s[..i])
      invariant forall k :: i <= k < a.Length ==> a[k] == s[k]
    {
      SortHintsSnoc(s, i);
      InsertInPlace(a, i);
      i := i + 1;
    }
    assert a[..] == a[..a.Length];
    assert s == s[..a.Length];
  }

  // ----- counts -----

  /** `hints.filter(h => h.type === kind).length`. */
  function CountKind(hints: seq<HintEntry>, kind: string): (n: nat)
    ensures n <= |hints|
  {
    if hints == [] then 0
    else (if hints[0].kind == kind then 1 else 0) + CountKind(hints[1..], kind)
  }

  /** The OPT and INF counts never add up to more than the number of hints. */
  lemma {:induction false} CountsBounded(hints: seq<HintEntry>)
    ensures CountKind(hints, "OPT") + CountKind(hints, "INF") <= |hints|
  {
    if hints != [] {
      CountsBounded(hints[1..]);
    }
  }

  lemma {:induction false} CountKindSplit(a: seq<HintEntry>, b: seq<HintEntry>, kind: string)
    ensures CountKind(a + b, kind) == CountKind(a, kind) + CountKind(b, kind)
    decreases |a|
  {
    if a != [] {
      assert (a + b)[1..] == a[1..] + b;
      CountKindSplit(a[1..], b, kind);
    } else {
      assert a + b == b;
    }
  }

  lemma {:induction false} InsertHintCounts(s: seq<HintEntry>, x: HintEntry, kind: string)
    ensures CountKind(InsertHint(s, x), kind) == CountKind(s + [x], kind)
    decreases |s|
  {
    if s != [] && Before(x, s[|s| - 1]) {
      var p := s[..|s| - 1];
      var last := s[|s| - 1];
      InsertHintCounts(p, x, kind);
      CountKindSplit(InsertHint(p, x), [last], kind);
      CountKindSplit(p + [x], [last], kind);
      CountKindSplit(p, [x], kind);
      CountKindSplit(p, [last], kind);
      CountKindSplit(p + [last], [x], kind);
      assert s == p + [last];
    }
  }

  /** Sorting leaves both counts alone. */
  lemma {:induction false} SortKeepsCounts(hints: seq<HintEntry>, kind: string)
    ensures CountKind(SortHints(hints), kind) == CountKind(hints, kind)
    decreases |hints|
  {
    if hints != [] {
      var p := hints[..|hints| - 1];
      var x := hints[|hints| - 1];
      SortKeepsCounts(p, kind);
      InsertHintCounts(SortHints(p), x, kind);
      CountKindSplit(SortHints(p), [x], kind);
      CountKindSplit(p, [x], kind);
      assert hints == p + [x];
    }
  }
}
