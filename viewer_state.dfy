/** The selection state of the browser viewer: the loaded files, the active kernel, the
    baseline kernel and the list of kernels being compared, with the three handlers that
    change them (the compare button, a click on a kernel, the baseline button). */
module ViewerState {
  import opened Wrappers

  /** A parsed kernel as the viewer keeps it; the selection state only passes it along. */
  datatype ViewKernel = ViewKernel(name: string)

  datatype LoadedFile = LoadedFile(fileName: string, kernels: seq<ViewKernel>)

  /** `{ fileIndex, kernelIndex, kernel }`, the shape of the baseline and of a compared kernel. */
  datatype Entry = Entry(fileIndex: int, kernelIndex: int, kernel: ViewKernel)

  /** How a handler ended: normally, with an exception, or with an alert box. */
  datatype Outcome = Done | TypeError | ReferenceError | Alert(message: string)

  /** `files[fileIndex].kernels[kernelIndex]` when both exist. */
  function KernelAt(files: seq<LoadedFile>, fileIndex: int, kernelIndex: int): (r: Option<ViewKernel>)
    ensures r.Some? <==> 0 <= fileIndex < |files| && 0 <= kernelIndex < |files[fileIndex].kernels|
  {
    if 0 <= fileIndex < |files| && 0 <= kernelIndex < |files[fileIndex].kernels|
    then Some(files[fileIndex].kernels[kernelIndex]) else None
  }

  /** The entry is for the kernel at those indices. */
  predicate Matches(e: Entry, fileIndex: int, kernelIndex: int) {
    e.fileIndex == fileIndex && e.kernelIndex == kernelIndex
  }

  /** `compareKernels.some(ck => ck.fileIndex === fileIndex && ck.kernelIndex === kernelIndex)`. */
  function InComparison(entries: seq<Entry>, fileIndex: int, kernelIndex: int): bool {
    if entries == [] then false
    else Matches(entries[0], fileIndex, kernelIndex) || InComparison(entries[1..], fileIndex, kernelIndex)
  }

  /** `compareKernels.filter(ck => !(ck.fileIndex === fileIndex && ck.kernelIndex === kernelIndex))`. */
  function Without(entries: seq<Entry>, fileIndex: int, kernelIndex: int): (r: seq<Entry>)
    ensures |r| <= |entries|
  {
    if entries == [] then []
    else
      var head := if Matches(entries[0], fileIndex, kernelIndex) then [] else [entries[0]];
      head + Without(entries[1..], fileIndex, kernelIndex)
  }

  /** No two entries name the same kernel. */
  predicate Distinct(entries: seq<Entry>) {
    forall i, j :: 0 <= i < j < |entries| ==>
      !(entries[i].fileIndex == entries[j].fileIndex && entries[i].kernelIndex == entries[j].kernelIndex)
  }

  /** Every entry holds the kernel found at its indices. */
  predicate Coherent(files: seq<LoadedFile>, e: Entry) {
    KernelAt(files, e.fileIndex, e.kernelIndex) == Some(e.kernel)
  }

  // ----- the list operations -----

  /** `isInComparison` holds exactly when some entry has both indices. */
  lemma {:induction false} InComparisonIff(entries: seq<Entry>, fileIndex: int, kernelIndex: int)
    ensures InComparison(entries, fileIndex, kernelIndex) <==>
      exists i :: 0 <= i < |entries| && Matches(entries[i], fileIndex, kernelIndex)
    decreases |entries|
  {
    if entries != [] {
      InComparisonIff(entries[1..], fileIndex, kernelIndex);
      if InComparison(entries[1..], fileIndex, kernelIndex) {
        var i :| 0 <= i < |entries[1..]| && Matches(entries[1..][i], fileIndex, kernelIndex);
        assert Matches(entries[i + 1], fileIndex, kernelIndex);
      }
      if exists i :: 0 <= i < |entries| && Matches(entries[i], fileIndex, kernelIndex) {
        var i :| 0 <= i < |entries| && Matches(entries[i], fileIndex, kernelIndex);
        if i > 0 {
          assert Matches(entries[1..][i - 1], fileIndex, kernelIndex);
        }
      }
    }
  }

  /** Removing drops that kernel, and only that kernel: every other entry stays. */
  lemma {:induction false} WithoutRemovesExactly(entries: seq<Entry>, fileIndex: int, kernelIndex: int)
    ensures !InComparison(Without(entries, fileIndex, kernelIndex), fileIndex, kernelIndex)
    ensures forall e :: e in entries && !Matches(e, fileIndex, kernelIndex) ==> e in Without(entries, fileIndex, kernelIndex)
    ensures forall e :: e in Without(entries, fileIndex, kernelIndex) ==> e in entries && !Matches(e, fileIndex, kernelIndex)
    decreases |entries|
  {
    if entries != [] {
      var rest := Without(entries[1..], fileIndex, kernelIndex);
      WithoutRemovesExactly(entries[1..], fileIndex, kernelIndex);
      var head := if Matches(entries[0], fileIndex, kernelIndex) then [] else [entries[0]];
      assert Without(entries, fileIndex, kernelIndex) == head + rest;
      InComparisonAppend(head, rest, fileIndex, kernelIndex);
      forall e | e in entries && !Matches(e, fileIndex, kernelIndex)
        ensures e in head + rest
      {
        if e != entries[0] {
          assert e in entries[1..];
        }
      }
    }
  }

  lemma {:induction false} InComparisonAppend(a: seq<Entry>, b: seq<Entry>, fileIndex: int, kernelIndex: int)
    ensures InComparison(a + b, fileIndex, kernelIndex) == (InComparison(a, fileIndex, kernelIndex) || InComparison(b, fileIndex, kernelIndex))
    decreases |a|
  {
    if a == [] {
      assert a + b == b;
    } else {
      assert (a + b)[1..] == a[1..] + b;
      InComparisonAppend(a[1..], b, fileIndex, kernelIndex);
    }
  }

  /** The others keep their order: removing distributes over concatenation and keeps an
      entry for another kernel. */
  lemma {:induction false} WithoutKeepsOrder(a: seq<Entry>, b: seq<Entry>, fileIndex: int, kernelIndex: int)
    ensures Without(a + b, fileIndex, kernelIndex) == Without(a, fileIndex, kernelIndex) + Without(b, fileIndex, kernelIndex)
    ensures forall e :: !Matches(e, fileIndex, kernelIndex) ==> Without([e], fileIndex, kernelIndex) == [e]
    decreases |a|
  {
    if a == [] {
      assert a + b == b;
    } else {
      assert (a + b)[1..] == a[1..] + b;
      WithoutKeepsOrder(a[1..], b, fileIndex, kernelIndex);
    }
    forall e | !Matches(e, fileIndex, kernelIndex)
      ensures Without([e], fileIndex, kernelIndex) == [e]
    {
      assert [e][1..] == [];
    }
  }

  /** In a list without repeats, removing a listed kernel shortens it by exactly one. */
  lemma {:induction false} WithoutShrinksByOne(entries: seq<Entry>, fileIndex: int, kernelIndex: int)
    requires Distinct(entries) && InComparison(entries, fileIndex, kernelIndex)
    ensures |Without(entries, fileIndex, kernelIndex)| == |entries| - 1
    decreases |entries|
  {
    var rest := entries[1..];
    assert Distinct(rest);
    if Matches(entries[0], fileIndex, kernelIndex) {
      InComparisonIff(rest, fileIndex, kernelIndex);
      if InComparison(rest, fileIndex, kernelIndex) {
        assert false;
      }
      WithoutNothing(rest, fileIndex, kernelIndex);
    } else {
      WithoutShrinksByOne(rest, fileIndex, kernelIndex);
    }
  }

  /** Removing a kernel that is not listed changes nothing. */
  lemma {:induction false} WithoutNothing(entries: seq<Entry>, fileIndex: int, kernelIndex: int)
    requires !InComparison(entries, fileIndex, kernelIndex)
    ensures Without(entries, fileIndex, kernelIndex) == entries
    decreases |entries|
  {
    if entries != [] {
      WithoutNothing(entries[1..], fileIndex, kernelIndex);
    }
  }

  /** Removing keeps a list without repeats without repeats. */
  lemma {:induction false} WithoutDistinct(entries: seq<Entry>, fileIndex: int, kernelIndex: int)
    requires Distinct(entries)
    ensures Distinct(Without(entries, fileIndex, kernelIndex))
    decreases |entries|
  {
    if entries != [] {
      var rest := entries[1..];
      assert Distinct(rest);
      WithoutDistinct(rest, fileIndex, kernelIndex);
      WithoutRemovesExactly(rest, fileIndex, kernelIndex);
      var w := Without(rest, fileIndex, kernelIndex);
      if !Matches(entries[0], fileIndex, kernelIndex) {
        var r := [entries[0]] + w;
        forall j | 0 < j < |r|
          ensures !(r[0].fileIndex == r[j].fileIndex && r[0].kernelIndex == r[j].kernelIndex)
        {
          assert r[j] in w;
          assert r[j] in rest;
          var k :| 0 <= k < |rest| && rest[k] == r[j];
          assert entries[k + 1] == r[j];
        }
      }
    }
  }

  // ----- the viewer -----

  class App {
    var files: seq<LoadedFile>
    var activeFileIndex: int
    var activeKernelIndex: int
    var baseline: Option<Entry>
    var compareMode: bool
    var compareKernels: seq<Entry>

    /** What the handlers below keep true: outside compare mode nothing is being
        compared, no kernel is compared twice, and every kept entry holds the kernel at
        its indices. Because the add path of `selectKernel` always fails, at most the
        kernel that was active when compare mode was entered is ever in the list. */
    predicate Valid()
      reads this
    {
      && (!compareMode ==> compareKernels == [])
      && |compareKernels| <= 1
      && Distinct(compareKernels)
      && (forall i :: 0 <= i < |compareKernels| ==> Coherent(files, compareKernels[i]))
      && (baseline.Some? ==> Coherent(files, baseline.value))
    }

    constructor (files: seq<LoadedFile>)
      ensures this.files == files && activeFileIndex == -1 && activeKernelIndex == -1
      ensures baseline.None? && !compareMode && compareKernels == []
      ensures Valid()
    {
      this.files := files;
      activeFileIndex, activeKernelIndex := -1, -1;
      baseline := None;
      compareMode := false;
      compareKernels := [];
    }

    /** `getActiveKernel()`. */
    function ActiveKernel(): Option<ViewKernel>
      reads this
    {
      KernelAt(files, activeFileIndex, activeKernelIndex)
    }

    /** `isInComparison(fileIndex, kernelIndex)`. */
    predicate IsInComparison(fileIndex: int, kernelIndex: int)
      reads this
    {
      InComparison(compareKernels, fileIndex, kernelIndex)
    }

    /** The compare button. Entering compare mode adds the active kernel unless it is
        already listed; leaving it empties the list. */
    method ToggleCompareMode()
      modifies this
      ensures compareMode == !old(compareMode)
      ensures !compareMode ==> compareKernels == []
      ensures compareMode ==> (compareKernels == old(compareKernels) +
        (match old(ActiveKernel())
         case Some(k) =>
           if InComparison(old(compareKernels), activeFileIndex, activeKernelIndex) then []
           else [Entry(activeFileIndex, activeKernelIndex, k)]
         case None => []))
      ensures files == old(files) && activeFileIndex == old(activeFileIndex)
      ensures activeKernelIndex == old(activeKernelIndex) && baseline == old(baseline)
      ensures old(Valid()) ==> Valid()
    {
      compareMode := !compareMode;
      if compareMode {
        var kernel := ActiveKernel();
        if kernel.Some? && !IsInComparison(activeFileIndex, activeKernelIndex) {
          compareKernels := compareKernels + [Entry(activeFileIndex, activeKernelIndex, kernel.value)];
        }
      } else {
        compareKernels := [];
      }
    }

    /** A click on kernel `index` of file `fileIndex`. In compare mode a listed kernel is
        removed; adding one reads the undeclared `kernelIndex` and throws, unless four are
        listed already, which only raises an alert. Outside compare mode the kernel
        becomes the active one. */
    method SelectKernel(fileIndex: int, index: int) returns (outcome: Outcome)
      modifies this
      ensures files == old(files) && compareMode == old(compareMode) && baseline == old(baseline)
      ensures old(compareMode) && !(0 <= fileIndex < |files|) ==>
        outcome == TypeError && compareKernels == old(compareKernels)
      ensures old(compareMode) && 0 <= fileIndex < |files| && old(IsInComparison(fileIndex, index)) ==>
        outcome == Done && compareKernels == Without(old(compareKernels), fileIndex, index)
      ensures old(compareMode) && 0 <= fileIndex < |files| && !old(IsInComparison(fileIndex, index)) ==>
        compareKernels == old(compareKernels) &&
        outcome == (if |compareKernels| < 4 then ReferenceError else Alert("Maximum 4 kernels can be compared at once"))
      ensures old(compareMode) ==> activeFileIndex == old(activeFileIndex) && activeKernelIndex == old(activeKernelIndex)
      ensures !old(compareMode) ==>
        outcome == Done && compareKernels == old(compareKernels) &&
        activeFileIndex == fileIndex && activeKernelIndex == index
      ensures old(Valid()) ==> Valid()
    {
      if compareMode {
        if !(0 <= fileIndex < |files|) {
          return TypeError;
        }
        if IsInComparison(fileIndex, index) {
          ghost var before := compareKernels;
          compareKernels := Without(compareKernels, fileIndex, index);
          if Distinct(before) {
            WithoutDistinct(before, fileIndex, index);
          }
          WithoutRemovesExactly(before, fileIndex, index);
          forall i | 0 <= i < |compareKernels|
            ensures compareKernels[i] in before
          {
            assert compareKernels[i] in compareKernels;
          }
          return Done;
        }
        if |compareKernels| < 4 {
          return ReferenceError;
        }
        return Alert("Maximum 4 kernels can be compared at once");
      }
      if activeFileIndex == fileIndex && activeKernelIndex == index {
        return Done;
      }
      activeFileIndex := fileIndex;
      activeKernelIndex := index;
      return Done;
    }

    /** The baseline button: it clears a baseline that is the active kernel, and
        otherwise makes the active kernel, if there is one, the baseline. */
    method ToggleBaseline()
      modifies this
      ensures old(baseline).Some? && Matches(old(baseline).value, activeFileIndex, activeKernelIndex) ==>
        baseline.None?
      ensures !(old(baseline).Some? && Matches(old(baseline).value, activeFileIndex, activeKernelIndex)) ==>
        baseline == (match ActiveKernel()
                     case Some(k) => Some(Entry(activeFileIndex, activeKernelIndex, k))
                     case None => old(baseline))
      ensures files == old(files) && activeFileIndex == old(activeFileIndex)
      ensures activeKernelIndex == old(activeKernelIndex)
      ensures compareMode == old(compareMode) && compareKernels == old(compareKernels)
      ensures old(Valid()) ==> Valid()
    {
      if baseline.Some? && baseline.value.fileIndex == activeFileIndex && baseline.value.kernelIndex == activeKernelIndex {
        baseline := None;
      } else {
        var kernel := ActiveKernel();
        if kernel.Some? {
          baseline := Some(Entry(activeFileIndex, activeKernelIndex, kernel.value));
        }
      }
    }
  }
}
