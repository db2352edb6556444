/**
  The testcase numbering of a problem, stated on values.

  A subtask is an ordered list of factory entries (count, factory,
  case_type); a problem is an ordered list of subtasks. Everything the
  classes in module EZproblem compute (counts, local and global layouts,
  the per-entry details and the two testcase streams) is specified here as
  a function of those lists, and the lemmas below prove that the streams
  and the layouts number every testcase the same way.
 */
module Layout {
  import opened Wrappers

  /** A testcase factory: from a zero-based index within its entry to the testcase text. */
  type Factory = nat -> string

  /** One registered factory: `(number of testcases, factory function, case_type)`. */
  datatype Entry = Entry(count: nat, factory: Factory, caseType: string)

  /** One row of a subtask's layout: `(case_type, start idx, end idx)`, 1-based and inclusive. */
  datatype Span = Span(caseType: string, start: nat, end: nat)

  /** One generated testcase: its number and its text. */
  datatype Case = Case(index: nat, text: string)

  /** An inclusive range of testcase numbers, `(start idx, end idx)`. */
  datatype Window = Window(start: nat, end: nat)

  /** One row of a problem's layout: `[subtask name, [(start idx, end idx), ...]]`. */
  datatype SubtaskLayout = SubtaskLayout(name: string, windows: seq<Window>)

  /** One row of `testcase_details`: case type, local range, global range. */
  datatype Detail = Detail(caseType: string, local: Window, global: Window)

  /** What a problem sees of one of its subtasks. */
  datatype SubtaskView = SubtaskView(name: string, factories: seq<Entry>, hasSubsets: bool)

  // ---------------------------------------------------------------------
  // One subtask
  // ---------------------------------------------------------------------

  /** Number of testcases the entries produce: the sum of their counts. */
  function Total(fs: seq<Entry>): nat
  {
    if fs == [] then 0 else Total(fs[..|fs| - 1]) + fs[|fs| - 1].count
  }

  /** Adding one entry adds its count. */
  lemma TotalStep(fs: seq<Entry>, k: nat)
    requires k < |fs|
    ensures Total(fs[..k + 1]) == Total(fs[..k]) + fs[k].count
  {
    assert fs[..k + 1][..k] == fs[..k];
  }

  /** Earlier entries never contribute more than a longer prefix. */
  lemma {:induction false} TotalMonotone(fs: seq<Entry>, a: nat, b: nat)
    requires a <= b <= |fs|
    ensures Total(fs[..a]) <= Total(fs[..b])
    decreases b - a
  {
    if a < b {
      TotalMonotone(fs, a, b - 1);
      TotalStep(fs, b - 1);
    }
  }

  /** The layout row of entry k: it starts right after the entries before it. */
  function SpanAt(fs: seq<Entry>, k: nat): Span
    requires k < |fs|
  {
    Span(fs[k].caseType, Total(fs[..k]) + 1, Total(fs[..k]) + fs[k].count)
  }

  /** The local layout, one row per entry, in registration order. */
  function LocalLayout(fs: seq<Entry>): (layout: seq<Span>)
    ensures |layout| == |fs|
  {
    seq(|fs|, k requires 0 <= k < |fs| => SpanAt(fs, k))
  }

  /**
    Each row carries its entry's case type and has as many numbers as the
    entry has testcases; a count-0 entry gets the empty range start == end + 1.
   */
  lemma LocalLayoutRows(fs: seq<Entry>, k: nat)
    requires k < |fs|
    ensures LocalLayout(fs)[k].caseType == fs[k].caseType
    ensures LocalLayout(fs)[k].end + 1 == LocalLayout(fs)[k].start + fs[k].count
    ensures fs[k].count == 0 ==> LocalLayout(fs)[k].start == LocalLayout(fs)[k].end + 1
  {
  }

  /**
    The rows are contiguous and in registration order: the first starts
    at 1, each starts right after the previous one ends (so an empty row
    does not shift the rows after it), and the last ends at the testcase count.
   */
  lemma LocalLayoutContiguous(fs: seq<Entry>)
    ensures |fs| > 0 ==> LocalLayout(fs)[0].start == 1
    ensures forall k :: 0 < k < |fs| ==> LocalLayout(fs)[k].start == LocalLayout(fs)[k - 1].end + 1
    ensures |fs| > 0 ==> LocalLayout(fs)[|fs| - 1].end == Total(fs)
  {
    forall k | 0 < k < |fs| ensures LocalLayout(fs)[k].start == LocalLayout(fs)[k - 1].end + 1 {
      LocalLayoutNext(fs, k);
    }
    if |fs| > 0 {
      assert fs[..0] == [];
      var n := |fs| - 1;
      TotalStep(fs, n);
      assert fs[..n + 1] == fs;
    }
  }

  lemma LocalLayoutNext(fs: seq<Entry>, k: nat)
    requires 0 < k < |fs|
    ensures LocalLayout(fs)[k].start == LocalLayout(fs)[k - 1].end + 1
  {
    TotalStep(fs, k - 1);
  }

  /** Rows of distinct entries never share a testcase number. */
  lemma LocalLayoutDisjoint(fs: seq<Entry>, k: nat, l: nat)
    requires k < l < |fs|
    ensures LocalLayout(fs)[k].end < LocalLayout(fs)[l].start
  {
    TotalStep(fs, k);
    TotalMonotone(fs, k + 1, l);
  }

  /** Number of testcase numbers in each row, added up. */
  function SpanSizes(layout: seq<Span>): int
  {
    if layout == [] then 0
    else SpanSizes(layout[..|layout| - 1]) + (layout[|layout| - 1].end + 1 - layout[|layout| - 1].start)
  }

  /** The layout of a prefix of the entries is the same prefix of the layout. */
  lemma LocalLayoutPrefix(fs: seq<Entry>, n: nat)
    requires n <= |fs|
    ensures LocalLayout(fs[..n]) == LocalLayout(fs)[..n]
  {
    forall k | 0 <= k < n ensures LocalLayout(fs[..n])[k] == LocalLayout(fs)[k] {
      assert fs[..n][..k] == fs[..k];
    }
  }

  /** The row sizes of the local layout add up to the testcase count. */
  lemma {:induction false} SpanSizesTotal(fs: seq<Entry>)
    ensures SpanSizes(LocalLayout(fs)) == Total(fs)
    decreases |fs|
  {
    if fs != [] {
      var n := |fs| - 1;
      LocalLayoutPrefix(fs, n);
      SpanSizesTotal(fs[..n]);
    }
  }

  /** The testcases of one entry, numbered after `offset`. */
  function EntryCases(e: Entry, offset: nat): (cases: seq<Case>)
  {
    seq(e.count, i requires 0 <= i < e.count => Case(offset + i + 1, e.factory(i)))
  }

  /** The testcases of a subtask, numbered from 1, entry after entry. */
  function Cases(fs: seq<Entry>): seq<Case>
  {
    if fs == [] then []
    else Cases(fs[..|fs| - 1]) + EntryCases(fs[|fs| - 1], Total(fs[..|fs| - 1]))
  }

  /** A subtask yields exactly as many testcases as it counts. */
  lemma {:induction false} CasesLength(fs: seq<Entry>)
    ensures |Cases(fs)| == Total(fs)
    decreases |fs|
  {
    if fs != [] {
      CasesLength(fs[..|fs| - 1]);
    }
  }

  /** Testcase i of entry k sits right after the testcases of the entries before it. */
  lemma {:induction false} CasesAt(fs: seq<Entry>, k: nat, i: nat)
    requires k < |fs| && i < fs[k].count
    ensures Total(fs[..k]) + i < |Cases(fs)|
    ensures Cases(fs)[Total(fs[..k]) + i] == Case(Total(fs[..k]) + i + 1, fs[k].factory(i))
    decreases |fs|
  {
    var n := |fs| - 1;
    var init := fs[..n];
    var at := Total(fs[..k]) + i;
    assert Cases(fs) == Cases(init) + EntryCases(fs[n], Total(init));
    CasesLength(init);
    if k < n {
      assert init[..k] == fs[..k] && init[k] == fs[k];
      assert at < |Cases(init)| && Cases(init)[at] == Case(at + 1, fs[k].factory(i)) by {
        CasesAt(init, k, i);
      }
    } else {
      assert fs[..k] == init;
    }
  }

  /** Which entry, and which of its testcases, produce local testcase `j + 1`. */
  function Locate(fs: seq<Entry>, j: nat): (p: (nat, nat))
    requires j < Total(fs)
    ensures p.0 < |fs| && p.1 < fs[p.0].count && j == Total(fs[..p.0]) + p.1
  {
    var n := |fs| - 1;
    if j >= Total(fs[..n]) then (n, j - Total(fs[..n]))
    else
      var p := Locate(fs[..n], j);
      assert fs[..n][..p.0] == fs[..p.0];
      p
  }

  /**
    Local numbering is gapless: the j-th testcase a subtask yields has
    number j + 1, for every j below the testcase count.
   */
  lemma CasesNumbered(fs: seq<Entry>)
    ensures |Cases(fs)| == Total(fs)
    ensures forall j :: 0 <= j < |Cases(fs)| ==> Cases(fs)[j].index == j + 1
  {
    CasesLength(fs);
    forall j | 0 <= j < |Cases(fs)| ensures Cases(fs)[j].index == j + 1 {
      var p := Locate(fs, j);
      CasesAt(fs, p.0, p.1);
    }
  }

  /**
    The subtask stream agrees with the local layout: the testcase numbered
    `j + 1` comes from the entry whose row contains `j + 1`, and that entry's
    factory was called with the zero-based position `j + 1 - start` inside the row.
   */
  lemma CasesMatchLayout(fs: seq<Entry>, j: nat, k: nat)
    requires k < |fs|
    requires LocalLayout(fs)[k].start <= j + 1 <= LocalLayout(fs)[k].end
    ensures j < |Cases(fs)|
    ensures Cases(fs)[j] == Case(j + 1, fs[k].factory(j + 1 - LocalLayout(fs)[k].start))
  {
    CasesAt(fs, k, j - Total(fs[..k]));
  }

  /** Every local testcase number lies in some row of the local layout. */
  lemma LocalLayoutCovers(fs: seq<Entry>, j: nat)
    requires j < Total(fs)
    ensures var k := Locate(fs, j).0;
      LocalLayout(fs)[k].start <= j + 1 <= LocalLayout(fs)[k].end
  {
  }

  // ---------------------------------------------------------------------
  // A problem
  // ---------------------------------------------------------------------

  /** Number of testcases in the problem: the sum of the subtask counts. */
  function ProblemTotal(vs: seq<SubtaskView>): nat
  {
    if vs == [] then 0 else ProblemTotal(vs[..|vs| - 1]) + Total(vs[|vs| - 1].factories)
  }

  lemma ProblemTotalStep(vs: seq<SubtaskView>, i: nat)
    requires i < |vs|
    ensures ProblemTotal(vs[..i + 1]) == ProblemTotal(vs[..i]) + Total(vs[i].factories)
  {
    assert vs[..i + 1][..i] == vs[..i];
  }

  lemma {:induction false} ProblemTotalMonotone(vs: seq<SubtaskView>, a: nat, b: nat)
    requires a <= b <= |vs|
    ensures ProblemTotal(vs[..a]) <= ProblemTotal(vs[..b])
    decreases b - a
  {
    if a < b {
      ProblemTotalMonotone(vs, a, b - 1);
      ProblemTotalStep(vs, b - 1);
    }
  }

  /** Testcases renumbered by adding the running offset. */
  function Shifted(cases: seq<Case>, offset: nat): seq<Case>
  {
    seq(|cases|, j requires 0 <= j < |cases| => Case(offset + cases[j].index, cases[j].text))
  }

  /** The problem's stream: each subtask's stream in turn, shifted by the testcases before it. */
  function ProblemCases(vs: seq<SubtaskView>): seq<Case>
  {
    if vs == [] then []
    else ProblemCases(vs[..|vs| - 1]) + Shifted(Cases(vs[|vs| - 1].factories), ProblemTotal(vs[..|vs| - 1]))
  }

  lemma {:induction false} ProblemCasesLength(vs: seq<SubtaskView>)
    ensures |ProblemCases(vs)| == ProblemTotal(vs)
    decreases |vs|
  {
    if vs != [] {
      ProblemCasesLength(vs[..|vs| - 1]);
      CasesLength(vs[|vs| - 1].factories);
    }
  }

  /**
    Each subtask's testcases form one contiguous run of the problem's
    stream, in subtask order: local testcase j + 1 of subtask i becomes
    global testcase offset + j + 1, with the same text.
   */
  lemma {:induction false} ProblemCasesBlock(vs: seq<SubtaskView>, i: nat, j: nat)
    requires i < |vs| && j < Total(vs[i].factories)
    ensures j < |Cases(vs[i].factories)|
    ensures ProblemTotal(vs[..i]) + j < |ProblemCases(vs)|
    ensures ProblemCases(vs)[ProblemTotal(vs[..i]) + j]
         == Case(ProblemTotal(vs[..i]) + j + 1, Cases(vs[i].factories)[j].text)
    decreases |vs|
  {
    var n := |vs| - 1;
    var init := vs[..n];
    var last := Shifted(Cases(vs[n].factories), ProblemTotal(init));
    CasesLength(vs[i].factories);
    ProblemCasesLength(init);
    assert ProblemCases(vs) == ProblemCases(init) + last;
    var at := ProblemTotal(vs[..i]) + j;
    if i < n {
      assert init[..i] == vs[..i] && init[i] == vs[i];
      assert at < |ProblemCases(init)| && ProblemCases(init)[at] == Case(at + 1, Cases(vs[i].factories)[j].text) by {
        ProblemCasesBlock(init, i, j);
      }
    } else {
      assert Cases(vs[i].factories)[j].index == j + 1 by { CasesNumbered(vs[i].factories); }
      assert vs[..i] == init;
      assert last[j] == Case(ProblemTotal(init) + j + 1, Cases(vs[i].factories)[j].text);
    }
  }

  /** Which subtask, and which of its local testcases, produce global testcase `g + 1`. */
  function LocateSubtask(vs: seq<SubtaskView>, g: nat): (p: (nat, nat))
    requires g < ProblemTotal(vs)
    ensures p.0 < |vs| && p.1 < Total(vs[p.0].factories) && g == ProblemTotal(vs[..p.0]) + p.1
  {
    var n := |vs| - 1;
    if g >= ProblemTotal(vs[..n]) then (n, g - ProblemTotal(vs[..n]))
    else
      var p := LocateSubtask(vs[..n], g);
      assert vs[..n][..p.0] == vs[..p.0];
      p
  }

  /**
    The problem's numbering is gapless and repeat-free: the g-th testcase
    of the stream has number g + 1, for g below the problem's testcase count.
   */
  lemma ProblemCasesNumbered(vs: seq<SubtaskView>)
    ensures |ProblemCases(vs)| == ProblemTotal(vs)
    ensures forall g :: 0 <= g < |ProblemCases(vs)| ==> ProblemCases(vs)[g].index == g + 1
  {
    ProblemCasesLength(vs);
    forall g | 0 <= g < |ProblemCases(vs)| ensures ProblemCases(vs)[g].index == g + 1 {
      var p := LocateSubtask(vs, g);
      ProblemCasesBlock(vs, p.0, p.1);
    }
  }

  /** The single window of subtask i: the numbers after all earlier subtasks. */
  function SubtaskWindow(vs: seq<SubtaskView>, i: nat): Window
    requires i < |vs|
  {
    Window(ProblemTotal(vs[..i]) + 1, ProblemTotal(vs[..i]) + Total(vs[i].factories))
  }

  /** `Problem.get_layout()`: fails when a subtask declares subsets, else one window per subtask. */
  function ProblemLayout(vs: seq<SubtaskView>): Result<seq<SubtaskLayout>>
  {
    if exists i :: 0 <= i < |vs| && vs[i].hasSubsets then Err(NotImplementedError)
    else Ok(LayoutRows(vs))
  }

  /** One subtask with subsets is enough to make the problem layout fail. */
  lemma LayoutFails(vs: seq<SubtaskView>, i: nat)
    requires i < |vs| && vs[i].hasSubsets
    ensures ProblemLayout(vs) == Err(NotImplementedError)
  {
  }

  /** Without subsets the problem layout is all of the layout rows. */
  lemma LayoutSucceeds(vs: seq<SubtaskView>)
    requires forall l :: 0 <= l < |vs| ==> !vs[l].hasSubsets
    ensures ProblemLayout(vs) == Ok(LayoutRows(vs)[..|vs|])
  {
    assert LayoutRows(vs)[..|vs|] == LayoutRows(vs);
  }

  /** One row per subtask: its name and its single window. */
  function LayoutRows(vs: seq<SubtaskView>): (rows: seq<SubtaskLayout>)
    ensures |rows| == |vs|
  {
    seq(|vs|, i requires 0 <= i < |vs| => SubtaskLayout(vs[i].name, [SubtaskWindow(vs, i)]))
  }

  /** The loop step of `Problem.get_layout`: the row built from the running offset is the next row. */
  lemma LayoutRowsStep(vs: seq<SubtaskView>, i: nat, offset: nat)
    requires i < |vs| && offset == ProblemTotal(vs[..i])
    ensures LayoutRows(vs)[..i + 1]
         == LayoutRows(vs)[..i] + [SubtaskLayout(vs[i].name, [Window(offset + 1, offset + Total(vs[i].factories))])]
    ensures offset + Total(vs[i].factories) == ProblemTotal(vs[..i + 1])
  {
    ProblemTotalStep(vs, i);
    var rows := LayoutRows(vs);
    assert rows[..i + 1] == rows[..i] + [rows[i]];
  }

  /**
    The problem layout fails, with NotImplementedError, exactly when a
    subtask declares subsets; otherwise it has one row per subtask, in
    order, named after it and holding that subtask's single window.
   */
  lemma ProblemLayoutRows(vs: seq<SubtaskView>)
    ensures ProblemLayout(vs).Err? <==> exists i :: 0 <= i < |vs| && vs[i].hasSubsets
    ensures ProblemLayout(vs).Err? ==> ProblemLayout(vs).error == NotImplementedError
    ensures ProblemLayout(vs).Ok? ==>
      |ProblemLayout(vs).value| == |vs| &&
      forall i :: 0 <= i < |vs| ==>
        (ProblemLayout(vs).value[i].name == vs[i].name &&
         ProblemLayout(vs).value[i].windows == [SubtaskWindow(vs, i)])
  {
  }

  /**
    The subtask windows are contiguous and in subtask order: the first
    starts at 1, each has as many numbers as its subtask has testcases,
    each starts right after the previous one ends, and the last ends at
    the problem's testcase count.
   */
  lemma SubtaskWindowsContiguous(vs: seq<SubtaskView>)
    ensures |vs| > 0 ==> SubtaskWindow(vs, 0).start == 1
    ensures forall i :: 0 <= i < |vs| ==>
      SubtaskWindow(vs, i).end + 1 == SubtaskWindow(vs, i).start + Total(vs[i].factories)
    ensures forall i :: 0 < i < |vs| ==> SubtaskWindow(vs, i).start == SubtaskWindow(vs, i - 1).end + 1
    ensures |vs| > 0 ==> SubtaskWindow(vs, |vs| - 1).end == ProblemTotal(vs)
  {
    forall i | 0 < i < |vs| ensures SubtaskWindow(vs, i).start == SubtaskWindow(vs, i - 1).end + 1 {
      SubtaskWindowNext(vs, i);
    }
    if |vs| > 0 {
      assert vs[..0] == [];
      var n := |vs| - 1;
      ProblemTotalStep(vs, n);
      assert vs[..n + 1] == vs;
    }
  }

  lemma SubtaskWindowNext(vs: seq<SubtaskView>, i: nat)
    requires 0 < i < |vs|
    ensures SubtaskWindow(vs, i).start == SubtaskWindow(vs, i - 1).end + 1
  {
    ProblemTotalStep(vs, i - 1);
  }

  /** Windows of distinct subtasks never share a testcase number. */
  lemma SubtaskWindowsDisjoint(vs: seq<SubtaskView>, i: nat, l: nat)
    requires i < l < |vs|
    ensures SubtaskWindow(vs, i).end < SubtaskWindow(vs, l).start
  {
    ProblemTotalStep(vs, i);
    ProblemTotalMonotone(vs, i + 1, l);
  }

  /** Layout rows beside the same rows moved by `offset`. */
  function ShiftRows(layout: seq<Span>, offset: nat): (ds: seq<Detail>)
    ensures |ds| == |layout|
  {
    seq(|layout|, k requires 0 <= k < |layout| =>
      Detail(layout[k].caseType, Window(layout[k].start, layout[k].end),
             Window(offset + layout[k].start, offset + layout[k].end)))
  }

  /** The details of one subtask: each layout row beside the same row shifted by `offset`. */
  function SubtaskDetails(fs: seq<Entry>, offset: nat): seq<Detail>
  {
    ShiftRows(LocalLayout(fs), offset)
  }

  /** `Problem.testcase_details()` on values: the details of every subtask, in order. */
  function Details(vs: seq<SubtaskView>): (ds: seq<seq<Detail>>)
    ensures |ds| == |vs|
  {
    seq(|vs|, i requires 0 <= i < |vs| => SubtaskDetails(vs[i].factories, ProblemTotal(vs[..i])))
  }

  /**
    Each detail row carries its entry's case type and local layout row, and
    a global range that is the local range moved by the subtask's offset:
    both have the same length, and the global one lies inside the
    subtask's window of the problem layout.
   */
  lemma DetailsShape(vs: seq<SubtaskView>, i: nat, k: nat)
    requires i < |vs| && k < |vs[i].factories|
    ensures |Details(vs)[i]| == |vs[i].factories|
    ensures var d := Details(vs)[i][k];
      && d.caseType == vs[i].factories[k].caseType
      && d.local == Window(LocalLayout(vs[i].factories)[k].start, LocalLayout(vs[i].factories)[k].end)
      && d.global.start == ProblemTotal(vs[..i]) + d.local.start
      && d.global.end - d.global.start == d.local.end - d.local.start
      && SubtaskWindow(vs, i).start <= d.global.start
      && d.global.end <= SubtaskWindow(vs, i).end
  {
    var fs := vs[i].factories;
    TotalStep(fs, k);
    TotalMonotone(fs, k + 1, |fs|);
    assert fs[..|fs|] == fs;
  }

  /**
    The central agreement: for every global number the problem stream
    assigns, the entry found by locating it has a detail row whose global
    range contains that number, and the testcase text is what that entry's
    factory returns for the zero-based position inside the range.
   */
  lemma ProblemCasesMatchDetails(vs: seq<SubtaskView>, g: nat)
    requires g < ProblemTotal(vs)
    ensures g < |ProblemCases(vs)|
    ensures var (i, j) := LocateSubtask(vs, g);
      var k := Locate(vs[i].factories, j).0;
      var d := Details(vs)[i][k];
      && ProblemCases(vs)[g].index == g + 1
      && d.global.start <= g + 1 <= d.global.end
      && ProblemCases(vs)[g].text == vs[i].factories[k].factory(g + 1 - d.global.start)
  {
    var (i, j) := LocateSubtask(vs, g);
    var k := Locate(vs[i].factories, j).0;
    LocatedDetail(vs, i, j);
    DetailsMatchProblemCases(vs, i, k, g);
  }

  /** The detail row of the entry that yields local testcase j + 1 contains its global number. */
  lemma LocatedDetail(vs: seq<SubtaskView>, i: nat, j: nat)
    requires i < |vs| && j < Total(vs[i].factories)
    ensures var k := Locate(vs[i].factories, j).0;
      Details(vs)[i][k].global.start <= ProblemTotal(vs[..i]) + j + 1 <= Details(vs)[i][k].global.end
  {
    var fs := vs[i].factories;
    var k := Locate(fs, j).0;
    LocalLayoutCovers(fs, j);
    DetailsShape(vs, i, k);
  }

  /**
    And conversely: whichever detail row's global range contains a number,
    the problem stream's testcase with that number came from that row's entry.
   */
  lemma DetailsMatchProblemCases(vs: seq<SubtaskView>, i: nat, k: nat, g: nat)
    requires i < |vs| && k < |vs[i].factories|
    requires Details(vs)[i][k].global.start <= g + 1 <= Details(vs)[i][k].global.end
    ensures g < |ProblemCases(vs)|
    ensures ProblemCases(vs)[g]
         == Case(g + 1, vs[i].factories[k].factory(g + 1 - Details(vs)[i][k].global.start))
  {
    var fs := vs[i].factories;
    var offset := ProblemTotal(vs[..i]);
    var d := Details(vs)[i][k];
    var sp := LocalLayout(fs)[k];
    assert d.global == Window(offset + sp.start, offset + sp.end) by { DetailsShape(vs, i, k); }
    var j := g - offset;
    var n := j + 1 - sp.start;
    assert j < |Cases(fs)| && Cases(fs)[j] == Case(j + 1, fs[k].factory(n)) by { CasesMatchLayout(fs, j, k); }
    CasesLength(fs);
    assert g == offset + j && n == g + 1 - d.global.start;
    assert Cases(fs)[j].text == fs[k].factory(g + 1 - d.global.start);
    assert ProblemCases(vs)[g] == Case(g + 1, Cases(fs)[j].text) by { ProblemCasesBlock(vs, i, j); }
  }
}
