/**
  The `Problem` and `Subtask` classes and the free functions of the
  testcase-generator library. A subtask registers factory entries; a
  problem owns an ordered list of subtasks. Every query walks these lists
  with running offsets, as the Python code does, and is proved equal to the
  matching function of module Layout or Report, where the numbering
  properties are proved.
 */
module EZproblem {
  import opened Wrappers
  import opened Text
  import opened Layout
  import opened Report

  /**
    `number_range(text)`: the integers written as a comma-separated list
    of numbers and inclusive `a-b` runs, in order; None where the Python
    code raises ValueError.
   */
  method NumberRange(text: string) returns (numbers: Option<seq<nat>>)
    ensures numbers == NumberRangeOf(text)
  {
    var result: seq<nat> := [];
    var parts := Split(text, ',');
    for p := 0 to |parts|
      invariant PartsNumbers(parts[..p]) == Some(result)
    {
      var more := ReadPart(parts[p]);
      PartsNumbersStep(parts, p);
      if more.None? {
        MalformedPartFails(parts, p);
        return None;
      }
      result := result + more.value;
    }
    assert parts[..|parts|] == parts;
    numbers := Some(result);
  }

  /** The body of the loop of `number_range`: the numbers one part adds. */
  method ReadPart(part: string) returns (numbers: Option<seq<nat>>)
    ensures numbers == PartNumbers(part)
  {
    if '-' in part {
      var halves := Split(part, '-');
      if |halves| != 2 || !IsNumeral(halves[0]) || !IsNumeral(halves[1]) {
        return None;
      }
      var left := NumeralValue(halves[0]);
      var right := NumeralValue(halves[1]);
      var run: seq<nat> := [];
      var n := left;
      while n <= right
        invariant left <= n && n - left <= |InclusiveRange(left, right)|
        invariant run == InclusiveRange(left, right)[..n - left]
        decreases right + 1 - n
      {
        run := run + [n];
        n := n + 1;
      }
      assert run == InclusiveRange(left, right);
      numbers := Some(run);
    } else {
      if !IsNumeral(part) {
        return None;
      }
      numbers := Some([NumeralValue(part)]);
    }
  }

  /** `cbr_naming(subtask_no, points)`: a subtask name in codebreaker format. */
  function CbrNaming(subtaskNo: int, points: int): string
  {
    "Subtask " + IntToString(subtaskNo) + " (" + IntToString(points) + " pts)"
  }

  /** Distinct (subtask number, points) pairs get distinct codebreaker names. */
  lemma CbrNamingInjective(no: int, points: int, no': int, points': int)
    requires CbrNaming(no, points) == CbrNaming(no', points')
    ensures no == no' && points == points'
  {
    var a, b := IntToString(no), IntToString(points);
    var a', b' := IntToString(no'), IntToString(points');
    IntToStringInjective(no, no');
    IntToStringInjective(points, points');
    IntToStringInjective(no', no);
    IntToStringInjective(points', points);
    NamingFields(a, b);
    NamingFields(a', b');
    assert a == a';
  }

  /** The two numbers of a codebreaker name are the texts after `Subtask ` and after ` (`, each up to a space. */
  lemma NamingFields(a: string, b: string)
    requires ' ' !in a && ' ' !in b
    ensures var name := "Subtask " + a + " (" + b + " pts)";
      |name| >= 8 + |a| + 2 && BeforeSpace(name[8..]) == a && BeforeSpace(name[8 + |a| + 2..]) == b
  {
    var name := "Subtask " + a + " (" + b + " pts)";
    var rest := "(" + b + " pts)";
    assert name == "Subtask " + (a + " " + rest);
    assert name[8..] == a + " " + rest;
    BeforeSpaceOf(a, rest);
    assert name[8 + |a| + 2..] == b + " " + "pts)";
    BeforeSpaceOf(b, "pts)");
  }

  /**
    `cbr_layout_format(layout)`: the codebreaker summary of a problem layout,
    one `- name: start-end, ...` line per subtask under a header.
   */
  method CbrLayoutFormat(layout: seq<SubtaskLayout>) returns (text: string)
    ensures text == LayoutText(layout)
  {
    var result := "Testcase file numbers:\n";
    for i := 0 to |layout|
      invariant result == LayoutHeader + LayoutLines(layout[..i])
    {
      var row := layout[i];
      var testcases: seq<string> := [];
      for w := 0 to |row.windows|
        invariant testcases == WindowTexts(row.windows)[..w]
      {
        var window := row.windows[w];
        testcases := testcases + [NatToString(window.start) + "-" + NatToString(window.end)];
      }
      assert testcases == WindowTexts(row.windows);
      LayoutAppend(layout, i, result);
      result := result + ("- " + row.name + ": " + Join(testcases, ", ") + "\n");
    }
    assert layout[..|layout|] == layout;
    text := Strip(result);
  }

  /** The inner loop of `Problem.generate`: a subtask's testcases renumbered after `offset` earlier ones. */
  method ShiftCases(local: seq<Case>, offset: nat) returns (shifted: seq<Case>)
    ensures shifted == Shifted(local, offset)
  {
    shifted := [];
    for j := 0 to |local|
      invariant shifted == Shifted(local, offset)[..j]
    {
      shifted := shifted + [Case(offset + local[j].index, local[j].text)];
    }
  }

  /** The inner loop of `Problem.testcase_details`: each layout row with its range moved by `offset`. */
  method ShiftLayout(layout: seq<Span>, offset: nat) returns (rows: seq<Detail>)
    ensures rows == ShiftRows(layout, offset)
  {
    rows := [];
    for k := 0 to |layout|
      invariant rows == ShiftRows(layout, offset)[..k]
    {
      var row := layout[k];
      rows := rows + [Detail(row.caseType, Window(row.start, row.end), Window(offset + row.start, offset + row.end))];
    }
  }

  /** The inner loop of `Problem.breakdown_str`: one line per allocation. */
  method AllocationLines(allocations: seq<Detail>) returns (lines: string)
    ensures lines == DetailLines(allocations)
  {
    lines := "";
    for k := 0 to |allocations|
      invariant lines == DetailLines(allocations[..k])
    {
      var d := allocations[k];
      ghost var before := lines;
      lines := lines + ("- " + d.caseType + ": subtask testcase #" + NatToString(d.local.start) + "-" + NatToString(d.local.end));
      lines := lines + (", testcase files #" + NatToString(d.global.start) + "-" + NatToString(d.global.end) + "\n");
      Concat3(before, LocalPart(d), GlobalPart(d));
      DetailLinesStep(allocations, k);
    }
    assert allocations[..|allocations|] == allocations;
  }

  /** A subtask: a name, its factory entries in registration order, and the subtasks it declares as subsets. */
  class Subtask {
    var name: string
    var factories: seq<Entry>
    var subsets: seq<Subtask>

    /** `Subtask(name, subsets, factories)`; callers pass [] for the Python defaults. */
    constructor (name: string, subsets: seq<Subtask>, factories: seq<Entry>)
      ensures this.name == name && this.subsets == subsets && this.factories == factories
    {
      this.name := name;
      this.factories := factories;
      this.subsets := subsets;
    }

    /** What a problem sees of this subtask. */
    function View(): SubtaskView
      reads this
    {
      SubtaskView(name, factories, subsets != [])
    }

    /** `generate_entry(entry)`: the entry's testcases, its factory called with 0, 1, ..., count - 1. */
    method GenerateEntry(entry: Entry) returns (testcases: seq<string>)
      ensures |testcases| == entry.count
      ensures forall i :: 0 <= i < entry.count ==> testcases[i] == entry.factory(i)
    {
      testcases := [];
      for i := 0 to entry.count
        invariant |testcases| == i
        invariant forall l :: 0 <= l < i ==> testcases[l] == entry.factory(l)
      {
        testcases := testcases + [entry.factory(i)];
      }
    }

    /** `get_testcase_count()`: the sum of the registered counts. */
    method GetTestcaseCount() returns (total: nat)
      ensures total == Total(factories)
    {
      total := 0;
      for k := 0 to |factories|
        invariant total == Total(factories[..k])
      {
        TotalStep(factories, k);
        total := total + factories[k].count;
      }
      assert factories[..|factories|] == factories;
    }

    /** `get_layout()`: one `(case_type, start, end)` row per entry, by running offset. */
    method GetLayout() returns (layout: seq<Span>)
      ensures layout == LocalLayout(factories)
    {
      layout := [];
      var offset := 0;
      for k := 0 to |factories|
        invariant offset == Total(factories[..k])
        invariant layout == LocalLayout(factories)[..k]
      {
        var entry := factories[k];
        layout := layout + [Span(entry.caseType, offset + 1, offset + entry.count)];
        TotalStep(factories, k);
        offset := offset + entry.count;
      }
    }

    /** `generate()`: every testcase of the subtask with its local number, counting from 1. */
    method Generate() returns (testcases: seq<Case>)
      ensures testcases == Cases(factories)
    {
      testcases := [];
      var counter := 1;
      for k := 0 to |factories|
        invariant testcases == Cases(factories[..k])
        invariant counter == Total(factories[..k]) + 1
      {
        var entry := factories[k];
        var batch := GenerateEntry(entry);
        ghost var before := testcases;
        ghost var offset := Total(factories[..k]);
        for i := 0 to |batch|
          invariant testcases == before + EntryCases(entry, offset)[..i]
          invariant counter == offset + i + 1
        {
          testcases := testcases + [Case(counter, batch[i])];
          counter := counter + 1;
        }
        assert factories[..k + 1][..k] == factories[..k];
        TotalStep(factories, k);
      }
      assert factories[..|factories|] == factories;
    }

    /**
      `testcases(number, case_type)(factory)`: the decorator registers the
      decorated factory by appending one entry; nothing else changes.
     */
    method Testcases(number: nat, caseType: string, factory: Factory)
      modifies this
      ensures factories == old(factories) + [Entry(number, factory, caseType)]
      ensures name == old(name) && subsets == old(subsets)
    {
      factories := factories + [Entry(number, factory, caseType)];
    }
  }

  /** A problem: a name and its subtasks, in generation order. */
  class Problem {
    var name: string
    var subtasks: seq<Subtask>

    /** `Problem(name, subtasks)`; callers pass [] for the Python default. */
    constructor (name: string, subtasks: seq<Subtask>)
      ensures this.name == name && this.subtasks == subtasks
    {
      this.name := name;
      this.subtasks := subtasks;
    }

    /** The subtasks as values, in order. */
    ghost function Views(): (vs: seq<SubtaskView>)
      reads this, subtasks
      ensures |vs| == |subtasks|
    {
      seq(|subtasks|, i reads this, subtasks requires 0 <= i < |subtasks| => subtasks[i].View())
    }

    /** `new_subtask(...)`: builds a subtask, appends it to the problem, and returns that same object. */
    method NewSubtask(name: string, subsets: seq<Subtask>, factories: seq<Entry>) returns (subtask: Subtask)
      modifies this
      ensures fresh(subtask)
      ensures subtask.name == name && subtask.subsets == subsets && subtask.factories == factories
      ensures subtasks == old(subtasks) + [subtask] && this.name == old(this.name)
      ensures Views() == old(Views()) + [subtask.View()]
    {
      subtask := new Subtask(name, subsets, factories);
      subtasks := subtasks + [subtask];
    }

    /** `get_testcase_count()`: the sum of the subtask counts. */
    method GetTestcaseCount() returns (total: nat)
      ensures total == ProblemTotal(Views())
    {
      ghost var vs := Views();
      total := 0;
      for i := 0 to |subtasks|
        invariant total == ProblemTotal(vs[..i])
      {
        var size := subtasks[i].GetTestcaseCount();
        ProblemTotalStep(vs, i);
        total := total + size;
      }
      assert vs[..|vs|] == vs;
    }

    /**
      `generate()`: every testcase of the problem, numbered globally by
      adding the running offset to each subtask's local numbers.
     */
    method Generate() returns (testcases: seq<Case>)
      ensures testcases == ProblemCases(Views())
    {
      ghost var vs := Views();
      testcases := [];
      var offset := 0;
      for i := 0 to |subtasks|
        invariant testcases == ProblemCases(vs[..i])
        invariant offset == ProblemTotal(vs[..i])
      {
        var subtask := subtasks[i];
        assert subtask.View() == vs[i];
        var local := subtask.Generate();
        var shifted := ShiftCases(local, offset);
        testcases := testcases + shifted;
        assert vs[..i + 1][..i] == vs[..i];
        var size := subtask.GetTestcaseCount();
        ProblemTotalStep(vs, i);
        offset := offset + size;
      }
      assert vs[..|vs|] == vs;
    }

    /**
      `get_layout()`: one `(name, [(start, end)])` row per subtask; raises
      NotImplementedError when a subtask declares subsets.
     */
    method GetLayout() returns (layout: Result<seq<SubtaskLayout>>)
      ensures layout == ProblemLayout(Views())
    {
      ghost var vs := Views();
      ghost var rows := LayoutRows(vs);
      var result: seq<SubtaskLayout> := [];
      var offset := 0;
      for i := 0 to |subtasks|
        invariant offset == ProblemTotal(vs[..i])
        invariant forall l :: 0 <= l < i ==> !vs[l].hasSubsets
        invariant result == rows[..i]
      {
        var subtask := subtasks[i];
        var size := subtask.GetTestcaseCount();
        assert subtask.View() == vs[i];
        var ranges := [Window(offset + 1, offset + size)];
        if subtask.subsets != [] {
          LayoutFails(vs, i);
          assert Views() == vs;
          return Err(NotImplementedError);
        }
        assert !vs[i].hasSubsets && subtask.name == vs[i].name && size == Total(vs[i].factories);
        LayoutRowsStep(vs, i, offset);
        result := result + [SubtaskLayout(subtask.name, ranges)];
        offset := offset + size;
      }
      LayoutSucceeds(vs);
      assert Views() == vs;
      layout := Ok(result);
    }

    /**
      `testcase_details()`: for every subtask, in order, the subtask itself
      and one `(case_type, local range, global range)` row per entry.
     */
    method TestcaseDetails() returns (details: seq<(Subtask, seq<Detail>)>)
      ensures |details| == |subtasks|
      ensures forall i :: 0 <= i < |subtasks| ==> details[i].0 == subtasks[i] && details[i].1 == Details(Views())[i]
    {
      ghost var vs := Views();
      ghost var dss := Details(vs);
      details := [];
      var offset := 0;
      for i := 0 to |subtasks|
        invariant offset == ProblemTotal(vs[..i])
        invariant |details| == i
        invariant forall l :: 0 <= l < i ==> details[l].0 == subtasks[l]
        invariant forall l :: 0 <= l < i ==> details[l].1 == dss[l]
      {
        var subtask := subtasks[i];
        assert subtask.View() == vs[i];
        var layout := subtask.GetLayout();
        var subtaskResult := ShiftLayout(layout, offset);
        assert subtaskResult == dss[i];
        details := details + [(subtask, subtaskResult)];
        var size := subtask.GetTestcaseCount();
        ProblemTotalStep(vs, i);
        offset := offset + size;
      }
      assert Views() == vs;
    }

    /** `breakdown_str()`: the testcase details as text, one block per subtask. */
    method BreakdownStr() returns (text: string)
      ensures text == BreakdownText(Views())
    {
      ghost var vs := Views();
      ghost var dss := Details(vs);
      var details := TestcaseDetails();
      assert Views() == vs;
      var result := "Testcase breakdown\n";
      for i := 0 to |details|
        invariant result == BreakdownHeader + BreakdownBlocks(vs[..i], dss[..i])
      {
        var subtask := details[i].0;
        var allocations: seq<Detail> := details[i].1;
        assert subtask == subtasks[i] && allocations == dss[i];
        assert subtask.View() == vs[i];
        var count := subtask.GetTestcaseCount();
        assert count == Total(vs[i].factories);
        ghost var before := result;
        result := result + BlockHeading(subtask.name, count);
        var lines := AllocationLines(allocations);
        result := result + lines;
        BreakdownAppend(vs, dss, i, before);
      }
      assert result == BreakdownHeader + BreakdownBlocks(vs, dss) by {
        assert vs[..|vs|] == vs && dss[..|vs|] == dss;
      }
      text := Strip(result);
      assert Views() == vs;
    }
  }
}
