/**
  The text formats of the layout code, as functions: the comma-and-dash
  number lists that `number_range` reads, the codebreaker layout summary
  that `cbr_layout_format` writes, and the breakdown that
  `Problem.breakdown_str` writes.
 */
module Report {
  import opened Wrappers
  import opened Text
  import opened Layout

  // ---------------------------------------------------------------------
  // number_range
  // ---------------------------------------------------------------------

  /** `list(range(left, right + 1))`: the ascending run left..right, empty when left > right. */
  function InclusiveRange(left: nat, right: nat): (r: seq<nat>)
    ensures |r| == if left <= right then right - left + 1 else 0
    ensures forall i :: 0 <= i < |r| ==> r[i] == left + i
    decreases right + 1 - left
  {
    if left > right then [] else [left] + InclusiveRange(left + 1, right)
  }

  /**
    The numbers one comma-separated part stands for: a part with a dash
    must split into exactly two numerals (else the unpacking or `int()`
    raises ValueError, here None) and stands for the inclusive run between
    them; any other part must be one numeral.
   */
  function PartNumbers(part: string): Option<seq<nat>>
  {
    if '-' in part then
      var halves := Split(part, '-');
      if |halves| == 2 && IsNumeral(halves[0]) && IsNumeral(halves[1])
      then Some(InclusiveRange(NumeralValue(halves[0]), NumeralValue(halves[1])))
      else None
    else if IsNumeral(part) then Some([NumeralValue(part)])
    else None
  }

  /** Numbers read so far followed by more numbers; a failure on either side is a failure. */
  function Then(numbers: Option<seq<nat>>, more: Option<seq<nat>>): Option<seq<nat>>
  {
    if numbers.None? || more.None? then None else Some(numbers.value + more.value)
  }

  /** The numbers of the parts, in order; None as soon as one part is malformed. */
  function PartsNumbers(parts: seq<string>): Option<seq<nat>>
  {
    if parts == [] then Some([])
    else Then(PartsNumbers(parts[..|parts| - 1]), PartNumbers(parts[|parts| - 1]))
  }

  /** `number_range(text)`: None where the Python code raises ValueError. */
  function NumberRangeOf(text: string): Option<seq<nat>>
  {
    PartsNumbers(Split(text, ','))
  }

  /**
    Parts are read independently and in order: the numbers of two runs of
    parts are those of the first run followed by those of the second, and
    a malformed part anywhere makes the whole list fail.
   */
  lemma {:induction false} PartsNumbersAppend(a: seq<string>, b: seq<string>)
    ensures PartsNumbers(a + b) == Then(PartsNumbers(a), PartsNumbers(b))
    decreases |b|
  {
    if b == [] {
      assert a + b == a;
      if PartsNumbers(a).Some? {
        assert PartsNumbers(a).value + [] == PartsNumbers(a).value;
      }
    } else {
      var n := |b| - 1;
      assert (a + b)[..|a + b| - 1] == a + b[..n];
      assert (a + b)[|a + b| - 1] == b[n];
      PartsNumbersAppend(a, b[..n]);
      var x, y, z := PartsNumbers(a), PartsNumbers(b[..n]), PartNumbers(b[n]);
      if x.Some? && y.Some? && z.Some? {
        assert (x.value + y.value) + z.value == x.value + (y.value + z.value);
      }
    }
  }

  /** One more part extends the numbers read so far by that part's numbers. */
  lemma PartsNumbersStep(parts: seq<string>, p: nat)
    requires p < |parts|
    ensures PartsNumbers(parts[..p + 1]) == Then(PartsNumbers(parts[..p]), PartNumbers(parts[p]))
  {
    assert parts[..p + 1][..p] == parts[..p];
  }

  /** One malformed part makes the whole list fail, wherever it stands. */
  lemma MalformedPartFails(parts: seq<string>, p: nat)
    requires p < |parts| && PartNumbers(parts[p]).None?
    ensures PartsNumbers(parts) == None
  {
    var a, b := parts[..p + 1], parts[p + 1..];
    assert PartsNumbers(a) == None by { PartsNumbersStep(parts, p); }
    assert PartsNumbers(a + b) == None by { PartsNumbersAppend(a, b); }
    assert a + b == parts;
  }

  /** The example of the documentation: `number_range("1,2-3,0") == [1, 2, 3, 0]`. */
  lemma NumberRangeExample()
    ensures NumberRangeOf("1,2-3,0") == Some([1, 2, 3, 0])
  {
    ExampleSplit();
    ExampleParts();
  }

  lemma ExampleSplit()
    ensures Split("1,2-3,0", ',') == ["1", "2-3", "0"]
  {
    assert "1,2-3,0" == "1" + [','] + "2-3,0";
    assert "2-3,0" == "2-3" + [','] + "0";
    SplitAtFirst("1", ',', "2-3,0");
    SplitAtFirst("2-3", ',', "0");
    SplitNoSep("0", ',');
  }

  lemma ExampleParts()
    ensures PartsNumbers(["1", "2-3", "0"]) == Some([1, 2, 3, 0])
  {
    var parts := ["1", "2-3", "0"];
    ExampleRun();
    ExampleSingles();
    assert parts[..0] == [] && parts[0] == "1" && parts[1] == "2-3" && parts[2] == "0";
    assert PartsNumbers(parts[..1]) == Some([1]) by {
      PartsNumbersStep(parts, 0);
      assert [] + [1] == [1];
    }
    assert PartsNumbers(parts[..2]) == Some([1, 2, 3]) by {
      PartsNumbersStep(parts, 1);
      assert [1] + [2, 3] == [1, 2, 3];
    }
    assert PartsNumbers(parts[..3]) == Some([1, 2, 3, 0]) by {
      PartsNumbersStep(parts, 2);
      assert [1, 2, 3] + [0] == [1, 2, 3, 0];
    }
    assert parts[..3] == parts;
  }

  lemma ExampleRun()
    ensures PartNumbers("2-3") == Some([2, 3])
  {
    assert "2-3" == "2" + ['-'] + "3";
    SplitAtFirst("2", '-', "3");
    SplitNoSep("3", '-');
    assert NumeralValue("2") == 2 && NumeralValue("3") == 3;
    assert InclusiveRange(2, 3) == [2, 3];
  }

  lemma ExampleSingles()
    ensures PartNumbers("1") == Some([1]) && PartNumbers("0") == Some([0])
  {
    assert "1"[..0] == [] && NumeralValue("1") == 1;
    assert "0"[..0] == [] && NumeralValue("0") == 0;
  }

  // ---------------------------------------------------------------------
  // cbr_layout_format
  // ---------------------------------------------------------------------

  /** A window rendered as `start-end`, also when start == end. */
  function WindowText(w: Window): string
  {
    NatToString(w.start) + "-" + NatToString(w.end)
  }

  function WindowTexts(ws: seq<Window>): (texts: seq<string>)
    ensures |texts| == |ws|
  {
    seq(|ws|, i requires 0 <= i < |ws| => WindowText(ws[i]))
  }

  /** `- name: w1, w2, ...` and a newline. */
  function LayoutLine(row: SubtaskLayout): string
  {
    "- " + row.name + ": " + Join(WindowTexts(row.windows), ", ") + "\n"
  }

  function LayoutLines(layout: seq<SubtaskLayout>): string
  {
    if layout == [] then "" else LayoutLines(layout[..|layout| - 1]) + LayoutLine(layout[|layout| - 1])
  }

  /** The loop step of `cbr_layout_format`: appending one subtask's line extends the summary by that line. */
  lemma LayoutAppend(layout: seq<SubtaskLayout>, i: nat, before: string)
    requires i < |layout|
    requires before == LayoutHeader + LayoutLines(layout[..i])
    ensures before + LayoutLine(layout[i]) == LayoutHeader + LayoutLines(layout[..i + 1])
  {
    assert layout[..i + 1][..i] == layout[..i];
    Concat3(LayoutHeader, LayoutLines(layout[..i]), LayoutLine(layout[i]));
  }

  const LayoutHeader: string := "Testcase file numbers:\n"

  /** `cbr_layout_format(layout)`: the header and one line per subtask, stripped. */
  function LayoutText(layout: seq<SubtaskLayout>): string
  {
    Strip(LayoutHeader + LayoutLines(layout))
  }

  /**
    Reading a rendered window back as a `number_range` part gives exactly
    the testcase numbers of that window.
   */
  lemma WindowTextRoundTrip(w: Window)
    ensures PartNumbers(WindowText(w)) == Some(InclusiveRange(w.start, w.end))
  {
    var a, b := NatToString(w.start), NatToString(w.end);
    assert '-' !in a && '-' !in b by {
      assert forall i :: 0 <= i < |a| ==> IsDigit(a[i]);
      assert forall i :: 0 <= i < |b| ==> IsDigit(b[i]);
    }
    assert WindowText(w)[|a|] == '-';
    SplitAtFirst(a, '-', b);
    SplitNoSep(b, '-');
    NatToStringRoundTrip(w.start);
    NatToStringRoundTrip(w.end);
  }

  /** A text that ends with a decimal digit. */
  predicate EndsInDigit(s: string)
  {
    s != [] && IsDigit(s[|s| - 1])
  }

  /** A non-empty join ends the way its last piece ends. */
  lemma {:induction false} JoinEndsInDigit(parts: seq<string>, sep: string)
    requires parts != [] && EndsInDigit(parts[|parts| - 1])
    ensures EndsInDigit(Join(parts, sep))
    decreases |parts|
  {
    if |parts| > 1 {
      JoinEndsInDigit(parts[1..], sep);
    }
  }

  /** A text that ends with a non-blank character followed by a newline. */
  predicate EndsInLine(t: string)
  {
    |t| >= 2 && t[|t| - 1] == '\n' && !IsSpace(t[|t| - 2])
  }

  lemma EndsInLineAppend(a: string, b: string)
    requires EndsInLine(b)
    ensures EndsInLine(a + b)
  {
    assert (a + b)[|a + b| - 2] == b[|b| - 2];
  }

  /** A digit followed by a newline ends a line. */
  lemma DigitThenNewline(a: string, b: string)
    requires EndsInDigit(b)
    ensures EndsInLine((a + b) + "\n")
  {
    var t := (a + b) + "\n";
    assert t[|t| - 2] == b[|b| - 1];
  }

  /** Stripping a text whose final newline follows a non-blank character removes just that newline. */
  lemma StripFinalNewline(t: string)
    requires |t| >= 2 && !IsSpace(t[0])
    requires t[|t| - 1] == '\n' && !IsSpace(t[|t| - 2])
    ensures Strip(t) == t[..|t| - 1]
    ensures Strip(t) + "\n" == t
  {
    StripNoLeadingSpace(t);
    assert t[..|t| - 1] + "\n" == t;
  }

  /** What `strip` keeps of a text always includes its first `n` characters when the n-th is not blank. */
  lemma StripKeepsHead(t: string, n: nat)
    requires 0 < n <= |t| && !IsSpace(t[0]) && !IsSpace(t[n - 1])
    ensures t[..n] <= Strip(t)
  {
    StripNoLeadingSpace(t);
    var r := TrimEnd(t);
    assert |r| >= n;
  }

  /** The raw summary ends with a digit and a newline when its last subtask has a window. */
  lemma LayoutRawEnding(layout: seq<SubtaskLayout>)
    requires layout != [] && layout[|layout| - 1].windows != []
    ensures EndsInLine(LayoutHeader + LayoutLines(layout))
  {
    var n := |layout| - 1;
    var line := LayoutLine(layout[n]);
    LayoutLineEnding(layout[n]);
    var prefix := LayoutLines(layout[..n]);
    assert LayoutLines(layout) == prefix + line;
    Concat3(LayoutHeader, prefix, line);
    EndsInLineAppend(LayoutHeader + prefix, line);
  }

  lemma LayoutLineEnding(row: SubtaskLayout)
    requires row.windows != []
    ensures EndsInLine(LayoutLine(row))
  {
    var ws := row.windows;
    var texts := WindowTexts(ws);
    var last := ws[|ws| - 1];
    assert texts[|texts| - 1] == NatToString(last.start) + "-" + NatToString(last.end);
    JoinEndsInDigit(texts, ", ");
    DigitThenNewline("- " + row.name + ": ", Join(texts, ", "));
  }

  /**
    When the problem has no subtask, or its last subtask has a window, the
    summary is the header line followed by one `- name: start-end, ...`
    line per subtask, in order: `strip` only removed the final newline.
   */
  lemma LayoutTextShape(layout: seq<SubtaskLayout>)
    ensures layout == [] || layout[|layout| - 1].windows != [] ==>
      LayoutText(layout) + "\n" == LayoutHeader + LayoutLines(layout)
  {
    var raw := LayoutHeader + LayoutLines(layout);
    if layout == [] {
      assert raw == LayoutHeader;
      StripFinalNewline(raw);
    } else if layout[|layout| - 1].windows != [] {
      LayoutRawEnding(layout);
      assert raw[0] == LayoutHeader[0];
      StripFinalNewline(raw);
    }
  }

  /** The summary always starts with `Testcase file numbers:`. */
  lemma LayoutTextHeader(layout: seq<SubtaskLayout>)
    ensures "Testcase file numbers:" <= LayoutText(layout)
  {
    var raw := LayoutHeader + LayoutLines(layout);
    assert raw[..22] == "Testcase file numbers:" && raw[0] == 'T' && raw[21] == ':';
    StripKeepsHead(raw, 22);
  }

  // ---------------------------------------------------------------------
  // Problem.breakdown_str
  // ---------------------------------------------------------------------

  /** `- case_type: subtask testcase #a-b, testcase files #c-d` and a newline. */
  function DetailLine(d: Detail): string
  {
    LocalPart(d) + GlobalPart(d)
  }

  function LocalPart(d: Detail): string
  {
    "- " + d.caseType + ": subtask testcase #" + NatToString(d.local.start) + "-" + NatToString(d.local.end)
  }

  function GlobalPart(d: Detail): string
  {
    ", testcase files #" + NatToString(d.global.start) + "-" + NatToString(d.global.end) + "\n"
  }

  function DetailLines(ds: seq<Detail>): string
  {
    if ds == [] then "" else DetailLines(ds[..|ds| - 1]) + DetailLine(ds[|ds| - 1])
  }

  lemma DetailLinesStep(ds: seq<Detail>, k: nat)
    requires k < |ds|
    ensures DetailLines(ds[..k + 1]) == DetailLines(ds[..k]) + DetailLine(ds[k])
  {
    assert ds[..k + 1][..k] == ds[..k];
  }

  /** `name (count non-subset testcases):` and a newline. */
  function BlockHeading(name: string, count: nat): string
  {
    name + " (" + NatToString(count) + " non-subset testcases):\n"
  }

  /** One subtask's block: its name and count, then one line per detail row. */
  function BreakdownBlock(v: SubtaskView, ds: seq<Detail>): string
  {
    BlockHeading(v.name, Total(v.factories)) + DetailLines(ds)
  }

  function BreakdownBlocks(vs: seq<SubtaskView>, dss: seq<seq<Detail>>): string
    requires |dss| == |vs|
  {
    if vs == [] then ""
    else BreakdownBlocks(vs[..|vs| - 1], dss[..|vs| - 1]) + BreakdownBlock(vs[|vs| - 1], dss[|vs| - 1])
  }

  lemma BreakdownBlocksStep(vs: seq<SubtaskView>, dss: seq<seq<Detail>>, i: nat)
    requires |dss| == |vs| && i < |vs|
    ensures BreakdownBlocks(vs[..i + 1], dss[..i + 1]) == BreakdownBlocks(vs[..i], dss[..i]) + BreakdownBlock(vs[i], dss[i])
  {
    assert vs[..i + 1][..i] == vs[..i];
    assert dss[..i + 1][..i] == dss[..i];
  }

  /** The loop step of `breakdown_str`: appending one subtask's heading and lines extends the blocks by one. */
  lemma BreakdownAppend(vs: seq<SubtaskView>, dss: seq<seq<Detail>>, i: nat, before: string)
    requires |dss| == |vs| && i < |vs|
    requires before == BreakdownHeader + BreakdownBlocks(vs[..i], dss[..i])
    ensures before + BlockHeading(vs[i].name, Total(vs[i].factories)) + DetailLines(dss[i])
         == BreakdownHeader + BreakdownBlocks(vs[..i + 1], dss[..i + 1])
  {
    Concat3(before, BlockHeading(vs[i].name, Total(vs[i].factories)), DetailLines(dss[i]));
    BreakdownBlocksStep(vs, dss, i);
    Concat3(BreakdownHeader, BreakdownBlocks(vs[..i], dss[..i]), BreakdownBlock(vs[i], dss[i]));
  }

  const BreakdownHeader: string := "Testcase breakdown\n"

  /** `Problem.breakdown_str()` on values. */
  function BreakdownText(vs: seq<SubtaskView>): string
  {
    Strip(BreakdownHeader + BreakdownBlocks(vs, Details(vs)))
  }

  /** The raw breakdown ends with a non-blank character and a newline. */
  lemma BreakdownRawEnding(vs: seq<SubtaskView>)
    ensures var raw := BreakdownHeader + BreakdownBlocks(vs, Details(vs));
      raw[0] == 'T' && EndsInLine(raw)
  {
    var raw := BreakdownHeader + BreakdownBlocks(vs, Details(vs));
    assert raw[0] == 'T';
    if vs == [] {
      assert raw == BreakdownHeader;
    } else {
      var n := |vs| - 1;
      var block := BreakdownBlock(vs[n], Details(vs)[n]);
      BreakdownBlockEnding(vs[n], Details(vs)[n]);
      var prefix := BreakdownBlocks(vs[..n], Details(vs)[..n]);
      assert BreakdownBlocks(vs, Details(vs)) == prefix + block;
      Concat3(BreakdownHeader, prefix, block);
      EndsInLineAppend(BreakdownHeader + prefix, block);
    }
  }

  lemma BreakdownBlockEnding(v: SubtaskView, ds: seq<Detail>)
    ensures EndsInLine(BreakdownBlock(v, ds))
  {
    var heading := BlockHeading(v.name, Total(v.factories));
    if ds == [] {
      assert BreakdownBlock(v, ds) == heading;
      BlockHeadingEnding(v.name, Total(v.factories));
    } else {
      var line := DetailLine(ds[|ds| - 1]);
      DetailLineEnding(ds[|ds| - 1]);
      var prefix := DetailLines(ds[..|ds| - 1]);
      Concat3(heading, prefix, line);
      EndsInLineAppend(heading + prefix, line);
    }
  }

  lemma BlockHeadingEnding(name: string, count: nat)
    ensures var h := BlockHeading(name, count); |h| >= 2 && h[|h| - 1] == '\n' && h[|h| - 2] == ':'
  {
    var h := BlockHeading(name, count);
    assert h == (name + " (" + NatToString(count) + " non-subset testcases)") + ":\n";
  }

  lemma DetailLineEnding(d: Detail)
    ensures EndsInLine(DetailLine(d))
  {
    var digits := NatToString(d.global.end);
    assert EndsInDigit(digits);
    var tail := GlobalPart(d);
    assert tail == (", testcase files #" + NatToString(d.global.start) + "-" + digits) + "\n";
    EndsInLineAppend(LocalPart(d), tail);
  }

  /** Every line of the breakdown ends in a non-blank character, so `strip` only removes the final newline. */
  lemma BreakdownTextShape(vs: seq<SubtaskView>)
    ensures BreakdownText(vs) + "\n" == BreakdownHeader + BreakdownBlocks(vs, Details(vs))
  {
    BreakdownRawEnding(vs);
    StripFinalNewline(BreakdownHeader + BreakdownBlocks(vs, Details(vs)));
  }
}
