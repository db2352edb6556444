# EZproblem: testcase numbering and the bracket validator, in Dafny

EZproblem is a small Python library for setting competitive-programming
problems. A `Problem` holds an ordered list of `Subtask`s. A subtask holds
factory entries `(number of testcases, factory function, case_type)`, which
are registered with the `testcases` decorator. From these lists the library
does four things:

- it generates every testcase and numbers it, first inside the subtask and
  then across the whole problem;
- it reports the layout: which testcase numbers belong to which subtask,
  and which to which entry;
- it writes two text reports, the codebreaker layout summary and the
  testcase breakdown;
- it reads comma-and-dash number lists (`number_range`).

The repository also ships an example solver, `bracketex/solver.cpp`. It
checks one line of `{}[]()` with a stack and prints `Valid` or `Invalid`.

The model has six modules:

- `Wrappers` holds `Option`, `Result` and the exception `get_layout` raises
  (`NotImplementedError`). The ValueError of `number_range` is an `Option`
  that is `None`.
- `Text` holds the Python string operations the code relies on: `split`
  with one separator, `join`, `strip`, `str(n)`, and `int()` on digits.
- `Layout` is the specification on values. Each subtask is seen as a
  `SubtaskView` (its name, its entries, whether it declares subsets). The
  counts, both layouts, the details and both testcase streams are
  functions of these lists. The lemmas prove that the streams and the
  layouts number every testcase the same way.
- `Report` defines the text formats as functions and proves the shape of
  each output.
- `EZproblem` holds the two classes, whose list fields are updated in place
  (`Subtask.Testcases`, `Problem.NewSubtask`). Every query is a loop with
  running offsets, as in the Python code, and is proved equal to the
  matching function of `Layout` or `Report`.
- `Bracketex` models the solver. Its loop is proved equal to a recursive
  stack pass. That pass is proved to accept exactly the text from which
  matching adjacent pairs can all be deleted.

Where the documentation and the code disagree, the model follows the code:

- The `Subtask` docstring says factories receive indices from 1. The code
  calls `factory(i)` for `i in range(number)`, so the model passes
  0, 1, …, count − 1.
- `cbr_layout_format` writes a window of size 1 as `a-a`. The code's TODO
  notes this; the model keeps the `a-b` form for every window.

## Model

| member | source | states |
|---|---|---|
| EZproblem.NumberRange | EZproblem.py:15-30 | The result is the numbers of the comma-separated parts in order. It is None exactly when some part is malformed. On parts made of ASCII digits and dashes, this is where Python raises ValueError (see Left out). |
| EZproblem.ReadPart | EZproblem.py:22-29 | One part with a dash gives the inclusive run between its two numerals. One part without a dash gives its single numeral. Anything else gives None. |
| Report.InclusiveRange | EZproblem.py:26-27 | `range(left, right + 1)` has right − left + 1 elements, element i is left + i, and it is empty when left > right. |
| Report.PartsNumbersAppend | EZproblem.py:21-29 | Parts are read independently and in order. The numbers of a + b are those of a followed by those of b, and a failure on either side fails the whole list. |
| Report.MalformedPartFails | EZproblem.py:23-29 | One malformed part anywhere in the list makes `number_range` fail. |
| Report.NumberRangeExample | EZproblem.py:16-18 | The documented example: `number_range("1,2-3,0")` is `[1, 2, 3, 0]`. |
| Text.JoinSplit | EZproblem.py:21 | Joining the pieces of `split` with the separator gives back the original text. |
| Text.Split | EZproblem.py:21 | `split` always returns at least one piece, and no piece contains the separator. |
| Text.NatToStringRoundTrip | EZproblem.py:24-25 | `int(str(n)) == n` for every n ≥ 0. |
| Text.IntToStringInjective | EZproblem.py:34 | Distinct integers have distinct decimal texts, and none of these texts contains a space. |
| Text.StripKeepsMiddle | EZproblem.py:123 | `strip` keeps one contiguous piece of its input. It cuts only whitespace on either side, and the kept piece neither starts nor ends with whitespace. |
| EZproblem.CbrNamingInjective | EZproblem.py:32-34 | Two codebreaker names are equal only when both the subtask numbers and the points are equal. |
| EZproblem.Subtask.constructor | EZproblem.py:52-61 | The new subtask has the given name, subsets and factories. |
| EZproblem.Subtask.GenerateEntry | EZproblem.py:63-73 | The entry yields exactly `number` testcases, and testcase i is `factory(i)`. |
| EZproblem.Subtask.GetTestcaseCount | EZproblem.py:75-80 | The count is the sum of the entries' counts. |
| EZproblem.Subtask.GetLayout | EZproblem.py:82-90 | The layout has one `(case_type, start, end)` row per entry, built from the running offset. |
| EZproblem.Subtask.Generate | EZproblem.py:92-98 | The subtask's stream is every entry's testcases in registration order, numbered 1, 2, … by the counter. |
| EZproblem.Subtask.Testcases | EZproblem.py:100-111 | Decorating a factory appends one entry `(number, factory, case_type)`. The name and subsets stay unchanged. |
| Layout.TotalMonotone | EZproblem.py:75-80 | A longer prefix of the entries never has fewer testcases. |
| Layout.LocalLayoutRows | EZproblem.py:82-90 | Row k carries entry k's case type and holds exactly count numbers. A count-0 entry gets the empty range start = end + 1. |
| Layout.LocalLayoutContiguous | EZproblem.py:82-90 | The rows start at 1 and follow one another with no gap or overlap, in registration order. The last row ends at the testcase count. |
| Layout.LocalLayoutDisjoint | EZproblem.py:82-90 | Rows of distinct entries share no testcase number. |
| Layout.LocalLayoutPrefix | EZproblem.py:85-90 | The layout of the first n entries is the first n rows of the layout. |
| Layout.SpanSizesTotal | EZproblem.py:75-90 | The row sizes of the layout add up to the subtask's testcase count. |
| Layout.CasesLength | EZproblem.py:92-98 | A subtask yields exactly as many testcases as `get_testcase_count` reports. |
| Layout.CasesAt | EZproblem.py:92-98 | Testcase i of entry k comes right after the testcases of earlier entries. It has number Total(before) + i + 1 and text `factory(i)`. |
| Layout.CasesNumbered | EZproblem.py:92-98 | Local numbering is gapless: the j-th yielded testcase has number j + 1. |
| Layout.CasesMatchLayout | EZproblem.py:82-98 | The testcase numbered j + 1 comes from the entry whose layout row contains j + 1. It is that factory's output at the position inside the row. |
| Layout.LocalLayoutCovers | EZproblem.py:82-90 | Every local testcase number lies in the row of the entry that produces it. |
| EZproblem.CbrLayoutFormat | EZproblem.py:113-123 | The result is the header plus one `- name: a-b, …` line per subtask, stripped. |
| Report.LayoutAppend | EZproblem.py:117-122 | Appending one subtask's line extends the summary by exactly that subtask's line. |
| Report.WindowTextRoundTrip | EZproblem.py:121 | A window written as `start-end` and read back by `number_range` gives exactly that window's numbers. |
| Report.LayoutTextShape | EZproblem.py:113-123 | If there are no subtasks, or the last one has a window, `strip` removes only the final newline. The summary is then the header line and one line per subtask. |
| Report.LayoutTextHeader | EZproblem.py:116-123 | The summary always starts with `Testcase file numbers:`. |
| EZproblem.Problem.constructor | EZproblem.py:136-142 | The new problem has the given name and subtasks. |
| EZproblem.Problem.NewSubtask | EZproblem.py:144-149 | Builds a fresh subtask from the arguments, appends it to the problem, and returns that same object. The other subtasks are unchanged. |
| EZproblem.Problem.GetTestcaseCount | EZproblem.py:151-156 | The count is the sum of the subtask counts. |
| Layout.ProblemTotalMonotone | EZproblem.py:151-156 | A longer prefix of the subtasks never has fewer testcases. |
| EZproblem.ShiftCases | EZproblem.py:167-168 | Each local testcase is renumbered by adding the running offset, and its text is kept. |
| EZproblem.Problem.Generate | EZproblem.py:159-171 | The problem's stream is each subtask's stream in turn, shifted by the testcases of the subtasks before it. |
| Layout.ProblemCasesLength | EZproblem.py:159-171 | The problem yields exactly `get_testcase_count()` testcases. |
| Layout.ProblemCasesBlock | EZproblem.py:163-169 | Local testcase j + 1 of subtask i becomes global testcase offset + j + 1, with the same text. |
| Layout.ProblemCasesNumbered | EZproblem.py:159-171 | Global numbering is gapless and has no repeats: the g-th yielded testcase has number g + 1. |
| EZproblem.Problem.GetLayout | EZproblem.py:173-190 | The result is NotImplementedError when a subtask declares subsets. Otherwise it is one `(name, [(start, end)])` row per subtask. |
| Layout.ProblemLayoutRows | EZproblem.py:173-190 | The layout fails exactly when some subtask has subsets, and then with NotImplementedError. Otherwise row i is subtask i's name and its single window. |
| Layout.SubtaskWindowsContiguous | EZproblem.py:177-188 | Subtask windows start at 1 and each has as many numbers as its subtask has testcases. They follow one another in order, and the last ends at the problem's count. |
| Layout.SubtaskWindowsDisjoint | EZproblem.py:177-188 | Windows of distinct subtasks share no testcase number. |
| EZproblem.ShiftLayout | EZproblem.py:203-204 | Each layout row is paired with the same row moved by the running offset. |
| EZproblem.Problem.TestcaseDetails | EZproblem.py:192-208 | One pair per subtask, in order: the subtask object itself and its detail rows. |
| Layout.DetailsShape | EZproblem.py:192-208 | A detail row carries its entry's case type and local range. Its global range is the local one moved by the subtask's offset, has the same length, and lies inside the subtask's window. |
| Layout.ProblemCasesMatchDetails | EZproblem.py:159-208 | For every global number, the detail row of the entry that produces it contains that number. The generated text is that entry's factory output at the position inside the range. |
| Layout.DetailsMatchProblemCases | EZproblem.py:159-208 | Conversely, whichever detail row's global range contains a number, the testcase with that number came from that row's entry, at that position. |
| EZproblem.AllocationLines | EZproblem.py:215-219 | Writes one `- case_type: subtask testcase #a-b, testcase files #c-d` line per detail row, in order. |
| EZproblem.Problem.BreakdownStr | EZproblem.py:210-220 | The result is the header plus, per subtask, a `name (count non-subset testcases):` line and its detail lines, stripped. |
| Report.BreakdownAppend | EZproblem.py:212-219 | Appending one subtask's heading and lines extends the breakdown by exactly that subtask's block. |
| Report.BreakdownBlockEnding | EZproblem.py:213-219 | Every block ends with a non-blank character followed by a newline. |
| Report.BreakdownTextShape | EZproblem.py:210-220 | `strip` removes only the final newline of the breakdown. |
| Bracketex.Classification | bracketex/solver.cpp:32-48 | An opener and a closer of the same type form one of the three pairs, and vice versa. Type and state together tell every bracket apart. |
| Bracketex.RunAppend | bracketex/solver.cpp:62-82 | The pass over a + b is the pass over a, then over b from the stack a left. A stopped pass stays stopped. |
| Bracketex.StoppedStays | bracketex/solver.cpp:69-77 | Once a closer finds an empty stack or another type on top, the verdict is Invalid, whatever follows. |
| Bracketex.RunOpeners | bracketex/solver.cpp:66-67 | Openers only push: the stack grows by their types, in order. |
| Bracketex.RunCancel | bracketex/solver.cpp:62-82 | An adjacent matching pair leaves the pass unchanged: the pass gives the same result with or without it. |
| Bracketex.FirstCloserMatches | bracketex/solver.cpp:74-80 | In accepted text, the first closer directly follows an opener of its own type. |
| Bracketex.UnmatchedOpeners | bracketex/solver.cpp:62-82 | While the pass runs, the stack is exactly the types of the unmatched openers, innermost on top. These are the openers left after deleting matching pairs. |
| Bracketex.RunReduce | bracketex/solver.cpp:8-17 | Deleting matching adjacent pairs never changes what the pass computes. |
| Bracketex.AcceptsIffBalanced | bracketex/solver.cpp:8-17 | The pass accepts a text exactly when deleting matching adjacent pairs can delete all of it. |
| Bracketex.Validate | bracketex/solver.cpp:62-88 | Prints exactly one line. It is `Invalid` as soon as a closer finds an empty stack or a top of another type; otherwise it is `Valid` exactly when no opener is left. |

## Left out

- Logging: the `LOGGING` flag, `log` and its calls have no effect on any result.
- Crunch.py: argument parsing, the import of the creator script, running solutions as subprocesses, timing and file writes. It is I/O around `Problem.generate`.
- Factory bodies: factories are arbitrary, possibly random Python functions. The model treats them as opaque functions from a zero-based index to the testcase text.
- Generators: `generate_entry`, `Subtask.generate` and `Problem.generate` are Python generators. The model returns the whole stream as a sequence, so laziness and interleaving with the caller are not modelled.
- Counts: testcase counts are natural numbers. Python would accept a negative count, for which `range` yields nothing but the offsets move backwards.
- Arguments shared with the caller: the constructors copy the caller's sequences, so the model does not capture the aliasing between a list passed to `Subtask(...)` or `Problem(...)` and the object's field.
- Subsets: the layout of subtasks that declare subsets is unimplemented in the source. Only the NotImplementedError of `get_layout` is modelled, and `breakdown_str` ignores subsets as the source does.
- EZproblem.NumberRange: `int()` is modelled on runs of ASCII digits only. Python also accepts surrounding whitespace, a sign, underscores and non-ASCII digits. Such parts give None here, and the text of Python's exception is not modelled.
- EZproblem.Subtask.Testcases: the decorator factory and the inner `add_testcase` are merged into one method that registers the factory directly. The returned closure is not modelled.
- Inner loops: `Problem.generate`, `testcase_details` and `breakdown_str` each have an inner loop. These are separate methods (`ShiftCases`, `ShiftLayout`, `AllocationLines`) that the outer loops call.
- EZproblem.CbrNaming: the function has no contract of its own. Its property is stated by `CbrNamingInjective`.
- Bracketex.Validate: the source has undefined behaviour in two cases. A non-bracket character makes `bracket_type` and `bracket_state` return nothing. A `length` past the end of the string reads out of bounds. Both are excluded by preconditions: every consumed character is a bracket, and `length` is at most the string's size. The first precondition also excludes non-brackets after an early `Invalid`, although the program never reads them: with `length` 2 and `}x`, it prints `Invalid` at the first character. A non-positive `length` consumes nothing and prints `Valid`, as the loop does.
- The solver's `cin`/`cout` setup and its input reading: the length and the string are parameters, and the printed line is the result.
