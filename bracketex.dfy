/**
  The example solver of the bracket exercise: it reads a length and a
  string of brackets, runs one left-to-right pass that keeps a stack of
  the types of the openers still waiting for their closers, and prints
  `Valid` or `Invalid`.

  The pass is `Run`, a function of the stack it starts from and the text
  consumed so far; `Validate` is the loop of the program proved against
  it. Independently, `ReducesTo` describes balanced text the way one
  checks it by hand, by deleting adjacent matching pairs, and
  `AcceptsIffBalanced` proves that the pass accepts exactly the text that
  reduces to nothing.
 */
module Bracketex {
  import opened Wrappers

  /** `bracket_t`: the three bracket types, `CURLY`, `SQUARE` and `ROUND`. */
  datatype Kind = Curly | Square | Round

  /** `state_t`: whether a bracket opens or closes. */
  datatype State = Open | Close

  predicate IsBracket(c: char)
  {
    c in "{}[]()"
  }

  predicate AllBrackets(s: string)
  {
    forall i :: 0 <= i < |s| ==> IsBracket(s[i])
  }

  /** `bracket_type`: an opener and its closer share a type. */
  function BracketType(c: char): Kind
    requires IsBracket(c)
  {
    if c == '}' || c == '{' then Curly
    else if c == ']' || c == '[' then Square
    else Round
  }

  /** `bracket_state`. */
  function BracketState(c: char): State
    requires IsBracket(c)
  {
    if c == '}' || c == ')' || c == ']' then Close else Open
  }

  /** The three ways an opener is followed by its own closer. */
  predicate Pair(o: char, c: char)
  {
    || (o == '{' && c == '}')
    || (o == '[' && c == ']')
    || (o == '(' && c == ')')
  }

  /**
    The classification is exact: an opener and a closer of the same type
    are one of the three pairs, and the other way round; and type and
    state together tell every bracket apart.
   */
  lemma Classification(o: char, c: char)
    requires IsBracket(o) && IsBracket(c)
    ensures Pair(o, c) <==> BracketState(o) == Open && BracketState(c) == Close && BracketType(o) == BracketType(c)
    ensures BracketType(o) == BracketType(c) && BracketState(o) == BracketState(c) ==> o == c
  {
  }

  // ---------------------------------------------------------------------
  // The pass
  // ---------------------------------------------------------------------

  /**
    One character of the pass. An opener pushes its type. A closer pops
    the top when the top has its type; on an empty stack or a different
    type the pass stops (`None`), which is where the program prints
    `Invalid` and returns. The top of the stack is the last element.
   */
  function Step(stack: seq<Kind>, c: char): Option<seq<Kind>>
    requires IsBracket(c)
  {
    if BracketState(c) == Open then Some(stack + [BracketType(c)])
    else if stack == [] || stack[|stack| - 1] != BracketType(c) then None
    else Some(stack[..|stack| - 1])
  }

  /** The pass over `s` from `stack`: the final stack, or `None` once it has stopped. */
  function Run(stack: seq<Kind>, s: string): Option<seq<Kind>>
    requires AllBrackets(s)
    decreases |s|
  {
    if s == [] then Some(stack)
    else
      match Run(stack, s[..|s| - 1])
      case None => None
      case Some(st) => Step(st, s[|s| - 1])
  }

  /** The program's verdict on `s`: the pass reaches the end and leaves the stack empty. */
  predicate Accepts(s: string)
    requires AllBrackets(s)
  {
    Run([], s) == Some([])
  }

  /** The line the program prints. */
  function Verdict(valid: bool): string
  {
    if valid then "Valid\n" else "Invalid\n"
  }

  /** The characters the loop consumes: the first `length` ones, none when `length` is not positive. */
  function Consumed(length: int, brackets: string): (s: string)
    requires length <= |brackets|
    ensures s == brackets[..if length <= 0 then 0 else length]
  {
    if length <= 0 then [] else brackets[..length]
  }

  /** Running over `a + b` is running over `a`, then over `b` from where `a` left the stack. */
  lemma {:induction false} RunAppend(stack: seq<Kind>, a: string, b: string)
    requires AllBrackets(a) && AllBrackets(b)
    ensures AllBrackets(a + b)
    ensures Run(stack, a + b) == match Run(stack, a) case None => None case Some(st) => Run(st, b)
    decreases |b|
  {
    var s := a + b;
    assert AllBrackets(s) by {
      forall i | 0 <= i < |s| ensures IsBracket(s[i]) {
        if i >= |a| { assert s[i] == b[i - |a|]; }
      }
    }
    if b == [] {
      assert s == a;
    } else {
      var n := |b| - 1;
      assert s[..|s| - 1] == a + b[..n];
      assert s[|s| - 1] == b[n];
      RunAppend(stack, a, b[..n]);
    }
  }

  /** Reading one more character of `s` is one more step of the pass. */
  lemma RunPrefix(stack: seq<Kind>, s: string, n: nat)
    requires AllBrackets(s) && n < |s|
    ensures AllBrackets(s[..n]) && AllBrackets(s[..n + 1])
    ensures Run(stack, s[..n + 1]) == match Run(stack, s[..n]) case None => None case Some(st) => Step(st, s[n])
  {
    assert s[..n + 1][..n] == s[..n];
  }

  /** Once the pass has stopped it stays stopped: no later character is examined. */
  lemma StoppedStays(stack: seq<Kind>, s: string, i: nat)
    requires AllBrackets(s) && i <= |s|
    requires Run(stack, s[..i]) == None
    ensures Run(stack, s) == None
  {
    RunAppend(stack, s[..i], s[i..]);
    assert s[..i] + s[i..] == s;
  }

  /** The types of a run of brackets, in order. */
  function Types(r: string): (ks: seq<Kind>)
    requires AllBrackets(r)
    ensures |ks| == |r|
  {
    seq(|r|, i requires 0 <= i < |r| => BracketType(r[i]))
  }

  predicate AllOpen(r: string)
    requires AllBrackets(r)
  {
    forall i :: 0 <= i < |r| ==> BracketState(r[i]) == Open
  }

  /** Openers only push: the stack grows by their types, in order. */
  lemma {:induction false} RunOpeners(stack: seq<Kind>, r: string)
    requires AllBrackets(r) && AllOpen(r)
    ensures Run(stack, r) == Some(stack + Types(r))
    decreases |r|
  {
    if r != [] {
      var n := |r| - 1;
      RunOpeners(stack, r[..n]);
      assert Types(r) == Types(r[..n]) + [BracketType(r[n])];
      assert stack + Types(r) == (stack + Types(r[..n])) + [BracketType(r[n])];
    } else {
      assert stack + Types(r) == stack;
    }
  }

  /** An opener followed by its own closer leaves the stack as it was. */
  lemma PairCancels(stack: seq<Kind>, o: char, c: char)
    requires Pair(o, c)
    ensures AllBrackets([o, c]) && Run(stack, [o, c]) == Some(stack)
  {
    assert IsBracket(o) && IsBracket(c);
    Classification(o, c);
    var pushed := stack + [BracketType(o)];
    assert Run(stack, [o]) == Some(pushed) by { assert [o][..0] == []; }
    assert pushed[..|pushed| - 1] == stack;
    assert [o, c][..1] == [o];
  }

  /** A matching pair next to each other cancels: the pass does the same with or without it. */
  lemma RunCancel(stack: seq<Kind>, s: string, i: nat)
    requires AllBrackets(s) && i + 1 < |s| && Pair(s[i], s[i + 1])
    ensures AllBrackets(s[..i] + s[i + 2..])
    ensures Run(stack, s) == Run(stack, s[..i] + s[i + 2..])
  {
    var a, p, b := s[..i], [s[i], s[i + 1]], s[i + 2..];
    assert s == a + (p + b);
    PairCancels(stack, s[i], s[i + 1]);
    RunAppend(stack, a, p + b);
    RunAppend(stack, a, b);
    if Run(stack, a).Some? {
      var st := Run(stack, a).value;
      assert Run(st, p + b) == Run(st, b) by {
        PairCancels(st, s[i], s[i + 1]);
        RunAppend(st, p, b);
      }
    }
  }

  // ---------------------------------------------------------------------
  // Balanced text, by reduction
  // ---------------------------------------------------------------------

  /** `s` becomes `t` by deleting adjacent matching pairs, one pair at a time. */
  ghost predicate ReducesTo(s: string, t: string)
    decreases |s|
  {
    s == t || exists i :: 0 <= i < |s| - 1 && Pair(s[i], s[i + 1]) && ReducesTo(s[..i] + s[i + 2..], t)
  }

  /** Balanced: every bracket can be deleted together with its partner. */
  ghost predicate Balanced(s: string)
  {
    ReducesTo(s, [])
  }

  /** Deleting matching pairs does not change what the pass computes. */
  lemma {:induction false} RunReduce(stack: seq<Kind>, s: string, t: string)
    requires AllBrackets(s) && ReducesTo(s, t)
    ensures AllBrackets(t) && Run(stack, s) == Run(stack, t)
    decreases |s|
  {
    if s != t {
      var i :| 0 <= i < |s| - 1 && Pair(s[i], s[i + 1]) && ReducesTo(s[..i] + s[i + 2..], t);
      RunCancel(stack, s, i);
      RunReduce(stack, s[..i] + s[i + 2..], t);
    }
  }

  /** The length of the leading run of openers. */
  function OpenPrefix(s: string): (n: nat)
    requires AllBrackets(s)
    ensures n <= |s| && AllBrackets(s[..n]) && AllOpen(s[..n])
    ensures n < |s| ==> BracketState(s[n]) == Close
  {
    if s == [] || BracketState(s[0]) == Close then 0
    else
      var n := 1 + OpenPrefix(s[1..]);
      assert forall k :: 1 <= k < n ==> s[k] == s[1..][k - 1];
      n
  }

  /**
    The stack holds the unmatched openers: whenever the pass has not
    stopped, the text read so far reduces, by deleting matching pairs, to
    a run of openers `r`, and the stack is exactly their types, the
    innermost on top.
   */
  lemma {:induction false} UnmatchedOpeners(s: string) returns (r: string)
    requires AllBrackets(s) && Run([], s).Some?
    ensures AllBrackets(r) && AllOpen(r) && ReducesTo(s, r)
    ensures Run([], s) == Some(Types(r))
    decreases |s|
  {
    var j := OpenPrefix(s);
    if j == |s| {
      assert s[..j] == s;
      RunOpeners([], s);
      assert [] + Types(s) == Types(s);
      r := s;
    } else {
      FirstCloserMatches(s, j);
      var s' := s[..j - 1] + s[j + 1..];
      assert AllBrackets(s') && Run([], s') == Run([], s) by {
        RunCancel([], s, j - 1);
        assert s[..j - 1] + s[j - 1 + 2..] == s';
      }
      r := UnmatchedOpeners(s');
      assert ReducesTo(s, r) by {
        assert s[..j - 1] + s[j - 1 + 2..] == s';
      }
    }
  }

  /**
    In text the pass gets through, the first closer comes right after an
    opener of its own type.
   */
  lemma FirstCloserMatches(s: string, j: nat)
    requires AllBrackets(s) && Run([], s).Some?
    requires j < |s| && AllBrackets(s[..j]) && AllOpen(s[..j]) && BracketState(s[j]) == Close
    ensures j > 0 && Pair(s[j - 1], s[j])
  {
    var ks := Types(s[..j]);
    PassGetsPast(s, j);
    assert j > 0 && ks[j - 1] == BracketType(s[j]);
    assert s[..j][j - 1] == s[j - 1];
    Classification(s[j - 1], s[j]);
  }

  /** In text the pass gets through, the step at the end of the leading openers does not stop it. */
  lemma PassGetsPast(s: string, j: nat)
    requires AllBrackets(s) && Run([], s).Some?
    requires j < |s| && AllBrackets(s[..j]) && AllOpen(s[..j])
    ensures Step(Types(s[..j]), s[j]).Some?
  {
    var ks := Types(s[..j]);
    assert Run([], s[..j]) == Some(ks) by {
      RunOpeners([], s[..j]);
      assert [] + ks == ks;
    }
    RunPrefix([], s, j);
    if Run([], s[..j + 1]).None? {
      StoppedStays([], s, j + 1);
    }
  }

  /**
    The pass agrees with the reduction: it accepts a text exactly when
    deleting adjacent matching pairs can delete all of it.
   */
  lemma AcceptsIffBalanced(s: string)
    requires AllBrackets(s)
    ensures Accepts(s) <==> Balanced(s)
  {
    if Balanced(s) {
      RunReduce([], s, []);
    }
    if Accepts(s) {
      var r := UnmatchedOpeners(s);
      assert |Types(r)| == 0;
    }
  }

  // ---------------------------------------------------------------------
  // The program
  // ---------------------------------------------------------------------

  /**
    The body of `main` after the input is read: one pass over the first
    `length` characters that prints `Invalid` and returns as soon as a
    closer finds an empty stack or a top of another type, and otherwise
    prints `Valid` exactly when no opener is left on the stack.
   */
  method Validate(length: int, brackets: string) returns (output: string)
    requires length <= |brackets| && AllBrackets(Consumed(length, brackets))
    ensures output == Verdict(Accepts(Consumed(length, brackets)))
  {
    ghost var s := Consumed(length, brackets);
    var openBrackets: seq<Kind> := [];
    var index := 0;
    while index < length
      invariant 0 <= index <= |s|
      invariant Run([], s[..index]) == Some(openBrackets)
    {
      var bracket := brackets[index];
      var state := BracketState(bracket);
      var kind := BracketType(bracket);
      assert Run([], s[..index + 1]) == Step(openBrackets, bracket) by {
        assert s[..index + 1][..index] == s[..index];
      }
      if state == Open {
        openBrackets := openBrackets + [kind];
      } else {
        if openBrackets == [] {
          StoppedStays([], s, index + 1);
          return "Invalid\n";
        }
        var deepestOpen := openBrackets[|openBrackets| - 1];
        if kind != deepestOpen {
          StoppedStays([], s, index + 1);
          return "Invalid\n";
        } else {
          openBrackets := openBrackets[..|openBrackets| - 1];
        }
      }
      index := index + 1;
    }
    assert s[..index] == s;
    if openBrackets == [] {
      output := "Valid\n";
    } else {
      output := "Invalid\n";
    }
  }
}
