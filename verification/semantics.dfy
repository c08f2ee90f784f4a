/**
 * The behaviour of the local interpreter as functions of the variable map:
 * how source text becomes statements, how one statement is classified and
 * handled, and how a whole run threads the map through the statements,
 * stops at the first error and reports the last entry of the map.
 */
module Semantics {
  import opened Wrappers
  import opened Text
  import opened Numbers
  import opened Patterns
  import opened OrderedMap
  import opened Values

  /** The variable map, in insertion order. */
  type Store = Entries<Value>

  /** The map after a statement, and the statement's own result. */
  datatype Outcome = Outcome(store: Store, result: ExecutionResult)

  const InvalidAssignmentMessage := "Invalid assignment syntax"
  const InvalidCircuitMessage := "Invalid quantum circuit syntax"
  const InvalidRunMessage := "Invalid run syntax"
  const CompletedMessage := "Execution completed"

  // ---------------------------------------------------------------------
  // From source text to statements
  // ---------------------------------------------------------------------

  /** What is left of a statement line: non-empty, trimmed, without a comment. */
  predicate IsStatement(line: string) {
    |line| > 0 && IsTrimmed(line) && '#' !in line
  }

  /** A raw line whose text before the first `#` is all whitespace. */
  predicate IsBlankOrComment(line: string) {
    var i := IndexOf(line, '#');
    AllWhitespace(if i >= 0 then line[..i] else line)
  }

  predicate AllBlankOrComment(raw: seq<string>) {
    forall i :: 0 <= i < |raw| ==> IsBlankOrComment(raw[i])
  }

  /** One raw line with everything from the first `#` on removed, then trimmed. */
  function StripComment(line: string): (r: string)
    ensures IsTrimmed(r) && '#' !in r
    ensures forall c :: c in r ==> c in line
    ensures r == [] <==> IsBlankOrComment(line)
  {
    var i := IndexOf(line, '#');
    if i >= 0 then
      assert forall c :: c in line[..i] ==> c in line;
      Trim(line[..i])
    else Trim(line)
  }

  /** Strip every raw line and drop the ones that become empty, keeping the order. */
  function NormaliseLines(raw: seq<string>): (lines: seq<string>)
    ensures |lines| <= |raw|
    ensures forall i :: 0 <= i < |lines| ==> IsStatement(lines[i])
  {
    if |raw| == 0 then []
    else
      var t := StripComment(raw[0]);
      (if t == [] then [] else [t]) + NormaliseLines(raw[1..])
  }

  /** The statements of `code`, in source order. */
  function Lines(code: string): (lines: seq<string>)
    ensures forall i :: 0 <= i < |lines| ==> IsStatement(lines[i])
  {
    NormaliseLines(Split(code, '\n'))
  }

  /** Normalisation works line by line: it distributes over concatenation. */
  lemma {:induction false} NormaliseAppend(a: seq<string>, b: seq<string>)
    ensures NormaliseLines(a + b) == NormaliseLines(a) + NormaliseLines(b)
  {
    var ab := a + b;
    if |a| > 0 {
      var t := StripComment(a[0]);
      var head: seq<string> := if t == [] then [] else [t];
      ConsAppend(a, b);
      NormaliseAppend(a[1..], b);
      assert NormaliseLines(ab) == head + (NormaliseLines(a[1..]) + NormaliseLines(b));
      assert NormaliseLines(a) == head + NormaliseLines(a[1..]);
    } else {
      assert ab == b;
    }
  }

  /** The head and the tail of a concatenation whose first part is not empty. */
  lemma ConsAppend<T>(xs: seq<T>, ys: seq<T>)
    requires |xs| > 0
    ensures (xs + ys)[0] == xs[0] && (xs + ys)[1..] == xs[1..] + ys
  {
  }

  /** The statements of two texts joined by a line break are those of the first, then those of the second. */
  lemma LinesAppend(a: string, b: string)
    ensures Lines(a + "\n" + b) == Lines(a) + Lines(b)
  {
    SplitAppend(a, b, '\n');
    NormaliseAppend(Split(a, '\n'), Split(b, '\n'));
  }

  /** A single clean statement is its own normal form. */
  lemma LinesOfStatement(line: string)
    requires IsStatement(line) && '\n' !in line
    ensures Lines(line) == [line]
  {
    SplitSeparatorFree(line, '\n');
    TrimTrimmed(line);
    assert IndexOf(line, '#') == -1;
    assert StripComment(line) == line;
    assert [line][1..] == [];
    assert NormaliseLines([line]) == [line] + NormaliseLines([]);
  }

  /** Input has no statements exactly when every raw line is blank or a comment. */
  lemma {:induction false} NoStatements(code: string)
    ensures Lines(code) == [] <==> AllBlankOrComment(Split(code, '\n'))
  {
    var raw := Split(code, '\n');
    NormaliseEmpty(raw);
    assert Lines(code) == NormaliseLines(raw);
  }

  lemma {:induction false} NormaliseEmpty(raw: seq<string>)
    ensures NormaliseLines(raw) == [] <==> AllBlankOrComment(raw)
  {
    if |raw| > 0 {
      NormaliseEmpty(raw[1..]);
      AllBlankOrCommentCons(raw);
    }
  }

  lemma AllBlankOrCommentCons(raw: seq<string>)
    requires |raw| > 0
    ensures AllBlankOrComment(raw) <==> IsBlankOrComment(raw[0]) && AllBlankOrComment(raw[1..])
  {
    assert forall i :: 1 <= i < |raw| ==> raw[i] == raw[1..][i - 1];
  }

  // ---------------------------------------------------------------------
  // Classifying and handling one statement
  // ---------------------------------------------------------------------

  datatype LineKind = Assignment | CircuitDefinition | ParallelBlock | RunCommand | Echo

  /** The handler a statement goes to; the checks are made in this order. */
  function Classify(line: string): LineKind {
    if '=' in line then Assignment
    else if StartsWith(line, "quantum circuit") then CircuitDefinition
    else if StartsWith(line, "parallel") then ParallelBlock
    else if StartsWith(line, "run") then RunCommand
    else Echo
  }

  /**
   * Which handler `executeLine` runs: a line with `=` is an assignment
   * whatever it starts with; otherwise the circuit keyword is tried before
   * `parallel`, `parallel` before `run`, and anything else is echoed back
   * as a success with the map unchanged.
   */
  lemma ClassifyPriority(m: Store, line: string)
    ensures '=' in line ==> Step(m, line) == Assign(m, line)
    ensures '=' !in line && StartsWith(line, "quantum circuit") ==> Step(m, line) == DefineCircuit(m, line)
    ensures '=' !in line && !StartsWith(line, "quantum circuit") && StartsWith(line, "parallel") ==>
      Step(m, line) == Outcome(m, ParallelReply())
    ensures ('=' !in line && !StartsWith(line, "quantum circuit") && !StartsWith(line, "parallel")
             && StartsWith(line, "run")) ==> Step(m, line) == Outcome(m, HandleRun(line))
    ensures ('=' !in line && !StartsWith(line, "quantum circuit") && !StartsWith(line, "parallel")
             && !StartsWith(line, "run")) ==> Step(m, line) == Outcome(m, Success(line))
  {
    if '=' !in line && !StartsWith(line, "quantum circuit") {
      assert Classify(line) !in {Assignment, CircuitDefinition};
    }
  }

  /** What one assignment binds and what the assignment line returns. */
  datatype Binding = Binding(name: string, value: Value, result: ExecutionResult)

  predicate IsQuoted(s: string) {
    StartsWith(s, "\"") && EndsWith(s, "\"")
  }

  /** `s.slice(1, -1)`: empty when `s` has fewer than two characters. */
  function Unquote(s: string): (r: string)
    ensures |s| >= 2 ==> s == [s[0]] + r + [s[|s| - 1]]
    ensures |s| < 2 ==> r == ""
  {
    if |s| >= 2 then s[1..|s| - 1] else ""
  }

  /**
   * The right-hand side resolved, in this order: an uncertain value (only
   * for a left side starting with `uncertain`, bound under the rest of it),
   * a number, a quoted string, and otherwise the raw text.
   */
  function Resolve(lhs: string, rhs: string): (b: Binding)
    requires IsTrimmed(rhs)
    ensures b.value.UncertainValue? <==> StartsWith(lhs, "uncertain") && UncertainMatch(rhs).Some?
    ensures b.value.UncertainValue? ==>
      var groups := UncertainMatch(rhs).value;
      && b.name == Trim(lhs[|"uncertain"|..])
      && b.value == UncertainValue(ParseFloat(groups.0), ParseFloat(groups.1))
      && b.result == UncertainResult(b.name + " = " + groups.0 + " ± " + groups.1)
    ensures !b.value.UncertainValue? ==> b == ResolvePlain(lhs, rhs)
  {
    var uncertain := if StartsWith(lhs, "uncertain") then UncertainMatch(rhs) else None;
    if uncertain.Some? then
      var groups := uncertain.value;
      var name := Trim(lhs[|"uncertain"|..]);
      Binding(name, UncertainValue(ParseFloat(groups.0), ParseFloat(groups.1)),
              UncertainResult(name + " = " + groups.0 + " ± " + groups.1))
    else ResolvePlain(lhs, rhs)
  }

  /**
   * A right-hand side that is not an uncertain value, bound under the whole
   * left side: a number is shown as the literal read from the start of the
   * text; text is shown back exactly as written, quotes included (except
   * for a lone `"`, whose inside is empty).
   */
  function ResolvePlain(lhs: string, rhs: string): (b: Binding)
    requires IsTrimmed(rhs)
    ensures b.name == lhs && b.result.Success?
    ensures b.value.Number? || b.value.Text?
    ensures b.value.Number? <==> ParseFloat(rhs).Num?
    ensures b.value.Number? ==> b.value.literal == ParseFloat(rhs).literal
    ensures b.value.Text? ==> b.value.text == if IsQuoted(rhs) then Unquote(rhs) else rhs
    ensures b.value.Number? ==> StartsWith(rhs, FormatValue(b.value)) && b.result.value == lhs + " = " + FormatValue(b.value)
    ensures b.value.Text? && IsQuoted(rhs) ==> b.result.value == lhs + " = \"" + FormatValue(b.value) + "\""
    ensures b.value.Text? && !IsQuoted(rhs) ==> b.result.value == lhs + " = " + FormatValue(b.value)
  {
    match ParseFloat(rhs)
    case Num(lit) =>
      assert TrimStart(rhs) == rhs;
      Binding(lhs, Number(lit), Success(lhs + " = " + Render(lit)))
    case NaN =>
      if IsQuoted(rhs) then
        var inner := Unquote(rhs);
        Binding(lhs, Text(inner), Success(lhs + " = \"" + inner + "\""))
      else
        Binding(lhs, Text(rhs), Success(lhs + " = " + rhs))
  }

  /**
   * Text is shown back exactly as it was written, quotes included; only a
   * lone `"` is not, since its inside is taken to be empty.
   */
  lemma TextShownVerbatim(lhs: string, rhs: string)
    requires IsTrimmed(rhs)
    requires ResolvePlain(lhs, rhs).value.Text? && rhs != "\""
    ensures ResolvePlain(lhs, rhs).result == Success(lhs + " = " + rhs)
  {
    if IsQuoted(rhs) {
      QuotesRestored(lhs, rhs);
    }
  }

  /** Putting the quotes back around the inside of a quoted text gives the text. */
  lemma QuotesRestored(lhs: string, rhs: string)
    requires IsQuoted(rhs) && |rhs| != 1
    ensures lhs + " = \"" + Unquote(rhs) + "\"" == lhs + " = " + rhs
  {
    var q := "\"";
    var inner := Unquote(rhs);
    assert rhs == q + inner + q by {
      assert rhs[0] == q[0];
      assert rhs[|rhs| - 1] == q[0];
    }
    assert lhs + " = \"" == lhs + " = " + q;
  }

  /**
   * `handleAssignment`: split at `=`, trim both parts, and bind one name,
   * or fail without touching the map unless there is exactly one `=`.
   */
  function Assign(m: Store, line: string): (o: Outcome)
    ensures o.result.Error? <==> Count(line, '=') != 1
    ensures o.result.Error? ==> o == Outcome(m, Error(InvalidAssignmentMessage))
    ensures o.result.Success? || o.result.UncertainResult? || o.result.Error?
  {
    var parts := TrimAll(Split(line, '='));
    SplitCount(line, '=');
    if |parts| != 2 then Outcome(m, Error(InvalidAssignmentMessage))
    else
      var b := Resolve(parts[0], parts[1]);
      Outcome(Set(m, b.name, b.value), b.result)
  }

  /** `handleQuantumCircuit`: `quantum circuit <name>:` binds `circuit_<name>`. */
  function DefineCircuit(m: Store, line: string): (o: Outcome)
    ensures o.result.Error? <==> CircuitHeaderMatch(line).None?
    ensures o.result.Error? ==> o == Outcome(m, Error(InvalidCircuitMessage))
    ensures !o.result.Error? ==>
      var name := CircuitHeaderMatch(line).value;
      && o.result.QuantumCircuit? && o.result.circuitName == name
      && Get(o.store, "circuit_" + name) == Some(CircuitRef(name))
      && forall k :: k != "circuit_" + name ==> Get(o.store, k) == Get(m, k)
  {
    match CircuitHeaderMatch(line)
    case None => Outcome(m, Error(InvalidCircuitMessage))
    case Some(name) =>
      Outcome(
        Set(m, "circuit_" + name, CircuitRef(name)),
        QuantumCircuit(name, None, None, "Quantum circuit defined (simulation requires cloud)"))
  }

  /** `handleRun`: fixed counts for two qubits, or an error if there is no circuit name. */
  function HandleRun(line: string): (r: ExecutionResult)
    ensures r.Error? <==> RunCommandMatch(line).None?
    ensures r.QuantumCircuit? ==>
      && r.circuitName == RunCommandMatch(line).value
      && r.qubits == Some(2) && r.counts == Some([("00", 512), ("11", 512)])
      && Total(r.counts.value) == 1024
      && forall i :: 0 <= i < |r.counts.value| ==> r.counts.value[i].1 > 0
    ensures r.Error? || r.QuantumCircuit?
  {
    match RunCommandMatch(line)
    case None => Error(InvalidRunMessage)
    case Some(name) =>
      QuantumCircuit(name, Some(2), Some([("00", 512), ("11", 512)]),
                     "Mock quantum results (real simulation requires cloud)")
  }

  /** Sum of the counts of a measurement histogram. */
  function Total(counts: seq<(string, nat)>): nat {
    if |counts| == 0 then 0 else counts[0].1 + Total(counts[1..])
  }

  /** The fixed reply to a `parallel` line. */
  function ParallelReply(): (r: ExecutionResult)
    ensures r.Parallel? && |r.branches| == 2
    ensures r.branches[0] == ("A", "Mock result A") && r.branches[1] == ("B", "Mock result B")
  {
    Parallel("Parallel execution requires cloud computing",
             [("A", "Mock result A"), ("B", "Mock result B")])
  }

  /**
   * `executeLine`: a statement handled by the handler `Classify` picks. Only
   * assignments and circuit definitions change the map, a failing statement
   * leaves it alone, and a statement binds at most one new key, at the end.
   */
  function Step(m: Store, line: string): (o: Outcome)
    ensures o.result.Error? ==> o.store == m
    ensures Classify(line) !in {Assignment, CircuitDefinition} ==> o.store == m
    ensures |m| <= |o.store| <= |m| + 1
    ensures forall i :: 0 <= i < |m| ==> o.store[i].0 == m[i].0
    ensures KeysUnique(m) ==> KeysUnique(o.store)
  {
    match Classify(line)
    case Assignment => Assign(m, line)
    case CircuitDefinition => DefineCircuit(m, line)
    case ParallelBlock => Outcome(m, ParallelReply())
    case RunCommand => Outcome(m, HandleRun(line))
    case Echo => Outcome(m, Success(line))
  }

  /** A line with more or fewer than one `=` fails and leaves the map alone, whatever it starts with. */
  lemma InvalidAssignment(m: Store, line: string)
    requires '=' in line && Count(line, '=') != 1
    ensures Step(m, line) == Outcome(m, Error(InvalidAssignmentMessage))
  {
  }

  /** A successful assignment binds one name and leaves every other name as it was. */
  lemma AssignmentBindsOneName(m: Store, line: string)
    requires '=' in line && Count(line, '=') == 1
    ensures !Step(m, line).result.Error?
    ensures var parts := TrimAll(Split(line, '='));
      && |parts| == 2
      && var b := Resolve(parts[0], parts[1]);
      && Get(Step(m, line).store, b.name) == Some(b.value)
      && forall k :: k != b.name ==> Get(Step(m, line).store, k) == Get(m, k)
  {
    SplitCount(line, '=');
  }

  // ---------------------------------------------------------------------
  // A whole run
  // ---------------------------------------------------------------------

  /** How far a run of statements got: all done, or stopped by an error. */
  datatype Progress = Completed(store: Store) | Halted(store: Store, error: ExecutionResult)

  /** The statements in order, stopping at the first one whose result is an error. */
  function RunLines(m: Store, lines: seq<string>): (p: Progress)
    ensures p.Halted? ==> p.error.Error?
    ensures |m| <= |p.store| <= |m| + |lines|
    ensures forall i :: 0 <= i < |m| ==> p.store[i].0 == m[i].0
    ensures KeysUnique(m) ==> KeysUnique(p.store)
    decreases |lines|
  {
    if |lines| == 0 then Completed(m)
    else
      var o := Step(m, lines[0]);
      if o.result.Error? then Halted(o.store, o.result)
      else RunLines(o.store, lines[1..])
  }

  /** What `execute` returns once every statement succeeded: the last entry of the map, if any. */
  function Report(m: Store): (r: ExecutionResult)
    ensures r.Success?
    ensures |m| == 0 ==> r.value == CompletedMessage
    ensures |m| > 0 ==> StartsWith(r.value, LastKey(m) + " = ")
  {
    if |m| > 0 then
      assert (LastKey(m) + " = " + FormatValue(m[|m| - 1].1))[..|LastKey(m) + " = "|] == LastKey(m) + " = ";
      Success(LastKey(m) + " = " + FormatValue(m[|m| - 1].1))
    else Success(CompletedMessage)
  }

  /** `execute`: the map after the run and the single result of the call. */
  function Execute(m: Store, code: string): (o: Outcome)
    ensures KeysUnique(m) ==> KeysUnique(o.store)
    ensures o.result.Error? || o.result.Success?
  {
    Conclude(RunLines(m, Lines(code)))
  }

  /** The result of a run: the error that stopped it, or the report on the final map. */
  function Conclude(p: Progress): (o: Outcome)
    requires p.Halted? ==> p.error.Error?
    ensures o.store == p.store
    ensures o.result.Error? <==> p.Halted?
    ensures p.Halted? ==> o.result == p.error
  {
    match p
    case Halted(s, e) => Outcome(s, e)
    case Completed(s) => Outcome(s, Report(s))
  }

  /** Running two lists of statements is running the first, then, if it did not fail, the second. */
  lemma {:induction false} RunLinesAppend(m: Store, xs: seq<string>, ys: seq<string>)
    ensures RunLines(m, xs + ys) ==
      match RunLines(m, xs)
      case Halted(_, _) => RunLines(m, xs)
      case Completed(s) => RunLines(s, ys)
    decreases |xs|
  {
    if |xs| > 0 {
      ConsAppend(xs, ys);
      var o := Step(m, xs[0]);
      if !o.result.Error? {
        RunLinesAppend(o.store, xs[1..], ys);
      }
    } else {
      assert xs + ys == ys;
    }
  }

  /** One more statement of a run: the step it takes, then the rest. */
  lemma RunLinesNext(m: Store, lines: seq<string>, i: nat)
    requires i < |lines|
    ensures RunLines(m, lines[i..]) ==
      var o := Step(m, lines[i]);
      if o.result.Error? then Halted(o.store, o.result) else RunLines(o.store, lines[i + 1..])
  {
    assert lines[i..][0] == lines[i] && lines[i..][1..] == lines[i + 1..];
  }

  /** A run whose first statement fails stops there, with the map as it was. */
  lemma FirstFails(m: Store, lines: seq<string>)
    requires |lines| > 0 && Step(m, lines[0]).result.Error?
    ensures RunLines(m, lines) == Halted(m, Step(m, lines[0]).result)
  {
  }

  /**
   * Fail-fast: when the statements before `bad` succeed and `bad` fails,
   * the run returns exactly that error, with the map as those statements
   * left it, and nothing after `bad` is run.
   */
  lemma FailFast(m: Store, before: seq<string>, bad: string, after: seq<string>)
    requires RunLines(m, before).Completed?
    requires Step(RunLines(m, before).store, bad).result.Error?
    ensures RunLines(m, before + [bad] + after) ==
      Halted(RunLines(m, before).store, Step(RunLines(m, before).store, bad).result)
  {
    var rest := [bad] + after;
    var p := RunLines(m, before);
    AppendThree(before, bad, after);
    RunLinesAppend(m, before, rest);
    FirstFails(p.store, rest);
  }

  /** Grouping of a list, an element and a list. */
  lemma AppendThree<T>(xs: seq<T>, x: T, ys: seq<T>)
    ensures xs + [x] + ys == xs + ([x] + ys) && ([x] + ys)[0] == x
  {
  }

  /** Statement `i` is reached and fails with the error the run stops with. */
  predicate IsHaltingLine(m: Store, lines: seq<string>, i: nat)
    requires i < |lines|
  {
    var p := RunLines(m, lines);
    var before := RunLines(m, lines[..i]);
    && p.Halted? && before.Completed?
    && Step(before.store, lines[i]) == Outcome(p.store, p.error)
  }

  /** Conversely, a run that stops was stopped by one statement whose predecessors all succeeded. */
  lemma {:induction false} HaltedByOneLine(m: Store, lines: seq<string>)
    requires RunLines(m, lines).Halted?
    ensures exists i :: 0 <= i < |lines| && IsHaltingLine(m, lines, i)
    decreases |lines|
  {
    assert |lines| > 0;
    var o := Step(m, lines[0]);
    if o.result.Error? {
      HaltingFirst(m, lines);
      assert IsHaltingLine(m, lines, 0);
    } else {
      var rest := lines[1..];
      RunLinesPast(m, lines[0], rest, lines);
      HaltedByOneLine(o.store, rest);
      var i :| 0 <= i < |rest| && IsHaltingLine(o.store, rest, i);
      HaltingLater(m, lines, i);
    }
  }

  lemma HaltingFirst(m: Store, lines: seq<string>)
    requires |lines| > 0 && Step(m, lines[0]).result.Error?
    ensures IsHaltingLine(m, lines, 0)
  {
    assert lines[..0] == [];
  }

  lemma HaltingLater(m: Store, lines: seq<string>, i: nat)
    requires |lines| > 0 && !Step(m, lines[0]).result.Error?
    requires i < |lines| - 1 && IsHaltingLine(Step(m, lines[0]).store, lines[1..], i)
    ensures IsHaltingLine(m, lines, i + 1)
  {
    var first, rest := lines[0], lines[1..];
    var prefix := lines[..i + 1];
    SliceShift(lines, i);
    RunLinesPast(m, first, rest, lines);
    RunLinesPast(m, first, rest[..i], prefix);
    HaltingShift(m, lines, i, Step(m, first).store, rest);
  }

  /** A halting statement carries over to a run with the same progress before it and at the end. */
  lemma HaltingShift(m: Store, lines: seq<string>, i: nat, m': Store, rest: seq<string>)
    requires i + 1 < |lines| && i < |rest| && lines[i + 1] == rest[i]
    requires RunLines(m, lines) == RunLines(m', rest)
    requires RunLines(m, lines[..i + 1]) == RunLines(m', rest[..i])
    requires IsHaltingLine(m', rest, i)
    ensures IsHaltingLine(m, lines, i + 1)
  {
  }

  /** The first `i + 1` elements are the first one and then the first `i` of the rest. */
  lemma SliceShift<T>(xs: seq<T>, i: nat)
    requires i + 1 < |xs|
    ensures xs[..i + 1][0] == xs[0] && xs[..i + 1][1..] == xs[1..][..i] && xs[i + 1] == xs[1..][i]
  {
  }

  /** Past a first statement that succeeds, a run goes on from the map it leaves. */
  lemma RunLinesPast(m: Store, first: string, rest: seq<string>, lines: seq<string>)
    requires |lines| > 0 && lines[0] == first && lines[1..] == rest
    requires !Step(m, first).result.Error?
    ensures RunLines(m, lines) == RunLines(Step(m, first).store, rest)
  {
  }

  /**
   * Blank or comment-only input runs nothing: the map is unchanged, and on
   * an empty map the result is the neutral completion message.
   */
  lemma EmptyInput(m: Store, code: string)
    requires AllBlankOrComment(Split(code, '\n'))
    ensures Execute(m, code) == Outcome(m, Report(m))
    ensures m == [] ==> Execute(m, code).result == Success(CompletedMessage)
  {
    NoStatements(code);
  }

  /**
   * After a successful run the result names the most recently inserted key:
   * the last key added by this run if it added any, and otherwise the
   * last key the map already had. Re-bound keys keep their old position.
   */
  lemma ReportNamesNewestKey(m: Store, code: string)
    requires KeysUnique(m)
    requires !Execute(m, code).result.Error?
    ensures var s := Execute(m, code).store;
      && |s| >= |m|
      && (forall i :: 0 <= i < |m| ==> s[i].0 == m[i].0)
      && (|s| > |m| ==> !HasKey(m, LastKey(s)))
      && (|s| == |m| > 0 ==> LastKey(s) == LastKey(m))
      && Execute(m, code).result == Report(s)
  {
    var p := RunLines(m, Lines(code));
    assert p.Completed?;
    NewestKey(m, p.store);
  }

  /**
   * After a successful run, `execute` returns `<key> = <formatted value>` for
   * the last entry of the map, or `Execution completed` when the map is empty.
   */
  lemma ExecuteReportsLastEntry(m: Store, code: string)
    requires !Execute(m, code).result.Error?
    ensures var s := Execute(m, code).store;
      && (|s| == 0 ==> Execute(m, code).result == Success(CompletedMessage))
      && (|s| > 0 ==> Execute(m, code).result == Success(LastKey(s) + " = " + FormatValue(s[|s| - 1].1)))
  {
    var p := RunLines(m, Lines(code));
    ConcludeReport(Execute(m, code), p);
  }

  lemma ConcludeReport(o: Outcome, p: Progress)
    requires p.Halted? ==> p.error.Error?
    requires o == Conclude(p) && !o.result.Error?
    ensures var s := o.store;
      && (|s| == 0 ==> o.result == Success(CompletedMessage))
      && (|s| > 0 ==> o.result == Success(LastKey(s) + " = " + FormatValue(s[|s| - 1].1)))
  {
  }

  /** A map that extends `m` with unique keys ends with a key of `m` only if it added none. */
  lemma NewestKey(m: Store, s: Store)
    requires KeysUnique(s) && |s| >= |m|
    requires forall i :: 0 <= i < |m| ==> s[i].0 == m[i].0
    ensures |s| > |m| ==> !HasKey(m, LastKey(s))
    ensures |s| == |m| > 0 ==> LastKey(s) == LastKey(m)
  {
  }

  /**
   * The map persists between calls: running `a` and then `b` on the same map
   * ends where running them as one text would, when `a` does not fail.
   */
  lemma ExecuteInSequence(m: Store, a: string, b: string)
    requires !Execute(m, a).result.Error?
    ensures Execute(Execute(m, a).store, b) == Execute(m, a + "\n" + b)
  {
    LinesAppend(a, b);
    RunLinesAppend(m, Lines(a), Lines(b));
  }
}
