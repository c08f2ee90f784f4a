/**
 * The `LocalInterpreter` object: a variable map that lives as long as the
 * interpreter and that each method updates in place. Every method is proved
 * to do exactly what the matching function of `Semantics` describes, so the
 * properties proved there hold of the object too.
 */
module Interpreter {
  import opened Wrappers
  import opened Text
  import opened Numbers
  import opened Patterns
  import opened OrderedMap
  import opened Values
  import opened Semantics

  class LocalInterpreter {
    /** The variables defined so far, in the order they were first bound. */
    var variables: Store

    /** Each name is bound once, as in a `Map`. */
    ghost predicate Valid()
      reads this
    {
      KeysUnique(variables)
    }

    /** A new interpreter starts with no variables. */
    constructor ()
      ensures variables == [] && Valid()
    {
      variables := [];
    }

    /**
     * `execute`: run the statements of `code` in order, returning the first
     * error as soon as it occurs; once all succeed, report the most recent
     * entry of the map, or that execution completed if the map is empty.
     */
    method Execute(code: string) returns (r: ExecutionResult)
      requires Valid()
      modifies this
      ensures Valid()
      ensures Outcome(variables, r) == Semantics.Execute(old(variables), code)
    {
      var halt := RunStatements(Lines(code));
      if halt.Some? {
        return halt.value;
      }
      if |variables| > 0 {
        var last := variables[|variables| - 1];
        r := Success(last.0 + " = " + FormatValue(last.1));
      } else {
        r := Success(CompletedMessage);
      }
    }

    /**
     * The loop of `execute`: the statements one after another, stopping at
     * the first one whose result is an error, which is handed back.
     */
    method RunStatements(lines: seq<string>) returns (halt: Option<ExecutionResult>)
      requires Valid()
      modifies this
      ensures Valid()
      ensures RunLines(old(variables), lines) ==
        if halt.Some? then Halted(variables, halt.value) else Completed(variables)
    {
      ghost var progress := RunLines(variables, lines);
      var i := 0;
      while i < |lines|
        invariant 0 <= i <= |lines|
        invariant Valid()
        invariant progress == RunLines(variables, lines[i..])
      {
        ghost var before := variables;
        var result := ExecuteLine(lines[i]);
        RunLinesNext(before, lines, i);
        if result.Error? {
          return Some(result);
        }
        i := i + 1;
      }
      halt := None;
    }

    /** `executeLine`: hand the statement to the first handler whose test it passes. */
    method ExecuteLine(line: string) returns (r: ExecutionResult)
      requires Valid()
      modifies this
      ensures Valid()
      ensures Outcome(variables, r) == Step(old(variables), line)
    {
      if '=' in line {
        r := HandleAssignment(line);
      } else if StartsWith(line, "quantum circuit") {
        r := HandleQuantumCircuit(line);
      } else if StartsWith(line, "parallel") {
        r := ParallelReply();
      } else if StartsWith(line, "run") {
        r := HandleRun(line);
      } else {
        r := Success(line);
      }
    }

    /**
     * `handleAssignment`: bind the trimmed left side (or, for an uncertain
     * value, the rest of it after `uncertain`) to the resolved right side.
     */
    method HandleAssignment(line: string) returns (r: ExecutionResult)
      requires Valid()
      modifies this
      ensures Valid()
      ensures Outcome(variables, r) == Assign(old(variables), line)
    {
      var parts := TrimAll(Split(line, '='));
      if |parts| != 2 {
        return Error(InvalidAssignmentMessage);
      }
      var name, expr := parts[0], parts[1];
      ghost var b := Resolve(name, expr);
      assert Assign(old(variables), line) == Outcome(Set(old(variables), b.name, b.value), b.result);
      if StartsWith(name, "uncertain") {
        var actualName := Trim(name[|"uncertain"|..]);
        var groups := UncertainMatch(expr);
        if groups.Some? {
          var value, uncertainty := groups.value.0, groups.value.1;
          variables := Set(variables, actualName, UncertainValue(ParseFloat(value), ParseFloat(uncertainty)));
          return UncertainResult(actualName + " = " + value + " ± " + uncertainty);
        }
      }
      assert b == ResolvePlain(name, expr);
      r := AssignPlain(name, expr);
    }

    /**
     * The rest of `handleAssignment`: a number, else a quoted string without
     * its quotes, else the raw text, bound under the whole left side.
     */
    method AssignPlain(name: string, expr: string) returns (r: ExecutionResult)
      requires Valid() && IsTrimmed(expr)
      modifies this
      ensures Valid()
      ensures var b := ResolvePlain(name, expr);
        Outcome(variables, r) == Outcome(Set(old(variables), b.name, b.value), b.result)
    {
      var number := ParseFloat(expr);
      if number.Num? {
        variables := Set(variables, name, Number(number.literal));
        return Success(name + " = " + Render(number.literal));
      }
      if IsQuoted(expr) {
        var text := Unquote(expr);
        variables := Set(variables, name, Text(text));
        return Success(name + " = \"" + text + "\"");
      }
      variables := Set(variables, name, Text(expr));
      r := Success(name + " = " + expr);
    }

    /** `handleQuantumCircuit`: record the circuit named in the header under `circuit_<name>`. */
    method HandleQuantumCircuit(line: string) returns (r: ExecutionResult)
      requires Valid()
      modifies this
      ensures Valid()
      ensures Outcome(variables, r) == DefineCircuit(old(variables), line)
    {
      var name := CircuitHeaderMatch(line);
      if name.Some? {
        variables := Set(variables, "circuit_" + name.value, CircuitRef(name.value));
        return QuantumCircuit(name.value, None, None, "Quantum circuit defined (simulation requires cloud)");
      }
      r := Error(InvalidCircuitMessage);
    }

    /** `clear`: forget every variable. */
    method Clear()
      modifies this
      ensures variables == [] && Valid()
    {
      variables := [];
    }
  }
}
