/**
 * What `execute` returns for the kinds of input the interpreter's test
 * suite exercises, stated for every name, number and text of the same
 * shape. Each lemma also states what the statement's own handler returned,
 * which `execute` then replaces by its report on the variable map.
 */
module Scenarios {
  import opened Wrappers
  import opened Text
  import opened Numbers
  import opened Patterns
  import opened OrderedMap
  import opened Values
  import opened Semantics

  // ---------------------------------------------------------------------
  // One statement
  // ---------------------------------------------------------------------

  /**
   * A text of one statement runs it and, unless it fails, discards its
   * result in favour of the report on the map it leaves.
   */
  lemma OneStatement(m: Store, line: string)
    requires IsStatement(line) && '\n' !in line
    ensures Execute(m, line) ==
      var o := Step(m, line);
      if o.result.Error? then o else Outcome(o.store, Report(o.store))
  {
    LinesOfStatement(line);
    RunLinesNext(m, [line], 0);
    assert [line][1..] == [];
  }

  /**
   * A statement that binds one name on a fresh interpreter, without failing,
   * makes `execute` report that binding.
   */
  lemma SingleBinding(line: string, k: string, v: Value, res: ExecutionResult)
    requires IsStatement(line) && '\n' !in line
    requires Step([], line) == Outcome([(k, v)], res) && !res.Error?
    ensures Execute([], line) == Outcome([(k, v)], Success(k + " = " + FormatValue(v)))
  {
    OneStatement([], line);
    ReportSingle(k, v);
  }

  /** A name a test would bind: plain text with none of the characters the interpreter reacts to. */
  predicate IsPlainName(name: string) {
    && |name| > 0 && IsTrimmed(name)
    && '=' !in name && '#' !in name && '\n' !in name
    && !StartsWith(name, "uncertain")
  }

  /** Two statements joined by text without a line break or a comment are one statement. */
  lemma JoinedStatement(a: string, mid: string, c: string)
    requires IsStatement(a) && IsStatement(c)
    requires '#' !in mid && '\n' !in mid && '\n' !in a && '\n' !in c
    ensures IsStatement(a + mid + c) && '\n' !in a + mid + c
  {
    var line := a + mid + c;
    assert line[0] == a[0] && line[|line| - 1] == c[|c| - 1];
    assert forall x :: x in line <==> x in a || x in mid || x in c;
  }

  /** `name = rhs` is a statement when the name and the right side are. */
  lemma AssignmentStatement(name: string, rhs: string)
    requires IsPlainName(name) && IsStatement(rhs) && '\n' !in rhs
    ensures IsStatement(name + " = " + rhs) && '\n' !in name + " = " + rhs
  {
    JoinedStatement(name, " = ", rhs);
  }

  /** A run of digits is read as a whole number and shown as written. */
  lemma DigitsAreANumber(digits: string)
    requires |digits| > 0 && AllDigits(digits)
    ensures var lit := Decimal(Unsigned, digits, None, None);
      ParseFloat(digits) == Num(lit) && Render(lit) == digits && FormatValue(Number(lit)) == digits
  {
    var lit := Decimal(Unsigned, digits, None, None);
    assert Render(lit) == digits;
    ParseFloatRender(lit);
  }

  /** A number written as digits is a statement in its own right. */
  lemma DigitsStatement(d: string)
    requires |d| > 0 && AllDigits(d)
    ensures IsStatement(d) && '\n' !in d && '=' !in d
  {
    forall i | 0 <= i < |d| ensures d[i] != '#' && d[i] != '\n' && d[i] != '=' && !IsWhitespace(d[i]) {
      assert IsDigit(d[i]);
    }
  }

  /** `name = rhs` with single spaces around `=` splits into the name and the right side. */
  lemma SpacedAssignment(m: Store, name: string, rhs: string)
    requires IsStatement(name) && '=' !in name
    requires IsTrimmed(rhs) && '=' !in rhs
    ensures var b := Resolve(name, rhs);
      Step(m, name + " = " + rhs) == Outcome(Set(m, b.name, b.value), b.result)
  {
    var lhs, rest := name + " ", " " + rhs;
    var line := name + " = " + rhs;
    assert line == lhs + "=" + rest;
    SplitOnce(lhs, rest);
    assert Trim(lhs) == name by {
      TrimPadded("", name, " ");
      assert "" + name + " " == lhs;
    }
    assert Trim(rest) == rhs by {
      TrimPadded(" ", rhs, "");
      assert " " + rhs + "" == rest;
    }
    AssignParts(m, line, lhs, rest);
    StepIsAssign(m, line);
  }

  /** Text around a single `=` splits into the two sides. */
  lemma SplitOnce(lhs: string, rhs: string)
    requires '=' !in lhs && '=' !in rhs
    ensures Split(lhs + "=" + rhs, '=') == [lhs, rhs]
  {
    SplitAppend(lhs, rhs, '=');
    SplitSeparatorFree(lhs, '=');
    SplitSeparatorFree(rhs, '=');
  }

  /** An assignment split into two sides binds the trimmed right side to the trimmed left side. */
  lemma AssignParts(m: Store, line: string, lhs: string, rhs: string)
    requires Split(line, '=') == [lhs, rhs]
    ensures var b := Resolve(Trim(lhs), Trim(rhs));
      Assign(m, line) == Outcome(Set(m, b.name, b.value), b.result)
  {
    assert TrimAll(Split(line, '=')) == [Trim(lhs), Trim(rhs)];
  }

  /** A line with `=` goes to the assignment handler. */
  lemma StepIsAssign(m: Store, line: string)
    requires '=' in line
    ensures Step(m, line) == Assign(m, line)
  {
  }

  /** The report on a map of one entry shows that entry. */
  lemma ReportSingle(k: string, v: Value)
    ensures Report([(k, v)]) == Success(k + " = " + FormatValue(v))
  {
  }

  /** The first binding of an empty map is its only entry. */
  lemma SetEmpty<V>(k: string, v: V)
    ensures Set([], k, v) == [(k, v)]
  {
  }

  /** A right side read as a number, on a left side that does not ask for an uncertain value. */
  lemma NumberBinding(lhs: string, rhs: string, lit: Literal)
    requires IsTrimmed(rhs) && !StartsWith(lhs, "uncertain")
    requires ParseFloat(rhs) == Num(lit)
    ensures Resolve(lhs, rhs) == Binding(lhs, Number(lit), Success(lhs + " = " + Render(lit)))
  {
  }

  /** A quoted right side that is not a number is bound without its quotes. */
  lemma QuotedBinding(lhs: string, rhs: string)
    requires IsTrimmed(rhs) && !StartsWith(lhs, "uncertain")
    requires IsQuoted(rhs) && ParseFloat(rhs) == NaN
    ensures Resolve(lhs, rhs) == Binding(lhs, Text(Unquote(rhs)), Success(lhs + " = \"" + Unquote(rhs) + "\""))
  {
  }

  // ---------------------------------------------------------------------
  // Assignments on a fresh interpreter
  // ---------------------------------------------------------------------

  /**
   * `x = 42`: a run of digits is bound as a number, and both the handler
   * and `execute` show it as written.
   */
  lemma NumberAssignment(name: string, digits: string)
    requires IsPlainName(name)
    requires |digits| > 0 && AllDigits(digits)
    requires IsCanonicalDecimal(Decimal(Unsigned, digits, None, None))
    ensures var lit := Decimal(Unsigned, digits, None, None);
      var line := name + " = " + digits;
      && Step([], line).result == Success(line)
      && Execute([], line) == Outcome([(name, Number(lit))], Success(line))
  {
    var lit := Decimal(Unsigned, digits, None, None);
    var line := name + " = " + digits;
    NumberStep(name, digits);
    DigitsAreANumber(digits);
    SingleBinding(line, name, Number(lit), Success(line));
  }

  /** The number assignment line on its own: one statement, which binds the name. */
  lemma NumberStep(name: string, digits: string)
    requires IsPlainName(name)
    requires |digits| > 0 && AllDigits(digits)
    ensures var lit := Decimal(Unsigned, digits, None, None);
      var line := name + " = " + digits;
      && IsStatement(line) && '\n' !in line
      && Step([], line) == Outcome([(name, Number(lit))], Success(line))
  {
    var lit := Decimal(Unsigned, digits, None, None);
    NumberResolve(name, digits);
    SpacedAssignment([], name, digits);
    SetEmpty(name, Number(lit));
    AssignmentStatement(name, digits);
  }

  /** Digits on the right of a plain name resolve to a number shown as written. */
  lemma NumberResolve(name: string, digits: string)
    requires IsPlainName(name)
    requires |digits| > 0 && AllDigits(digits)
    ensures IsStatement(digits) && '\n' !in digits && '=' !in digits
    ensures Resolve(name, digits) ==
      Binding(name, Number(Decimal(Unsigned, digits, None, None)), Success(name + " = " + digits))
  {
    var lit := Decimal(Unsigned, digits, None, None);
    DigitsAreANumber(digits);
    DigitsStatement(digits);
    NumberBinding(name, digits, lit);
  }

  /**
   * `name = "Synapse"`: the handler shows the quotes, but the report that
   * `execute` returns shows the stored text, which has none.
   */
  lemma QuotedAssignment(name: string, text: string)
    requires IsPlainName(name)
    requires '=' !in text && '#' !in text && '\n' !in text
    ensures var line := name + " = " + Quoted(text);
      && Step([], line).result == Success(line)
      && Execute([], line) == Outcome([(name, Text(text))], Success(name + " = " + text))
  {
    var rhs := Quoted(text);
    var line := name + " = " + rhs;
    QuotedText(text);
    QuotedStatement(text);
    QuotedBinding(name, rhs);
    SpacedAssignment([], name, rhs);
    SetEmpty(name, Text(text));
    QuotesRestored(name, rhs);
    AssignmentStatement(name, rhs);
    OneStatement([], line);
  }

  /** `"text"` */
  function Quoted(text: string): string {
    "\"" + text + "\""
  }

  /** A quoted text is not a number and unquotes to the text. */
  lemma QuotedText(text: string)
    ensures var rhs := Quoted(text);
      IsQuoted(rhs) && Unquote(rhs) == text && |rhs| != 1 && ParseFloat(rhs) == NaN
  {
    var rhs := Quoted(text);
    assert rhs[0] == '"' && rhs[|rhs| - 1] == '"';
    assert rhs[1..|rhs| - 1] == text;
    QuotedIsNaN(rhs);
  }

  /** A quoted text without line breaks, comments or `=` is a statement on its own. */
  lemma QuotedStatement(text: string)
    requires '=' !in text && '#' !in text && '\n' !in text
    ensures var rhs := Quoted(text);
      IsStatement(rhs) && '\n' !in rhs && '=' !in rhs
  {
    var rhs := Quoted(text);
    assert rhs[0] == '"' && rhs[|rhs| - 1] == '"';
    QuotedChars(text);
  }

  /** The characters of a quoted text are the quote and those of the text. */
  lemma QuotedChars(text: string)
    ensures forall x :: x in Quoted(text) <==> x == '"' || x in text
  {
    var q := "\"";
    assert Quoted(text) == q + text + q;
  }

  /** A decimal as a test would write it: digits with an optional fraction, no sign, no exponent. */
  predicate IsPlainDecimal(lit: Literal) {
    lit.Decimal? && lit.sign == Unsigned && lit.exponent.None? && WellFormed(lit)
  }

  /**
   * A plain decimal that JavaScript's `String(number)` shows exactly as it is
   * written: a whole part without a leading zero (other than a lone `0`), a
   * fraction that is absent or non-empty without a trailing zero, at most
   * fifteen digits in all (so the nearest double converts back to the same
   * digits and stays below 10^21), and, for a whole part of `0`, fewer than
   * six zeros after the point (so it is not below 10^-6, which would be shown
   * in exponent form).
   */
  predicate IsCanonicalDecimal(lit: Literal) {
    && IsPlainDecimal(lit)
    && |lit.whole| > 0 && (lit.whole[0] != '0' || |lit.whole| == 1)
    && (lit.fraction.Some? ==> |lit.fraction.value| > 0 && lit.fraction.value[|lit.fraction.value| - 1] != '0')
    && |lit.whole| + (if lit.fraction.Some? then |lit.fraction.value| else 0) <= 15
    && (lit.whole == "0" && lit.fraction.Some? ==> !StartsWith(lit.fraction.value, "000000"))
  }

  /** Such a decimal is written with numeral characters only, and is read back whole. */
  lemma PlainDecimalText(lit: Literal)
    requires IsPlainDecimal(lit)
    ensures var v := Render(lit);
      && |v| > 0 && AllNumeralChars(v)
      && ParseFloat(v) == Num(lit)
  {
    PlainDecimalChars(lit);
    ParseFloatRender(lit);
    RenderStart(lit);
  }

  lemma PlainDecimalChars(lit: Literal)
    requires IsPlainDecimal(lit)
    ensures AllNumeralChars(Render(lit))
  {
    var v := Render(lit);
    var w := lit.whole;
    assert v == w + RenderFraction(lit.fraction);
    forall k | 0 <= k < |v| ensures IsNumeralChar(v[k]) {
      if k < |w| {
        assert v[k] == w[k];
      } else if k > |w| {
        assert v[k] == lit.fraction.value[k - |w| - 1];
      }
    }
  }

  /** Text made of numeral characters only is a statement that holds no `=`. */
  lemma NumeralStatement(v: string)
    requires |v| > 0 && AllNumeralChars(v)
    ensures IsStatement(v) && '\n' !in v && '=' !in v
  {
    forall i | 0 <= i < |v| ensures v[i] != '#' && v[i] != '\n' && v[i] != '=' && !IsWhitespace(v[i]) {
      assert IsNumeralChar(v[i]);
    }
  }

  /** `v ± u`, the way the test writes an uncertain value. */
  function PlusMinus(v: string, u: string): string {
    v + " ± " + u
  }

  /** Two numerals around ` ± ` are the two groups of the uncertain-value pattern. */
  lemma PlusMinusMatch(v: string, u: string)
    requires |v| > 0 && AllNumeralChars(v) && |u| > 0 && AllNumeralChars(u)
    ensures UncertainMatch(PlusMinus(v, u)) == Some((v, u))
  {
    var s := PlusMinus(v, u);
    var b, d := |v|, |v| + 3;
    assert s[b] == ' ' && s[b + 1] == '±' && s[b + 2] == ' ';
    assert forall k :: 0 <= k < b ==> s[k] == v[k];
    assert forall k :: d <= k < |s| ==> s[k] == u[k - d];
    assert s[0..b] == v && s[d..|s|] == u;
    UncertainMatchStart(s, b, b + 1, d, |s|);
  }

  /** `v ± u` is a statement that holds no `=`. */
  lemma PlusMinusStatement(v: string, u: string)
    requires |v| > 0 && AllNumeralChars(v) && |u| > 0 && AllNumeralChars(u)
    ensures IsStatement(PlusMinus(v, u)) && '\n' !in PlusMinus(v, u) && '=' !in PlusMinus(v, u)
  {
    NumeralStatement(v);
    NumeralStatement(u);
    JoinedStatement(v, " ± ", u);
    assert forall x :: x in PlusMinus(v, u) ==> x in v || x in " ± " || x in u;
  }

  /** `uncertain name`, the left side of an uncertain assignment. */
  function UncertainName(name: string): string {
    "uncertain " + name
  }

  /** Such a left side is a trimmed statement without `=`. */
  lemma UncertainNameStatement(name: string)
    requires IsPlainName(name)
    ensures var lhs := UncertainName(name);
      IsStatement(lhs) && '\n' !in lhs && '=' !in lhs
  {
    var lhs := UncertainName(name);
    assert lhs[0] == 'u' && lhs[|lhs| - 1] == name[|name| - 1];
    assert forall x :: x in lhs ==> x in "uncertain " || x in name;
  }

  /** Such a left side asks for an uncertain value and names `name`. */
  lemma UncertainNameParts(name: string)
    requires IsPlainName(name)
    ensures var lhs := UncertainName(name);
      StartsWith(lhs, "uncertain") && Trim(lhs[|"uncertain"|..]) == name
  {
    UncertainNameRest(name);
    TrimPadded(" ", name, "");
    assert " " + name + "" == " " + name;
  }

  /** After the keyword comes a space and the name. */
  lemma UncertainNameRest(name: string)
    ensures var lhs := UncertainName(name);
      StartsWith(lhs, "uncertain") && lhs[|"uncertain"|..] == " " + name
  {
    var lhs := UncertainName(name);
    assert lhs == "uncertain" + (" " + name);
    assert lhs[..9] == "uncertain";
  }

  /**
   * `uncertain temperature = 298.15 ± 0.5`: the handler's result has the
   * `uncertain` type, but `execute` reports the binding as a plain success.
   */
  lemma UncertainAssignment(name: string, value: Literal, uncertainty: Literal)
    requires IsPlainName(name) && IsPlainDecimal(value) && IsPlainDecimal(uncertainty)
    requires IsCanonicalDecimal(value) && IsCanonicalDecimal(uncertainty)
    ensures var shown := PlusMinus(Render(value), Render(uncertainty));
      var line := UncertainName(name) + " = " + shown;
      && Step([], line).result == UncertainResult(name + " = " + shown)
      && Execute([], line) ==
           Outcome([(name, UncertainValue(Num(value), Num(uncertainty)))], Success(name + " = " + shown))
  {
    var shown := PlusMinus(Render(value), Render(uncertainty));
    var line := UncertainName(name) + " = " + shown;
    var stored := UncertainValue(Num(value), Num(uncertainty));
    UncertainStep(name, value, uncertainty);
    UncertainShown(value, uncertainty);
    SingleBinding(line, name, stored, UncertainResult(name + " = " + shown));
  }

  /** An uncertain value is displayed the way the assignment wrote it. */
  lemma UncertainShown(value: Literal, uncertainty: Literal)
    ensures FormatValue(UncertainValue(Num(value), Num(uncertainty))) == PlusMinus(Render(value), Render(uncertainty))
  {
  }

  /** The uncertain assignment line on its own: one statement, which binds the name. */
  lemma UncertainStep(name: string, value: Literal, uncertainty: Literal)
    requires IsPlainName(name) && IsPlainDecimal(value) && IsPlainDecimal(uncertainty)
    ensures var shown := PlusMinus(Render(value), Render(uncertainty));
      var line := UncertainName(name) + " = " + shown;
      && IsStatement(line) && '\n' !in line
      && Step([], line) ==
           Outcome([(name, UncertainValue(Num(value), Num(uncertainty)))], UncertainResult(name + " = " + shown))
  {
    var v, u := Render(value), Render(uncertainty);
    var rhs := PlusMinus(v, u);
    var lhs := UncertainName(name);
    PlainDecimalText(value);
    PlainDecimalText(uncertainty);
    PlusMinusStatement(v, u);
    UncertainNameStatement(name);
    UncertainResolve(name, value, uncertainty);
    SpacedAssignment([], lhs, rhs);
    SetEmpty(name, UncertainValue(Num(value), Num(uncertainty)));
    JoinedStatement(lhs, " = ", rhs);
  }

  /** The two sides of the uncertain assignment line resolve to the uncertain value. */
  lemma UncertainResolve(name: string, value: Literal, uncertainty: Literal)
    requires IsPlainName(name) && IsPlainDecimal(value) && IsPlainDecimal(uncertainty)
    ensures var shown := PlusMinus(Render(value), Render(uncertainty));
      Resolve(UncertainName(name), shown) ==
        Binding(name, UncertainValue(Num(value), Num(uncertainty)), UncertainResult(name + " = " + shown))
  {
    var v, u := Render(value), Render(uncertainty);
    var rhs := PlusMinus(v, u);
    PlainDecimalText(value);
    PlainDecimalText(uncertainty);
    PlusMinusMatch(v, u);
    PlusMinusStatement(v, u);
    UncertainNameParts(name);
    UncertainBinding(UncertainName(name), rhs, name, v, u);
    PlusMinusShown(name, v, u);
  }

  /** The display of a binding to `v ± u`, grouped either way. */
  lemma PlusMinusShown(name: string, v: string, u: string)
    ensures name + " = " + v + " ± " + u == name + " = " + PlusMinus(v, u)
  {
  }

  /** An uncertain left side and a matching right side bind the two parsed numbers under the name. */
  lemma UncertainBinding(lhs: string, rhs: string, name: string, v: string, u: string)
    requires IsTrimmed(rhs) && StartsWith(lhs, "uncertain") && Trim(lhs[|"uncertain"|..]) == name
    requires UncertainMatch(rhs) == Some((v, u))
    ensures Resolve(lhs, rhs) ==
      Binding(name, UncertainValue(ParseFloat(v), ParseFloat(u)), UncertainResult(name + " = " + v + " ± " + u))
  {
  }

  // ---------------------------------------------------------------------
  // Lines that bind nothing
  // ---------------------------------------------------------------------

  /** A raw line without a line break is one statement, or none if it is blank or a comment. */
  lemma LinesOfLine(code: string)
    requires '\n' !in code
    ensures Lines(code) == if StripComment(code) == [] then [] else [StripComment(code)]
  {
    SplitSeparatorFree(code, '\n');
    assert NormaliseLines([code]) ==
      (if StripComment(code) == [] then [] else [StripComment(code)]) + NormaliseLines([]);
  }

  /**
   * A line that is neither an assignment nor a circuit definition, and does
   * not fail, leaves the map as it was, and `execute` reports on that map:
   * its own result is dropped.
   */
  lemma QuietLine(m: Store, code: string)
    requires '\n' !in code && StripComment(code) != []
    requires Classify(StripComment(code)) !in {Assignment, CircuitDefinition}
    requires !Step(m, StripComment(code)).result.Error?
    ensures Execute(m, code) == Outcome(m, Report(m))
  {
    var t := StripComment(code);
    LinesOfLine(code);
    RunLinesNext(m, [t], 0);
    assert [t][1..] == [];
    assert Step(m, t).store == m;
    assert RunLines(m, Lines(code)) == Completed(m);
  }

  /** `run bell`: the handler returns the fixed counts, but `execute` reports the unchanged map. */
  lemma RunScenario(name: string)
    requires |name| > 0 && AllWordChars(name)
    ensures var line := "run " + name;
      && Step([], line).result ==
           QuantumCircuit(name, Some(2), Some([("00", 512), ("11", 512)]),
                          "Mock quantum results (real simulation requires cloud)")
      && Execute([], line) == Outcome([], Success(CompletedMessage))
  {
    var line := "run " + name;
    RunLineShape(name);
    RunCommandOf(name);
    TrimTrimmed(line);
    QuietLine([], line);
  }

  /** `run name` is a run command and a statement on its own. */
  lemma RunLineShape(name: string)
    requires |name| > 0 && AllWordChars(name)
    ensures var line := "run " + name;
      && IsTrimmed(line) && '#' !in line && '\n' !in line
      && Classify(line) == RunCommand
  {
    var line := "run " + name;
    assert line[0] == 'r' && line[|line| - 1] == name[|name| - 1];
    assert line[..3] == "run";
    assert forall x :: x in line ==> x in "run " || x in name;
    assert IsWordChar(name[|name| - 1]);
  }

  /** The run pattern captures the whole name after `run `. */
  lemma RunCommandOf(name: string)
    requires |name| > 0 && AllWordChars(name)
    ensures RunCommandMatch("run " + name) == Some(name)
  {
    var s := "run " + name;
    assert s[0..] == s;
    RunCommandAtIff(s, 0, name);
    LeftmostAtStart(s, RunCommandAt);
  }

  /** `parallel`: the handler returns the fixed branches, but `execute` reports the unchanged map. */
  lemma ParallelScenario(m: Store, line: string)
    requires IsStatement(line) && '\n' !in line && '=' !in line
    requires StartsWith(line, "parallel")
    ensures Step(m, line).result == ParallelReply()
    ensures Execute(m, line) == Outcome(m, Report(m))
    ensures m == [] ==> Execute(m, line).result == Success(CompletedMessage)
  {
    ParallelLine(line);
    TrimTrimmed(line);
    QuietLine(m, line);
  }

  /** A line that starts with `parallel` and has no `=` is a parallel block. */
  lemma ParallelLine(line: string)
    requires '=' !in line && StartsWith(line, "parallel")
    ensures Classify(line) == ParallelBlock
  {
    assert line[0] == 'p';
  }

  /** A bare `run`, or `run` not followed by a space, matches no circuit name and fails. */
  lemma BareRunFails(m: Store, line: string)
    requires StartsWith(line, "run") && ' ' !in line && '=' !in line
    ensures Step(m, line) == Outcome(m, Error(InvalidRunMessage))
  {
    RunLine(line);
    NoRunCommand(line);
  }

  /** A line that starts with `run` and has no `=` is a run command. */
  lemma RunLine(line: string)
    requires '=' !in line && StartsWith(line, "run")
    ensures Classify(line) == RunCommand
  {
    assert line[0] == 'r';
  }

  /** Without a space there is no `run ` to match. */
  lemma NoRunCommand(line: string)
    requires ' ' !in line
    ensures RunCommandMatch(line).None?
  {
    forall j | 0 <= j <= |line| ensures RunCommandAt(line, j).None? {
      if j + 4 <= |line| {
        assert line[j..][3] == line[j + 3];
      }
    }
    LeftmostNone(line, 0, RunCommandAt);
  }

  /** A pattern that matches nowhere from `from` on finds nothing. */
  lemma {:induction false} LeftmostNone<T>(s: string, from: nat, at: (string, nat) -> Option<T>)
    requires from <= |s|
    requires forall j :: from <= j <= |s| ==> at(s, j).None?
    ensures Leftmost(s, from, at).None?
    decreases |s| - from
  {
    if from < |s| {
      LeftmostNone(s, from + 1, at);
    }
  }

  /** `x == = 42`: a statement with more than one `=` stops the run with an error, map unchanged. */
  lemma InvalidAssignmentScenario(m: Store, code: string)
    requires '\n' !in code
    requires var t := StripComment(code); '=' in t && Count(t, '=') != 1
    ensures Execute(m, code) == Outcome(m, Error(InvalidAssignmentMessage))
  {
    var t := StripComment(code);
    LinesOfLine(code);
    InvalidAssignment(m, t);
    RunLinesNext(m, [t], 0);
  }

  // ---------------------------------------------------------------------
  // Circuits
  // ---------------------------------------------------------------------

  /** `quantum circuit name:` */
  function CircuitHeader(name: string): string {
    "quantum circuit " + name + ":"
  }

  /** The header pattern captures the name of a well-formed header. */
  lemma CircuitHeaderOf(name: string)
    requires |name| > 0 && AllWordChars(name)
    ensures CircuitHeaderMatch(CircuitHeader(name)) == Some(name)
  {
    var s := CircuitHeader(name);
    assert s[0..] == s;
    CircuitHeaderAtIff(s, 0, name);
    LeftmostAtStart(s, CircuitHeaderAt);
  }

  /** A header is a circuit definition and a statement on its own. */
  lemma CircuitHeaderShape(name: string)
    requires |name| > 0 && AllWordChars(name)
    ensures var line := CircuitHeader(name);
      && IsStatement(line) && '\n' !in line
      && Classify(line) == CircuitDefinition
  {
    var line := CircuitHeader(name);
    assert line[0] == 'q' && line[|line| - 1] == ':';
    CircuitHeaderChars(name);
    assert line[..15] == "quantum circuit";
  }

  lemma CircuitHeaderChars(name: string)
    requires AllWordChars(name)
    ensures var line := CircuitHeader(name);
      '#' !in line && '\n' !in line && '=' !in line
  {
    var line := CircuitHeader(name);
    assert forall x :: x in line ==> x in "quantum circuit " || x in name || x == ':';
  }

  /**
   * `quantum circuit bell:` followed by a body line: the handler's result
   * names the circuit, but `execute` reports the binding of `circuit_bell`
   * to the circuit reference, shown as JSON.
   */
  lemma CircuitScenario(name: string, body: string)
    requires |name| > 0 && AllWordChars(name)
    requires '\n' !in body && StripComment(body) != [] && Classify(StripComment(body)) == Echo
    ensures var header := CircuitHeader(name);
      var key := "circuit_" + name;
      && Step([], header).result ==
           QuantumCircuit(name, None, None, "Quantum circuit defined (simulation requires cloud)")
      && Execute([], header + "\n" + body) ==
           Outcome([(key, CircuitRef(name))],
                   Success(key + " = " + "{\"type\":\"quantum_circuit\",\"name\":\"" + name + "\"}"))
  {
    var header := CircuitHeader(name);
    var store := [("circuit_" + name, CircuitRef(name))];
    CircuitHeaderRun(name);
    CircuitReport(name);
    QuietLine(store, body);
    ExecuteInSequence([], header, body);
  }

  /** The report on a map holding only a circuit shows the circuit reference as JSON. */
  lemma CircuitReport(name: string)
    ensures var key := "circuit_" + name;
      Report([(key, CircuitRef(name))]) ==
        Success(key + " = " + "{\"type\":\"quantum_circuit\",\"name\":\"" + name + "\"}")
  {
    var key := "circuit_" + name;
    var open, close := "{\"type\":\"quantum_circuit\",\"name\":\"", "\"}";
    assert FormatValue(CircuitRef(name)) == open + name + close;
    ConcatRegroup(key + " = ", open, name, close);
  }

  lemma ConcatRegroup(a: string, b: string, c: string, d: string)
    ensures a + (b + c + d) == a + b + c + d
  {
  }

  /** The header alone binds `circuit_<name>` in a fresh map. */
  lemma CircuitHeaderRun(name: string)
    requires |name| > 0 && AllWordChars(name)
    ensures var header := CircuitHeader(name);
      var key := "circuit_" + name;
      && Step([], header) ==
           Outcome([(key, CircuitRef(name))],
                   QuantumCircuit(name, None, None, "Quantum circuit defined (simulation requires cloud)"))
      && Execute([], header) == Outcome([(key, CircuitRef(name))], Report([(key, CircuitRef(name))]))
  {
    var header := CircuitHeader(name);
    var key := "circuit_" + name;
    CircuitHeaderOf(name);
    CircuitHeaderShape(name);
    SetEmpty(key, CircuitRef(name));
    OneStatement([], header);
  }

  // ---------------------------------------------------------------------
  // Comments
  // ---------------------------------------------------------------------

  /**
   * A comment line before a statement, and a comment after it, change
   * nothing: the text runs as the bare statement would.
   */
  lemma CommentsIgnored(m: Store, note: string, line: string, pad: string, trailing: string)
    requires IsStatement(line) && AllWhitespace(pad)
    requires '\n' !in note && '\n' !in line && '\n' !in pad && '\n' !in trailing
    ensures Execute(m, "#" + note + "\n" + line + pad + "#" + trailing) == Execute(m, line)
  {
    var first := "#" + note;
    var second := line + pad + "#" + trailing;
    assert first + "\n" + second == "#" + note + "\n" + line + pad + "#" + trailing;
    CommentOnly(note);
    TrailingComment(line, pad, trailing);
    LinesOfLine(second);
    LinesOfStatement(line);
    LinesAppend(first, second);
    assert Lines(first + "\n" + second) == Lines(line);
  }

  /** A line that starts with `#` holds no statement. */
  lemma CommentOnly(note: string)
    requires '\n' !in note
    ensures Lines("#" + note) == []
  {
    var line := "#" + note;
    assert IndexOf(line, '#') == 0;
    assert line[..0] == [];
    assert '\n' !in line;
    LinesOfLine(line);
  }

  /** Whitespace and a comment after a statement are stripped away. */
  lemma TrailingComment(line: string, pad: string, trailing: string)
    requires IsStatement(line) && AllWhitespace(pad) && '\n' !in line + pad + trailing
    ensures var code := line + pad + "#" + trailing;
      StripComment(code) == line && '\n' !in code
  {
    var code := line + pad + "#" + trailing;
    var i := |line| + |pad|;
    assert code[i] == '#';
    assert '#' !in code[..i] by {
      assert code[..i] == line + pad;
      forall k | 0 <= k < |pad| ensures pad[k] != '#' {
        assert IsWhitespace(pad[k]);
      }
    }
    assert IndexOf(code, '#') == i;
    assert code[..i] == "" + line + pad;
    TrimPadded("", line, pad);
    assert forall x :: x in code ==> x in line + pad + trailing || x == '#';
  }

  // ---------------------------------------------------------------------
  // What the report shows can be read back
  // ---------------------------------------------------------------------

  /** A stored number is shown as text that `parseFloat` reads back as the same literal. */
  lemma NumberShownReadsBack(lit: Literal)
    requires WellFormed(lit)
    ensures ParseFloat(FormatValue(Number(lit))) == Num(lit)
  {
    ParseFloatRender(lit);
  }

  /**
   * A stored uncertain value is shown as `value ± uncertainty`, which the
   * uncertain-value pattern splits back into the two numbers as written.
   */
  lemma UncertainShownReadsBack(value: Literal, uncertainty: Literal)
    requires IsPlainDecimal(value) && IsPlainDecimal(uncertainty)
    requires IsCanonicalDecimal(value) && IsCanonicalDecimal(uncertainty)
    ensures var shown := FormatValue(UncertainValue(Num(value), Num(uncertainty)));
      && UncertainMatch(shown) == Some((Render(value), Render(uncertainty)))
      && ParseFloat(Render(value)) == Num(value) && ParseFloat(Render(uncertainty)) == Num(uncertainty)
  {
    PlainDecimalText(value);
    PlainDecimalText(uncertainty);
    UncertainShown(value, uncertainty);
    PlusMinusMatch(Render(value), Render(uncertainty));
  }

  /**
   * `formatValue` against what reads it back: text is shown as itself, a
   * circuit reference as the JSON object with its `type` and `name`, a number
   * as a literal that `parseFloat` reads back as the same number, and an
   * uncertain value as text that the uncertain-value pattern splits back
   * into its two numbers.
   */
  lemma FormatValueReadsBack(v: Value)
    requires v.Number? ==> WellFormed(v.literal)
    requires v.UncertainValue? ==> v.nominal.Num? && v.uncertainty.Num?
    requires v.UncertainValue? ==> IsCanonicalDecimal(v.nominal.literal) && IsCanonicalDecimal(v.uncertainty.literal)
    ensures v.Text? ==> FormatValue(v) == v.text
    ensures v.CircuitRef? ==> FormatValue(v) == "{\"type\":\"quantum_circuit\",\"name\":\"" + v.name + "\"}"
    ensures v.Number? ==> ParseFloat(FormatValue(v)) == Num(v.literal)
    ensures v.UncertainValue? ==>
      var groups := UncertainMatch(FormatValue(v));
      && groups.Some?
      && ParseFloat(groups.value.0) == v.nominal && ParseFloat(groups.value.1) == v.uncertainty
  {
    match v
    case Number(lit) => NumberShownReadsBack(lit);
    case UncertainValue(nominal, uncertainty) => UncertainShownReadsBack(nominal.literal, uncertainty.literal);
    case _ =>
  }
}
