/**
 * The three regular expressions of the interpreter, each as JavaScript's
 * `String.prototype.match` runs an unanchored pattern: the match that starts
 * leftmost wins, and at a start position the greedy quantifiers take the
 * longest run that lets the rest of the pattern match.
 *
 *   /([0-9.]+)\s*±\s*([0-9.]+)/   an uncertain value
 *   /quantum circuit (\w+):/       a circuit header
 *   /run (\w+)/                    a run command
 */
module Patterns {
  import opened Wrappers
  import opened Text
  import Numbers

  /** `[0-9.]` */
  predicate IsNumeralChar(c: char) {
    Numbers.IsDigit(c) || c == '.'
  }

  /** `\w` */
  predicate IsWordChar(c: char) {
    ('a' <= c <= 'z') || ('A' <= c <= 'Z') || Numbers.IsDigit(c) || c == '_'
  }

  predicate AllWordChars(s: string) {
    forall i :: 0 <= i < |s| ==> IsWordChar(s[i])
  }

  predicate AllNumeralChars(s: string) {
    forall i :: 0 <= i < |s| ==> IsNumeralChar(s[i])
  }

  /** Length of the longest run of characters satisfying `p` from position `i`. */
  function RunLength(s: string, i: nat, p: char -> bool): (n: nat)
    requires i <= |s|
    ensures i + n <= |s|
    decreases |s| - i
  {
    if i < |s| && p(s[i]) then 1 + RunLength(s, i + 1, p) else 0
  }

  /** The run `RunLength` measures is all `p` and cannot be extended. */
  lemma {:induction false} RunLengthSpan(s: string, i: nat, p: char -> bool)
    requires i <= |s|
    ensures forall k :: i <= k < i + RunLength(s, i, p) ==> p(s[k])
    ensures i + RunLength(s, i, p) == |s| || !p(s[i + RunLength(s, i, p)])
    decreases |s| - i
  {
    if i < |s| && p(s[i]) {
      RunLengthSpan(s, i + 1, p);
    }
  }

  /**
   * The leftmost position from `from` on at which `at` matches, with what it
   * matched there: every earlier position fails, and `None` means that no
   * position matches.
   */
  function Leftmost<T>(s: string, from: nat, at: (string, nat) -> Option<T>): (r: Option<(nat, T)>)
    requires from <= |s|
    ensures r.Some? ==> from <= r.value.0 <= |s| && at(s, r.value.0) == Some(r.value.1)
    ensures r.Some? ==> forall j :: from <= j < r.value.0 ==> at(s, j).None?
    ensures r.None? ==> forall j :: from <= j <= |s| ==> at(s, j).None?
    decreases |s| - from
  {
    match at(s, from)
    case Some(m) => Some((from, m))
    case None => if from == |s| then None else Leftmost(s, from + 1, at)
  }

  /**
   * `([0-9.]+)\s*±\s*([0-9.]+)` tried at position `i`. Neither whitespace nor
   * `±` is in `[0-9.]`, so each greedy run must be taken whole.
   */
  function UncertainAt(s: string, i: nat): (r: Option<(string, string)>)
    ensures r.Some? ==> i < |s| && StartsWith(s[i..], r.value.0)
    ensures r.Some? ==> |r.value.0| > 0 && AllNumeralChars(r.value.0)
    ensures r.Some? ==> |r.value.1| > 0 && AllNumeralChars(r.value.1)
  {
    if i > |s| then None
    else
      var b := i + RunLength(s, i, IsNumeralChar);
      var c := b + RunLength(s, b, IsWhitespace);
      if b == i || c == |s| || s[c] != '±' then None
      else
        match UncertainAfterSign(s, c + 1)
        case None => None
        case Some(u) =>
          RunLengthSpan(s, i, IsNumeralChar);
          assert s[i..][..b - i] == s[i..b];
          Some((s[i..b], u))
  }

  /** `\s*([0-9.]+)` tried at position `j`, just after the `±`. */
  function UncertainAfterSign(s: string, j: nat): (r: Option<string>)
    requires j <= |s|
    ensures r.Some? ==> |r.value| > 0 && AllNumeralChars(r.value)
  {
    var d := j + RunLength(s, j, IsWhitespace);
    var e := d + RunLength(s, d, IsNumeralChar);
    if e == d then None
    else
      RunLengthSpan(s, d, IsNumeralChar);
      Some(s[d..e])
  }

  /**
   * `quantum circuit (\w+):` tried at position `i`, with the circuit name it
   * captures. `:` is not a word character, so the name is the whole run.
   */
  function CircuitHeaderAt(s: string, i: nat): (r: Option<string>)
  {
    var keyword := "quantum circuit ";
    if i > |s| || !StartsWith(s[i..], keyword) then None
    else
      var j := i + |keyword|;
      var n := RunLength(s, j, IsWordChar);
      if n == 0 || j + n == |s| || s[j + n] != ':' then None
      else Some(s[j..j + n])
  }

  /** `run (\w+)` tried at position `i`: the greedy name runs as far as it can. */
  function RunCommandAt(s: string, i: nat): (r: Option<string>)
  {
    var keyword := "run ";
    if i > |s| || !StartsWith(s[i..], keyword) then None
    else
      var j := i + |keyword|;
      var n := RunLength(s, j, IsWordChar);
      if n == 0 then None else Some(s[j..j + n])
  }

  /** `s.match(/([0-9.]+)\s*±\s*([0-9.]+)/)`: the two captured groups, if any. */
  function UncertainMatch(s: string): Option<(string, string)> {
    match Leftmost(s, 0, UncertainAt)
    case None => None
    case Some((_, groups)) => Some(groups)
  }

  /** `s.match(/quantum circuit (\w+):/)`: the captured name, if any. */
  function CircuitHeaderMatch(s: string): Option<string> {
    match Leftmost(s, 0, CircuitHeaderAt)
    case None => None
    case Some((_, name)) => Some(name)
  }

  /** `s.match(/run (\w+)/)`: the captured name, if any. */
  function RunCommandMatch(s: string): Option<string> {
    match Leftmost(s, 0, RunCommandAt)
    case None => None
    case Some((_, name)) => Some(name)
  }

  /**
   * The circuit-header pattern as a declarative condition: the keyword, a
   * non-empty name of word characters, then a colon. The greedy matcher
   * finds exactly this name, and nothing when there is none.
   */
  lemma CircuitHeaderAtIff(s: string, i: nat, name: string)
    requires i <= |s|
    ensures CircuitHeaderAt(s, i) == Some(name) <==>
      && StartsWith(s[i..], "quantum circuit " + name + ":")
      && |name| > 0 && AllWordChars(name)
  {
    var keyword := "quantum circuit ";
    var j := i + |keyword|;
    var pattern := keyword + name + ":";
    if j <= |s| {
      RunLengthSpan(s, j, IsWordChar);
    }
    if StartsWith(s[i..], pattern) && |name| > 0 && AllWordChars(name) {
      assert s[i..][..|keyword|] == pattern[..|keyword|];
      assert forall k :: j <= k < j + |name| ==> s[k] == name[k - j] by {
        forall k | j <= k < j + |name| ensures s[k] == name[k - j] {
          assert s[k] == s[i..][..|pattern|][k - i];
        }
      }
      var n := RunLength(s, j, IsWordChar);
      assert s[j + |name|] == s[i..][..|pattern|][|pattern| - 1];
      assert s[j..j + n] == name;
    }
    if CircuitHeaderAt(s, i) == Some(name) {
      assert s[i..][..|pattern|] == keyword + s[j..j + |name|] + [s[j + |name|]];
    }
  }

  /**
   * The run-command pattern as a declarative condition: `run `, then a
   * non-empty name of word characters that is not followed by another one.
   */
  lemma RunCommandAtIff(s: string, i: nat, name: string)
    requires i <= |s|
    ensures RunCommandAt(s, i) == Some(name) <==>
      && StartsWith(s[i..], "run " + name)
      && |name| > 0 && AllWordChars(name)
      && (i + 4 + |name| == |s| || !IsWordChar(s[i + 4 + |name|]))
  {
    var keyword := "run ";
    var j := i + |keyword|;
    var pattern := keyword + name;
    if j <= |s| {
      RunLengthSpan(s, j, IsWordChar);
    }
    if StartsWith(s[i..], pattern) && |name| > 0 && AllWordChars(name)
      && (j + |name| == |s| || !IsWordChar(s[j + |name|]))
    {
      assert s[i..][..|keyword|] == pattern[..|keyword|];
      assert forall k :: j <= k < j + |name| ==> s[k] == name[k - j] by {
        forall k | j <= k < j + |name| ensures s[k] == name[k - j] {
          assert s[k] == s[i..][..|pattern|][k - i];
        }
      }
      var n := RunLength(s, j, IsWordChar);
      assert s[j..j + n] == name;
    }
    if RunCommandAt(s, i) == Some(name) {
      assert s[i..][..|pattern|] == keyword + s[j..j + |name|];
    }
  }

  /** No character is both part of a numeral and whitespace. */
  lemma NumeralNotWhitespace(c: char)
    ensures !(IsNumeralChar(c) && IsWhitespace(c))
  {
  }

  /** A maximal run is the one `RunLength` measures. */
  lemma {:induction false} RunLengthOf(s: string, i: nat, n: nat, p: char -> bool)
    requires i + n <= |s|
    requires forall k :: i <= k < i + n ==> p(s[k])
    requires i + n == |s| || !p(s[i + n])
    ensures RunLength(s, i, p) == n
    decreases n
  {
    if n > 0 {
      RunLengthOf(s, i + 1, n - 1, p);
    }
  }

  /**
   * The uncertain-value pattern as a declarative condition on a text that
   * starts with it: a numeral up to `b`, whitespace up to `c`, `±` at `c`,
   * whitespace up to `d`, and a numeral from `d` to `e` that is not followed
   * by another numeral character. The match captures the two numerals.
   */
  lemma UncertainMatchStart(s: string, b: nat, c: nat, d: nat, e: nat)
    requires 0 < b <= c < d < e <= |s|
    requires forall k :: 0 <= k < b ==> IsNumeralChar(s[k])
    requires forall k :: b <= k < c ==> IsWhitespace(s[k])
    requires s[c] == '±'
    requires forall k :: c < k < d ==> IsWhitespace(s[k])
    requires forall k :: d <= k < e ==> IsNumeralChar(s[k])
    requires e == |s| || !IsNumeralChar(s[e])
    ensures UncertainMatch(s) == Some((s[0..b], s[d..e]))
  {
    NumeralNotWhitespace(s[b]);
    NumeralNotWhitespace(s[d]);
    RunLengthOf(s, 0, b, IsNumeralChar);
    RunLengthOf(s, b, c - b, IsWhitespace);
    RunLengthOf(s, c + 1, d - c - 1, IsWhitespace);
    RunLengthOf(s, d, e - d, IsNumeralChar);
    UncertainMatchRuns(s, b, c, d, e);
  }

  /** The matcher at `i`, given where its four runs end. */
  lemma UncertainAtRuns(s: string, i: nat, b: nat, c: nat, d: nat, e: nat)
    requires i < b <= c < d < e <= |s| && s[c] == '±'
    requires RunLength(s, i, IsNumeralChar) == b - i && RunLength(s, b, IsWhitespace) == c - b
    requires RunLength(s, c + 1, IsWhitespace) == d - c - 1 && RunLength(s, d, IsNumeralChar) == e - d
    ensures UncertainAt(s, i) == Some((s[i..b], s[d..e]))
  {
    AfterSignRuns(s, c + 1, d, e);
  }

  lemma AfterSignRuns(s: string, j: nat, d: nat, e: nat)
    requires j <= d < e <= |s|
    requires RunLength(s, j, IsWhitespace) == d - j && RunLength(s, d, IsNumeralChar) == e - d
    ensures UncertainAfterSign(s, j) == Some(s[d..e])
  {
  }

  /** The whole match, given where the four runs of a match at the start end. */
  lemma UncertainMatchRuns(s: string, b: nat, c: nat, d: nat, e: nat)
    requires 0 < b <= c < d < e <= |s| && s[c] == '±'
    requires RunLength(s, 0, IsNumeralChar) == b && RunLength(s, b, IsWhitespace) == c - b
    requires RunLength(s, c + 1, IsWhitespace) == d - c - 1 && RunLength(s, d, IsNumeralChar) == e - d
    ensures UncertainMatch(s) == Some((s[0..b], s[d..e]))
  {
    UncertainAtRuns(s, 0, b, c, d, e);
    LeftmostAtStart(s, UncertainAt);
  }

  /** A pattern that matches at the first position is matched there. */
  lemma LeftmostAtStart<T>(s: string, at: (string, nat) -> Option<T>)
    requires at(s, 0).Some?
    ensures Leftmost(s, 0, at) == Some((0, at(s, 0).value))
  {
  }

  /**
   * The uncertain-value pattern at `i` spelled out: a numeral, whitespace,
   * `±`, whitespace, and a numeral that no further numeral character follows.
   */
  predicate UncertainShapeAt(s: string, i: nat, v: string, w1: string, w2: string, u: string) {
    && i <= |s|
    && |v| > 0 && AllNumeralChars(v) && AllWhitespace(w1)
    && AllWhitespace(w2) && |u| > 0 && AllNumeralChars(u)
    && StartsWith(s[i..], v + w1 + "±" + w2 + u)
    && var e := i + |v| + |w1| + 1 + |w2| + |u|;
      e == |s| || !IsNumeralChar(s[e])
  }

  /**
   * `([0-9.]+)\s*±\s*([0-9.]+)` matches at `i`, capturing `v` and `u`,
   * exactly when the text there has that shape.
   */
  lemma UncertainAtIff(s: string, i: nat, v: string, u: string)
    requires i <= |s|
    ensures UncertainAt(s, i) == Some((v, u)) <==> exists w1, w2 :: UncertainShapeAt(s, i, v, w1, w2, u)
  {
    if UncertainAt(s, i) == Some((v, u)) {
      ShapeOfMatch(s, i);
    }
    forall w1, w2 | UncertainShapeAt(s, i, v, w1, w2, u)
      ensures UncertainAt(s, i) == Some((v, u))
    {
      RunsOfShape(s, i, v, w1, w2, u);
    }
  }

  /** What the matcher accepts has the shape of the pattern. */
  lemma ShapeOfMatch(s: string, i: nat)
    requires i <= |s| && UncertainAt(s, i).Some?
    ensures exists w1, w2 :: UncertainShapeAt(s, i, UncertainAt(s, i).value.0, w1, w2, UncertainAt(s, i).value.1)
  {
    var b := i + RunLength(s, i, IsNumeralChar);
    var c := b + RunLength(s, b, IsWhitespace);
    var d := c + 1 + RunLength(s, c + 1, IsWhitespace);
    var e := d + RunLength(s, d, IsNumeralChar);
    assert i < b && c < |s| && s[c] == '±' && UncertainAfterSign(s, c + 1).Some?;
    assert d < e;
    UncertainAtRuns(s, i, b, c, d, e);
    RunsShape(s, i, b, c, d, e);
  }

  lemma RunsShape(s: string, i: nat, b: nat, c: nat, d: nat, e: nat)
    requires i < b <= c < d < e <= |s| && s[c] == '±'
    requires RunLength(s, i, IsNumeralChar) == b - i && RunLength(s, b, IsWhitespace) == c - b
    requires RunLength(s, c + 1, IsWhitespace) == d - c - 1 && RunLength(s, d, IsNumeralChar) == e - d
    ensures UncertainShapeAt(s, i, s[i..b], s[b..c], s[c + 1..d], s[d..e])
  {
    RunLengthSpan(s, i, IsNumeralChar);
    RunLengthSpan(s, b, IsWhitespace);
    RunLengthSpan(s, c + 1, IsWhitespace);
    RunLengthSpan(s, d, IsNumeralChar);
    ShapeOfRuns(s, i, b, c, d, e);
  }

  /** Four maximal runs around a `±` have the shape of the pattern. */
  lemma ShapeOfRuns(s: string, i: nat, b: nat, c: nat, d: nat, e: nat)
    requires i < b <= c < d < e <= |s| && s[c] == '±'
    requires forall k :: i <= k < b ==> IsNumeralChar(s[k])
    requires forall k :: b <= k < c ==> IsWhitespace(s[k])
    requires forall k :: c < k < d ==> IsWhitespace(s[k])
    requires forall k :: d <= k < e ==> IsNumeralChar(s[k])
    requires e == |s| || !IsNumeralChar(s[e])
    ensures UncertainShapeAt(s, i, s[i..b], s[b..c], s[c + 1..d], s[d..e])
  {
    var t := s[i..b] + s[b..c] + "±" + s[c + 1..d] + s[d..e];
    assert t == s[i..e];
    assert s[i..][..|t|] == s[i..e];
  }

  /** Text of the pattern's shape is what the matcher reads. */
  lemma RunsOfShape(s: string, i: nat, v: string, w1: string, w2: string, u: string)
    requires UncertainShapeAt(s, i, v, w1, w2, u)
    ensures UncertainAt(s, i) == Some((v, u))
  {
    var b := i + |v|;
    var c := b + |w1|;
    var d := c + 1 + |w2|;
    var e := d + |u|;
    var t := v + w1 + "±" + w2 + u;
    assert s[i..e] == t by {
      assert s[i..][..|t|] == s[i..e];
    }
    assert s[i..b] == v && s[b..c] == w1 && s[c] == '±' && s[c + 1..d] == w2 && s[d..e] == u by {
      assert t[..|v|] == v;
      assert t[|v|..|v| + |w1|] == w1;
      assert t[|v| + |w1|] == '±';
      assert t[|v| + |w1| + 1..|v| + |w1| + 1 + |w2|] == w2;
      assert t[|t| - |u|..] == u;
    }
    ShapeRuns(s, i, b, c, d, e);
    UncertainAtRuns(s, i, b, c, d, e);
  }

  /** The runs the matcher measures in text of the pattern's shape. */
  lemma ShapeRuns(s: string, i: nat, b: nat, c: nat, d: nat, e: nat)
    requires i < b <= c < d < e <= |s| && s[c] == '±'
    requires AllNumeralChars(s[i..b]) && AllWhitespace(s[b..c])
    requires AllWhitespace(s[c + 1..d]) && AllNumeralChars(s[d..e])
    requires e == |s| || !IsNumeralChar(s[e])
    ensures RunLength(s, i, IsNumeralChar) == b - i && RunLength(s, b, IsWhitespace) == c - b
    ensures RunLength(s, c + 1, IsWhitespace) == d - c - 1 && RunLength(s, d, IsNumeralChar) == e - d
  {
    NumeralSlice(s, i, b);
    WhitespaceSlice(s, b, c);
    WhitespaceSlice(s, c + 1, d);
    NumeralSlice(s, d, e);
    NumeralNotWhitespace(s[b]);
    NumeralNotWhitespace(s[d]);
    RunLengthOf(s, i, b - i, IsNumeralChar);
    RunLengthOf(s, b, c - b, IsWhitespace);
    RunLengthOf(s, c + 1, d - c - 1, IsWhitespace);
    RunLengthOf(s, d, e - d, IsNumeralChar);
  }

  /** `s.match` of the uncertain-value pattern: the groups of the leftmost start at which it matches. */
  lemma UncertainMatchLeftmost(s: string)
    ensures UncertainMatch(s).None? <==> forall i :: 0 <= i <= |s| ==> UncertainAt(s, i).None?
    ensures UncertainMatch(s).Some? ==>
      exists i :: 0 <= i <= |s| && UncertainAt(s, i) == UncertainMatch(s) && (forall j :: 0 <= j < i ==> UncertainAt(s, j).None?)
  {
    var p := Leftmost(s, 0, UncertainAt);
    if p.Some? {
      assert UncertainAt(s, p.value.0) == UncertainMatch(s);
    }
  }

  /** `s.match` of the circuit-header pattern: the name at the leftmost start at which it matches. */
  lemma CircuitHeaderMatchLeftmost(s: string)
    ensures CircuitHeaderMatch(s).None? <==> forall i :: 0 <= i <= |s| ==> CircuitHeaderAt(s, i).None?
    ensures CircuitHeaderMatch(s).Some? ==>
      exists i :: 0 <= i <= |s| && CircuitHeaderAt(s, i) == CircuitHeaderMatch(s) && (forall j :: 0 <= j < i ==> CircuitHeaderAt(s, j).None?)
  {
    var p := Leftmost(s, 0, CircuitHeaderAt);
    if p.Some? {
      assert CircuitHeaderAt(s, p.value.0) == CircuitHeaderMatch(s);
    }
  }

  /** `s.match` of the run-command pattern: the name at the leftmost start at which it matches. */
  lemma RunCommandMatchLeftmost(s: string)
    ensures RunCommandMatch(s).None? <==> forall i :: 0 <= i <= |s| ==> RunCommandAt(s, i).None?
    ensures RunCommandMatch(s).Some? ==>
      exists i :: 0 <= i <= |s| && RunCommandAt(s, i) == RunCommandMatch(s) && (forall j :: 0 <= j < i ==> RunCommandAt(s, j).None?)
  {
    var p := Leftmost(s, 0, RunCommandAt);
    if p.Some? {
      assert RunCommandAt(s, p.value.0) == RunCommandMatch(s);
    }
  }

  lemma NumeralSlice(s: string, lo: nat, hi: nat)
    requires lo <= hi <= |s| && AllNumeralChars(s[lo..hi])
    ensures forall k :: lo <= k < hi ==> IsNumeralChar(s[k])
  {
    forall k | lo <= k < hi ensures IsNumeralChar(s[k]) {
      assert s[k] == s[lo..hi][k - lo];
    }
  }

  lemma WhitespaceSlice(s: string, lo: nat, hi: nat)
    requires lo <= hi <= |s| && AllWhitespace(s[lo..hi])
    ensures forall k :: lo <= k < hi ==> IsWhitespace(s[k])
  {
    forall k | lo <= k < hi ensures IsWhitespace(s[k]) {
      assert s[k] == s[lo..hi][k - lo];
    }
  }
}
