/** Target extraction by regular expression (util/regex.go; duplicated in
    api/utils.go). The regular-expression engine itself is a parameter. */
module Regex {
  import opened Wrappers
  import Text

  /** Error text when the leftmost match has no first capture group. */
  const NoMatchError := "Can't match target"

  /** The engine as the code uses it: whether a pattern compiles, and
      `FindSubmatch(pattern, content)` — the leftmost match followed by its
      capture groups, or the empty list when nothing matches. */
  datatype Engine = Engine(compiles: string -> bool, findSubmatch: (string, string) -> seq<string>)

  /** `MatchTargetByRegexPattern`: the first capture group of the leftmost
      match. The compile error is discarded, so a pattern that does not
      compile is excluded by the precondition. */
  function MatchTargetByRegexPattern(content: string, pattern: string, engine: Engine): (r: Result<string>)
    requires engine.compiles(pattern)
    ensures r.Success? <==> |engine.findSubmatch(pattern, content)| >= 2
    ensures r.Success? ==> r.value == engine.findSubmatch(pattern, content)[1]
    ensures r.Failure? ==> r.error == NoMatchError
  {
    var items := engine.findSubmatch(pattern, content);
    if |items| >= 2 then Success(items[1]) else Failure(NoMatchError)
  }

  /** Only the first group of the leftmost match matters: two engines that
      agree on it (later groups, later matches aside) give the same result. */
  lemma OnlyFirstGroupMatters(content: string, pattern: string, e1: Engine, e2: Engine)
    requires e1.compiles(pattern) && e2.compiles(pattern)
    requires var a, b := e1.findSubmatch(pattern, content), e2.findSubmatch(pattern, content);
      (|a| >= 2 <==> |b| >= 2) && (|a| >= 2 ==> a[1] == b[1])
    ensures MatchTargetByRegexPattern(content, pattern, e1) == MatchTargetByRegexPattern(content, pattern, e2)
  {
  }

  // ---- a concrete engine for the pattern `value:(\d+)` ----

  predicate IsDigit(c: char) { '0' <= c <= '9' }

  /** Length of the run of digits starting at `i`. */
  function DigitRun(s: string, i: nat): (n: nat)
    requires i <= |s|
    ensures i + n <= |s|
    ensures forall k :: i <= k < i + n ==> IsDigit(s[k])
    ensures i + n < |s| ==> !IsDigit(s[i + n])
    decreases |s| - i
  {
    if i < |s| && IsDigit(s[i]) then 1 + DigitRun(s, i + 1) else 0
  }

  /** Leftmost `value:` followed by at least one digit, searching from `i`;
      the match is greedy, as `\d+` is. */
  function FindValueFrom(s: string, i: nat): seq<string>
    requires i <= |s|
    decreases |s| - i
  {
    if i + 6 > |s| then []
    else if s[i..i + 6] == "value:" && DigitRun(s, i + 6) > 0 then
      var n := DigitRun(s, i + 6);
      [s[i..i + 6 + n], s[i + 6..i + 6 + n]]
    else FindValueFrom(s, i + 1)
  }

  /** An engine that knows the single pattern `value:(\d+)`. */
  function ValueEngine(): Engine {
    Engine(p => p == "value:(\\d+)",
           (p, s) => if p == "value:(\\d+)" then FindValueFrom(s, 0) else [])
  }

  /** `value:(\d+)` against `value:42` yields `42`; against text with no digits
      after `value:` it is a no-match error. */
  lemma ValuePatternExamples()
    ensures MatchTargetByRegexPattern("value:42", "value:(\\d+)", ValueEngine()) == Success("42")
    ensures MatchTargetByRegexPattern("value:x", "value:(\\d+)", ValueEngine()) == Failure(NoMatchError)
  {
    assert DigitRun("value:42", 8) == 0;
    assert DigitRun("value:42", 7) == 1;
    assert DigitRun("value:42", 6) == 2;
    assert "value:42"[0..6] == "value:";
    assert "value:42"[0..8] == "value:42";
    assert "value:42"[6..8] == "42";
    assert FindValueFrom("value:42", 0) == ["value:42", "42"];
    assert DigitRun("value:x", 6) == 0;
    assert FindValueFrom("value:x", 1) == [];
    assert FindValueFrom("value:x", 0) == [];
  }
}
