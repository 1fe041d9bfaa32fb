/**
 * Exclude-pattern handling of the app scan command: cleaning user-supplied
 * ignore patterns and turning the final pattern list into `--exclude`
 * command-line arguments. Whether the ignore file exists is a parameter.
 */
module AppScan {
  import opened PyStr

  /** Patterns excluded whatever the other ignore configuration says. */
  const AlwaysExcludePatterns: seq<string> := [".semgrep/", ".semgrep_logs/"]

  /** Patterns added to the exclusions when the ignore file exists. */
  const DefaultExcludePatterns: seq<string> := ["test/", "tests/", "*_test.go"]

  const ExcludeFlag: string := "--exclude"

  /** A stripped pattern survives when it is non-empty and not a `#` comment. */
  predicate Keeps(stripped: string)
  {
    stripped != "" && stripped[0] != '#'
  }

  /** A pattern as it leaves the filter: stripped, non-empty, not a comment. */
  predicate IsValidPattern(p: string)
  {
    Strip(p) == p && p != "" && p[0] != '#'
  }

  /** The patterns worth passing on: each stripped, blanks and comments dropped. */
  function ValidPatterns(patterns: seq<string>): (r: seq<string>)
    ensures |r| <= |patterns|
    decreases |patterns|
  {
    if |patterns| == 0 then []
    else
      var rest := ValidPatterns(patterns[..|patterns| - 1]);
      var p := Strip(patterns[|patterns| - 1]);
      if Keeps(p) then rest + [p] else rest
  }

  /** Every yielded pattern is its own strip, non-empty, and not a comment. */
  lemma {:induction false} ValidPatternsAreValid(patterns: seq<string>)
    ensures forall k :: 0 <= k < |ValidPatterns(patterns)| ==> IsValidPattern(ValidPatterns(patterns)[k])
    decreases |patterns|
  {
    if |patterns| > 0 {
      var n := |patterns| - 1;
      ValidPatternsAreValid(patterns[..n]);
      StripIdempotent(patterns[n]);
    }
  }

  /** The filter works element by element, so it preserves input order. */
  lemma {:induction false} ValidPatternsAppend(a: seq<string>, b: seq<string>)
    ensures ValidPatterns(a + b) == ValidPatterns(a) + ValidPatterns(b)
    decreases |b|
  {
    if |b| > 0 {
      var b' := b[..|b| - 1];
      assert (a + b)[..|a + b| - 1] == a + b';
      assert (a + b)[|a + b| - 1] == b[|b| - 1];
      ValidPatternsAppend(a, b');
    } else {
      assert a + b == a;
    }
  }

  /** One input pattern yields its stripped form exactly when that is kept. */
  lemma ValidPatternsSingle(p: string)
    ensures ValidPatterns([p]) == (if Keeps(Strip(p)) then [Strip(p)] else [])
  {
    assert [p][..0] == [];
  }

  /** Input pattern `i` yields `x`. */
  predicate YieldsAt(patterns: seq<string>, i: int, x: string)
  {
    0 <= i < |patterns| && Strip(patterns[i]) == x && Keeps(x)
  }

  /**
   * A string is yielded exactly when it is the stripped, kept form of some
   * input pattern.
   */
  lemma {:induction false} ValidPatternsMembers(patterns: seq<string>, x: string)
    ensures x in ValidPatterns(patterns) <==> exists i :: YieldsAt(patterns, i, x)
    decreases |patterns|
  {
    if |patterns| > 0 {
      var n := |patterns| - 1;
      var init := patterns[..n];
      var p := Strip(patterns[n]);
      ValidPatternsMembers(init, x);
      assert ValidPatterns(patterns) == ValidPatterns(init) + (if Keeps(p) then [p] else []);
      assert forall i :: YieldsAt(init, i, x) ==> YieldsAt(patterns, i, x);
      if x in ValidPatterns(patterns) && x !in ValidPatterns(init) {
        assert YieldsAt(patterns, n, x);
      }
      if !(x in ValidPatterns(patterns)) {
        forall i | 0 <= i < |patterns| ensures !YieldsAt(patterns, i, x) {
          if i < n {
            assert !YieldsAt(init, i, x);
          }
        }
      }
    }
  }

  /** Cleaning already cleaned patterns changes nothing. */
  lemma {:induction false} ValidPatternsIdempotent(patterns: seq<string>)
    ensures ValidPatterns(ValidPatterns(patterns)) == ValidPatterns(patterns)
    decreases |patterns|
  {
    if |patterns| > 0 {
      var init := patterns[..|patterns| - 1];
      var last := patterns[|patterns| - 1];
      var rest := ValidPatterns(init);
      ValidPatternsIdempotent(init);
      var p := Strip(last);
      if Keeps(p) {
        StripIdempotent(last);
        ValidPatternsAppend(rest, [p]);
        ValidPatternsSingle(p);
      }
    }
  }

  /**
   * The pattern list behind the arguments: the user's valid patterns, then
   * the always-excluded ones, then the defaults when the ignore file exists.
   */
  function ExcludePatterns(requested: seq<string>, ignoreFileExists: bool): (r: seq<string>)
    ensures var n := |ValidPatterns(requested)|;
      && |r| == n + |AlwaysExcludePatterns| + (if ignoreFileExists then |DefaultExcludePatterns| else 0)
      && r[..n] == ValidPatterns(requested)
      && r[n..n + |AlwaysExcludePatterns|] == AlwaysExcludePatterns
      && r[n + |AlwaysExcludePatterns|..] == (if ignoreFileExists then DefaultExcludePatterns else [])
  {
    var patterns := ValidPatterns(requested) + AlwaysExcludePatterns;
    if ignoreFileExists then patterns + DefaultExcludePatterns else patterns
  }

  /** `--exclude` followed by each pattern, in order. */
  function Interleave(patterns: seq<string>): (r: seq<string>)
    ensures |r| == 2 * |patterns|
    decreases |patterns|
  {
    if |patterns| == 0 then []
    else [ExcludeFlag, patterns[0]] + Interleave(patterns[1..])
  }

  /** Position `2k` holds the flag and position `2k + 1` the `k`-th pattern. */
  lemma {:induction false} InterleaveShape(patterns: seq<string>)
    ensures var r := Interleave(patterns);
      forall k :: 0 <= k < |patterns| ==> r[2 * k] == ExcludeFlag && r[2 * k + 1] == patterns[k]
    decreases |patterns|
  {
    if |patterns| > 0 {
      var r := Interleave(patterns);
      var tail := patterns[1..];
      InterleaveShape(tail);
      forall k | 1 <= k < |patterns|
        ensures r[2 * k] == ExcludeFlag && r[2 * k + 1] == patterns[k]
      {
        assert r[2 * k] == Interleave(tail)[2 * (k - 1)];
        assert r[2 * k + 1] == Interleave(tail)[2 * (k - 1) + 1];
        assert patterns[k] == tail[k - 1];
      }
    }
  }

  /** The patterns at the odd positions of an argument list. */
  function FlagValues(args: seq<string>): seq<string>
    decreases |args|
  {
    if |args| < 2 then [] else [args[1]] + FlagValues(args[2..])
  }

  /** The command-line arguments that exclude the requested and built-in patterns. */
  function ExcludeArgs(requested: seq<string>, ignoreFileExists: bool): (r: seq<string>)
    ensures var ps := ExcludePatterns(requested, ignoreFileExists);
      && |r| == 2 * |ps|
      && forall k :: 0 <= k < |ps| ==> r[2 * k] == ExcludeFlag && r[2 * k + 1] == ps[k]
  {
    InterleaveShape(ExcludePatterns(requested, ignoreFileExists));
    Interleave(ExcludePatterns(requested, ignoreFileExists))
  }

  /** Reading the values back from the flags recovers the pattern list. */
  lemma {:induction false} FlagValuesInterleave(patterns: seq<string>)
    ensures FlagValues(Interleave(patterns)) == patterns
    decreases |patterns|
  {
    if |patterns| > 0 {
      FlagValuesInterleave(patterns[1..]);
      var r := Interleave(patterns);
      assert r[2..] == Interleave(patterns[1..]);
    }
  }
}
