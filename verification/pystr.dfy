/**
 * The Python `str` methods the modelled code calls: `strip`, `rstrip`,
 * `split`, `join`, `splitlines`, `startswith` and `int(...)` on text.
 * A Python string is a `seq<char>`; no encoding is modelled.
 */
module PyStr {
  import opened PySeq

  /** The characters for which `str.isspace()` holds. */
  const Whitespace: set<char> := {
    ' ', '\t', '\n', '\r', '\U{000B}', '\U{000C}',
    '\U{001C}', '\U{001D}', '\U{001E}', '\U{001F}',
    '\U{0085}', '\U{00A0}', '\U{1680}',
    '\U{2000}', '\U{2001}', '\U{2002}', '\U{2003}', '\U{2004}', '\U{2005}',
    '\U{2006}', '\U{2007}', '\U{2008}', '\U{2009}', '\U{200A}',
    '\U{2028}', '\U{2029}', '\U{202F}', '\U{205F}', '\U{3000}'
  }

  /** The characters `str.splitlines()` treats as line boundaries ("\r\n" counts once). */
  const LineBreaks: set<char> := {
    '\n', '\r', '\U{000B}', '\U{000C}', '\U{001C}', '\U{001D}', '\U{001E}',
    '\U{0085}', '\U{2028}', '\U{2029}'
  }

  // ---------------------------------------------------------------------------
  // strip / rstrip / lstrip
  // ---------------------------------------------------------------------------

  /** `s.rstrip(cs)`: drop trailing characters that belong to `cs`. */
  function RStripChars(s: string, cs: set<char>): (r: string)
    decreases |s|
  {
    if |s| > 0 && s[|s| - 1] in cs then RStripChars(s[..|s| - 1], cs) else s
  }

  /** `s.rstrip(cs)` is a prefix of `s`; what it removed is all `cs`, what it kept does not end in `cs`. */
  lemma {:induction false} RStripCharsSpec(s: string, cs: set<char>)
    ensures var r := RStripChars(s, cs);
      && |r| <= |s| && r == s[..|r|]
      && (|r| > 0 ==> r[|r| - 1] !in cs)
      && (forall k :: |r| <= k < |s| ==> s[k] in cs)
    decreases |s|
  {
    if |s| > 0 && s[|s| - 1] in cs {
      RStripCharsSpec(s[..|s| - 1], cs);
    }
  }

  /** `s.lstrip(cs)`: drop leading characters that belong to `cs`. */
  function LStripChars(s: string, cs: set<char>): (r: string)
    decreases |s|
  {
    if |s| > 0 && s[0] in cs then LStripChars(s[1..], cs) else s
  }

  /** `s.lstrip(cs)` is a suffix of `s`; what it removed is all `cs`, what it kept does not start in `cs`. */
  lemma {:induction false} LStripCharsSpec(s: string, cs: set<char>)
    ensures var r := LStripChars(s, cs);
      && |r| <= |s| && r == s[|s| - |r|..]
      && (|r| > 0 ==> r[0] !in cs)
      && (forall k :: 0 <= k < |s| - |r| ==> s[k] in cs)
    decreases |s|
  {
    if |s| > 0 && s[0] in cs {
      LStripCharsSpec(s[1..], cs);
      var r := LStripChars(s, cs);
      forall k | 0 <= k < |s| - |r| ensures s[k] in cs {
        if k > 0 {
          assert s[k] == s[1..][k - 1];
        }
      }
    }
  }

  /** `s.strip(cs)`. */
  function StripChars(s: string, cs: set<char>): string
  {
    LStripChars(RStripChars(s, cs), cs)
  }

  /** `s.strip()`: whitespace on both ends removed. */
  function Strip(s: string): string
  {
    StripChars(s, Whitespace)
  }

  /** `s.rstrip()`. */
  function RStrip(s: string): string
  {
    RStripChars(s, Whitespace)
  }

  /** Neither end of `s` is a character of `cs`. */
  predicate NoEdge(s: string, cs: set<char>)
  {
    |s| == 0 || (s[0] !in cs && s[|s| - 1] !in cs)
  }

  /**
   * `s.strip(cs)` is the infix `s[i..i + |r|]` left after removing the `cs`
   * characters at both ends, and its own ends are not in `cs`.
   */
  lemma StripCharsShape(s: string, cs: set<char>) returns (i: nat)
    ensures var r := StripChars(s, cs);
      && NoEdge(r, cs)
      && i + |r| <= |s| && r == s[i..i + |r|]
      && (forall k :: 0 <= k < i ==> s[k] in cs)
      && (forall k :: i + |r| <= k < |s| ==> s[k] in cs)
  {
    var t := RStripChars(s, cs);
    var r := LStripChars(t, cs);
    RStripCharsSpec(s, cs);
    LStripCharsSpec(t, cs);
    i := |t| - |r|;
    assert r == s[i..i + |r|];
    if |r| > 0 {
      assert r[|r| - 1] == t[|t| - 1];
    }
  }

  /** A string whose ends are not in `cs` is left alone by `strip(cs)`. */
  lemma StripCharsNoEdge(s: string, cs: set<char>)
    requires NoEdge(s, cs)
    ensures StripChars(s, cs) == s
  {
    if |s| > 0 {
      assert RStripChars(s, cs) == s;
    }
  }

  /** `strip` is idempotent. */
  lemma StripIdempotent(s: string)
    ensures Strip(Strip(s)) == Strip(s)
  {
    var _ := StripCharsShape(s, Whitespace);
    StripCharsNoEdge(Strip(s), Whitespace);
  }

  /** `rstrip` is idempotent. */
  lemma RStripIdempotent(s: string)
    ensures RStrip(RStrip(s)) == RStrip(s)
  {
    RStripCharsSpec(s, Whitespace);
  }

  // ---------------------------------------------------------------------------
  // split / join on one separator character
  // ---------------------------------------------------------------------------

  /** Position of the first `c` in `s`, or `|s|` when there is none. */
  function IndexOf(s: string, c: char): (i: nat)
    ensures i <= |s|
    ensures i < |s| ==> s[i] == c
    ensures forall k :: 0 <= k < i ==> s[k] != c
  {
    if |s| == 0 then 0
    else if s[0] == c then 0
    else 1 + IndexOf(s[1..], c)
  }

  /** `s.split(c)`: always at least one piece, and no piece contains `c`. */
  function Split(s: string, c: char): (r: seq<string>)
    ensures |r| >= 1
    ensures forall k :: 0 <= k < |r| ==> c !in r[k]
    decreases |s|
  {
    var i := IndexOf(s, c);
    if i == |s| then [s] else [s[..i]] + Split(s[i + 1..], c)
  }

  /** `c.join(parts)`. */
  function Join(parts: seq<string>, c: char): string
  {
    if |parts| == 0 then ""
    else if |parts| == 1 then parts[0]
    else parts[0] + [c] + Join(parts[1..], c)
  }

  /** Splitting at the first separator. */
  lemma SplitAtSeparator(a: string, b: string, c: char)
    requires c !in a
    ensures Split(a + [c] + b, c) == [a] + Split(b, c)
  {
    var s := a + [c] + b;
    assert s[..|a|] == a;
    assert s[|a| + 1..] == b;
    assert IndexOf(s, c) == |a| by {
      assert s[|a|] == c;
      assert forall k :: 0 <= k < |a| ==> s[k] == a[k];
    }
  }

  /** A string without the separator is one piece. */
  lemma SplitNoSeparator(a: string, c: char)
    requires c !in a
    ensures Split(a, c) == [a]
  {
    assert forall k :: 0 <= k < |a| ==> a[k] != c;
  }

  /** Joining a first piece onto a non-empty list of pieces puts one separator between them. */
  lemma JoinPrepend(a: string, rest: seq<string>, c: char)
    requires |rest| >= 1
    ensures Join([a] + rest, c) == a + [c] + Join(rest, c)
  {
    assert ([a] + rest)[1..] == rest;
  }

  /** Joining the pieces of a split gives the string back. */
  lemma {:induction false} JoinSplit(s: string, c: char)
    ensures Join(Split(s, c), c) == s
    decreases |s|
  {
    var i := IndexOf(s, c);
    if i < |s| {
      var rest := s[i + 1..];
      var p := Split(rest, c);
      assert Split(s, c) == [s[..i]] + p;
      JoinSplit(rest, c);
      JoinPrepend(s[..i], p, c);
      Reassemble(s, i);
    }
  }

  /** A string is the part before position `i`, the character there, and the part after. */
  lemma Reassemble(s: string, i: nat)
    requires i < |s|
    ensures s[..i] + [s[i]] + s[i + 1..] == s
  {
  }

  /** Splitting a join of separator-free pieces gives the pieces back. */
  lemma {:induction false} SplitJoin(parts: seq<string>, c: char)
    requires |parts| >= 1
    requires forall k :: 0 <= k < |parts| ==> c !in parts[k]
    ensures Split(Join(parts, c), c) == parts
    decreases |parts|
  {
    if |parts| == 1 {
      SplitNoSeparator(parts[0], c);
    } else {
      SplitJoin(parts[1..], c);
      SplitAtSeparator(parts[0], Join(parts[1..], c), c);
      assert parts == [parts[0]] + parts[1..];
    }
  }

  /** Join distributes over concatenation of non-empty piece lists. */
  lemma {:induction false} JoinAppend(a: seq<string>, b: seq<string>, c: char)
    requires |a| >= 1 && |b| >= 1
    ensures Join(a + b, c) == Join(a, c) + [c] + Join(b, c)
    decreases |a|
  {
    if |a| == 1 {
      assert (a + b)[1..] == b;
    } else {
      JoinAppend(a[1..], b, c);
      assert (a + b)[1..] == a[1..] + b;
    }
  }

  // ---------------------------------------------------------------------------
  // splitlines
  // ---------------------------------------------------------------------------

  /** No character of `s` is a line boundary. */
  predicate NoLineBreak(s: string)
  {
    forall k :: 0 <= k < |s| ==> s[k] !in LineBreaks
  }

  /** The only line boundary that may occur in `s` is "\n". */
  predicate OnlyNewlineBreaks(s: string)
  {
    forall k :: 0 <= k < |s| ==> s[k] in LineBreaks ==> s[k] == '\n'
  }

  /** Position of the first line boundary in `s`, or `|s|`. */
  function LineBreakIndex(s: string): (i: nat)
    ensures i <= |s|
    ensures i < |s| ==> s[i] in LineBreaks
    ensures forall k :: 0 <= k < i ==> s[k] !in LineBreaks
  {
    if |s| == 0 then 0
    else if s[0] in LineBreaks then 0
    else 1 + LineBreakIndex(s[1..])
  }

  /**
   * `s.splitlines()`: the lines of `s` without their terminators. A final
   * terminator does not start an extra empty line, and "" has no lines.
   */
  function SplitLines(s: string): (r: seq<string>)
    ensures forall k :: 0 <= k < |r| ==> NoLineBreak(r[k])
    ensures r == [] <==> s == ""
    decreases |s|
  {
    if |s| == 0 then []
    else
      var i := LineBreakIndex(s);
      if i == |s| then [s]
      else
        var next := if s[i] == '\r' && i + 1 < |s| && s[i + 1] == '\n' then i + 2 else i + 1;
        [s[..i]] + SplitLines(s[next..])
  }

  /** The last piece of a split is dropped when it is empty. */
  function DropTrailingEmpty(pieces: seq<string>): (r: seq<string>)
  {
    if |pieces| > 0 && pieces[|pieces| - 1] == "" then pieces[..|pieces| - 1] else pieces
  }

  /** A suffix of a string whose only boundary is "\n" has no other boundary either. */
  lemma OnlyNewlineBreaksSuffix(s: string, j: nat)
    requires j <= |s| && OnlyNewlineBreaks(s)
    ensures OnlyNewlineBreaks(s[j..])
  {
    forall k | 0 <= k < |s[j..]| ensures s[j..][k] in LineBreaks ==> s[j..][k] == '\n' {
      assert s[j..][k] == s[j + k];
    }
  }

  /** Dropping a trailing empty piece does not reach past a non-empty tail. */
  lemma DropTrailingEmptyPrepend(a: string, p: seq<string>)
    requires |p| >= 1
    ensures DropTrailingEmpty([a] + p) == [a] + DropTrailingEmpty(p)
  {
    assert ([a] + p)[..|[a] + p| - 1] == [a] + p[..|p| - 1];
  }

  /** When "\n" is the only boundary, the first boundary is the first "\n". */
  lemma {:induction false} LineBreakIndexIsNewline(s: string)
    requires OnlyNewlineBreaks(s)
    ensures LineBreakIndex(s) == IndexOf(s, '\n')
    decreases |s|
  {
    if |s| > 0 && s[0] !in LineBreaks {
      assert s[0] != '\n';
      OnlyNewlineBreaksSuffix(s, 1);
      LineBreakIndexIsNewline(s[1..]);
    }
  }

  /**
   * When "\n" is the only line boundary present, `splitlines()` is
   * `split("\n")` with a trailing empty piece dropped.
   */
  lemma {:induction false} SplitLinesIsNewlineSplit(s: string)
    requires OnlyNewlineBreaks(s)
    ensures SplitLines(s) == DropTrailingEmpty(Split(s, '\n'))
    decreases |s|
  {
    if |s| > 0 {
      var i := LineBreakIndex(s);
      LineBreakIndexIsNewline(s);
      if i < |s| {
        assert s[i] == '\n';
        var rest := s[i + 1..];
        assert SplitLines(s) == [s[..i]] + SplitLines(rest);
        OnlyNewlineBreaksSuffix(s, i + 1);
        SplitLinesIsNewlineSplit(rest);
        var p := Split(rest, '\n');
        assert Split(s, '\n') == [s[..i]] + p;
        DropTrailingEmptyPrepend(s[..i], p);
      }
    }
  }

  /** A non-empty string without line boundaries is a single line. */
  lemma {:induction false} SplitLinesSingle(s: string)
    requires |s| > 0 && NoLineBreak(s)
    ensures SplitLines(s) == [s]
  {
    var i := LineBreakIndex(s);
    if i < |s| {
      assert false;
    }
  }

  /** A line without boundaries followed by "\n" is the first line of the split. */
  lemma SplitLinesAtNewline(a: string, b: string)
    requires NoLineBreak(a)
    ensures SplitLines(a + "\n" + b) == [a] + SplitLines(b)
  {
    var s := a + "\n" + b;
    assert s[|a|] == '\n';
    assert forall k :: 0 <= k < |a| ==> s[k] == a[k];
    LineBreakIndexAt(s, |a|);
    assert s[..|a|] == a;
    assert s[|a| + 1..] == b;
  }

  /** The first boundary is at `i` when `s[i]` is one and no earlier character is. */
  lemma {:induction false} LineBreakIndexAt(s: string, i: nat)
    requires i < |s| && s[i] in LineBreaks
    requires forall k :: 0 <= k < i ==> s[k] !in LineBreaks
    ensures LineBreakIndex(s) == i
    decreases i
  {
    if i > 0 {
      LineBreakIndexAt(s[1..], i - 1);
    }
  }

  // ---------------------------------------------------------------------------
  // startswith, substring, int()
  // ---------------------------------------------------------------------------

  /** `s.startswith(prefix)`. */
  predicate StartsWith(s: string, prefix: string)
  {
    |prefix| <= |s| && s[..|prefix|] == prefix
  }

  /** `sub` occurs in `s` starting at position `i`. */
  predicate OccursAt(s: string, sub: string, i: int)
  {
    0 <= i <= |s| - |sub| && s[i..i + |sub|] == sub
  }

  /** `sub in s`. */
  predicate Contains(s: string, sub: string)
  {
    exists i | 0 <= i <= |s| - |sub| :: OccursAt(s, sub, i)
  }

  predicate IsDigit(c: char)
  {
    '0' <= c <= '9'
  }

  function DigitValue(c: char): nat
    requires IsDigit(c)
  {
    (c as int) - ('0' as int)
  }

  /** Value of a string of decimal digits, most significant first. */
  function DigitsValue(ds: string): nat
    requires forall k :: 0 <= k < |ds| ==> IsDigit(ds[k])
    decreases |ds|
  {
    if |ds| == 0 then 0
    else 10 * DigitsValue(ds[..|ds| - 1]) + DigitValue(ds[|ds| - 1])
  }

  /** A non-empty run of ASCII decimal digits. */
  predicate IsDigits(ds: string)
  {
    |ds| > 0 && forall k :: 0 <= k < |ds| ==> IsDigit(ds[k])
  }

  /**
   * `int(s)` on a string: surrounding whitespace is ignored, an optional
   * sign is accepted, the rest must be decimal digits; `None` stands for the
   * ValueError Python raises otherwise.
   */
  function ParseInt(s: string): (r: Option<int>)
    ensures r.Some? ==> |Strip(s)| > 0
  {
    var t := Strip(s);
    if |t| > 0 && (t[0] == '-' || t[0] == '+') then
      if IsDigits(t[1..]) then
        var v: int := DigitsValue(t[1..]);
        Some(if t[0] == '-' then -v else v)
      else None
    else if IsDigits(t) then Some(DigitsValue(t))
    else None
  }

  /** Decimal rendering of a natural number, as `str(n)` prints it. */
  function NatToDigits(n: nat): (ds: string)
    ensures IsDigits(ds)
    decreases n
  {
    if n < 10 then [('0' as int + n) as char]
    else NatToDigits(n / 10) + [('0' as int + n % 10) as char]
  }

  /** Reading back a rendered natural number gives the number. */
  lemma {:induction false} DigitsValueOfNat(n: nat)
    ensures DigitsValue(NatToDigits(n)) == n
    decreases n
  {
    var ds := NatToDigits(n);
    if n >= 10 {
      DigitsValueOfNat(n / 10);
      assert ds[..|ds| - 1] == NatToDigits(n / 10);
    }
  }

  /** Digits are neither whitespace nor a sign. */
  lemma DigitsHaveNoEdge(ds: string)
    requires IsDigits(ds)
    ensures NoEdge(ds, Whitespace)
    ensures ds[0] != '-' && ds[0] != '+'
  {
    assert IsDigit(ds[0]) && IsDigit(ds[|ds| - 1]);
  }

  /** Rendering of an integer as `str(n)` prints it. */
  function IntToDigits(n: int): (s: string)
  {
    if n < 0 then "-" + NatToDigits(-n) else NatToDigits(n)
  }

  /** `int(str(n)) == n` for every integer `n`. */
  lemma ParseIntOfRendered(n: int)
    ensures ParseInt(IntToDigits(n)) == Some(n)
  {
    var s := IntToDigits(n);
    if n < 0 {
      var ds := NatToDigits(-n);
      DigitsHaveNoEdge(ds);
      assert s == "-" + ds;
      assert s[1..] == ds;
      assert NoEdge(s, Whitespace) by {
        assert s[0] == '-';
        assert s[|s| - 1] == ds[|ds| - 1];
      }
      StripCharsNoEdge(s, Whitespace);
      DigitsValueOfNat(-n);
    } else {
      DigitsHaveNoEdge(s);
      StripCharsNoEdge(s, Whitespace);
      DigitsValueOfNat(n);
    }
  }
}
