/**
 * Concrete runs of the autofix pass: two single-line fixes in one file,
 * and three consecutive multi-line fixes, where the overwritten line
 * offset sends the third fix to the wrong line and the accumulated one
 * sends it to the right line.
 *
 * Each fact about a concrete text is proved in a lemma of its own, with the
 * texts held in named constants. The lemmas about single steps take the
 * file text, the run, the match and the fix result as parameters pinned
 * down by their preconditions, which keeps the verifier from evaluating the
 * fix functions on constant arguments.
 */
module AutofixScenarios {
  import opened PySeq
  import opened PyStr
  import opened RuleMatch
  import opened Autofix

  /** A match of rule `rule` in `path` from (line, col) to (endLine, endCol) with a literal fix. */
  function LiteralMatch(rule: string, path: string, line: int, col: int, endLine: int, endCol: int,
                        fix: string): RuleMatch
  {
    RuleMatch(rule, path, CoreLocation(line, col, 0), CoreLocation(endLine, endCol, 0),
              Some(fix), None, [], "", "")
  }

  /** `m` is a match in `path` from (line, col) to (endLine, endCol) with literal fix `fix`. */
  predicate Matches(m: RuleMatch, path: string, line: int, col: int, endLine: int, endCol: int, fix: string)
  {
    && m.path == path && m.start.line == line && m.start.col == col
    && m.end.line == endLine && m.end.col == endCol && m.fix == Some(fix)
  }

  const NoPreview: Option<seq<string>> := None

  // ---------------------------------------------------------------------------
  // Generic steps
  // ---------------------------------------------------------------------------

  /** The first literal fix of a file writes it and stores the computed drift state. */
  lemma FirstWrite(run: FixRun, contents: string, m: RuleMatch, sub: Substitution, u: OffsetUpdate, fix: Fix, o: FileOffsets)
    requires run == Initial(map[m.path := contents])
    requires HasLiteralFix(m)
    requires LiteralFix(u, contents, m.start, m.end, OffsetsFor(run, m), m.fix.value) == Some((fix, o))
    ensures Step(run, m, false, sub, u)
      == Done(FixRun(map[m.path := fix.fixedContents], {m.path}, map[m.path := o], [NoPreview]))
  {
    StepLiteral(run, m, false, sub, u, (fix, o));
  }

  /** A later literal fix of the same file replaces its text and its drift state. */
  lemma NextWrite(run: FixRun, contents: string, m: RuleMatch, sub: Substitution, u: OffsetUpdate, o0: FileOffsets,
                  previews: seq<Option<seq<string>>>, fix: Fix, o: FileOffsets)
    requires run == FixRun(map[m.path := contents], {m.path}, map[m.path := o0], previews)
    requires HasLiteralFix(m)
    requires LiteralFix(u, contents, m.start, m.end, OffsetsFor(run, m), m.fix.value) == Some((fix, o))
    ensures Step(run, m, false, sub, u)
      == Done(FixRun(map[m.path := fix.fixedContents], {m.path}, map[m.path := o], previews + [NoPreview]))
  {
    StepLiteral(run, m, false, sub, u, (fix, o));
  }

  /** The previews of the second and third successful real steps. */
  lemma MorePreviews()
    ensures [NoPreview] + [NoPreview] == [NoPreview, NoPreview]
    ensures [NoPreview, NoPreview] + [NoPreview] == [NoPreview, NoPreview, NoPreview]
  {
  }

  /** Two rules' matches are processed one rule after the other. */
  lemma FlattenTwo(g1: seq<RuleMatch>, g2: seq<RuleMatch>)
    ensures Flatten([g1, g2]) == g1 + g2
  {
    assert [g1, g2][1..] == [g2];
    assert [g2][1..] == [];
    assert Flatten([g2]) == g2 + Flatten([]);
    assert g1 + g2 + [] == g1 + g2;
  }

  /** One rule's matches are processed in order. */
  lemma FlattenOne(g: seq<RuleMatch>)
    ensures Flatten([g]) == g
  {
    assert [g][1..] == [];
    assert g + [] == g;
  }

  /** A line with one "\n" in the middle splits into its two halves. */
  lemma TwoLines(a: string, b: string)
    requires |b| > 0 && NoLineBreak(a) && NoLineBreak(b)
    ensures SplitLines(a + "\n" + b) == [a, b]
  {
    SplitLinesAtNewline(a, b);
    SplitLinesSingle(b);
  }

  // ---------------------------------------------------------------------------
  // Two single-line fixes
  // ---------------------------------------------------------------------------

  const FooFile: string := "foo bar\nbaz foo\n"
  const FooOnce: string := "qux bar\nbaz foo\n"
  const FooTwice: string := "qux bar\nbaz qux\n"

  lemma FooFileJoin()
    ensures Join(["foo bar", "baz foo", ""], '\n') == FooFile
  {
    JoinPrepend("foo bar", ["baz foo", ""], '\n');
    JoinPrepend("baz foo", [""], '\n');
    assert "foo bar" + "\n" + ("baz foo" + "\n" + "") == FooFile;
  }

  lemma FooOnceJoin()
    ensures Join(["qux bar", "baz foo", ""], '\n') == FooOnce
  {
    JoinPrepend("qux bar", ["baz foo", ""], '\n');
    JoinPrepend("baz foo", [""], '\n');
    assert "qux bar" + "\n" + ("baz foo" + "\n" + "") == FooOnce;
  }

  lemma FooTwiceJoin()
    ensures Join(["qux bar", "baz qux", ""], '\n') == FooTwice
  {
    JoinPrepend("qux bar", ["baz qux", ""], '\n');
    JoinPrepend("baz qux", [""], '\n');
    assert "qux bar" + "\n" + ("baz qux" + "\n" + "") == FooTwice;
  }

  lemma FooFileLines()
    ensures Split(FooFile, '\n') == ["foo bar", "baz foo", ""]
  {
    FooFileJoin();
    SplitJoin(["foo bar", "baz foo", ""], '\n');
  }

  lemma FooOnceLines()
    ensures Split(FooOnce, '\n') == ["qux bar", "baz foo", ""]
  {
    FooOnceJoin();
    SplitJoin(["qux bar", "baz foo", ""], '\n');
  }

  lemma FooFirstSplice(lines: seq<string>, sp: Span)
    requires lines == ["foo bar", "baz foo", ""] && sp == Span(0, 0, 0, 3)
    ensures SpliceLiteral(lines, sp, "qux") == Some(Splice(["qux bar", "baz foo", ""], ["qux bar"]))
  {
    assert lines[0][..0] + "qux" + lines[0][3..] == "qux bar";
    SplitLinesSingle("qux bar");
    SpliceSingleLine(lines, sp, "qux");
    assert lines[0 := "qux bar"] == ["qux bar", "baz foo", ""];
  }

  lemma FooSecondSplice(lines: seq<string>, sp: Span)
    requires lines == ["qux bar", "baz foo", ""] && sp == Span(1, 4, 1, 7)
    ensures SpliceLiteral(lines, sp, "qux") == Some(Splice(["qux bar", "baz qux", ""], ["baz qux"]))
  {
    assert lines[1][..4] + "qux" + lines[1][7..] == "baz qux";
    SplitLinesSingle("baz qux");
    SpliceSingleLine(lines, sp, "qux");
    assert lines[1 := "baz qux"] == ["qux bar", "baz qux", ""];
  }

  lemma FooFirstFix(contents: string, m: RuleMatch, o: FileOffsets)
    requires Split(contents, '\n') == ["foo bar", "baz foo", ""]
    requires Matches(m, "a.py", 1, 1, 1, 4, "qux") && o == FileOffsets(0, 0, 1)
    ensures BasicFix(contents, m.start, m.end, o, m.fix.value)
      == Some((Fix(FooOnce, ["qux bar"]), FileOffsets(0, 0, 1)))
  {
    FooFirstSplice(Split(contents, '\n'), MatchContext(m.start, m.end, o));
    FooOnceJoin();
  }

  lemma FooSecondFix(contents: string, m: RuleMatch, o: FileOffsets)
    requires Split(contents, '\n') == ["qux bar", "baz foo", ""]
    requires Matches(m, "a.py", 2, 5, 2, 8, "qux") && o == FileOffsets(0, 0, 2)
    ensures BasicFix(contents, m.start, m.end, o, m.fix.value)
      == Some((Fix(FooTwice, ["baz qux"]), FileOffsets(0, 0, 2)))
  {
    FooSecondSplice(Split(contents, '\n'), MatchContext(m.start, m.end, o));
    FooTwiceJoin();
  }

  lemma FooFirstStep(contents: string, run: FixRun, m: RuleMatch, sub: Substitution)
    requires run == Initial(map["a.py" := contents])
    requires Matches(m, "a.py", 1, 1, 1, 4, "qux")
    requires BasicFix(contents, m.start, m.end, FileOffsets(0, 0, 1), m.fix.value) == Some((Fix(FooOnce, ["qux bar"]), FileOffsets(0, 0, 1)))
    ensures Step(run, m, false, sub, Overwrite)
      == Done(FixRun(map["a.py" := FooOnce], {"a.py"}, map["a.py" := FileOffsets(0, 0, 1)], [NoPreview]))
  {
    FirstWrite(run, contents, m, sub, Overwrite, Fix(FooOnce, ["qux bar"]), FileOffsets(0, 0, 1));
  }

  lemma FooSecondStep(contents: string, run: FixRun, m: RuleMatch, sub: Substitution)
    requires run == FixRun(map["a.py" := contents], {"a.py"}, map["a.py" := FileOffsets(0, 0, 1)], [NoPreview])
    requires Matches(m, "a.py", 2, 5, 2, 8, "qux")
    requires BasicFix(contents, m.start, m.end, FileOffsets(0, 0, 2), m.fix.value) == Some((Fix(FooTwice, ["baz qux"]), FileOffsets(0, 0, 2)))
    ensures Step(run, m, false, sub, Overwrite)
      == Done(FixRun(map["a.py" := FooTwice], {"a.py"}, map["a.py" := FileOffsets(0, 0, 2)], [NoPreview, NoPreview]))
  {
    NextWrite(run, contents, m, sub, Overwrite, FileOffsets(0, 0, 1), [NoPreview], Fix(FooTwice, ["baz qux"]), FileOffsets(0, 0, 2));
    MorePreviews();
  }

  /** The two fixes on any file whose lines are those of `FooFile`. */
  lemma TwoFixesOnLines(contents: string, m1: RuleMatch, m2: RuleMatch, sub: Substitution)
    requires Split(contents, '\n') == ["foo bar", "baz foo", ""]
    requires Matches(m1, "a.py", 1, 1, 1, 4, "qux")
    requires Matches(m2, "a.py", 2, 5, 2, 8, "qux")
    ensures ApplyFixes(map["a.py" := contents], [[m1], [m2]], false, sub, Overwrite)
      == Done(FixRun(map["a.py" := FooTwice], {"a.py"}, map["a.py" := FileOffsets(0, 0, 2)], [NoPreview, NoPreview]))
  {
    FlattenTwo([m1], [m2]);
    var run0 := Initial(map["a.py" := contents]);
    var run1 := FixRun(map["a.py" := FooOnce], {"a.py"}, map["a.py" := FileOffsets(0, 0, 1)], [NoPreview]);
    FooFirstFix(contents, m1, FileOffsets(0, 0, 1));
    FooFirstStep(contents, run0, m1, sub);
    FooOnceLines();
    FooSecondFix(FooOnce, m2, FileOffsets(0, 0, 2));
    FooSecondStep(FooOnce, run1, m2, sub);
    ApplyTwo(run0, m1, m2, false, sub, Overwrite, run1,
             FixRun(map["a.py" := FooTwice], {"a.py"}, map["a.py" := FileOffsets(0, 0, 2)], [NoPreview, NoPreview]));
  }

  /**
   * "foo" on line 1 (columns 1 to 4, end exclusive) and on line 2 (columns
   * 5 to 8), reported by two rules, both become "qux"; the second fix still
   * finds its text, since the first kept the line count.
   */
  lemma TwoSingleLineFixes(sub: Substitution)
    ensures var m1 := LiteralMatch("r1", "a.py", 1, 1, 1, 4, "qux");
      var m2 := LiteralMatch("r2", "a.py", 2, 5, 2, 8, "qux");
      ApplyFixes(map["a.py" := FooFile], [[m1], [m2]], false, sub, Overwrite)
        == Done(FixRun(map["a.py" := FooTwice], {"a.py"}, map["a.py" := FileOffsets(0, 0, 2)], [None, None]))
  {
    FooFileLines();
    TwoFixesOnLines(FooFile, LiteralMatch("r1", "a.py", 1, 1, 1, 4, "qux"),
                    LiteralMatch("r2", "a.py", 2, 5, 2, 8, "qux"), sub);
  }

  // ---------------------------------------------------------------------------
  // Three multi-line fixes: the overwritten line offset
  // ---------------------------------------------------------------------------

  const Abc: string := "a\nb\nc"
  const XyBc: string := "x\ny\nb\nc"
  const XyPqC: string := "x\ny\np\nq\nc"
  /** What the pass writes: the third fix replaced "q" instead of "c". */
  const XyPzC: string := "x\ny\np\nz\nc"
  /** What the three fixes were meant to produce. */
  const XyPqZ: string := "x\ny\np\nq\nz"

  lemma AbcJoin()
    ensures Join(["a", "b", "c"], '\n') == Abc
  {
    JoinPrepend("a", ["b", "c"], '\n');
    JoinPrepend("b", ["c"], '\n');
    assert "a" + "\n" + ("b" + "\n" + "c") == Abc;
  }

  lemma XyBcJoin()
    ensures Join(["x", "y", "b", "c"], '\n') == XyBc
  {
    JoinPrepend("x", ["y", "b", "c"], '\n');
    JoinPrepend("y", ["b", "c"], '\n');
    JoinPrepend("b", ["c"], '\n');
    assert "x" + "\n" + ("y" + "\n" + ("b" + "\n" + "c")) == XyBc;
  }

  lemma XyPqCJoin()
    ensures Join(["x", "y", "p", "q", "c"], '\n') == XyPqC
  {
    JoinPrepend("x", ["y", "p", "q", "c"], '\n');
    JoinPrepend("y", ["p", "q", "c"], '\n');
    JoinPrepend("p", ["q", "c"], '\n');
    JoinPrepend("q", ["c"], '\n');
    assert "x" + "\n" + ("y" + "\n" + ("p" + "\n" + ("q" + "\n" + "c"))) == XyPqC;
  }

  lemma XyPzCJoin()
    ensures Join(["x", "y", "p", "z", "c"], '\n') == XyPzC
  {
    JoinPrepend("x", ["y", "p", "z", "c"], '\n');
    JoinPrepend("y", ["p", "z", "c"], '\n');
    JoinPrepend("p", ["z", "c"], '\n');
    JoinPrepend("z", ["c"], '\n');
    assert "x" + "\n" + ("y" + "\n" + ("p" + "\n" + ("z" + "\n" + "c"))) == XyPzC;
  }

  lemma XyPqZJoin()
    ensures Join(["x", "y", "p", "q", "z"], '\n') == XyPqZ
  {
    JoinPrepend("x", ["y", "p", "q", "z"], '\n');
    JoinPrepend("y", ["p", "q", "z"], '\n');
    JoinPrepend("p", ["q", "z"], '\n');
    JoinPrepend("q", ["z"], '\n');
    assert "x" + "\n" + ("y" + "\n" + ("p" + "\n" + ("q" + "\n" + "z"))) == XyPqZ;
  }

  lemma AbcLines()
    ensures Split(Abc, '\n') == ["a", "b", "c"]
  {
    AbcJoin();
    SplitJoin(["a", "b", "c"], '\n');
  }

  lemma XyBcLines()
    ensures Split(XyBc, '\n') == ["x", "y", "b", "c"]
  {
    XyBcJoin();
    SplitJoin(["x", "y", "b", "c"], '\n');
  }

  lemma XyPqCLines()
    ensures Split(XyPqC, '\n') == ["x", "y", "p", "q", "c"]
  {
    XyPqCJoin();
    SplitJoin(["x", "y", "p", "q", "c"], '\n');
  }

  /** The file the pass writes holds "z" where the second fix put "q", and still holds "c". */
  lemma XyPzCLines()
    ensures Split(XyPzC, '\n') == ["x", "y", "p", "z", "c"]
  {
    XyPzCJoin();
    SplitJoin(["x", "y", "p", "z", "c"], '\n');
  }

  lemma DriftFirstSplice(lines: seq<string>, sp: Span)
    requires lines == ["a", "b", "c"] && sp == Span(0, 0, 0, 1)
    ensures SpliceLiteral(lines, sp, "x\ny") == Some(Splice(["x", "y", "b", "c"], ["x", "y"]))
  {
    assert lines[0][..0] + "x\ny" + lines[0][1..] == "x" + "\n" + "y";
    TwoLines("x", "y");
    assert lines[..0] + ["x", "y"] + lines[1..] == ["x", "y", "b", "c"];
  }

  lemma DriftSecondSplice(lines: seq<string>, sp: Span)
    requires lines == ["x", "y", "b", "c"] && sp == Span(2, 0, 2, 1)
    ensures SpliceLiteral(lines, sp, "p\nq") == Some(Splice(["x", "y", "p", "q", "c"], ["p", "q"]))
  {
    assert lines[2][..0] + "p\nq" + lines[2][1..] == "p" + "\n" + "q";
    TwoLines("p", "q");
    assert lines[..2] + ["p", "q"] + lines[3..] == ["x", "y", "p", "q", "c"];
  }

  /** The third fix, shifted by one line only, lands on "q". */
  lemma DriftThirdSplice(lines: seq<string>, sp: Span)
    requires lines == ["x", "y", "p", "q", "c"] && sp == Span(3, 0, 3, 1)
    ensures SpliceLiteral(lines, sp, "z") == Some(Splice(["x", "y", "p", "z", "c"], ["z"]))
  {
    assert lines[3][..0] + "z" + lines[3][1..] == "z";
    SplitLinesSingle("z");
    SpliceSingleLine(lines, sp, "z");
    assert lines[3 := "z"] == ["x", "y", "p", "z", "c"];
  }

  /** The third fix, shifted by the two lines the file has grown, lands on "c". */
  lemma ShiftedThirdSplice(lines: seq<string>, sp: Span)
    requires lines == ["x", "y", "p", "q", "c"] && sp == Span(4, 0, 4, 1)
    ensures SpliceLiteral(lines, sp, "z") == Some(Splice(["x", "y", "p", "q", "z"], ["z"]))
  {
    assert lines[4][..0] + "z" + lines[4][1..] == "z";
    SplitLinesSingle("z");
    SpliceSingleLine(lines, sp, "z");
    assert lines[4 := "z"] == ["x", "y", "p", "q", "z"];
  }

  lemma DriftFirstFix(contents: string, m: RuleMatch, o: FileOffsets)
    requires Split(contents, '\n') == ["a", "b", "c"]
    requires Matches(m, "f", 1, 1, 1, 2, "x\ny") && o == FileOffsets(0, 0, 1)
    ensures BasicFix(contents, m.start, m.end, o, m.fix.value)
      == Some((Fix(XyBc, ["x", "y"]), FileOffsets(1, 2, 1)))
  {
    DriftFirstSplice(Split(contents, '\n'), MatchContext(m.start, m.end, o));
    XyBcJoin();
  }

  lemma DriftSecondFix(contents: string, m: RuleMatch, o: FileOffsets)
    requires Split(contents, '\n') == ["x", "y", "b", "c"]
    requires Matches(m, "f", 2, 1, 2, 2, "p\nq") && o == FileOffsets(1, 0, 2)
    ensures BasicFix(contents, m.start, m.end, o, m.fix.value)
      == Some((Fix(XyPqC, ["p", "q"]), FileOffsets(1, 2, 2)))
  {
    DriftSecondSplice(Split(contents, '\n'), MatchContext(m.start, m.end, o));
    XyPqCJoin();
  }

  lemma DriftThirdFix(contents: string, m: RuleMatch, o: FileOffsets)
    requires Split(contents, '\n') == ["x", "y", "p", "q", "c"]
    requires Matches(m, "f", 3, 1, 3, 2, "z") && o == FileOffsets(1, 0, 3)
    ensures BasicFix(contents, m.start, m.end, o, m.fix.value)
      == Some((Fix(XyPzC, ["z"]), FileOffsets(0, 0, 3)))
  {
    DriftThirdSplice(Split(contents, '\n'), MatchContext(m.start, m.end, o));
    XyPzCJoin();
  }

  lemma DriftFirstStep(contents: string, run: FixRun, m: RuleMatch, sub: Substitution)
    requires run == Initial(map["f" := contents])
    requires Matches(m, "f", 1, 1, 1, 2, "x\ny")
    requires BasicFix(contents, m.start, m.end, FileOffsets(0, 0, 1), m.fix.value) == Some((Fix(XyBc, ["x", "y"]), FileOffsets(1, 2, 1)))
    ensures Step(run, m, false, sub, Overwrite)
      == Done(FixRun(map["f" := XyBc], {"f"}, map["f" := FileOffsets(1, 2, 1)], [NoPreview]))
  {
    FirstWrite(run, contents, m, sub, Overwrite, Fix(XyBc, ["x", "y"]), FileOffsets(1, 2, 1));
  }

  lemma DriftSecondStep(contents: string, run: FixRun, m: RuleMatch, sub: Substitution)
    requires run == FixRun(map["f" := contents], {"f"}, map["f" := FileOffsets(1, 2, 1)], [NoPreview])
    requires Matches(m, "f", 2, 1, 2, 2, "p\nq")
    requires BasicFix(contents, m.start, m.end, FileOffsets(1, 0, 2), m.fix.value) == Some((Fix(XyPqC, ["p", "q"]), FileOffsets(1, 2, 2)))
    ensures Step(run, m, false, sub, Overwrite)
      == Done(FixRun(map["f" := XyPqC], {"f"}, map["f" := FileOffsets(1, 2, 2)], [NoPreview, NoPreview]))
  {
    NextWrite(run, contents, m, sub, Overwrite, FileOffsets(1, 2, 1), [NoPreview], Fix(XyPqC, ["p", "q"]), FileOffsets(1, 2, 2));
    MorePreviews();
  }

  lemma DriftThirdStep(contents: string, run: FixRun, m: RuleMatch, sub: Substitution)
    requires run == FixRun(map["f" := contents], {"f"}, map["f" := FileOffsets(1, 2, 2)], [NoPreview, NoPreview])
    requires Matches(m, "f", 3, 1, 3, 2, "z")
    requires BasicFix(contents, m.start, m.end, FileOffsets(1, 0, 3), m.fix.value) == Some((Fix(XyPzC, ["z"]), FileOffsets(0, 0, 3)))
    ensures Step(run, m, false, sub, Overwrite)
      == Done(FixRun(map["f" := XyPzC], {"f"}, map["f" := FileOffsets(0, 0, 3)], [NoPreview, NoPreview, NoPreview]))
  {
    NextWrite(run, contents, m, sub, Overwrite, FileOffsets(1, 2, 2), [NoPreview, NoPreview], Fix(XyPzC, ["z"]), FileOffsets(0, 0, 3));
    MorePreviews();
  }

  /** The three fixes on any file whose lines are those of `Abc`. */
  lemma DriftOnLines(contents: string, m1: RuleMatch, m2: RuleMatch, m3: RuleMatch, sub: Substitution)
    requires Split(contents, '\n') == ["a", "b", "c"]
    requires Matches(m1, "f", 1, 1, 1, 2, "x\ny")
    requires Matches(m2, "f", 2, 1, 2, 2, "p\nq")
    requires Matches(m3, "f", 3, 1, 3, 2, "z")
    ensures ApplyFixes(map["f" := contents], [[m1, m2, m3]], false, sub, Overwrite)
      == Done(FixRun(map["f" := XyPzC], {"f"}, map["f" := FileOffsets(0, 0, 3)], [NoPreview, NoPreview, NoPreview]))
  {
    FlattenOne([m1, m2, m3]);
    var run0 := Initial(map["f" := contents]);
    var run1 := FixRun(map["f" := XyBc], {"f"}, map["f" := FileOffsets(1, 2, 1)], [NoPreview]);
    var run2 := FixRun(map["f" := XyPqC], {"f"}, map["f" := FileOffsets(1, 2, 2)], [NoPreview, NoPreview]);
    DriftFirstFix(contents, m1, FileOffsets(0, 0, 1));
    DriftFirstStep(contents, run0, m1, sub);
    XyBcLines();
    DriftSecondFix(XyBc, m2, FileOffsets(1, 0, 2));
    DriftSecondStep(XyBc, run1, m2, sub);
    XyPqCLines();
    DriftThirdFix(XyPqC, m3, FileOffsets(1, 0, 3));
    DriftThirdStep(XyPqC, run2, m3, sub);
    ApplyThree(run0, m1, m2, m3, false, sub, Overwrite, run1, run2,
               FixRun(map["f" := XyPzC], {"f"}, map["f" := FileOffsets(0, 0, 3)], [NoPreview, NoPreview, NoPreview]));
  }

  /**
   * Replacing "a", "b" and "c" of "a\nb\nc" by "x\ny", "p\nq" and "z": after
   * the second fix the file has grown by two lines, but the stored offset
   * says one, so the third fix overwrites the "q" the second fix wrote and
   * leaves "c" in place.
   */
  lemma OverwrittenOffsetMisplacesFix(sub: Substitution)
    ensures var m1 := LiteralMatch("r", "f", 1, 1, 1, 2, "x\ny");
      var m2 := LiteralMatch("r", "f", 2, 1, 2, 2, "p\nq");
      var m3 := LiteralMatch("r", "f", 3, 1, 3, 2, "z");
      ApplyFixes(map["f" := Abc], [[m1, m2, m3]], false, sub, Overwrite)
        == Done(FixRun(map["f" := XyPzC], {"f"}, map["f" := FileOffsets(0, 0, 3)], [None, None, None]))
    ensures Split(XyPzC, '\n') == ["x", "y", "p", "z", "c"]
  {
    AbcLines();
    DriftOnLines(Abc, LiteralMatch("r", "f", 1, 1, 1, 2, "x\ny"), LiteralMatch("r", "f", 2, 1, 2, 2, "p\nq"),
                 LiteralMatch("r", "f", 3, 1, 3, 2, "z"), sub);
    XyPzCLines();
  }

  // ---------------------------------------------------------------------------
  // The same three fixes with the line offset accumulated
  // ---------------------------------------------------------------------------

  lemma CumulativeFirstFix(contents: string, m: RuleMatch, o: FileOffsets)
    requires Split(contents, '\n') == ["a", "b", "c"]
    requires Matches(m, "f", 1, 1, 1, 2, "x\ny") && o == FileOffsets(0, 0, 1)
    ensures BasicFixCumulative(contents, m.start, m.end, o, m.fix.value)
      == Some((Fix(XyBc, ["x", "y"]), FileOffsets(1, 2, 1)))
  {
    DriftFirstFix(contents, m, o);
  }

  lemma CumulativeSecondFix(contents: string, m: RuleMatch, o: FileOffsets)
    requires Split(contents, '\n') == ["x", "y", "b", "c"]
    requires Matches(m, "f", 2, 1, 2, 2, "p\nq") && o == FileOffsets(1, 0, 2)
    ensures BasicFixCumulative(contents, m.start, m.end, o, m.fix.value)
      == Some((Fix(XyPqC, ["p", "q"]), FileOffsets(2, 2, 2)))
  {
    DriftSecondFix(contents, m, o);
  }

  lemma CumulativeThirdFix(contents: string, m: RuleMatch, o: FileOffsets)
    requires Split(contents, '\n') == ["x", "y", "p", "q", "c"]
    requires Matches(m, "f", 3, 1, 3, 2, "z") && o == FileOffsets(2, 0, 3)
    ensures BasicFixCumulative(contents, m.start, m.end, o, m.fix.value)
      == Some((Fix(XyPqZ, ["z"]), FileOffsets(2, 0, 3)))
  {
    ShiftedThirdSplice(Split(contents, '\n'), MatchContext(m.start, m.end, o));
    XyPqZJoin();
  }

  lemma CumulativeFirstStep(contents: string, run: FixRun, m: RuleMatch, sub: Substitution)
    requires run == Initial(map["f" := contents])
    requires Matches(m, "f", 1, 1, 1, 2, "x\ny")
    requires BasicFixCumulative(contents, m.start, m.end, FileOffsets(0, 0, 1), m.fix.value) == Some((Fix(XyBc, ["x", "y"]), FileOffsets(1, 2, 1)))
    ensures Step(run, m, false, sub, Accumulate)
      == Done(FixRun(map["f" := XyBc], {"f"}, map["f" := FileOffsets(1, 2, 1)], [NoPreview]))
  {
    FirstWrite(run, contents, m, sub, Accumulate, Fix(XyBc, ["x", "y"]), FileOffsets(1, 2, 1));
  }

  lemma CumulativeSecondStep(contents: string, run: FixRun, m: RuleMatch, sub: Substitution)
    requires run == FixRun(map["f" := contents], {"f"}, map["f" := FileOffsets(1, 2, 1)], [NoPreview])
    requires Matches(m, "f", 2, 1, 2, 2, "p\nq")
    requires BasicFixCumulative(contents, m.start, m.end, FileOffsets(1, 0, 2), m.fix.value) == Some((Fix(XyPqC, ["p", "q"]), FileOffsets(2, 2, 2)))
    ensures Step(run, m, false, sub, Accumulate)
      == Done(FixRun(map["f" := XyPqC], {"f"}, map["f" := FileOffsets(2, 2, 2)], [NoPreview, NoPreview]))
  {
    NextWrite(run, contents, m, sub, Accumulate, FileOffsets(1, 2, 1), [NoPreview], Fix(XyPqC, ["p", "q"]), FileOffsets(2, 2, 2));
    MorePreviews();
  }

  lemma CumulativeThirdStep(contents: string, run: FixRun, m: RuleMatch, sub: Substitution)
    requires run == FixRun(map["f" := contents], {"f"}, map["f" := FileOffsets(2, 2, 2)], [NoPreview, NoPreview])
    requires Matches(m, "f", 3, 1, 3, 2, "z")
    requires BasicFixCumulative(contents, m.start, m.end, FileOffsets(2, 0, 3), m.fix.value) == Some((Fix(XyPqZ, ["z"]), FileOffsets(2, 0, 3)))
    ensures Step(run, m, false, sub, Accumulate)
      == Done(FixRun(map["f" := XyPqZ], {"f"}, map["f" := FileOffsets(2, 0, 3)], [NoPreview, NoPreview, NoPreview]))
  {
    NextWrite(run, contents, m, sub, Accumulate, FileOffsets(2, 2, 2), [NoPreview, NoPreview], Fix(XyPqZ, ["z"]), FileOffsets(2, 0, 3));
    MorePreviews();
  }

  /** The three fixes, with accumulated offsets, on any file whose lines are those of `Abc`. */
  lemma CumulativeOnLines(contents: string, m1: RuleMatch, m2: RuleMatch, m3: RuleMatch, sub: Substitution)
    requires Split(contents, '\n') == ["a", "b", "c"]
    requires Matches(m1, "f", 1, 1, 1, 2, "x\ny")
    requires Matches(m2, "f", 2, 1, 2, 2, "p\nq")
    requires Matches(m3, "f", 3, 1, 3, 2, "z")
    ensures ApplyFixes(map["f" := contents], [[m1, m2, m3]], false, sub, Accumulate)
      == Done(FixRun(map["f" := XyPqZ], {"f"}, map["f" := FileOffsets(2, 0, 3)], [NoPreview, NoPreview, NoPreview]))
  {
    FlattenOne([m1, m2, m3]);
    var run0 := Initial(map["f" := contents]);
    var run1 := FixRun(map["f" := XyBc], {"f"}, map["f" := FileOffsets(1, 2, 1)], [NoPreview]);
    var run2 := FixRun(map["f" := XyPqC], {"f"}, map["f" := FileOffsets(2, 2, 2)], [NoPreview, NoPreview]);
    CumulativeFirstFix(contents, m1, FileOffsets(0, 0, 1));
    CumulativeFirstStep(contents, run0, m1, sub);
    XyBcLines();
    CumulativeSecondFix(XyBc, m2, FileOffsets(1, 0, 2));
    CumulativeSecondStep(XyBc, run1, m2, sub);
    XyPqCLines();
    CumulativeThirdFix(XyPqC, m3, FileOffsets(2, 0, 3));
    CumulativeThirdStep(XyPqC, run2, m3, sub);
    ApplyThree(run0, m1, m2, m3, false, sub, Accumulate, run1, run2,
               FixRun(map["f" := XyPqZ], {"f"}, map["f" := FileOffsets(2, 0, 3)], [NoPreview, NoPreview, NoPreview]));
  }

  /** The file the corrected pass writes: each fix replaced the text it was meant to. */
  lemma XyPqZLines()
    ensures Split(XyPqZ, '\n') == ["x", "y", "p", "q", "z"]
  {
    XyPqZJoin();
    SplitJoin(["x", "y", "p", "q", "z"], '\n');
  }

  /**
   * With the line offset accumulated, the same three fixes on "a\nb\nc"
   * produce "x\ny\np\nq\nz", and the stored offset, 2, is the number of
   * lines the file gained.
   */
  lemma CumulativeOffsetPlacesFix(sub: Substitution)
    ensures var m1 := LiteralMatch("r", "f", 1, 1, 1, 2, "x\ny");
      var m2 := LiteralMatch("r", "f", 2, 1, 2, 2, "p\nq");
      var m3 := LiteralMatch("r", "f", 3, 1, 3, 2, "z");
      ApplyFixes(map["f" := Abc], [[m1, m2, m3]], false, sub, Accumulate)
        == Done(FixRun(map["f" := XyPqZ], {"f"}, map["f" := FileOffsets(2, 0, 3)], [None, None, None]))
    ensures Split(XyPqZ, '\n') == ["x", "y", "p", "q", "z"]
    ensures |Split(XyPqZ, '\n')| - |Split(Abc, '\n')| == 2
  {
    AbcLines();
    CumulativeOnLines(Abc, LiteralMatch("r", "f", 1, 1, 1, 2, "x\ny"), LiteralMatch("r", "f", 2, 1, 2, 2, "p\nq"),
                      LiteralMatch("r", "f", 3, 1, 3, 2, "z"), sub);
    XyPqZLines();
  }
}
