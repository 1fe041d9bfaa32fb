/**
 * Properties of the whole autofix pass: what a dry run leaves alone, what
 * a match without a fix does, which files a pass may touch, and the
 * consistency between written files and stored drift state.
 */
module AutofixProperties {
  import opened PySeq
  import opened PyStr
  import opened Json
  import opened RuleMatch
  import opened Autofix

  /** The run has written nothing and stored no drift state. */
  predicate Pristine(run: FixRun)
  {
    run.modified == {} && run.offsets == map[]
  }

  /**
   * A dry-run step on a pristine run changes nothing but the previews, and
   * computes the same preview whatever previews came before.
   */
  lemma DryStepOnlyPreviews(run: FixRun, m: RuleMatch, sub: Substitution, u: OffsetUpdate)
    requires Pristine(run)
    ensures var r := Step(run, m, true, sub, u);
      var alone := Step(run.(previews := []), m, true, sub, u);
      && r.Done? == alone.Done?
      && r.run == run.(previews := run.previews + alone.run.previews)
      && |alone.run.previews| == (if r.Done? then 1 else 0)
  {
  }

  /**
   * A dry run writes nothing and stores no drift state; it stops exactly
   * when some match, processed on its own against the original tree,
   * fails; and each preview is the one that match gives on its own, so no
   * match sees the effect of an earlier one.
   */
  lemma DryRunIndependent(run: FixRun, ms: seq<RuleMatch>, sub: Substitution, u: OffsetUpdate)
    requires Pristine(run)
    ensures var o := Apply(run, ms, true, sub, u);
      var base := run.(previews := []);
      && o.run.fs == run.fs && Pristine(o.run)
      && (o.Done? <==> forall i :: 0 <= i < |ms| ==> Step(base, ms[i], true, sub, u).Done?)
      && (o.Done? ==>
            && |o.run.previews| == |run.previews| + |ms|
            && o.run.previews[..|run.previews|] == run.previews
            && forall i :: 0 <= i < |ms| ==>
                 Step(base, ms[i], true, sub, u).run.previews == [o.run.previews[|run.previews| + i]])
  {
    DryRunKeepsTree(run, ms, sub, u);
    DryRunStopsIff(run, ms, sub, u);
    DryRunPreviews(run, ms, sub, u);
  }

  lemma {:induction false} DryRunKeepsTree(run: FixRun, ms: seq<RuleMatch>, sub: Substitution, u: OffsetUpdate)
    requires Pristine(run)
    ensures var o := Apply(run, ms, true, sub, u);
      o.run.fs == run.fs && Pristine(o.run)
    decreases |ms|
  {
    if |ms| > 0 {
      DryStepOnlyPreviews(run, ms[0], sub, u);
      match Step(run, ms[0], true, sub, u)
      case Failed(_, _) =>
      case Done(r) =>
        DryRunKeepsTree(r, ms[1..], sub, u);
    }
  }

  lemma {:induction false} DryRunStopsIff(run: FixRun, ms: seq<RuleMatch>, sub: Substitution, u: OffsetUpdate)
    requires Pristine(run)
    ensures Apply(run, ms, true, sub, u).Done?
      <==> forall i :: 0 <= i < |ms| ==> Step(run.(previews := []), ms[i], true, sub, u).Done?
    decreases |ms|
  {
    if |ms| > 0 {
      DryStepOnlyPreviews(run, ms[0], sub, u);
      match Step(run, ms[0], true, sub, u)
      case Failed(_, _) =>
      case Done(r) =>
        DryRunStopsIff(r, ms[1..], sub, u);
        assert r.(previews := []) == run.(previews := []);
        forall i | 1 <= i < |ms| ensures ms[1..][i - 1] == ms[i] {
        }
    }
  }

  lemma {:induction false} DryRunPreviews(run: FixRun, ms: seq<RuleMatch>, sub: Substitution, u: OffsetUpdate)
    requires Pristine(run)
    ensures var o := Apply(run, ms, true, sub, u);
      var base := run.(previews := []);
      o.Done? ==>
        && |o.run.previews| == |run.previews| + |ms|
        && o.run.previews[..|run.previews|] == run.previews
        && forall i :: 0 <= i < |ms| ==>
             Step(base, ms[i], true, sub, u).run.previews == [o.run.previews[|run.previews| + i]]
    decreases |ms|
  {
    if |ms| > 0 {
      DryStepOnlyPreviews(run, ms[0], sub, u);
      match Step(run, ms[0], true, sub, u)
      case Failed(_, _) =>
      case Done(r) =>
        DryRunPreviews(r, ms[1..], sub, u);
        assert r.(previews := []) == run.(previews := []);
        var o := Apply(run, ms, true, sub, u);
        assert o == Apply(r, ms[1..], true, sub, u);
        if o.Done? {
          var base := run.(previews := []);
          var n := |run.previews|;
          assert |r.previews| == n + 1;
          assert o.run.previews[..n] == o.run.previews[..|r.previews|][..n];
          forall i | 0 <= i < |ms| ensures Step(base, ms[i], true, sub, u).run.previews == [o.run.previews[n + i]] {
            if i == 0 {
              assert o.run.previews[n] == r.previews[n];
            } else {
              assert ms[i] == ms[1..][i - 1];
            }
          }
        }
    }
  }

  /** `apply_fixes` in dry-run mode leaves the working tree exactly as it was. */
  lemma DryRunWritesNothing(fs: FileSystem, groups: seq<seq<RuleMatch>>, sub: Substitution, u: OffsetUpdate)
    ensures var o := ApplyFixes(fs, groups, true, sub, u);
      o.run.fs == fs && o.run.modified == {} && o.run.offsets == map[]
  {
    DryRunIndependent(Initial(fs), Flatten(groups), sub, u);
  }

  /**
   * A match with neither a literal nor a regex fix never fails and writes
   * nothing; it adds an empty preview, and its only effect on the drift
   * state is the active-line update of its file's stored entry.
   */
  lemma SkipLeavesFilesAlone(run: FixRun, m: RuleMatch, dryrun: bool, sub: Substitution, u: OffsetUpdate)
    requires !HasLiteralFix(m) && !HasRegexFix(m)
    ensures var r := Step(run, m, dryrun, sub, u);
      && r.Done?
      && r.run.fs == run.fs && r.run.modified == run.modified
      && r.run.previews == run.previews + [None]
      && r.run.offsets.Keys == run.offsets.Keys
      && (forall p :: p in run.offsets && p != m.path ==> r.run.offsets[p] == run.offsets[p])
      && (m.path in run.offsets ==>
            && r.run.offsets[m.path].lineOffset == run.offsets[m.path].lineOffset
            && r.run.offsets[m.path].activeLine == m.start.line)
  {
  }

  /**
   * Written files and drift entries go together: every written file has a
   * drift entry and every drift entry belongs to a written file of the tree.
   */
  predicate Consistent(run: FixRun)
  {
    run.modified == run.offsets.Keys && run.modified <= run.fs.Keys
  }

  /** A real (non-dry) step keeps written files and drift entries consistent, even when it fails. */
  lemma StepKeepsConsistent(run: FixRun, m: RuleMatch, sub: Substitution, u: OffsetUpdate)
    requires Consistent(run)
    ensures Consistent(Step(run, m, false, sub, u).run)
  {
  }

  /** A real pass keeps written files and drift entries consistent, even when it stops early. */
  lemma {:induction false} ApplyKeepsConsistent(run: FixRun, ms: seq<RuleMatch>, sub: Substitution, u: OffsetUpdate)
    requires Consistent(run)
    ensures Consistent(Apply(run, ms, false, sub, u).run)
    decreases |ms|
  {
    if |ms| > 0 {
      StepKeepsConsistent(run, ms[0], sub, u);
      match Step(run, ms[0], false, sub, u)
      case Failed(_, _) =>
      case Done(r) => ApplyKeepsConsistent(r, ms[1..], sub, u);
    }
  }

  /** Some match of the list targets `p` and carries a fix. */
  predicate FixesPath(ms: seq<RuleMatch>, p: string)
  {
    exists i :: 0 <= i < |ms| && ms[i].path == p && (HasLiteralFix(ms[i]) || HasRegexFix(ms[i]))
  }

  /**
   * One step writes at most the file its match points at, and only when
   * the match carries a fix; it never adds or drops a file of the tree.
   */
  lemma StepTouchesOnlyItsPath(run: FixRun, m: RuleMatch, dryrun: bool, sub: Substitution, u: OffsetUpdate)
    ensures var r := Step(run, m, dryrun, sub, u).run;
      && r.fs.Keys == run.fs.Keys
      && (forall p :: p in run.fs && p != m.path ==> r.fs[p] == run.fs[p])
      && (!HasLiteralFix(m) && !HasRegexFix(m) ==> r.fs == run.fs && r.modified == run.modified)
      && r.modified <= run.modified + {m.path}
  {
  }

  /**
   * Only files that some match with a fix points at are written: every
   * other file keeps its contents, and no other path becomes modified.
   */
  lemma {:induction false} OnlyFixedFilesChange(run: FixRun, ms: seq<RuleMatch>, dryrun: bool, sub: Substitution, u: OffsetUpdate)
    ensures var o := Apply(run, ms, dryrun, sub, u);
      && o.run.fs.Keys == run.fs.Keys
      && (forall p :: p in run.fs && !FixesPath(ms, p) ==> o.run.fs[p] == run.fs[p])
      && (forall p :: p in o.run.modified ==> p in run.modified || FixesPath(ms, p))
    decreases |ms|
  {
    if |ms| > 0 {
      match Step(run, ms[0], dryrun, sub, u)
      case Failed(_, _) =>
      case Done(r) =>
        StepTouchesOnlyItsPath(run, ms[0], dryrun, sub, u);
        OnlyFixedFilesChange(r, ms[1..], dryrun, sub, u);
        var o := Apply(run, ms, dryrun, sub, u);
        forall p | FixesPath(ms[1..], p) ensures FixesPath(ms, p) {
          var i :| 0 <= i < |ms[1..]| && ms[1..][i].path == p && (HasLiteralFix(ms[1..][i]) || HasRegexFix(ms[1..][i]));
          assert ms[i + 1] == ms[1..][i];
        }
        assert HasLiteralFix(ms[0]) || HasRegexFix(ms[0]) ==> FixesPath(ms, ms[0].path);
        forall p | p in r.modified && p !in run.modified ensures FixesPath(ms, p) {
          assert ms[0].path == p && (HasLiteralFix(ms[0]) || HasRegexFix(ms[0]));
        }
    }
  }

  /**
   * As written, after a written literal fix the stored line offset is the
   * change in the file's line count caused by that edit alone, whatever
   * offset was stored before.
   */
  lemma StoredOffsetIsLastEditDelta(run: FixRun, m: RuleMatch, sub: Substitution)
    requires HasLiteralFix(m) && Step(run, m, false, sub, Overwrite).Done?
    ensures var r := Step(run, m, false, sub, Overwrite).run;
      r.offsets[m.path].lineOffset == |Split(r.fs[m.path], SplitChar)| - |Split(run.fs[m.path], SplitChar)|
  {
    BasicFixReread(run.fs[m.path], m.start, m.end, OffsetsFor(run, m), m.fix.value);
  }

  // ---------------------------------------------------------------------------
  // Two one-line fixes, as written
  // ---------------------------------------------------------------------------

  /** The line a one-line literal fix makes of `line`: the text before its start column, the fix, the text from its end column. */
  function EditedLine(line: string, m: RuleMatch): string
    requires m.fix.Some?
    requires 1 <= m.start.col <= |line| + 1 && 1 <= m.end.col <= |line| + 1
  {
    line[..m.start.col - 1] + m.fix.value + line[m.end.col - 1..]
  }

  /**
   * `m` is a literal fix that starts and ends on one line of `lines`, with
   * both columns inside that line, and leaves a single non-empty line.
   */
  predicate OneLineEdit(lines: seq<string>, m: RuleMatch)
  {
    && HasLiteralFix(m)
    && m.start.line == m.end.line
    && 1 <= m.start.line <= |lines|
    && 1 <= m.start.col <= |lines[m.start.line - 1]| + 1
    && 1 <= m.end.col <= |lines[m.start.line - 1]| + 1
    && var x := EditedLine(lines[m.start.line - 1], m); |x| > 0 && NoLineBreak(x)
  }

  /**
   * On undrifted offsets a one-line fix replaces exactly its line, leaves
   * the line count alone, and records the width change on that line.
   */
  lemma BasicFixOneLine(contents: string, m: RuleMatch, offsets: FileOffsets)
    requires OneLineEdit(Split(contents, SplitChar), m)
    requires offsets.lineOffset == 0 && offsets.colOffset == 0
    ensures var lines := Split(contents, SplitChar);
      var x := EditedLine(lines[m.start.line - 1], m);
      BasicFix(contents, m.start, m.end, offsets, m.fix.value)
        == Some((Fix(Join(lines[m.start.line - 1 := x], SplitChar), [x]),
                 FileOffsets(0, |m.fix.value| - (m.end.col - m.start.col), offsets.activeLine)))
  {
    var lines := Split(contents, SplitChar);
    var sp := MatchContext(m.start, m.end, offsets);
    SpliceSingleLine(lines, sp, m.fix.value);
  }

  /** Replacing one line of a split text by a line without breaks is undone by splitting again. */
  lemma SplitAfterOneLine(contents: string, l: int, x: string)
    requires 0 <= l < |Split(contents, SplitChar)| && NoLineBreak(x)
    ensures var lines := Split(contents, SplitChar);
      Split(Join(lines[l := x], SplitChar), SplitChar) == lines[l := x]
  {
    var lines := Split(contents, SplitChar)[l := x];
    assert SplitChar in LineBreaks;
    SplitJoin(lines, SplitChar);
  }

  /** An edit of another line leaves a one-line fix and the line it makes unchanged. */
  lemma OneLineEditElsewhere(lines: seq<string>, a: int, x: string, m: RuleMatch)
    requires OneLineEdit(lines, m) && 0 <= a < |lines| && a != m.start.line - 1
    ensures OneLineEdit(lines[a := x], m)
    ensures EditedLine(lines[a := x][m.start.line - 1], m) == EditedLine(lines[m.start.line - 1], m)
  {
    assert lines[a := x][m.start.line - 1] == lines[m.start.line - 1];
  }

  /** The first literal fix of a pass writes its file and stores the offsets it computed. */
  lemma FirstLiteralStep(fs: FileSystem, m: RuleMatch, sub: Substitution, fix: Fix, o: FileOffsets)
    requires m.path in fs && HasLiteralFix(m)
    requires BasicFix(fs[m.path], m.start, m.end, FileOffsets(0, 0, m.start.line), m.fix.value) == Some((fix, o))
    ensures Step(Initial(fs), m, false, sub, Overwrite)
      == Done(FixRun(fs[m.path := fix.fixedContents], {m.path}, map[m.path := o], [None]))
  {
    var run := Initial(fs);
    StepLiteral(run, m, false, sub, Overwrite, (fix, o));
    assert Touch(run, m) == run;
  }

  /**
   * A second literal fix of the same file, starting on another line than
   * the first and after a first edit that kept the line count, sees zero
   * offsets and writes on top of the first.
   */
  lemma SecondLiteralStep(fs: FileSystem, m: RuleMatch, sub: Substitution, o1: FileOffsets,
                          fix: Fix, o: FileOffsets)
    requires m.path in fs && HasLiteralFix(m) && o1.lineOffset == 0 && o1.activeLine != m.start.line
    requires BasicFix(fs[m.path], m.start, m.end, FileOffsets(0, 0, m.start.line), m.fix.value) == Some((fix, o))
    ensures var run := FixRun(fs, {m.path}, map[m.path := o1], [None]);
      Step(run, m, false, sub, Overwrite)
        == Done(FixRun(fs[m.path := fix.fixedContents], {m.path}, map[m.path := o], [None, None]))
  {
    var run := FixRun(fs, {m.path}, map[m.path := o1], [None]);
    assert OffsetsFor(run, m) == FileOffsets(0, 0, m.start.line);
    StepLiteral(run, m, false, sub, Overwrite, (fix, o));
  }

  /** Two literal fixes of one file on different lines, the first keeping the line count, run one after the other. */
  lemma TwoLiteralWrites(fs: FileSystem, m1: RuleMatch, m2: RuleMatch, sub: Substitution,
                         fix1: Fix, o1: FileOffsets, fix2: Fix, o2: FileOffsets)
    requires m1.path == m2.path && m1.path in fs && HasLiteralFix(m1) && HasLiteralFix(m2)
    requires o1.lineOffset == 0 && o1.activeLine != m2.start.line
    requires BasicFix(fs[m1.path], m1.start, m1.end, FileOffsets(0, 0, m1.start.line), m1.fix.value) == Some((fix1, o1))
    requires BasicFix(fix1.fixedContents, m2.start, m2.end, FileOffsets(0, 0, m2.start.line), m2.fix.value)
      == Some((fix2, o2))
    ensures Apply(Initial(fs), [m1, m2], false, sub, Overwrite)
      == Done(FixRun(fs[m1.path := fix2.fixedContents], {m1.path}, map[m1.path := o2], [None, None]))
  {
    var p := m1.path;
    var fs1 := fs[p := fix1.fixedContents];
    FirstLiteralStep(fs, m1, sub, fix1, o1);
    SecondLiteralStep(fs1, m2, sub, o1, fix2, o2);
    assert fs1[p := fix2.fixedContents] == fs[p := fix2.fixedContents];
    ApplyTwo(Initial(fs), m1, m2, false, sub, Overwrite, FixRun(fs1, {p}, map[p := o1], [None]),
             FixRun(fs[p := fix2.fixedContents], {p}, map[p := o2], [None, None]));
  }

  /**
   * Two one-line literal fixes on different lines of one file, as the code
   * is written: the second fix still lands on its own text, and the file
   * ends up with each line edited exactly as it would be alone. The stored
   * drift is that of the second fix.
   */
  lemma TwoOneLineFixes(fs: FileSystem, groups: seq<seq<RuleMatch>>, m1: RuleMatch, m2: RuleMatch,
                        sub: Substitution)
    requires Flatten(groups) == [m1, m2]
    requires m1.path == m2.path && m1.path in fs
    requires var lines := Split(fs[m1.path], SplitChar);
      OneLineEdit(lines, m1) && OneLineEdit(lines, m2) && m1.start.line != m2.start.line
    ensures var lines := Split(fs[m1.path], SplitChar);
      var a := m1.start.line - 1;
      var b := m2.start.line - 1;
      var fixed := lines[a := EditedLine(lines[a], m1)][b := EditedLine(lines[b], m2)];
      ApplyFixes(fs, groups, false, sub, Overwrite)
        == Done(FixRun(fs[m1.path := Join(fixed, SplitChar)], {m1.path},
                       map[m1.path := FileOffsets(0, |m2.fix.value| - (m2.end.col - m2.start.col), m2.start.line)],
                       [None, None]))
  {
    var p := m1.path;
    var lines := Split(fs[p], SplitChar);
    var a := m1.start.line - 1;
    var b := m2.start.line - 1;
    var x1 := EditedLine(lines[a], m1);
    var x2 := EditedLine(lines[b], m2);
    var c1 := Join(lines[a := x1], SplitChar);
    var c2 := Join(lines[a := x1][b := x2], SplitChar);
    BasicFixOneLine(fs[p], m1, FileOffsets(0, 0, m1.start.line));
    SplitAfterOneLine(fs[p], a, x1);
    OneLineEditElsewhere(lines, a, x1, m2);
    BasicFixOneLine(c1, m2, FileOffsets(0, 0, m2.start.line));
    TwoLiteralWrites(fs, m1, m2, sub,
                     Fix(c1, [x1]), FileOffsets(0, |m1.fix.value| - (m1.end.col - m1.start.col), m1.start.line),
                     Fix(c2, [x2]), FileOffsets(0, |m2.fix.value| - (m2.end.col - m2.start.col), m2.start.line));
  }

  // ---------------------------------------------------------------------------
  // Accumulated offsets measure drift
  // ---------------------------------------------------------------------------

  /**
   * The drift state means what it is for: every written file's stored line
   * offset is how many lines it has gained since the pass began, and every
   * file without drift state still has its original text.
   */
  predicate TracksDrift(run: FixRun, original: FileSystem)
  {
    && run.fs.Keys == original.Keys
    && Consistent(run)
    && (forall p :: p in run.fs && p !in run.offsets ==> run.fs[p] == original[p])
    && (forall p :: p in run.offsets ==>
          run.offsets[p].lineOffset == |Split(run.fs[p], SplitChar)| - |Split(original[p], SplitChar)|)
  }

  /** A match whose fix, if any, is applied as a literal one. */
  predicate LiteralOnly(m: RuleMatch)
  {
    HasLiteralFix(m) || !HasRegexFix(m)
  }

  /** Looking up a match's drift state keeps it exact: only the column offset and active line change. */
  lemma TouchTracksDrift(run: FixRun, m: RuleMatch, original: FileSystem)
    requires TracksDrift(run, original)
    ensures TracksDrift(Touch(run, m), original)
  {
  }

  /** Writing a file together with its exact drift keeps the drift state exact. */
  lemma RecordTracksDrift(run: FixRun, path: string, fix: Fix, o: FileOffsets, original: FileSystem)
    requires TracksDrift(run, original) && path in run.fs
    requires o.lineOffset == |Split(fix.fixedContents, SplitChar)| - |Split(original[path], SplitChar)|
    ensures TracksDrift(Record(run, path, fix, o, false), original)
  {
  }

  /** With accumulated offsets, a real step keeps the drift state exact, even when it fails. */
  lemma StepTracksDrift(run: FixRun, m: RuleMatch, sub: Substitution, original: FileSystem)
    requires TracksDrift(run, original) && LiteralOnly(m)
    ensures TracksDrift(Step(run, m, false, sub, Accumulate).run, original)
  {
    var current := OffsetsFor(run, m);
    var run1 := Touch(run, m);
    TouchTracksDrift(run, m, original);
    if HasLiteralFix(m) && m.path in run.fs
       && BasicFixCumulative(run.fs[m.path], m.start, m.end, current, m.fix.value).Some? {
      var contents := run.fs[m.path];
      var res := BasicFixCumulative(contents, m.start, m.end, current, m.fix.value).value;
      StepLiteral(run, m, false, sub, Accumulate, res);
      CumulativeOffsetTracksDrift(|Split(original[m.path], SplitChar)|, contents, m.start, m.end, current, m.fix.value);
      RecordTracksDrift(run1, m.path, res.0, res.1, original);
    } else {
      var r := Step(run, m, false, sub, Accumulate).run;
      assert r.fs == run1.fs && r.offsets == run1.offsets && r.modified == run1.modified;
    }
  }

  /**
   * With accumulated offsets, a real pass over literal fixes leaves every
   * written file's stored offset equal to its drift, even when it stops early.
   */
  lemma {:induction false} ApplyTracksDrift(run: FixRun, ms: seq<RuleMatch>, sub: Substitution, original: FileSystem)
    requires TracksDrift(run, original)
    requires forall i :: 0 <= i < |ms| ==> LiteralOnly(ms[i])
    ensures TracksDrift(Apply(run, ms, false, sub, Accumulate).run, original)
    decreases |ms|
  {
    if |ms| > 0 {
      StepTracksDrift(run, ms[0], sub, original);
      match Step(run, ms[0], false, sub, Accumulate)
      case Failed(_, _) =>
      case Done(r) =>
        assert forall i :: 0 <= i < |ms[1..]| ==> LiteralOnly(ms[1..][i]) by {
          forall i | 0 <= i < |ms[1..]| ensures LiteralOnly(ms[1..][i]) {
            assert ms[1..][i] == ms[i + 1];
          }
        }
        ApplyTracksDrift(r, ms[1..], sub, original);
    }
  }

  /** `apply_fixes` with accumulated offsets: the drift state it ends with is exact. */
  lemma ApplyFixesTracksDrift(fs: FileSystem, groups: seq<seq<RuleMatch>>, sub: Substitution)
    requires forall i :: 0 <= i < |Flatten(groups)| ==> LiteralOnly(Flatten(groups)[i])
    ensures TracksDrift(ApplyFixes(fs, groups, false, sub, Accumulate).run, fs)
  {
    ApplyTracksDrift(Initial(fs), Flatten(groups), sub, fs);
  }
}
