/**
 * The autofix patch engine: applies the literal or regular-expression fixes
 * carried by match records to the files they point at, in one top-to-bottom
 * pass, tracking per file how far earlier edits have shifted later matches.
 *
 * The working tree is a map from path to file contents as `Path.read_text`
 * returns them: universal-newline reading has already turned "\r\n" and
 * "\r" into "\n", so lines are split on "\n" alone. A path missing from the
 * map cannot be read. The regular-expression substitution `re.sub` is a
 * parameter. Dry-run previews, which the code attaches to each match object,
 * are returned as a list with one entry per processed match.
 */
module Autofix {
  import opened PySeq
  import opened PyStr
  import opened Json
  import opened RuleMatch

  /** File contents are split into lines, and joined back, on this character. */
  const SplitChar: char := '\n'

  /**
   * Drift state of one file: the line shift recorded by the last edit, the
   * column shift left by the last single-line edit, and the (1-indexed,
   * unshifted) line on which that column shift applies.
   */
  datatype FileOffsets = FileOffsets(lineOffset: int, colOffset: int, activeLine: int)

  /** A computed fix: the whole new file and the lines that replaced the match. */
  datatype Fix = Fix(fixedContents: string, fixedLines: seq<string>)

  /** 0-indexed coordinates of a match after drift correction; the end column is exclusive. */
  datatype Span = Span(startLine: int, startCol: int, endLine: int, endCol: int)

  /** `re.sub(pattern, replacement, text, count)`; `None` when it raises. */
  type Substitution = (string, string, string, int) -> Option<string>

  // ---------------------------------------------------------------------------
  // Locating a match
  // ---------------------------------------------------------------------------

  /**
   * Converts a match's 1-indexed start and end into 0-indexed coordinates
   * and shifts lines by the line offset and columns by the column offset.
   */
  function MatchContext(start: CoreLocation, end: CoreLocation, offsets: FileOffsets): (r: Span)
    ensures r.startLine == start.line - 1 + offsets.lineOffset
    ensures r.endLine == end.line - 1 + offsets.lineOffset
    ensures r.startCol == start.col - 1 + offsets.colOffset
    ensures r.endCol == end.col - 1 + offsets.colOffset
  {
    var startLine := start.line - 1;
    var startCol := start.col - 1;
    var endLine := end.line - 1;
    var endCol := end.col - 1;
    Span(startLine + offsets.lineOffset, startCol + offsets.colOffset,
         endLine + offsets.lineOffset, endCol + offsets.colOffset)
  }

  /** Drift moves a match without changing its height or width. */
  lemma MatchContextTranslates(start: CoreLocation, end: CoreLocation, offsets: FileOffsets)
    ensures var r := MatchContext(start, end, offsets);
      var z := MatchContext(start, end, FileOffsets(0, 0, offsets.activeLine));
      && r.endLine - r.startLine == z.endLine - z.startLine == end.line - start.line
      && r.endCol - r.startCol == z.endCol - z.startCol == end.col - start.col
      && r.startLine - z.startLine == offsets.lineOffset
      && r.startCol - z.startCol == offsets.colOffset
  {
  }

  // ---------------------------------------------------------------------------
  // Literal fixes
  // ---------------------------------------------------------------------------

  /** The span lies inside the file, ends after it starts, and its columns lie inside their lines. */
  predicate InBounds(lines: seq<string>, sp: Span)
  {
    && 0 <= sp.startLine <= sp.endLine < |lines|
    && 0 <= sp.startCol <= |lines[sp.startLine]|
    && 0 <= sp.endCol <= |lines[sp.endLine]|
  }

  /** The file after an edit, and the block of lines that replaced the match. */
  datatype Splice = Splice(newLines: seq<string>, block: seq<string>)

  /**
   * Replaces the text of the span by `fix`: the part of the start line
   * before the match, the fix and the part of the end line after the match
   * are joined and re-split into lines, between the untouched lines before
   * and after. Indexing the start or end line out of range raises
   * IndexError (`None`); negative indices count from the end as in Python.
   */
  function SpliceLiteral(lines: seq<string>, sp: Span, fix: string): (r: Option<Splice>)
    ensures r.Some? <==> Index(lines, sp.startLine).Some? && Index(lines, sp.endLine).Some?
    ensures r.Some? && InBounds(lines, sp) ==>
      var block := SplitLines(lines[sp.startLine][..sp.startCol] + fix + lines[sp.endLine][sp.endCol..]);
      && r.value.block == block
      && r.value.newLines == lines[..sp.startLine] + block + lines[sp.endLine + 1..]
    ensures r.Some? && fix != "" ==> r.value.block != [] && r.value.newLines != []
  {
    var before := SliceTo(lines, sp.startLine);
    match Index(lines, sp.startLine)
    case None => None
    case Some(first) =>
      match Index(lines, sp.endLine)
      case None => None
      case Some(last) =>
        var prefix := SliceTo(first, sp.startCol);
        var suffix := SliceFrom(last, sp.endCol);
        var block := SplitLines(prefix + fix + suffix);
        var after := SliceFrom(lines, sp.endLine + 1);
        Some(Splice(before + block + after, block))
  }

  /**
   * `_basic_fix`: applies a literal fix to the file contents. The new line
   * offset is the change in the file's line count caused by this edit alone
   * (it replaces, rather than adds to, the previous offset); the column
   * offset is set only by a single-line match, to the change in that line's
   * length; the active line is kept.
   */
  function BasicFix(contents: string, start: CoreLocation, end: CoreLocation,
                    offsets: FileOffsets, fix: string): (r: Option<(Fix, FileOffsets)>)
    ensures var lines := Split(contents, SplitChar);
      var sp := MatchContext(start, end, offsets);
      var s := SpliceLiteral(lines, sp, fix);
      && (r.Some? <==> s.Some?)
      && (r.Some? ==>
            && r.value.0 == Fix(Join(s.value.newLines, SplitChar), s.value.block)
            && r.value.1.lineOffset == |s.value.newLines| - |lines|
            && r.value.1.colOffset ==
                 (if sp.startLine == sp.endLine then |fix| - (sp.endCol - sp.startCol) else offsets.colOffset)
            && r.value.1.activeLine == offsets.activeLine)
  {
    var lines := Split(contents, SplitChar);
    var sp := MatchContext(start, end, offsets);
    match SpliceLiteral(lines, sp, fix)
    case None => None
    case Some(s) =>
      var lineOffset := |s.newLines| - |lines|;
      var colOffset := if sp.startLine == sp.endLine then |fix| - (sp.endCol - sp.startCol) else offsets.colOffset;
      Some((Fix(Join(s.newLines, SplitChar), s.block), FileOffsets(lineOffset, colOffset, offsets.activeLine)))
  }

  /**
   * Reading back the written file gives exactly the spliced lines (unless
   * the edit removed every line), so the next fix sees what this one made.
   */
  lemma BasicFixReread(contents: string, start: CoreLocation, end: CoreLocation,
                       offsets: FileOffsets, fix: string)
    requires var s := SpliceLiteral(Split(contents, SplitChar), MatchContext(start, end, offsets), fix);
      s.Some? && |s.value.newLines| > 0
    ensures var s := SpliceLiteral(Split(contents, SplitChar), MatchContext(start, end, offsets), fix);
      Split(BasicFix(contents, start, end, offsets, fix).value.0.fixedContents, SplitChar) == s.value.newLines
  {
    var lines := Split(contents, SplitChar);
    var s := SpliceLiteral(lines, MatchContext(start, end, offsets), fix).value;
    SpliceHasNoSeparator(lines, MatchContext(start, end, offsets), fix);
    SplitJoin(s.newLines, SplitChar);
  }

  /** No line of a splice of separator-free lines contains the separator. */
  lemma SpliceHasNoSeparator(lines: seq<string>, sp: Span, fix: string)
    requires forall k :: 0 <= k < |lines| ==> SplitChar !in lines[k]
    requires SpliceLiteral(lines, sp, fix).Some?
    ensures var s := SpliceLiteral(lines, sp, fix).value;
      forall k :: 0 <= k < |s.newLines| ==> SplitChar !in s.newLines[k]
  {
    var s := SpliceLiteral(lines, sp, fix).value;
    var before := SliceTo(lines, sp.startLine);
    var after := SliceFrom(lines, sp.endLine + 1);
    assert s.newLines == before + s.block + after;
    forall k | 0 <= k < |s.newLines| ensures SplitChar !in s.newLines[k] {
      if k < |before| {
        assert s.newLines[k] == before[k];
        assert before[k] in lines;
      } else if k < |before| + |s.block| {
        assert s.newLines[k] == s.block[k - |before|];
        assert NoLineBreak(s.block[k - |before|]);
        assert SplitChar in LineBreaks;
      } else {
        assert s.newLines[k] == after[k - |before| - |s.block|];
        assert after[k - |before| - |s.block|] in lines;
      }
    }
  }

  /**
   * A single-line edit whose new line is non-empty and has no line boundary
   * replaces exactly that line and keeps the line count.
   */
  lemma SpliceSingleLine(lines: seq<string>, sp: Span, fix: string)
    requires InBounds(lines, sp) && sp.startLine == sp.endLine
    requires var x := lines[sp.startLine][..sp.startCol] + fix + lines[sp.startLine][sp.endCol..];
      |x| > 0 && NoLineBreak(x)
    ensures var x := lines[sp.startLine][..sp.startCol] + fix + lines[sp.startLine][sp.endCol..];
      SpliceLiteral(lines, sp, fix) == Some(Splice(lines[sp.startLine := x], [x]))
  {
    var l := sp.startLine;
    var x := lines[l][..sp.startCol] + fix + lines[l][sp.endCol..];
    SplitLinesSingle(x);
    assert lines[..l] + [x] + lines[l + 1..] == lines[l := x];
  }

  // ---------------------------------------------------------------------------
  // Regular-expression fixes
  // ---------------------------------------------------------------------------

  /**
   * `_regex_replace`: runs the substitution over the lines the match spans,
   * joined with "\n", and puts the re-split result between the untouched
   * lines before and after. Only the line offset changes: it becomes the
   * change in the block's line count.
   */
  function RegexReplace(contents: string, start: CoreLocation, end: CoreLocation, offsets: FileOffsets,
                        pattern: string, replacement: string, count: int, sub: Substitution): (r: Option<(Fix, FileOffsets)>)
    ensures r.Some? ==> r.value.1.colOffset == offsets.colOffset && r.value.1.activeLine == offsets.activeLine
    ensures var lines := Split(contents, SplitChar);
      var sp := MatchContext(start, end, offsets);
      0 <= sp.startLine <= sp.endLine < |lines| ==>
        var text := sub(pattern, replacement, Join(lines[sp.startLine..sp.endLine + 1], SplitChar), count);
        && (r.Some? <==> text.Some?)
        && (r.Some? ==>
              var block := SplitLines(text.value);
              && r.value.0.fixedLines == block
              && r.value.0.fixedContents == Join(lines[..sp.startLine] + block + lines[sp.endLine + 1..], SplitChar)
              && r.value.1.lineOffset == |block| - (sp.endLine + 1 - sp.startLine))
  {
    var lines := Split(contents, SplitChar);
    var sp := MatchContext(start, end, offsets);
    var before := SliceTo(lines, sp.startLine);
    var after := SliceFrom(lines, sp.endLine + 1);
    var context := Slice(lines, sp.startLine, sp.endLine + 1);
    match sub(pattern, replacement, Join(context, SplitChar), count)
    case None => None
    case Some(text) =>
      var block := SplitLines(text);
      Some((Fix(Join(before + block + after, SplitChar), block),
            offsets.(lineOffset := |block| - |context|)))
  }

  /**
   * The substitution sees only the spanned lines: two files that agree on
   * them get the same replacement block and the same line offset.
   */
  lemma RegexReplaceOnlySeesSpan(c1: string, c2: string, start: CoreLocation, end: CoreLocation,
                                 offsets: FileOffsets, pattern: string, replacement: string,
                                 count: int, sub: Substitution)
    requires var sp := MatchContext(start, end, offsets);
      var l1 := Split(c1, SplitChar);
      var l2 := Split(c2, SplitChar);
      && 0 <= sp.startLine <= sp.endLine && sp.endLine < |l1| && sp.endLine < |l2|
      && l1[sp.startLine..sp.endLine + 1] == l2[sp.startLine..sp.endLine + 1]
    ensures var r1 := RegexReplace(c1, start, end, offsets, pattern, replacement, count, sub);
      var r2 := RegexReplace(c2, start, end, offsets, pattern, replacement, count, sub);
      && (r1.Some? <==> r2.Some?)
      && (r1.Some? ==> r1.value.0.fixedLines == r2.value.0.fixedLines && r1.value.1 == r2.value.1)
  {
    var sp := MatchContext(start, end, offsets);
    var context := Split(c1, SplitChar)[sp.startLine..sp.endLine + 1];
    RegexReplaceOfContext(c1, start, end, offsets, pattern, replacement, count, sub, context);
    RegexReplaceOfContext(c2, start, end, offsets, pattern, replacement, count, sub, context);
  }

  /** The outcome of `_regex_replace` as a function of the spanned lines alone. */
  lemma RegexReplaceOfContext(contents: string, start: CoreLocation, end: CoreLocation,
                              offsets: FileOffsets, pattern: string, replacement: string,
                              count: int, sub: Substitution, context: seq<string>)
    requires var sp := MatchContext(start, end, offsets);
      var lines := Split(contents, SplitChar);
      0 <= sp.startLine <= sp.endLine < |lines| && context == lines[sp.startLine..sp.endLine + 1]
    ensures var r := RegexReplace(contents, start, end, offsets, pattern, replacement, count, sub);
      var text := sub(pattern, replacement, Join(context, SplitChar), count);
      && (r.Some? <==> text.Some?)
      && (r.Some? ==> r.value.0.fixedLines == SplitLines(text.value)
                      && r.value.1 == offsets.(lineOffset := |SplitLines(text.value)| - |context|))
  {
    var r := RegexReplace(contents, start, end, offsets, pattern, replacement, count, sub);
    var sp := MatchContext(start, end, offsets);
    assert |context| == sp.endLine + 1 - sp.startLine;
    if r.Some? {
      assert r.value.1.colOffset == offsets.colOffset && r.value.1.activeLine == offsets.activeLine;
    }
  }

  // ---------------------------------------------------------------------------
  // Cumulative drift
  // ---------------------------------------------------------------------------

  /**
   * `_basic_fix` with the line offset added to the offset it was given
   * instead of overwriting it, so that it keeps measuring how far the file
   * has drifted from the line numbers the engine reported.
   */
  function BasicFixCumulative(contents: string, start: CoreLocation, end: CoreLocation,
                              offsets: FileOffsets, fix: string): (r: Option<(Fix, FileOffsets)>)
    ensures var b := BasicFix(contents, start, end, offsets, fix);
      && (r.Some? <==> b.Some?)
      && (r.Some? ==> r.value.0 == b.value.0
                      && r.value.1.colOffset == b.value.1.colOffset
                      && r.value.1.activeLine == offsets.activeLine)
  {
    match BasicFix(contents, start, end, offsets, fix)
    case None => None
    case Some(res) => Some((res.0, res.1.(lineOffset := offsets.lineOffset + res.1.lineOffset)))
  }

  /**
   * If the offset handed in is the file's drift from its original line
   * count, the offset handed back is the drift of the edited file.
   */
  lemma CumulativeOffsetTracksDrift(original: int, contents: string, start: CoreLocation, end: CoreLocation,
                                    offsets: FileOffsets, fix: string)
    requires offsets.lineOffset == |Split(contents, SplitChar)| - original
    requires fix != "" && BasicFixCumulative(contents, start, end, offsets, fix).Some?
    ensures var r := BasicFixCumulative(contents, start, end, offsets, fix).value;
      r.1.lineOffset == |Split(r.0.fixedContents, SplitChar)| - original
  {
    BasicFixReread(contents, start, end, offsets, fix);
  }

  /**
   * `_regex_replace` with the line offset accumulated in the same way.
   */
  function RegexReplaceCumulative(contents: string, start: CoreLocation, end: CoreLocation, offsets: FileOffsets,
                                  pattern: string, replacement: string, count: int, sub: Substitution): (r: Option<(Fix, FileOffsets)>)
    ensures var b := RegexReplace(contents, start, end, offsets, pattern, replacement, count, sub);
      && (r.Some? <==> b.Some?)
      && (r.Some? ==> r.value.0 == b.value.0 && r.value.1.colOffset == offsets.colOffset
                      && r.value.1.activeLine == offsets.activeLine)
  {
    match RegexReplace(contents, start, end, offsets, pattern, replacement, count, sub)
    case None => None
    case Some(res) => Some((res.0, res.1.(lineOffset := offsets.lineOffset + res.1.lineOffset)))
  }

  /**
   * For a span inside the file, the accumulated regex offset also keeps
   * measuring the drift from the original line count.
   */
  lemma RegexCumulativeOffsetTracksDrift(original: int, contents: string, start: CoreLocation, end: CoreLocation,
                                         offsets: FileOffsets, pattern: string, replacement: string,
                                         count: int, sub: Substitution)
    requires offsets.lineOffset == |Split(contents, SplitChar)| - original
    requires var sp := MatchContext(start, end, offsets);
      0 <= sp.startLine <= sp.endLine < |Split(contents, SplitChar)|
    requires var r := RegexReplaceCumulative(contents, start, end, offsets, pattern, replacement, count, sub);
      r.Some? && r.value.0.fixedContents != ""
    ensures var r := RegexReplaceCumulative(contents, start, end, offsets, pattern, replacement, count, sub).value;
      r.1.lineOffset == |Split(r.0.fixedContents, SplitChar)| - original
  {
    var lines := Split(contents, SplitChar);
    var sp := MatchContext(start, end, offsets);
    var r := RegexReplace(contents, start, end, offsets, pattern, replacement, count, sub).value;
    var block := r.0.fixedLines;
    var newLines := lines[..sp.startLine] + block + lines[sp.endLine + 1..];
    assert r.0.fixedContents == Join(newLines, SplitChar);
    assert Join([], SplitChar) == "";
    assert |newLines| > 0;
    forall k | 0 <= k < |newLines| ensures SplitChar !in newLines[k] {
      if k < sp.startLine {
        assert newLines[k] == lines[k];
      } else if k < sp.startLine + |block| {
        assert newLines[k] == block[k - sp.startLine];
        assert NoLineBreak(block[k - sp.startLine]);
        assert SplitChar in LineBreaks;
      } else {
        assert newLines[k] == lines[k - |block| + (sp.endLine + 1 - sp.startLine)];
      }
    }
    SplitJoin(newLines, SplitChar);
  }

  /**
   * How an edit updates the stored line offset: `Overwrite`, as the code
   * does, replaces it by the edit's own delta; `Accumulate`, as the offset's
   * purpose requires, adds the delta to it.
   */
  datatype OffsetUpdate = Overwrite | Accumulate

  /** The literal fix under the chosen offset update. */
  function LiteralFix(u: OffsetUpdate, contents: string, start: CoreLocation, end: CoreLocation,
                      offsets: FileOffsets, fix: string): Option<(Fix, FileOffsets)>
  {
    if u == Overwrite then BasicFix(contents, start, end, offsets, fix)
    else BasicFixCumulative(contents, start, end, offsets, fix)
  }

  /** The regex fix under the chosen offset update. */
  function RegexFix(u: OffsetUpdate, contents: string, start: CoreLocation, end: CoreLocation, offsets: FileOffsets,
                    pattern: string, replacement: string, count: int, sub: Substitution): Option<(Fix, FileOffsets)>
  {
    if u == Overwrite then RegexReplace(contents, start, end, offsets, pattern, replacement, count, sub)
    else RegexReplaceCumulative(contents, start, end, offsets, pattern, replacement, count, sub)
  }

  // ---------------------------------------------------------------------------
  // The fix-regex directive
  // ---------------------------------------------------------------------------

  /** Why applying fixes stopped. */
  datatype FixError =
    | UnableToModify(path: string)        // a literal fix could not be read or spliced
    | RegexFieldsRequired                 // fix-regex lacks a truthy regex or replacement
    | CountNotInteger                     // int(count) raised ValueError
    | CountTypeError                      // int(count) raised TypeError, which is not wrapped
    | UnableToRegexModify(path: string)   // a regex fix could not be read or substituted

  /** A fix-regex directive after validation, or the error it raises. */
  datatype Directive = Directive(regex: Json, replacement: Json, count: int) | Rejected(error: FixError)

  const RegexKey: string := "regex"
  const ReplacementKey: string := "replacement"
  const CountKey: string := "count"

  /**
   * Validates a fix-regex directive: `regex` and `replacement` must be
   * present and truthy, and `count`, 0 when absent, must convert with
   * `int(...)`.
   */
  function ReadDirective(d: JsonObject): (r: Directive)
    ensures r.Rejected? && r.error == RegexFieldsRequired <==>
      !Truthy(Get(d, RegexKey)) || !Truthy(Get(d, ReplacementKey))
    ensures CountKey !in d && Truthy(Get(d, RegexKey)) && Truthy(Get(d, ReplacementKey)) ==>
      r == Directive(d[RegexKey], d[ReplacementKey], 0)
    ensures r.Directive? ==>
      && r.regex == d[RegexKey] && r.replacement == d[ReplacementKey]
      && (CountKey in d ==> ToInt(d[CountKey]) == Converted(r.count))
    ensures r.Rejected? && r.error == CountNotInteger <==>
      Truthy(Get(d, RegexKey)) && Truthy(Get(d, ReplacementKey)) && CountKey in d && ToInt(d[CountKey]).ValueError?
  {
    var regex := Get(d, RegexKey);
    var replacement := Get(d, ReplacementKey);
    var count := if CountKey in d then d[CountKey] else JInt(0);
    if !Truthy(regex) || !Truthy(replacement) then Rejected(RegexFieldsRequired)
    else
      match ToInt(count)
      case ValueError => Rejected(CountNotInteger)
      case TypeError => Rejected(CountTypeError)
      case Converted(n) => Directive(regex, replacement, n)
  }

  /**
   * The three ways `fix-regex` is read: accepted exactly when regex and
   * replacement are truthy and the count is absent or converts; the
   * TypeError of `int()`, which the code does not catch, exactly when the
   * count is null, a list or a dict; and no other error. Stated apart from
   * the function so that the many proofs that unfold a step do not carry it.
   */
  lemma ReadDirectiveOutcome(d: JsonObject)
    ensures ReadDirective(d).Directive? <==>
      Truthy(Get(d, RegexKey)) && Truthy(Get(d, ReplacementKey)) && (CountKey !in d || ToInt(d[CountKey]).Converted?)
    ensures ReadDirective(d) == Rejected(CountTypeError) <==>
      Truthy(Get(d, RegexKey)) && Truthy(Get(d, ReplacementKey)) && CountKey in d && ToInt(d[CountKey]).TypeError?
    ensures ReadDirective(d).Rejected? ==>
      ReadDirective(d).error in {RegexFieldsRequired, CountNotInteger, CountTypeError}
  {
  }

  /**
   * A directive whose count is written as a string, as `count: "3"`, is
   * accepted with the integer the string denotes.
   */
  lemma ReadDirectiveStringCount(regex: string, replacement: string, n: int)
    requires regex != "" && replacement != ""
    ensures var d := map[RegexKey := JStr(regex), ReplacementKey := JStr(replacement), CountKey := JStr(IntToDigits(n))];
      ReadDirective(d) == Directive(JStr(regex), JStr(replacement), n)
  {
    ParseIntOfRendered(n);
  }

  // ---------------------------------------------------------------------------
  // Applying all fixes
  // ---------------------------------------------------------------------------

  /**
   * The working tree: file contents by path, as read with universal newlines.
   * A fixed file is stored as the "\n"-joined text the code writes back.
   */
  type FileSystem = map<string, string>

  /**
   * State of the pass: the working tree, the files written so far, the drift
   * state of each written file, and one dry-run preview entry per processed
   * match (`None` when there is no preview).
   */
  datatype FixRun = FixRun(fs: FileSystem, modified: set<string>,
                           offsets: map<string, FileOffsets>, previews: seq<Option<seq<string>>>)

  /** The pass either finishes or stops at the first error; files written before it stay written. */
  datatype FixOutcome = Done(run: FixRun) | Failed(run: FixRun, error: FixError)

  /** The match carries a literal fix (a `None` or "" fix is falsy). */
  predicate HasLiteralFix(m: RuleMatch)
  {
    m.fix.Some? && m.fix.value != ""
  }

  /** The match carries a non-empty fix-regex directive. */
  predicate HasRegexFix(m: RuleMatch)
  {
    m.fixRegex.Some? && |m.fixRegex.value| > 0
  }

  /**
   * The drift state a match is processed with: the file's stored state, or
   * a fresh one starting at the match's line; when the match starts on a
   * line other than the active one, the column offset is reset and the
   * match's line becomes active.
   */
  function OffsetsFor(run: FixRun, m: RuleMatch): (o: FileOffsets)
    ensures o.activeLine == m.start.line
    ensures m.path !in run.offsets ==> o == FileOffsets(0, 0, m.start.line)
    ensures m.path in run.offsets ==> o.lineOffset == run.offsets[m.path].lineOffset
    ensures m.path in run.offsets && run.offsets[m.path].activeLine != m.start.line ==> o.colOffset == 0
    ensures m.path in run.offsets && run.offsets[m.path].activeLine == m.start.line ==> o == run.offsets[m.path]
  {
    var got := if m.path in run.offsets then run.offsets[m.path] else FileOffsets(0, 0, m.start.line);
    if got.activeLine != m.start.line then got.(activeLine := m.start.line, colOffset := 0) else got
  }

  /** Keeps a computed fix: written to disk, or only previewed in a dry run. */
  function Record(run: FixRun, path: string, fix: Fix, offsets: FileOffsets, dryrun: bool): FixRun
  {
    if !dryrun then
      run.(fs := run.fs[path := fix.fixedContents],
           modified := run.modified + {path},
           offsets := run.offsets[path := offsets],
           previews := run.previews + [None])
    else
      run.(previews := run.previews + [Some(fix.fixedLines)])
  }

  /**
   * The run once the match's drift state has been looked up: a stored entry
   * is the object that the lookup mutates, so it takes the active-line
   * update; a fresh entry is not stored.
   */
  function Touch(run: FixRun, m: RuleMatch): (r: FixRun)
    ensures r.fs == run.fs && r.modified == run.modified && r.previews == run.previews
    ensures r.offsets.Keys == run.offsets.Keys
    ensures forall p :: p in run.offsets && p != m.path ==> r.offsets[p] == run.offsets[p]
    ensures m.path in run.offsets ==> r.offsets[m.path] == OffsetsFor(run, m)
  {
    if m.path in run.offsets then run.(offsets := run.offsets[m.path := OffsetsFor(run, m)]) else run
  }

  /**
   * Processes one match, updating line offsets as `u` says. The stored
   * drift object is updated in place, so
   * the active-line reset stays in the map even when the match turns out to
   * carry no fix.
   */
  function Step(run: FixRun, m: RuleMatch, dryrun: bool, sub: Substitution, u: OffsetUpdate): (r: FixOutcome)
  {
    var current := OffsetsFor(run, m);
    var run1 := Touch(run, m);
    if HasLiteralFix(m) then
      if m.path !in run.fs then Failed(run1, UnableToModify(m.path))
      else
        match LiteralFix(u, run.fs[m.path], m.start, m.end, current, m.fix.value)
        case None => Failed(run1, UnableToModify(m.path))
        case Some(res) => Done(Record(run1, m.path, res.0, res.1, dryrun))
    else if HasRegexFix(m) then
      match ReadDirective(m.fixRegex.value)
      case Rejected(e) => Failed(run1, e)
      case Directive(regex, replacement, count) =>
        if !regex.JStr? || !replacement.JStr? || m.path !in run.fs then Failed(run1, UnableToRegexModify(m.path))
        else
          match RegexFix(u, run.fs[m.path], m.start, m.end, current, regex.s, replacement.s, count, sub)
          case None => Failed(run1, UnableToRegexModify(m.path))
          case Some(res) => Done(Record(run1, m.path, res.0, res.1, dryrun))
    else
      Done(run1.(previews := run1.previews + [None]))
  }

  /** A literal fix that applies is recorded with the offsets it computed. */
  lemma StepLiteral(run: FixRun, m: RuleMatch, dryrun: bool, sub: Substitution, u: OffsetUpdate, res: (Fix, FileOffsets))
    requires HasLiteralFix(m) && m.path in run.fs
    requires LiteralFix(u, run.fs[m.path], m.start, m.end, OffsetsFor(run, m), m.fix.value) == Some(res)
    ensures Step(run, m, dryrun, sub, u) == Done(Record(Touch(run, m), m.path, res.0, res.1, dryrun))
  {
  }

  /** Processes matches in order, stopping at the first error. */
  function Apply(run: FixRun, ms: seq<RuleMatch>, dryrun: bool, sub: Substitution, u: OffsetUpdate): (r: FixOutcome)
    decreases |ms|
  {
    if |ms| == 0 then Done(run)
    else
      match Step(run, ms[0], dryrun, sub, u)
      case Failed(r, e) => Failed(r, e)
      case Done(r) => Apply(r, ms[1..], dryrun, sub, u)
  }

  /** Two matches that both apply, one after the other. */
  lemma ApplyTwo(run: FixRun, m1: RuleMatch, m2: RuleMatch, dryrun: bool, sub: Substitution, u: OffsetUpdate, r1: FixRun, r2: FixRun)
    requires Step(run, m1, dryrun, sub, u) == Done(r1) && Step(r1, m2, dryrun, sub, u) == Done(r2)
    ensures Apply(run, [m1, m2], dryrun, sub, u) == Done(r2)
  {
    assert [m1, m2][1..] == [m2];
    assert [m2][1..] == [];
    assert Apply(r1, [m2], dryrun, sub, u) == Apply(r2, [], dryrun, sub, u) == Done(r2);
  }

  /** Three matches that all apply, one after the other. */
  lemma ApplyThree(run: FixRun, m1: RuleMatch, m2: RuleMatch, m3: RuleMatch, dryrun: bool, sub: Substitution, u: OffsetUpdate,
                   r1: FixRun, r2: FixRun, r3: FixRun)
    requires Step(run, m1, dryrun, sub, u) == Done(r1) && Step(r1, m2, dryrun, sub, u) == Done(r2)
    requires Step(r2, m3, dryrun, sub, u) == Done(r3)
    ensures Apply(run, [m1, m2, m3], dryrun, sub, u) == Done(r3)
  {
    assert [m1, m2, m3][1..] == [m2, m3];
    ApplyTwo(r1, m2, m3, dryrun, sub, u, r2, r3);
  }

  /** The matches of all rules, rule by rule. */
  function Flatten(groups: seq<seq<RuleMatch>>): (ms: seq<RuleMatch>)
    decreases |groups|
  {
    if |groups| == 0 then [] else groups[0] + Flatten(groups[1..])
  }

  /** The pass starts with no file written, no drift state and no previews. */
  function Initial(fs: FileSystem): FixRun
  {
    FixRun(fs, {}, map[], [])
  }

  /**
   * `apply_fixes`: every rule's matches, in order, against the working
   * tree; the code as written is `u == Overwrite`.
   */
  function ApplyFixes(fs: FileSystem, groups: seq<seq<RuleMatch>>, dryrun: bool, sub: Substitution,
                      u: OffsetUpdate): FixOutcome
  {
    Apply(Initial(fs), Flatten(groups), dryrun, sub, u)
  }
}
