/**
 * Match records: a finding of one rule in one file, as produced by the
 * analysis engine. Covers the location record and its dictionary form, the
 * `rstrip` converter applied to a literal fix, the line window a match
 * covers and the line before it, and baseline equivalence of two matches.
 *
 * A file is given as the list of lines that iterating over it in text mode
 * yields (each line keeps its terminator), or `None` when it cannot be
 * opened.
 */
module RuleMatch {
  import opened PySeq
  import opened PyStr
  import opened Json

  /** A position reported by the engine: 1-indexed line and column, byte offset. */
  datatype CoreLocation = CoreLocation(line: int, col: int, offset: int)

  const LineKey: string := "line"
  const ColKey: string := "col"
  const OffsetKey: string := "offset"

  /** The dictionary form of a location. */
  function ToDict(loc: CoreLocation): (d: JsonObject)
    ensures d.Keys == {LineKey, ColKey, OffsetKey}
  {
    map[LineKey := JInt(loc.line), ColKey := JInt(loc.col), OffsetKey := JInt(loc.offset)]
  }

  /**
   * Reads a location back from a dictionary. All three keys must be present
   * and hold integers (booleans pass Python's `isinstance(_, int)` check and
   * read as 0 or 1); otherwise the assertion fails, shown as `None`.
   */
  function Parse(raw: JsonObject): (r: Option<CoreLocation>)
    ensures r.Some? <==>
      (LineKey in raw && ColKey in raw && OffsetKey in raw
       && IsInt(raw[LineKey]) && IsInt(raw[ColKey]) && IsInt(raw[OffsetKey]))
    ensures r.Some? ==>
      && r.value.line == IntValue(raw[LineKey])
      && r.value.col == IntValue(raw[ColKey])
      && r.value.offset == IntValue(raw[OffsetKey])
  {
    var line := Get(raw, LineKey);
    var col := Get(raw, ColKey);
    var offset := Get(raw, OffsetKey);
    if IsInt(line) && IsInt(col) && IsInt(offset) then
      Some(CoreLocation(IntValue(line), IntValue(col), IntValue(offset)))
    else None
  }

  /** Parsing the dictionary form of a location gives the location back. */
  lemma ParseToDict(loc: CoreLocation)
    ensures Parse(ToDict(loc)) == Some(loc)
  {
  }

  /** A dictionary holding exactly the three keys, with plain integers, is the form of what it parses to. */
  lemma ToDictParse(raw: JsonObject)
    requires raw.Keys == {LineKey, ColKey, OffsetKey}
    requires raw[LineKey].JInt? && raw[ColKey].JInt? && raw[OffsetKey].JInt?
    ensures Parse(raw).Some? && ToDict(Parse(raw).value) == raw
  {
  }

  /**
   * The converter applied to a literal fix when a match is built:
   * `value.rstrip() if value else None`.
   */
  function RStripFix(value: Option<string>): (r: Option<string>)
    ensures r.None? <==> (value.None? || value.value == "")
    ensures r.Some? ==>
      && |r.value| <= |value.value|
      && r.value == value.value[..|r.value|]
      && (forall k :: |r.value| <= k < |value.value| ==> value.value[k] in Whitespace)
      && (|r.value| > 0 ==> r.value[|r.value| - 1] !in Whitespace)
  {
    if value.Some? && value.value != "" then
      RStripCharsSpec(value.value, Whitespace);
      Some(RStrip(value.value))
    else None
  }

  /**
   * Converting an already converted fix changes nothing, except for a fix
   * made only of whitespace: that one becomes "" and then `None`.
   */
  lemma {:induction false} RStripFixIdempotent(value: Option<string>)
    ensures RStripFix(value).Some? && RStripFix(value).value == "" ==> RStripFix(RStripFix(value)) == None
    ensures !(RStripFix(value).Some? && RStripFix(value).value == "") ==>
      RStripFix(RStripFix(value)) == RStripFix(value)
  {
    if value.Some? && value.value != "" {
      RStripIdempotent(value.value);
    }
  }

  /** A fix of two spaces is the smallest witness that the converter is not idempotent. */
  lemma RStripFixBlankWitness()
    ensures RStripFix(Some("  ")) == Some("")
    ensures RStripFix(RStripFix(Some("  "))) == None
  {
    var s := "  ";
    assert s[1] in Whitespace && s[0] in Whitespace;
    assert RStrip(s) == RStripChars(s[..1], Whitespace);
    assert s[..1][..0] == "";
  }

  // ---------------------------------------------------------------------------
  // The lines a match covers
  // ---------------------------------------------------------------------------

  /**
   * `r` lists, in order, the lines of `lines` whose 0-based index lies in
   * `[lo, hi)`; indices past the end of the file contribute nothing.
   */
  ghost predicate IsWindow(lines: seq<string>, lo: nat, hi: int, r: seq<string>)
  {
    var top := if hi < |lines| then hi else |lines|;
    && |r| == (if top > lo then top - lo else 0)
    && forall k :: 0 <= k < |r| ==> r[k] == lines[lo + k]
  }

  /**
   * The lines of the file a match spans. Start and end lines are 1-indexed
   * and the end line is included. A match at line 0 to line 0 is the empty
   * file and needs no read. Any other start before line 1, or an end line
   * below 0, makes `itertools.islice` raise ValueError; an unreadable file
   * raises too; both are `None`.
   */
  function GetLines(file: Option<seq<string>>, start: CoreLocation, end: CoreLocation): (r: Option<seq<string>>)
    ensures start.line == 0 && end.line == 0 ==> r == Some([])
    ensures !(start.line == 0 && end.line == 0) ==>
      (r.Some? <==> file.Some? && start.line >= 1 && end.line >= 0)
    ensures r.Some? && file.Some? && start.line >= 1 ==>
      IsWindow(file.value, start.line - 1, end.line, r.value)
  {
    var startLine := start.line - 1;
    var endLine := end.line;
    if startLine == -1 && endLine == 0 then Some([])
    else if file.None? then None
    else if startLine < 0 || endLine < 0 then None
    else
      var lines := file.value;
      var lo := if startLine < |lines| then startLine else |lines|;
      var hi := if endLine < |lines| then endLine else |lines|;
      Some(if lo <= hi then lines[lo..hi] else [])
  }

  /**
   * The line just before a match, used to look for a suppression comment.
   * There is none ("") when the match starts on line 1 or before, or when the
   * end line says the file is empty; a file too short to hold it gives "".
   */
  function GetPreviousLine(file: Option<seq<string>>, start: CoreLocation, end: CoreLocation): (r: Option<string>)
    ensures start.line < 2 || end.line <= 0 ==> r == Some("")
    ensures start.line >= 2 && end.line > 0 ==> (r.Some? <==> file.Some?)
  {
    var startLine := start.line - 2;
    var endLine := startLine + 1;
    if startLine < 0 || end.line <= 0 then Some("")
    else if file.None? then None
    else
      var lines := file.value;
      var res := if startLine < |lines| then lines[startLine..endLine] else [];
      Some(if |res| > 0 then res[0] else "")
  }

  /**
   * The previous line is what `GetLines` returns for a one-line match on the
   * line before the match, or "" when the file has no such line.
   */
  lemma PreviousLineIsLineBefore(file: seq<string>, start: CoreLocation, end: CoreLocation)
    requires start.line >= 2 && end.line > 0
    ensures var before := CoreLocation(start.line - 1, 1, 0);
      var w := GetLines(Some(file), before, before);
      && w.Some? && |w.value| <= 1
      && GetPreviousLine(Some(file), start, end) == Some(if |w.value| == 1 then w.value[0] else "")
  {
  }

  // ---------------------------------------------------------------------------
  // Match records
  // ---------------------------------------------------------------------------

  /**
   * A match with the fields the fix and baseline logic read. `lines`,
   * `linesHash` and `previousLine` are derived when the record is built.
   */
  datatype RuleMatch = RuleMatch(
    ruleId: string,
    path: string,
    start: CoreLocation,
    end: CoreLocation,
    fix: Option<string>,
    fixRegex: Option<JsonObject>,
    lines: seq<string>,
    linesHash: string,
    previousLine: string)

  /**
   * Builds a match record the way its constructor does: the fix goes through
   * `RStripFix`, and the derived fields are read from the file. `hash` stands
   * for the hex SHA-256 digest. `None` when reading the file raises.
   */
  function Make(ruleId: string, path: string, start: CoreLocation, end: CoreLocation,
                fix: Option<string>, fixRegex: Option<JsonObject>,
                file: Option<seq<string>>, hash: string -> string): (r: Option<RuleMatch>)
    ensures r.Some? <==> GetLines(file, start, end).Some? && GetPreviousLine(file, start, end).Some?
    ensures r.Some? ==>
      && r.value.ruleId == ruleId && r.value.path == path
      && r.value.start == start && r.value.end == end
      && r.value.fixRegex == fixRegex
      && (r.value.fix.Some? ==> fix.Some? && r.value.fix.value == RStrip(fix.value))
      && (r.value.fix.None? <==> (fix.None? || fix.value == ""))
      && r.value.lines == GetLines(file, start, end).value
      && r.value.linesHash == hash(Join(r.value.lines, '\n'))
      && r.value.previousLine == GetPreviousLine(file, start, end).value
  {
    match GetLines(file, start, end)
    case None => None
    case Some(lines) =>
      match GetPreviousLine(file, start, end)
      case None => None
      case Some(prev) =>
        Some(RuleMatch(ruleId, path, start, end, RStripFix(fix), fixRegex,
                       lines, hash(Join(lines, '\n')), prev))
  }

  /** Two matches report the same finding for baseline comparison. */
  predicate IsBaselineEquivalent(a: RuleMatch, b: RuleMatch)
  {
    && a.ruleId == b.ruleId
    && a.path == b.path
    && a.linesHash == b.linesHash
    && a.lines == b.lines
  }

  /** Baseline equivalence is an equivalence relation that pins rule, path and lines. */
  lemma BaselineEquivalence(a: RuleMatch, b: RuleMatch, c: RuleMatch)
    ensures IsBaselineEquivalent(a, a)
    ensures IsBaselineEquivalent(a, b) ==> IsBaselineEquivalent(b, a)
    ensures IsBaselineEquivalent(a, b) && IsBaselineEquivalent(b, c) ==> IsBaselineEquivalent(a, c)
    ensures IsBaselineEquivalent(a, b) ==> a.ruleId == b.ruleId && a.path == b.path && a.lines == b.lines
  {
  }

  /**
   * For records built with the same digest function, the hash comparison
   * adds nothing: equivalence is equality of rule, path and covered lines.
   */
  lemma BaselineEquivalentOfMade(a: RuleMatch, b: RuleMatch, hash: string -> string,
                                 ra: string, pa: string, sa: CoreLocation, ea: CoreLocation,
                                 fa: Option<string>, xa: Option<JsonObject>, filea: Option<seq<string>>,
                                 rb: string, pb: string, sb: CoreLocation, eb: CoreLocation,
                                 fb: Option<string>, xb: Option<JsonObject>, fileb: Option<seq<string>>)
    requires Make(ra, pa, sa, ea, fa, xa, filea, hash) == Some(a)
    requires Make(rb, pb, sb, eb, fb, xb, fileb, hash) == Some(b)
    ensures IsBaselineEquivalent(a, b) <==> (a.ruleId == b.ruleId && a.path == b.path && a.lines == b.lines)
  {
  }
}
