/**
 * Bookkeeping of the baseline handler over git's machine-readable output:
 * NUL-separated tokenising, the parser of `git diff --name-status -z`, the
 * grouping of `git status --porcelain -z` entries with its cache, and the
 * two checks that refuse to start a baseline scan.
 *
 * Paths are strings: `pathlib.Path` normalisation is not modelled. Whether a
 * path is a symbolic link to a directory is an oracle parameter, and the
 * output of a git command is a parameter (`None` when the command fails).
 */
module Git {
  import opened PySeq
  import opened PyStr

  // ---------------------------------------------------------------------------
  // zsplit
  // ---------------------------------------------------------------------------

  const Nul: char := '\0'

  /** `s.strip(cs)` is empty exactly when every character of `s` is in `cs`. */
  lemma StripCharsEmpty(s: string, cs: set<char>)
    ensures StripChars(s, cs) == "" <==> forall k :: 0 <= k < |s| ==> s[k] in cs
  {
    var i := StripCharsShape(s, cs);
    if StripChars(s, cs) != "" {
      assert s[i] == StripChars(s, cs)[0];
    }
  }

  /**
   * `s.strip(cs)` is the only infix of `s` whose ends are not in `cs` and
   * outside which every character is in `cs`.
   */
  lemma StripCharsUnique(s: string, cs: set<char>, i: nat, n: nat)
    requires i + n <= |s|
    requires forall k :: 0 <= k < i ==> s[k] in cs
    requires forall k :: i + n <= k < |s| ==> s[k] in cs
    requires n > 0 ==> s[i] !in cs && s[i + n - 1] !in cs
    ensures StripChars(s, cs) == s[i..i + n]
  {
    StripCharsEmpty(s, cs);
    var j := StripCharsShape(s, cs);
    var r := StripChars(s, cs);
    if n > 0 {
      assert r != "";
      assert s[j] == r[0] && s[j + |r| - 1] == r[|r| - 1];
    }
  }

  /**
   * `zsplit`: the text between NUL characters, after dropping the NULs at
   * both ends; an empty or all-NUL string has no pieces.
   */
  function ZSplit(s: string): (r: seq<string>)
    ensures r == [] <==> forall k :: 0 <= k < |s| ==> s[k] == Nul
    ensures forall k :: 0 <= k < |r| ==> Nul !in r[k]
    ensures Join(r, Nul) == StripChars(s, {Nul})
  {
    StripCharsEmpty(s, {Nul});
    var t := StripChars(s, {Nul});
    if t != "" then
      JoinSplit(t, Nul);
      Split(t, Nul)
    else []
  }

  /** NUL characters before the first piece or after the last one change nothing. */
  lemma ZSplitIgnoresOuterNul(s: string)
    ensures ZSplit([Nul] + s) == ZSplit(s)
    ensures ZSplit(s + [Nul]) == ZSplit(s)
  {
    var i := StripCharsShape(s, {Nul});
    var r := StripChars(s, {Nul});
    var front := [Nul] + s;
    assert front[i + 1..i + 1 + |r|] == s[i..i + |r|];
    StripCharsUnique(front, {Nul}, i + 1, |r|);
    var back := s + [Nul];
    assert back[i..i + |r|] == s[i..i + |r|];
    StripCharsUnique(back, {Nul}, i, |r|);
  }

  /** A join starts with its first piece and ends with its last. */
  lemma {:induction false} JoinEnds(parts: seq<string>, c: char)
    requires |parts| >= 1
    ensures var s := Join(parts, c);
      && |parts[0]| <= |s| && s[..|parts[0]|] == parts[0]
      && |parts[|parts| - 1]| <= |s| && s[|s| - |parts[|parts| - 1]|..] == parts[|parts| - 1]
    decreases |parts|
  {
    if |parts| > 1 {
      JoinEnds(parts[1..], c);
      var s := Join(parts, c);
      var t := Join(parts[1..], c);
      assert s == parts[0] + [c] + t;
      assert s[..|parts[0]|] == parts[0];
      assert parts[1..][|parts[1..]| - 1] == parts[|parts| - 1];
      assert s[|s| - |parts[|parts| - 1]|..] == t[|t| - |parts[|parts| - 1]|..];
    }
  }

  /**
   * NUL-joining pieces that hold no NUL, the outer two not empty, and
   * splitting again gives the pieces back.
   */
  lemma ZSplitJoin(parts: seq<string>)
    requires |parts| >= 1 && parts[0] != "" && parts[|parts| - 1] != ""
    requires forall k :: 0 <= k < |parts| ==> Nul !in parts[k]
    ensures ZSplit(Join(parts, Nul)) == parts
  {
    var s := Join(parts, Nul);
    JoinEnds(parts, Nul);
    var last := parts[|parts| - 1];
    assert s[0] == parts[0][0];
    assert s[|s| - 1] == last[|last| - 1] by {
      assert s[|s| - |last|..][|last| - 1] == last[|last| - 1];
    }
    StripCharsNoEdge(s, {Nul});
    SplitJoin(parts, Nul);
  }

  // ---------------------------------------------------------------------------
  // The name-status parser
  // ---------------------------------------------------------------------------

  /** Changed paths relative to the base commit, each list in output order. */
  datatype GitStatus = GitStatus(added: seq<string>, modified: seq<string>,
                                 removed: seq<string>, unmerged: seq<string>)

  const EmptyStatus: GitStatus := GitStatus([], [], [], [])

  /** Status codes as git prints them. */
  const Added: string := "A"
  const Deleted: string := "D"
  const Renamed: string := "R"
  const Modified: string := "M"
  const Unmerged: string := "U"
  const Ignored: string := "!"
  const Untracked: string := "?"
  const Unstaged: string := " "

  /** The lists of `a` followed by those of `b`. */
  function Concat(a: GitStatus, b: GitStatus): (r: GitStatus)
    ensures |r.added| + |r.modified| + |r.removed| + |r.unmerged|
      == |a.added| + |a.modified| + |a.removed| + |a.unmerged|
       + |b.added| + |b.modified| + |b.removed| + |b.unmerged|
  {
    GitStatus(a.added + b.added, a.modified + b.modified, a.removed + b.removed, a.unmerged + b.unmerged)
  }

  lemma ConcatAssoc(a: GitStatus, b: GitStatus, c: GitStatus)
    ensures Concat(Concat(a, b), c) == Concat(a, Concat(b, c))
  {
    assert (a.added + b.added) + c.added == a.added + (b.added + c.added);
    assert (a.modified + b.modified) + c.modified == a.modified + (b.modified + c.modified);
    assert (a.removed + b.removed) + c.removed == a.removed + (b.removed + c.removed);
    assert (a.unmerged + b.unmerged) + c.unmerged == a.unmerged + (b.unmerged + c.unmerged);
  }

  /** A rename code is `R` followed by the similarity percentage. */
  predicate IsRename(code: string)
  {
    |code| > 0 && code[..1] == Renamed
  }

  /**
   * The entries the loop `continue`s on: a blank code, an untracked or
   * ignored one, or a path that is a symbolic link to a directory.
   */
  predicate Skipped(code: string, path: string, isSymlinkDir: string -> bool)
  {
    Strip(code) == "" || code == Untracked || code == Ignored || isSymlinkDir(path)
  }

  /** What the loop records for a two-token entry: by exact code, or nothing. */
  function Record(code: string, path: string): (r: GitStatus)
    ensures code == Added <==> r == GitStatus([path], [], [], [])
    ensures code == Modified <==> r == GitStatus([], [path], [], [])
    ensures code == Deleted <==> r == GitStatus([], [], [path], [])
    ensures code == Unmerged <==> r == GitStatus([], [], [], [path])
    ensures code !in {Added, Modified, Deleted, Unmerged} <==> r == EmptyStatus
  {
    if code == Unmerged then GitStatus([], [], [], [path])
    else if code == Added then GitStatus([path], [], [], [])
    else if code == Modified then GitStatus([], [path], [], [])
    else if code == Deleted then GitStatus([], [], [path], [])
    else EmptyStatus
  }

  /**
   * How the parse loop ends: with the four lists, never (a `continue`
   * leaves the token list as it was), or with the IndexError of reading a
   * token past the end.
   */
  datatype ParseOutcome = Parsed(status: GitStatus) | Spins | IndexFault

  /** `a` recorded before whatever the rest of the loop does. */
  function Prepend(a: GitStatus, o: ParseOutcome): (r: ParseOutcome)
    ensures r.Parsed? <==> o.Parsed?
    ensures r.Spins? <==> o.Spins?
  {
    if o.Parsed? then Parsed(Concat(a, o.status)) else o
  }

  lemma PrependPrepend(a: GitStatus, b: GitStatus, o: ParseOutcome)
    ensures Prepend(a, Prepend(b, o)) == Prepend(Concat(a, b), o)
  {
    if o.Parsed? {
      ConcatAssoc(a, b, o.status);
    }
  }

  function PathCount(st: GitStatus): nat
  {
    |st.added| + |st.modified| + |st.removed| + |st.unmerged|
  }

  /** The tokens an entry with this code takes up: a rename carries a second path. */
  function Width(code: string): (w: nat)
    ensures w == 2 || w == 3
    ensures w == 3 <==> IsRename(code)
  {
    if IsRename(code) then 3 else 2
  }

  /** Tokens that begin with a complete entry. */
  predicate HasEntry(tokens: seq<string>)
  {
    |tokens| >= 2 && Width(tokens[0]) <= |tokens|
  }

  /**
   * What the loop records for the entry at the head of `tokens`: a rename's
   * old path as removed and its new path as added, any other code by
   * `Record`.
   */
  function HeadRecord(tokens: seq<string>): (r: GitStatus)
    requires HasEntry(tokens)
    ensures 3 * PathCount(r) <= 2 * Width(tokens[0])
  {
    if IsRename(tokens[0]) then GitStatus([tokens[2]], [], [tokens[1]], [])
    else Record(tokens[0], tokens[1])
  }

  /**
   * The parse loop of `_get_git_status`, as written: it reads the code and
   * the path, spins on the entries it `continue`s on, records the entry and
   * drops its tokens; reading the new path of a rename past the end raises.
   * At most two paths come from every three tokens.
   */
  function ParseNameStatus(tokens: seq<string>, isSymlinkDir: string -> bool): (r: ParseOutcome)
    ensures r.Parsed? ==> 3 * PathCount(r.status) <= 2 * |tokens|
    decreases |tokens|
  {
    if |tokens| == 0 then Parsed(EmptyStatus)
    else if |tokens| == 1 then IndexFault
    else if Skipped(tokens[0], tokens[1], isSymlinkDir) then Spins
    else if !HasEntry(tokens) then IndexFault
    else Prepend(HeadRecord(tokens), ParseNameStatus(tokens[Width(tokens[0])..], isSymlinkDir))
  }

  /** One round of the loop on the mutable lists, as the handler writes it. */
  method RecordEntry(tokens: seq<string>, added: seq<string>, modified: seq<string>,
                     removed: seq<string>, unmerged: seq<string>)
    returns (added': seq<string>, modified': seq<string>, removed': seq<string>, unmerged': seq<string>,
             trim: nat)
    requires |tokens| >= 2 && Strip(tokens[0]) != ""
    ensures HasEntry(tokens) ==>
      && trim == Width(tokens[0])
      && GitStatus(added', modified', removed', unmerged')
         == Concat(GitStatus(added, modified, removed, unmerged), HeadRecord(tokens))
    ensures !HasEntry(tokens) ==> trim == 0
  {
    var code := tokens[0];
    var path := tokens[1];
    added', modified', removed', unmerged' := added, modified, removed, unmerged;
    trim := 2;
    assert code != "";
    if code == Unmerged {
      unmerged' := unmerged' + [path];
    }
    if code[..1] == Renamed {
      removed' := removed' + [path];
      if |tokens| < 3 {
        return added', modified', removed', unmerged', 0;
      }
      added' := added' + [tokens[2]];
      trim := 3;
    }
    if code == Added {
      added' := added' + [path];
    }
    if code == Modified {
      modified' := modified' + [path];
    }
    if code == Deleted {
      removed' := removed' + [path];
    }
  }

  /** The parse loop as the handler runs it, over mutable lists and a shrinking token list. */
  method GetGitStatus(tokens: seq<string>, isSymlinkDir: string -> bool) returns (r: ParseOutcome)
    ensures r == ParseNameStatus(tokens, isSymlinkDir)
  {
    var added, modified, removed, unmerged := [], [], [], [];
    var rest := tokens;
    while rest != []
      invariant ParseNameStatus(tokens, isSymlinkDir)
        == Prepend(GitStatus(added, modified, removed, unmerged), ParseNameStatus(rest, isSymlinkDir))
      decreases |rest|
    {
      if |rest| < 2 {
        return IndexFault;
      }
      if Skipped(rest[0], rest[1], isSymlinkDir) {
        return Spins;
      }
      ghost var before := GitStatus(added, modified, removed, unmerged);
      var trim;
      added, modified, removed, unmerged, trim := RecordEntry(rest, added, modified, removed, unmerged);
      if trim == 0 {
        return IndexFault;
      }
      PrependPrepend(before, HeadRecord(rest), ParseNameStatus(rest[trim..], isSymlinkDir));
      rest := rest[trim..];
    }
    r := Parsed(GitStatus(added, modified, removed, unmerged));
    assert r == Prepend(GitStatus(added, modified, removed, unmerged), Parsed(EmptyStatus));
  }

  // ---------------------------------------------------------------------------
  // The parser against an entry-level description of git's output
  // ---------------------------------------------------------------------------

  /** One line of name-status output: a rename carries the new path too. */
  datatype Entry = Entry(code: string, path: string, newPath: Option<string>)

  predicate WellFormed(e: Entry)
  {
    IsRename(e.code) <==> e.newPath.Some?
  }

  predicate AllWellFormed(es: seq<Entry>)
  {
    forall k :: 0 <= k < |es| ==> WellFormed(es[k])
  }

  /** The tokens git writes for one entry. */
  function EntryTokens(e: Entry): (t: seq<string>)
    ensures |t| >= 2 && t[0] == e.code && t[1] == e.path
  {
    [e.code, e.path] + (if e.newPath.Some? then [e.newPath.value] else [])
  }

  /** The tokens git writes for the entries. */
  function Encode(es: seq<Entry>): (t: seq<string>)
    ensures |t| >= 2 * |es|
  {
    if |es| == 0 then [] else EntryTokens(es[0]) + Encode(es[1..])
  }

  /** The paths one entry contributes to each list. */
  function AddedBy(e: Entry): seq<string>
  {
    if e.newPath.Some? then [e.newPath.value] else if e.code == Added then [e.path] else []
  }

  function ModifiedBy(e: Entry): seq<string>
  {
    if e.newPath.None? && e.code == Modified then [e.path] else []
  }

  function RemovedBy(e: Entry): seq<string>
  {
    if e.newPath.Some? || e.code == Deleted then [e.path] else []
  }

  function UnmergedBy(e: Entry): seq<string>
  {
    if e.newPath.None? && e.code == Unmerged then [e.path] else []
  }

  function EntryStatus(e: Entry): GitStatus
  {
    GitStatus(AddedBy(e), ModifiedBy(e), RemovedBy(e), UnmergedBy(e))
  }

  /**
   * The encoding of a well-formed entry list starts with a complete entry
   * whose record is the entry's contribution, followed by the encoding of
   * the remaining entries.
   */
  lemma EncodeHead(es: seq<Entry>)
    requires |es| > 0 && WellFormed(es[0])
    ensures var t := Encode(es);
      && HasEntry(t) && t[0] == es[0].code && t[1] == es[0].path
      && HeadRecord(t) == EntryStatus(es[0])
      && t[Width(t[0])..] == Encode(es[1..])
      && (AllWellFormed(es) ==> AllWellFormed(es[1..]))
  {
    var e := es[0];
    var t := Encode(es);
    assert t == EntryTokens(e) + Encode(es[1..]);
    assert |EntryTokens(e)| == Width(e.code);
    assert t[Width(e.code)..] == Encode(es[1..]);
    if AllWellFormed(es) {
      forall k | 0 <= k < |es[1..]| ensures WellFormed(es[1..][k]) {
        assert es[1..][k] == es[k + 1];
      }
    }
  }

  /** The concatenation, in entry order, of what `f` gives for each entry. */
  function Collect(es: seq<Entry>, f: Entry -> seq<string>): (r: seq<string>)
    ensures |es| == 0 ==> r == []
  {
    if |es| == 0 then [] else f(es[0]) + Collect(es[1..], f)
  }

  /** A path is collected exactly when some entry contributes it. */
  lemma {:induction false} CollectMembers(es: seq<Entry>, f: Entry -> seq<string>, x: string)
    ensures x in Collect(es, f) <==> exists k :: 0 <= k < |es| && x in f(es[k])
    decreases |es|
  {
    if |es| > 0 {
      CollectMembers(es[1..], f, x);
      if x in Collect(es[1..], f) {
        var k :| 0 <= k < |es[1..]| && x in f(es[1..][k]);
        assert x in f(es[k + 1]);
      }
      if exists k :: 0 <= k < |es| && x in f(es[k]) {
        var k :| 0 <= k < |es| && x in f(es[k]);
        if k > 0 {
          assert x in f(es[1..][k - 1]);
        }
      }
    }
  }

  /** The status the entries describe, one list at a time. */
  function StatusOf(es: seq<Entry>): GitStatus
  {
    GitStatus(Collect(es, AddedBy), Collect(es, ModifiedBy), Collect(es, RemovedBy), Collect(es, UnmergedBy))
  }

  lemma StatusOfCons(es: seq<Entry>)
    requires |es| > 0
    ensures StatusOf(es) == Concat(EntryStatus(es[0]), StatusOf(es[1..]))
  {
  }

  predicate NoneSkipped(es: seq<Entry>, isSymlinkDir: string -> bool)
  {
    forall k :: 0 <= k < |es| ==> !Skipped(es[k].code, es[k].path, isSymlinkDir)
  }

  /**
   * When no entry is one the loop `continue`s on, parsing git's tokens
   * yields the status the entries describe: renames give their old path to
   * `removed` and their new path to `added`, exact `A`/`M`/`D`/`U` codes give
   * their path to the matching list, other codes give nothing, and every
   * list keeps output order.
   */
  lemma {:induction false} ParseEncoded(es: seq<Entry>, isSymlinkDir: string -> bool)
    requires AllWellFormed(es) && NoneSkipped(es, isSymlinkDir)
    ensures ParseNameStatus(Encode(es), isSymlinkDir) == Parsed(StatusOf(es))
    decreases |es|
  {
    if |es| > 0 {
      EncodeHead(es);
      assert NoneSkipped(es[1..], isSymlinkDir) by {
        forall k | 0 <= k < |es[1..]| ensures !Skipped(es[1..][k].code, es[1..][k].path, isSymlinkDir) {
          assert es[1..][k] == es[k + 1];
        }
      }
      ParseEncoded(es[1..], isSymlinkDir);
      StatusOfCons(es);
      assert !Skipped(es[0].code, es[0].path, isSymlinkDir);
    }
  }

  /** For a well-formed entry, only an exact `M` code contributes to `modified`. */
  lemma ModifiedByExactCode(e: Entry, x: string)
    requires WellFormed(e)
    ensures x in ModifiedBy(e) <==> e.code == Modified && e.path == x
  {
    if e.code == Modified {
      assert e.code[..1] == Modified;
    }
  }

  /** A path is listed as modified only for an entry whose code is exactly `M`; a rename never is. */
  lemma ModifiedOnlyFromM(es: seq<Entry>, isSymlinkDir: string -> bool, x: string)
    requires AllWellFormed(es) && NoneSkipped(es, isSymlinkDir)
    ensures ParseNameStatus(Encode(es), isSymlinkDir).Parsed?
    ensures x in ParseNameStatus(Encode(es), isSymlinkDir).status.modified
      <==> exists k :: 0 <= k < |es| && es[k].code == Modified && es[k].path == x
  {
    ParseEncoded(es, isSymlinkDir);
    CollectMembers(es, ModifiedBy, x);
    if x in Collect(es, ModifiedBy) {
      var k :| 0 <= k < |es| && x in ModifiedBy(es[k]);
      ModifiedByExactCode(es[k], x);
    }
    if exists k :: 0 <= k < |es| && es[k].code == Modified && es[k].path == x {
      var k :| 0 <= k < |es| && es[k].code == Modified && es[k].path == x;
      ModifiedByExactCode(es[k], x);
    }
  }

  /**
   * The first entry the loop `continue`s on, after a prefix it parses, makes
   * the loop spin: the parser is total only on outputs with no such entry.
   */
  lemma {:induction false} ParseSpinsOnSkipped(es: seq<Entry>, i: nat, isSymlinkDir: string -> bool)
    requires i < |es| && AllWellFormed(es)
    requires Skipped(es[i].code, es[i].path, isSymlinkDir)
    requires forall k :: 0 <= k < i ==> !Skipped(es[k].code, es[k].path, isSymlinkDir)
    ensures ParseNameStatus(Encode(es), isSymlinkDir) == Spins
    decreases i
  {
    EncodeHead(es);
    if i > 0 {
      forall k | 0 <= k < i - 1 ensures !Skipped(es[1..][k].code, es[1..][k].path, isSymlinkDir) {
        assert es[1..][k] == es[k + 1];
      }
      ParseSpinsOnSkipped(es[1..], i - 1, isSymlinkDir);
      assert !Skipped(es[0].code, es[0].path, isSymlinkDir);
    }
  }

  // ---------------------------------------------------------------------------
  // A parser that skips the entries it does not record
  // ---------------------------------------------------------------------------

  /**
   * The loop with its `continue`s dropping the entry they skip, which the
   * comments around them intend: it always ends.
   */
  function ParseNameStatusSkipping(tokens: seq<string>, isSymlinkDir: string -> bool): (r: ParseOutcome)
    ensures !r.Spins?
    decreases |tokens|
  {
    if |tokens| == 0 then Parsed(EmptyStatus)
    else if |tokens| == 1 then IndexFault
    else if Skipped(tokens[0], tokens[1], isSymlinkDir) then
      ParseNameStatusSkipping(SliceFrom(tokens, Width(tokens[0])), isSymlinkDir)
    else if !HasEntry(tokens) then IndexFault
    else Prepend(HeadRecord(tokens), ParseNameStatusSkipping(tokens[Width(tokens[0])..], isSymlinkDir))
  }

  /** Wherever the loop as written ends, the skipping loop ends the same way. */
  lemma {:induction false} SkippingAgrees(tokens: seq<string>, isSymlinkDir: string -> bool)
    requires !ParseNameStatus(tokens, isSymlinkDir).Spins?
    ensures ParseNameStatusSkipping(tokens, isSymlinkDir) == ParseNameStatus(tokens, isSymlinkDir)
    decreases |tokens|
  {
    if HasEntry(tokens) && !Skipped(tokens[0], tokens[1], isSymlinkDir) {
      SkippingAgrees(tokens[Width(tokens[0])..], isSymlinkDir);
    }
  }

  /** The entries the loop records. */
  function Kept(es: seq<Entry>, isSymlinkDir: string -> bool): (r: seq<Entry>)
    ensures |r| <= |es|
  {
    if |es| == 0 then []
    else (if Skipped(es[0].code, es[0].path, isSymlinkDir) then [] else [es[0]]) + Kept(es[1..], isSymlinkDir)
  }

  /** The skipping loop yields the status of exactly the entries it does not skip. */
  lemma {:induction false} SkippingParsesKept(es: seq<Entry>, isSymlinkDir: string -> bool)
    requires AllWellFormed(es)
    ensures ParseNameStatusSkipping(Encode(es), isSymlinkDir) == Parsed(StatusOf(Kept(es, isSymlinkDir)))
    decreases |es|
  {
    if |es| > 0 {
      var e := es[0];
      EncodeHead(es);
      SkippingParsesKept(es[1..], isSymlinkDir);
      var kept := Kept(es, isSymlinkDir);
      if !Skipped(e.code, e.path, isSymlinkDir) {
        assert kept[0] == e && kept[1..] == Kept(es[1..], isSymlinkDir);
        StatusOfCons(kept);
      } else {
        assert kept == Kept(es[1..], isSymlinkDir);
      }
    }
  }

  /** A staged symbolic link to a directory: the loop as written spins, the skipping one records nothing. */
  lemma SymlinkDirSpins(isSymlinkDir: string -> bool, link: string)
    requires isSymlinkDir(link)
    ensures ParseNameStatus([Added, link], isSymlinkDir) == Spins
    ensures ParseNameStatusSkipping([Added, link], isSymlinkDir) == Parsed(EmptyStatus)
  {
    assert SliceFrom([Added, link], 2) == [];
  }

  // ---------------------------------------------------------------------------
  // Dirty paths: porcelain entries grouped by their first status character
  // ---------------------------------------------------------------------------

  /** Status character (as a one-character string) to the paths with that status. */
  type DirtyMap = map<string, seq<string>>

  /** The status character of a porcelain entry. */
  function Code(line: string): string
    requires line != ""
  {
    line[..1]
  }

  /** The path of a porcelain entry: everything from index 3 on. */
  function PathOf(line: string): string
  {
    SliceFrom(line, 3)
  }

  /**
   * The grouping loop of `_get_dirty_paths_by_status`: each entry is filed
   * under its first character, appended to that bucket. An empty entry makes
   * `line[0]` raise IndexError, shown as `None`.
   */
  function GroupByStatus(entries: seq<string>): (r: Option<DirtyMap>)
    ensures r.Some? <==> forall k :: 0 <= k < |entries| ==> entries[k] != ""
    decreases |entries|
  {
    if |entries| == 0 then Some(map[])
    else
      var line := entries[|entries| - 1];
      match GroupByStatus(entries[..|entries| - 1])
      case None => None
      case Some(m) =>
        if line == "" then None
        else if Code(line) in m then Some(m[Code(line) := m[Code(line)] + [PathOf(line)]])
        else Some(m[Code(line) := [PathOf(line)]])
  }

  /** The paths of the entries with status character `c`, in entry order. */
  function Bucket(entries: seq<string>, c: string): seq<string>
  {
    if |entries| == 0 then []
    else (if entries[0] != "" && Code(entries[0]) == c then [PathOf(entries[0])] else []) + Bucket(entries[1..], c)
  }

  lemma {:induction false} BucketAppend(entries: seq<string>, line: string, c: string)
    ensures Bucket(entries + [line], c)
      == Bucket(entries, c) + (if line != "" && Code(line) == c then [PathOf(line)] else [])
    decreases |entries|
  {
    if |entries| == 0 {
      assert [line][1..] == [];
    } else {
      assert (entries + [line])[1..] == entries[1..] + [line];
      BucketAppend(entries[1..], line, c);
    }
  }

  lemma {:induction false} BucketMembers(entries: seq<string>, c: string)
    ensures Bucket(entries, c) != [] <==> exists k :: 0 <= k < |entries| && entries[k] != "" && Code(entries[k]) == c
    decreases |entries|
  {
    if |entries| > 0 {
      BucketMembers(entries[1..], c);
      if exists k :: 0 <= k < |entries| && entries[k] != "" && Code(entries[k]) == c {
        var k :| 0 <= k < |entries| && entries[k] != "" && Code(entries[k]) == c;
        if k > 0 {
          assert entries[1..][k - 1] == entries[k];
        }
      }
      if Bucket(entries[1..], c) != [] {
        var k :| 0 <= k < |entries[1..]| && entries[1..][k] != "" && Code(entries[1..][k]) == c;
        assert entries[k + 1] == entries[1..][k];
      }
    }
  }

  /**
   * The grouping files every entry under its status character and nothing
   * else: a character is a key exactly when some entry has it, and its
   * bucket lists those entries' paths in order.
   */
  lemma {:induction false} GroupBuckets(entries: seq<string>, c: string)
    requires GroupByStatus(entries).Some?
    ensures var m := GroupByStatus(entries).value;
      && (c in m <==> exists k :: 0 <= k < |entries| && entries[k] != "" && Code(entries[k]) == c)
      && (c in m ==> m[c] == Bucket(entries, c))
    decreases |entries|
  {
    BucketMembers(entries, c);
    if |entries| > 0 {
      var n := |entries| - 1;
      var init := entries[..n];
      var line := entries[n];
      assert entries == init + [line];
      GroupBuckets(init, c);
      BucketAppend(init, line, c);
      BucketMembers(init, c);
      assert forall k :: 0 <= k < n ==> init[k] == entries[k];
    }
  }

  /** Keys are single status characters. */
  lemma {:induction false} GroupKeysAreChars(entries: seq<string>)
    requires GroupByStatus(entries).Some?
    ensures forall c :: c in GroupByStatus(entries).value ==> |c| == 1
    decreases |entries|
  {
    if |entries| > 0 {
      GroupKeysAreChars(entries[..|entries| - 1]);
    }
  }

  /** The outcome of asking for the dirty paths, with the cache it leaves. */
  datatype DirtyRead = Dirty(paths: DirtyMap, cache: Option<DirtyMap>) | StatusFailed | StatusIndexError

  /**
   * `_get_dirty_paths_by_status`: the cached map when there is one (even an
   * empty one); otherwise the grouping of the porcelain output, which is then
   * cached. `porcelain` is `None` when `git status` fails.
   */
  function DirtyPathsByStatus(cache: Option<DirtyMap>, porcelain: Option<string>): (r: DirtyRead)
    ensures cache.Some? ==> r == Dirty(cache.value, cache)
    ensures cache.None? && r.Dirty? ==>
      porcelain.Some? && r.cache == Some(r.paths) && GroupByStatus(ZSplit(porcelain.value)) == Some(r.paths)
    ensures cache.None? && porcelain.Some? ==>
      (r.StatusIndexError? <==> exists k :: 0 <= k < |ZSplit(porcelain.value)| && ZSplit(porcelain.value)[k] == "")
  {
    if cache.Some? then Dirty(cache.value, cache)
    else if porcelain.None? then StatusFailed
    else
      match GroupByStatus(ZSplit(porcelain.value))
      case None => StatusIndexError
      case Some(m) => Dirty(m, Some(m))
  }

  /** Once read, the dirty paths never change: a later call ignores what git would now say. */
  lemma DirtyPathsCached(cache: Option<DirtyMap>, first: Option<string>, later: Option<string>)
    requires DirtyPathsByStatus(cache, first).Dirty?
    ensures var r := DirtyPathsByStatus(cache, first);
      DirtyPathsByStatus(r.cache, later) == r
  {
  }

  // ---------------------------------------------------------------------------
  // The two checks
  // ---------------------------------------------------------------------------

  /** `_abort_on_pending_changes` raises when some status other than untracked is present. */
  predicate HasPendingChanges(m: DirtyMap)
  {
    m.Keys - {Untracked} != {}
  }

  /** The pending-changes check fires exactly when some porcelain entry is not untracked. */
  lemma PendingIffTrackedEntry(entries: seq<string>)
    requires GroupByStatus(entries).Some?
    ensures forall k :: 0 <= k < |entries| ==> entries[k] != ""
    ensures HasPendingChanges(GroupByStatus(entries).value)
      <==> exists k :: 0 <= k < |entries| && Code(entries[k]) != Untracked
  {
    var m := GroupByStatus(entries).value;
    if HasPendingChanges(m) {
      var c :| c in m.Keys - {Untracked};
      GroupBuckets(entries, c);
    }
    if exists k :: 0 <= k < |entries| && Code(entries[k]) != Untracked {
      var k :| 0 <= k < |entries| && Code(entries[k]) != Untracked;
      GroupBuckets(entries, Code(entries[k]));
      assert Code(entries[k]) in m.Keys - {Untracked};
    }
  }

  /**
   * Set elements as Python compares them: the changed paths are `Path`
   * objects and the untracked paths are `str`, and a `Path` never equals a
   * `str`.
   */
  datatype SetKey = PathKey(p: string) | StrKey(s: string)

  function AllChanged(st: GitStatus): seq<string>
  {
    st.added + st.modified + st.removed + st.unmerged
  }

  /** `dirty.get("?", [])`. */
  function UntrackedPaths(m: DirtyMap): seq<string>
  {
    if Untracked in m then m[Untracked] else []
  }

  function ChangedKeys(st: GitStatus): (r: set<SetKey>)
    ensures forall k :: k in r ==> k.PathKey?
    ensures forall p :: PathKey(p) in r <==> p in AllChanged(st)
  {
    set p | p in AllChanged(st) :: PathKey(p)
  }

  function UntrackedKeys(m: DirtyMap): (r: set<SetKey>)
    ensures forall k :: k in r ==> k.StrKey?
    ensures forall p :: StrKey(p) in r <==> p in UntrackedPaths(m)
  {
    set p | p in UntrackedPaths(m) :: StrKey(p)
  }

  /** `_abort_on_conflicting_untracked_paths` as written: it raises when the two sets meet. */
  predicate ConflictCheckAsWritten(st: GitStatus, m: DirtyMap)
  {
    ChangedKeys(st) * UntrackedKeys(m) != {}
  }

  /** The sets hold different kinds of element, so the check as written never raises. */
  lemma ConflictCheckNeverFires(st: GitStatus, m: DirtyMap)
    ensures !ConflictCheckAsWritten(st, m)
  {
    assert forall k :: k in ChangedKeys(st) ==> k !in UntrackedKeys(m);
  }

  /** The untracked paths that the base commit touches, compared as paths. */
  function OverlappingPaths(st: GitStatus, m: DirtyMap): (r: set<string>)
    ensures forall x :: x in r <==> x in AllChanged(st) && x in UntrackedPaths(m)
  {
    set x | x in AllChanged(st) && x in UntrackedPaths(m)
  }

  /** The check as documented: it raises when an untracked path was changed since the base commit. */
  predicate ConflictCheck(st: GitStatus, m: DirtyMap)
  {
    OverlappingPaths(st, m) != {}
  }

  /** An untracked `a.py` that the base commit adds: the documented check raises, the written one does not. */
  lemma UntrackedConflictMissed()
    ensures var st := GitStatus(["a.py"], [], [], []);
      var m := map[Untracked := ["a.py"]];
      ConflictCheck(st, m) && !ConflictCheckAsWritten(st, m)
  {
    var st := GitStatus(["a.py"], [], [], []);
    var m := map[Untracked := ["a.py"]];
    assert "a.py" in AllChanged(st) && "a.py" in UntrackedPaths(m);
    ConflictCheckNeverFires(st, m);
  }
}
