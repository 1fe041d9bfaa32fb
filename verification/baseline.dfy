/**
 * The baseline handler: the checks made when it is created, and
 * `baseline_context`, which checks out the base commit for the duration of
 * a scan and then restores the working tree. The context manager is
 * modelled as the sequence of git and filesystem commands it issues; what
 * git and the filesystem answer is a parameter.
 *
 * Two places where the code does not do what its comments say are modelled
 * both ways, selected by a `Variant`: the restore step, which reads the
 * error text of a command whose error stream it never captured, and the
 * untracked-conflict check, which compares `Path` objects with strings
 * (see the Git module). The parse loop is the one as written in both.
 */
module Baseline {
  import opened PySeq
  import opened PyStr
  import opened Git

  /** The code as written, or as its comments intend. */
  datatype Variant = AsWritten | Intended

  // ---------------------------------------------------------------------------
  // Creating the handler
  // ---------------------------------------------------------------------------

  /** What git answers while the handler is created. */
  datatype InitEnv = InitEnv(
    commitExists: bool,            // `git cat-file -e <base>` succeeds
    nameStatus: Option<string>,    // output of `git diff --name-status -z`, `None` when it fails
    porcelain: Option<string>,     // output of `git status --porcelain -z`, `None` when it fails
    isSymlinkDir: string -> bool)

  /** Why creating the handler raised, or that it never returns. */
  datatype InitError =
    | MissingCommit       // the base commit cannot be found
    | CommandFailed       // a git command exited non-zero
    | Diverges            // the parse loop spins
    | IndexError          // a token or status character past the end
    | PendingChanges      // tracked files have uncommitted changes
    | UntrackedConflict   // an untracked file would be overwritten

  /** A handler: base commit, parsed status and the cached dirty paths. */
  datatype Handler = Handler(baseCommit: string, status: GitStatus, dirty: Option<DirtyMap>)

  datatype InitOutcome = Ready(h: Handler) | InitFailed(error: InitError)

  /** The untracked-conflict check of the chosen variant. */
  predicate Conflicts(v: Variant, st: GitStatus, m: DirtyMap)
  {
    if v == AsWritten then ConflictCheckAsWritten(st, m) else ConflictCheck(st, m)
  }

  /** The parse loop of the chosen variant. */
  function Parse(tokens: seq<string>, isSymlinkDir: string -> bool, v: Variant): (r: ParseOutcome)
    ensures v == Intended ==> !r.Spins?
    ensures v == AsWritten ==> r == ParseNameStatus(tokens, isSymlinkDir)
  {
    if v == AsWritten then ParseNameStatus(tokens, isSymlinkDir) else ParseNameStatusSkipping(tokens, isSymlinkDir)
  }

  /** The git status the handler reads, or why reading it fails. */
  function ReadStatus(env: InitEnv, v: Variant): (r: Result<GitStatus>)
    ensures r.Ok? <==>
      env.nameStatus.Some? && Parse(ZSplit(env.nameStatus.value), env.isSymlinkDir, v).Parsed?
    ensures r.Ok? ==> r.value == Parse(ZSplit(env.nameStatus.value), env.isSymlinkDir, v).status
    ensures r == Err(Diverges) <==>
      env.nameStatus.Some? && Parse(ZSplit(env.nameStatus.value), env.isSymlinkDir, v).Spins?
  {
    match env.nameStatus
    case None => Err(CommandFailed)
    case Some(out) =>
      match Parse(ZSplit(out), env.isSymlinkDir, v)
      case Parsed(st) => Ok(st)
      case Spins => Err(Diverges)
      case IndexFault => Err(IndexError)
  }

  datatype Result<T> = Ok(value: T) | Err(error: InitError)

  /**
   * The constructor: check the base commit exists, read the status, abort
   * on pending changes, then on untracked files the base commit touches.
   * As written, the last check never stops it; as intended, it stops it
   * exactly when an untracked path is among the changed ones, and reading
   * the status never diverges.
   */
  function HandlerInit(baseCommit: string, env: InitEnv, v: Variant): (r: InitOutcome)
    ensures !env.commitExists ==> r == InitFailed(MissingCommit)
    ensures r.Ready? ==>
      && env.porcelain.Some?
      && GroupByStatus(ZSplit(env.porcelain.value)).Some?
      && ReadStatus(env, v).Ok?
      && r.h == Handler(baseCommit, ReadStatus(env, v).value, GroupByStatus(ZSplit(env.porcelain.value)))
      && !HasPendingChanges(r.h.dirty.value)
    ensures v == AsWritten ==>
      (r.Ready? <==>
        && env.commitExists && ReadStatus(env, v).Ok? && env.porcelain.Some?
        && GroupByStatus(ZSplit(env.porcelain.value)).Some?
        && !HasPendingChanges(GroupByStatus(ZSplit(env.porcelain.value)).value))
    ensures v == Intended && r.Ready? ==> OverlappingPaths(r.h.status, r.h.dirty.value) == {}
    ensures v == Intended ==> r != InitFailed(Diverges)
  {
    if !env.commitExists then InitFailed(MissingCommit)
    else
      match ReadStatus(env, v)
      case Err(e) => InitFailed(e)
      case Ok(st) =>
        match DirtyPathsByStatus(None, env.porcelain)
        case StatusFailed => InitFailed(CommandFailed)
        case StatusIndexError => InitFailed(IndexError)
        case Dirty(m, cache) =>
          if HasPendingChanges(m) then InitFailed(PendingChanges)
          else
            ConflictCheckNeverFires(st, m);
            var m' := DirtyPathsByStatus(cache, env.porcelain).paths;
            if Conflicts(v, st, m') then InitFailed(UntrackedConflict)
            else Ready(Handler(baseCommit, st, cache))
  }

  // ---------------------------------------------------------------------------
  // The baseline context as a command trace
  // ---------------------------------------------------------------------------

  /** The commands `baseline_context` issues, and the scan run inside it. */
  datatype Command =
    | WriteTree                  // `git write-tree`, recording the current index
    | Unlink(path: string)       // deleting a file the base commit does not have
    | CheckoutBase(commit: string)
    | RunBody                    // the scan inside the `with` block
    | RestoreTree(tree: string)  // `git checkout <tree> -- .`
    | GitRm(paths: seq<string>)  // `git rm -f`, for files the base commit still has

  /** What git, the filesystem and the scan answer inside the context. */
  datatype ContextEnv = ContextEnv(
    porcelain: Option<string>,   // read only when the handler has no cached dirty paths
    writeTree: Option<string>,   // output of `git write-tree`, `None` when it fails
    checkoutOk: bool,            // the checkout of the base commit succeeds
    bodyOk: bool,                // the scan returns normally
    restore: Option<string>,     // `None` when the restore succeeds, else the text it writes to stderr
    pathExists: string -> bool)  // which paths exist once the tree is restored

  /** Why the context raised. */
  datatype ContextError =
    | ReabortStatusFailed   // `git status` exited non-zero
    | ReabortIndexError     // an empty porcelain entry
    | ReabortPending
    | ReabortConflict
    | WriteTreeFailed
    | CheckoutFailed
    | BodyRaised
    | RestoreFailed

  /** The commands issued, and the exception the context ends with, if any. */
  datatype ContextRun = ContextRun(trace: seq<Command>, error: Option<ContextError>)

  /** The checks repeated on entry, over the cached dirty paths when there are some. */
  function Reabort(h: Handler, porcelain: Option<string>, v: Variant): (r: Option<ContextError>)
    ensures h.dirty.Some? ==> (r.None? <==> !HasPendingChanges(h.dirty.value) && !Conflicts(v, h.status, h.dirty.value))
  {
    match DirtyPathsByStatus(h.dirty, porcelain)
    case StatusFailed => Some(ReabortStatusFailed)
    case StatusIndexError => Some(ReabortIndexError)
    case Dirty(m, _) =>
      if HasPendingChanges(m) then Some(ReabortPending)
      else if Conflicts(v, h.status, m) then Some(ReabortConflict)
      else None
  }

  /** The removed paths that still exist, in order. */
  function Existing(paths: seq<string>, pathExists: string -> bool): (r: seq<string>)
    ensures |r| <= |paths|
    ensures forall x :: x in r <==> x in paths && pathExists(x)
  {
    if |paths| == 0 then []
    else (if pathExists(paths[0]) then [paths[0]] else []) + Existing(paths[1..], pathExists)
  }

  /** The filter keeps order: it works element by element, left to right. */
  lemma {:induction false} ExistingAppend(a: seq<string>, b: seq<string>, pathExists: string -> bool)
    ensures Existing(a + b, pathExists) == Existing(a, pathExists) + Existing(b, pathExists)
    decreases |a|
  {
    if |a| == 0 {
      assert a + b == b;
    } else {
      assert (a + b)[1..] == a[1..] + b;
      ExistingAppend(a[1..], b, pathExists);
    }
  }

  /** One path is kept exactly when it exists. */
  lemma ExistingSingle(x: string, pathExists: string -> bool)
    ensures Existing([x], pathExists) == (if pathExists(x) then [x] else [])
  {
    assert [x][1..] == [];
  }

  const PathspecMessage: string := "pathspec '.' did not match any file(s) known to git"

  /**
   * The restore failure the code means to let through: git refusing because
   * the base commit deleted every file.
   */
  predicate RestoreTolerated(stderr: string)
  {
    |stderr| >= 2 && Contains(Strip(stderr), PathspecMessage)
  }

  /**
   * Whether the context goes on after the restore checkout. As written, its
   * error stream is not captured, so on failure reading it raises before the
   * message can be inspected; as intended, the total-deletion message is
   * let through.
   */
  predicate Restored(v: Variant, restore: Option<string>)
  {
    restore.None? || (v == Intended && RestoreTolerated(restore.value))
  }

  /** The order the commands must come in. */
  function Rank(c: Command): nat
  {
    match c
    case WriteTree => 0
    case Unlink(_) => 1
    case CheckoutBase(_) => 2
    case RunBody => 3
    case RestoreTree(_) => 4
    case GitRm(_) => 5
  }

  predicate Ordered(t: seq<Command>)
  {
    forall i, j :: 0 <= i < j < |t| ==> Rank(t[i]) <= Rank(t[j])
  }

  function Unlinks(paths: seq<string>): (t: seq<Command>)
    ensures |t| == |paths| && forall k :: 0 <= k < |t| ==> t[k] == Unlink(paths[k])
  {
    seq(|paths|, k requires 0 <= k < |paths| => Unlink(paths[k]))
  }

  /** The commands from `git write-tree` through the base checkout. */
  function Setup(h: Handler): (t: seq<Command>)
    ensures Ordered(t) && |t| == |h.status.added| + 2
    ensures t[0] == WriteTree && t[|t| - 1] == CheckoutBase(h.baseCommit)
    ensures forall k :: 0 <= k < |h.status.added| ==> t[k + 1] == Unlink(h.status.added[k])
  {
    [WriteTree] + Unlinks(h.status.added) + [CheckoutBase(h.baseCommit)]
  }

  /** The commands of the `finally` block. */
  function Cleanup(tree: string, removed: Option<seq<string>>): (t: seq<Command>)
    ensures Ordered(t) && |t| >= 1 && t[0] == RestoreTree(tree)
    ensures |t| == 2 <==> removed.Some?
    ensures removed.Some? ==> t[1] == GitRm(removed.value)
  {
    [RestoreTree(tree)] + (if removed.Some? then [GitRm(removed.value)] else [])
  }

  lemma OrderedAppend(a: seq<Command>, b: seq<Command>)
    requires Ordered(a) && Ordered(b)
    requires |a| > 0 && |b| > 0 ==> Rank(a[|a| - 1]) <= Rank(b[0])
    ensures Ordered(a + b)
  {
    forall i, j | 0 <= i < j < |a + b| ensures Rank((a + b)[i]) <= Rank((a + b)[j]) {
      if i < |a| && j >= |a| {
        assert Rank(a[i]) <= Rank(a[|a| - 1]);
        assert Rank(b[0]) <= Rank(b[j - |a|]);
      }
    }
  }

  /**
   * `baseline_context`: repeat the checks, record the index with
   * `git write-tree`, delete the files the base commit does not have (a
   * missing one is tolerated), check out the base commit, run the scan, and
   * in any case restore the recorded tree and `git rm` the removed files
   * that came back. An exception from the checkout or the scan is raised
   * after the `finally` block, unless that block raises its own.
   */
  function RunContext(h: Handler, env: ContextEnv, v: Variant): (r: ContextRun)
    ensures Ordered(r.trace)
    ensures r.trace != [] ==> r.trace[0] == WriteTree
  {
    match Reabort(h, env.porcelain, v)
    case Some(e) => ContextRun([], Some(e))
    case None =>
      match env.writeTree
      case None => ContextRun([WriteTree], Some(WriteTreeFailed))
      case Some(out) =>
        var tree := Strip(out);
        ContextRun(Recorded(h, env, v, tree), RecordedError(env, v))
  }

  /** The commands issued once `git write-tree` has recorded `tree`. */
  function Recorded(h: Handler, env: ContextEnv, v: Variant, tree: string): (t: seq<Command>)
    ensures |t| >= |h.status.added| + 3 && Ordered(t) && t[0] == WriteTree
  {
    var setup := Setup(h);
    var body := if env.checkoutOk then [RunBody] else [];
    var cleanup := Cleanup(Strip(tree), RemovedAgain(h, env, v));
    OrderedAppend(setup, body);
    OrderedAppend(setup + body, cleanup);
    setup + body + cleanup
  }

  /** The paths handed to `git rm`, when it runs. */
  function RemovedAgain(h: Handler, env: ContextEnv, v: Variant): (r: Option<seq<string>>)
    ensures r.Some? <==> Restored(v, env.restore) && Existing(h.status.removed, env.pathExists) != []
    ensures r.Some? ==> r.value == Existing(h.status.removed, env.pathExists)
  {
    var toRemove := Existing(h.status.removed, env.pathExists);
    if Restored(v, env.restore) && toRemove != [] then Some(toRemove) else None
  }

  /** The deletions come in order, then the base checkout, then the scan exactly when that checkout succeeded. */
  lemma RecordedSetup(h: Handler, env: ContextEnv, v: Variant, tree: string)
    ensures var t := Recorded(h, env, v, tree);
      && (forall k :: 0 <= k < |h.status.added| ==> t[k + 1] == Unlink(h.status.added[k]))
      && t[|h.status.added| + 1] == CheckoutBase(h.baseCommit)
      && (RunBody in t <==> env.checkoutOk)
  {
    var setup := Setup(h);
    var body := if env.checkoutOk then [RunBody] else [];
    var rest := body + Cleanup(Strip(tree), RemovedAgain(h, env, v));
    var t := Recorded(h, env, v, tree);
    assert t == setup + rest;
    forall k | 0 <= k < |h.status.added| ensures t[k + 1] == Unlink(h.status.added[k]) {
      assert t[k + 1] == setup[k + 1];
    }
    assert t[|h.status.added| + 1] == setup[|setup| - 1];
    SetupRanks(h);
    CleanupRanks(Strip(tree), RemovedAgain(h, env, v));
    assert RunBody !in setup;
    assert RunBody in t <==> RunBody in rest;
  }
  /** The trace ends with the restore, followed only by `git rm` when that runs. */
  lemma RecordedCleanup(h: Handler, env: ContextEnv, v: Variant, tree: string)
    ensures var t := Recorded(h, env, v, tree);
      var rm := RemovedAgain(h, env, v);
      && (rm.None? ==> t[|t| - 1] == RestoreTree(Strip(tree)))
      && (rm.Some? ==> t[|t| - 2] == RestoreTree(Strip(tree)) && t[|t| - 1] == GitRm(rm.value))
      && (forall c :: c in t && c.GitRm? ==> rm.Some? && c == GitRm(rm.value))
  {
    var prefix := Setup(h) + if env.checkoutOk then [RunBody] else [];
    var rm := RemovedAgain(h, env, v);
    var cleanup := Cleanup(Strip(tree), rm);
    var t := Recorded(h, env, v, tree);
    assert t == prefix + cleanup;
    if rm.None? {
      assert t[|t| - 1] == cleanup[0];
    } else {
      assert t[|t| - 2] == cleanup[0] && t[|t| - 1] == cleanup[1];
    }
    SetupRanks(h);
    forall c | c in t && c.GitRm? ensures rm.Some? && c == GitRm(rm.value) {
      assert c !in prefix;
      assert c in cleanup;
    }
  }

  /** Every command before the scan ranks below it. */
  lemma SetupRanks(h: Handler)
    ensures forall c :: c in Setup(h) ==> Rank(c) <= 2
  {
    var u := Unlinks(h.status.added);
    assert Setup(h) == [WriteTree] + u + [CheckoutBase(h.baseCommit)];
    forall c | c in u ensures Rank(c) == 1 {
      var k :| 0 <= k < |u| && u[k] == c;
    }
  }

  /** Every command of the `finally` block ranks above the scan. */
  lemma CleanupRanks(tree: string, removed: Option<seq<string>>)
    ensures forall c :: c in Cleanup(tree, removed) ==> Rank(c) >= 4
  {
  }

  /** The exception the context ends with once `git write-tree` has succeeded. */
  function RecordedError(env: ContextEnv, v: Variant): Option<ContextError>
  {
    if !Restored(v, env.restore) then Some(RestoreFailed)
    else if !env.checkoutOk then Some(CheckoutFailed)
    else if !env.bodyOk then Some(BodyRaised)
    else None
  }

  /** When a check repeated on entry fails, nothing is run; when `git write-tree` fails, nothing else is. */
  lemma ContextStopsEarly(h: Handler, env: ContextEnv, v: Variant)
    ensures Reabort(h, env.porcelain, v).Some? ==>
      RunContext(h, env, v) == ContextRun([], Reabort(h, env.porcelain, v))
    ensures Reabort(h, env.porcelain, v).None? && env.writeTree.None? ==>
      RunContext(h, env, v) == ContextRun([WriteTree], Some(WriteTreeFailed))
  {
  }

  /**
   * Once the tree is recorded: the files the base commit lacks are deleted
   * in order, the base commit is checked out, the scan runs only when that
   * checkout succeeded, and the recorded tree is restored, followed at most
   * by `git rm`.
   */
  lemma ContextSetupAndRestore(h: Handler, env: ContextEnv, v: Variant)
    requires Reabort(h, env.porcelain, v).None? && env.writeTree.Some?
    ensures var t := RunContext(h, env, v).trace;
      var restore := RestoreTree(Strip(env.writeTree.value));
      && |t| >= |h.status.added| + 3
      && (forall k :: 0 <= k < |h.status.added| ==> t[k + 1] == Unlink(h.status.added[k]))
      && t[|h.status.added| + 1] == CheckoutBase(h.baseCommit)
      && (RunBody in t <==> env.checkoutOk)
      && (t[|t| - 1] == restore || t[|t| - 2] == restore)
  {
    StripIdempotent(env.writeTree.value);
    RecordedSetup(h, env, v, Strip(env.writeTree.value));
    RecordedCleanup(h, env, v, Strip(env.writeTree.value));
  }

  /**
   * `git rm` runs exactly when the tree was restored (or, as intended, its
   * failure tolerated) and some removed path exists again, and it gets
   * exactly those paths, in order.
   */
  lemma ContextRemovesExisting(h: Handler, env: ContextEnv, v: Variant)
    ensures var t := RunContext(h, env, v).trace;
      && (forall c :: c in t && c.GitRm? ==> c.paths == Existing(h.status.removed, env.pathExists) && c.paths != [])
      && ((exists c :: c in t && c.GitRm?) <==>
           && Reabort(h, env.porcelain, v).None? && env.writeTree.Some?
           && Restored(v, env.restore) && Existing(h.status.removed, env.pathExists) != [])
  {
    if Reabort(h, env.porcelain, v).None? && env.writeTree.Some? {
      RecordedCleanup(h, env, v, Strip(env.writeTree.value));
    }
  }

  /**
   * How the context ends once the base commit was checked out: a failed
   * restore replaces every other exception; otherwise the checkout's or the
   * scan's exception, if any, is raised.
   */
  lemma ContextOutcome(h: Handler, env: ContextEnv, v: Variant)
    requires Reabort(h, env.porcelain, v).None? && env.writeTree.Some?
    ensures RunContext(h, env, v).error ==
      (if !Restored(v, env.restore) then Some(RestoreFailed)
       else if !env.checkoutOk then Some(CheckoutFailed)
       else if !env.bodyOk then Some(BodyRaised)
       else None)
  {
  }

  /**
   * The checks repeated on entry to the context cannot fail for a handler
   * that was created: they read the dirty paths cached by the constructor.
   */
  lemma ReabortPassesAfterInit(baseCommit: string, ienv: InitEnv, v: Variant, h: Handler, porcelain: Option<string>)
    requires HandlerInit(baseCommit, ienv, v) == Ready(h)
    ensures Reabort(h, porcelain, v).None?
  {
    var m := h.dirty.value;
    ConflictCheckNeverFires(h.status, m);
  }

  /** What git writes when the restored tree has no files: the total-deletion message on its own line. */
  const TotalDeletionStderr: string := "error: " + PathspecMessage + "\n"

  lemma TotalDeletionTolerated()
    ensures RestoreTolerated(TotalDeletionStderr)
  {
    var s := TotalDeletionStderr;
    var n := |s| - 1;
    assert s[0] == 'e' && s[n - 1] == 't' && s[n] == '\n';
    StripCharsUnique(s, Whitespace, 0, n);
    assert s[..n][7..7 + |PathspecMessage|] == PathspecMessage;
    assert OccursAt(Strip(s), PathspecMessage, 7);
  }

  /**
   * The restore fails because the base commit deleted every file. As
   * written, the context raises instead of letting this through, and the
   * removed files are never handed to `git rm`; as intended, it goes on and
   * ends as it would have after a successful restore.
   */
  lemma TotalDeletionRestore(h: Handler, env: ContextEnv)
    requires Reabort(h, env.porcelain, AsWritten).None? && Reabort(h, env.porcelain, Intended).None?
    requires env.writeTree.Some? && env.restore == Some(TotalDeletionStderr)
    ensures RunContext(h, env, AsWritten).error == Some(RestoreFailed)
    ensures forall c :: c in RunContext(h, env, AsWritten).trace ==> !c.GitRm?
    ensures RunContext(h, env, Intended).error == RunContext(h, env.(restore := None), Intended).error
    ensures RunContext(h, env, Intended).trace == RunContext(h, env.(restore := None), Intended).trace
  {
    TotalDeletionTolerated();
    ContextRemovesExisting(h, env, AsWritten);
  }
}
