/**
 * The phases of `organize` as functions of the file system and the report:
 * back up every image found, remove the duplicates, then move each
 * survivor to its new path and rewrite the code that mentions it.  Each
 * phase is a fold over its list, one iteration per element; the methods of
 * the organizer are proved to compute exactly these folds, and the lemmas
 * here say what the folds achieve.
 */
module Steps {
  import opened Wrappers
  import opened Text
  import opened Files
  import opened Disk
  import opened Reporting
  import opened Sequences
  import opened Scanning
  import opened References
  import opened Plan
  import Duplicates

  /** What the organizer cannot change: the tree and the paths on which calls throw. */
  datatype Env = Env(tree: Listing, unreadable: map<String, String>, unwritable: map<String, String>,
                     unremovable: map<String, String>)

  /** What the organizer changes: the files, the code texts and its report. */
  datatype State = State(files: map<String, nat>, texts: map<String, String>, report: Report)

  function BackupError(path: String, message: String): String
  {
    "Error backing up " + path + ": " + message
  }

  function RemoveError(path: String, message: String): String
  {
    "Error removing duplicate " + path + ": " + message
  }

  function RenameError(path: String, message: String): String
  {
    "Error renaming " + path + ": " + message
  }

  /** `path.join(backupDir, file.name)`. */
  function BackupPath(f: FileRecord): String
  {
    JoinPath("images_backup", f.name)
  }

  function AddError(st: State, e: String): State
  {
    st.(report := st.report.(errors := st.report.errors + [e]))
  }

  // ---------------------------------------------------------------------------
  // Backups

  /** The error of backing up `f`, given which files exist. */
  function BackupFailure(env: Env, files: map<String, nat>, f: FileRecord): Option<String>
  {
    CopyError(files, env.unreadable, env.unwritable, f.path, BackupPath(f))
  }

  /** One iteration of the backup loop. */
  function BackUpOne(env: Env, st: State, f: FileRecord): State
  {
    match BackupFailure(env, st.files, f)
    case Some(message) => AddError(st, BackupError(f.path, message))
    case None => st.(files := st.files[BackupPath(f) := st.files[f.path]])
  }

  function BackUpAll(env: Env, st: State, found: seq<FileRecord>): State
  {
    if found == [] then st
    else BackUpOne(env, BackUpAll(env, st, found[..|found| - 1]), found[|found| - 1])
  }

  /** The errors of the backups, each decided by the files that existed before any backup. */
  function BackupErrors(env: Env, files: map<String, nat>, found: seq<FileRecord>): seq<String>
  {
    if found == [] then []
    else
      var f := found[|found| - 1];
      BackupErrors(env, files, found[..|found| - 1])
      + match BackupFailure(env, files, f)
        case Some(message) => [BackupError(f.path, message)]
        case None => []
  }

  /** The backup paths written: those of the files whose copy succeeds. */
  function BackupTargets(env: Env, files: map<String, nat>, found: seq<FileRecord>): seq<String>
  {
    if found == [] then []
    else
      var f := found[|found| - 1];
      BackupTargets(env, files, found[..|found| - 1])
      + if BackupFailure(env, files, f).None? then [BackupPath(f)] else []
  }

  /** Whether the backup of an existing file fails does not depend on the other files. */
  lemma BackupFailureOfPresent(env: Env, files: map<String, nat>, more: map<String, nat>, f: FileRecord)
    requires f.path in files && f.path in more
    ensures BackupFailure(env, more, f) == BackupFailure(env, files, f)
  {
  }

  /**
   * When every file found exists, the backups fail exactly for the files
   * that cannot be read or whose backup path cannot be written, each with
   * one error, in order; backing up only adds the backup paths of the
   * others, changes no other file, and leaves the code and the rest of the
   * report alone.
   */
  lemma {:induction false} BackUpAllEffect(env: Env, st: State, found: seq<FileRecord>)
    requires forall f :: f in found ==> f.path in st.files
    ensures var after := BackUpAll(env, st, found);
      after.texts == st.texts
      && after.report == st.report.(errors := st.report.errors + BackupErrors(env, st.files, found))
      && (forall p :: p in after.files <==> p in st.files || p in BackupTargets(env, st.files, found))
      && (forall p :: p in st.files && p !in BackupTargets(env, st.files, found) ==> after.files[p] == st.files[p])
  {
    if found != [] {
      var front, f := found[..|found| - 1], found[|found| - 1];
      assert forall g :: g in front ==> g in found;
      BackUpAllEffect(env, st, front);
      var mid := BackUpAll(env, st, front);
      assert f in found;
      BackupFailureOfPresent(env, st.files, mid.files, f);
    }
  }

  /** Backing up touches only the files and the errors, and only appends errors. */
  lemma {:induction false} BackUpAllKeeps(env: Env, st: State, found: seq<FileRecord>)
    ensures var after := BackUpAll(env, st, found);
      after.texts == st.texts && after.report == st.report.(errors := after.report.errors)
      && st.report.errors <= after.report.errors
  {
    if found != [] {
      BackUpAllKeeps(env, st, found[..|found| - 1]);
    }
  }

  // ---------------------------------------------------------------------------
  // Removing the duplicates

  /** One iteration of the removal loop. */
  function RemoveOne(env: Env, st: State, d: FileRecord): State
  {
    match UnlinkError(st.files, env.unremovable, d.path)
    case Some(message) => AddError(st, RemoveError(d.path, message))
    case None =>
      State(st.files - {d.path}, st.texts,
            st.report.(duplicatesRemoved := st.report.duplicatesRemoved + [d.path]))
  }

  function RemoveAll(env: Env, st: State, dups: seq<FileRecord>): State
  {
    if dups == [] then st
    else RemoveOne(env, RemoveAll(env, st, dups[..|dups| - 1]), dups[|dups| - 1])
  }

  /** What a removal loop appended to a list. */
  function Appended<T>(before: seq<T>, after: seq<T>): seq<T>
    requires before <= after
  {
    after[|before|..]
  }

  lemma AppendedSnoc<T>(before: seq<T>, mid: seq<T>, x: T)
    requires before <= mid
    ensures before <= mid + [x]
    ensures Appended(before, mid + [x]) == Appended(before, mid) + [x]
  {
  }

  /**
   * What the removal loop has done so far, starting from `st`: only the
   * files, the removal records and the errors changed; one record or one
   * error per duplicate handled; the records are distinct paths of `dups`,
   * in order; a duplicate's path is recorded exactly when it named an
   * existing file that could be removed; exactly the recorded paths are
   * gone from the files.
   */
  ghost predicate RemovedSoFar(env: Env, st: State, after: State, dups: seq<FileRecord>)
  {
    after.texts == st.texts
    && after.report == st.report.(duplicatesRemoved := after.report.duplicatesRemoved,
                                  errors := after.report.errors)
    && st.report.duplicatesRemoved <= after.report.duplicatesRemoved
    && st.report.errors <= after.report.errors
    && |after.report.duplicatesRemoved| + |after.report.errors|
       == |st.report.duplicatesRemoved| + |st.report.errors| + |dups|
    && var removed := Appended(st.report.duplicatesRemoved, after.report.duplicatesRemoved);
    Subseq(removed, PathsOf(dups))
    && Distinct(removed)
    && (forall p :: p in removed ==> p in st.files && p !in env.unremovable)
    && (forall d :: d in dups ==> (d.path in removed <==> d.path in st.files && d.path !in env.unremovable))
    && (forall p :: p in after.files <==> p in st.files && p !in removed)
    && (forall p :: p in after.files ==> after.files[p] == st.files[p])
  }

  /**
   * Each duplicate yields either one removal record or one error; a
   * duplicate's path is recorded, once, exactly when the file existed and
   * could be removed; the records keep the duplicates' order; exactly the
   * recorded paths are gone from the files, and nothing else changes.
   */
  lemma {:induction false} RemoveAllEffect(env: Env, st: State, dups: seq<FileRecord>)
    ensures RemovedSoFar(env, st, RemoveAll(env, st, dups), dups)
  {
    if dups != [] {
      var front, d := dups[..|dups| - 1], dups[|dups| - 1];
      RemoveAllEffect(env, st, front);
      RemoveStep(env, st, RemoveAll(env, st, front), front, d);
      assert dups == front + [d];
    }
  }

  lemma RemoveStep(env: Env, st: State, mid: State, front: seq<FileRecord>, d: FileRecord)
    requires RemovedSoFar(env, st, mid, front)
    ensures RemovedSoFar(env, st, RemoveOne(env, mid, d), front + [d])
  {
    assert PathsOf(front + [d]) == PathsOf(front) + [d.path];
    if UnlinkError(mid.files, env.unremovable, d.path).None? {
      RemoveStepUnlinked(env, st, mid, front, d);
    } else {
      RemoveStepFailed(env, st, mid, front, d);
    }
  }

  lemma RemoveStepUnlinked(env: Env, st: State, mid: State, front: seq<FileRecord>, d: FileRecord)
    requires RemovedSoFar(env, st, mid, front)
    requires UnlinkError(mid.files, env.unremovable, d.path).None?
    requires PathsOf(front + [d]) == PathsOf(front) + [d.path]
    ensures RemovedSoFar(env, st, RemoveOne(env, mid, d), front + [d])
  {
    var removed := Appended(st.report.duplicatesRemoved, mid.report.duplicatesRemoved);
    var after := RemoveOne(env, mid, d);
    assert after.report.duplicatesRemoved == mid.report.duplicatesRemoved + [d.path];
    AppendedSnoc(st.report.duplicatesRemoved, mid.report.duplicatesRemoved, d.path);
    SubseqTake(removed, PathsOf(front), d.path);
    DistinctSnoc(removed, d.path);
    assert forall x :: x in front + [d] <==> x in front || x == d;
  }

  lemma RemoveStepFailed(env: Env, st: State, mid: State, front: seq<FileRecord>, d: FileRecord)
    requires RemovedSoFar(env, st, mid, front)
    requires UnlinkError(mid.files, env.unremovable, d.path).Some?
    requires PathsOf(front + [d]) == PathsOf(front) + [d.path]
    ensures RemovedSoFar(env, st, RemoveOne(env, mid, d), front + [d])
  {
    var removed := Appended(st.report.duplicatesRemoved, mid.report.duplicatesRemoved);
    var after := RemoveOne(env, mid, d);
    assert after == AddError(mid, RemoveError(d.path, UnlinkError(mid.files, env.unremovable, d.path).value));
    SubseqSkip(removed, PathsOf(front), d.path);
    assert forall x :: x in front + [d] <==> x in front || x == d;
  }

  /** The paths among `paths` that name an existing file that may be removed, in order. */
  function Removable(env: Env, files: map<String, nat>, paths: seq<String>): (r: seq<String>)
    ensures forall p :: p in r <==> p in paths && p in files && p !in env.unremovable
  {
    if paths == [] then []
    else
      var last := paths[|paths| - 1];
      assert paths == paths[..|paths| - 1] + [last];
      Removable(env, files, paths[..|paths| - 1]) + (if last in files && last !in env.unremovable then [last] else [])
  }

  /**
   * When no two duplicates share a path, the removal records are exactly
   * the duplicates' paths whose file existed and could be removed, in order.
   */
  lemma {:induction false} RemoveAllExact(env: Env, st: State, dups: seq<FileRecord>)
    requires Distinct(PathsOf(dups))
    ensures RemoveAll(env, st, dups).report.duplicatesRemoved
         == st.report.duplicatesRemoved + Removable(env, st.files, PathsOf(dups))
  {
    if dups != [] {
      var front, d := dups[..|dups| - 1], dups[|dups| - 1];
      assert PathsOf(dups) == PathsOf(front) + [d.path];
      DistinctLast(PathsOf(front), d.path);
      RemoveAllExact(env, st, front);
      RemoveAllEffect(env, st, front);
      var mid := RemoveAll(env, st, front);
      RemovedOnlyDuplicates(env, st, mid, front, d.path);
      RemoveExactStep(env, st, mid, PathsOf(front), d);
    }
  }

  /** A path that is no duplicate's is where it was before the removal loop. */
  lemma RemovedOnlyDuplicates(env: Env, st: State, mid: State, front: seq<FileRecord>, p: String)
    requires RemovedSoFar(env, st, mid, front)
    requires p !in PathsOf(front)
    ensures p in mid.files <==> p in st.files
  {
    SubseqMembers(Appended(st.report.duplicatesRemoved, mid.report.duplicatesRemoved), PathsOf(front));
  }

  lemma RemoveExactStep(env: Env, st: State, mid: State, paths: seq<String>, d: FileRecord)
    requires mid.report.duplicatesRemoved == st.report.duplicatesRemoved + Removable(env, st.files, paths)
    requires d.path in mid.files <==> d.path in st.files
    ensures RemoveOne(env, mid, d).report.duplicatesRemoved
         == st.report.duplicatesRemoved + Removable(env, st.files, paths + [d.path])
  {
    RemovableSnoc(env, st.files, paths, d.path);
    RemoveOneRecords(env, mid, d);
  }

  lemma RemovableSnoc(env: Env, files: map<String, nat>, paths: seq<String>, p: String)
    ensures Removable(env, files, paths + [p])
         == Removable(env, files, paths) + (if p in files && p !in env.unremovable then [p] else [])
  {
    var all := paths + [p];
    assert all[..|all| - 1] == paths;
  }

  /** One iteration records the duplicate's path exactly when the unlink succeeds. */
  lemma RemoveOneRecords(env: Env, st: State, d: FileRecord)
    ensures RemoveOne(env, st, d).report.duplicatesRemoved
         == st.report.duplicatesRemoved + (if d.path in st.files && d.path !in env.unremovable then [d.path] else [])
  {
  }

  // ---------------------------------------------------------------------------
  // Moving the survivors

  function Record(st: State, m: Rename): State
  {
    st.(report := st.report.(renamedFiles := st.report.renamedFiles + [m]))
  }

  /** After the copy and the code rewrite: remove the original unless it is under `images/`, then record. */
  function Finish(env: Env, st: State, m: Rename): State
  {
    if StartsWith(m.from, "images/") then Record(st, m)
    else
      match UnlinkError(st.files, env.unremovable, m.from)
      case Some(message) => AddError(st, RenameError(m.from, message))
      case None => Record(st.(files := st.files - {m.from}), m)
  }

  /** One iteration of the rename loop, for a survivor whose target is `m.to`. */
  function RenameOne(env: Env, st: State, m: Rename): State
  {
    if m.from == m.to then st
    else
      match CopyError(st.files, env.unreadable, env.unwritable, m.from, m.to)
      case Some(message) => AddError(st, RenameError(m.from, message))
      case None =>
        var rw := CodeRewrite(env.tree, st.texts, env.unreadable, env.unwritable, m.from, m.to);
        var report := st.report.(codeUpdates := st.report.codeUpdates + rw.updates,
                                 errors := st.report.errors + rw.errors);
        Finish(env, State(st.files[m.to := st.files[m.from]], rw.texts, report), m)
  }

  function RenameAll(env: Env, st: State, moves: seq<Rename>): State
  {
    if moves == [] then st
    else RenameOne(env, RenameAll(env, st, moves[..|moves| - 1]), moves[|moves| - 1])
  }

  lemma RenameAllSnoc(env: Env, st: State, moves: seq<Rename>, i: nat)
    requires i < |moves|
    ensures RenameAll(env, st, moves[..i + 1]) == RenameOne(env, RenameAll(env, st, moves[..i]), moves[i])
  {
    assert moves[..i + 1][..i] == moves[..i];
  }

  /** A recorded rename whose target exists and whose source is gone unless it lies under `images/`. */
  predicate Moved(files: map<String, nat>, r: Rename)
  {
    StartsWith(r.to, "images/") && r.to in files && (!StartsWith(r.from, "images/") ==> r.from !in files)
  }

  /** What a rename iteration keeps: the earlier renames stay moved, the lists only grow. */
  predicate RenameStep(st: State, after: State, m: Rename)
  {
    after.report.originalFiles == st.report.originalFiles
    && after.report.duplicatesRemoved == st.report.duplicatesRemoved
    && st.report.codeUpdates <= after.report.codeUpdates
    && st.report.errors <= after.report.errors
    && (after.report.renamedFiles == st.report.renamedFiles
        || (m.from != m.to && after.report.renamedFiles == st.report.renamedFiles + [m]))
    && forall r :: r in after.report.renamedFiles ==> Moved(after.files, r)
  }

  /** The last part of an iteration: the target exists, so the rename is recorded unless the unlink fails. */
  lemma FinishEffect(env: Env, st: State, m: Rename)
    requires m.from != m.to && StartsWith(m.to, "images/") && m.to in st.files
    requires forall r :: r in st.report.renamedFiles ==> Moved(st.files, r)
    ensures RenameStep(st, Finish(env, st, m), m)
  {
    if !StartsWith(m.from, "images/") {
      forall r | r in st.report.renamedFiles ensures r.to != m.from {
        StartsWithDiffers(m.from, r.to, "images/");
      }
    }
  }

  /** A copy into `images/` keeps every earlier rename moved. */
  lemma CopyKeepsMoved(files: map<String, nat>, renamed: seq<Rename>, to: String, size: nat)
    requires StartsWith(to, "images/")
    requires forall r :: r in renamed ==> Moved(files, r)
    ensures forall r :: r in renamed ==> Moved(files[to := size], r)
  {
    forall r | r in renamed && !StartsWith(r.from, "images/") ensures r.from != to {
      StartsWithDiffers(r.from, to, "images/");
    }
  }

  /** One iteration keeps the earlier renames moved, records at most its own, and appends to the lists. */
  lemma RenameOneEffect(env: Env, st: State, m: Rename)
    requires StartsWith(m.to, "images/")
    requires forall r :: r in st.report.renamedFiles ==> Moved(st.files, r)
    ensures RenameStep(st, RenameOne(env, st, m), m)
  {
    if m.from != m.to && CopyError(st.files, env.unreadable, env.unwritable, m.from, m.to).None? {
      var rw := CodeRewrite(env.tree, st.texts, env.unreadable, env.unwritable, m.from, m.to);
      var report := st.report.(codeUpdates := st.report.codeUpdates + rw.updates,
                               errors := st.report.errors + rw.errors);
      var copied := st.files[m.to := st.files[m.from]];
      CopyKeepsMoved(st.files, st.report.renamedFiles, m.to, st.files[m.from]);
      FinishEffect(env, State(copied, rw.texts, report), m);
    }
  }

  /** The move `m` succeeds: its path changes, the copy works, and the original is under `images/` or can be removed. */
  predicate MoveSucceeds(env: Env, files: map<String, nat>, m: Rename)
  {
    m.from != m.to && CopyError(files, env.unreadable, env.unwritable, m.from, m.to).None?
    && (StartsWith(m.from, "images/") || m.from !in env.unremovable)
  }

  /**
   * One iteration records its move exactly when the move succeeds. A move
   * that keeps its path changes nothing; a failing copy adds one error and
   * nothing else; once the copy works, the code texts and the code updates
   * are those of the reference rewrite. No file other than the move's source
   * disappears.
   */
  lemma RenameOneRecords(env: Env, st: State, m: Rename)
    ensures RenameOne(env, st, m).report.renamedFiles
         == st.report.renamedFiles + (if MoveSucceeds(env, st.files, m) then [m] else [])
    ensures m.from == m.to ==> RenameOne(env, st, m) == st
    ensures m.from != m.to && CopyError(st.files, env.unreadable, env.unwritable, m.from, m.to).Some? ==>
      RenameOne(env, st, m)
      == AddError(st, RenameError(m.from, CopyError(st.files, env.unreadable, env.unwritable, m.from, m.to).value))
    ensures m.from != m.to && CopyError(st.files, env.unreadable, env.unwritable, m.from, m.to).None? ==>
      var rw := CodeRewrite(env.tree, st.texts, env.unreadable, env.unwritable, m.from, m.to);
      RenameOne(env, st, m).texts == rw.texts
      && RenameOne(env, st, m).report.codeUpdates == st.report.codeUpdates + rw.updates
    ensures forall p :: p in st.files && p != m.from ==> p in RenameOne(env, st, m).files
  {
    if m.from != m.to && CopyError(st.files, env.unreadable, env.unwritable, m.from, m.to).None? {
      var copied := st.files[m.to := st.files[m.from]];
      assert m.from in copied;
    }
  }

  /** A path that is the source of no move is never removed by the rename loop. */
  lemma {:induction false} RenameAllKeepsFiles(env: Env, st: State, moves: seq<Rename>, p: String)
    requires forall m :: m in moves ==> m.from != p
    requires p in st.files
    ensures p in RenameAll(env, st, moves).files
  {
    if moves != [] {
      var front, m := moves[..|moves| - 1], moves[|moves| - 1];
      assert m in moves;
      assert forall x :: x in front ==> x in moves;
      RenameAllKeepsFiles(env, st, front, p);
      RenameOneRecords(env, RenameAll(env, st, front), m);
    }
  }

  /** Nothing stands in the way of the move `m`: its source exists and can be read and removed (or lies under `images/`), its target can be written. */
  predicate CanMove(env: Env, files: map<String, nat>, m: Rename)
  {
    m.from in files && m.from !in env.unreadable && m.to !in env.unwritable
    && (StartsWith(m.from, "images/") || m.from !in env.unremovable)
  }

  /**
   * When no two moves share a source and nothing stands in the way of any
   * of them, the rename loop records every attempted move, in order.
   */
  lemma {:induction false} RenameAllFaultFree(env: Env, st: State, moves: seq<Rename>)
    requires forall i, j :: 0 <= i < j < |moves| ==> moves[i].from != moves[j].from
    requires forall i :: 0 <= i < |moves| ==> CanMove(env, st.files, moves[i])
    ensures RenameAll(env, st, moves).report.renamedFiles == st.report.renamedFiles + Planned(moves)
  {
    if moves != [] {
      var front, m := moves[..|moves| - 1], moves[|moves| - 1];
      SourcesApart(env, st.files, moves);
      RenameAllFaultFree(env, st, front);
      RenameAllKeepsFiles(env, st, front, m.from);
      FaultFreeStep(env, RenameAll(env, st, front), st.report.renamedFiles, front, m);
      assert moves == front + [m];
    }
  }

  lemma SourcesApart(env: Env, files: map<String, nat>, moves: seq<Rename>)
    requires moves != []
    requires forall i, j :: 0 <= i < j < |moves| ==> moves[i].from != moves[j].from
    requires forall i :: 0 <= i < |moves| ==> CanMove(env, files, moves[i])
    ensures var front := moves[..|moves| - 1];
      (forall i, j :: 0 <= i < j < |front| ==> front[i].from != front[j].from)
      && (forall i :: 0 <= i < |front| ==> CanMove(env, files, front[i]))
      && (forall x :: x in front ==> x.from != moves[|moves| - 1].from)
      && CanMove(env, files, moves[|moves| - 1])
  {
    var front := moves[..|moves| - 1];
    assert forall i :: 0 <= i < |front| ==> front[i] == moves[i];
  }

  lemma FaultFreeStep(env: Env, mid: State, base: seq<Rename>, front: seq<Rename>, m: Rename)
    requires mid.report.renamedFiles == base + Planned(front)
    requires CanMove(env, mid.files, m)
    ensures RenameOne(env, mid, m).report.renamedFiles == base + Planned(front + [m])
  {
    var moves := front + [m];
    assert moves[..|moves| - 1] == front;
    RenameOneRecords(env, mid, m);
  }

  lemma StartsWithDiffers(a: String, b: String, prefix: String)
    requires !StartsWith(a, prefix) && StartsWith(b, prefix)
    ensures a != b
  {
  }

  /**
   * Moving the survivors records renames only from the attempted ones, in
   * order; every rename recorded has its target in place and its source
   * removed unless it already lay under `images/`; the report's other lists
   * only grow, and the removal records are untouched.
   */
  lemma {:induction false} RenameAllEffect(env: Env, st: State, moves: seq<Rename>)
    requires forall i :: 0 <= i < |moves| ==> StartsWith(moves[i].to, "images/")
    requires forall r :: r in st.report.renamedFiles ==> Moved(st.files, r)
    ensures var after := RenameAll(env, st, moves);
      after.report.originalFiles == st.report.originalFiles
      && after.report.duplicatesRemoved == st.report.duplicatesRemoved
      && st.report.codeUpdates <= after.report.codeUpdates
      && st.report.errors <= after.report.errors
      && st.report.renamedFiles <= after.report.renamedFiles
      && Subseq(Appended(st.report.renamedFiles, after.report.renamedFiles), Planned(moves))
      && forall r :: r in after.report.renamedFiles ==> Moved(after.files, r)
  {
    if moves != [] {
      var front, m := moves[..|moves| - 1], moves[|moves| - 1];
      RenameAllEffect(env, st, front);
      var mid := RenameAll(env, st, front);
      var renamed := Appended(st.report.renamedFiles, mid.report.renamedFiles);
      assert forall i :: 0 <= i < |front| ==> front[i] == moves[i];
      RenameOneEffect(env, mid, m);
      var after := RenameOne(env, mid, m);
      assert RenameStep(mid, after, m);
      if after.report.renamedFiles == mid.report.renamedFiles {
        assert Appended(st.report.renamedFiles, after.report.renamedFiles) == renamed;
        if m.from != m.to {
          assert Planned(moves) == Planned(front) + [m];
          SubseqSkip(renamed, Planned(front), m);
        } else {
          assert Planned(moves) == Planned(front);
        }
      } else {
        assert Planned(moves) == Planned(front) + [m];
        AppendedSnoc(st.report.renamedFiles, mid.report.renamedFiles, m);
        SubseqTake(renamed, Planned(front), m);
      }
    }
  }

  // ---------------------------------------------------------------------------
  // The whole run

  /** The scan of `.` with its errors appended to the report. */
  function Scanned(env: Env, st: State): State
  {
    st.(report := st.report.(errors := st.report.errors + Scan(".", env.tree).errors))
  }

  /** `organize()`: scan, stop if nothing was found, else back up, remove the duplicates and move the rest. */
  function OrganizeSpec(env: Env, st: State): State
  {
    var found := Scan(".", env.tree).files;
    if found == [] then Scanned(env, st)
    else
      var dups := Duplicates.Duplicates(found);
      var backed := BackUpAll(env, Scanned(env, st), found);
      var cleaned := RemoveAll(env, backed, dups);
      RenameAll(env, cleaned, Moves(Survivors(found, dups)))
  }

  /** When the scan finds no image, no file and no code changes, and only the scan's errors are reported. */
  lemma OrganizeNothingFound(env: Env, st: State)
    requires Scan(".", env.tree).files == []
    ensures OrganizeSpec(env, st).files == st.files && OrganizeSpec(env, st).texts == st.texts
    ensures OrganizeSpec(env, st).report == st.report.(errors := st.report.errors + Scan(".", env.tree).errors)
    ensures Clean(env.tree) ==> OrganizeSpec(env, st).report == st.report
  {
    ScanClean(".", env.tree);
  }

  /** Every survivor of a scan goes to a path under `images/`. */
  lemma MovesIntoImages(found: seq<FileRecord>, dups: seq<FileRecord>)
    requires forall f :: f in found ==> IsFound(f)
    ensures var moves := Moves(Survivors(found, dups));
      forall i :: 0 <= i < |moves| ==> StartsWith(moves[i].to, "images/")
  {
    var survivors := Survivors(found, dups);
    SurvivorsFilter(found, dups);
    forall i | 0 <= i < |survivors| ensures StartsWith(NewPath(survivors[i], i), "images/") {
      assert survivors[i] in survivors;
      NewPathIsPlain(survivors[i], i);
    }
  }

  /** What the phases before the moves leave in the report, for an organizer that starts afresh. */
  lemma {:induction false} CleanedReport(env: Env, st: State)
    requires st.report == EmptyReport && Scan(".", env.tree).files != []
    ensures var found := Scan(".", env.tree).files;
      var dups := Duplicates.Duplicates(found);
      var cleaned := RemoveAll(env, BackUpAll(env, Scanned(env, st), found), dups);
      cleaned.report.originalFiles == [] && cleaned.report.renamedFiles == []
      && Scan(".", env.tree).errors <= cleaned.report.errors
      && Subseq(cleaned.report.duplicatesRemoved, PathsOf(dups))
      && |cleaned.report.duplicatesRemoved| <= |found| - |Duplicates.Sizes(found)|
  {
    var found := Scan(".", env.tree).files;
    var dups := Duplicates.Duplicates(found);
    var scanned := Scanned(env, st);
    var backed := BackUpAll(env, scanned, found);
    BackUpAllKeeps(env, scanned, found);
    RemoveAllEffect(env, backed, dups);
    var cleaned := RemoveAll(env, backed, dups);
    assert Appended(backed.report.duplicatesRemoved, cleaned.report.duplicatesRemoved)
        == cleaned.report.duplicatesRemoved;
    PrefixTrans(scanned.report.errors, backed.report.errors, cleaned.report.errors);
    Duplicates.DuplicatesCount(found);
  }

  /**
   * A run of a fresh organizer never fills the list of original files,
   * removes only duplicates, in order and no more of them than the files
   * minus the distinct sizes, and renames only the survivors it planned to move, in order;
   * no file is both removed and renamed, no rename keeps its path, every
   * renamed file is in place under `images/`, and its source is gone
   * unless it already lay there.  The scan's errors come first.
   */
  lemma OrganizeOutcome(env: Env, st: State)
    requires st.report == EmptyReport
    ensures var found := Scan(".", env.tree).files;
      var dups := Duplicates.Duplicates(found);
      var after := OrganizeSpec(env, st);
      after.report.originalFiles == []
      && Scan(".", env.tree).errors <= after.report.errors
      && Subseq(after.report.duplicatesRemoved, PathsOf(dups))
      && |after.report.duplicatesRemoved| <= |found| - |Duplicates.Sizes(found)|
      && Subseq(after.report.renamedFiles, Planned(Moves(Survivors(found, dups))))
      && (forall r, p :: r in after.report.renamedFiles && p in after.report.duplicatesRemoved ==> r.from != p)
      && (forall r :: r in after.report.renamedFiles ==> r.from != r.to && Moved(after.files, r))
  {
    var found := Scan(".", env.tree).files;
    if found != [] {
      var dups := Duplicates.Duplicates(found);
      var cleaned := RemoveAll(env, BackUpAll(env, Scanned(env, st), found), dups);
      CleanedReport(env, st);
      ScanWellFormed(".", env.tree);
      var moves := Moves(Survivors(found, dups));
      MovesIntoImages(found, dups);
      RenameAllEffect(env, cleaned, moves);
      var after := RenameAll(env, cleaned, moves);
      assert Appended(cleaned.report.renamedFiles, after.report.renamedFiles) == after.report.renamedFiles;
      PrefixTrans(Scan(".", env.tree).errors, cleaned.report.errors, after.report.errors);
      RenamedNeverRemoved(found, dups, after.report.renamedFiles, after.report.duplicatesRemoved);
    }
  }
}
