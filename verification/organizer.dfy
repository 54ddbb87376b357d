/**
 * The `ImageOrganizer` object: its report, and the methods that scan the
 * tree, rewrite the code, organize the images and render the report.  The
 * file system is a `FileSystem` object passed to the methods that touch it;
 * each method is proved to leave the file system and the report exactly as
 * the corresponding fold of module `Steps` says.
 */
module Organizer {
  import opened Wrappers
  import opened Text
  import opened Files
  import opened Naming
  import opened Disk
  import opened Reporting
  import opened Scanning
  import opened References
  import opened Plan
  import opened Steps
  import Duplicates

  /** The parts of a file system the organizer cannot change. */
  function EnvOf(fs: FileSystem): Env
  {
    Env(fs.tree, fs.unreadable, fs.unwritable, fs.unremovable)
  }

  class ImageOrganizer {
    var report: Report

    constructor ()
      ensures report == EmptyReport
    {
      report := EmptyReport;
    }

    /** Appends one error to the report. */
    method PushError(e: String)
      modifies this
      ensures report == old(report).(errors := old(report).errors + [e])
    {
      report := report.(errors := report.errors + [e]);
    }

    /**
     * `findImageFiles(dir)`, where `listing` is what listing `dir` and
     * stat'ing its names report: the image files below `dir` in scan order,
     * with each directory error appended to the report.
     */
    method FindImageFiles(dir: String, listing: Listing) returns (files: seq<FileRecord>)
      modifies this
      ensures files == Scan(dir, listing).files
      ensures report == old(report).(errors := old(report).errors + Scan(dir, listing).errors)
      decreases listing
    {
      files := [];
      match listing
      case Unreadable(message) =>
        PushError(DirectoryError(dir, message));
      case Entries(entries) =>
        var i := 0;
        ghost var w := Walk([], [], false);
        ghost var base := report;
        while i < |entries|
          invariant 0 <= i <= |entries|
          invariant w == ScanEntries(dir, entries[..i]) && !w.stopped
          invariant files == w.files && report == base.(errors := base.errors + w.errors)
        {
          ScanEntriesSnoc(dir, entries, i);
          var stopped;
          files, stopped := VisitItem(dir, entries[i], files, w, base);
          if stopped {
            ScanEndsAtUnstatable(dir, entries, i);
            return;
          }
          w := Step(dir, w, entries[i]);
          i := i + 1;
        }
        assert entries[..i] == entries;
    }

    /** The body of the loop of `findImageFiles`; `stopped` when the stat of `item` throws. */
    method VisitItem(dir: String, item: Entry, files: seq<FileRecord>, ghost w: Walk, ghost base: Report)
      returns (found: seq<FileRecord>, stopped: bool)
      modifies this
      requires !w.stopped && files == w.files && report == base.(errors := base.errors + w.errors)
      ensures var next := Step(dir, w, item);
        found == next.files && stopped == next.stopped && report == base.(errors := base.errors + next.errors)
      ensures stopped ==> !IsSkipped(item.name) && item.Unstatable?
      decreases item
    {
      found, stopped := files, false;
      if !IsSkipped(item.name) {
        var fullPath := JoinPath(dir, item.name);
        match item
        case Unstatable(_, message) =>
          PushError(DirectoryError(dir, message));
          assert base.errors + w.errors + [DirectoryError(dir, message)]
              == base.errors + (w.errors + [DirectoryError(dir, message)]);
          stopped := true;
        case Dir(name, sub) =>
          var below := FindImageFiles(fullPath, sub);
          found := found + below;
          assert base.errors + w.errors + Scan(fullPath, sub).errors
              == base.errors + (w.errors + Scan(fullPath, sub).errors);
        case File(name, size) =>
          if IsImageName(name) {
            found := found + [FileRecord(fullPath, name, size, dir)];
          }
      }
    }

    /**
     * `updateCodeReferences(oldPath, newPath)`: rewrites the code files of
     * `.` that mention the old path and returns one record per rewritten
     * file; read, write and listing errors go to the report.
     */
    method UpdateCodeReferences(fs: FileSystem, oldPath: String, newPath: String) returns (updates: seq<CodeUpdate>)
      modifies this, fs`texts
      ensures var rw := CodeRewrite(fs.tree, old(fs.texts), fs.unreadable, fs.unwritable, oldPath, newPath);
        updates == rw.updates && fs.texts == rw.texts
        && report == old(report).(errors := old(report).errors + rw.errors)
    {
      updates := [];
      match fs.tree
      case Unreadable(message) =>
        PushError(ListingError(message));
      case Entries(entries) =>
        var items := Names(entries);
        ghost var from, to := NormalizeSlashes(oldPath), NormalizeSlashes(newPath);
        ghost var base := report;
        for i := 0 to |items|
          invariant var rw := RewriteItems(items[..i], old(fs.texts), fs.unreadable, fs.unwritable, from, to);
            updates == rw.updates && fs.texts == rw.texts && report == base.(errors := base.errors + rw.errors)
        {
          RewriteItemsSnoc(items, i, old(fs.texts), fs.unreadable, fs.unwritable, from, to);
          updates := UpdateItem(fs, items[i], oldPath, newPath, updates,
                                RewriteItems(items[..i], old(fs.texts), fs.unreadable, fs.unwritable, from, to), base);
        }
        assert items[..|items|] == items;
    }

    /** The body of the loop of `updateCodeReferences`, for the name `item`. */
    method UpdateItem(fs: FileSystem, item: String, oldPath: String, newPath: String, updates: seq<CodeUpdate>,
                      ghost st: Rewriting, ghost base: Report) returns (updated: seq<CodeUpdate>)
      modifies this, fs`texts
      requires fs.texts == st.texts && updates == st.updates && report == base.(errors := base.errors + st.errors)
      ensures var next := RewriteItem(st, fs.unreadable, fs.unwritable, item,
                                      NormalizeSlashes(oldPath), NormalizeSlashes(newPath));
        fs.texts == next.texts && updated == next.updates && report == base.(errors := base.errors + next.errors)
    {
      updated := updates;
      if IsCodeName(item) {
        var content, readError := fs.ReadText(item);
        if readError.Some? {
          PushError(UpdateError(item, readError.value));
          assert base.errors + st.errors + [UpdateError(item, readError.value)]
              == base.errors + (st.errors + [UpdateError(item, readError.value)]);
        } else {
          updated := RewriteFile(fs, item, content, NormalizeSlashes(oldPath), NormalizeSlashes(newPath),
                                 updates, st, base);
        }
      }
    }

    /** The rest of the body of the loop of `updateCodeReferences`, once `item` has been read. */
    method RewriteFile(fs: FileSystem, item: String, content: String, oldPathNormalized: String,
                       newPathNormalized: String, updates: seq<CodeUpdate>, ghost st: Rewriting, ghost base: Report)
      returns (updated: seq<CodeUpdate>)
      modifies this, fs`texts
      requires fs.texts == st.texts && updates == st.updates && report == base.(errors := base.errors + st.errors)
      ensures var next := RewriteContent(st, fs.unwritable, item, content, oldPathNormalized, newPathNormalized);
        fs.texts == next.texts && updated == next.updates && report == base.(errors := base.errors + next.errors)
    {
      updated := updates;
      if Contains(content, oldPathNormalized) {
        var updatedContent := ReplaceAll(content, oldPathNormalized, newPathNormalized);
        var writeError := fs.WriteText(item, updatedContent);
        if writeError.Some? {
          PushError(UpdateError(item, writeError.value));
          assert base.errors + st.errors + [UpdateError(item, writeError.value)]
              == base.errors + (st.errors + [UpdateError(item, writeError.value)]);
        } else {
          updated := updated + [CodeUpdate(item, oldPathNormalized, newPathNormalized)];
        }
      }
    }

    /** The backup loop of `organize`: copies each file found into `images_backup`. */
    method BackUpFiles(fs: FileSystem, allFiles: seq<FileRecord>)
      modifies this, fs`files
      ensures State(fs.files, fs.texts, report)
           == BackUpAll(EnvOf(fs), State(old(fs.files), old(fs.texts), old(report)), allFiles)
    {
      ghost var start := State(fs.files, fs.texts, report);
      for i := 0 to |allFiles|
        invariant State(fs.files, fs.texts, report) == BackUpAll(EnvOf(fs), start, allFiles[..i])
      {
        var file := allFiles[i];
        assert allFiles[..i + 1][..i] == allFiles[..i];
        var backupPath := JoinPath("images_backup", file.name);
        var err := fs.CopyFile(file.path, backupPath);
        if err.Some? {
          PushError(BackupError(file.path, err.value));
        }
      }
      assert allFiles[..|allFiles|] == allFiles;
    }

    /** The removal loop of `organize`: unlinks each duplicate and records its path. */
    method RemoveDuplicates(fs: FileSystem, duplicates: seq<FileRecord>)
      modifies this, fs`files
      ensures State(fs.files, fs.texts, report)
           == RemoveAll(EnvOf(fs), State(old(fs.files), old(fs.texts), old(report)), duplicates)
    {
      ghost var start := State(fs.files, fs.texts, report);
      for i := 0 to |duplicates|
        invariant State(fs.files, fs.texts, report) == RemoveAll(EnvOf(fs), start, duplicates[..i])
      {
        var duplicate := duplicates[i];
        assert duplicates[..i + 1][..i] == duplicates[..i];
        var err := fs.Unlink(duplicate.path);
        if err.Some? {
          PushError(RemoveError(duplicate.path, err.value));
        } else {
          report := report.(duplicatesRemoved := report.duplicatesRemoved + [duplicate.path]);
        }
      }
      assert duplicates[..|duplicates|] == duplicates;
    }

    /** The body of the rename loop of `organize`, for survivor number `index`. */
    method RenameFile(fs: FileSystem, file: FileRecord, index: nat)
      modifies this, fs`files, fs`texts
      ensures State(fs.files, fs.texts, report)
           == RenameOne(EnvOf(fs), State(old(fs.files), old(fs.texts), old(report)),
                        Rename(file.path, NewPath(file, index)))
    {
      var newName := GenerateNewName(file.name, index);
      var newPath := JoinPath("images", newName);
      if file.path != newPath {
        var copyError := fs.CopyFile(file.path, newPath);
        if copyError.Some? {
          PushError(RenameError(file.path, copyError.value));
          return;
        }
        var updates := UpdateCodeReferences(fs, file.path, newPath);
        report := report.(codeUpdates := report.codeUpdates + updates);
        if !StartsWith(file.path, "images/") {
          var unlinkError := fs.Unlink(file.path);
          if unlinkError.Some? {
            PushError(RenameError(file.path, unlinkError.value));
            return;
          }
        }
        report := report.(renamedFiles := report.renamedFiles + [Rename(file.path, newPath)]);
      }
    }

    /** The rename loop of `organize`: each survivor, numbered in order. */
    method RenameFiles(fs: FileSystem, remainingFiles: seq<FileRecord>)
      modifies this, fs`files, fs`texts
      ensures State(fs.files, fs.texts, report)
           == RenameAll(EnvOf(fs), State(old(fs.files), old(fs.texts), old(report)), Moves(remainingFiles))
    {
      ghost var start := State(fs.files, fs.texts, report);
      ghost var moves := Moves(remainingFiles);
      for index := 0 to |remainingFiles|
        invariant State(fs.files, fs.texts, report) == RenameAll(EnvOf(fs), start, moves[..index])
      {
        RenameAllSnoc(EnvOf(fs), start, moves, index);
        RenameFile(fs, remainingFiles[index], index);
      }
      assert moves[..|remainingFiles|] == moves;
    }

    /**
     * `organize()`: scans `.`, and if it found images, backs them up, removes
     * the duplicates and moves the survivors into `images`; returns the report.
     */
    method Organize(fs: FileSystem) returns (result: Report)
      modifies this, fs`files, fs`texts
      ensures State(fs.files, fs.texts, report)
           == OrganizeSpec(EnvOf(fs), State(old(fs.files), old(fs.texts), old(report)))
      ensures result == report
    {
      var allFiles := FindImageFiles(".", fs.tree);
      if |allFiles| == 0 {
        return report;
      }
      BackUpFiles(fs, allFiles);
      var duplicates := Duplicates.FindDuplicates(allFiles);
      RemoveDuplicates(fs, duplicates);
      var remainingFiles := Survivors(allFiles, duplicates);
      RenameFiles(fs, remainingFiles);
      result := report;
    }

    /** `generateReport()`: the report as Markdown; split at newlines, it gives back its lines. */
    function GenerateReport(): (text: String)
      reads this
      ensures SingleLine(report) ==> Split(text, "\n") == ReportLines(report)
    {
      var text := RenderReport(report);
      assert SingleLine(report) ==> Split(text, "\n") == ReportLines(report) by {
        if SingleLine(report) {
          RenderReportSplits(report);
        }
      }
      text
    }
  }
}
