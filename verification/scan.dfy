/**
 * What `findImageFiles` finds: a depth-first walk over the directory tree in
 * listing order that skips hidden names and `node_modules`, keeps files with
 * an image extension, and records one error for each directory it cannot
 * list.  A name that cannot be stat'ed throws inside the directory's `try`,
 * so the rest of that directory is not visited.
 */
module Scanning {
  import opened Text
  import opened Files
  import opened Disk

  /** The error recorded for a directory whose scan was cut short. */
  function DirectoryError(dir: String, message: String): String
  {
    "Error reading directory " + dir + ": " + message
  }

  /** The state of the walk over one directory: what it found, and whether a stat threw. */
  datatype Walk = Walk(files: seq<FileRecord>, errors: seq<String>, stopped: bool)

  /** The scan of directory `dir`, whose listing is `listing`. */
  function Scan(dir: String, listing: Listing): Walk
    decreases listing
  {
    match listing
    case Unreadable(message) => Walk([], [DirectoryError(dir, message)], true)
    case Entries(entries) => ScanEntries(dir, entries)
  }

  /** The walk over the first `|entries|` names of directory `dir`. */
  function ScanEntries(dir: String, entries: seq<Entry>): Walk
    decreases entries
  {
    if entries == [] then Walk([], [], false)
    else Step(dir, ScanEntries(dir, entries[..|entries| - 1]), entries[|entries| - 1])
  }

  /** One iteration of the loop over a directory's names. */
  function Step(dir: String, w: Walk, e: Entry): Walk
    decreases e
  {
    if w.stopped || IsSkipped(e.name) then w
    else
      match e
      case Unstatable(_, message) => Walk(w.files, w.errors + [DirectoryError(dir, message)], true)
      case Dir(name, listing) =>
        var sub := Scan(JoinPath(dir, name), listing);
        Walk(w.files + sub.files, w.errors + sub.errors, false)
      case File(name, size) =>
        if IsImageName(name) then
          w.(files := w.files + [FileRecord(JoinPath(dir, name), name, size, dir)])
        else w
  }

  lemma ScanEntriesSnoc(dir: String, entries: seq<Entry>, i: nat)
    requires i < |entries|
    ensures ScanEntries(dir, entries[..i + 1]) == Step(dir, ScanEntries(dir, entries[..i]), entries[i])
  {
    assert entries[..i + 1][..i] == entries[..i];
  }

  // ---------------------------------------------------------------------------
  // What the scan reports

  /** A record the scan may produce: an image, not hidden, at its directory joined with its name. */
  predicate IsFound(f: FileRecord)
  {
    IsImageName(f.name) && !IsSkipped(f.name) && f.path == JoinPath(f.dir, f.name)
  }

  /** What the scan produces: image records and directory errors. */
  predicate WellFormed(w: Walk)
  {
    (forall f :: f in w.files ==> IsFound(f))
    && (forall e :: e in w.errors ==> StartsWith(e, "Error reading directory "))
  }

  lemma DirectoryErrorPrefix(dir: String, message: String)
    ensures StartsWith(DirectoryError(dir, message), "Error reading directory ")
  {
    var prefix := "Error reading directory ";
    assert DirectoryError(dir, message)[..|prefix|] == prefix;
  }

  /** Every record found is an image outside hidden and dependency folders; every error names a directory. */
  lemma {:induction false} ScanWellFormed(dir: String, listing: Listing)
    ensures WellFormed(Scan(dir, listing))
    decreases listing
  {
    match listing
    case Unreadable(message) =>
      DirectoryErrorPrefix(dir, message);
    case Entries(entries) =>
      EntriesWellFormed(dir, entries);
  }

  lemma {:induction false} EntriesWellFormed(dir: String, entries: seq<Entry>)
    ensures WellFormed(ScanEntries(dir, entries))
    decreases entries
  {
    if entries != [] {
      EntriesWellFormed(dir, entries[..|entries| - 1]);
      StepWellFormed(dir, ScanEntries(dir, entries[..|entries| - 1]), entries[|entries| - 1]);
    }
  }

  lemma {:induction false} StepWellFormed(dir: String, w: Walk, e: Entry)
    requires WellFormed(w)
    ensures WellFormed(Step(dir, w, e))
    decreases e
  {
    if !w.stopped && !IsSkipped(e.name) {
      match e
      case Unstatable(_, message) =>
        StepUnstatableWellFormed(dir, w, message);
      case Dir(name, listing) =>
        ScanWellFormed(JoinPath(dir, name), listing);
        WellFormedJoin(w, Scan(JoinPath(dir, name), listing), false);
      case File(name, size) =>
        StepFileWellFormed(dir, w, name, size);
    }
  }

  lemma StepUnstatableWellFormed(dir: String, w: Walk, message: String)
    requires WellFormed(w)
    ensures WellFormed(Walk(w.files, w.errors + [DirectoryError(dir, message)], true))
  {
    DirectoryErrorPrefix(dir, message);
  }

  lemma StepFileWellFormed(dir: String, w: Walk, name: String, size: nat)
    requires WellFormed(w) && !IsSkipped(name)
    ensures IsImageName(name) ==> WellFormed(w.(files := w.files + [FileRecord(JoinPath(dir, name), name, size, dir)]))
  {
    if IsImageName(name) {
      var f := FileRecord(JoinPath(dir, name), name, size, dir);
      assert IsFound(f);
      AppendFound(w, f);
    }
  }

  lemma AppendFound(w: Walk, f: FileRecord)
    requires WellFormed(w) && IsFound(f)
    ensures WellFormed(w.(files := w.files + [f]))
  {
    assert forall g :: g in w.files + [f] ==> g in w.files || g == f;
  }

  lemma WellFormedJoin(a: Walk, b: Walk, stopped: bool)
    requires WellFormed(a) && WellFormed(b)
    ensures WellFormed(Walk(a.files + b.files, a.errors + b.errors, stopped))
  {
  }

  // ---------------------------------------------------------------------------
  // When the scan reports errors

  /** Every directory the scan reaches can be listed and every name it looks at can be stat'ed. */
  predicate Clean(listing: Listing)
    decreases listing
  {
    listing.Entries? && CleanEntries(listing.entries)
  }

  predicate CleanEntries(entries: seq<Entry>)
    decreases entries
  {
    forall i :: 0 <= i < |entries| && !IsSkipped(entries[i].name) ==>
      !entries[i].Unstatable? && (entries[i].Dir? ==> Clean(entries[i].listing))
  }

  /** The scan reports an error exactly when the tree holds a failure it reaches. */
  lemma {:induction false} ScanClean(dir: String, listing: Listing)
    ensures Scan(dir, listing).errors == [] <==> Clean(listing)
    decreases listing
  {
    match listing
    case Unreadable(message) =>
    case Entries(entries) =>
      EntriesClean(dir, entries);
  }

  lemma {:induction false} EntriesClean(dir: String, entries: seq<Entry>)
    ensures ScanEntries(dir, entries).stopped ==> ScanEntries(dir, entries).errors != []
    ensures ScanEntries(dir, entries).errors == [] <==> CleanEntries(entries)
    decreases entries
  {
    if entries != [] {
      var front, e := entries[..|entries| - 1], entries[|entries| - 1];
      EntriesClean(dir, front);
      CleanEntriesSnoc(entries);
      if !ScanEntries(dir, front).stopped && !IsSkipped(e.name) && e.Dir? {
        ScanClean(JoinPath(dir, e.name), e.listing);
      }
    }
  }

  lemma CleanEntriesSnoc(entries: seq<Entry>)
    requires entries != []
    ensures var front, e := entries[..|entries| - 1], entries[|entries| - 1];
      CleanEntries(entries) <==>
        CleanEntries(front) && (IsSkipped(e.name) || (!e.Unstatable? && (e.Dir? ==> Clean(e.listing))))
  {
    var front := entries[..|entries| - 1];
    assert forall i :: 0 <= i < |front| ==> front[i] == entries[i];
  }

  // ---------------------------------------------------------------------------
  // A failing stat ends the directory

  /** Once a stat has thrown, the later names of the directory change nothing. */
  lemma {:induction false} StoppedStays(dir: String, entries: seq<Entry>, i: nat)
    requires i <= |entries| && ScanEntries(dir, entries[..i]).stopped
    ensures ScanEntries(dir, entries) == ScanEntries(dir, entries[..i])
    decreases |entries| - i
  {
    if i < |entries| {
      ScanEntriesSnoc(dir, entries, i);
      StoppedStays(dir, entries, i + 1);
    } else {
      assert entries[..i] == entries;
    }
  }

  /** The walk stops exactly when some name it does not skip cannot be stat'ed. */
  lemma {:induction false} StopsAtUnstatable(dir: String, entries: seq<Entry>)
    ensures ScanEntries(dir, entries).stopped <==>
      exists i :: 0 <= i < |entries| && !IsSkipped(entries[i].name) && entries[i].Unstatable?
    decreases entries
  {
    if entries != [] {
      var front, e := entries[..|entries| - 1], entries[|entries| - 1];
      StopsAtUnstatable(dir, front);
      assert forall i :: 0 <= i < |front| ==> front[i] == entries[i];
    }
  }

  /** The first failing stat decides the walk: nothing after it is looked at. */
  lemma ScanEndsAtUnstatable(dir: String, entries: seq<Entry>, i: nat)
    requires i < |entries| && !IsSkipped(entries[i].name) && entries[i].Unstatable?
    ensures ScanEntries(dir, entries) == ScanEntries(dir, entries[..i + 1])
    ensures ScanEntries(dir, entries).stopped
  {
    ScanEntriesSnoc(dir, entries, i);
    StoppedStays(dir, entries, i + 1);
  }
}
