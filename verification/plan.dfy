/**
 * The decisions `organize` takes from the scan alone: which files survive
 * duplicate removal, where each survivor goes, and which renames it
 * therefore attempts.
 */
module Plan {
  import opened Text
  import opened Files
  import opened Naming
  import opened Reporting
  import opened Sequences

  /** The paths of some records, in order. */
  function PathsOf(files: seq<FileRecord>): (paths: seq<String>)
    ensures |paths| == |files|
    ensures forall i :: 0 <= i < |files| ==> paths[i] == files[i].path
  {
    seq(|files|, i requires 0 <= i < |files| => files[i].path)
  }

  /** `remainingFiles`: the files whose path is the path of no duplicate. */
  function Survivors(files: seq<FileRecord>, duplicates: seq<FileRecord>): seq<FileRecord>
  {
    if files == [] then []
    else
      var last := files[|files| - 1];
      Survivors(files[..|files| - 1], duplicates) + (if last.path in PathsOf(duplicates) then [] else [last])
  }

  /** Survivors are exactly the files whose path is no duplicate's path, in scan order. */
  lemma {:induction false} SurvivorsFilter(files: seq<FileRecord>, duplicates: seq<FileRecord>)
    ensures forall f :: f in Survivors(files, duplicates) <==> f in files && f.path !in PathsOf(duplicates)
    ensures Subseq(Survivors(files, duplicates), files)
  {
    if files != [] {
      var front, last := files[..|files| - 1], files[|files| - 1];
      SurvivorsFilter(front, duplicates);
      assert files == front + [last];
      assert forall f :: f in files <==> f in front || f == last;
      var kept := Survivors(front, duplicates);
      if last.path in PathsOf(duplicates) {
        assert Survivors(files, duplicates) == kept;
        SubseqSkip(kept, front, last);
      } else {
        assert Survivors(files, duplicates) == kept + [last];
        SubseqTake(kept, front, last);
      }
    }
  }

  /** `path.join('images', generateNewName(file, index))`. */
  function NewPath(f: FileRecord, index: nat): String
  {
    JoinPath("images", GenerateNewName(f.name, index))
  }

  /** Where each survivor belongs: survivor number `i` goes to `NewPath(survivors[i], i)`. */
  function Moves(survivors: seq<FileRecord>): (moves: seq<Rename>)
    ensures |moves| == |survivors|
  {
    seq(|survivors|, i requires 0 <= i < |survivors| => Rename(survivors[i].path, NewPath(survivors[i], i)))
  }

  /** The renames `organize` attempts: the moves that change a path, in order. */
  function Planned(moves: seq<Rename>): seq<Rename>
  {
    if moves == [] then []
    else
      var m := moves[|moves| - 1];
      Planned(moves[..|moves| - 1]) + (if m.from != m.to then [m] else [])
  }

  /** A rename is attempted exactly for the moves whose target differs from their source, in order. */
  lemma {:induction false} PlannedRenames(moves: seq<Rename>)
    ensures forall r :: r in Planned(moves) <==> r in moves && r.from != r.to
    ensures Subseq(Planned(moves), moves)
  {
    if moves != [] {
      var front, m := moves[..|moves| - 1], moves[|moves| - 1];
      PlannedRenames(front);
      assert moves == front + [m];
      assert forall r :: r in moves <==> r in front || r == m;
      if m.from != m.to {
        assert Planned(moves) == Planned(front) + [m];
        SubseqTake(Planned(front), front, m);
      } else {
        assert Planned(moves) == Planned(front);
        SubseqSkip(Planned(front), front, m);
      }
    }
  }

  // ---------------------------------------------------------------------------
  // The new path

  /** An extension that lower-cases to an image extension holds no `$` and no backslash. */
  lemma ImageExtensionIsPlain(ext: String)
    requires Lower(ext) in ImageExtensions
    ensures '$' !in ext && '\\' !in ext
  {
    var lower := Lower(ext);
    assert forall e :: e in ImageExtensions ==> '$' !in e && '\\' !in e;
    forall i | 0 <= i < |ext| ensures ext[i] != '$' && ext[i] != '\\' {
      assert lower[i] == LowerChar(ext[i]);
      assert lower[i] in lower;
    }
  }

  /** A generated name is a word followed by the original extension. */
  lemma NewNameIsWordAndExtension(name: String, index: nat)
    ensures Word(Stem(GenerateNewName(name, index)))
    ensures ExtName(GenerateNewName(name, index)) == ExtName(name)
  {
    NewNameKeepsExtension(name, index);
    ClassifyIsWord(Lower(Stem(name)), index);
  }

  lemma PlainPath(w: String, ext: String)
    requires Word(w) && '$' !in ext && '\\' !in ext
    ensures var p := "images" + "/" + (w + ext);
      StartsWith(p, "images/") && '$' !in p && '\\' !in p
  {
    WordAvoids(w);
    var p := "images" + "/" + (w + ext);
    assert p == "images/" + w + ext;
    assert p[..7] == "images/";
  }

  /**
   * The target of an image lies in `images/`, keeps the image extension,
   * and holds no backslash and no `$`: normalising it changes nothing, and
   * as a replacement string it has no `$` pattern, so the replace inserts it
   * literally.
   */
  lemma NewPathIsPlain(f: FileRecord, index: nat)
    requires IsImageName(f.name)
    ensures StartsWith(NewPath(f, index), "images/")
    ensures IsImageName(GenerateNewName(f.name, index))
    ensures '$' !in NewPath(f, index) && '\\' !in NewPath(f, index)
    ensures NormalizeSlashes(NewPath(f, index)) == NewPath(f, index)
  {
    var n := GenerateNewName(f.name, index);
    NewNameIsWordAndExtension(f.name, index);
    ImageExtensionIsPlain(ExtName(f.name));
    assert n == Stem(n) + ExtName(n);
    PlainPath(Stem(n), ExtName(n));
    NormalizeSlashesKeeps(NewPath(f, index));
  }

  // ---------------------------------------------------------------------------
  // Removed and renamed files

  /**
   * Renames taken from the plan and paths taken from the duplicates never
   * meet: no file is both removed as a duplicate and renamed, and no rename
   * leaves a file where it was.
   */
  lemma RenamedNeverRemoved(files: seq<FileRecord>, duplicates: seq<FileRecord>,
                            renamed: seq<Rename>, removed: seq<String>)
    requires Subseq(renamed, Planned(Moves(Survivors(files, duplicates))))
    requires Subseq(removed, PathsOf(duplicates))
    ensures forall r, p :: r in renamed && p in removed ==> r.from != p
    ensures forall r :: r in renamed ==> r.from != r.to
  {
    var moves := Moves(Survivors(files, duplicates));
    SubseqMembers(renamed, Planned(moves));
    SubseqMembers(removed, PathsOf(duplicates));
    PlannedRenames(moves);
    MovesAvoidDuplicates(files, duplicates);
    assert forall r :: r in renamed ==> r in moves && r.from != r.to;
    assert forall r :: r in renamed ==> r.from !in PathsOf(duplicates);
  }

  /** No survivor's move starts at the path of a duplicate. */
  lemma MovesAvoidDuplicates(files: seq<FileRecord>, duplicates: seq<FileRecord>)
    ensures forall m :: m in Moves(Survivors(files, duplicates)) ==> m.from !in PathsOf(duplicates)
  {
    var survivors := Survivors(files, duplicates);
    var moves := Moves(survivors);
    SurvivorsFilter(files, duplicates);
    forall m | m in moves ensures m.from !in PathsOf(duplicates) {
      var i :| 0 <= i < |moves| && moves[i] == m;
      assert m.from == survivors[i].path;
      assert survivors[i] in survivors;
    }
  }
}
