/**
 * File records produced by the directory scan, and the name and path
 * helpers the organizer applies to them: the extension of a name, the entry
 * filter of the scan, path joining and slash normalisation.
 */
module Files {
  import opened Text

  /** One scanned image file; `path` identifies it. */
  datatype FileRecord = FileRecord(path: String, name: String, size: nat, dir: String)

  /** Extensions (lower case) of the files the scan collects. */
  const ImageExtensions: seq<String> := [".jpg", ".jpeg", ".png", ".gif", ".webp", ".svg"]

  /** Extensions (lower case) of the text files whose references get rewritten. */
  const CodeExtensions: seq<String> := [".html", ".css", ".js", ".php", ".jsx", ".tsx", ".vue"]

  /** The dependency-cache directory the scan never enters. */
  const DependencyDir: String := "node_modules"

  /**
   * The extension of a base name: the suffix from its last '.', unless that
   * '.' is the first character, in which case there is none.
   */
  function ExtName(name: String): (e: String)
    ensures |e| <= |name| && name[|name| - |e|..] == e
    ensures e != [] ==> |e| < |name| && e[0] == '.' && forall i :: 0 < i < |e| ==> e[i] != '.'
    ensures e == [] ==> forall i :: 0 < i < |name| ==> name[i] != '.'
  {
    if |name| <= 1 then []
    else if name[|name| - 1] == '.' then ['.']
    else
      var e := ExtName(name[..|name| - 1]);
      if e == [] then [] else e + [name[|name| - 1]]
  }

  /** `path.basename(name, ext)`: the name without its extension. */
  function Stem(name: String): (stem: String)
    ensures stem + ExtName(name) == name
  {
    name[..|name| - |ExtName(name)|]
  }

  lemma {:induction false} NoDotNoExtension(p: String)
    requires '.' !in p
    ensures ExtName(p) == []
    decreases |p|
  {
    if |p| > 1 {
      NoDotNoExtension(p[..|p| - 1]);
    }
  }

  /**
   * A dot-free, non-empty head followed by an extension-shaped tail has that
   * tail as its extension.
   */
  lemma {:induction false} ExtNameOfSuffix(p: String, e: String)
    requires p != [] && '.' !in p
    requires e == [] || (e[0] == '.' && forall i :: 0 < i < |e| ==> e[i] != '.')
    ensures ExtName(p + e) == e
    decreases |e|
  {
    if e == [] {
      assert p + e == p;
      NoDotNoExtension(p);
    } else if |e| == 1 {
      assert (p + e)[|p + e| - 1] == '.';
    } else {
      var e', c := e[..|e| - 1], e[|e| - 1];
      assert ExtName(p + e') == e' by {
        assert e'[0] == '.';
        ExtNameOfSuffix(p, e');
      }
      assert ExtName(p + e) == e' + [c] by {
        assert p + e == (p + e') + [c];
        ExtNameSnoc(p + e', c);
      }
      assert e' + [c] == e;
    }
  }

  /** A last character other than a dot extends the extension, if there is one. */
  lemma ExtNameSnoc(s: String, c: char)
    requires s != [] && c != '.'
    ensures ExtName(s + [c]) == if ExtName(s) == [] then [] else ExtName(s) + [c]
  {
    assert (s + [c])[..|s + [c]| - 1] == s;
  }

  /** The scan never looks at hidden entries nor into the dependency cache. */
  predicate IsSkipped(item: String)
  {
    StartsWith(item, ".") || item == DependencyDir
  }

  /** The scan keeps a file whose lower-cased extension is an image extension. */
  predicate IsImageName(item: String)
  {
    Lower(ExtName(item)) in ImageExtensions
  }

  /** Reference rewriting looks only at files with a code extension. */
  predicate IsCodeName(item: String)
  {
    Lower(ExtName(item)) in CodeExtensions
  }

  /** `path.join(dir, item)` for a directory and a single name. */
  function JoinPath(dir: String, item: String): (path: String)
  {
    if dir == "." then item else dir + "/" + item
  }

  /** `path.replace(/\\/g, '/')`: every backslash becomes a forward slash. */
  function NormalizeSlashes(path: String): (n: String)
  {
    ReplaceAll(path, "\\", "/")
  }

  /** Normalisation leaves no backslash, changes nothing else, and keeps the length. */
  lemma {:induction false} NormalizeSlashesSpec(path: String)
    ensures |NormalizeSlashes(path)| == |path|
    ensures forall i :: 0 <= i < |path| ==>
      NormalizeSlashes(path)[i] == if path[i] == '\\' then '/' else path[i]
    decreases |path|
  {
    if path != [] {
      NormalizeSlashesSpec(path[1..]);
      var rest := NormalizeSlashes(path[1..]);
      if path[0] == '\\' {
        assert StartsWith(path, "\\");
        assert NormalizeSlashes(path) == "/" + rest;
      } else {
        assert !StartsWith(path, "\\");
        assert NormalizeSlashes(path) == [path[0]] + rest;
      }
    }
  }

  /** A path without backslashes is already normalised. */
  lemma NormalizeSlashesKeeps(path: String)
    requires '\\' !in path
    ensures NormalizeSlashes(path) == path
  {
    NormalizeSlashesSpec(path);
  }

  /** Normalising a normalised path changes nothing. */
  lemma NormalizeSlashesIdempotent(path: String)
    ensures '\\' !in NormalizeSlashes(path)
    ensures NormalizeSlashes(NormalizeSlashes(path)) == NormalizeSlashes(path)
  {
    var n := NormalizeSlashes(path);
    NormalizeSlashesSpec(path);
    assert forall i :: 0 <= i < |n| ==> n[i] != '\\';
    NormalizeSlashesKeeps(n);
  }
}
