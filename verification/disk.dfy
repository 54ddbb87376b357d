/**
 * The file system the organizer works on, reduced to what its calls can
 * observe: the directory tree that `readdirSync` and `statSync` report, the
 * regular files that `copyFileSync` and `unlinkSync` act on, the contents
 * that `readFileSync` and `writeFileSync` exchange, and the paths on which
 * an operation throws, with the message of the error it throws.
 */
module Disk {
  import opened Wrappers
  import opened Text

  /** One name in a directory listing, as `statSync` describes it. */
  datatype Entry =
    | File(name: String, size: nat)
    | Dir(name: String, listing: Listing)
    | Unstatable(name: String, message: String)   // `statSync` throws

  /** What `readdirSync` returns for a directory, or the message it throws. */
  datatype Listing =
    | Entries(entries: seq<Entry>)
    | Unreadable(message: String)

  /** The names a listing reports, in its order. */
  function Names(entries: seq<Entry>): (names: seq<String>)
    ensures |names| == |entries|
    ensures forall i :: 0 <= i < |entries| ==> names[i] == entries[i].name
  {
    seq(|entries|, i requires 0 <= i < |entries| => entries[i].name)
  }

  /** The message Node gives when a path does not exist. */
  function NoSuchFile(syscall: String, path: String): String
  {
    "ENOENT: no such file or directory, " + syscall + " '" + path + "'"
  }

  /** The error, if any, of copying `src` to `dst`. */
  function CopyError(files: map<String, nat>, unreadable: map<String, String>,
                     unwritable: map<String, String>, src: String, dst: String): Option<String>
  {
    if src in unreadable then Some(unreadable[src])
    else if src !in files then Some(NoSuchFile("copyfile", src + "' -> '" + dst))
    else if dst in unwritable then Some(unwritable[dst])
    else None
  }

  /** The error, if any, of removing `path`. */
  function UnlinkError(files: map<String, nat>, unremovable: map<String, String>, path: String): Option<String>
  {
    if path in unremovable then Some(unremovable[path])
    else if path !in files then Some(NoSuchFile("unlink", path))
    else None
  }

  /** The error, if any, of reading `path` as text. */
  function ReadError(texts: map<String, String>, unreadable: map<String, String>, path: String): Option<String>
  {
    if path in unreadable then Some(unreadable[path])
    else if path !in texts then Some(NoSuchFile("open", path))
    else None
  }

  /** The error, if any, of writing `path`. */
  function WriteError(unwritable: map<String, String>, path: String): Option<String>
  {
    if path in unwritable then Some(unwritable[path]) else None
  }

  class FileSystem {
    /** The tree below `.` as the listing and stat calls report it. */
    const tree: Listing
    /** Paths that cannot be read, written or removed, with the error message. */
    const unreadable: map<String, String>
    const unwritable: map<String, String>
    const unremovable: map<String, String>
    /** The regular files by path, with their sizes in bytes. */
    var files: map<String, nat>
    /** The contents of the text files by path. */
    var texts: map<String, String>

    constructor (tree: Listing, files: map<String, nat>, texts: map<String, String>,
                 unreadable: map<String, String>, unwritable: map<String, String>,
                 unremovable: map<String, String>)
      ensures this.tree == tree && this.files == files && this.texts == texts
      ensures this.unreadable == unreadable && this.unwritable == unwritable
      ensures this.unremovable == unremovable
    {
      this.tree := tree;
      this.files := files;
      this.texts := texts;
      this.unreadable := unreadable;
      this.unwritable := unwritable;
      this.unremovable := unremovable;
    }

    /** `copyFileSync(src, dst)`: on success `dst` holds a file of the size of `src`. */
    method CopyFile(src: String, dst: String) returns (err: Option<String>)
      modifies this`files
      ensures err == CopyError(old(files), unreadable, unwritable, src, dst)
      ensures err.None? ==> src in old(files) && files == old(files)[dst := old(files)[src]]
      ensures err.Some? ==> files == old(files)
    {
      err := CopyError(files, unreadable, unwritable, src, dst);
      if err.None? {
        files := files[dst := files[src]];
      }
    }

    /** `unlinkSync(path)`: on success `path` is gone and nothing else changed. */
    method Unlink(path: String) returns (err: Option<String>)
      modifies this`files
      ensures err == UnlinkError(old(files), unremovable, path)
      ensures err.None? ==> path in old(files) && files == old(files) - {path}
      ensures err.Some? ==> files == old(files)
    {
      err := UnlinkError(files, unremovable, path);
      if err.None? {
        files := files - {path};
      }
    }

    /** `readFileSync(path, 'utf8')`. */
    method ReadText(path: String) returns (content: String, err: Option<String>)
      ensures err == ReadError(texts, unreadable, path)
      ensures err.None? ==> path in texts && content == texts[path]
    {
      err := ReadError(texts, unreadable, path);
      content := if err.None? then texts[path] else [];
    }

    /** `writeFileSync(path, content, 'utf8')`: replaces the whole content. */
    method WriteText(path: String, content: String) returns (err: Option<String>)
      modifies this`texts
      ensures err == WriteError(unwritable, path)
      ensures err.None? ==> texts == old(texts)[path := content]
      ensures err.Some? ==> texts == old(texts)
    {
      err := WriteError(unwritable, path);
      if err.None? {
        texts := texts[path := content];
      }
    }
  }
}
