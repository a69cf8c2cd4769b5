/**
 * The filename guard and path construction of the secure file reader. The
 * file system is a parameter: which paths are regular files, and what reading
 * a path gives (`None` when the read fails).
 */
module PathTraversal {
  import opened Str
  import opened Wrappers

  const BaseDir := "/var/uploads/"

  /**
   * The guard: no `..`, no `/` and no backslash anywhere in the name; that is,
   * neither separator is one of its characters and no two dots stand side by side.
   */
  predicate IsSafeFilename(filename: string): (safe: bool)
    ensures safe <==>
      && '/' !in filename && '\\' !in filename
      && forall k :: 0 <= k < |filename| - 1 ==> !(filename[k] == '.' && filename[k + 1] == '.')
  {
    ContainsChar(filename, '/');
    ContainsChar(filename, '\\');
    ContainsPair(filename, '.', '.');
    assert "/" == ['/'] && "\\" == ['\\'] && ".." == ['.', '.'];
    !Contains(filename, "..") && !Contains(filename, "/") && !Contains(filename, "\\")
  }

  /** POSIX `os.path.join(a, b)`: an absolute `b` replaces `a`; otherwise a `/` is put between unless `a` ends with one. */
  function JoinPath(a: string, b: string): (path: string)
    ensures StartsWith(b, "/") ==> path == b
    ensures !StartsWith(b, "/") ==> StartsWith(path, a) && |b| <= |path| && path[|path| - |b|..] == b
  {
    if StartsWith(b, "/") then b
    else if a == [] || a[|a| - 1] == '/' then a + b
    else a + "/" + b
  }

  /** The file system as the reader sees it. */
  datatype FileSystem = FileSystem(isFile: string -> bool, read: string -> Option<string>)

  /** How a read ends: one of the two raised errors, the file's text, or `None` after a failed read. */
  datatype ReadOutcome = RaisesValueError | RaisesFileNotFound | Text(text: string) | NoneReturned

  /** The path of an accepted name. */
  function UploadPath(filename: string): string {
    JoinPath(BaseDir, filename)
  }

  /**
   * An unsafe name raises before the file system is consulted; a safe name
   * that is not a regular file under the base raises FileNotFoundError;
   * otherwise the read's text, or `None` when the read fails.
   */
  function ReadFileSecure(filename: string, fs: FileSystem): (r: ReadOutcome)
    ensures r == RaisesValueError <==> !IsSafeFilename(filename)
    ensures IsSafeFilename(filename) ==> (r == RaisesFileNotFound <==> !fs.isFile(BaseDir + filename))
    ensures r.Text? ==> fs.isFile(BaseDir + filename) && fs.read(BaseDir + filename) == Some(r.text)
    ensures r == NoneReturned ==> fs.read(BaseDir + filename).None?
  {
    if !IsSafeFilename(filename) then RaisesValueError
    else
      SafePathInBase(filename);
      var path := UploadPath(filename);
      if !fs.isFile(path) then RaisesFileNotFound
      else match fs.read(path)
        case Some(text) => Text(text)
        case None => NoneReturned
  }

  /**
   * An accepted name is appended to the base directory as it is, and the
   * resulting path names an entry directly inside it: no separator follows the
   * base, and no `..` occurs anywhere in the path.
   */
  lemma SafePathInBase(filename: string)
    requires IsSafeFilename(filename)
    ensures UploadPath(filename) == BaseDir + filename
    ensures StartsWith(UploadPath(filename), BaseDir)
    ensures forall k :: |BaseDir| <= k < |UploadPath(filename)| ==>
      UploadPath(filename)[k] != '/' && UploadPath(filename)[k] != '\\'
    ensures !Contains(UploadPath(filename), "..")
  {
    var path := BaseDir + filename;
    if StartsWith(filename, "/") {
      assert OccursAt(filename, "/", 0);
    }
    assert UploadPath(filename) == path;
    forall k | |BaseDir| <= k < |path| ensures path[k] != '/' && path[k] != '\\' {
      var i := k - |BaseDir|;
      assert !OccursAt(filename, "/", i) && !OccursAt(filename, "\\", i);
      assert path[k] == filename[i];
    }
    assert forall k :: 0 <= k < |BaseDir| ==> BaseDir[k] != '.';
    forall k | 0 <= k <= |path| - 2 ensures !OccursAt(path, "..", k) {
      if k >= |BaseDir| {
        var i := k - |BaseDir|;
        assert !OccursAt(filename, "..", i);
        assert path[k..k + 2] == filename[i..i + 2];
      } else {
        assert path[k..k + 2][0] == BaseDir[k] != '.';
      }
    }
  }

  /** A rejected name never reaches the file system: the outcome is the same whatever it holds. */
  lemma RejectedBeforeFileSystem(filename: string, fs: FileSystem, fs': FileSystem)
    requires !IsSafeFilename(filename)
    ensures ReadFileSecure(filename, fs) == ReadFileSecure(filename, fs') == RaisesValueError
  {
  }

  /** The guard lets the empty name and hidden-file names through. */
  lemma EmptyAndHiddenNamesAccepted()
    ensures IsSafeFilename("") && IsSafeFilename(".hidden")
    ensures UploadPath("") == BaseDir && UploadPath(".hidden") == BaseDir + ".hidden"
  {
    var hidden := ".hidden";
    assert forall k :: 1 <= k < |hidden| ==> hidden[k] != '.';
    assert '/' !in hidden && '\\' !in hidden;
    assert IsSafeFilename(hidden);
    SafePathInBase("");
    SafePathInBase(hidden);
  }
}
