/**
 * Finding the CSV files of a directory, as every `LoadFromDir` revision does:
 * the directory must exist, the glob pattern depends on whether
 * sub-directories are searched, and an empty match is an error. The file
 * system is an input: the paths that exist and what `glob.glob` answers.
 */
module Discovery {
  import opened Outcomes
  import opened Text

  /** The paths `os.path.exists` accepts, and `glob.glob(pattern, recursive=...)`. */
  datatype FileSystem = FileSystem(existing: set<string>, glob: (string, bool) -> seq<string>)

  // The glob of `load_from_dir`: "<d>/**/*.<ext>" when searching sub-directories,
  // "<d>/*.<ext>" otherwise.
  function GlobPattern(directory: string, extension: string, recursive: bool): (r: string)
    ensures StartsWith(r, directory + "/") && EndsWith(r, "*." + extension)
    ensures recursive <==> StartsWith(r, directory + "/**/")
    ensures |r| == |directory| + (if recursive then 6 else 3) + |extension|
  {
    var p := if recursive then directory + "/**/*." + extension else directory + "/*." + extension;
    assert p[..|directory + "/"|] == directory + "/";
    assert p[|p| - |"*." + extension|..] == "*." + extension;
    assert recursive ==> p[..|directory + "/**/"|] == directory + "/**/";
    assert !recursive ==> p[|directory| + 2] == '.';
    p
  }

  function MissingDirectoryMessage(directory: string): string {
    "The directory " + directory + " does not exist."
  }

  function NoFilesMessage(extension: string, directory: string): string {
    "No files with the extension " + extension + " found in " + directory + "."
  }

  /**
   * The files `load_from_dir` returns, or what it raises: a None directory is
   * a TypeError (`os.path.exists(None)`); a missing one a FileNotFoundError;
   * a None extension a TypeError (`str + None`); no match a FileNotFoundError.
   */
  function Discover(fs: FileSystem, directory: Option<string>, extension: Option<string>, recursive: bool)
    : (r: Result<seq<string>>)
    ensures r.Ok? <==> (directory.Some? && directory.value in fs.existing && extension.Some? &&
                        fs.glob(GlobPattern(directory.value, extension.value, recursive), recursive) != [])
    ensures r.Ok? ==> r.value == fs.glob(GlobPattern(directory.value, extension.value, recursive), recursive)
  {
    if directory.None? then Err(TypeError)
    else if directory.value !in fs.existing then Err(FileNotFoundError(MissingDirectoryMessage(directory.value)))
    else if extension.None? then Err(TypeError)
    else
      var files := fs.glob(GlobPattern(directory.value, extension.value, recursive), recursive);
      if files == [] then Err(FileNotFoundError(NoFilesMessage(extension.value, directory.value)))
      else Ok(files)
  }

  /**
   * The directory check comes first: a missing directory is reported as such
   * whatever the extension (even None) and whatever the glob would answer.
   */
  lemma MissingDirectoryFirst(fs: FileSystem, directory: string, extension: Option<string>, recursive: bool)
    requires directory !in fs.existing
    ensures Discover(fs, Some(directory), extension, recursive) ==
      Err(FileNotFoundError(MissingDirectoryMessage(directory)))
  {
  }

  /** An existing directory without matches is reported with the extension and the directory named. */
  lemma NoMatchesReported(fs: FileSystem, directory: string, extension: string, recursive: bool)
    requires directory in fs.existing && fs.glob(GlobPattern(directory, extension, recursive), recursive) == []
    ensures Discover(fs, Some(directory), Some(extension), recursive) ==
      Err(FileNotFoundError(NoFilesMessage(extension, directory)))
  {
  }

  /** `[os.path.basename(f).split('.')[0] for f in files]`. */
  function DerivedNames(files: seq<string>): (r: seq<string>)
    ensures |r| == |files|
  {
    seq(|files|, k requires 0 <= k < |files| => Stem(Basename(files[k])))
  }

  /**
   * Each derived name is a table-name candidate: no '/' and no '.', and it is
   * the start of the last path component of its file, ending there or at a '.'.
   */
  lemma DerivedNamesClean(files: seq<string>)
    ensures var names := DerivedNames(files);
      forall k :: 0 <= k < |files| ==>
        var b := Basename(files[k]);
        && '/' !in names[k] && '.' !in names[k]
        && StartsWith(b, names[k])
        && (|names[k]| == |b| || b[|names[k]|] == '.')
  {
    forall k | 0 <= k < |files|
      ensures '/' !in Stem(Basename(files[k]))
    {
      StemKeepsSlashFree(Basename(files[k]));
    }
  }
}
