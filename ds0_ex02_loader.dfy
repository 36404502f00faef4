/**
 * The data-science-0/ex02 revision of `LoadFromDir`: no extension and a flat
 * search by default, so a call without arguments fails; otherwise as the
 * ex04 revision, with the directory check written as an if/else.
 */
module Ds0Ex02Loader {
  import opened Outcomes
  import opened Discovery

  class LoadFromDir {
    var directory: Option<string>
    var fileExtension: Option<string>
    var multipleSubdirectories: bool
    var filenames: seq<string>
    var files: seq<string>

    /** The field assignments `__init__` makes before it calls `load_from_dir`. */
    constructor Init(directory: Option<string>, fileExtension: Option<string>, multipleSubdirectories: bool)
      ensures this.directory == directory && this.fileExtension == fileExtension
      ensures this.multipleSubdirectories == multipleSubdirectories
      ensures filenames == [] && files == []
    {
      this.directory := directory;
      this.fileExtension := fileExtension;
      this.multipleSubdirectories := multipleSubdirectories;
      filenames := [];
      files := [];
    }

    /** `load_from_dir`: the discovered files, also copied into `filenames`; on an error nothing is set. */
    method LoadFromDirectory(fs: FileSystem) returns (r: Result<seq<string>>)
      modifies this
      ensures r == Discover(fs, old(directory), old(fileExtension), old(multipleSubdirectories))
      ensures r.Ok? ==> files == r.value && filenames == r.value
      ensures r.Err? ==> files == old(files) && filenames == old(filenames)
      ensures directory == old(directory) && fileExtension == old(fileExtension)
      ensures multipleSubdirectories == old(multipleSubdirectories)
    {
      if directory.None? {
        return Err(TypeError);
      }
      if directory.value in fs.existing {
        if fileExtension.None? {
          return Err(TypeError);
        }
        var found: seq<string>;
        if multipleSubdirectories {
          found := fs.glob(directory.value + "/**/*." + fileExtension.value, true);
        } else {
          found := fs.glob(directory.value + "/*." + fileExtension.value, false);
        }
        if |found| == 0 {
          return Err(FileNotFoundError(NoFilesMessage(fileExtension.value, directory.value)));
        } else {
          filenames := found;
          files := found;
          return Ok(found);
        }
      } else {
        return Err(FileNotFoundError(MissingDirectoryMessage(directory.value)));
      }
    }

    /**
     * `LoadFromDir(...)`: the object with the discovered files and, since
     * `__init__` assigns it after the call, an empty `filenames`; or the
     * exception `load_from_dir` raised.
     */
    static method New(fs: FileSystem, directory: Option<string> := None,
                      fileExtension: Option<string> := None, multipleSubdirectories: bool := false)
      returns (r: Result<LoadFromDir>)
      ensures var d := Discover(fs, directory, fileExtension, multipleSubdirectories);
        && (r.Ok? <==> d.Ok?)
        && (r.Err? ==> r.error == d.error)
        && (r.Ok? ==> fresh(r.value) && r.value.files == d.value && r.value.filenames == []
                      && r.value.directory == directory && r.value.fileExtension == fileExtension
                      && r.value.multipleSubdirectories == multipleSubdirectories)
    {
      var loader := new LoadFromDir.Init(directory, fileExtension, multipleSubdirectories);
      var found := loader.LoadFromDirectory(fs);
      if found.Err? {
        return Err(found.error);
      }
      loader.files := found.value;
      loader.filenames := [];
      return Ok(loader);
    }
  }
}
