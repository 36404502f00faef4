/**
 * The warehouse revision of `LoadFromDir`: searches sub-directories for
 * `.csv` files by default and keeps, besides the paths, the table names
 * derived from them.
 */
module WarehouseLoader {
  import opened Outcomes
  import opened Discovery

  class LoadFromDir {
    var directory: Option<string>
    var fileExtension: Option<string>
    var multipleSubdirectories: bool
    var filenames: seq<string>
    var files: seq<string>

    /** The field assignments `__init__` makes before it calls `load_from_dir`. */
    constructor Init(directory: Option<string>, fileExtension: Option<string>, multipleSubdirectories: bool)
      ensures this.directory == directory && this.fileExtension == fileExtension
      ensures this.multipleSubdirectories == multipleSubdirectories
      ensures filenames == [] && files == []
    {
      this.directory := directory;
      this.fileExtension := fileExtension;
      this.multipleSubdirectories := multipleSubdirectories;
      filenames := [];
      files := [];
    }

    /**
     * `load_from_dir`: the discovered files, with `filenames` set to the stem
     * of each file's basename; on an error nothing is set.
     */
    method LoadFromDirectory(fs: FileSystem) returns (r: Result<seq<string>>)
      modifies this
      ensures r == Discover(fs, old(directory), old(fileExtension), old(multipleSubdirectories))
      ensures r.Ok? ==> files == r.value && filenames == DerivedNames(r.value)
      ensures r.Err? ==> files == old(files) && filenames == old(filenames)
      ensures directory == old(directory) && fileExtension == old(fileExtension)
      ensures multipleSubdirectories == old(multipleSubdirectories)
    {
      if directory.None? {
        return Err(TypeError);
      }
      if directory.value !in fs.existing {
        return Err(FileNotFoundError(MissingDirectoryMessage(directory.value)));
      }
      if fileExtension.None? {
        return Err(TypeError);
      }
      var found: seq<string>;
      if multipleSubdirectories {
        found := fs.glob(directory.value + "/**/*." + fileExtension.value, true);
      } else {
        found := fs.glob(directory.value + "/*." + fileExtension.value, false);
      }
      if found == [] {
        return Err(FileNotFoundError(NoFilesMessage(fileExtension.value, directory.value)));
      }
      filenames := DerivedNames(found);
      files := found;
      return Ok(found);
    }

    /**
     * `LoadFromDir(...)`: the object with the discovered files and their
     * derived names, or the exception `load_from_dir` raised.
     */
    static method New(fs: FileSystem, directory: Option<string> := None,
                      fileExtension: Option<string> := Some("csv"), multipleSubdirectories: bool := true)
      returns (r: Result<LoadFromDir>)
      ensures var d := Discover(fs, directory, fileExtension, multipleSubdirectories);
        && (r.Ok? <==> d.Ok?)
        && (r.Err? ==> r.error == d.error)
        && (r.Ok? ==> fresh(r.value) && r.value.files == d.value && r.value.filenames == DerivedNames(d.value)
                      && r.value.directory == directory && r.value.fileExtension == fileExtension
                      && r.value.multipleSubdirectories == multipleSubdirectories)
    {
      var loader := new LoadFromDir.Init(directory, fileExtension, multipleSubdirectories);
      var found := loader.LoadFromDirectory(fs);
      if found.Err? {
        return Err(found.error);
      }
      loader.files := found.value;
      return Ok(loader);
    }
  }
}
