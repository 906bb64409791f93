/**
 * Run-file names (SortFile/FileNameGeneration.cs): `<name>-<counter><extension>` in a fixed
 * directory, the counter incremented before each use.
 */
module FileNameGeneration {
  import opened Wrappers
  import opened Decimal

  /** What the allocator uses of `System.IO.Path`; these are library functions and stay
      uninterpreted. `getDirectoryName` may answer null (`None`). */
  datatype PathSystem = PathSystem(
    getDirectoryName: string -> Option<string>,
    getFileNameWithoutExtension: string -> string,
    getExtension: string -> string,
    combine: (string, string) -> string)

  /** The file name for counter value `index`. */
  function FileName(sourceFileName: string, index: nat, extension: string): string {
    sourceFileName + "-" + ToDigits(index) + extension
  }

  /** `Path.Combine` keeps the run names apart in `directory`. `Path.Combine` is not injective in
      general: a rooted second argument is returned as it is. The run names start with a file
      name without directory separators, so they are never rooted, and for such names the result
      is the directory, perhaps a separator, and the name. */
  ghost predicate CombineKeepsNamesApart(paths: PathSystem, directory: string, sourceFileName: string, extension: string) {
    forall i: nat, j: nat ::
      paths.combine(directory, FileName(sourceFileName, i, extension)) == paths.combine(directory, FileName(sourceFileName, j, extension))
      ==> FileName(sourceFileName, i, extension) == FileName(sourceFileName, j, extension)
  }

  /** Different counter values give different file names. */
  lemma FileNameInjective(sourceFileName: string, extension: string, i: nat, j: nat)
    requires FileName(sourceFileName, i, extension) == FileName(sourceFileName, j, extension)
    ensures i == j
  {
    var a, b := FileName(sourceFileName, i, extension), FileName(sourceFileName, j, extension);
    var n := |sourceFileName| + 1;
    assert |ToDigits(i)| == |ToDigits(j)|;
    assert ToDigits(i) == a[n..n + |ToDigits(i)|] == b[n..n + |ToDigits(j)|] == ToDigits(j);
    FormatValue(i);
    FormatValue(j);
  }

  /** The directory `Create` chooses: the working directory when it is neither null nor empty,
      otherwise the source file's directory, with null turned into the empty string. */
  function ChooseDirectory(paths: PathSystem, sourceFilePath: string, workingDirectory: Option<string>): (d: string)
    ensures workingDirectory.Some? && workingDirectory.value != [] ==> d == workingDirectory.value
    ensures (workingDirectory.None? || workingDirectory.value == []) ==>
              d == (match paths.getDirectoryName(sourceFilePath) case Some(s) => s case None => "")
  {
    var directoryPath := if workingDirectory.None? || workingDirectory.value == []
                         then paths.getDirectoryName(sourceFilePath) else workingDirectory;
    match directoryPath case Some(s) => s case None => ""
  }

  class FileNameGeneration {
    const paths: PathSystem
    const directoryPath: string
    const sourceFileName: string
    const extension: string
    /** The `ulong` counter; `Interlocked.Increment` wraps it to 0 after `UInt64.MaxValue`. */
    var index: nat

    ghost predicate Valid()
      reads this
    {
      index <= UInt64Max
    }

    constructor (paths: PathSystem, directoryPath: string, sourceFileName: string, extension: string)
      ensures this.paths == paths && this.directoryPath == directoryPath
      ensures this.sourceFileName == sourceFileName && this.extension == extension
      ensures index == 0 && Valid()
    {
      this.paths := paths;
      this.directoryPath := directoryPath;
      this.sourceFileName := sourceFileName;
      this.extension := extension;
      index := 0;
    }

    /** The constructor's argument checks: a null directory, name or extension is rejected. */
    static method New(paths: PathSystem, directoryPath: Option<string>, sourceFileName: Option<string>, extension: Option<string>)
      returns (r: Result<FileNameGeneration>)
      ensures r.Ok? <==> directoryPath.Some? && sourceFileName.Some? && extension.Some?
      ensures r.Err? ==> r.error == ArgumentNull
      ensures r.Ok? ==> fresh(r.value) && r.value.Valid() && r.value.index == 0 && r.value.paths == paths
                        && r.value.directoryPath == directoryPath.value
                        && r.value.sourceFileName == sourceFileName.value
                        && r.value.extension == extension.value
    {
      if directoryPath.None? || sourceFileName.None? || extension.None? {
        return Err(ArgumentNull);
      }
      var g := new FileNameGeneration(paths, directoryPath.value, sourceFileName.value, extension.value);
      r := Ok(g);
    }

    /** `Create`: directory as `ChooseDirectory` says; base name and extension from the source path. */
    static method Create(paths: PathSystem, sourceFilePath: string, workingDirectory: Option<string>)
      returns (g: FileNameGeneration)
      ensures fresh(g) && g.Valid() && g.index == 0 && g.paths == paths
      ensures g.directoryPath == ChooseDirectory(paths, sourceFilePath, workingDirectory)
      ensures g.sourceFileName == paths.getFileNameWithoutExtension(sourceFilePath)
      ensures g.extension == paths.getExtension(sourceFilePath)
    {
      g := new FileNameGeneration(paths, ChooseDirectory(paths, sourceFilePath, workingDirectory),
                                  paths.getFileNameWithoutExtension(sourceFilePath), paths.getExtension(sourceFilePath));
    }

    /** The path for counter value `i`. */
    function PathFor(i: nat): string
    {
      paths.combine(directoryPath, FileName(sourceFileName, i, extension))
    }

    /** `GetNewFilePath`: increments the counter first, then names the file after it. */
    method GetNewFilePath() returns (path: string)
      requires Valid()
      modifies this`index
      ensures Valid()
      ensures index == (old(index) + 1) % UInt64Modulus
      ensures old(index) < UInt64Max ==> index == old(index) + 1
      ensures path == PathFor(index)
    {
      index := (index + 1) % UInt64Modulus;
      path := paths.combine(directoryPath, FileName(sourceFileName, index, extension));
    }

    /** Paths for different counter values differ. */
    lemma PathsDistinct(i: nat, j: nat)
      requires CombineKeepsNamesApart(paths, directoryPath, sourceFileName, extension) && i != j
      ensures PathFor(i) != PathFor(j)
    {
      if PathFor(i) == PathFor(j) {
        FileNameInjective(sourceFileName, extension, i, j);
      }
    }
  }
}
