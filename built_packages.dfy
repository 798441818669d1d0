/**
 * The list of packages copied into a sysroot, kept in memory and written
 * out as `install_sysroot/built_packages.json` after every addition.
 */
module BuiltPackages {
  import opened Wrappers
  import Paths

  const SysrootDirectoryName := "install_sysroot"
  const JsonFileName := "built_packages.json"

  /** Where the list is stored, relative to the working directory. */
  function JsonFilePath(): (r: string)
    ensures r == SysrootDirectoryName + "/" + JsonFileName
  {
    Paths.JoinPlain([SysrootDirectoryName, JsonFileName]);
    assert forall c :: c in SysrootDirectoryName ==> c != '/';
    assert forall c :: c in JsonFileName ==> c != '/';
    Paths.Join([SysrootDirectoryName, JsonFileName])
  }

  /** What reading the JSON file gives: no file, a read error, or content that parses (Some) or does not (None). */
  datatype ReadResult = NotExist | ReadError(msg: string) | Content(parsed: Option<seq<string>>)

  class BuiltPackages {
    var packages: seq<string>

    constructor()
      ensures packages == []
    {
      packages := [];
    }

    /**
     * AddToBuiltPackages: the name goes at the end, duplicates included,
     * and the whole list is written to the file, replacing it; `write` is
     * the outcome of writing.
     */
    method AddToBuiltPackages(packageName: string, write: Outcome) returns (err: Outcome, written: seq<string>, path: string)
      modifies this
      ensures packages == old(packages) + [packageName]
      ensures written == packages && path == JsonFilePath()
      ensures err == write
    {
      packages := packages + [packageName];
      written := packages;
      path := JsonFilePath();
      err := write;
    }

    /** UpdateBuiltPackages: the list becomes the file's content; a missing file changes nothing. */
    method UpdateBuiltPackages(read: ReadResult) returns (err: Outcome)
      modifies this
      ensures read.NotExist? ==> err == Pass && packages == old(packages)
      ensures read.ReadError? ==> err == Fail("failed to read built packages file - " + read.msg) && packages == old(packages)
      ensures read.Content? && read.parsed.None? ==> err.Fail? && packages == old(packages)
      ensures read.Content? && read.parsed.Some? ==> err == Pass && packages == read.parsed.value
    {
      match read
      case NotExist => err := Pass;
      case ReadError(m) => err := Fail("failed to read built packages file - " + m);
      case Content(None) => err := Fail("failed to parse built packages file");
      case Content(Some(list)) =>
        packages := list;
        err := Pass;
    }
  }

  /** Two additions keep both names in order after what was there. */
  method AddTwice(list: BuiltPackages, a: string, b: string) returns (err: Outcome)
    modifies list
    ensures list.packages == old(list.packages) + [a, b]
  {
    var w: seq<string>, p: string;
    err, w, p := list.AddToBuiltPackages(a, Pass);
    err, w, p := list.AddToBuiltPackages(b, Pass);
    assert old(list.packages) + [a] + [b] == old(list.packages) + [a, b];
  }
}
