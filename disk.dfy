/**
  The files the loop writes: the generated test module and the corrected source.
  Writing is modelled as an update of a map from path to contents; the working
  directory is the root of the paths.
*/
module Disk {

  /** `os.path.join(base, name)` on POSIX paths: an absolute `name` replaces `base`; an
      empty `base`, or one that already ends in '/', is followed directly by `name`;
      otherwise one '/' separates them. A relative `name` thus always ends the result,
      under `base`, with a '/' just before it whenever `base` is not empty. */
  function PathJoin(base: string, name: string): (p: string)
    ensures |name| <= |p| && p[|p| - |name|..] == name
    ensures name != [] && name[0] == '/' ==> p == name
    ensures (name == [] || name[0] != '/') ==>
      && |base| + |name| <= |p| <= |base| + 1 + |name|
      && p[..|base|] == base
      && (base != [] ==> p[|p| - |name| - 1] == '/')
    ensures (name == [] || name[0] != '/') && (base == [] || base[|base| - 1] == '/') ==> |p| == |base| + |name|
    ensures (name == [] || name[0] != '/') && base != [] && base[|base| - 1] != '/' ==> |p| == |base| + 1 + |name|
  {
    if name != [] && name[0] == '/' then name
    else if base == [] || base[|base| - 1] == '/' then base + name
    else base + "/" + name
  }

  /** Where every draft writes the generated tests. */
  const TestModulePath: string := "tests/unit/test_functions.py"

  class FileStore {
    var files: map<string, string>

    constructor (initial: map<string, string>)
      ensures files == initial
    {
      files := initial;
    }

    /** `open(path, "w").write(text)`: replaces the whole file. */
    method Write(path: string, text: string)
      modifies this
      ensures files == old(files)[path := text]
    {
      files := files[path := text];
    }
  }
}
