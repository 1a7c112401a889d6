/**
 * The part of Node's `fs` module the migration uses, as an in-memory disk:
 * regular files as a map from path to contents and directories as a set of
 * paths. Paths are relative to the working directory and joined with "/".
 */
module FileSystem {

  /** The directories `fs.mkdirSync(path, { recursive: true })` ensures exist: every "/"-prefix and the path itself. */
  function Ancestry(path: string): (dirs: set<string>)
    ensures path in dirs
    ensures forall i :: 0 < i < |path| && path[i] == '/' ==> path[..i] in dirs
    ensures forall d :: d in dirs ==> d == path || (|d| < |path| && path[..|d|] == d && path[|d|] == '/')
  {
    (set i | 0 < i < |path| && path[i] == '/' :: path[..i]) + {path}
  }

  class Disk {
    var files: map<string, string>
    var dirs: set<string>

    constructor (files0: map<string, string>, dirs0: set<string>)
      ensures files == files0 && dirs == dirs0
    {
      files := files0;
      dirs := dirs0;
    }

    /** `fs.writeFileSync(path, contents)`: creates the file or replaces its contents. */
    method WriteFile(path: string, contents: string)
      modifies this
      ensures files == old(files)[path := contents]
      ensures dirs == old(dirs)
    {
      files := files[path := contents];
    }

    /** `fs.mkdirSync(path, { recursive: true })`: creates the directory and its missing parents. */
    method MakeDirRecursive(path: string)
      modifies this
      ensures dirs == old(dirs) + Ancestry(path)
      ensures files == old(files)
    {
      dirs := dirs + Ancestry(path);
    }
  }
}
