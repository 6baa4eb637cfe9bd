/**
 * The part of the filesystem the repository code looks at: which
 * directories exist and what they list, and the contents of readable files.
 * A path that is not in `files` is a file that cannot be read, whether it
 * is missing or unreadable for any other reason.
 */
module Disk {
  import opened Strings
  import opened Paths

  /** Names in strictly increasing byte order, the order `filepath.Glob` reports them in. */
  predicate Sorted(names: seq<string>) {
    forall i :: 0 < i < |names| ==> Less(names[i - 1], names[i])
  }

  predicate AllSorted(dirs: map<string, seq<string>>) {
    forall d :: d in dirs ==> Sorted(dirs[d])
  }

  /** Adds `name` to a listing at its place in the order. */
  function Insert(names: seq<string>, name: string): (r: seq<string>)
    ensures Sorted(names) ==> Sorted(r)
    ensures forall n :: n in r <==> n in names || n == name
    ensures r != [] && (r[0] == name || (names != [] && r[0] == names[0]))
  {
    if names == [] then [name]
    else if name == names[0] then names
    else if Less(name, names[0]) then [name] + names
    else
      LessTotal(name, names[0]);
      [names[0]] + Insert(names[1..], name)
  }

  /** The listing of `dir`, empty when it is not a directory. */
  function Listing(dirs: map<string, seq<string>>, dir: string): seq<string> {
    if dir in dirs then dirs[dir] else []
  }

  /** The directories after `entry` is created in `dir`, which is created too if it is missing. */
  function AddEntry(dirs: map<string, seq<string>>, dir: string, entry: string): (after: map<string, seq<string>>)
    ensures AllSorted(dirs) ==> AllSorted(after)
    ensures after.Keys == dirs.Keys + {dir}
    ensures after[dir] == Insert(Listing(dirs, dir), entry)
    ensures entry in after[dir]
    ensures forall e :: e in after[dir] <==> e in Listing(dirs, dir) || e == entry
    ensures forall d :: d in dirs && d != dir ==> after[d] == dirs[d]
  {
    dirs[dir := Insert(Listing(dirs, dir), entry)]
  }

  class FileSystem {
    /** Each existing directory and the names of its entries. */
    var dirs: map<string, seq<string>>
    /** Each readable regular file and its contents. */
    var files: map<string, string>

    ghost predicate Valid()
      reads this
    {
      AllSorted(dirs)
    }

    /**
     * The effect of `os.WriteFile(Join(dir, name), content, perm)`: when
     * `dir` exists the file is created or truncated and holds `content`;
     * otherwise nothing changes.
     */
    twostate predicate WroteFile(dir: string, name: string, content: string)
      reads this
    {
      if dir in old(dirs) then
        && files == old(files)[Join(dir, name) := content]
        && dirs == old(dirs)[dir := Insert(old(dirs)[dir], name)]
      else
        files == old(files) && dirs == old(dirs)
    }

    /** `os.WriteFile`; it fails exactly when the parent directory is missing. */
    method WriteFile(dir: string, name: string, content: string) returns (ok: bool)
      requires Valid()
      modifies this
      ensures Valid()
      ensures ok <==> dir in old(dirs)
      ensures WroteFile(dir, name, content)
    {
      ok := dir in dirs;
      if ok {
        files := files[Join(dir, name) := content];
        dirs := dirs[dir := Insert(dirs[dir], name)];
      }
    }
  }

}
