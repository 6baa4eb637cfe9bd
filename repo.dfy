/**
 * Repositories (repo.go): where a repository lives on disk, how it is found
 * again by id or by path, how it is created, its remote URL, and its
 * webhook configuration and notification.
 */
module Repo {
  import opened Wrappers
  import opened Strings
  import opened Paths
  import opened Disk

  // ---------------------------------------------------------------------
  // Identity and on-disk location
  // ---------------------------------------------------------------------

  /** The stored identity of a repository: it lives at `{root}/{id}/{name}.git`. */
  datatype Location = Location(root: string, id: string, name: string)

  /**
   * Components the path functions can take apart again: a root that is
   * non-empty and has no trailing '/', an id that is one element other
   * than "." and "..", and a name without '/'.
   */
  predicate WellFormed(l: Location) {
    IsCleanDir(l.root) && IsComponent(l.id) && !IsDotElement(l.id) && '/' !in l.name
  }

  /** The path GetPath computes: `filepath.Join(root, id, name + ".git")`. */
  function RepoPath(root: string, id: string, name: string): (p: string)
    ensures IsCleanDir(root) && root != "/" && IsComponent(id) ==> p == root + "/" + id + "/" + name + ".git"
    ensures IsCleanDir(p) && HasSuffix(p, ".git")
    ensures |p| > |Join(root, id)|
  {
    var last := name + ".git";
    var p := Join(Join(root, id), last);
    assert p[|p| - |last|..] == last;
    assert p[|p| - 4..] == last[|last| - 4..];
    p
  }

  /**
   * RepoFromPath's reading of a path: nothing unless it ends in ".git";
   * otherwise the grandparent directory, the parent's name, and the last
   * element with every ".git" in it removed.
   */
  function ParseRepoPath(path: string): (l: Option<Location>)
    ensures l.None? <==> !HasSuffix(path, ".git")
  {
    if !HasSuffix(path, ".git") then None
    else
      var parent := Dir(path);
      Some(Location(Dir(parent), Base(parent), RemoveAll(Base(path), ".git")))
  }

  /** The directory, its parent and the last element of a repository path are where it was built from. */
  lemma RepoPathParts(l: Location)
    requires WellFormed(l)
    ensures var p := RepoPath(l.root, l.id, l.name);
      Dir(Dir(p)) == l.root && Base(Dir(p)) == l.id && Base(p) == l.name + ".git"
  {
    var last := l.name + ".git";
    assert IsComponent(last);
    var parent := Join(l.root, l.id);
    DirJoin(parent, last);
    BaseJoin(parent, last);
    DirJoin(l.root, l.id);
    BaseJoin(l.root, l.id);
  }

  /** Taking a repository path apart gives back the root and id, and the name with every ".git" removed. */
  lemma ParseRepoPathOfRepoPath(l: Location)
    requires WellFormed(l)
    ensures ParseRepoPath(RepoPath(l.root, l.id, l.name))
         == Some(l.(name := RemoveAll(l.name + ".git", ".git")))
  {
    RepoPathParts(l);
  }

  /** The path of a repository leads back to it exactly when its name holds no ".git". */
  lemma RepoPathRoundTrip(l: Location)
    requires WellFormed(l)
    ensures ParseRepoPath(RepoPath(l.root, l.id, l.name)) == Some(l) <==> !Contains(l.name, ".git")
  {
    var kept := RemoveAll(l.name + ".git", ".git");
    ParseRepoPathOfRepoPath(l);
    GitHeadUnique();
    RemoveAllTrailingExact(l.name, ".git");
    assert Some(l.(name := kept)) == Some(l) <==> kept == l.name;
  }

  /** The '.' that starts ".git" occurs nowhere else in it. */
  lemma GitHeadUnique()
    ensures ".git"[0] !in ".git"[1..]
  {
    assert ".git"[1..] == "git";
  }

  /** A repository named `n + ".git"` is read back from its path as one named `n`. */
  lemma RepoPathDropsGitSuffix(l: Location)
    requires WellFormed(l) && !Contains(l.name, ".git")
    ensures ParseRepoPath(RepoPath(l.root, l.id, l.name + ".git")) == Some(l)
  {
    var dotted := Location(l.root, l.id, l.name + ".git");
    assert WellFormed(dotted) by {
      assert '/' !in l.name + ".git";
    }
    var kept := RemoveAll(dotted.name + ".git", ".git");
    assert kept == l.name by {
      GitHeadUnique();
      RemoveAllRepeated(l.name, ".git");
    }
    ParseRepoPathOfRepoPath(dotted);
  }

  /** Distinct well-formed repositories have distinct paths. */
  lemma RepoPathInjective(l1: Location, l2: Location)
    requires WellFormed(l1) && WellFormed(l2)
    requires RepoPath(l1.root, l1.id, l1.name) == RepoPath(l2.root, l2.id, l2.name)
    ensures l1 == l2
  {
    RepoPathParts(l1);
    RepoPathParts(l2);
    assert l1.name == (l1.name + ".git")[..|l1.name|];
    assert l2.name == (l2.name + ".git")[..|l2.name|];
  }

  // ---------------------------------------------------------------------
  // Identifiers
  // ---------------------------------------------------------------------

  predicate IsLowerHex(c: char) {
    '0' <= c <= '9' || 'a' <= c <= 'f'
  }

  predicate AllHex(s: string) {
    forall i :: 0 <= i < |s| ==> IsLowerHex(s[i])
  }

  /** A non-empty run of lowercase hexadecimal digits. */
  predicate IsHexId(s: string) {
    s != [] && AllHex(s)
  }

  /**
   * The text of a UUID as `uuid.UUID.String` writes it: lowercase hex
   * groups of 8, 4, 4, 4 and 12 digits joined by '-' (section 3 of RFC 4122).
   */
  predicate IsCanonicalUuid(u: string) {
    && |u| == 36
    && u[8] == '-' && u[13] == '-' && u[18] == '-' && u[23] == '-'
    && AllHex(u[..8]) && AllHex(u[9..13]) && AllHex(u[14..18]) && AllHex(u[19..23]) && AllHex(u[24..])
  }

  /** NewRepo's id: the UUID's text with every '-' removed. */
  function IdFromUuid(uuid: string): (id: string)
    ensures forall ch :: ch in id <==> ch in uuid && ch != '-'
    ensures '-' !in uuid ==> id == uuid
  {
    RemoveAllCharKeeps(uuid, '-');
    var id := RemoveAll(uuid, "-");
    assert '-' !in uuid ==> id == uuid by {
      if '-' !in uuid {
        RemoveAllCharAbsent(uuid, '-');
      }
    }
    id
  }

  lemma DashGroup(x: string, rest: string)
    requires AllHex(x)
    ensures RemoveAll(x + "-" + rest, "-") == x + RemoveAll(rest, "-")
  {
    assert '-' !in x;
    RemoveAllCharAbsent(x, '-');
    assert x + "-" + rest == x + ("-" + rest);
    RemoveAllCharAppend(x, "-" + rest, '-');
    RemoveAllCharAppend("-", rest, '-');
    var h := "-";
    assert h[..1] == h && h[1..] == [];
  }

  /** A canonical UUID gives a 32-character lowercase hexadecimal id. */
  lemma IdFromCanonicalUuid(u: string)
    requires IsCanonicalUuid(u)
    ensures IdFromUuid(u) == u[..8] + u[9..13] + u[14..18] + u[19..23] + u[24..]
    ensures |IdFromUuid(u)| == 32 && IsHexId(IdFromUuid(u))
  {
    var a, b, c, d, e := u[..8], u[9..13], u[14..18], u[19..23], u[24..];
    var r3 := d + "-" + e;
    var r2 := c + "-" + r3;
    var r1 := b + "-" + r2;
    assert u == a + "-" + r1;
    DashGroup(a, r1);
    DashGroup(b, r2);
    DashGroup(c, r3);
    DashGroup(d, e);
    assert '-' !in e;
    RemoveAllCharAbsent(e, '-');
    assert IdFromUuid(u) == a + (b + (c + (d + e)));
    assert a + (b + (c + (d + e))) == a + b + c + d + e;
  }

  // ---------------------------------------------------------------------
  // The repository handle
  // ---------------------------------------------------------------------

  /** A repository as the handlers pass it around; only its remote URL is ever set in place. */
  class GitRepo {
    const root: string
    const id: string
    const name: string
    var gitURL: string

    constructor(root: string, id: string, name: string)
      ensures this.root == root && this.id == id && this.name == name && gitURL == ""
    {
      this.root := root;
      this.id := id;
      this.name := name;
      gitURL := "";
    }

    /** GetPath: `{root}/{id}/{name}.git`, cleaned as `filepath.Join` cleans. */
    function GetPath(): (p: string)
      ensures IsCleanDir(root) && root != "/" && IsComponent(id) ==> p == root + "/" + id + "/" + name + ".git"
      ensures IsCleanDir(p) && HasSuffix(p, ".git")
    {
      RepoPath(root, id, name)
    }

    /** InitGitURL: the remote URL under the request's host; plain HTTP only for localhost. */
    method InitGitURL(host: string)
      modifies this`gitURL
      ensures gitURL == RemoteURL(host, id, name)
    {
      var scheme := "https";
      if HasPrefix(host, "localhost") {
        scheme := "http";
      }
      gitURL := scheme + "://" + host + "/" + id + "/" + name + ".git";
    }
  }

  /** The remote URL `scheme://host/id/name.git` that InitGitURL formats. */
  function RemoteURL(host: string, id: string, name: string): (url: string)
    ensures HasPrefix(url, "http://") <==> HasPrefix(host, "localhost")
    ensures HasPrefix(url, "https://") <==> !HasPrefix(host, "localhost")
    ensures HasSuffix(url, "/" + id + "/" + name + ".git")
    ensures exists scheme :: (scheme == "http" || scheme == "https") && url == scheme + "://" + host + "/" + id + "/" + name + ".git"
  {
    var scheme := if HasPrefix(host, "localhost") then "http" else "https";
    var tail := "/" + id + "/" + name + ".git";
    var url := scheme + "://" + host + tail;
    assert url == scheme + "://" + host + "/" + id + "/" + name + ".git";
    assert url[|url| - |tail|..] == tail;
    if HasPrefix(host, "localhost") then
      assert url[..7] == "http://" && url[7] == host[0];
      url
    else
      assert url[..8] == "https://" && url[4] == 's';
      url
  }

  // ---------------------------------------------------------------------
  // Lookup by id (GetRepo) and by path (RepoFromPath)
  // ---------------------------------------------------------------------

  /** The index of the first listed name matching `*.git`, or -1. */
  function FirstGitEntry(names: seq<string>): (k: int)
    ensures -1 <= k < |names|
    ensures k >= 0 ==> HasSuffix(names[k], ".git")
    ensures forall i :: 0 <= i < |names| && (k < 0 || i < k) ==> !HasSuffix(names[i], ".git")
  {
    if names == [] then -1
    else if HasSuffix(names[0], ".git") then 0
    else
      var k := FirstGitEntry(names[1..]);
      if k < 0 then -1 else k + 1
  }

  /**
   * The name GetRepo gives the repository directory `dir`: nothing when
   * `dir` is not a directory or lists no `*.git` entry; otherwise the first
   * such entry up to its first '.'.
   */
  function ResolveName(dirs: map<string, seq<string>>, dir: string): (name: Option<string>)
    ensures name.None? <==> dir !in dirs || forall e :: e in dirs[dir] ==> !HasSuffix(e, ".git")
    ensures name.Some? ==> '.' !in name.value
    ensures name.Some? ==>
      var entry := dirs[dir][FirstGitEntry(dirs[dir])];
      HasPrefix(entry, name.value) && |name.value| < |entry| && entry[|name.value|] == '.'
  {
    if dir !in dirs then None
    else
      var k := FirstGitEntry(dirs[dir]);
      if k < 0 then None
      else
        var entry := dirs[dir][k];
        assert entry[|entry| - 4] == '.';
        Some(UpToFirst(entry, '.'))
  }

  /** GetRepo: looks `{gitRoot}/{id}` up on disk. */
  method GetRepo(fs: FileSystem, gitRoot: string, id: string) returns (repo: GitRepo?)
    requires fs.Valid()
    ensures repo == null <==> ResolveName(fs.dirs, Join(gitRoot, id)).None?
    ensures repo != null ==>
      && fresh(repo)
      && repo.root == gitRoot && repo.id == id && repo.gitURL == ""
      && Some(repo.name) == ResolveName(fs.dirs, Join(gitRoot, id))
  {
    var path := Join(gitRoot, id);
    if path !in fs.dirs {
      return null;
    }
    var entries := fs.dirs[path];
    var first := FirstGitEntry(entries);
    if first < 0 {
      return null;
    }
    var name := UpToFirst(entries[first], '.');
    repo := new GitRepo(gitRoot, id, name);
  }

  /** RepoFromPath: the repository whose directory is `path`, read off the path alone. */
  method RepoFromPath(path: string) returns (repo: GitRepo?)
    ensures repo == null <==> ParseRepoPath(path).None?
    ensures repo != null ==>
      && fresh(repo) && repo.gitURL == ""
      && ParseRepoPath(path) == Some(Location(repo.root, repo.id, repo.name))
  {
    if !HasSuffix(path, ".git") {
      return null;
    }
    var parent := Dir(path);
    var root := Dir(parent);
    var id := Base(parent);
    var name := RemoveAll(Base(path), ".git");
    repo := new GitRepo(root, id, name);
  }

  // ---------------------------------------------------------------------
  // Creation (NewRepo)
  // ---------------------------------------------------------------------

  /** The outcome of one call into code outside the model. */
  datatype Step = Done | Failed(reason: string)

  /**
   * What the outside world does while a repository is created: the text of
   * the random UUID and whether generating it worked, whether
   * `git init --bare` worked, and whether linking the hook worked.
   */
  datatype Collaborators = Collaborators(uuid: string, uuidStep: Step, gitInit: Step, hookLink: Step)

  predicate Created(c: Collaborators) {
    c.uuidStep.Done? && c.gitInit.Done? && c.hookLink.Done?
  }

  function HooksDir(repoPath: string): (hooks: string)
    ensures |hooks| > |repoPath|
  {
    Join(repoPath, "hooks")
  }

  /** The message NewRepo wraps a failed step's error in. */
  function CreateFailure(reason: string): string {
    "Failed to create repository (" + reason + ")"
  }

  /**
   * The entry `git init --bare` adds to `{root}/{id}`: the first element of
   * `{name}.git`, which is all of it unless the name holds a '/'.
   */
  function InitEntry(name: string): string {
    UpToFirst(name + ".git", '/')
  }

  /**
   * The directories after `git init --bare` creates `repoPath`, listed as
   * `entry` in `parent`, and its hooks directory `hooks`.
   */
  function InitLayout(dirs: map<string, seq<string>>, parent: string, entry: string, repoPath: string, hooks: string)
    : (after: map<string, seq<string>>)
    requires parent != repoPath && parent != hooks && repoPath != hooks
    ensures AllSorted(dirs) ==> AllSorted(after)
    ensures after.Keys == dirs.Keys + {parent, repoPath, hooks}
    ensures after[parent] == Insert(Listing(dirs, parent), entry)
    ensures after[repoPath] == Insert(Listing(dirs, repoPath), "hooks")
    ensures after[hooks] == Listing(dirs, hooks)
    ensures forall d :: d in dirs && d !in {parent, repoPath, hooks} ==> after[d] == dirs[d]
  {
    dirs[parent := Insert(Listing(dirs, parent), entry)]
        [repoPath := Insert(Listing(dirs, repoPath), "hooks")]
        [hooks := Listing(dirs, hooks)]
  }

  /**
   * The directories after `git init --bare` at RepoPath(root, id, name):
   * `{root}/{id}` lists the entry the repository lies under, the repository
   * directory exists and lists `hooks`, the hooks directory exists, and no
   * other directory changes.
   */
  function AfterInit(dirs: map<string, seq<string>>, root: string, id: string, name: string)
    : (after: map<string, seq<string>>)
    ensures AllSorted(dirs) ==> AllSorted(after)
    ensures after.Keys == dirs.Keys + {Join(root, id), RepoPath(root, id, name), HooksDir(RepoPath(root, id, name))}
    ensures after[Join(root, id)] == Insert(Listing(dirs, Join(root, id)), InitEntry(name))
    ensures after[RepoPath(root, id, name)] == Insert(Listing(dirs, RepoPath(root, id, name)), "hooks")
    ensures after[HooksDir(RepoPath(root, id, name))] == Listing(dirs, HooksDir(RepoPath(root, id, name)))
    ensures forall d :: d in dirs && d !in {Join(root, id), RepoPath(root, id, name), HooksDir(RepoPath(root, id, name))} ==> after[d] == dirs[d]
  {
    var parent, repoPath := Join(root, id), RepoPath(root, id, name);
    var hooks := HooksDir(repoPath);
    InitPathsDistinct(root, id, name);
    InitLayout(dirs, parent, InitEntry(name), repoPath, hooks)
  }

  /** The three directories `git init --bare` creates are three different paths. */
  lemma InitPathsDistinct(root: string, id: string, name: string)
    ensures var repoPath := RepoPath(root, id, name);
      Join(root, id) != repoPath && Join(root, id) != HooksDir(repoPath) && repoPath != HooksDir(repoPath)
  {
    var repoPath := RepoPath(root, id, name);
    assert |Join(root, id)| < |repoPath| < |HooksDir(repoPath)|;
  }

  /** initRepo: `git init --bare` at the repository's path. */
  method InitRepo(fs: FileSystem, repo: GitRepo, gitInit: Step) returns (err: Option<string>)
    requires fs.Valid()
    modifies fs
    ensures fs.Valid()
    ensures err.None? <==> gitInit.Done?
    ensures gitInit.Failed? ==> err == Some(gitInit.reason)
    ensures fs.files == old(fs.files)
    ensures fs.dirs == if gitInit.Done? then AfterInit(old(fs.dirs), repo.root, repo.id, repo.name) else old(fs.dirs)
  {
    if gitInit.Failed? {
      return Some(gitInit.reason);
    }
    fs.dirs := AfterInit(fs.dirs, repo.root, repo.id, repo.name);
    err := None;
  }

  /** The hook link installPostReceive creates inside a repository. */
  function PostReceiveLink(repoPath: string): string {
    Join(HooksDir(repoPath), "post-receive")
  }

  /** The directories after the post-receive link is created in the hooks directory of `repoPath`. */
  function AfterLink(dirs: map<string, seq<string>>, repoPath: string): (after: map<string, seq<string>>)
    ensures AllSorted(dirs) ==> AllSorted(after)
    ensures after.Keys == dirs.Keys + {HooksDir(repoPath)}
    ensures after[HooksDir(repoPath)] == Insert(Listing(dirs, HooksDir(repoPath)), "post-receive")
    ensures "post-receive" in after[HooksDir(repoPath)]
    ensures forall d :: d in dirs && d != HooksDir(repoPath) ==> after[d] == dirs[d]
  {
    AddEntry(dirs, HooksDir(repoPath), "post-receive")
  }

  /** installPostReceive: links the running executable in as the repository's post-receive hook. */
  method InstallPostReceive(fs: FileSystem, repo: GitRepo, hookLink: Step) returns (err: Option<string>)
    requires fs.Valid()
    modifies fs
    ensures fs.Valid()
    ensures err.None? <==> hookLink.Done?
    ensures hookLink.Failed? ==> err == Some(hookLink.reason)
    ensures fs.files == old(fs.files)
    ensures fs.dirs == if hookLink.Done? then AfterLink(old(fs.dirs), repo.GetPath()) else old(fs.dirs)
  {
    if hookLink.Failed? {
      return Some(hookLink.reason);
    }
    fs.dirs := AfterLink(fs.dirs, repo.GetPath());
    err := None;
  }

  /** The directories after a successful NewRepo. */
  function AfterCreate(dirs: map<string, seq<string>>, root: string, id: string, name: string): map<string, seq<string>> {
    AfterLink(AfterInit(dirs, root, id, name), RepoPath(root, id, name))
  }

  /**
   * NewRepo: forms the id, initialises the bare repository, then links the
   * hook; the first failing step ends it with an error and a zero repository.
   */
  method NewRepo(fs: FileSystem, gitRoot: string, name: string, c: Collaborators)
    returns (repo: GitRepo, err: Option<string>)
    requires fs.Valid()
    modifies fs
    ensures fs.Valid() && fresh(repo) && repo.gitURL == ""
    ensures err.None? <==> Created(c)
    ensures err.None? ==> repo.root == gitRoot && repo.id == IdFromUuid(c.uuid) && repo.name == name
    ensures err.Some? ==> repo.root == "" && repo.id == "" && repo.name == ""
    ensures c.uuidStep.Failed? ==> err == Some(c.uuidStep.reason)
    ensures c.uuidStep.Done? && c.gitInit.Failed? ==> err == Some(CreateFailure(c.gitInit.reason))
    ensures c.uuidStep.Done? && c.gitInit.Done? && c.hookLink.Failed? ==> err == Some(CreateFailure(c.hookLink.reason))
    ensures fs.files == old(fs.files)
    ensures fs.dirs == if Created(c) then AfterCreate(old(fs.dirs), gitRoot, IdFromUuid(c.uuid), name)
                       else if c.uuidStep.Done? && c.gitInit.Done? then AfterInit(old(fs.dirs), gitRoot, IdFromUuid(c.uuid), name)
                       else old(fs.dirs)
  {
    var id := IdFromUuid(c.uuid);
    if c.uuidStep.Failed? {
      repo := new GitRepo("", "", "");
      return repo, Some(c.uuidStep.reason);
    }
    var created := new GitRepo(gitRoot, id, name);
    var initErr := InitRepo(fs, created, c.gitInit);
    if initErr.Some? {
      repo := new GitRepo("", "", "");
      return repo, Some(CreateFailure(initErr.value));
    }
    var linkErr := InstallPostReceive(fs, created, c.hookLink);
    if linkErr.Some? {
      repo := new GitRepo("", "", "");
      return repo, Some(CreateFailure(linkErr.value));
    }
    repo, err := created, None;
  }

  /** A name without '/' is listed whole. */
  lemma InitEntryWhole(name: string)
    requires '/' !in name
    ensures InitEntry(name) == name + ".git"
  {
    assert '/' !in name + ".git";
  }

  /** A directory listing a single `*.git` entry resolves to that entry cut at its first '.'. */
  lemma ResolveSingleEntry(dirs: map<string, seq<string>>, dir: string, entry: string)
    requires dir in dirs && dirs[dir] == [entry] && HasSuffix(entry, ".git")
    ensures ResolveName(dirs, dir) == Some(UpToFirst(entry, '.'))
  {
    assert FirstGitEntry(dirs[dir]) == 0;
  }

  /** A creation adds exactly `{root}/{id}`, the repository directory and its hooks directory. */
  lemma AfterCreateKeys(dirs: map<string, seq<string>>, root: string, id: string, name: string)
    ensures var path := RepoPath(root, id, name);
      AfterCreate(dirs, root, id, name).Keys == dirs.Keys + {Join(root, id), path, HooksDir(path)}
  {
  }

  /** A directory that is none of the three a creation adds stays absent. */
  lemma AbsentAfterCreate(dirs: map<string, seq<string>>, root: string, id: string, name: string, d: string)
    requires d !in dirs && d != Join(root, id)
    requires d != RepoPath(root, id, name) && d != HooksDir(RepoPath(root, id, name))
    ensures d !in AfterCreate(dirs, root, id, name)
  {
    AfterCreateKeys(dirs, root, id, name);
  }

  /** A freshly created `{root}/{id}` lists just the entry its repository lies under. */
  lemma CreatedParentLists(dirs: map<string, seq<string>>, root: string, id: string, name: string)
    requires Join(root, id) !in dirs
    ensures AfterCreate(dirs, root, id, name)[Join(root, id)] == [InitEntry(name)]
  {
    var path := RepoPath(root, id, name);
    var inited := AfterInit(dirs, root, id, name);
    assert |HooksDir(path)| > |path| > |Join(root, id)|;
    assert AfterLink(inited, path)[Join(root, id)] == inited[Join(root, id)];
  }

  /**
   * A freshly created repository is found again by its id under the name cut
   * at its first '.', so exactly the names without a '.' come back unchanged.
   */
  lemma CreatedRepoResolves(dirs: map<string, seq<string>>, l: Location)
    requires WellFormed(l) && Join(l.root, l.id) !in dirs
    ensures ResolveName(AfterCreate(dirs, l.root, l.id, l.name), Join(l.root, l.id)) == Some(UpToFirst(l.name, '.'))
    ensures ResolveName(AfterCreate(dirs, l.root, l.id, l.name), Join(l.root, l.id)) == Some(l.name) <==> '.' !in l.name
  {
    var entry := l.name + ".git";
    var after := AfterCreate(dirs, l.root, l.id, l.name);
    CreatedParentLists(dirs, l.root, l.id, l.name);
    InitEntryWhole(l.name);
    ResolveSingleEntry(after, Join(l.root, l.id), entry);
    UpToFirstAppend(l.name, ".git", '.');
  }

  /**
   * A name that puts the repository in a subdirectory of `{root}/{id}` even
   * after `filepath.Join` cleans the path: it holds a '/', its first element
   * is neither empty nor ".", and no element is "..".
   */
  ghost predicate NestedName(name: string) {
    var first := UpToFirst(name, '/');
    '/' in name && first != "" && first != "." && !Contains("/" + name + ".git", "/../")
  }

  /**
   * A nested name is created below a subdirectory of `{root}/{id}`. Unless
   * that subdirectory's name ends in ".git", looking the id up finds
   * nothing, although the repository exists.
   */
  lemma NestedNameNotFound(dirs: map<string, seq<string>>, root: string, id: string, name: string)
    requires Join(root, id) !in dirs && NestedName(name) && !HasSuffix(UpToFirst(name, '/'), ".git")
    ensures ResolveName(AfterCreate(dirs, root, id, name), Join(root, id)).None?
  {
    CreatedParentLists(dirs, root, id, name);
    UpToFirstExtend(name, ".git", '/');
  }

  /** Cutting a dotted name at its first '.' moves the repository path. */
  lemma DottedPathDiffers(l: Location)
    requires WellFormed(l) && '.' in l.name
    ensures RepoPath(l.root, l.id, UpToFirst(l.name, '.')) != RepoPath(l.root, l.id, l.name)
  {
    var short := l.(name := UpToFirst(l.name, '.'));
    if RepoPath(l.root, l.id, short.name) == RepoPath(l.root, l.id, l.name) {
      RepoPathInjective(short, l);
    }
  }

  /**
   * For a name with a '.', the repository found by id has a different path
   * from the one created, and no hooks directory exists under it, so the
   * webhook set through it cannot be written.
   */
  lemma DottedNameHasNoHooksDir(dirs: map<string, seq<string>>, l: Location)
    requires WellFormed(l) && Join(l.root, l.id) !in dirs && '.' in l.name
    requires HooksDir(RepoPath(l.root, l.id, UpToFirst(l.name, '.'))) !in dirs
    ensures RepoPath(l.root, l.id, UpToFirst(l.name, '.')) != RepoPath(l.root, l.id, l.name)
    ensures HooksDir(RepoPath(l.root, l.id, UpToFirst(l.name, '.'))) !in AfterCreate(dirs, l.root, l.id, l.name)
  {
    var parent := Join(l.root, l.id);
    var created := RepoPath(l.root, l.id, l.name);
    var found := RepoPath(l.root, l.id, UpToFirst(l.name, '.'));
    DottedPathDiffers(l);
    var hooks := HooksDir(found);
    assert |hooks| > |found| > |parent|;
    HooksDirNotRepoPath(found, created);
    HooksDirInjective(found, created);
    AbsentAfterCreate(dirs, l.root, l.id, l.name, hooks);
  }

  // ---------------------------------------------------------------------
  // Webhook configuration
  // ---------------------------------------------------------------------

  /** hooks/webhook.txt inside the repository. */
  function WebhookFile(repoPath: string): string {
    Join(HooksDir(repoPath), "webhook.txt")
  }

  lemma HooksDirInjective(p: string, q: string)
    requires IsCleanDir(p) && IsCleanDir(q) && p != q
    ensures HooksDir(p) != HooksDir(q)
  {
    DirJoin(p, "hooks");
    DirJoin(q, "hooks");
  }

  /** A hooks directory is never a repository directory: one ends in "hooks", the other in ".git". */
  lemma HooksDirNotRepoPath(p: string, repoPath: string)
    requires HasSuffix(repoPath, ".git")
    ensures HooksDir(p) != repoPath
  {
    var hooks := HooksDir(p);
    assert hooks[|hooks| - 1] == 's';
    assert repoPath[|repoPath| - 1] == repoPath[|repoPath| - 4..][3] == 't';
  }

  lemma WebhookFileInjective(p: string, q: string)
    requires IsCleanDir(p) && IsCleanDir(q) && p != q
    ensures WebhookFile(p) != WebhookFile(q)
  {
    HooksDirInjective(p, q);
    DirJoin(HooksDir(p), "webhook.txt");
    DirJoin(HooksDir(q), "webhook.txt");
  }

  /** GetWebhookURL: the trimmed contents of webhook.txt, or "" when it cannot be read. */
  function GetWebhookURL(files: map<string, string>, repoPath: string): (url: string)
    ensures WebhookFile(repoPath) !in files ==> url == ""
    ensures WebhookFile(repoPath) in files ==> exists lead :: CutFrom(files[WebhookFile(repoPath)], url, lead)
    ensures Trimmed(url)
  {
    var path := WebhookFile(repoPath);
    if path in files then TrimSpace(files[path]) else ""
  }

  /** SetWebhookURL: overwrites webhook.txt with `url`; fails when the hooks directory is missing. */
  method SetWebhookURL(fs: FileSystem, repoPath: string, url: string) returns (ok: bool)
    requires fs.Valid()
    modifies fs
    ensures fs.Valid()
    ensures ok <==> HooksDir(repoPath) in old(fs.dirs)
    ensures fs.WroteFile(HooksDir(repoPath), "webhook.txt", url)
    ensures ok ==> GetWebhookURL(fs.files, repoPath) == TrimSpace(url)
  {
    ok := fs.WriteFile(HooksDir(repoPath), "webhook.txt", url);
  }

  /** After a write, a read gives the written URL trimmed, whatever was there before. */
  lemma WebhookReadAfterWrite(files: map<string, string>, repoPath: string, url: string)
    ensures GetWebhookURL(files[WebhookFile(repoPath) := url], repoPath) == TrimSpace(url)
  {
  }

  /** Writing one repository's webhook leaves every other repository's webhook as it was. */
  lemma WebhookOfOtherRepoUnchanged(files: map<string, string>, mine: Location, other: Location, url: string)
    requires WellFormed(mine) && WellFormed(other) && mine != other
    ensures var path := RepoPath(mine.root, mine.id, mine.name);
      GetWebhookURL(files[WebhookFile(RepoPath(other.root, other.id, other.name)) := url], path)
        == GetWebhookURL(files, path)
  {
    var p := RepoPath(mine.root, mine.id, mine.name);
    var q := RepoPath(other.root, other.id, other.name);
    if p == q {
      RepoPathInjective(mine, other);
    }
    WebhookFileInjective(p, q);
  }

  /**
   * A repository directory that nothing has been written under yet has no
   * webhook: reading it gives "".
   */
  lemma FreshRepoHasNoWebhook(files: map<string, string>, l: Location)
    requires WellFormed(l)
    requires forall f :: f in files ==> !HasPrefix(f, Join(l.root, l.id) + "/")
    ensures GetWebhookURL(files, RepoPath(l.root, l.id, l.name)) == ""
  {
    WebhookFileUnder(l.root, l.id, l.name);
  }

  /** webhook.txt lies under the directory `{root}/{id}`. */
  lemma WebhookFileUnder(root: string, id: string, name: string)
    requires IsComponent(id)
    ensures HasPrefix(WebhookFile(RepoPath(root, id, name)), Join(root, id) + "/")
  {
    var parent := Join(root, id);
    JoinEndsWith(root, id);
    var repoPath := RepoPath(root, id, name);
    assert repoPath == (parent + "/") + (name + ".git");
    JoinEndsWith(repoPath, "hooks");
    var hooks := HooksDir(repoPath);
    assert hooks == (parent + "/") + (name + ".git" + "/hooks");
    JoinEndsWith(hooks, "webhook.txt");
    var file := WebhookFile(repoPath);
    assert file == (parent + "/") + (name + ".git" + "/hooks" + "/webhook.txt");
  }

  // ---------------------------------------------------------------------
  // Notification (TriggerWebhook)
  // ---------------------------------------------------------------------

  /** The POST TriggerWebhook sends: target URL, content type and the JSON object's fields. */
  datatype Delivery = Delivery(url: string, contentType: string, payload: map<string, string>)

  /** GetCommitHash: the trimmed output of `git rev-parse HEAD`, or "" when the command fails. */
  function GetCommitHash(revParse: Option<string>): (hash: string)
    ensures revParse.None? ==> hash == ""
    ensures revParse.Some? ==> exists lead :: CutFrom(revParse.value, hash, lead)
    ensures Trimmed(hash)
  {
    if revParse.None? then "" else TrimSpace(revParse.value)
  }

  /** The JSON object TriggerWebhook posts: exactly the repository's id and name and the commit hash. */
  function Payload(id: string, name: string, commitHash: string): (values: map<string, string>)
    ensures values.Keys == {"repo_id", "repo_name", "git_commit_hash"}
    ensures values["repo_id"] == id && values["repo_name"] == name && values["git_commit_hash"] == commitHash
  {
    map["repo_id" := id, "repo_name" := name, "git_commit_hash" := commitHash]
  }

  /**
   * What TriggerWebhook sends for the repository at `l`: nothing when no URL
   * is configured, otherwise one JSON POST naming the repository and its
   * current commit.
   */
  function WebhookDelivery(files: map<string, string>, l: Location, revParse: Option<string>): (d: Option<Delivery>)
    ensures d.None? <==> GetWebhookURL(files, RepoPath(l.root, l.id, l.name)) == ""
    ensures d.Some? ==>
      && d.value.url == GetWebhookURL(files, RepoPath(l.root, l.id, l.name))
      && d.value.contentType == "application/json"
      && d.value.payload == Payload(l.id, l.name, GetCommitHash(revParse))
  {
    var url := GetWebhookURL(files, RepoPath(l.root, l.id, l.name));
    if url == "" then None
    else Some(Delivery(url, "application/json", Payload(l.id, l.name, GetCommitHash(revParse))))
  }

  /** TriggerWebhook: reads the configured URL and, when there is one, builds the POST. */
  method TriggerWebhook(fs: FileSystem, repo: GitRepo, revParse: Option<string>) returns (delivery: Option<Delivery>)
    ensures delivery == WebhookDelivery(fs.files, Location(repo.root, repo.id, repo.name), revParse)
  {
    var url := GetWebhookURL(fs.files, repo.GetPath());
    if url == "" {
      return None;
    }
    var values := Payload(repo.id, repo.name, GetCommitHash(revParse));
    delivery := Some(Delivery(url, "application/json", values));
  }

}
