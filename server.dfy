/**
 * The server side (server.go): bearer-token checking, routing of the API
 * paths, the three API handlers, and the choice between serving and
 * running as a post-receive hook.
 */
module Server {
  import opened Wrappers
  import opened Strings
  import opened Paths
  import opened Disk
  import opened Repo
  import opened Http

  /** The API token the server accepts. The repository root reaches the handlers as a parameter of its own. */
  datatype Config = Config(token: string)

  // ---------------------------------------------------------------------
  // Authorization (section 2.1 of RFC 6750)
  // ---------------------------------------------------------------------

  /** A header whose lower-cased form starts with "bearer " has its first space at index 6. */
  lemma BearerSpace(authorization: string)
    requires HasPrefix(ToLower(authorization), "bearer ")
    ensures authorization[6] == ' '
    ensures forall i :: 0 <= i < 6 ==> authorization[i] != ' '
  {
    var b := "bearer ";
    LowerPrefixSpaces(authorization, b);
    assert b[6] == ' ';
    forall i | 0 <= i < 6
      ensures authorization[i] != ' '
    {
      assert b[i] != ' ';
    }
  }

  /**
   * getAuthToken: "" unless the header starts with "bearer " in any letter
   * case; otherwise everything after that first space.
   */
  function GetAuthToken(authorization: string): (token: string)
    ensures !HasPrefix(ToLower(authorization), "bearer ") ==> token == ""
    ensures HasPrefix(ToLower(authorization), "bearer ") ==> token == authorization[7..]
  {
    if !HasPrefix(ToLower(authorization), "bearer ") then ""
    else
      var parts := SplitOnce(authorization, ' ');
      BearerSpace(authorization);
      assert authorization[6] in authorization;
      var head := parts[0];
      assert HasPrefix(authorization, head) && |head| < |authorization| && authorization[|head|] == ' ' by {
        assert (head + [' '] + parts[1])[..|head|] == head;
        assert (head + [' '] + parts[1])[|head|] == ' ';
      }
      assert |head| == 6;
      assert parts[1] == (head + [' '] + parts[1])[7..];
      if |parts| == 2 then parts[1] else ""
  }

  /** The first space-separated word is not the token: the token may be empty or hold further spaces. */
  lemma AuthTokenKeepsSpaces(credentials: string)
    ensures GetAuthToken("Bearer " + credentials) == credentials
    ensures GetAuthToken("bearer " + credentials) == credentials
  {
    var bearer := "bearer ";
    assert ToLower("Bearer ") == bearer && ToLower(bearer) == bearer;
    ToLowerAppend("Bearer ", credentials);
    ToLowerAppend(bearer, credentials);
    assert (bearer + ToLower(credentials))[..7] == bearer;
    assert ("Bearer " + credentials)[7..] == credentials && (bearer + credentials)[7..] == credentials;
  }

  /** A request may reach a handler only with a non-empty token equal to the configured one. */
  predicate Authorized(r: Request, config: Config) {
    var token := GetAuthToken(r.authorization);
    token != "" && token == config.token
  }

  // ---------------------------------------------------------------------
  // Routing: ^/api/repos/([0-9a-f]+)$ and ^/api/repos/([0-9a-f]+)/hook$
  // ---------------------------------------------------------------------

  const ReposPath := "/api/repos"
  const RepoPrefix := "/api/repos/"
  const HookSuffix := "/hook"

  /** REGEX_REPO: the id of a path `/api/repos/<hex>`. */
  function MatchRepo(path: string): (id: Option<string>)
    ensures id.Some? ==> IsHexId(id.value) && path == RepoPrefix + id.value
  {
    if HasPrefix(path, RepoPrefix) && IsHexId(path[|RepoPrefix|..]) then
      assert path == path[..|RepoPrefix|] + path[|RepoPrefix|..];
      Some(path[|RepoPrefix|..])
    else None
  }

  /** REGEX_HOOK: the id of a path `/api/repos/<hex>/hook`. */
  function MatchHook(path: string): (id: Option<string>)
    ensures id.Some? ==> IsHexId(id.value) && path == RepoPrefix + id.value + HookSuffix
  {
    if HasPrefix(path, RepoPrefix) && HasSuffix(path, HookSuffix) && |path| >= |RepoPrefix| + |HookSuffix|
       && IsHexId(path[|RepoPrefix|..|path| - |HookSuffix|])
    then
      var id := path[|RepoPrefix|..|path| - |HookSuffix|];
      assert path == path[..|RepoPrefix|] + id + path[|path| - |HookSuffix|..];
      Some(id)
    else None
  }

  /** Every `/api/repos/<hex>` path matches REGEX_REPO with that id, and no other pattern. */
  lemma MatchRepoPath(id: string)
    requires IsHexId(id)
    ensures MatchRepo(RepoPrefix + id) == Some(id)
    ensures MatchHook(RepoPrefix + id).None?
    ensures RepoPrefix + id != ReposPath
  {
    var path := RepoPrefix + id;
    assert path[..|RepoPrefix|] == RepoPrefix && path[|RepoPrefix|..] == id;
    if |path| >= |RepoPrefix| + |HookSuffix| {
      assert path[|path| - 5] == id[|id| - 5] != '/';
      assert path[|path| - |HookSuffix|..][0] == path[|path| - 5];
    }
    assert |path| != |ReposPath|;
  }

  /** Every `/api/repos/<hex>/hook` path matches REGEX_HOOK with that id, and no other pattern. */
  lemma MatchHookPath(id: string)
    requires IsHexId(id)
    ensures MatchHook(RepoPrefix + id + HookSuffix) == Some(id)
    ensures MatchRepo(RepoPrefix + id + HookSuffix).None?
    ensures RepoPrefix + id + HookSuffix != ReposPath
  {
    var path := RepoPrefix + id + HookSuffix;
    assert path[..|RepoPrefix|] == RepoPrefix;
    assert path[|path| - |HookSuffix|..] == HookSuffix;
    assert path[|RepoPrefix|..|path| - |HookSuffix|] == id;
    assert path[|RepoPrefix|..][|id|] == '/';
    assert |path| != |ReposPath|;
  }

  /** An id that reaches a handler is a single path element with no '.', so it names one directory. */
  lemma RoutedIdIsPlain(id: string)
    requires IsHexId(id)
    ensures IsComponent(id) && '.' !in id
  {
    assert forall c :: c in id ==> IsLowerHex(c);
  }

  // ---------------------------------------------------------------------
  // The handlers
  // ---------------------------------------------------------------------

  twostate predicate Unchanged(fs: FileSystem)
    reads fs
  {
    fs.dirs == old(fs.dirs) && fs.files == old(fs.files)
  }

  /** The error apiCreateRepo reports when NewRepo fails. */
  const CreateFailedMessage := "Failed to create repo"

  /** apiCreateRepo's reply and effect on the disk. */
  twostate predicate CreateReplied(w: ResponseWriter, fs: FileSystem, r: Request, gitRoot: string, c: Collaborators)
    reads w, fs
  {
    if r.verb != "POST" then
      w.status == 405 && w.body == [] && w.sentHeader == old(w.header) && Unchanged(fs)
    else if r.body.Malformed? then
      && w.status == 400 && w.body == [Text(r.body.error + "\n")]
      && w.sentHeader == ErrorHeader(old(w.header)) && Unchanged(fs)
    else
      var name := Field(r.body.fields, "name");
      var id := IdFromUuid(c.uuid);
      && fs.files == old(fs.files)
      && fs.dirs == (if Created(c) then AfterCreate(old(fs.dirs), gitRoot, id, name)
                     else if c.uuidStep.Done? && c.gitInit.Done? then AfterInit(old(fs.dirs), gitRoot, id, name)
                     else old(fs.dirs))
      && (Created(c) ==>
            && w.status == 200 && w.sentHeader == old(w.header)
            && w.body == [RepoJson(id, name, RemoteURL(r.host, id, name))])
      && (!Created(c) ==>
            && w.status == 500 && w.sentHeader == ErrorHeader(old(w.header))
            && w.body == [Text(CreateFailedMessage + "\n"), RepoJson("", "", RemoteURL(r.host, "", ""))])
  }

  /** apiCreateRepo: creates a repository from the `name` in the JSON body and replies with it. */
  method ApiCreateRepo(w: ResponseWriter, r: Request, gitRoot: string, fs: FileSystem, c: Collaborators)
    requires w.Unsent() && fs.Valid()
    modifies w, fs
    ensures fs.Valid()
    ensures CreateReplied(w, fs, r, gitRoot, c)
  {
    if r.verb != "POST" {
      w.WriteHeader(405);
      return;
    }
    if r.body.Malformed? {
      Error(w, r.body.error, 400);
      return;
    }
    var repo, err := NewRepo(fs, gitRoot, Field(r.body.fields, "name"), c);
    ReplyCreated(w, repo, r.host, err.Some?);
  }

  /** The end of apiCreateRepo: the error line when creation failed, then the repository as JSON. */
  method ReplyCreated(w: ResponseWriter, repo: GitRepo, host: string, failed: bool)
    requires w.Unsent()
    modifies w, repo`gitURL
    ensures var json := RepoJson(repo.id, repo.name, RemoteURL(host, repo.id, repo.name));
      if failed then
        && w.status == 500 && w.sentHeader == ErrorHeader(old(w.header))
        && w.body == [Text(CreateFailedMessage + "\n"), json]
      else
        w.status == 200 && w.sentHeader == old(w.header) && w.body == [json]
  {
    if failed {
      Error(w, CreateFailedMessage, 500);
    }
    repo.InitGitURL(host);
    w.Write(RepoJson(repo.id, repo.name, repo.gitURL));
  }

  /** apiRepo's reply: 404 for an unknown id, otherwise the repository as GetRepo finds it. */
  twostate predicate RepoReplied(w: ResponseWriter, fs: FileSystem, r: Request, gitRoot: string, id: string)
    reads w, fs
  {
    && Unchanged(fs)
    && match ResolveName(fs.dirs, Join(gitRoot, id))
       case None => w.status == 404 && w.body == [] && w.sentHeader == old(w.header)
       case Some(name) =>
         && w.status == 200 && w.sentHeader == old(w.header)
         && w.body == [RepoJson(id, name, RemoteURL(r.host, id, name))]
  }

  /** apiRepo: looks the repository up by id and replies with it. */
  method ApiRepo(w: ResponseWriter, r: Request, id: string, gitRoot: string, fs: FileSystem)
    requires w.Unsent() && fs.Valid()
    modifies w
    ensures RepoReplied(w, fs, r, gitRoot, id)
  {
    var repo := GetRepo(fs, gitRoot, id);
    if repo == null {
      w.WriteHeader(404);
      return;
    }
    repo.InitGitURL(r.host);
    w.Write(RepoJson(repo.id, repo.name, repo.gitURL));
  }

  /**
   * apiRepoHook's reply: 404 for an unknown id; GET shows the stored URL;
   * POST stores the posted URL (a missing hooks directory goes unnoticed)
   * and echoes it; any other method writes nothing.
   */
  twostate predicate HookReplied(w: ResponseWriter, fs: FileSystem, r: Request, gitRoot: string, id: string)
    reads w, fs
  {
    match ResolveName(old(fs.dirs), Join(gitRoot, id))
    case None => w.status == 404 && w.body == [] && w.sentHeader == old(w.header) && Unchanged(fs)
    case Some(name) => HookFound(w, fs, r, RepoPath(gitRoot, id, name))
  }

  /** apiRepoHook's reply once the repository at `path` is found. */
  twostate predicate HookFound(w: ResponseWriter, fs: FileSystem, r: Request, path: string)
    reads w, fs
  {
    if r.verb == "GET" then
      && Unchanged(fs) && w.status == 200
      && w.sentHeader == old(w.header)["Content-Type" := "application/json"]
      && w.body == [HookJson(GetWebhookURL(fs.files, path))]
    else if r.verb == "POST" then
      if r.body.Malformed? then
        && Unchanged(fs) && w.status == 400
        && w.sentHeader == ErrorHeader(old(w.header))
        && w.body == [Text(r.body.error + "\n")]
      else
        var url := Field(r.body.fields, "url");
        && fs.WroteFile(HooksDir(path), "webhook.txt", url)
        && w.status == 200
        && w.sentHeader == old(w.header)["Content-Type" := "application/json"]
        && w.body == [HookJson(url)]
    else
      Unchanged(fs) && w.status == 0 && w.body == []
  }

  /** apiRepoHook: reads or replaces the webhook URL of the repository with this id. */
  method ApiRepoHook(w: ResponseWriter, r: Request, id: string, gitRoot: string, fs: FileSystem)
    requires w.Unsent() && fs.Valid()
    modifies w, fs
    ensures fs.Valid()
    ensures HookReplied(w, fs, r, gitRoot, id)
  {
    var repo := GetRepo(fs, gitRoot, id);
    if repo == null {
      w.WriteHeader(404);
      return;
    }
    if r.verb == "GET" {
      var url := GetWebhookURL(fs.files, repo.GetPath());
      w.SetHeader("Content-Type", "application/json");
      w.Write(HookJson(url));
    } else if r.verb == "POST" {
      if r.body.Malformed? {
        Error(w, r.body.error, 400);
        return;
      }
      var url := Field(r.body.fields, "url");
      var _ := SetWebhookURL(fs, repo.GetPath(), url);
      w.SetHeader("Content-Type", "application/json");
      w.Write(HookJson(url));
    }
  }

  /**
   * handleAPI: 401 without a bearer token, 403 with the wrong one; otherwise
   * the path picks the handler, and any other path gets 404.
   */
  method HandleAPI(w: ResponseWriter, r: Request, config: Config, gitRoot: string, fs: FileSystem, c: Collaborators)
    requires w.Unsent() && fs.Valid()
    modifies w, fs
    ensures fs.Valid()
    ensures w.status == 401 <==> GetAuthToken(r.authorization) == ""
    ensures w.status == 403 <==> GetAuthToken(r.authorization) != "" && !Authorized(r, config)
    ensures !Authorized(r, config) ==> w.body == [] && w.sentHeader == old(w.header) && Unchanged(fs)
    ensures GetAuthToken(r.authorization) == "" ==> w.header == old(w.header)["Www-Authenticate" := "Bearer"]
    ensures Authorized(r, config) && r.path == ReposPath ==> CreateReplied(w, fs, r, gitRoot, c)
    ensures Authorized(r, config) && MatchRepo(r.path).Some? ==> RepoReplied(w, fs, r, gitRoot, MatchRepo(r.path).value)
    ensures Authorized(r, config) && MatchHook(r.path).Some? ==> HookReplied(w, fs, r, gitRoot, MatchHook(r.path).value)
    ensures Authorized(r, config) && r.path != ReposPath && MatchRepo(r.path).None? && MatchHook(r.path).None? ==>
              w.status == 404 && w.body == [] && Unchanged(fs)
  {
    var token := GetAuthToken(r.authorization);
    if token == "" {
      w.WriteHeader(401);
      w.SetHeader("Www-Authenticate", "Bearer");
      return;
    } else if token != config.token {
      w.WriteHeader(403);
      return;
    }
    if r.path == ReposPath {
      ApiCreateRepo(w, r, gitRoot, fs, c);
      return;
    }
    var repoId := MatchRepo(r.path);
    if repoId.Some? {
      MatchRepoPath(repoId.value);
      ApiRepo(w, r, repoId.value, gitRoot, fs);
      return;
    }
    var hookId := MatchHook(r.path);
    if hookId.Some? {
      ApiRepoHook(w, r, hookId.value, gitRoot, fs);
      return;
    }
    w.WriteHeader(404);
  }

  // ---------------------------------------------------------------------
  // Hook mode
  // ---------------------------------------------------------------------

  /** isPostReceive: the program was started under a name ending in "post-receive". */
  predicate IsPostReceive(argv0: string) {
    HasSuffix(argv0, "post-receive")
  }

  /** Started through the link NewRepo installs, the program runs in hook mode. */
  lemma HookLinkSelectsHookMode(repoPath: string)
    ensures IsPostReceive(PostReceiveLink(repoPath))
  {
    var link := PostReceiveLink(repoPath);
    var name := "post-receive";
    assert link[|link| - |name|..] == name;
  }

  /** What a post-receive run does: notify, or report that `cwd` is no repository. */
  datatype HookRun = Triggered(delivery: Option<Delivery>) | RepoNotFound(message: string)

  /** handlePostReceive's outcome for the working directory `cwd`. */
  function PostReceiveOutcome(files: map<string, string>, cwd: string, revParse: Option<string>): (run: HookRun)
    ensures run.RepoNotFound? <==> !HasSuffix(cwd, ".git")
    ensures run.RepoNotFound? ==> run.message == "Failed to find the repo: " + cwd
  {
    match ParseRepoPath(cwd)
    case None => RepoNotFound("Failed to find the repo: " + cwd)
    case Some(l) => Triggered(WebhookDelivery(files, l, revParse))
  }

  /** handlePostReceive: the repository is read off the working directory. */
  method HandlePostReceive(fs: FileSystem, cwd: string, revParse: Option<string>) returns (run: HookRun)
    ensures run == PostReceiveOutcome(fs.files, cwd, revParse)
  {
    var repo := RepoFromPath(cwd);
    if repo == null {
      return RepoNotFound("Failed to find the repo: " + cwd);
    }
    var delivery := TriggerWebhook(fs, repo, revParse);
    run := Triggered(delivery);
  }

  /**
   * A push into a repository whose name holds no ".git" notifies the URL
   * stored for that same repository, with its id, name and commit.
   */
  lemma PostReceiveNotifiesStoredWebhook(files: map<string, string>, l: Location, url: string, revParse: Option<string>)
    requires WellFormed(l) && !Contains(l.name, ".git") && TrimSpace(url) != ""
    ensures var p := RepoPath(l.root, l.id, l.name);
      PostReceiveOutcome(files[WebhookFile(p) := url], p, revParse)
        == Triggered(Some(Delivery(TrimSpace(url), "application/json", Payload(l.id, l.name, GetCommitHash(revParse)))))
  {
    RepoPathRoundTrip(l);
  }

  /** What the program does: serve the API, or run as the post-receive hook. */
  datatype Mode = ServerMode | HookMode(run: HookRun)

  /** main: hook mode exactly when started as post-receive. */
  method Dispatch(argv0: string, cwd: string, fs: FileSystem, revParse: Option<string>) returns (mode: Mode)
    ensures mode.HookMode? <==> IsPostReceive(argv0)
    ensures mode.HookMode? ==> mode.run == PostReceiveOutcome(fs.files, cwd, revParse)
  {
    if IsPostReceive(argv0) {
      var run := HandlePostReceive(fs, cwd, revParse);
      mode := HookMode(run);
    } else {
      mode := ServerMode;
    }
  }

}
