# gitto in Dafny

gitto is a small git hosting service. An HTTP API, guarded by a bearer
token, creates bare repositories at `{root}/{id}/{name}.git`, where the id
is a random UUID with its hyphens removed. The API looks repositories up by
id and stores a webhook URL for each one in `hooks/webhook.txt`. Each new
repository gets the gitto executable linked in as its `post-receive` hook.
When git runs that hook after a push, gitto starts in hook mode. It works
out the repository from its working directory and POSTs a JSON notice to
the stored webhook URL.

This project models the core of repo.go and server.go:

- how a repository path is built, and how it is read back from a directory
  listing (`GetRepo`) or from the path alone (`RepoFromPath`);
- how `NewRepo` forms the id and runs its steps, returning at the first
  error;
- the remote URL;
- the webhook store, and what the hook sends;
- the authorization check and routing in `handleAPI`;
- the three API handlers;
- the choice between serving the API and running as a hook.

Modules:

- `Strings`: the parts of Go's `strings` package that the code uses. These
  are HasPrefix, HasSuffix, cutting at the first separator (Split(..)[0] and
  SplitN(.., 2)), removing every occurrence (Replace with -1), TrimSpace
  with Go's white-space set, and ASCII ToLower.
- `Paths`: `filepath.Join`, `Dir` and `Base` on plain path elements.
- `Disk`: a `FileSystem` class. It holds the existing directories with
  their listings, always kept in the sorted order `filepath.Glob` returns,
  and the readable files. `WriteFile` fails exactly when the parent
  directory is missing.
- `Repo`: repo.go. `GitRepo` is a class. Its root, id and name are
  constants, and `InitGitURL` sets its URL in place. Path parsing, name
  resolution, id formation and the webhook payload are functions. The
  steps that change the disk are methods over a `FileSystem`.
- `Http`: the parts of `net/http` the handlers depend on. A
  `ResponseWriter` fixes the status and the header at the first
  `WriteHeader` or `Write`, and later calls to `WriteHeader` are ignored.
  `http.Error` is modelled too.
- `Server`: server.go. `GetAuthToken`, the two route regexes and
  `IsPostReceive` are functions. The handlers are methods writing to a
  `ResponseWriter`. Their outcomes are stated as two-state predicates
  (`CreateReplied`, `RepoReplied`, `HookReplied`).

Collaborators the code calls out to are inputs to the model:

- the text of the random UUID and whether generating it failed;
- whether `git init --bare` and the hook link succeed;
- the output of `git rev-parse HEAD`;
- the working directory;
- `argv[0]`.

Where the documented behaviour and the code differ, the model follows the
code:

- `GetRepo` takes the first `*.git` entry in sorted order. It does not
  refuse a directory that holds several entries.
- `GetRepo` sets the name to the entry's text up to its first `.`, rather
  than the entry with the `.git` suffix removed. So a repository created
  as `my.site` is found by id under the name `my`
  (`Repo.CreatedRepoResolves`). The API then reads and writes that
  repository's webhook under `{root}/{id}/my.git/hooks`, which does not
  exist (`Repo.DottedNameHasNoHooksDir`).
- A name holding a '/' whose first element is neither empty nor "." and that has no ".." element makes `git init` create the repository in a subdirectory of `{root}/{id}`. The lookup by id then globs `{root}/{id}/*.git` and finds nothing unless that subdirectory's own name ends in `.git` (`Repo.NestedNameNotFound`).
- `RepoFromPath` removes every `.git` from the last element, not only the
  suffix (`Repo.RepoPathRoundTrip`, `Repo.RepoPathDropsGitSuffix`).
- When `NewRepo` fails, `apiCreateRepo` replies with status 500 and the
  error line. It then continues: it still builds a URL for the zero
  repository and appends that repository's JSON to the body
  (`Server.CreateReplied`).
- `handleAPI` sets `WWW-Authenticate` only after `WriteHeader(401)`, so the
  header is never sent. `HandleAPI` states that the header sent is the one
  from before the call.
- The error returned by `SetWebhookURL` is ignored. `apiRepoHook` echoes
  the posted URL whether or not it was stored.

## Model

| member | source | states |
|---|---|---|
| Repo.RepoPath | repo.go:41-44 | Let the root be a clean directory other than "/" and the id a single element. Then the path is exactly root + "/" + id + "/" + name + ".git". In every case the path ends in ".git" and has no trailing slash. |
| Repo.ParseRepoPath | repo.go:82-98 | A path is rejected (no repository) exactly when it does not end in ".git". |
| Repo.RepoFromPath | repo.go:82-98 | Returns nil exactly when the path does not end in ".git". Otherwise it returns a new repository whose root, id and name are the grandparent directory, the parent's base name, and the last element with every ".git" removed. |
| Repo.ParseRepoPathOfRepoPath | repo.go:87-97 | Take a root that is non-empty with no trailing '/', an id that is one path element other than "." and "..", and a name without '/'. Reading that repository's own path gives back its root and id, and its name with every ".git" removed. |
| Repo.RepoPathRoundTrip | repo.go:87-97 | Take a root that is non-empty with no trailing '/', an id that is one path element other than "." and "..", and a name without '/'. `RepoFromPath(GetPath(r))` gives back `r` if and only if the name contains no ".git". |
| Repo.RepoPathDropsGitSuffix | repo.go:91 | Take a root that is non-empty with no trailing '/', an id that is one path element other than "." and "..", and a name without '/', and let the name `n` contain no ".git". A repository named `n + ".git"` is read back from its path as the repository named `n`. |
| Repo.RepoPathInjective | repo.go:41-44 | Two repositories, each with a clean root, a one-element id other than "." and ".." and a name without '/', have the same path only if they are the same repository. |
| Repo.IdFromUuid | repo.go:104 | The id holds exactly the UUID text's characters other than '-'. A text without '-' is its own id. |
| Repo.IdFromCanonicalUuid | repo.go:101-104 | Take a UUID in canonical 8-4-4-4-12 lowercase form. With its hyphens removed it gives its five groups joined together, an id of exactly 32 lowercase hex digits. |
| Repo.GitRepo.GetPath | repo.go:41-44 | For a clean root other than "/" and a one-element id, the handle's path is exactly root + "/" + id + "/" + name + ".git". In every case it ends in ".git" and has no trailing slash. |
| Repo.GitRepo.InitGitURL | repo.go:47-57 | Sets only the git URL, to the remote URL `scheme://host/id/name.git` for the request's host and the repository's id and name. |
| Repo.RemoteURL | repo.go:47-57 | The URL starts with "http://" exactly when the host starts with "localhost", and with "https://" exactly when it does not. It ends in "/" + id + "/" + name + ".git". It is exactly that scheme, then "://", the host, "/" + id + "/" + name + ".git". |
| Repo.FirstGitEntry | repo.go:67-72 | Finds the first listed name ending in ".git". Every name before it does not end in ".git", and -1 means no name does. |
| Repo.ResolveName | repo.go:59-80 | Gives no name exactly when `{root}/{id}` is not a directory or lists no `*.git` entry. Otherwise the name comes from the first `*.git` entry in listing order (`FirstGitEntry`). It is a prefix of that entry, contains no '.', and is followed in the entry by a '.', so it is the entry cut exactly at its first '.'. |
| Repo.GetRepo | repo.go:59-80 | Works on a disk whose listings are in the sorted order `filepath.Glob` returns. Returns nil exactly when the name cannot be resolved. Otherwise it returns a new repository with the given root and id, the resolved name and no URL. |
| Repo.InitRepo | repo.go:146-159 | Fails with the reason from `git init` exactly when that step fails. On success `{root}/{id}` lists the first path element of `{name}.git`, which is all of it when the name holds no '/'; the repository directory and its hooks directory exist. The listings stay sorted and no file changes. |
| Repo.AfterInit | repo.go:146-159 | The directory map after `git init` keeps its listings sorted. It adds exactly `{root}/{id}`, the repository directory and its hooks directory. `{root}/{id}` gains, in sorted place, the first path element of `{name}.git`, which is all of it unless the name holds a '/'. The repository directory gains `hooks` in sorted place and keeps its earlier entries. The hooks directory keeps its listing, empty if it is new. Every other directory keeps its listing. |
| Repo.NestedNameNotFound | repo.go:67-72 | A name holding a '/', whose first element is neither empty nor "." and with no ".." element, puts the repository in a subdirectory of `{root}/{id}` even after `filepath.Join` cleans the path. When that subdirectory's name does not end in ".git", looking the id up finds nothing, although the repository was created. This holds when `{root}/{id}` did not exist before the creation. |
| Repo.InstallPostReceive | repo.go:162-176 | Fails with the link's reason exactly when linking fails. On success the hooks directory lists `post-receive`, and nothing else changes. |
| Repo.AfterLink | repo.go:170 | The directory map after linking keeps its listings sorted. Its hooks directory gains `post-receive` in sorted place and keeps its earlier entries. Every other directory is unchanged. |
| Repo.NewRepo | repo.go:100-130 | Succeeds exactly when all three steps succeed, and returns the repository `{root, id from the UUID, name}`. A UUID failure returns its own error. A failed init or link returns "Failed to create repository (reason)". Every error comes with the zero repository. Only the steps that ran change the disk. A failed init is taken to change nothing, and no hook link is attempted after it. |
| Repo.CreatedRepoResolves | repo.go:67-79 | Take a root that is non-empty with no trailing '/', an id that is one path element other than "." and "..", and a name without '/', and let `{root}/{id}` not exist before. After a successful creation, looking the id up gives the name cut at its first '.'. It gives back the same name exactly when the name contains no '.'. |
| Repo.DottedNameHasNoHooksDir | repo.go:73 | Take a root that is non-empty with no trailing '/', an id that is one path element other than "." and "..", and a name without '/', with a '.' in the name, and let `{root}/{id}` and the hooks directory under the shortened name not exist before. Then the repository found by id has a different path from the one created. No hooks directory exists under that path. |
| Repo.GetWebhookURL | repo.go:179-188 | Gives "" when `hooks/webhook.txt` cannot be read. Otherwise it gives the file's contents with surrounding white space trimmed. |
| Repo.SetWebhookURL | repo.go:191-194 | Overwrites `hooks/webhook.txt` with the URL. It fails, changing nothing, exactly when the hooks directory is missing. After a successful write, reading gives the trimmed URL. |
| Repo.WebhookReadAfterWrite | repo.go:179-194 | After a successful set, that is, one whose hooks directory exists, a get gives the set URL trimmed, whatever was stored before. |
| Repo.WebhookOfOtherRepoUnchanged | repo.go:179-194 | For two different repositories, each with a root that is non-empty with no trailing '/', an id that is one path element other than "." and "..", and a name without '/', setting one's webhook leaves the other's as it was. |
| Repo.FreshRepoHasNoWebhook | repo.go:179-188 | Take a root that is non-empty with no trailing '/', an id that is one path element other than "." and "..", and a name without '/'. When no file lies under `{root}/{id}`, as before the repository is created (creation writes no file), reading its webhook gives "". |
| Repo.GetCommitHash | repo.go:132-143 | Gives "" when `git rev-parse` fails. Otherwise it gives a slice of the output with no white space at either end, and everything outside that slice is white space: the output trimmed. |
| Repo.WebhookDelivery | repo.go:196-217 | Sends nothing exactly when the stored URL is "". Otherwise it sends one JSON POST to that URL. The POST's payload (`Repo.Payload`) has exactly the keys repo_id, repo_name and git_commit_hash, holding the id, the name and the trimmed `git rev-parse` output. |
| Repo.TriggerWebhook | repo.go:196-217 | Builds the delivery that `WebhookDelivery` describes for this repository. |
| Disk.FileSystem.WriteFile | repo.go:193 | Writing succeeds exactly when the parent directory exists. It then sets the file's contents and lists it in the directory, and the listings stay sorted. |
| Disk.Insert | repo.go:67 | Inserting a name into a sorted listing keeps it sorted. The result holds exactly the old names plus the new one. |
| Paths.BaseJoin | repo.go:90-91 | The base of `Join(dir, element)` is that element. |
| Paths.DirJoin | repo.go:87-88 | The directory of `Join(dir, element)` is that clean directory. |
| Strings.UpToFirstUnique | repo.go:73 | `strings.Split(s, ".")[0]` is the unique prefix that contains no '.' and is followed by '.' or by the end of `s`. |
| Strings.RemoveAllTrailingExact | repo.go:91 | Removing every ".git" from `s + ".git"` gives back `s` exactly when `s` contains no ".git". |
| Strings.RemoveAllContainedShrinks | repo.go:91 | When `s` already contains ".git", removing every ".git" from `s + ".git"` loses at least four characters of `s`. |
| Strings.TrimSpaceFixedPoint | repo.go:187 | TrimSpace leaves a string unchanged exactly when it has no white space at either end. Trimming twice is the same as trimming once. |
| Server.GetAuthToken | server.go:68-82 | Gives "" unless the lower-cased header starts with "bearer ". Otherwise it gives everything after the seventh character. So `SplitN`'s single-part branch can never be taken. |
| Server.AuthTokenKeepsSpaces | server.go:75-78 | The token is the whole rest of the header after "Bearer " in either letter case. It may be empty or contain further spaces. |
| Server.MatchRepo | server.go:84 | A match yields a non-empty lowercase hex id, and the path is exactly "/api/repos/" + id. |
| Server.MatchHook | server.go:85 | A match yields a non-empty lowercase hex id, and the path is exactly "/api/repos/" + id + "/hook". |
| Server.MatchRepoPath | server.go:84-85 | Every "/api/repos/<hex>" matches the repo pattern with that id. It matches neither the hook pattern nor the create path. |
| Server.MatchHookPath | server.go:84-85 | Every "/api/repos/<hex>/hook" matches the hook pattern with that id. It matches neither the repo pattern nor the create path. |
| Server.RoutedIdIsPlain | server.go:106-116 | An id handed to a handler is a single path element containing no '.'. |
| Server.ApiCreateRepo | server.go:121-144 | Answers 405 for methods other than POST and 400 with the decode error for a bad body, changing nothing in either case. On success it answers 200 with the new repository's id, name and URL. When creation fails it answers 500 with the error line and then the zero repository's JSON. The disk changes as `NewRepo` says. |
| Server.ReplyCreated | server.go:137-144 | After a failed creation the reply is status 500, the error line and then the repository's JSON. After a successful one it is status 200 and the JSON alone. The JSON carries the repository's id, name and remote URL. |
| Server.ApiRepo | server.go:146-157 | Answers 404 for an unknown id. Otherwise it answers 200 with the id, the resolved name and their remote URL. The disk never changes. |
| Server.ApiRepoHook | server.go:159-191 | Answers 404 for an unknown id before looking at the method. GET answers with the stored URL as JSON. POST with a bad body answers 400. Otherwise POST stores the posted URL (a missing hooks directory goes unnoticed) and echoes it. Any other method writes nothing. |
| Server.HandleAPI | server.go:87-119 | Answers 401 exactly when there is no bearer token, and 403 exactly when there is one but it differs from the configured token. Either way no body is written, the disk is unchanged, and `WWW-Authenticate` is never sent. With the right token: "/api/repos" creates, repo paths go to apiRepo, hook paths go to apiRepoHook, and anything else answers 404. |
| Server.HookLinkSelectsHookMode | server.go:207-209 | `Server.IsPostReceive` is the suffix test on argv[0]. Run through the `hooks/post-receive` link that NewRepo installs, the program counts as started in hook mode. |
| Server.PostReceiveOutcome | server.go:211-219 | Reports "Failed to find the repo: " + cwd exactly when the working directory does not end in ".git". Otherwise it triggers the webhook of the repository read off the path. |
| Server.HandlePostReceive | server.go:211-219 | Runs as `PostReceiveOutcome` describes. |
| Server.PostReceiveNotifiesStoredWebhook | server.go:211-219 | Take a repository whose root is non-empty with no trailing '/', whose id is one path element other than "." and "..", and whose name holds neither '/' nor ".git". Store a URL for it that is not all white space. A push into that repository then notifies that URL, trimmed. The notice carries the repository's id, its name and the commit hash. |
| Server.Dispatch | server.go:221-227 | Hook mode runs if and only if argv[0] ends in "post-receive" (`Server.IsPostReceive`), and then does what `PostReceiveOutcome` says. |

## Left out

- Git itself is not modelled. `git init --bare`, `git rev-parse HEAD` and `os.Symlink` are inputs that succeed or fail.
- Repo.InitRepo: a failed `git init --bare` is taken to change no directory, because a partly created repository is not modelled. The code promises no such thing: `initRepo` (repo.go:146-159) only passes git's error on, so whatever git created before failing stays on disk.
- Repo.NewRepo: after a failed `git init --bare` it leaves the directories as they were only because `InitRepo` is modelled that way. The code does no clean-up (repo.go:116-120), so a half-created repository may remain. After a failed hook link the initialised repository does stay, and the model says so.
- Repo.AfterInit: of what `git init --bare` writes, only the repository directory and its `hooks` directory are modelled. `HEAD`, `config`, `objects`, `refs` and the sample hooks are not. For a name holding a '/', `{root}/{id}` lists the first element of the name, but the directories between it and the repository are not added. Names that `filepath.Join` would clean into another place (a leading '/', a "." or ".." element) are listed as written, not where git would create them. `{root}` does not gain `{id}` in its listing, and a missing `{root}` is not created: only `{root}/{id}` and the directories below it are.
- `http.Post` to the webhook, copying its reply to standard output, and `log.Fatal` on a failed POST are not modelled. The model stops at the request that would be sent (`Repo.Delivery`).
- JSON encoding is not modelled. A reply body names the value that is encoded (`Http.Chunk`). A request body is either a decode error or the string fields of an object (`Http.JsonBody`). Go's case-insensitive matching of field names is not modelled.
- The process environment is not modelled: `init`, `Config.load`, `filepath.Abs` and the fatal errors for a missing token. The git root and the token are parameters.
- The server plumbing is not modelled: `Serve`, `http.ListenAndServe`, the CGI proxy to `git http-backend` (`gitHttpBackend`) and concurrent requests.
- Logging is not modelled. The `fmt.Printf` message in hook mode is returned as `Server.HookRun.RepoNotFound`.
- Repo.WellFormed: the root is only required to be non-empty with no trailing '/'. Go's `filepath.Join` also cleans doubled slashes and "." and ".." elements inside the root, so for a root such as "a//b" the path lemmas say more than Go does. In gitto the root comes from `filepath.Abs` (repo.go:27), which returns a cleaned path.
- Paths.Join: `filepath.Clean` is not applied. "..", "." and doubled slashes are not normalised. The path lemmas hold for elements without '/'.
- Repo.GetRepo: a git root containing glob metacharacters is not modelled. A directory entry that cannot be read is not modelled either.
- Disk.FileSystem.WriteFile: failures other than a missing parent directory are not modelled. These include permissions, a full disk and a path that is a directory.
- Strings.ToLower: only ASCII letters are lowered, where Go lowers all of Unicode. No non-ASCII character lowers to one of the letters in "bearer ", so this does not change `GetAuthToken`.
- Strings are sequences of code points, while Go indexes UTF-8 bytes. Indices differ only for non-ASCII text.
- Header names are written in Go's canonical form, so the source's "Content-type" and "WWW-Authenticate" appear as "Content-Type" and "Www-Authenticate". `net/http`'s own defaults (Content-Type sniffing, Date, Content-Length) are not modelled.
- A handler that returns without writing leaves status 0 in the model. `net/http` then sends 200 with an empty body.
- `uuid.NewRandom` is not modelled. The UUID text and whether generating it failed are inputs. A valid UUID's text is canonical (`Repo.IsCanonicalUuid`).
