# Download orchestrator of Downloader for Apple Developers, in Dafny

This project models `DownloadProcessManager`, the shared object that starts one
external `aria2c` download per file URL and reports progress to its delegate. Its state is:

- the optional download auth token, set from a session cookie;
- the registry `downloadProcesses`, which maps a URL to its process handle;
- the callbacks delivered to the delegate: `outputStream(output:)`,
  `downloadStart(url:)` and `downloadFinish(url:)`.

`startDownload(source:fileURL:)` decides in a fixed order:

1. A missing URL is reported.
2. Every `"https://"` in the URL is rewritten to `"http://"`.
3. The argument list `[aria2c, url]` is built; a `.tools` download appends the token.
4. A `.tools` download without a token is reported.
5. The handle is looked up, or created and inserted.
6. A running handle is reported as in progress.
7. Otherwise the handle is launched with its output observed, and the start is reported.

The output observer forwards each decoded chunk through the progress parser. It treats an empty read as the end of the download: it delivers the finish and drops the registry entry.

The files:

- `wrappers.dfy`: `Option` and `Result`.
- `url_rewrite.dfy` (module `UrlRewrite`): Foundation's replace-all as `ReplaceAll`, and the URL normal form `Normalize`. It holds the proofs that normalising removes every `"https://"`, is idempotent, leaves clean URLs alone, and maps the `https` and `http` spellings of a URL to one key.
- `download_spec.dfy` (module `DownloadSpec`): the orchestrator as a state machine over a `Manager` value. It has the invariant `Valid`, and lemmas for each outcome of `startDownload`, the stream observer and the token. These lemmas, listed under "## Model", state what the operations compute. The operations themselves are one function each, all in `Downloader/Common/DownloadProcessManager/DownloadProcessManager.swift`:
  - `SetToken`: `setDownloadAuthToken`, lines 23-25.
  - `Start`: `startDownload`, lines 28-115.
  - `Prepare`: argument building, lines 38-62.
  - `Launch`: the launch branch, lines 79-114.
  - `DataAvailable`: the observer closure, lines 91-108.
  - `Finish`: the closure's finish branch, lines 99-107.
  - `Terminated`: the process exit that clears the running flag read at line 73.
- `download_process_manager.dfy` (module `DownloadManager`): the class `DownloadProcessManager`. `downloadAuthToken` and `downloadProcesses` are the Swift fields. `observers` stands for the NotificationCenter registrations, which the Swift code holds in the local `notificationObserver` of each launch (lines 90-91). `events` stands for the calls on `delegate` (line 14); the `delegate` field itself has no counterpart. The class's methods update these fields step by step, and each method is proved to yield exactly the state that the matching `DownloadSpec` function gives. So the lemmas of `DownloadSpec` describe the class, and its invariant `Inv()` is kept by every method.

`Valid` says four things:

- registry keys are normalised;
- observer keys are normalised;
- a running handle always has an output observer;
- for every URL, the number of `downloadStart` callbacks equals the number of `downloadFinish` callbacks plus the observers still waiting.

The invariant is proved on the spec functions: it holds initially and each operation preserves it. The class exposes it as the ghost predicate `Inv()`. The constructor establishes it, and every method requires and ensures it. `OutputAvailable` also requires that an observer is registered for its URL, because in the Swift code only a registered observer's closure delivers data (lines 91-108).

Details of the code that the model keeps:

- Every occurrence of `https://` is rewritten, not only a leading one (line 36).
- A non-empty read that is not valid UTF-8 also takes the finish branch (lines 96, 99). `DataAvailable` and `EndOfStreamFinishes` keep this.
- The model assumes `launch()` succeeds. Foundation raises an exception when a launch fails, and that is not modelled.

## Model

| member | source | states |
|---|---|---|
| `UrlRewrite.ReplaceAllWithoutMatch` | Downloader/Common/DownloadProcessManager/DownloadProcessManager.swift:36 | replace-all leaves a string in which the target does not occur unchanged |
| `UrlRewrite.NormalizeRemovesHttps` | Downloader/Common/DownloadProcessManager/DownloadProcessManager.swift:36 | after normalisation the URL contains no "https://" anywhere |
| `UrlRewrite.NormalizeFixesExactlyCleanUrls` | Downloader/Common/DownloadProcessManager/DownloadProcessManager.swift:36 | normalisation returns the URL unchanged if and only if it contains no "https://" |
| `UrlRewrite.NormalizeIdempotent` | Downloader/Common/DownloadProcessManager/DownloadProcessManager.swift:36 | normalising an already-normalised URL changes nothing |
| `UrlRewrite.NormalizeIgnoresScheme` | Downloader/Common/DownloadProcessManager/DownloadProcessManager.swift:36 | two URLs differing only in one "https://" versus "http://", at any position, normalise to the same string |
| `UrlRewrite.HttpPrefix` | Downloader/Common/DownloadProcessManager/DownloadProcessManager.swift:36 | a leading "http://" is kept as it is and never completes an "https://" with the text after it |
| `UrlRewrite.PrefixOfNormalized` | Downloader/Common/DownloadProcessManager/DownloadProcessManager.swift:36 | the rewrite only introduces text starting with 'h', so an 'h'-free prefix of the result is a prefix of the input |
| `UrlRewrite.ReplaceAll` | Downloader/Common/DownloadProcessManager/DownloadProcessManager.swift:36 | `replacingOccurrences(of:with:)` as a left-to-right, non-overlapping replace-all; when the replacement is no longer than the target, the result is never longer than the input |
| `UrlRewrite.Normalize` | Downloader/Common/DownloadProcessManager/DownloadProcessManager.swift:36 | the registry key: every "https://" becomes "http://"; the key is never longer than the URL, and an https URL becomes an http URL |
| `DownloadSpec.Prepare` | Downloader/Common/DownloadProcessManager/DownloadProcessManager.swift:38-62 | fails, with DownloadAuthTokenNotFound, exactly for `.tools` without a token; otherwise the launch path is the script and the arguments are [aria2c, url] for `.video`, [aria2c, url, token] for `.tools` |
| `DownloadSpec.InitialValid` | Downloader/Common/DownloadProcessManager/DownloadProcessManager.swift:13-20 | the initial state (no token, empty registry, no callbacks) satisfies the invariant |
| `DownloadSpec.SetTokenPreservesValid` | Downloader/Common/DownloadProcessManager/DownloadProcessManager.swift:23-25 | setting the token keeps the invariant |
| `DownloadSpec.DeliveredAfterEmit` | Downloader/Common/DownloadProcessManager/DownloadProcessManager.swift:31-114 | delivering one more callback raises its count by one and leaves every other count unchanged |
| `DownloadSpec.StartPreservesValid` | Downloader/Common/DownloadProcessManager/DownloadProcessManager.swift:28-115 | every outcome of `startDownload` keeps the invariant: keys normalised, running handles observed, starts balanced by finishes and open observers |
| `DownloadSpec.LaunchPreservesValid` | Downloader/Common/DownloadProcessManager/DownloadProcessManager.swift:64-114 | the launch branch keeps the invariant for a normalised key |
| `DownloadSpec.DataAvailablePreservesValid` | Downloader/Common/DownloadProcessManager/DownloadProcessManager.swift:91-108 | the stream observer of a registered URL keeps the invariant in both branches |
| `DownloadSpec.TerminatedPreservesValid` | Downloader/Common/DownloadProcessManager/DownloadProcessManager.swift:73 | the process exiting (isRunning turning false) keeps the invariant |
| `DownloadSpec.StartDeliversOneEvent` | Downloader/Common/DownloadProcessManager/DownloadProcessManager.swift:28-115 | every call of `startDownload` delivers exactly one callback and keeps the earlier ones |
| `DownloadSpec.MissingUrlRejected` | Downloader/Common/DownloadProcessManager/DownloadProcessManager.swift:29-33 | a nil URL delivers exactly one DownloadURLNotFound; token, registry and observers are unchanged and no start is delivered |
| `DownloadSpec.MissingTokenRejected` | Downloader/Common/DownloadProcessManager/DownloadProcessManager.swift:54-58 | `.tools` without a token delivers exactly one DownloadAuthTokenNotFound; the registry is untouched and no start is delivered |
| `DownloadSpec.RunningDownloadRejected` | Downloader/Common/DownloadProcessManager/DownloadProcessManager.swift:72-77 | a running handle under the normalised URL yields exactly one DownloadInProgress and no other change |
| `DownloadSpec.StartLaunches` | Downloader/Common/DownloadProcessManager/DownloadProcessManager.swift:64-114 | otherwise the registry maps the normalised URL to a running handle with the prepared invocation, one observer is added and the last callback is downloadStart(normalised URL) |
| `DownloadSpec.LaunchArguments` | Downloader/Common/DownloadProcessManager/DownloadProcessManager.swift:39-62 | the launched handle carries exactly [aria2c, normalised URL] for `.video` and [aria2c, normalised URL, token] for `.tools` |
| `DownloadSpec.SchemeVariantsShareEntry` | Downloader/Common/DownloadProcessManager/DownloadProcessManager.swift:36 | URLs differing only by "https://" versus "http://" produce the same new state, so they hit the same registry entry and in-progress check |
| `DownloadSpec.StartKeysAreNormalised` | Downloader/Common/DownloadProcessManager/DownloadProcessManager.swift:66-69 | every registry key after `startDownload` is free of "https://" |
| `DownloadSpec.SecondStartRejected` | Downloader/Common/DownloadProcessManager/DownloadProcessManager.swift:64-77 | right after a successful start, a second start of the same file (up to the scheme) is rejected as in progress, so exactly one process was launched for it |
| `DownloadSpec.TokenLastWriteWins` | Downloader/Common/DownloadProcessManager/DownloadProcessManager.swift:23-25 | of two token writes the last one wins |
| `DownloadSpec.TokenReachesLaunch` | Downloader/Common/DownloadProcessManager/DownloadProcessManager.swift:54-59 | once a token is set, `.tools` is no longer rejected for a missing token, and a launch carries that token as its last argument |
| `DownloadSpec.ChunkForwarded` | Downloader/Common/DownloadProcessManager/DownloadProcessManager.swift:95-98 | a non-empty chunk that decodes delivers outputStream(parse(text)) and changes nothing else |
| `DownloadSpec.EndOfStreamFinishes` | Downloader/Common/DownloadProcessManager/DownloadProcessManager.swift:99-107 | an empty or undecodable read delivers downloadFinish(url), removes exactly that key from the registry and one observer for it, and leaves the token unchanged |
| `DownloadSpec.FinishFollowsStart` | Downloader/Common/DownloadProcessManager/DownloadProcessManager.swift:99-114 | in every valid state a URL has finished no more often than it has started |
| `DownloadSpec.DownloadLifecycle` | Downloader/Common/DownloadProcessManager/DownloadProcessManager.swift:64-114 | start, two chunks, end of stream deliver downloadStart, two outputs, downloadFinish in that order, and the URL is no longer registered |
| `DownloadSpec.RestartAfterFinish` | Downloader/Common/DownloadProcessManager/DownloadProcessManager.swift:64-73 | after the end of the stream the next start for the URL launches a fresh process instead of reporting it in progress |
| `DownloadManager.DownloadProcessManager.constructor` | Downloader/Common/DownloadProcessManager/DownloadProcessManager.swift:13-20 | a new manager has no token, an empty registry, no observers and no callbacks, and satisfies the invariant `Inv()` |
| `DownloadManager.DownloadProcessManager.SetDownloadAuthToken` | Downloader/Common/DownloadProcessManager/DownloadProcessManager.swift:23-25 | the stored token becomes the given one, without validation; nothing else changes and `Inv()` is kept |
| `DownloadManager.DownloadProcessManager.StartDownload` | Downloader/Common/DownloadProcessManager/DownloadProcessManager.swift:28-115 | the fields after the call are exactly `DownloadSpec.Start` of the fields before, and `Inv()` is kept |
| `DownloadManager.DownloadProcessManager.OutputAvailable` | Downloader/Common/DownloadProcessManager/DownloadProcessManager.swift:91-108 | for a URL with a registered observer, the fields after the notification are exactly `DownloadSpec.DataAvailable` of the fields before, and `Inv()` is kept |
| `DownloadManager.DownloadProcessManager.ProcessTerminated` | Downloader/Common/DownloadProcessManager/DownloadProcessManager.swift:73 | the handle's running flag is cleared, its registry entry kept, and `Inv()` is kept |
| `DownloadManager.SameFileTwice` | Downloader/Common/DownloadProcessManager/DownloadProcessManager.swift:36-107 | starting a file by https and then by http, then ending its stream, delivers start, in-progress, finish and leaves the registry empty |

## Left out

- Downloader/ViewControllers/DownloaderControllers/DownloaderViewController.swift is not part of this model. It is UI and WebKit glue: outlets, table handlers, navigation callbacks, the delayed cookie lookup that supplies the token, and status-label updates.
- Process mechanics (`Process()`, `launch()`, `terminate()`, `Pipe`) are reduced to a handle value: a running flag and the last invocation. The `terminate()` call at end of stream is not modelled beyond dropping the entry.
- Whether the process is running is operating-system state. The launch branch sets it, and the model clears it only through `ProcessTerminated`, an environment event with no counterpart in the Swift code. That event makes reachable the "registered but not running" branch of line 73.
- On that branch the Swift code calls `launch()` again on the same `Process`. Foundation refuses to launch a `Process` twice; that behaviour is outside this model, which treats the call as a relaunch.
- `Bundle.main.path` lookups are opaque constant strings: `aria2c` and `AppleMoreDownload.sh`. The crash of the force-unwrap when a resource is missing is not modelled.
- `Aria2cParser.parse` is not part of this model. Neither is UTF-8 decoding. Both are function parameters of the constructor (`parse`, `decode`).
- `NSLocalizedString` lookups are enum tags of `Status`.
- Asynchronous observation (`NotificationCenter`, `waitForDataInBackgroundAndNotify`, main-queue delivery) is left out. It appears only as the explicit `OutputAvailable` call, made for a URL whose observer is registered; `observers` counts registered observers per URL.
- The weak, optional `delegate` is not modelled. The model always records callbacks, as if a delegate were attached; with a nil delegate the Swift code drops them.
- `DownloadSource`'s `url` and `title` are not part of this model; only the `.tools`/`.video` distinction is.
- Concurrent access to the registry from callbacks and `startDownload` is outside this sequential model.
- Strings are sequences of Dafny `char`, compared element by element. Swift `String` equality (the registry lookup at line 66) and Foundation's default comparison in `replacingOccurrences` (line 36) treat canonically equivalent Unicode as equal: "caf\u{E9}" and "cafe\u{301}" are one key in Swift and two keys here. So for such URLs the model would launch a second process where Swift reports DownloadInProgress. The URLs passed in are `URL.absoluteString` values, which are ASCII, and for ASCII the two comparisons agree.
