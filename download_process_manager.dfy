/** `DownloadProcessManager`, the object the application shares: it holds the
    auth token and the registry of download processes, and reports to its
    delegate. Its methods update the fields step by step, as the Swift class
    does; each is proved to produce the state that the corresponding function
    of `DownloadSpec` describes, so the properties proved there carry over to
    every object of the class, and keeps the invariant `Inv()`. */
module DownloadManager {
  import opened Wrappers
  import opened UrlRewrite
  import opened DownloadSpec

  class DownloadProcessManager {
    var downloadAuthToken: Option<string>
    /** Process handles by normalised URL. */
    var downloadProcesses: map<string, Process>
    /** URLs whose output-stream observers are registered (one per launch). */
    var observers: multiset<string>
    /** The callbacks delivered to the delegate, oldest first. */
    var events: seq<Event>

    /** `Aria2cParser.parse`, not part of this model. */
    const parse: string -> string
    /** UTF-8 decoding of a chunk; `None` when the bytes are not valid UTF-8. */
    const decode: seq<byte> -> Option<string>

    function Model(): Manager
      reads this
    {
      Manager(downloadAuthToken, downloadProcesses, observers, events)
    }

    /** The invariant `DownloadSpec.Valid` of the current fields. */
    ghost predicate Inv()
      reads this
    {
      Valid(Model())
    }

    constructor (parse: string -> string, decode: seq<byte> -> Option<string>)
      ensures Model() == Initial && Inv()
      ensures this.parse == parse && this.decode == decode
    {
      InitialValid();
      downloadAuthToken := None;
      downloadProcesses := map[];
      observers := multiset{};
      events := [];
      this.parse := parse;
      this.decode := decode;
    }

    /** `setDownloadAuthToken(token:)`. */
    method SetDownloadAuthToken(token: string)
      requires Inv()
      modifies this
      ensures Model() == SetToken(old(Model()), token) && Inv()
      ensures downloadAuthToken == Some(token)
    {
      SetTokenPreservesValid(Model(), token);
      downloadAuthToken := Some(token);
    }

    /** `startDownload(source:fileURL:)`: reject a missing URL, normalise it,
        build the arguments, reject a `.tools` download without a token,
        find or create the handle, reject a running one, otherwise launch it,
        observe its output and report the start. */
    method StartDownload(source: DownloadSource, fileURL: Option<string>)
      requires Inv()
      modifies this
      ensures Model() == Start(old(Model()), source, fileURL) && Inv()
    {
      ghost var before := Model();
      StartPreservesValid(before, source, fileURL);
      if fileURL.None? {
        events := events + [OutputStream(DownloadURLNotFound)];
        return;
      }
      var url := ReplaceAll(fileURL.value, Https, Http);
      var prepared := Prepare(source, url, downloadAuthToken);
      if prepared.Failure? {
        events := events + [OutputStream(prepared.error)];
        return;
      }

      var current: Process;
      if url in downloadProcesses {
        current := downloadProcesses[url];
      } else {
        current := NewProcess;
        downloadProcesses := downloadProcesses[url := current];
      }
      ghost var registered := downloadProcesses;

      if current.isRunning {
        events := events + [OutputStream(DownloadInProgress)];
        return;
      }

      current := current.(invocation := Some(prepared.value));
      observers := observers + multiset{url};
      current := current.(isRunning := true);
      downloadProcesses := downloadProcesses[url := current];
      OverwriteEntry(before.processes, registered, url, current);
      events := events + [DownloadStart(url)];
    }

    /** The data-available notification of the observer registered for `url`:
        forward a decoded, non-empty chunk through the parser; otherwise report
        the finish, drop the handle and remove the observer. */
    method OutputAvailable(url: string, data: seq<byte>)
      requires Inv() && url in observers
      modifies this
      ensures Model() == DataAvailable(old(Model()), url, data, decode, parse) && Inv()
    {
      DataAvailablePreservesValid(Model(), url, data, decode, parse);
      var text := if |data| > 0 then decode(data) else None;
      if text.Some? {
        events := events + [OutputStream(Parsed(parse(text.value)))];
      } else {
        events := events + [DownloadFinish(url)];
        downloadProcesses := downloadProcesses - {url};
        observers := observers - multiset{url};
      }
    }

    /** The operating system reports that the process for `url` has exited. */
    method ProcessTerminated(url: string)
      requires Inv()
      modifies this
      ensures Model() == Terminated(old(Model()), url) && Inv()
    {
      TerminatedPreservesValid(Model(), url);
      if url in downloadProcesses {
        downloadProcesses := downloadProcesses[url := downloadProcesses[url].(isRunning := false)];
      }
    }
  }

  /** Writing an entry back over one just inserted or read. */
  lemma OverwriteEntry<K, V>(m: map<K, V>, m': map<K, V>, k: K, v: V)
    requires m'.Keys == m.Keys + {k}
    requires forall x :: x in m && x != k ==> m'[x] == m[x]
    ensures m'[k := v] == m[k := v]
  {
  }

  /** Two downloads of the same file, the first by "https://", the second by
      "http://": one process is launched, the second call reports it in
      progress, and the end of the stream frees the URL again. */
  method SameFileTwice(manager: DownloadProcessManager, rest: string)
    requires manager.Model() == Initial
    modifies manager
    ensures manager.events == [DownloadStart(Normalize(Http + rest)),
                               OutputStream(DownloadInProgress),
                               DownloadFinish(Normalize(Http + rest))]
    ensures manager.downloadProcesses == map[]
  {
    InitialValid();
    NormalizeIgnoresScheme([], rest);
    assert [] + Https + rest == Https + rest && [] + Http + rest == Http + rest;
    var key := Normalize(Http + rest);
    manager.StartDownload(Video, Some(Https + rest));
    assert manager.downloadProcesses == map[key := Process(true, Some(Invocation(ScriptPath, [Aria2cPath, key])))];
    manager.StartDownload(Video, Some(Http + rest));
    manager.OutputAvailable(key, []);
  }
}
