/**
 * Helpers shared by the server and the client (src/utils.ts): string splitting
 * and joining as JavaScript's `split`/`join` do them, the last path segment,
 * the try/catch-to-pair adapter, the shell command line built for external
 * processes, and the redirect-following file download, with every network
 * and process outcome given as an abstract input.
 */
module Utils {
  import opened Protocol

  // ---------------------------------------------------------------------------
  // The shared cache directory

  /**
   * `~/.cache/treeground`, where the runtime wasm and the compiled grammar
   * modules are written and from where the middleware serves them.
   */
  function TgDir(home: string): string { home + "/.cache/treeground" }

  // ---------------------------------------------------------------------------
  // split / join

  /** `s.split(sep)` for a one-character separator: never empty, no piece holds `sep`. */
  function Split(s: string, sep: char): (parts: seq<string>)
    ensures |parts| >= 1
    ensures forall i :: 0 <= i < |parts| ==> sep !in parts[i]
    decreases |s|
  {
    if s == [] then [""]
    else
      var rest := Split(s[1..], sep);
      if s[0] == sep then [""] + rest
      else [[s[0]] + rest[0]] + rest[1..]
  }

  /** `parts.join(sep)`; the empty list joins to the empty string. */
  function Join(parts: seq<string>, sep: char): string
  {
    if parts == [] then ""
    else if |parts| == 1 then parts[0]
    else parts[0] + [sep] + Join(parts[1..], sep)
  }

  /** Joining the pieces of a split gives the original string back. */
  lemma {:induction false} JoinSplit(s: string, sep: char)
    ensures Join(Split(s, sep), sep) == s
    decreases |s|
  {
    if s != [] {
      var rest := Split(s[1..], sep);
      JoinSplit(s[1..], sep);
      if s[0] == sep {
        assert ([""] + rest)[1..] == rest;
      } else {
        var parts := [[s[0]] + rest[0]] + rest[1..];
        if |rest| > 1 {
          assert parts[1..] == rest[1..];
        }
      }
    }
  }

  /** A string without the separator splits into itself alone. */
  lemma {:induction false} SplitWithoutSeparator(p: string, sep: char)
    requires sep !in p
    ensures Split(p, sep) == [p]
    decreases |p|
  {
    if p != [] {
      assert p[0] != sep && [p[0]] + p[1..] == p;
      SplitWithoutSeparator(p[1..], sep);
    }
  }

  /** Splitting `p + sep + rest`, where `p` has no separator, yields `p` followed by the pieces of `rest`. */
  lemma {:induction false} SplitAfterPiece(p: string, rest: string, sep: char)
    requires sep !in p
    ensures Split(p + [sep] + rest, sep) == [p] + Split(rest, sep)
    decreases |p|
  {
    var s := p + [sep] + rest;
    if p == [] {
      assert s[0] == sep && s[1..] == rest;
    } else {
      assert s[0] == p[0] && s[1..] == p[1..] + [sep] + rest;
      SplitAfterPiece(p[1..], rest, sep);
      assert [p[0]] + p[1..] == p;
    }
  }

  /** Splitting a join of separator-free pieces gives the pieces back. */
  lemma {:induction false} SplitJoin(parts: seq<string>, sep: char)
    requires |parts| >= 1
    requires forall i :: 0 <= i < |parts| ==> sep !in parts[i]
    ensures Split(Join(parts, sep), sep) == parts
    decreases |parts|
  {
    if |parts| == 1 {
      SplitWithoutSeparator(parts[0], sep);
    } else {
      SplitJoin(parts[1..], sep);
      SplitAfterPiece(parts[0], Join(parts[1..], sep), sep);
      assert [parts[0]] + parts[1..] == parts;
    }
  }

  /** The last piece of a join of two or more pieces follows the last separator. */
  lemma {:induction false} JoinLast(parts: seq<string>, sep: char)
    requires |parts| >= 2
    ensures Join(parts, sep) == Join(parts[..|parts| - 1], sep) + [sep] + parts[|parts| - 1]
    decreases |parts|
  {
    if |parts| > 2 {
      JoinLast(parts[1..], sep);
      assert parts[1..][..|parts| - 2] == parts[..|parts| - 1][1..];
    }
  }

  // ---------------------------------------------------------------------------
  // getBaseName

  /**
   * `getBaseName`: the last `/`-separated piece of a path. It is the longest
   * suffix without `/`: the whole string when there is no `/`, and the empty
   * string when the path ends in `/`.
   */
  function GetBaseName(path: string): (name: string)
    ensures '/' !in name
    ensures |name| <= |path| && path[|path| - |name|..] == name
    ensures |name| < |path| ==> path[|path| - |name| - 1] == '/'
    ensures '/' !in path ==> name == path
    ensures |path| > 0 && path[|path| - 1] == '/' ==> name == ""
  {
    var parts := Split(path, '/');
    JoinSplit(path, '/');
    if |parts| >= 2 then
      JoinLast(parts, '/');
      var prefix := Join(parts[..|parts| - 1], '/');
      assert path == prefix + ['/'] + parts[|parts| - 1];
      assert path[|path| - |parts[|parts| - 1]|..] == parts[|parts| - 1];
      assert path[|path| - |parts[|parts| - 1]| - 1] == '/';
      parts[|parts| - 1]
    else
      parts[0]
  }

  /** Drops every `/` at the end of a path. */
  function TrimTrailingSlashes(path: string): (trimmed: string)
    ensures |trimmed| <= |path| && path[..|trimmed|] == trimmed
    ensures trimmed == [] || trimmed[|trimmed| - 1] != '/'
    ensures forall i :: |trimmed| <= i < |path| ==> path[i] == '/'
  {
    if path == [] || path[|path| - 1] != '/' then path
    else TrimTrailingSlashes(path[..|path| - 1])
  }

  /**
   * Node's POSIX `path.basename`: the last piece after trailing slashes are
   * dropped. For a path that does not end in `/` it agrees with GetBaseName.
   */
  function PathBasename(path: string): (name: string)
    ensures '/' !in name
    ensures (path == [] || path[|path| - 1] != '/') ==> name == GetBaseName(path)
  {
    GetBaseName(TrimTrailingSlashes(path))
  }

  /** The base name of a path that does not end in `/` is `name` exactly when the path is `name` or ends with `/name`. */
  lemma BaseNameMeansSuffix(path: string, name: string)
    requires '/' !in name && name != []
    requires path == [] || path[|path| - 1] != '/'
    ensures PathBasename(path) == name <==>
              (path == name || (|path| > |name| && path[|path| - |name| - 1..] == ['/'] + name))
  {
    var b := GetBaseName(path);
    if |path| > |name| && path[|path| - |name| - 1..] == ['/'] + name {
      SuffixGivesBaseName(path, name);
    }
    if b == name && path != name {
      var k := |path| - |name| - 1;
      assert path[k] == '/';
      assert path[k..] == [path[k]] + path[k + 1..];
    }
  }

  lemma SuffixGivesBaseName(path: string, name: string)
    requires '/' !in name && name != []
    requires |path| > |name| && path[|path| - |name| - 1..] == ['/'] + name
    ensures GetBaseName(path) == name
  {
    var b := GetBaseName(path);
    var k := |path| - |name| - 1;
    var tail := path[k..];
    assert path[k] == tail[0] == '/';
    if |b| != |name| {
      assert false;
    }
    assert path[k + 1..] == tail[1..] == name;
  }

  // ---------------------------------------------------------------------------
  // aTryCatch

  /** How a promise settled: with a value or with a thrown reason. */
  datatype Settled<+T, +E> = Resolved(value: T) | Rejected(reason: E)

  /**
   * `aTryCatch`: the outcome of an awaited call as a `[result, error]` pair, the
   * missing half being `null` (here `None`). Exactly one half is present.
   */
  function ATryCatch<T, E>(outcome: Settled<T, E>): (pair: (Option<T>, Option<E>))
    ensures pair.0.Some? != pair.1.Some?
    ensures pair.1.None? <==> outcome.Resolved?
  {
    match outcome
    case Resolved(v) => (Some(v), None)
    case Rejected(e) => (None, Some(e))
  }

  /** Reads a `[result, error]` pair back: the error half decides. */
  function FromPair<T, E>(pair: (Option<T>, Option<E>)): Option<Settled<T, E>>
  {
    match pair
    case (Some(v), None) => Some(Resolved(v))
    case (None, Some(e)) => Some(Rejected(e))
    case _ => None
  }

  /** The pair loses nothing: the outcome can be read back from it. */
  lemma ATryCatchRoundTrip<T, E>(outcome: Settled<T, E>)
    ensures FromPair(ATryCatch(outcome)) == Some(outcome)
  {
    match outcome
    case Resolved(v) =>
    case Rejected(e) =>
  }

  // ---------------------------------------------------------------------------
  // createExec

  /** The single command line `createExec` hands to the shell. */
  function ExecCommandLine(commands: seq<string>): string
  {
    "bash -c \"" + Join(commands, ';') + "\""
  }

  /**
   * The command line is `bash -c "…"` around the commands joined by `;`, and
   * (for commands free of `;`) cutting the quoted part at `;` gives back
   * exactly the commands, in order.
   */
  lemma ExecCommandLineRoundTrip(commands: seq<string>)
    requires |commands| >= 1
    requires forall i :: 0 <= i < |commands| ==> ';' !in commands[i]
    ensures var line := ExecCommandLine(commands);
      |line| >= 10 && line[..9] == "bash -c \"" && line[|line| - 1] == '"' &&
      Split(line[9..|line| - 1], ';') == commands
  {
    var line := ExecCommandLine(commands);
    assert line[9..|line| - 1] == Join(commands, ';');
    SplitJoin(commands, ';');
  }

  /** What the child process reported, or the failure to load the process module. */
  datatype ProcessResult =
    | Exited(error: Option<string>, stdout: string, stderr: string)
    | ImportFailed(reason: string)

  /** `createExec`: resolves with the process's stdout when it reports no error, rejects otherwise. */
  function CreateExec(commands: seq<string>, result: ProcessResult): (outcome: Settled<string, string>)
    ensures outcome.Resolved? <==> result.Exited? && result.error.None?
    ensures outcome.Resolved? ==> outcome.value == result.stdout
    ensures outcome.Rejected? && result.Exited? ==> outcome.reason == result.error.value
  {
    match result
    case Exited(None, out, _) => Resolved(out)
    case Exited(Some(e), _, _) => Rejected(e)
    case ImportFailed(e) => Rejected(e)
  }

  // ---------------------------------------------------------------------------
  // downloadFile

  /** How the body of a 200 response ended, as far as the caller listens. */
  datatype BodyEnd = Finished | StreamFailed(reason: string) | Streaming

  /** The answer to one HTTPS request, in the order the requests are issued. */
  datatype Reply =
    | Reply(status: nat, location: string, body: BodyEnd)
    | RequestFailed(reason: string)

  /** State of the download promise. `Pending` means it has not settled (and may never). */
  datatype Outcome = Done | Failed(reason: string) | Pending

  /**
   * What `downloadFile` did: its promise state, the URLs it requested in order,
   * how many times it opened `dest` for writing, and whether it deleted `dest`.
   */
  datatype Download = Download(outcome: Outcome, requested: seq<string>, opens: nat, deleted: bool)

  /** Decimal digits of a status code, for the rejection message. */
  function DecimalString(n: nat): (s: string)
    ensures |s| >= 1
    ensures forall i :: 0 <= i < |s| ==> '0' <= s[i] <= '9'
  {
    if n < 10 then [(48 + n) as char]
    else DecimalString(n / 10) + [(48 + n % 10) as char]
  }

  /** A redirect the download follows: a 302 whose location header is a non-empty string. */
  predicate IsFollowedRedirect(r: Reply)
  {
    r.Reply? && r.status == 302 && r.location != ""
  }

  /** How a single reply that is not followed settles the promise. */
  function SettleOn(r: Reply): (outcome: Outcome)
  {
    match r
    case RequestFailed(e) => Failed(e)
    case Reply(code, location, body) =>
      if code == 200 then
        (match body
         case Finished => Done
         case StreamFailed(e) => Failed(e)
         case Streaming => Pending)
      else if code == 302 then Pending
      else Failed("Server responded with " + DecimalString(code))
  }

  /**
   * `requested` is a chain of followed redirects from `url`: each request but
   * the last got a 302 whose location is the next request's URL.
   */
  predicate RedirectChain(url: string, replies: seq<Reply>, requested: seq<string>)
  {
    && |requested| >= 1 && requested[0] == url
    && |requested| <= |replies| + 1
    && forall i :: 0 <= i < |requested| - 1 ==>
         IsFollowedRedirect(replies[i]) && requested[i + 1] == replies[i].location
  }

  /**
   * `downloadFile(url, dest)` against the server's replies, one per request in
   * order (a missing reply means none has arrived). Every request opens `dest`
   * first; a 302 with a location is followed with no limit; the first reply
   * that is not followed settles the promise: 200 resolves when the body is
   * written and rejects (deleting `dest`) on a write error, a 302 without
   * location never settles, any other code rejects.
   */
  function DownloadFile(url: string, replies: seq<Reply>): (d: Download)
    ensures RedirectChain(url, replies, d.requested)
    ensures d.opens == |d.requested|
    ensures |d.requested| <= |replies| ==>
              !IsFollowedRedirect(replies[|d.requested| - 1]) &&
              d.outcome == SettleOn(replies[|d.requested| - 1])
    ensures |d.requested| > |replies| ==> d.outcome == Pending
    ensures d.deleted <==>
              (|d.requested| <= |replies| &&
               var last := replies[|d.requested| - 1];
               last.Reply? && last.status == 200 && last.body.StreamFailed?)
    decreases |replies|
  {
    if replies == [] then Download(Pending, [url], 1, false)
    else
      var r := replies[0];
      if IsFollowedRedirect(r) then
        var next := DownloadFile(r.location, replies[1..]);
        Download(next.outcome, [url] + next.requested, next.opens + 1, next.deleted)
      else
        var deleted := r.Reply? && r.status == 200 && r.body.StreamFailed?;
        Download(SettleOn(r), [url], 1, deleted)
  }

  /** Redirects are followed however many there are: n redirects then a finished 200 resolve after n + 1 requests. */
  lemma {:induction false} NoRedirectLimit(url: string, hop: string, n: nat)
    requires hop != ""
    decreases n
    ensures var replies := seq(n, _ => Reply(302, hop, Streaming)) + [Reply(200, "", Finished)];
      var d := DownloadFile(url, replies);
      d.outcome == Done && |d.requested| == n + 1 && !d.deleted
  {
    var replies := seq(n, _ => Reply(302, hop, Streaming)) + [Reply(200, "", Finished)];
    if n > 0 {
      NoRedirectLimit(hop, hop, n - 1);
      assert replies[1..] == seq(n - 1, _ => Reply(302, hop, Streaming)) + [Reply(200, "", Finished)];
    }
  }

  /** The promise settles only on a reply that is not followed: a resolution needs a finished 200 at the end of the chain. */
  lemma DoneNeedsFinished200(url: string, replies: seq<Reply>)
    ensures DownloadFile(url, replies).outcome == Done <==>
      exists k :: 0 <= k < |replies| && replies[k].Reply? && replies[k].status == 200 && replies[k].body == Finished &&
        |DownloadFile(url, replies).requested| == k + 1
  {
    var d := DownloadFile(url, replies);
    if d.outcome == Done {
      var k := |d.requested| - 1;
      assert replies[k].Reply? && replies[k].status == 200 && replies[k].body == Finished;
    }
  }
}
