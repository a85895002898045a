/**
 * The grammar build orchestrator (src/websocket.ts): one server object that
 * keeps the list of watched grammar folders, a debounce timer per folder, the
 * install status of the tree-sitter CLI, the tree-sitter runtime wasm and the
 * Emscripten SDK, and an outbox standing for the broadcast to every client.
 *
 * Each client message is a method; work the source hands to the network or to
 * a child process returns a `Job` and finishes in a completion method that
 * receives the external outcomes (HTTP replies, process results). Time is an
 * integer clock in milliseconds; a timer fires through `FireTimer`.
 */
module Orchestrator {
  import opened Protocol
  import opened Utils

  // ---------------------------------------------------------------------------
  // Paths and URLs

  function LocalDir(home: string): string { home + "/.local" }
  function CliPath(home: string): string { LocalDir(home) + "/bin/tree-sitter" }
  function WasmPath(home: string): string { TgDir(home) + "/tree-sitter.wasm" }
  function EmsdkDir(home: string): string { LocalDir(home) + "/emsdk" }

  const ReleaseBase: string := "https://github.com/tree-sitter/tree-sitter/releases/download/"

  /** The per-platform entry of the CLI support matrix: a vendor OS name and its architectures. */
  datatype Platform = Platform(name: string, arch: map<string, string>)

  /** The support matrix, keyed by Node's `process.platform` and `process.arch`. */
  const Matrix: map<string, Platform> := map[
    "darwin" := Platform("macos", map["arm64" := "arm64", "x64" := "x64"]),
    "linux" := Platform("linux", map["arm64" := "arm64", "arm" := "arm", "x64" := "x64",
                                     "x86" := "x86", "ppc64" := "powerpc64"]),
    "win32" := Platform("windows", map["arm64" := "arm64", "x64" := "x64", "x86" := "x86", "ia32" := "x86"])
  ]

  /** The release asset a host downloads: vendor OS name and vendor architecture name. */
  datatype Asset = Asset(os: string, arch: string)

  /**
   * The matrix lookup with its emptiness checks. A host is supported exactly
   * when both keys are in the matrix; the names are then non-empty and free
   * of `/`.
   */
  function CliAsset(platform: string, arch: string): (a: Option<Asset>)
    ensures a.Some? <==> platform in Matrix && arch in Matrix[platform].arch
    ensures a.Some? ==> a.value == Asset(Matrix[platform].name, Matrix[platform].arch[arch])
    ensures a.Some? ==> a.value.os != "" && a.value.arch != "" && '/' !in a.value.os && '/' !in a.value.arch
  {
    if platform in Matrix && Matrix[platform].name != ""
       && arch in Matrix[platform].arch && Matrix[platform].arch[arch] != ""
    then Some(Asset(Matrix[platform].name, Matrix[platform].arch[arch]))
    else None
  }

  /** Vendor names differ from Node's names on three points; unknown pairs are unsupported. */
  lemma VendorNames()
    ensures CliAsset("darwin", "arm64") == Some(Asset("macos", "arm64"))
    ensures CliAsset("win32", "ia32") == Some(Asset("windows", "x86"))
    ensures CliAsset("linux", "ppc64") == Some(Asset("linux", "powerpc64"))
    ensures CliAsset("darwin", "ia32").None? && CliAsset("freebsd", "x64").None?
  {
  }

  /** The name of the gzip-compressed CLI release asset for a host. */
  function AssetName(asset: Asset): string
  {
    "tree-sitter-" + asset.os + "-" + asset.arch + ".gz"
  }

  /** The gzip-compressed CLI release asset for a version: a URL directly inside the release directory of that version. */
  function CliUrl(version: string, asset: Asset): (url: string)
    ensures |url| > |ReleaseBase + version| && url[..|ReleaseBase + version| + 1] == ReleaseBase + version + "/"
    ensures |url| == |ReleaseBase + version| + 1 + |AssetName(asset)|
  {
    var dir := ReleaseBase + version + "/";
    var url := dir + AssetName(asset);
    assert url[..|dir|] == dir;
    url
  }

  /**
   * The file the CLI URL names is the gzip archive for the host's vendor OS
   * and architecture, and nothing lies between the version directory and it.
   */
  lemma CliUrlNamesAsset(version: string, asset: Asset)
    requires '/' !in asset.os && '/' !in asset.arch
    ensures Utils.GetBaseName(CliUrl(version, asset)) == AssetName(asset)
    ensures '/' !in CliUrl(version, asset)[|ReleaseBase + version| + 1..]
  {
    var name := AssetName(asset);
    var dir := ReleaseBase + version + "/";
    var url := CliUrl(version, asset);
    assert url == dir + name;
    assert '/' !in name by {
      forall i | 0 <= i < |name| ensures name[i] != '/' {
        if i < 12 {
          assert name[i] == "tree-sitter-"[i];
        } else if i < 12 + |asset.os| {
          assert name[i] == asset.os[i - 12];
        } else if i == 12 + |asset.os| {
          assert name[i] == '-';
        } else if i < 13 + |asset.os| + |asset.arch| {
          assert name[i] == asset.arch[i - 13 - |asset.os|];
        } else {
          assert name[i] == ".gz"[i - 13 - |asset.os| - |asset.arch|];
        }
      }
    }
    assert url[|url| - |name| - 1..] == ['/'] + name;
    assert url[|dir|..] == name;
    Utils.SuffixGivesBaseName(url, name);
  }

  function WasmUrl(version: string): string
  {
    ReleaseBase + version + "/tree-sitter.wasm"
  }

  // ---------------------------------------------------------------------------
  // The CLI download: exactly one redirect, no loop

  /**
   * What the CLI download callbacks do with the replies to their requests:
   * the URLs requested, the status they settle on (`None` leaves the status at
   * `downloading`), and whether the CLI file is (re)created or deleted.
   */
  datatype CliRun = CliRun(requested: seq<string>, settled: Option<TsStatus>, creates: bool, deletes: bool)

  /** The second reply of a run, when the first was a followed redirect. */
  predicate SecondIs200(replies: seq<Reply>)
  {
    |replies| >= 2 && IsFollowedRedirect(replies[0]) && replies[1].Reply? && replies[1].status == 200
  }

  function CliFetch(url: string, replies: seq<Reply>): (run: CliRun)
    ensures |run.requested| >= 1 && run.requested[0] == url
    ensures |run.requested| == 2 <==> |replies| >= 1 && IsFollowedRedirect(replies[0])
    ensures |run.requested| <= 2
    ensures run.settled == Some(Downloaded) <==> SecondIs200(replies) && replies[1].body.Finished?
    ensures run.settled == Some(Error) <==> SecondIs200(replies) && replies[1].body.StreamFailed?
    ensures run.settled.None? <==> !SecondIs200(replies) || replies[1].body.Streaming?
    ensures run.creates <==> SecondIs200(replies)
    ensures run.deletes <==> run.settled == Some(Error)
  {
    if |replies| >= 1 && IsFollowedRedirect(replies[0]) then
      var requested := [url, replies[0].location];
      if |replies| >= 2 && replies[1].Reply? && replies[1].status == 200 then
        match replies[1].body
        case Finished => CliRun(requested, Some(Downloaded), true, false)
        case StreamFailed(_) => CliRun(requested, Some(Error), true, true)
        case Streaming => CliRun(requested, None, true, false)
      else CliRun(requested, None, false, false)
    else CliRun([url], None, false, false)
  }

  /**
   * Unlike `downloadFile`, the CLI download follows one redirect only: a
   * direct 200, or a second redirect before the 200, leave the status at
   * `downloading` where `downloadFile` would have resolved.
   */
  lemma CliFetchHasNoRedirectLoop(url: string, hop: string)
    requires hop != ""
    ensures CliFetch(url, [Reply(200, "", Finished)]).settled.None?
    ensures DownloadFile(url, [Reply(200, "", Finished)]).outcome == Done
    ensures CliFetch(url, [Reply(302, hop, Streaming), Reply(302, hop, Streaming), Reply(200, "", Finished)]).settled.None?
    ensures DownloadFile(url, [Reply(302, hop, Streaming), Reply(302, hop, Streaming), Reply(200, "", Finished)]).outcome == Done
  {
    var replies := [Reply(302, hop, Streaming), Reply(302, hop, Streaming), Reply(200, "", Finished)];
    assert replies[1..][1..] == [Reply(200, "", Finished)];
  }

  // ---------------------------------------------------------------------------
  // The runtime wasm download

  /** The status a settled `downloadFile` promise leads to; `None` while it has not settled. */
  function WasmSettle(d: Download): (s: Option<TsStatus>)
    ensures s == Some(Downloaded) <==> d.outcome == Done
    ensures s == Some(Error) <==> d.outcome.Failed?
    ensures s.None? <==> d.outcome == Pending
  {
    match d.outcome
    case Done => Some(Downloaded)
    case Failed(_) => Some(Error)
    case Pending => None
  }

  // ---------------------------------------------------------------------------
  // The Emscripten SDK setup: three steps, none of them aborts the others

  datatype EmsdkStep = Clone | Install | Activate

  const CloneCommand: string := "git clone https://github.com/emscripten-core/emsdk --depth 1"
  const InstallCommand: string := "./emsdk install latest"
  const ActivateCommand: string := "./emsdk activate latest"

  function EmsdkCommands(step: EmsdkStep, home: string): seq<string>
  {
    match step
    case Clone => ["cd " + LocalDir(home), CloneCommand]
    case Install => ["cd " + EmsdkDir(home), InstallCommand]
    case Activate => ["cd " + EmsdkDir(home), ActivateCommand]
  }

  /** A step succeeds when the `[res, err]` pair of its awaited exec has no error. */
  predicate ExecSucceeds(commands: seq<string>, result: ProcessResult)
  {
    ATryCatch(CreateExec(commands, result)).1.None?
  }

  /** The status a step assigns (and broadcasts), if any: a failure gives `error`, a successful activate `setuped`. */
  function EmsdkStepStatus(step: EmsdkStep, ok: bool): (s: Option<EmsdkStatus>)
    ensures s.Some? <==> !ok || step == Activate
    ensures s.Some? ==> (s.value == Setuped <==> ok)
  {
    if !ok then Some(EError)
    else if step == Activate then Some(Setuped)
    else None
  }

  function Assigned(s: Option<EmsdkStatus>): seq<EmsdkStatus>
  {
    if s.Some? then [s.value] else []
  }

  /** The messages that broadcast a sequence of SDK statuses, one each, in order. */
  function EmsdkMessages(b: seq<EmsdkStatus>): (ms: seq<ServerMessage>)
    ensures |ms| == |b| && forall i :: 0 <= i < |b| ==> ms[i] == EmsdkStatusMsg(b[i])
  {
    seq(|b|, i requires 0 <= i < |b| => EmsdkStatusMsg(b[i]))
  }

  /** Three steps' broadcasts appended one after the other are the broadcasts of the whole run. */
  lemma EmsdkMessagesAppend3(o0: seq<ServerMessage>, o1: seq<ServerMessage>, o2: seq<ServerMessage>, o3: seq<ServerMessage>,
                             a1: seq<EmsdkStatus>, a2: seq<EmsdkStatus>, a3: seq<EmsdkStatus>)
    requires o1 == o0 + EmsdkMessages(a1) && o2 == o1 + EmsdkMessages(a2) && o3 == o2 + EmsdkMessages(a3)
    ensures o3 == o0 + EmsdkMessages(a1 + a2 + a3)
  {
    assert EmsdkMessages(a1 + a2 + a3) == EmsdkMessages(a1) + EmsdkMessages(a2) + EmsdkMessages(a3);
  }

  /** The statuses one setup run broadcasts after its initial `downloading`, in order. */
  function EmsdkBroadcasts(cloneOk: bool, installOk: bool, activateOk: bool): seq<EmsdkStatus>
  {
    Assigned(EmsdkStepStatus(Clone, cloneOk)) + Assigned(EmsdkStepStatus(Install, installOk))
      + Assigned(EmsdkStepStatus(Activate, activateOk))
  }

  /**
   * The final status of a setup run is `setuped` exactly when activation
   * succeeds, whatever happened to the clone and the install: a failed step
   * broadcasts `error` and the run goes on.
   */
  lemma EmsdkFinalStatus(cloneOk: bool, installOk: bool, activateOk: bool)
    ensures var b := EmsdkBroadcasts(cloneOk, installOk, activateOk);
      && |b| == 1 + (if cloneOk then 0 else 1) + (if installOk then 0 else 1)
      && (b[|b| - 1] == Setuped <==> activateOk)
      && (b[|b| - 1] == EError <==> !activateOk)
      && (forall i :: 0 <= i < |b| - 1 ==> b[i] == EError)
  {
  }

  // ---------------------------------------------------------------------------
  // The build pipeline

  const GrammarSource: string := "grammar.js"
  const DebounceMs: int := 500

  /** Where the compiled module of a folder goes; only `uniqueName`'s value for the folder matters. */
  function ArtifactPath(home: string, uniqueName: string -> string, folder: string): string
  {
    TgDir(home) + "/" + uniqueName(folder) + ".wasm"
  }

  function GenerateCommands(folder: string): seq<string>
  {
    ["cd " + folder, "tree-sitter generate"]
  }

  function CompileCommands(folder: string, home: string, output: string): seq<string>
  {
    ["cd " + folder, "source " + EmsdkDir(home) + "/emsdk_env.sh", "tree-sitter build --wasm --output " + output]
  }

  /** The shell command lines a build ran, in order, and how the build promise settled. */
  datatype BuildRun = BuildRun(lines: seq<string>, outcome: Settled<(), string>)

  /**
   * `buildWasm`: make the output directory, generate, then compile into the
   * artifact path. `mkdir` is the error `mkdirSync` throws when the output
   * directory is missing and cannot be made (it is not recursive, so a missing
   * `~/.cache` makes it throw); `None` when the directory exists or was made.
   * A throw rejects the build before any command runs, and a failed generate
   * rejects it before compile runs; the build resolves only when every stage
   * succeeds, and a failure carries the failing stage's error.
   */
  function BuildWasm(folder: string, home: string, uniqueName: string -> string, mkdir: Option<string>,
                     generate: ProcessResult, compile: ProcessResult): (run: BuildRun)
    ensures |run.lines| <= 2
    ensures run.lines == [] <==> mkdir.Some?
    ensures mkdir.Some? ==> run.outcome == Rejected(mkdir.value)
    ensures |run.lines| >= 1 ==> run.lines[0] == ExecCommandLine(GenerateCommands(folder))
    ensures |run.lines| == 2 <==> mkdir.None? && ExecSucceeds(GenerateCommands(folder), generate)
    ensures |run.lines| == 2 ==>
              run.lines[1] == ExecCommandLine(CompileCommands(folder, home, ArtifactPath(home, uniqueName, folder)))
    ensures run.outcome.Resolved? <==>
              && mkdir.None?
              && ExecSucceeds(GenerateCommands(folder), generate)
              && ExecSucceeds(CompileCommands(folder, home, ArtifactPath(home, uniqueName, folder)), compile)
    ensures |run.lines| == 1 ==>
              run.outcome == Rejected(ATryCatch(CreateExec(GenerateCommands(folder), generate)).1.value)
  {
    if mkdir.Some? then BuildRun([], Rejected(mkdir.value))
    else
      var output := ArtifactPath(home, uniqueName, folder);
      var generated := ATryCatch(CreateExec(GenerateCommands(folder), generate));
      var first := ExecCommandLine(GenerateCommands(folder));
      if generated.1.Some? then BuildRun([first], Rejected(generated.1.value))
      else
        var compiled := ATryCatch(CreateExec(CompileCommands(folder, home, output), compile));
        var second := ExecCommandLine(CompileCommands(folder, home, output));
        if compiled.1.Some? then BuildRun([first, second], Rejected(compiled.1.value))
        else BuildRun([first, second], Resolved(()))
  }

  // ---------------------------------------------------------------------------
  // The registry

  predicate NoDuplicates(s: seq<string>)
  {
    forall i, j :: 0 <= i < j < |s| ==> s[i] != s[j]
  }

  /** `if (!grammars.includes(f)) grammars.push(f)`. */
  function InsertIfAbsent(grammars: seq<string>, folder: string): (r: seq<string>)
    ensures folder in r
    ensures folder in grammars ==> r == grammars
    ensures folder !in grammars ==> r == grammars + [folder]
  {
    if folder in grammars then grammars else grammars + [folder]
  }

  /** The registry after `watch` went through `folders` in order. */
  function AppendAbsent(grammars: seq<string>, folders: seq<string>): seq<string>
  {
    if folders == [] then grammars
    else InsertIfAbsent(AppendAbsent(grammars, folders[..|folders| - 1]), folders[|folders| - 1])
  }

  /** `watch` keeps what was registered, in place, and registers exactly the folders it was given. */
  lemma {:induction false} AppendAbsentKeeps(grammars: seq<string>, folders: seq<string>)
    ensures var r := AppendAbsent(grammars, folders);
      && |grammars| <= |r| && r[..|grammars|] == grammars
      && (forall f :: f in r <==> f in grammars || f in folders)
    decreases |folders|
  {
    if folders != [] {
      var init := folders[..|folders| - 1];
      AppendAbsentKeeps(grammars, init);
      assert folders == init + [folders[|folders| - 1]];
    }
  }

  /** Every folder `watch` appends differs from everything before it. */
  lemma {:induction false} AppendAbsentFresh(grammars: seq<string>, folders: seq<string>)
    ensures var r := AppendAbsent(grammars, folders);
      forall i, j :: 0 <= j < i < |r| && |grammars| <= i ==> r[j] != r[i]
    decreases |folders|
  {
    if folders != [] {
      var init := folders[..|folders| - 1];
      AppendAbsentFresh(grammars, init);
      AppendAbsentKeeps(grammars, init);
    }
  }

  /** `watch` never creates a duplicate. */
  lemma AppendAbsentNoDuplicates(grammars: seq<string>, folders: seq<string>)
    requires NoDuplicates(grammars)
    ensures NoDuplicates(AppendAbsent(grammars, folders))
  {
    AppendAbsentKeeps(grammars, folders);
    AppendAbsentFresh(grammars, folders);
  }

  /** New folders are appended in the order of their first appearance in the message. */
  lemma {:induction false} AppendAbsentOrder(grammars: seq<string>, folders: seq<string>)
    ensures var r := AppendAbsent(grammars, folders);
      forall i, j :: |grammars| <= i < j < |r| ==> FirstIndex(folders, r[i]) < FirstIndex(folders, r[j])
    decreases |folders|
  {
    if folders != [] {
      var init := folders[..|folders| - 1];
      var last := folders[|folders| - 1];
      AppendAbsentOrder(grammars, init);
      AppendAbsentKeeps(grammars, init);
      AppendAbsentFresh(grammars, init);
      var p := AppendAbsent(grammars, init);
      assert folders == init + [last];
      forall i | |grammars| <= i < |p|
        ensures p[i] in init && FirstIndex(folders, p[i]) == FirstIndex(init, p[i]) < |init|
      {
        assert p[i] !in grammars by {
          forall k | 0 <= k < |grammars|
            ensures grammars[k] != p[i]
          {
            assert p[k] == grammars[k];
          }
        }
        FirstIndexPrefix(init, last, p[i]);
      }
      if last !in p {
        assert last !in init;
        FirstIndexLast(init, last);
      }
    }
  }

  /** Index of the first occurrence of `x` in `s`, or `|s|` when it is absent. */
  function FirstIndex(s: seq<string>, x: string): (k: nat)
    ensures k <= |s|
    ensures k < |s| ==> s[k] == x
    ensures forall i :: 0 <= i < k ==> s[i] != x
  {
    if s == [] then 0
    else if s[0] == x then 0
    else 1 + FirstIndex(s[1..], x)
  }

  lemma FirstIndexPrefix(init: seq<string>, last: string, x: string)
    requires x in init
    ensures FirstIndex(init + [last], x) == FirstIndex(init, x)
  {
    var s := init + [last];
    var j :| 0 <= j < |init| && init[j] == x;
    assert FirstIndex(init, x) <= j;
    assert forall i :: 0 <= i < |init| ==> s[i] == init[i];
  }

  lemma FirstIndexLast(init: seq<string>, last: string)
    requires last !in init
    ensures FirstIndex(init + [last], last) == |init|
  {
    var s := init + [last];
    assert s[|init|] == last;
    assert forall i :: 0 <= i < |init| ==> s[i] == init[i] && s[i] != last;
  }

  lemma FirstIndexBound(s: seq<string>, x: string)
    requires x in s
    ensures FirstIndex(s, x) < |s|
  {
  }

  // ---------------------------------------------------------------------------
  // Debounce table

  /** A debounce timer: when it is due and whether it has fired. */
  datatype Timer = Timer(due: int, fired: bool)

  /** A change to `filePath` concerns `folder` when the folder is a string prefix of it and its base name is `grammar.js`. */
  predicate Qualifies(folder: string, filePath: string)
  {
    |folder| <= |filePath| && filePath[..|folder|] == folder && PathBasename(filePath) == GrammarSource
  }

  /**
   * The change handler's effect on the timers: every registered folder the
   * change concerns gets a fresh timer due 500 ms later, replacing any pending
   * one; every other entry stays as it was.
   */
  function Debounce(builds: map<string, Timer>, grammars: seq<string>, filePath: string, now: int)
    : (next: map<string, Timer>)
    ensures forall f :: f in next <==> f in builds || (f in grammars && Qualifies(f, filePath))
    ensures forall f :: f in next && f in grammars && Qualifies(f, filePath) ==> next[f] == Timer(now + DebounceMs, false)
    ensures forall f :: f in builds && !(f in grammars && Qualifies(f, filePath)) ==> next[f] == builds[f]
    decreases |grammars|
  {
    if grammars == [] then builds
    else
      var init := grammars[..|grammars| - 1];
      var folder := grammars[|grammars| - 1];
      assert grammars == init + [folder];
      var prev := Debounce(builds, init, filePath, now);
      if Qualifies(folder, filePath) then prev[folder := Timer(now + DebounceMs, false)] else prev
  }

  /** Going through one more registered folder. */
  lemma DebounceSnoc(builds: map<string, Timer>, grammars: seq<string>, folder: string, filePath: string, now: int)
    ensures Debounce(builds, grammars + [folder], filePath, now)
            == if Qualifies(folder, filePath)
               then Debounce(builds, grammars, filePath, now)[folder := Timer(now + DebounceMs, false)]
               else Debounce(builds, grammars, filePath, now)
  {
    assert (grammars + [folder])[..|grammars|] == grammars;
  }

  /** The timer of `folder` fires at `now`. */
  predicate Due(builds: map<string, Timer>, folder: string, now: int)
  {
    folder in builds && !builds[folder].fired && builds[folder].due <= now
  }

  /** The timers after a burst of changes to the same file at the given times. */
  function ChangeBurst(builds: map<string, Timer>, grammars: seq<string>, filePath: string, times: seq<int>)
    : map<string, Timer>
  {
    if times == [] then builds
    else Debounce(ChangeBurst(builds, grammars, filePath, times[..|times| - 1]), grammars, filePath, times[|times| - 1])
  }

  /** After a burst, the folder's timer is the one set by the last change. */
  lemma BurstTimer(builds: map<string, Timer>, grammars: seq<string>, filePath: string,
                   times: seq<int>, folder: string)
    requires folder in grammars && Qualifies(folder, filePath)
    requires |times| >= 1
    ensures var b := ChangeBurst(builds, grammars, filePath, times);
      folder in b && b[folder] == Timer(times[|times| - 1] + DebounceMs, false)
  {
  }

  /**
   * Debounce coalescing: when changes arrive less than 500 ms apart, the
   * folder's timer is never due before the next change, and after the last
   * change it is due from exactly 500 ms on, so the burst builds once.
   */
  lemma DebounceCoalesces(builds: map<string, Timer>, grammars: seq<string>, filePath: string,
                          times: seq<int>, folder: string)
    requires folder in grammars && Qualifies(folder, filePath)
    requires forall k :: 0 <= k < |times| - 1 ==> times[k] <= times[k + 1] < times[k] + DebounceMs
    requires |times| >= 1
    ensures forall k, t :: 1 <= k < |times| && t < times[k] ==>
              !Due(ChangeBurst(builds, grammars, filePath, times[..k]), folder, t)
    ensures forall t :: Due(ChangeBurst(builds, grammars, filePath, times), folder, t) <==>
              t >= times[|times| - 1] + DebounceMs
  {
    BurstTimer(builds, grammars, filePath, times, folder);
    forall k, t | 1 <= k < |times| && t < times[k]
      ensures !Due(ChangeBurst(builds, grammars, filePath, times[..k]), folder, t)
    {
      BurstTimer(builds, grammars, filePath, times[..k], folder);
      assert times[..k][k - 1] == times[k - 1];
    }
  }

  // ---------------------------------------------------------------------------
  // Broadcast bookkeeping

  predicate IsStatusOf(m: ServerMessage, dep: Dependency)
  {
    match dep
    case Cli => m.TsCliStatus?
    case Wasm => m.TsWasmStatus?
    case Emsdk => m.EmsdkStatusMsg?
  }

  /** The latest status message of a dependency in the broadcast history. */
  function LastStatus(out: seq<ServerMessage>, dep: Dependency): Option<ServerMessage>
  {
    if out == [] then None
    else if IsStatusOf(out[|out| - 1], dep) then Some(out[|out| - 1])
    else LastStatus(out[..|out| - 1], dep)
  }

  /** The latest status message is a status of that dependency taken from the history, and there is none only when the history holds none. */
  lemma {:induction false} LastStatusMeaning(out: seq<ServerMessage>, dep: Dependency)
    ensures var r := LastStatus(out, dep);
      && (r.Some? ==> IsStatusOf(r.value, dep) && r.value in out)
      && (r.None? <==> forall i :: 0 <= i < |out| ==> !IsStatusOf(out[i], dep))
    decreases |out|
  {
    if out != [] && !IsStatusOf(out[|out| - 1], dep) {
      var init := out[..|out| - 1];
      LastStatusMeaning(init, dep);
      assert forall i :: 0 <= i < |init| ==> init[i] == out[i];
    }
  }

  lemma LastStatusAppend(out: seq<ServerMessage>, m: ServerMessage, dep: Dependency)
    ensures LastStatus(out + [m], dep) == if IsStatusOf(m, dep) then Some(m) else LastStatus(out, dep)
  {
    assert (out + [m])[..|out|] == out;
  }

  /** The startup status: derived from whether the installed file exists. */
  function StartupTsStatus(fileExists: bool): TsStatus
  {
    if fileExists then Downloaded else Unset
  }

  function StartupEmsdkStatus(dirExists: bool): EmsdkStatus
  {
    if dirExists then Setuped else EUnset
  }

  /** What a client message starts outside the server: a request, a setup run or a build. */
  datatype Job = NoJob | CliJob(url: string) | WasmJob(url: string) | EmsdkJob | BuildJob(folder: string)
               | RebuildJob(folder: string)

  /** The jobs in flight after a handler returned `job`: `NoJob` starts nothing. */
  function Started(inFlight: multiset<Job>, job: Job): multiset<Job>
  {
    if job.NoJob? then inFlight else inFlight + multiset{job}
  }

  datatype Host = Host(platform: string, arch: string)

  // ---------------------------------------------------------------------------
  // The server

  class Server {
    const home: string
    /** `getGrmrUniqueName`, whose definition is not part of this model. */
    const uniqueName: string -> string

    var grammars: seq<string>
    var builds: map<string, Timer>
    var cliStatus: TsStatus
    var wasmStatus: TsStatus
    var emsdkStatus: EmsdkStatus
    /** Whether the installed CLI file, the runtime wasm file and the SDK directory exist. */
    var cliFile: bool
    var wasmFile: bool
    var emsdkDir: bool
    /** A change listener is installed once the first client has connected. */
    var listening: bool
    /** Everything broadcast so far, oldest first. */
    var outbox: seq<ServerMessage>
    /** The requests, setup runs and builds started and not yet settled. */
    ghost var inFlight: multiset<Job>

    function StatusMessage(dep: Dependency): (m: ServerMessage)
      reads this`cliStatus, this`wasmStatus, this`emsdkStatus
      ensures IsStatusOf(m, dep)
    {
      match dep
      case Cli => TsCliStatus(cliStatus)
      case Wasm => TsWasmStatus(wasmStatus)
      case Emsdk => EmsdkStatusMsg(emsdkStatus)
    }

    /** The last status broadcast for `dep`, if any, is its current status. */
    predicate Synced(dep: Dependency)
      reads this`cliStatus, this`wasmStatus, this`emsdkStatus, this`outbox
    {
      LastStatus(outbox, dep) == None || LastStatus(outbox, dep) == Some(StatusMessage(dep))
    }

    /** Every folder is registered once, and every timer belongs to a registered folder. */
    ghost predicate RegistryValid()
      reads this`grammars, this`builds
    {
      && NoDuplicates(grammars)
      && (forall f :: f in builds ==> f in grammars)
    }

    /** The last status broadcast for each dependency is its current status, and no error message was ever sent. */
    ghost predicate BroadcastValid()
      reads this`cliStatus, this`wasmStatus, this`emsdkStatus, this`outbox
    {
      && Synced(Cli) && Synced(Wasm) && Synced(Emsdk)
      && (forall i :: 0 <= i < |outbox| ==> !NeverSent(outbox[i]))
    }

    ghost predicate Valid()
      reads this`grammars, this`builds, this`cliStatus, this`wasmStatus, this`emsdkStatus, this`outbox
    {
      RegistryValid() && BroadcastValid()
    }

    /** Server start: statuses come from the files found on disk; nothing is registered or sent. */
    constructor (home: string, uniqueName: string -> string, cliFile: bool, wasmFile: bool, emsdkDir: bool)
      ensures Valid()
      ensures this.home == home && this.uniqueName == uniqueName
      ensures grammars == [] && builds == map[] && outbox == [] && !listening && inFlight == multiset{}
      ensures this.cliFile == cliFile && this.wasmFile == wasmFile && this.emsdkDir == emsdkDir
      ensures cliStatus == StartupTsStatus(cliFile) && wasmStatus == StartupTsStatus(wasmFile)
      ensures emsdkStatus == StartupEmsdkStatus(emsdkDir)
    {
      this.home := home;
      this.uniqueName := uniqueName;
      grammars := [];
      builds := map[];
      cliStatus := StartupTsStatus(cliFile);
      wasmStatus := StartupTsStatus(wasmFile);
      emsdkStatus := StartupEmsdkStatus(emsdkDir);
      this.cliFile := cliFile;
      this.wasmFile := wasmFile;
      this.emsdkDir := emsdkDir;
      listening := false;
      outbox := [];
      inFlight := multiset{};
    }

    /** `sendMessageToClient`: broadcast to every client. */
    method Broadcast(m: ServerMessage)
      modifies this`outbox
      ensures outbox == old(outbox) + [m]
      ensures LastStatus(outbox, Cli) == if IsStatusOf(m, Cli) then Some(m) else LastStatus(old(outbox), Cli)
      ensures LastStatus(outbox, Wasm) == if IsStatusOf(m, Wasm) then Some(m) else LastStatus(old(outbox), Wasm)
      ensures LastStatus(outbox, Emsdk) == if IsStatusOf(m, Emsdk) then Some(m) else LastStatus(old(outbox), Emsdk)
    {
      outbox := outbox + [m];
      LastStatusAppend(old(outbox), m, Cli);
      LastStatusAppend(old(outbox), m, Wasm);
      LastStatusAppend(old(outbox), m, Emsdk);
    }

    /** Sets the CLI status and broadcasts it, as every CLI handler does. */
    method SetCliStatus(status: TsStatus)
      requires Valid()
      modifies this`cliStatus, this`outbox
      ensures Valid()
      ensures cliStatus == status && outbox == old(outbox) + [TsCliStatus(status)]
    {
      cliStatus := status;
      Broadcast(TsCliStatus(status));
    }

    /** Sets the runtime wasm status and broadcasts it. */
    method SetWasmStatus(status: TsStatus)
      requires Valid()
      modifies this`wasmStatus, this`outbox
      ensures Valid()
      ensures wasmStatus == status && outbox == old(outbox) + [TsWasmStatus(status)]
    {
      wasmStatus := status;
      Broadcast(TsWasmStatus(status));
    }

    /** Sets the SDK status and broadcasts it. */
    method SetEmsdkStatus(status: EmsdkStatus)
      requires Valid()
      modifies this`emsdkStatus, this`outbox
      ensures Valid()
      ensures emsdkStatus == status && outbox == old(outbox) + [EmsdkStatusMsg(status)]
    {
      emsdkStatus := status;
      Broadcast(EmsdkStatusMsg(status));
    }

    /** Broadcasts `load`, which carries no status. */
    method SendLoad(grammar: string)
      requires Valid()
      modifies this`outbox
      ensures Valid()
      ensures outbox == old(outbox) + [Load(grammar)]
    {
      Broadcast(Load(grammar));
    }

    /** `onConnect`: replaces the change listener by a fresh one; it sends nothing to the new client. */
    method OnConnect()
      modifies this`listening
      ensures listening
    {
      listening := true;
    }

    /** The `*Check` messages: broadcast the current status unchanged. */
    method Check(dep: Dependency)
      requires Valid()
      modifies this`outbox
      ensures Valid()
      ensures outbox == old(outbox) + [StatusMessage(dep)]
    {
      Broadcast(StatusMessage(dep));
    }

    /**
     * `tsCliDownload`: ignored while downloading; otherwise an unsupported host
     * gives `error` at once, with no request, and a supported one gives
     * `downloading` and a request for the release asset.
     */
    method TsCliDownload(version: string, host: Host) returns (job: Job)
      requires Valid()
      modifies this`cliStatus, this`outbox, this`inFlight
      ensures Valid()
      ensures inFlight == Started(old(inFlight), job)
      ensures old(cliStatus) == Downloading ==> job == NoJob && cliStatus == Downloading && outbox == old(outbox)
      ensures old(cliStatus) != Downloading && CliAsset(host.platform, host.arch).None? ==>
                job == NoJob && cliStatus == Error && outbox == old(outbox) + [TsCliStatus(Error)]
      ensures old(cliStatus) != Downloading && CliAsset(host.platform, host.arch).Some? ==>
                && job == CliJob(CliUrl(version, CliAsset(host.platform, host.arch).value))
                && cliStatus == Downloading && outbox == old(outbox) + [TsCliStatus(Downloading)]
    {
      job := NoJob;
      if cliStatus != Downloading {
        var asset := CliAsset(host.platform, host.arch);
        if asset.None? {
          SetCliStatus(Error);
        } else {
          SetCliStatus(Downloading);
          job := CliJob(CliUrl(version, asset.value));
        }
      }
      inFlight := Started(inFlight, job);
    }

    /**
     * The callbacks of the CLI request: settle only after a redirect and then a
     * 200 whose body finished (`downloaded`, file made executable) or failed
     * (`error`, file deleted). Every other reply leaves the status as it is.
     */
    method OnCliReplies(url: string, replies: seq<Reply>) returns (run: CliRun)
      requires Valid() && CliJob(url) in inFlight
      modifies this`cliStatus, this`outbox, this`cliFile, this`inFlight
      ensures Valid()
      ensures inFlight == old(inFlight) - multiset{CliJob(url)}
      ensures run == CliFetch(url, replies)
      ensures run.settled.Some? ==> cliStatus == run.settled.value && outbox == old(outbox) + [TsCliStatus(cliStatus)]
      ensures run.settled.None? ==> cliStatus == old(cliStatus) && outbox == old(outbox)
      ensures cliFile == (if run.deletes then false else old(cliFile) || run.creates)
    {
      run := CliFetch(url, replies);
      if run.creates {
        cliFile := true;
      }
      if run.settled.Some? {
        if run.deletes {
          cliFile := false;
        }
        SetCliStatus(run.settled.value);
      }
      inFlight := inFlight - multiset{CliJob(url)};
    }

    /** `tsWasmDownload`: ignored while downloading; otherwise `downloading` and a `downloadFile` into the cache. */
    method TsWasmDownload(version: string) returns (job: Job)
      requires Valid()
      modifies this`wasmStatus, this`outbox, this`wasmFile, this`inFlight
      ensures Valid()
      ensures inFlight == Started(old(inFlight), job)
      ensures old(wasmStatus) == Downloading ==>
                job == NoJob && wasmStatus == Downloading && outbox == old(outbox) && wasmFile == old(wasmFile)
      ensures old(wasmStatus) != Downloading ==>
                && job == WasmJob(WasmUrl(version)) && wasmStatus == Downloading
                && outbox == old(outbox) + [TsWasmStatus(Downloading)]
                && wasmFile
    {
      job := NoJob;
      if wasmStatus != Downloading {
        SetWasmStatus(Downloading);
        // downloadFile opens the destination for writing before its first request
        wasmFile := true;
        job := WasmJob(WasmUrl(version));
      }
      inFlight := Started(inFlight, job);
    }

    /** The `then`/`catch` of the wasm download; an unsettled download changes nothing. */
    method OnWasmReplies(url: string, replies: seq<Reply>) returns (d: Download)
      requires Valid() && WasmJob(url) in inFlight
      modifies this`wasmStatus, this`outbox, this`wasmFile, this`inFlight
      ensures Valid()
      ensures inFlight == old(inFlight) - multiset{WasmJob(url)}
      ensures d == DownloadFile(url, replies)
      ensures WasmSettle(d).Some? ==> wasmStatus == WasmSettle(d).value && outbox == old(outbox) + [TsWasmStatus(wasmStatus)]
      ensures WasmSettle(d).None? ==> wasmStatus == old(wasmStatus) && outbox == old(outbox)
      ensures wasmFile == (old(wasmFile) && !d.deleted)
    {
      d := DownloadFile(url, replies);
      if d.deleted {
        wasmFile := false;
      }
      var settled := WasmSettle(d);
      if settled.Some? {
        SetWasmStatus(settled.value);
      }
      inFlight := inFlight - multiset{WasmJob(url)};
    }

    /** `emsdkDownload`: ignored while downloading; otherwise `downloading` and a setup run. */
    method EmsdkDownloadRequest() returns (job: Job)
      requires Valid()
      modifies this`emsdkStatus, this`outbox, this`inFlight
      ensures Valid()
      ensures inFlight == Started(old(inFlight), job)
      ensures old(emsdkStatus) == EDownloading ==> job == NoJob && emsdkStatus == EDownloading && outbox == old(outbox)
      ensures old(emsdkStatus) != EDownloading ==>
                job == EmsdkJob && emsdkStatus == EDownloading && outbox == old(outbox) + [EmsdkStatusMsg(EDownloading)]
    {
      job := NoJob;
      if emsdkStatus != EDownloading {
        SetEmsdkStatus(EDownloading);
        job := EmsdkJob;
      }
      inFlight := Started(inFlight, job);
    }

    /**
     * One awaited step of a setup run in flight: a failure or a successful
     * activate sets and broadcasts the status; the run ends with its activate step.
     */
    method OnEmsdkStep(step: EmsdkStep, result: ProcessResult) returns (line: string)
      requires Valid() && EmsdkJob in inFlight
      modifies this`emsdkStatus, this`outbox, this`emsdkDir, this`inFlight
      ensures Valid()
      ensures inFlight == if step == Activate then old(inFlight) - multiset{EmsdkJob} else old(inFlight)
      ensures line == ExecCommandLine(EmsdkCommands(step, home))
      ensures var s := EmsdkStepStatus(step, ExecSucceeds(EmsdkCommands(step, home), result));
        && outbox == old(outbox) + EmsdkMessages(Assigned(s))
        && emsdkStatus == (if s.Some? then s.value else old(emsdkStatus))
      ensures emsdkDir == (old(emsdkDir) || (step == Clone && ExecSucceeds(EmsdkCommands(step, home), result)))
    {
      var commands := EmsdkCommands(step, home);
      line := ExecCommandLine(commands);
      var pair := ATryCatch(CreateExec(commands, result));
      var s := EmsdkStepStatus(step, pair.1.None?);
      if step == Clone && pair.1.None? {
        emsdkDir := true;
      }
      if s.Some? {
        SetEmsdkStatus(s.value);
        assert EmsdkMessages(Assigned(s)) == [EmsdkStatusMsg(s.value)];
      }
      if step == Activate {
        inFlight := inFlight - multiset{EmsdkJob};
      }
    }

    /**
     * The whole setup run: clone, install and activate run one after the
     * other whatever the earlier ones gave; the final status depends on
     * activation alone.
     */
    method RunEmsdkSetup(clone: ProcessResult, install: ProcessResult, activate: ProcessResult)
      returns (lines: seq<string>)
      requires Valid() && EmsdkJob in inFlight
      modifies this`emsdkStatus, this`outbox, this`emsdkDir, this`inFlight
      ensures Valid()
      ensures inFlight == old(inFlight) - multiset{EmsdkJob}
      ensures lines == [ExecCommandLine(EmsdkCommands(Clone, home)), ExecCommandLine(EmsdkCommands(Install, home)),
                        ExecCommandLine(EmsdkCommands(Activate, home))]
      ensures outbox == old(outbox) + EmsdkMessages(EmsdkBroadcasts(ExecSucceeds(EmsdkCommands(Clone, home), clone),
                                                                  ExecSucceeds(EmsdkCommands(Install, home), install),
                                                                  ExecSucceeds(EmsdkCommands(Activate, home), activate)))
      ensures emsdkStatus == (if ExecSucceeds(EmsdkCommands(Activate, home), activate) then Setuped else EError)
    {
      ghost var o0 := outbox;
      var l1 := OnEmsdkStep(Clone, clone);
      ghost var o1 := outbox;
      var l2 := OnEmsdkStep(Install, install);
      ghost var o2 := outbox;
      var l3 := OnEmsdkStep(Activate, activate);
      lines := [l1, l2, l3];
      EmsdkMessagesAppend3(o0, o1, o2, outbox,
        Assigned(EmsdkStepStatus(Clone, ExecSucceeds(EmsdkCommands(Clone, home), clone))),
        Assigned(EmsdkStepStatus(Install, ExecSucceeds(EmsdkCommands(Install, home), install))),
        Assigned(EmsdkStepStatus(Activate, ExecSucceeds(EmsdkCommands(Activate, home), activate))));
    }

    /** `add`: a build starts only for a path that exists; nothing else changes yet. */
    method Add(folder: string, pathExists: bool) returns (job: Job)
      modifies this`inFlight
      ensures job == if pathExists then BuildJob(folder) else NoJob
      ensures inFlight == Started(old(inFlight), job)
    {
      job := NoJob;
      if pathExists {
        job := BuildJob(folder);
      }
      inFlight := Started(inFlight, job);
    }

    /**
     * A build started by `add` settles: on success the folder is registered
     * (once) and `load` is sent with its base name; a failure changes nothing.
     * A folder is newly registered only by a build of an existing path that
     * resolved.
     */
    method OnAddBuilt(folder: string, mkdir: Option<string>, generate: ProcessResult, compile: ProcessResult)
      returns (run: BuildRun)
      requires Valid() && BuildJob(folder) in inFlight
      modifies this`grammars, this`outbox, this`inFlight
      ensures Valid()
      ensures inFlight == old(inFlight) - multiset{BuildJob(folder)}
      ensures run == BuildWasm(folder, home, uniqueName, mkdir, generate, compile)
      ensures run.outcome.Resolved? ==>
                grammars == InsertIfAbsent(old(grammars), folder) && outbox == old(outbox) + [Load(PathBasename(folder))]
      ensures run.outcome.Rejected? ==> grammars == old(grammars) && outbox == old(outbox)
      ensures folder in grammars && folder !in old(grammars) ==>
                BuildJob(folder) in old(inFlight) && run.outcome.Resolved?
    {
      run := BuildWasm(folder, home, uniqueName, mkdir, generate, compile);
      if run.outcome.Resolved? {
        if folder !in grammars {
          grammars := grammars + [folder];
        }
        SendLoad(PathBasename(folder));
      }
      inFlight := inFlight - multiset{BuildJob(folder)};
    }

    /**
     * `add` followed by the settling of the build it started: the registry
     * grows exactly when the path exists and the build resolves.
     */
    method AddAndBuild(folder: string, pathExists: bool, mkdir: Option<string>,
                       generate: ProcessResult, compile: ProcessResult) returns (run: Option<BuildRun>)
      requires Valid()
      modifies this`grammars, this`outbox, this`inFlight
      ensures Valid()
      ensures inFlight == old(inFlight)
      ensures run.Some? <==> pathExists
      ensures grammars == if pathExists && run.value.outcome.Resolved? then InsertIfAbsent(old(grammars), folder)
                          else old(grammars)
    {
      var job := Add(folder, pathExists);
      run := None;
      if job.BuildJob? {
        var r := OnAddBuilt(folder, mkdir, generate, compile);
        run := Some(r);
      }
    }

    /** `watch`: registers each folder not yet present, in order. */
    method Watch(folders: seq<string>)
      requires Valid()
      modifies this`grammars
      ensures Valid()
      ensures grammars == AppendAbsent(old(grammars), folders)
    {
      var i := 0;
      while i < |folders|
        invariant 0 <= i <= |folders|
        invariant grammars == AppendAbsent(old(grammars), folders[..i])
        invariant Valid()
      {
        assert folders[..i + 1][..i] == folders[..i];
        if folders[i] !in grammars {
          grammars := grammars + [folders[i]];
        }
        i := i + 1;
      }
      assert folders[..i] == folders;
    }

    /** A file change seen by the listener: debounce every registered folder it concerns. */
    method OnChange(filePath: string, now: int)
      requires Valid()
      modifies this`builds
      ensures Valid()
      ensures builds == if listening then Debounce(old(builds), grammars, filePath, now) else old(builds)
    {
      if listening {
        var i := 0;
        while i < |grammars|
          invariant 0 <= i <= |grammars|
          invariant builds == Debounce(old(builds), grammars[..i], filePath, now)
          invariant forall f :: f in builds ==> f in grammars
        {
          var folder := grammars[i];
          assert grammars[..i + 1] == grammars[..i] + [folder];
          DebounceSnoc(old(builds), grammars[..i], folder, filePath, now);
          if |folder| <= |filePath| && filePath[..|folder|] == folder {
            if PathBasename(filePath) == GrammarSource {
              builds := builds[folder := Timer(now + DebounceMs, false)];
            }
          }
          i := i + 1;
        }
        assert grammars[..i] == grammars;
      }
    }

    /**
     * A timer comes due: it is marked fired and the folder's build starts. A
     * change arriving while that build runs sets a fresh timer, so builds of
     * one folder can overlap.
     */
    method FireTimer(folder: string, now: int) returns (job: Job)
      requires Valid()
      modifies this`builds, this`inFlight
      ensures Valid()
      ensures !Due(old(builds), folder, now) ==> job == NoJob && builds == old(builds)
      ensures Due(old(builds), folder, now) ==>
                job == RebuildJob(folder) && builds == old(builds)[folder := old(builds)[folder].(fired := true)]
      ensures inFlight == Started(old(inFlight), job)
    {
      job := NoJob;
      if Due(builds, folder, now) {
        builds := builds[folder := builds[folder].(fired := true)];
        job := RebuildJob(folder);
      }
      inFlight := Started(inFlight, job);
    }

    /** The build a timer started settles: on success `load` is sent with the full folder path. */
    method OnTimerBuilt(folder: string, mkdir: Option<string>, generate: ProcessResult, compile: ProcessResult)
      returns (run: BuildRun)
      requires Valid() && RebuildJob(folder) in inFlight
      modifies this`outbox, this`inFlight
      ensures Valid()
      ensures inFlight == old(inFlight) - multiset{RebuildJob(folder)}
      ensures run == BuildWasm(folder, home, uniqueName, mkdir, generate, compile)
      ensures outbox == old(outbox) + (if run.outcome.Resolved? then [Load(folder)] else [])
    {
      run := BuildWasm(folder, home, uniqueName, mkdir, generate, compile);
      if run.outcome.Resolved? {
        SendLoad(folder);
      }
      inFlight := inFlight - multiset{RebuildJob(folder)};
    }

    /** The messages about the three dependencies: the checks and the download requests. */
    method OnDependencyMessage(msg: ClientMessage, host: Host) returns (job: Job)
      requires Valid()
      requires msg.TsCliCheck? || msg.TsCliDownload? || msg.TsWasmCheck? || msg.TsWasmDownload?
               || msg.EmsdkCheck? || msg.EmsdkDownload?
      modifies this`cliStatus, this`wasmStatus, this`emsdkStatus, this`cliFile, this`wasmFile, this`outbox, this`inFlight
      ensures Valid()
      ensures msg.TsCliCheck? ==> outbox == old(outbox) + [TsCliStatus(old(cliStatus))] && cliStatus == old(cliStatus)
      ensures msg.TsWasmCheck? ==> outbox == old(outbox) + [TsWasmStatus(old(wasmStatus))] && wasmStatus == old(wasmStatus)
      ensures msg.EmsdkCheck? ==> outbox == old(outbox) + [EmsdkStatusMsg(old(emsdkStatus))] && emsdkStatus == old(emsdkStatus)
      ensures !msg.TsCliDownload? ==> cliStatus == old(cliStatus)
      ensures !msg.TsWasmDownload? ==> wasmStatus == old(wasmStatus)
      ensures !msg.EmsdkDownload? ==> emsdkStatus == old(emsdkStatus)
      ensures msg.EmsdkDownload? ==>
                && emsdkStatus == EDownloading
                && (if old(emsdkStatus) == EDownloading then job == NoJob && outbox == old(outbox)
                    else job == EmsdkJob && outbox == old(outbox) + [EmsdkStatusMsg(EDownloading)])
      ensures msg.TsCliCheck? || msg.TsWasmCheck? || msg.EmsdkCheck? ==> job == NoJob
      ensures inFlight == Started(old(inFlight), job)
      ensures |outbox| <= |old(outbox)| + 1
    {
      job := NoJob;
      match msg {
        case TsCliCheck => Check(Cli);
        case TsCliDownload(version) => job := TsCliDownload(version, host);
        case TsWasmCheck => Check(Wasm);
        case TsWasmDownload(version) => job := TsWasmDownload(version);
        case EmsdkCheck => Check(Emsdk);
        case EmsdkDownload => job := EmsdkDownloadRequest();
      }
    }

    /** The messages about grammar folders: `add` and `watch`; `remove` and `tsDownload` have no branch. */
    method OnRegistryMessage(msg: ClientMessage, pathExists: bool) returns (job: Job)
      requires Valid()
      requires msg.Add? || msg.Watch? || msg.TsDownload? || msg.Remove?
      modifies this`grammars, this`inFlight
      ensures Valid()
      ensures grammars == if msg.Watch? then AppendAbsent(old(grammars), msg.folders) else old(grammars)
      ensures job == if msg.Add? && pathExists then BuildJob(msg.folder) else NoJob
      ensures inFlight == Started(old(inFlight), job)
    {
      job := NoJob;
      match msg {
        case Add(folder) => job := Add(folder, pathExists);
        case Watch(folders) => Watch(folders);
        case TsDownload(_) =>
        case Remove(_) =>
      }
    }

    /**
     * `onMessage`: dispatches on the message type. No message removes a
     * folder or touches a timer; `remove` and `tsDownload` have no branch.
     */
    method OnMessage(msg: ClientMessage, host: Host, pathExists: bool) returns (job: Job)
      requires Valid()
      modifies this`grammars, this`cliStatus, this`wasmStatus, this`emsdkStatus, this`cliFile, this`wasmFile
      modifies this`outbox, this`inFlight
      ensures Valid()
      ensures grammars == if msg.Watch? then AppendAbsent(old(grammars), msg.folders) else old(grammars)
      ensures msg.Remove? || msg.TsDownload? || msg.Watch? || msg.Add? ==>
                outbox == old(outbox) && cliStatus == old(cliStatus) && wasmStatus == old(wasmStatus)
                && emsdkStatus == old(emsdkStatus)
      ensures msg.TsCliCheck? ==> outbox == old(outbox) + [TsCliStatus(old(cliStatus))] && cliStatus == old(cliStatus)
      ensures msg.TsWasmCheck? ==> outbox == old(outbox) + [TsWasmStatus(old(wasmStatus))] && wasmStatus == old(wasmStatus)
      ensures msg.EmsdkCheck? ==> outbox == old(outbox) + [EmsdkStatusMsg(old(emsdkStatus))] && emsdkStatus == old(emsdkStatus)
      ensures !msg.TsCliDownload? ==> cliStatus == old(cliStatus)
      ensures !msg.TsWasmDownload? ==> wasmStatus == old(wasmStatus)
      ensures !msg.EmsdkDownload? ==> emsdkStatus == old(emsdkStatus)
      ensures msg.Add? ==> job == if pathExists then BuildJob(msg.folder) else NoJob
      ensures msg.EmsdkDownload? ==>
                && emsdkStatus == EDownloading
                && (if old(emsdkStatus) == EDownloading then job == NoJob && outbox == old(outbox)
                    else job == EmsdkJob && outbox == old(outbox) + [EmsdkStatusMsg(EDownloading)])
      ensures msg.TsCliCheck? || msg.TsWasmCheck? || msg.EmsdkCheck? ==> job == NoJob
      ensures inFlight == Started(old(inFlight), job)
      ensures |outbox| <= |old(outbox)| + 1
    {
      if msg.Add? || msg.Watch? || msg.TsDownload? || msg.Remove? {
        job := OnRegistryMessage(msg, pathExists);
      } else {
        job := OnDependencyMessage(msg, host);
      }
    }
  }

  /**
   * After a wasm download the server answered with a 404, the status is
   * `error` but the destination file exists (it was opened before the
   * request), so a restarted server reports `downloaded`.
   */
  lemma FailedWasmDownloadLooksInstalledAfterRestart(url: string)
    ensures var d := DownloadFile(url, [Reply(404, "", Streaming)]);
      WasmSettle(d) == Some(Error) && !d.deleted && StartupTsStatus(!d.deleted) == Downloaded
  {
  }
}
