/**
 * The client's dependency panel (src/components/Tools.tsx): the client's
 * copy of the three install statuses, the version chosen for the CLI and
 * runtime wasm, the version last set up, and the requests it sends.
 */
module Tools {
  import opened Protocol
  import Orchestrator
  import Utils

  /** The client's copy of the three statuses. */
  datatype Statuses = Statuses(cli: TsStatus, wasm: TsStatus, emsdk: EmsdkStatus)

  /** `tgReady`: everything is installed, so the panel may be closed. */
  predicate Ready(s: Statuses)
  {
    s.cli == Downloaded && s.wasm == Downloaded && s.emsdk == Setuped
  }

  /** `tsDownloading`: the version form is disabled while either download runs. */
  predicate TsDownloading(s: Statuses)
  {
    s.cli == Downloading || s.wasm == Downloading
  }

  /** The message listener's effect on the statuses: a status message sets its own status and nothing else. */
  function Apply(s: Statuses, m: ServerMessage): (r: Statuses)
    ensures m.TsCliStatus? ==> r == s.(cli := m.status)
    ensures m.TsWasmStatus? ==> r == s.(wasm := m.status)
    ensures m.EmsdkStatusMsg? ==> r == s.(emsdk := m.emsdk)
    ensures !(m.TsCliStatus? || m.TsWasmStatus? || m.EmsdkStatusMsg?) ==> r == s
  {
    match m
    case TsCliStatus(status) => s.(cli := status)
    case TsWasmStatus(status) => s.(wasm := status)
    case EmsdkStatusMsg(emsdk) => s.(emsdk := emsdk)
    case _ => s
  }

  /** The message changes the CLI or runtime status, so the effect that tracks those two reruns. */
  predicate TsStatusChanged(s: Statuses, m: ServerMessage)
  {
    (m.TsCliStatus? && m.status != s.cli) || (m.TsWasmStatus? && m.status != s.wasm)
  }

  function ApplyAll(s: Statuses, ms: seq<ServerMessage>): Statuses
    decreases |ms|
  {
    if ms == [] then s else ApplyAll(Apply(s, ms[0]), ms[1..])
  }

  /** What the message listener sends back: an SDK status of `unset` or `error` asks the server to set the SDK up. */
  function Reaction(m: ServerMessage): (reply: seq<ClientMessage>)
    ensures reply == [] || reply == [EmsdkDownload]
    ensures reply == [EmsdkDownload] <==> m == EmsdkStatusMsg(EUnset) || m == EmsdkStatusMsg(EError)
  {
    if m.EmsdkStatusMsg? && (m.emsdk == EUnset || m.emsdk == EError) then [EmsdkDownload] else []
  }

  /** The open listener's requests. */
  const OpenRequests: seq<ClientMessage> := [TsCliCheck, TsWasmCheck, EmsdkCheck]

  /** The submit handler's requests: both downloads, with the same version, only on an open socket and a non-empty version. */
  function SubmitRequests(socketOpen: bool, version: string): (reqs: seq<ClientMessage>)
    ensures reqs == [] <==> !socketOpen || version == ""
    ensures reqs != [] ==> reqs == [TsCliDownload(version), TsWasmDownload(version)]
  {
    if socketOpen && version != "" then [TsCliDownload(version), TsWasmDownload(version)] else []
  }

  /**
   * The handshake: the server answers the three checks with its current
   * statuses, after which the client's copy equals the server's whatever it
   * held before.
   */
  lemma HandshakeSynchronises(before: Statuses, cli: TsStatus, wasm: TsStatus, emsdk: EmsdkStatus)
    ensures ApplyAll(before, [TsCliStatus(cli), TsWasmStatus(wasm), EmsdkStatusMsg(emsdk)]) == Statuses(cli, wasm, emsdk)
  {
    var ms := [TsCliStatus(cli), TsWasmStatus(wasm), EmsdkStatusMsg(emsdk)];
    var s1 := before.(cli := cli);
    var s2 := s1.(wasm := wasm);
    assert ms[1..] == [TsWasmStatus(wasm), EmsdkStatusMsg(emsdk)];
    assert ms[1..][1..] == [EmsdkStatusMsg(emsdk)];
    assert ApplyAll(s2.(emsdk := emsdk), ms[1..][1..][1..]) == Statuses(cli, wasm, emsdk);
    assert ApplyAll(s2, ms[1..][1..]) == Statuses(cli, wasm, emsdk);
    assert ApplyAll(s1, ms[1..]) == Statuses(cli, wasm, emsdk);
  }

  /**
   * A server started without the SDK reports `unset` to the client's check;
   * the client's answer to that report starts a setup run, so the SDK is set
   * up without the user asking.
   */
  method MissingSdkIsSetUpUnasked(home: string, uniqueName: string -> string, cliFile: bool, wasmFile: bool,
                                  host: Orchestrator.Host)
    returns (server: Orchestrator.Server, job: Orchestrator.Job)
    ensures job == Orchestrator.EmsdkJob && server.inFlight == multiset{Orchestrator.EmsdkJob}
    ensures server.outbox == [EmsdkStatusMsg(EUnset), EmsdkStatusMsg(EDownloading)]
    ensures server.emsdkStatus == EDownloading
  {
    server := new Orchestrator.Server(home, uniqueName, cliFile, wasmFile, false);
    var none := server.OnMessage(EmsdkCheck, host, false);
    var replies := Reaction(server.outbox[|server.outbox| - 1]);
    job := server.OnMessage(replies[0], host, false);
  }

  /** One check of the handshake: the server answers with its current status, and the panel takes the answer. */
  method AnswerCheck(server: Orchestrator.Server, panel: ToolsState, msg: ClientMessage, host: Orchestrator.Host)
    returns (reply: ServerMessage)
    requires server.Valid() && (msg.TsCliCheck? || msg.TsWasmCheck? || msg.EmsdkCheck?)
    modifies server, panel
    ensures server.Valid()
    ensures server.cliStatus == old(server.cliStatus) && server.wasmStatus == old(server.wasmStatus)
    ensures server.emsdkStatus == old(server.emsdkStatus)
    ensures reply == if msg.TsCliCheck? then TsCliStatus(server.cliStatus)
                     else if msg.TsWasmCheck? then TsWasmStatus(server.wasmStatus)
                     else EmsdkStatusMsg(server.emsdkStatus)
    ensures server.outbox == old(server.outbox) + [reply]
    ensures panel.Current() == Apply(old(panel.Current()), reply)
    ensures panel.sent == old(panel.sent) + Reaction(reply)
  {
    var none := server.OnMessage(msg, host, false);
    reply := server.outbox[|server.outbox| - 1];
    panel.OnServerMessage(reply);
  }

  /**
   * The handshake with a server that has everything installed: the panel
   * sends its three checks, takes the three replies, and ends ready, with the
   * version form enabled and nothing more sent.
   */
  method HandshakeWithInstalledServer(server: Orchestrator.Server, panel: ToolsState, host: Orchestrator.Host)
    requires server.Valid()
    requires server.cliStatus == Downloaded && server.wasmStatus == Downloaded && server.emsdkStatus == Setuped
    modifies server, panel
    ensures panel.TgReady() && !panel.FormDisabled()
    ensures panel.sent == old(panel.sent) + OpenRequests
    ensures server.outbox == old(server.outbox) + [TsCliStatus(Downloaded), TsWasmStatus(Downloaded), EmsdkStatusMsg(Setuped)]
  {
    panel.OnOpen();
    var r1 := AnswerCheck(server, panel, TsCliCheck, host);
    var r2 := AnswerCheck(server, panel, TsWasmCheck, host);
    var r3 := AnswerCheck(server, panel, EmsdkCheck, host);
  }

  /**
   * When the clone fails, the first status a run broadcasts is `error`; the
   * client answers with another `emsdkDownload`, and the server, no longer at
   * `downloading`, starts a second run while the first is still in flight,
   * its install and activate steps not yet run.
   */
  method FailedCloneTriggersSecondRun(server: Orchestrator.Server, clone: Utils.ProcessResult, host: Orchestrator.Host)
    returns (first: Orchestrator.Job, second: Orchestrator.Job)
    requires server.Valid() && server.emsdkStatus != EDownloading
    requires !Orchestrator.ExecSucceeds(Orchestrator.EmsdkCommands(Orchestrator.Clone, server.home), clone)
    modifies server
    ensures first == Orchestrator.EmsdkJob && second == Orchestrator.EmsdkJob
    ensures server.inFlight == old(server.inFlight) + multiset{Orchestrator.EmsdkJob, Orchestrator.EmsdkJob}
    ensures server.outbox == old(server.outbox) + [EmsdkStatusMsg(EDownloading), EmsdkStatusMsg(EError), EmsdkStatusMsg(EDownloading)]
    ensures server.emsdkStatus == EDownloading
  {
    first := server.EmsdkDownloadRequest();
    var line := server.OnEmsdkStep(Orchestrator.Clone, clone);
    assert server.outbox[|server.outbox| - 1] == EmsdkStatusMsg(EError);
    var replies := Reaction(server.outbox[|server.outbox| - 1]);
    second := server.OnMessage(replies[0], host, false);
  }

  class ToolsState {
    var cli: TsStatus
    var wasm: TsStatus
    var emsdk: EmsdkStatus
    var inputVersion: string
    var setupedVersion: string
    /** Messages sent to the server, oldest first. */
    var sent: seq<ClientMessage>

    function Current(): Statuses
      reads this
    {
      Statuses(cli, wasm, emsdk)
    }

    /** Both versions start from the stored version (empty when none is stored); every status starts `unset`. */
    constructor (stored: string)
      ensures Current() == Statuses(Unset, Unset, EUnset)
      ensures inputVersion == stored && setupedVersion == stored && sent == []
    {
      cli := Unset;
      wasm := Unset;
      emsdk := EUnset;
      inputVersion := stored;
      setupedVersion := stored;
      sent := [];
    }

    predicate TgReady()
      reads this
    {
      Ready(Current())
    }

    /** The version field and the download button are disabled exactly while a download runs. */
    predicate FormDisabled()
      reads this
    {
      TsDownloading(Current())
    }

    /**
     * The message listener, followed by the set-up-version effect, which
     * reruns only when the CLI or runtime status actually changes.
     */
    method OnServerMessage(m: ServerMessage)
      modifies this`cli, this`wasm, this`emsdk, this`sent, this`setupedVersion
      ensures Current() == Apply(old(Current()), m)
      ensures sent == old(sent) + Reaction(m)
      ensures setupedVersion == if TsStatusChanged(old(Current()), m) && cli == Downloaded && wasm == Downloaded
                                then inputVersion else old(setupedVersion)
    {
      var changed := TsStatusChanged(Current(), m);
      match m {
        case TsCliStatus(status) =>
          cli := status;
        case TsWasmStatus(status) =>
          wasm := status;
        case EmsdkStatusMsg(status) =>
          emsdk := status;
          if status == EUnset || status == EError {
            sent := sent + [EmsdkDownload];
          }
        case _ =>
      }
      if changed {
        SyncSetupedVersion();
      }
    }

    method OnOpen()
      modifies this`sent
      ensures sent == old(sent) + OpenRequests
    {
      sent := sent + [TsCliCheck];
      sent := sent + [TsWasmCheck];
      sent := sent + [EmsdkCheck];
    }

    method SelectVersion(version: string)
      modifies this`inputVersion
      ensures inputVersion == version
    {
      inputVersion := version;
    }

    /** `handleTsVersionSubmit`. */
    method OnSubmit(socketOpen: bool)
      modifies this`sent
      ensures sent == old(sent) + SubmitRequests(socketOpen, inputVersion)
    {
      if socketOpen {
        var version := inputVersion;
        if version != "" {
          sent := sent + [TsCliDownload(version)];
          sent := sent + [TsWasmDownload(version)];
        }
      }
    }

    /**
     * The effect on the two tool statuses: once both the CLI and the runtime
     * wasm are downloaded, the chosen version counts as set up. The chosen
     * version is read untracked, so choosing another does not rerun it.
     */
    method SyncSetupedVersion()
      modifies this`setupedVersion
      ensures cli == Downloaded && wasm == Downloaded ==> setupedVersion == inputVersion
      ensures !(cli == Downloaded && wasm == Downloaded) ==> setupedVersion == old(setupedVersion)
    {
      if cli == Downloaded && wasm == Downloaded {
        setupedVersion := inputVersion;
      }
    }
  }
}
