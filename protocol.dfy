/**
 * The message and status vocabulary shared by the treeground server and its
 * browser client (src/global.d.ts). Messages travel as JSON text; here they
 * are datatype values.
 */
module Protocol {

  datatype Option<+T> = None | Some(value: T)

  /** Status of the tree-sitter CLI and of the tree-sitter runtime wasm. */
  datatype TsStatus = Unset | Downloading | Downloaded | Error

  /** Status of the Emscripten SDK. */
  datatype EmsdkStatus = EUnset | EDownloading | Setuped | EError

  /** The three dependencies the server installs on request. */
  datatype Dependency = Cli | Wasm | Emsdk

  /** Client to server. `Remove` is sent by the grammar list (src/components/Nav.tsx)
      although the shared type leaves it out; the server has no branch for it. */
  datatype ClientMessage =
    | Add(folder: string)
    | Watch(folders: seq<string>)
    | TsCliCheck
    | TsCliDownload(version: string)
    | TsWasmCheck
    | TsWasmDownload(version: string)
    | TsDownload(version: string)
    | EmsdkCheck
    | EmsdkDownload
    | Remove(folder: string)

  /** Server to client, always broadcast to every connected client. */
  datatype ServerMessage =
    | Load(grammar: string)
    | GenerateError(grammar: string, error: string)
    | WasmError(grammar: string, error: string)
    | TsCliStatus(status: TsStatus)
    | TsWasmStatus(status: TsStatus)
    | TsDownloaded(version: string)
    | EmsdkStatusMsg(emsdk: EmsdkStatus)

  /** The message kinds that the server declares but never sends. */
  predicate NeverSent(m: ServerMessage)
  {
    m.GenerateError? || m.WasmError? || m.TsDownloaded?
  }
}
