# treeground, modelled in Dafny

treeground is a playground for tree-sitter grammars. It has a server and a browser client.

- **Server** (`src/websocket.ts`, `src/middleware.ts`, `src/utils.ts`):
  - It keeps three install statuses: the tree-sitter CLI, the tree-sitter runtime wasm, and the Emscripten SDK (emsdk).
  - It downloads the CLI and the runtime wasm from the tree-sitter release page, and clones, installs and activates the SDK.
  - It keeps a registry of grammar folders. It watches their `grammar.js` files and rebuilds a folder's parser to wasm 500 ms after the last change.
  - It broadcasts `load` when a build succeeds.
  - It serves the compiled modules from `~/.cache/treeground`.
- **Client** (`src/components/Tree.tsx`, `Nav.tsx`, `Tools.tsx`):
  - draws the syntax tree in a virtualised window of 24-pixel rows;
  - locates a node's row and scrolls to it;
  - steps through ERROR nodes;
  - keeps the list of grammars and their highlighters;
  - keeps the client's copy of the install statuses.

The model has seven modules:

| Module | File | Models |
|---|---|---|
| `Protocol` | `protocol.dfy` | the messages and statuses of `src/global.d.ts` |
| `Utils` | `utils.dfy` | `getBaseName`, `aTryCatch`, `createExec`, `downloadFile`; `downloadFile` is a pure function of the replies the network gives |
| `Middleware` | `middleware.dfy` | the request handler |
| `Orchestrator` | `orchestrator.dfy` | the server |
| `TreeView` | `tree.dfy` | the tree component |
| `Nav` | `nav.dfy` | the grammar navigation bar |
| `Tools` | `tools.dfy` | the dependency panel |

**The server (`Orchestrator.Server`).** This class holds the module-level variables of `websocket.ts`:
- the statuses and the grammar registry;
- the debounce timers;
- whether each install location exists;
- an `outbox` of every message broadcast so far.

Asynchronous work is handled in two steps. A handler that starts a download, a build or an SDK run returns a `Job`. The completion becomes a second method that takes the outcome as a parameter: `OnCliReplies`, `OnWasmReplies`, `OnEmsdkStep`, `RunEmsdkSetup`, `OnAddBuilt` and `OnTimerBuilt`. A ghost multiset `inFlight` holds the jobs started and not yet settled. Every starter adds its job, and a completion may run only for a job in `inFlight`, which it removes. So several runs of the same kind can be in flight at once, as they can in the server.

The class invariant `Valid` says:
- the registry has no duplicates;
- every debounce timer belongs to a registered folder;
- the last status message broadcast for each dependency equals that dependency's current status;
- no message the server never sends is in the outbox.

**The tree component.** It is modelled twice: as recursive functions, and as methods with the source's own mutable accumulators (`TreeView.Traversal`, `TreeView.Search`). Each method is proved equal to its function.

**Where the code and the written design disagree, the model follows the code:**
- A failed SDK step does not stop the later steps. A failed clone still runs `install` and `activate`, and each failure broadcasts `error`.
- The CLI download follows one `302` and then needs a `200`. A direct `200`, a second redirect or an error status never settles, so the status stays `downloading`. The generic `downloadFile` used for the runtime wasm follows redirects without limit.
- Connecting a client sends no status. It only (re)installs the file-change handler. Statuses are sent on the client's `*Check` requests.
- The server ignores `remove` and `tsDownload`. It never sends `generateError` or `wasmError`.
- `downloadFile` opens the destination file before the request. A failed wasm download leaves a file behind, and a restarted server then reports the runtime as `downloaded`.
- `path.join` is concatenation with `/`, because every argument here is a plain name.
- `getGrmrUniqueName` is an uninterpreted function of the folder. Nothing is assumed about its injectivity.

## Model

| member | source | states |
|---|---|---|
| Utils.Split | src/utils.ts:39 | `split` gives at least one piece, and no piece holds the separator |
| Utils.JoinSplit | src/utils.ts:39 | joining the pieces of a split with the separator gives back the original string |
| Utils.SplitJoin | src/utils.ts:58 | splitting a join of separator-free pieces gives back the pieces |
| Utils.SplitWithoutSeparator | src/utils.ts:39 | a string without the separator splits into itself alone |
| Utils.SplitAfterPiece | src/utils.ts:39 | a separator-free piece followed by the separator splits off as the first piece |
| Utils.JoinLast | src/utils.ts:58 | a join of two or more pieces is the join of all but the last, the separator, then the last |
| Utils.GetBaseName | src/utils.ts:38-41 | the base name is the suffix after the last `/`: it holds no `/`, it is a suffix of the path, and a `/` sits just before it; a path without `/` is its own base name; a trailing `/` gives the empty name |
| Utils.TrimTrailingSlashes | src/websocket.ts:48 | `path.basename` first drops trailing slashes: the result is a prefix that does not end in `/`, and only slashes were dropped |
| Utils.PathBasename | src/websocket.ts:48 | `path.basename` has no `/` and agrees with `getBaseName` on paths that do not end in `/` |
| Utils.BaseNameMeansSuffix | src/websocket.ts:48 | a `/`-free name is the base name exactly when the path is that name or ends in `/` followed by it |
| Utils.SuffixGivesBaseName | src/utils.ts:38-41 | a path ending in `/name` has base name `name` |
| Utils.ATryCatch | src/utils.ts:43-52 | exactly one half of the pair is present, and the error half is absent exactly when the promise resolved |
| Utils.ATryCatchRoundTrip | src/utils.ts:43-52 | the pair determines the settled promise: reading it back gives the original outcome |
| Utils.ExecCommandLineRoundTrip | src/utils.ts:58 | the shell line is `bash -c "…"` around the commands joined by `;`, and splitting its inside on `;` recovers the commands |
| Utils.CreateExec | src/utils.ts:54-70 | the promise resolves exactly when the process exited without error, with its stdout; otherwise it rejects with the process error |
| Utils.DecimalString | src/utils.ts:29 | a status code printed in decimal is non-empty and all digits |
| Utils.DownloadFile | src/utils.ts:8-36 | the requested URLs follow the redirect chain, one file open per request; the promise settles on the first reply not followed (a finished `200` resolves, another status or a failed stream rejects); with no such reply it stays pending; the file is deleted exactly on a failed `200` stream |
| Utils.NoRedirectLimit | src/utils.ts:22-27 | any number of redirects followed by a finished `200` resolves, after one request per hop |
| Utils.DoneNeedsFinished200 | src/utils.ts:13-21 | the download resolves exactly when the last requested reply is a finished `200` |
| Middleware.IsWasmPathMatchesPattern | src/middleware.ts:13 | the positional test accepts exactly the paths the regular expression's grammar describes, in both directions |
| Middleware.GroupFromPath | src/middleware.ts:13 | an accepted path other than `/tree-sitter.wasm` spells out the optional group |
| Middleware.PathFromGroup | src/middleware.ts:13 | every spelling of the group passes the test |
| Middleware.AcceptedPathShape | src/middleware.ts:13 | an accepted path starts `/tree-sitter`, ends `.wasm`, and is either 17 characters long or carries a `-` group whose six-character tag has no capital letter |
| Middleware.NestedPathAccepted | src/middleware.ts:13-17 | the any-character slot admits `/`: `/tree-sitter-ab/abcdef.wasm` passes and serves `abcdef.wasm` |
| Middleware.ServedName | src/middleware.ts:15 | the served file name never holds `/`, so it stays inside the cache directory |
| Middleware.AcceptedNameIsWasmFile | src/middleware.ts:13-16 | an accepted path always names a file ending in `.wasm` |
| Middleware.HandleRequest | src/middleware.ts:10-29 | a response comes exactly for an accepted path whose file exists in the cache directory; it always carries the wasm content type and the three no-cache headers; the file served is `<cache directory>/<last segment of the path>`, a name ending in `.wasm` |
| Orchestrator.CliAsset | src/websocket.ts:77-117 | an asset exists exactly when both the platform and the architecture are in the release matrix; it is the matrix entry, and both names are non-empty and `/`-free |
| Orchestrator.VendorNames | src/websocket.ts:77-106 | the vendor spellings: darwin/arm64 is macos/arm64, win32/ia32 is windows/x86, linux/ppc64 is linux/powerpc64; darwin/ia32 and freebsd have no asset |
| Orchestrator.CliUrl | src/websocket.ts:128-129 | the archive URL lies under the release directory of the requested version, and its length is that directory's plus the asset name's |
| Orchestrator.CliUrlNamesAsset | src/websocket.ts:128-129 | the archive the URL names is `tree-sitter-<os>-<arch>.gz`, directly in the version directory with no segment between them |
| Orchestrator.CliFetch | src/websocket.ts:130-161 | the CLI fetch makes one request, plus a second exactly when the first reply is a redirect with a location; it writes the file exactly when that second reply is a `200`; it settles `downloaded` on a finished stream and `error` on a failed one, deleting the file then; otherwise it never settles |
| Orchestrator.CliFetchHasNoRedirectLoop | src/websocket.ts:130-161 | replies the generic downloader resolves (a direct `200`, two redirects then `200`) leave the CLI fetch unsettled |
| Orchestrator.WasmSettle | src/websocket.ts:186-206 | the runtime status becomes `downloaded` exactly when the download resolves, `error` exactly when it rejects, and stays put while it is pending |
| Orchestrator.EmsdkStepStatus | src/websocket.ts:229-281 | a step broadcasts exactly when it fails or is the activate step, and the status is `setuped` exactly when it succeeded |
| Orchestrator.EmsdkMessages | src/websocket.ts:236-278 | one `emsdkStatus` message per status, in order |
| Orchestrator.EmsdkMessagesAppend3 | src/websocket.ts:220-282 | three steps' broadcasts appended one after another equal the broadcasts of the whole run |
| Orchestrator.EmsdkFinalStatus | src/websocket.ts:220-282 | a setup run broadcasts one `error` per failed clone or install, then the final status, which is `setuped` exactly when activation succeeded |
| Orchestrator.BuildWasm | src/websocket.ts:312-348 | a failed creation of the cache directory (lines 314-316) rejects before anything runs; otherwise `generate` runs, and `build` runs exactly when `generate` succeeded; the build resolves exactly when the directory exists or is created and both steps succeed; a failed generate rejects with its own error |
| Orchestrator.InsertIfAbsent | src/websocket.ts:288-291 | the folder is afterwards registered; an already registered folder leaves the registry unchanged, otherwise it is appended |
| Orchestrator.AppendAbsentKeeps | src/websocket.ts:301-307 | `watch` keeps the old registry as a prefix, and the result holds exactly the old folders and the message's folders |
| Orchestrator.AppendAbsentFresh | src/websocket.ts:301-307 | every appended folder differs from everything before it |
| Orchestrator.AppendAbsentNoDuplicates | src/websocket.ts:301-307 | `watch` never creates a duplicate |
| Orchestrator.AppendAbsentOrder | src/websocket.ts:301-307 | new folders are appended in the order of their first appearance in the message |
| Orchestrator.FirstIndex | src/websocket.ts:302-303 | the first position of a folder in the message, or its length when absent |
| Orchestrator.FirstIndexPrefix | src/websocket.ts:302-303 | appending to the message keeps the first position of a folder it already held |
| Orchestrator.FirstIndexLast | src/websocket.ts:302-303 | a folder appearing only at the end is first found at the end |
| Orchestrator.FirstIndexBound | src/websocket.ts:302-303 | a folder in the message is found inside it |
| Orchestrator.Debounce | src/websocket.ts:45-65 | after a change, the timers are those held before plus one per registered folder that prefixes the path of a changed `grammar.js`; each such folder's timer is restarted to fire 500 ms from now; every other timer is kept |
| Orchestrator.DebounceSnoc | src/websocket.ts:46-64 | handling one more registered folder only touches that folder's timer |
| Orchestrator.BurstTimer | src/websocket.ts:49-62 | after a burst of changes, the folder's timer fires 500 ms after the last change |
| Orchestrator.DebounceCoalesces | src/websocket.ts:49-62 | with changes less than 500 ms apart, the timer is never due before the next change, and after the last change it is due from exactly 500 ms on, so the burst builds once |
| Orchestrator.LastStatusMeaning | src/websocket.ts:350-352 | the last status message of a dependency in the outbox is one of its status messages, and there is none exactly when the outbox holds none |
| Orchestrator.LastStatusAppend | src/websocket.ts:350-352 | broadcasting a status message makes it the last one for its dependency and leaves the others' unchanged |
| Orchestrator.Server.StatusMessage | src/websocket.ts:70-74 | the reply to a check is a status message of the dependency asked about |
| Orchestrator.Server.constructor | src/websocket.ts:34-40 | at start-up the CLI and the runtime are `downloaded` exactly when their files exist, and the SDK is `setuped` exactly when its directory exists; otherwise `unset`; registry, timers and outbox are empty |
| Orchestrator.Server.Broadcast | src/websocket.ts:350-352 | a broadcast appends the message to the outbox and updates the last status of its dependency only |
| Orchestrator.Server.SetCliStatus | src/websocket.ts:119-123 | the status changes and is broadcast at once, keeping the invariant |
| Orchestrator.Server.SetWasmStatus | src/websocket.ts:171-175 | the status changes and is broadcast at once, keeping the invariant |
| Orchestrator.Server.SetEmsdkStatus | src/websocket.ts:215-219 | the status changes and is broadcast at once, keeping the invariant |
| Orchestrator.Server.SendLoad | src/websocket.ts:292-295 | a `load` message is appended and the invariant kept |
| Orchestrator.Server.OnConnect | src/websocket.ts:43-67 | a connection only installs the change handler |
| Orchestrator.Server.Check | src/websocket.ts:70-74 | a check answers with the current status and changes nothing else |
| Orchestrator.Server.TsCliDownload | src/websocket.ts:75-129 | while `downloading`, the request is ignored; an unknown platform or architecture sets and broadcasts `error`; otherwise it sets and broadcasts `downloading` and starts the fetch of the asset's URL |
| Orchestrator.Server.OnCliReplies | src/websocket.ts:130-161 | the CLI status becomes what the fetch settles on, broadcast once; an unsettled fetch changes and sends nothing; the file exists afterwards exactly when it was written and not deleted |
| Orchestrator.Server.TsWasmDownload | src/websocket.ts:169-189 | while `downloading`, the request is ignored; otherwise it sets and broadcasts `downloading`, creates the destination file and starts the download of the version's `tree-sitter.wasm` |
| Orchestrator.Server.OnWasmReplies | src/websocket.ts:186-206 | the runtime status follows the download's settlement, broadcast once; pending changes nothing; the file survives unless the download deleted it |
| Orchestrator.Server.EmsdkDownloadRequest | src/websocket.ts:213-220 | while `downloading`, the request is ignored; otherwise it sets and broadcasts `downloading` and starts a setup run |
| Orchestrator.Server.OnEmsdkStep | src/websocket.ts:221-281 | one step runs its shell line; its broadcasts and the status follow the step's outcome; a successful clone creates the SDK directory |
| Orchestrator.Server.RunEmsdkSetup | src/websocket.ts:220-282 | the three steps run in order whatever their outcomes; the outbox gains exactly the run's broadcasts, and the final status is `setuped` exactly when activation succeeded |
| Orchestrator.Server.Add | src/websocket.ts:284-286 | a build starts exactly when the folder exists, and it is recorded as in flight |
| Orchestrator.Server.OnAddBuilt | src/websocket.ts:286-299 | it settles an `add` build that is in flight; a successful build registers the folder once and broadcasts `load` with its base name; a failed build changes nothing; a newly registered folder comes from such a build, which resolved |
| Orchestrator.Server.AddAndBuild | src/websocket.ts:284-299 | `add` end to end: a build runs exactly when the path exists; the folder is registered exactly when the path existed and the build resolved; nothing is left in flight |
| Orchestrator.Server.Watch | src/websocket.ts:301-307 | the registry grows by the message's unregistered folders, in order, without duplicates |
| Orchestrator.Server.OnChange | src/websocket.ts:44-66 | once a client has connected, a file change restarts the debounce timers of the folders it concerns; before that, it does nothing |
| Orchestrator.Server.FireTimer | src/websocket.ts:50-51 | a due timer is marked fired and starts a rebuild of its folder, recorded as in flight, while earlier builds may still be running; a timer not due starts nothing and changes nothing |
| Orchestrator.Server.OnTimerBuilt | src/websocket.ts:51-61 | it settles a rebuild that is in flight; a successful build broadcasts `load` with the folder, and a failed one broadcasts nothing |
| Orchestrator.Server.OnDependencyMessage | src/websocket.ts:70-283 | the check and download requests: checks answer with the current status; only the matching download changes a status; a setup request while not `downloading` broadcasts `downloading` and starts a run |
| Orchestrator.Server.OnRegistryMessage | src/websocket.ts:284-308 | `watch` appends the folders not yet registered; `add` starts a build exactly when the path exists; `remove` and `tsDownload` do nothing |
| Orchestrator.Server.OnMessage | src/websocket.ts:68-309 | dispatch: checks answer with the current status; only the matching download request can change a status; only `watch` changes the registry; `remove`, `tsDownload`, `watch` and `add` send nothing at once; each message broadcasts at most one message |
| Orchestrator.FailedWasmDownloadLooksInstalledAfterRestart | src/utils.ts:10 | a wasm download answered by `404` ends in `error` but leaves the file, so a restarted server reports `downloaded` |
| TreeView.Toggle | src/components/Tree.tsx:263-266 | toggling flips the node's collapsed flag and no other |
| TreeView.ToggleTwice | src/components/Tree.tsx:263-266 | toggling twice restores every node's flag |
| TreeView.Nodes | src/components/Tree.tsx:158-187 | the visited nodes, one per visit, in order |
| TreeView.NodesAppend | src/components/Tree.tsx:158-187 | the visited nodes of two runs concatenate |
| TreeView.VisitsFollowPreorder | src/components/Tree.tsx:158-187 | the traversal visits the named subtree in preorder |
| TreeView.KidVisitsFollowPreorder | src/components/Tree.tsx:179-184 | the children's traversals visit their subtrees in preorder, in child order |
| TreeView.AncestorCollapsedSplit | src/components/Tree.tsx:182 | some ancestor from a position on is collapsed exactly when that one is or one further down is |
| TreeView.VisitsWellPlaced | src/components/Tree.tsx:158-187 | every visit's location path ends at the visited node, and the visit is hidden exactly when the traversal began hidden or a strict ancestor below the start is collapsed |
| TreeView.KidVisitsWellPlaced | src/components/Tree.tsx:179-184 | the same for the children's traversals |
| TreeView.HiddenIffStrictAncestorCollapsed | src/components/Tree.tsx:158-188 | from the root, a node is skipped for layout exactly when one of its strict ancestors is collapsed |
| TreeView.RunAppend | src/components/Tree.tsx:158-187 | running the accumulators over two sequences of visits is running them over the first, then the second |
| TreeView.Threshold | src/components/Tree.tsx:169-178 | the number of leading rows whose offset is within the bound is at most the row count |
| TreeView.ThresholdMeaning | src/components/Tree.tsx:169-178 | a row is before the threshold exactly when its offset is within the bound |
| TreeView.ThresholdStep | src/components/Tree.tsx:169-178 | adding a row moves the threshold exactly when that row is within the bound |
| TreeView.PlaceHidden | src/components/Tree.tsx:169 | a hidden visit leaves the window split unchanged |
| TreeView.PlaceVisible | src/components/Tree.tsx:169-178 | a visible visit extends the window split by one row |
| TreeView.PlaceAbove | src/components/Tree.tsx:170-171 | a row above the window adds 24 to the top padding |
| TreeView.PlaceInside | src/components/Tree.tsx:172-173 | a row inside the window is shown |
| TreeView.PlaceBelow | src/components/Tree.tsx:174-175 | a row below the window adds 24 to the bottom padding |
| TreeView.RunSplitsRows | src/components/Tree.tsx:169-178 | a traversal splits the visible rows into top padding, shown rows and bottom padding by their offsets |
| TreeView.ThresholdsClassifyRows | src/components/Tree.tsx:169-178 | rows are classed above, inside or below by comparing their offsets with the window's two bounds |
| TreeView.RunCollectsErrors | src/components/Tree.tsx:163-166 | the traversal collects exactly the ERROR nodes among those visited, in order, and counts them |
| TreeView.WindowAccountsForRows | src/components/Tree.tsx:144-197 | the window collects every ERROR node of the tree, including those under collapsed nodes; the paddings plus the shown rows account for every visible row; the shown rows are a contiguous run of the visible rows |
| TreeView.Traversal.constructor | src/components/Tree.tsx:151-157 | the accumulators start at zero and the location stack is empty |
| TreeView.Traversal.PlaceTop | src/components/Tree.tsx:159-178 | one visit updates the accumulators as the placement function says |
| TreeView.Traversal.Traverse | src/components/Tree.tsx:158-187 | the recursive traversal leaves the location stack as it found it and updates the accumulators as running them over the visits of the subtree |
| TreeView.KidStep | src/components/Tree.tsx:179-184 | one more child's traversal extends the run by that child's visits |
| TreeView.RunOne | src/components/Tree.tsx:159-178 | running over one visit is placing it |
| TreeView.Layout | src/components/Tree.tsx:188 | the traversal from the root computes the window |
| TreeView.IdIndex | src/components/Tree.tsx:118-131 | the index found is within the sequence and names a node with the id when it is inside |
| TreeView.IdIndexIsFirst | src/components/Tree.tsx:118-131 | no earlier node has the id |
| TreeView.IdIndexAppend | src/components/Tree.tsx:118-131 | searching a concatenation finds the id in the first part, or past it at the second part's index |
| TreeView.KidsPreorderKeepsIndex | src/components/Tree.tsx:123-129 | once the id is found among the first children, later children do not move it |
| TreeView.Search.constructor | src/components/Tree.tsx:117 | the search starts at offset zero |
| TreeView.Search.Find | src/components/Tree.tsx:118-131 | `findPosition` reports whether the id is in the named subtree, and advances the offset by 24 per named node before it in preorder |
| TreeView.Search.FindInChild | src/components/Tree.tsx:123-129 | one child's search either finds the id at its preorder index or advances past the child's whole subtree |
| TreeView.PreorderIdIndex | src/components/Tree.tsx:119-122 | the node's own id is found at once, otherwise after it, among its children |
| TreeView.FindChildStep | src/components/Tree.tsx:123-129 | a named child's preorder extends the children's preorder, and the search in it continues the search in its siblings |
| TreeView.FindPosition | src/components/Tree.tsx:116-132 | the offset found is 24 times the node's preorder index among named nodes, or 24 times the count of named nodes when it is absent |
| TreeView.ScrollTarget | src/components/Tree.tsx:133-140 | the view scrolls exactly when the node's row is not wholly visible, and then centres the row |
| TreeView.ScrollRevealsRow | src/components/Tree.tsx:133-140 | in a view at least two rows high, the scroll puts the whole row in view |
| TreeView.JsRem | src/components/Tree.tsx:44 | JavaScript's `%` takes the sign of the dividend |
| TreeView.SnapScroll | src/components/Tree.tsx:41-51 | a scroll of less than two rows keeps the stored offset; otherwise it snaps to a row boundary |
| TreeView.SnapIsNearestRow | src/components/Tree.tsx:41-51 | for a non-negative offset the snap is the nearest row boundary, and a tie at 12 pixels rounds up the page |
| TreeView.SnapNegative | src/components/Tree.tsx:41-51 | a negative offset snaps towards zero, to the boundary just above it |
| TreeView.FindIndex | src/components/Tree.tsx:56 | `findIndex` gives the first ERROR node with the id, or -1 exactly when none has it |
| TreeView.NavigationCycles | src/components/Tree.tsx:52-77 | Alt+J moves to the next ERROR node, wrapping from the last to the first; Alt+K moves to the previous one, wrapping from the first to the last |
| TreeView.PrevUndoesNext | src/components/Tree.tsx:52-77 | Alt+K undoes Alt+J |
| TreeView.NavigationStarts | src/components/Tree.tsx:52-77 | with nothing selected, or a node not in the list, Alt+J selects the first ERROR node and Alt+K the last |
| TreeView.TreeView.constructor | src/components/Tree.tsx:31-38 | no error, no selection, nothing collapsed, an empty window |
| TreeView.TreeView.OnScroll | src/components/Tree.tsx:41-51 | the stored scroll offset becomes the snapped one |
| TreeView.TreeView.OnKeyDown | src/components/Tree.tsx:52-77 | Alt+J and Alt+K move the selection as the navigation functions say; every other key keeps it |
| TreeView.TreeView.OnNewTree | src/components/Tree.tsx:80-87 | a new tree clears the error count, the selection and the collapsed flags |
| TreeView.TreeView.OnToggle | src/components/Tree.tsx:263-266 | the toggle button flips one node's flag |
| TreeView.TreeView.Relayout | src/components/Tree.tsx:144-197 | the paddings, shown rows, error count and error nodes become those of the window |
| TreeView.TreeView.Reveal | src/components/Tree.tsx:113-142 | revealing a node scrolls to the target computed from its row offset |
| Nav.Folders | src/components/Nav.tsx:42 | the folders of the grammar list, in order |
| Nav.FolderIndex | src/components/Nav.tsx:104-106 | the first grammar with the folder, or -1 exactly when none has it |
| Nav.AppendIfAbsent | src/components/Nav.tsx:42-47 | a new folder is appended with the `text` highlighter, a known one leaves the list unchanged; the folder is listed afterwards |
| Nav.RemoveFolder | src/components/Nav.tsx:64-66 | removing never lengthens the list |
| Nav.RemoveFolderShrinks | src/components/Nav.tsx:64-66 | the list keeps its length exactly when the folder was absent |
| Nav.RemoveFolderMembers | src/components/Nav.tsx:64-66 | the result holds exactly the grammars of other folders |
| Nav.RemoveFolderSnoc | src/components/Nav.tsx:64-66 | filtering one more grammar keeps it exactly when its folder differs |
| Nav.RemoveFolderDistributes | src/components/Nav.tsx:64-66 | filtering distributes over concatenation, so order is kept |
| Nav.RemoveAbsentFolder | src/components/Nav.tsx:64-66 | removing an absent folder changes nothing |
| Nav.RemoveUndoesAdd | src/components/Nav.tsx:42-47 | removing a freshly added folder restores the list |
| Nav.SetHighlighter | src/components/Nav.tsx:103-109 | the folders are unchanged; the first grammar of the folder gets the new highlighter and nothing else changes; an absent folder changes nothing |
| Nav.HighlighterFor | src/components/Nav.tsx:87-90 | the highlighter is never empty: the grammar's own when it is set, `text` otherwise |
| Nav.HighlighterRemembered | src/components/Nav.tsx:81-113 | after changing a grammar's highlighter, selecting that grammar again gives the new highlighter |
| Nav.AddedGrammarUsesDefault | src/components/Nav.tsx:31-53 | a freshly added grammar is shown with `text` |
| Nav.NavState.constructor | src/components/Nav.tsx:29 | the input starts empty and the modal closed |
| Nav.NavState.OpenAddModal | src/components/Nav.tsx:31-53 | the modal opens |
| Nav.NavState.TypeFolder | src/components/Nav.tsx:29 | the input holds what was typed |
| Nav.NavState.AddGrammar | src/components/Nav.tsx:31-53 | an empty input does nothing; otherwise `add` is sent when a socket exists, the folder is listed once, selected, the input cleared and the modal closed |
| Nav.NavState.RemoveGrammar | src/components/Nav.tsx:55-70 | with a socket and a selection, `remove` is sent, that folder's grammars are dropped and the last remaining grammar is selected; otherwise nothing changes |
| Nav.NavState.GrammarChange | src/components/Nav.tsx:81-93 | a non-empty choice is selected with its highlighter; an empty one changes nothing |
| Nav.NavState.HighlighterChange | src/components/Nav.tsx:95-113 | with a value, a selection and a listed grammar, that grammar's highlighter is set and shown; otherwise nothing changes |
| Tools.Apply | src/components/Tools.tsx:61-73 | a status message sets its own status and nothing else; other messages change nothing |
| Tools.Reaction | src/components/Tools.tsx:67-71 | the client asks for an SDK setup exactly when the SDK status is `unset` or `error` |
| Tools.SubmitRequests | src/components/Tools.tsx:88-104 | on an open socket and a non-empty version, both downloads are requested with that version; otherwise nothing is sent |
| Tools.HandshakeSynchronises | src/components/Tools.tsx:61-78 | after the three checks are answered, the client's copy equals the server's statuses, whatever it held before |
| Tools.MissingSdkIsSetUpUnasked | src/websocket.ts:40-219 | against the server: started without the SDK directory, it answers the check with `unset`; the client's reply to that starts a setup run, the one job in flight, and the broadcasts are exactly `unset`, `downloading` |
| Tools.AnswerCheck | src/components/Tools.tsx:61-78 | one check of the handshake: the server replies with its current status and changes no status; the panel applies the reply and sends what `Reaction` gives |
| Tools.HandshakeWithInstalledServer | src/components/Tools.tsx:35-78 | with a server that has the CLI, the runtime and the SDK installed, the panel sends its three checks and ends ready with the version form enabled; the server broadcasts the three installed statuses and the panel sends nothing more |
| Tools.FailedCloneTriggersSecondRun | src/components/Tools.tsx:67-71 | against the server: after a setup request and a failed clone, the `error` broadcast makes the client ask again, and the server starts a second run while the first is still in flight; the outbox reads `downloading`, `error`, `downloading` |
| Tools.ToolsState.constructor | src/components/Tools.tsx:28-38 | both versions start from the stored one, and every status starts `unset` |
| Tools.ToolsState.OnServerMessage | src/components/Tools.tsx:61-86 | the statuses follow the message, and the reply is sent; when the message changes the CLI or runtime status and both are then `downloaded`, the chosen version becomes the set-up version, and otherwise the set-up version is kept |
| Tools.ToolsState.OnOpen | src/components/Tools.tsx:74-78 | opening the socket sends the three checks |
| Tools.ToolsState.SelectVersion | src/components/Tools.tsx:28-30 | the chosen version is stored |
| Tools.ToolsState.OnSubmit | src/components/Tools.tsx:88-104 | the submit sends exactly the requests `SubmitRequests` gives |
| Tools.ToolsState.SyncSetupedVersion | src/components/Tools.tsx:82-86 | the effect, rerun by `OnServerMessage`: once both the CLI and the runtime are downloaded, the chosen version counts as set up; otherwise the set-up version is kept |

## Left out

- Network, file system, processes and timers are parameters, not effects. A download is the sequence of replies the network gives. An existence check is a boolean or a predicate. A shell run is its `ProcessResult`, and a timer firing is a call with the current time.
- Gunzip errors while writing the CLI are not modelled, nor is `chmod`.
- Utils.DecimalString: the model prints the status code in decimal; only its shape is stated, not its value.
- JavaScript prototype keys (`constructor`, `toString`) looked up in the release matrix are not modelled. Lookups are plain map lookups.
- Orchestrator.CliFetch: the two `https.get` calls of the CLI download (src/websocket.ts:130 and 133) have no `error` listener. In Node a failed request then raises an uncaught exception that ends the server. The model has no such outcome: a `RequestFailed` reply leaves the run unsettled, with the status at `downloading`. `downloadFile` does listen (src/utils.ts:32-34), and `Utils.DownloadFile` rejects on a `RequestFailed` reply.
- `sendMsgToServer` and `JSON` encoding: messages are datatype values.
- Listener accumulation: the client adds a new listener on every effect run. Each event is handled once in the model.
- Orchestrator.Server.OnChange: the program's watcher never delivers change events for paths with a dot-segment (the `ignored` pattern at src/websocket.ts:20-21). The model's `OnChange` accepts any path.
- Spinners and `console.log` output.
- The tags fetch of the version list, and the `localStorage` write of the set-up version.
- `src/components/Editor.tsx`, `TreeGround.tsx`, the highlight delay, `descendantForPosition`, `parseOnNewEditor` and all rendering are not part of this model.
- TreeView.ScrollTarget: the browser's clamping of the scroll offset to the scrollable range is not modelled.
- TreeView.SnapScroll: scroll offsets are integers here, and so are the offsets taken by `ScrollTarget`, `TreeView.OnScroll` and `TreeView.Reveal`. In the browser `container.scrollTop` is a double, which can be fractional under page zoom or display scaling, and JavaScript's `%` and the two-row test then work on that double. A fractional `scrollTop` is not modelled, nor is a fractional target such as `pos - clientHeight / 2` handed back by the next scroll event.
- Tools.ToolsState.OnSubmit: a submit while the form is disabled is prevented only by the browser's `disabled` attribute, which the model does not represent.
- Orchestrator.Server.OnChange: the model does not reinstall the handler per connection; `listening` records that a handler exists.
