# browser-console — a verified model of its log pipeline

browser-console is a VS Code extension. It opens the project's pages in a headless browser and listens to their `console.*` calls, mapping each call back to the original source. It shows the calls in a tree view grouped by file path, and as decorations in the editor. This project models the logic between a raw console event and what the tree view shows, and proves properties of it.

- **Log** (`ConsoleLog`, src/components/Log.ts). Models:
  - turning the first call frame into the 0-based generated position and the 1-based source-map query;
  - the original position;
  - the `existOnClient` display gate;
  - the preview text of each devtools `RemoteObject` argument.

  The source-map lookup is a function per registered script URL, passed in. `new URL(url).pathname` is a function passed in too.
- **The current sidebar** (`CurrentSidebar`, src/components/ui/Sidebar/Sidebar.ts). A class with the fields `sortedLogs`, `isLoad`, `argsIdCache` and `isReady`, plus a count of the waiting root requests. It models:
  - the tree rebuild on `add`;
  - `update`, `clear` and `rerender`;
  - the node-id counter `getArgId`;
  - the root item order;
  - the load gate;
  - the children of path, log, argument and property nodes, including the property filter and comparator.
- **The older sidebars** (`IndexSidebar`, src/components/ui/Sidebar/index.ts; `LegacySidebar`, src/components/Sidebar.ts). Each models insertion one log at a time, `reset`, and the child lists. The legacy variant also sorts a file's stored list in place when it is listed.
- **The shared path tree** (`PathTree`). It models the two insertion walks found in these files, and proves what each stores where.
- **The log controller** (`LogController`, src/components/LogContrller.ts). A class over the current sidebar object. It models:
  - the exclude-dir filter;
  - withholding logs until the page is loaded;
  - the load counter;
  - `update`;
  - listener start and stop.

  The decorator is kept as ghost state: the logs handed to it since its last reset.
- **Browser** (`RouteEvents`, `Browser`, src/components/Browser.ts). It models:
  - the route-event pattern `^\s*(\w+)\s+'(.+)'\s*(\d*)\s*$`, proved sound and complete against a decomposition of the string;
  - the sockjs reload-hash watcher, as a class whose frame handler loops over the payloads;
  - the console-log forwarding gate.

Supporting modules:
- `Text`: JavaScript `split`, `join`, `startsWith`, the relational `>` on strings, and decimal `String(n)` / `+s`.
- `Sorting`: the stable `Array.prototype.sort`, for a comparator that is a total preorder.
- `SidebarLog`: what the sidebars see of a log.
- `Wrappers`: `Option`.

## Model

| member | source | states |
|---|---|---|
| ConsoleLog.QueryOf | src/components/Log.ts:38-47 | the source-map query is the runtime's 0-based line and column, each plus one; the generated position keeps them 0-based |
| ConsoleLog.Log.constructor | src/components/Log.ts:25-54 | with no call frame the fields stay unassigned; otherwise `type` and `args` come from the event, the generated position is the first frame's, and the original position is the map's answer for that frame's URL |
| ConsoleLog.UnmappedNeverEligible | src/components/Log.ts:49-53 | when the map names no source, the original source is `''` and the log is never displayable |
| ConsoleLog.Log.ExistOnClient | src/components/Log.ts:60-64 | defined exactly when there is a call frame; true exactly when there is also an argument, a non-empty original source and a defined, non-zero original line |
| ConsoleLog.ValueWinsOverShape | src/components/Log.ts:66-72 | an argument with an own `value` renders as that value, quoted iff it is a string, whatever its type, class, subtype, description or preview |
| ConsoleLog.IgnoredClassesHaveNoPrefix | src/components/Log.ts:95 | class `Object`, class `Function` and an empty class name render as if no class were given |
| ConsoleLog.PlainObjectShape | src/components/Log.ts:106-114 | a plain object of any other class renders `Class: { name: v, ... }` from its preview properties |
| ConsoleLog.SubtypeShapesIgnoreClass | src/components/Log.ts:117-132 | arrays, promises, maps, sets, weak maps and weak sets render the same whatever the class name |
| ConsoleLog.OnlyPreviewlessPromiseFails | src/components/Log.ts:121-124 | rendering throws exactly for a promise without an inline preview |
| ConsoleLog.PreviewFailsOnlyOnFailingArg | src/components/Log.ts:94-138 | the preview fails iff the rendering of some argument fails |
| ConsoleLog.ArgStrings | src/components/Log.ts:97-137 | one rendering per argument, in argument order |
| ConsoleLog.PreviewConcat | src/components/Log.ts:136-138 | the preview of two argument lists is their previews joined by `, ` |
| ConsoleLog.SingleArgPreview | src/components/Log.ts:136-138 | the preview of one argument is that argument's rendering |
| ConsoleLog.Log.Preview | src/components/Log.ts:94-138 | the `preview` getter; defined only with a call frame, where it is the argument renderings joined by `, `, and for one argument that argument's rendering |
| ConsoleLog.StringArgumentExample | src/components/Log.ts:66-72 | `console.log("hello")` previews as `'hello'` |
| ConsoleLog.PlainObjectExample | src/components/Log.ts:111-114 | an `Object` `{ a: 1 }` previews as `{ a: 1 }` |
| Text.PathSegments | src/components/ui/Sidebar/Sidebar.ts:209 | path segments are non-empty and contain no `/` |
| Text.PathSegmentsOfAbsolute | src/components/ui/Sidebar/Sidebar.ts:209 | splitting `/a/b/c` gives back exactly `a`, `b`, `c` |
| Text.PathSegmentsEmpty | src/components/ui/Sidebar/Sidebar.ts:209 | a source has no segments iff it is empty or all slashes |
| Text.JoinSplit | src/components/ui/Sidebar/Sidebar.ts:209 | joining the pieces of `split` gives back the string |
| Text.NatToString | src/components/ui/Sidebar/Sidebar.ts:182-190 | decimal rendering is non-empty, all digits, without leading zero |
| Text.DigitsValueOfNatToString | src/components/Browser.ts:73 | `+String(n)` is `n` |
| Text.StrLeTotal | src/components/ui/Sidebar/Sidebar.ts:196 | the string order of `>` is total |
| Text.StrLeTransitive | src/components/ui/Sidebar/Sidebar.ts:196 | the string order of `>` is transitive |
| Text.StrLeAntisymmetric | src/components/ui/Sidebar/Sidebar.ts:196 | strings ordered both ways are equal |
| Sorting.SortByCorrect | src/components/ui/Sidebar/Sidebar.ts:80-83 | `Array.prototype.sort` with a total-preorder comparator: a permutation, sorted, and equivalent elements keep their order |
| Sorting.SortedInputUnchanged | src/components/Sidebar.ts:33 | sorting a sorted list leaves it as it is |
| PathTree.Put | src/components/ui/Sidebar/Sidebar.ts:226-230 | `obj[key] = v` sets the key, leaves other keys, and adds a new key last |
| PathTree.InsertAppendsOnCleanPath | src/components/ui/Sidebar/Sidebar.ts:208-233 | on a path through no file and to no directory, inserting appends the log to the file's list, creating missing directories and the list |
| PathTree.InsertLeavesOtherPaths | src/components/ui/Sidebar/Sidebar.ts:208-233 | the same insert leaves the list of every other path unchanged |
| PathTree.DirectoryPathDropsLog | src/components/ui/Sidebar/index.ts:102-126 | a path naming a directory, the empty path included, inserts nothing in either walk |
| PathTree.WalksAgreeOnCleanPaths | src/components/Sidebar.ts:55-69 | the legacy walk and the current one agree on every path through no file |
| PathTree.WalksThroughFile | src/components/ui/Sidebar/Sidebar.ts:208-231 | on a path whose first segment is a file, both walks append the log to that file; the current walk then goes on with the rest of the path at the file's own level, the legacy walk stops |
| PathTree.WalksDivergeThroughFile | src/components/Sidebar.ts:59-64 | an instance: with `a` a top-level file, inserting under `a/b` also adds a file `b` next to `a` in the current walk; the legacy walk only appends to `a` |
| PathTree.InsertDescendingWellFormed | src/components/ui/Sidebar/Sidebar.ts:208-233 | insertion keeps every directory's keys distinct |
| PathTree.InsertStopAtLeafWellFormed | src/components/Sidebar.ts:55-69 | the legacy insertion keeps every directory's keys distinct |
| PathTree.BuildGroupsByPath | src/components/ui/Sidebar/Sidebar.ts:199-206 | when no file path is a directory of another, the built tree lists under each file exactly its logs, in arrival order |
| PathTree.BuildsAgreeWhenPrefixFree | src/components/Sidebar.ts:55-69 | for such logs both walks build the same tree |
| PathTree.InsertStopAtLeafKeepsEveryLog | src/components/Sidebar.ts:55-69 | the legacy walk stores the log exactly once unless it ends at a directory; no other log is lost or added |
| SidebarLog.ByLineIsTotalPreorder | src/components/Sidebar.ts:33 | ordering logs by line is a total preorder |
| CurrentSidebar.IdCompareAgreesWithIdLe | src/components/ui/Sidebar/Sidebar.ts:196 | the root comparator `a.id > b.id ? 1 : -1` agrees with the string order on distinct ids and is antisymmetric |
| CurrentSidebar.PathItems | src/components/ui/Sidebar/Sidebar.ts:193-197 | the root items are the top-level path nodes, sorted by id |
| CurrentSidebar.PathItemsListKeysInOrder | src/components/ui/Sidebar/Sidebar.ts:193-197 | the root lists every top-level key exactly once, in strictly ascending order, with the key as id |
| CurrentSidebar.NextArgIndex | src/components/ui/Sidebar/Sidebar.ts:171-191 | a first request stores 0; a position within the counter is used as is; otherwise the counter goes up by one; other keys are unchanged |
| CurrentSidebar.Sidebar.GetArgId | src/components/ui/Sidebar/Sidebar.ts:171-191 | the id is `key[index]` and the counter map the one `NextArgIndex` gives |
| CurrentSidebar.ArgIndicesInvariant | src/components/ui/Sidebar/Sidebar.ts:68-79 | within one leaf expansion, logs of the same call site get distinct indices |
| CurrentSidebar.ArgIndicesBounds | src/components/ui/Sidebar/Sidebar.ts:68-79 | every index handed out is at most the log's position and at most its call site's counter |
| CurrentSidebar.ArgCountersGrow | src/components/ui/Sidebar/Sidebar.ts:68-79 | a counter is never dropped and never decreases |
| CurrentSidebar.SameSiteIdsDistinct | src/components/ui/Sidebar/Sidebar.ts:68-79 | logs of the same call site in one leaf get distinct ids |
| CurrentSidebar.ArgIndicesAtFixpoint | src/components/ui/Sidebar/Sidebar.ts:178-182 | when every counter covers its position, the ids are `key[position]` and no counter moves |
| CurrentSidebar.IdsShiftOnSecondExpansion | src/components/ui/Sidebar/Sidebar.ts:171-191 | a leaf with two call sites gets indices 0,0 on the first expansion and 0,1 on the second |
| CurrentSidebar.LeafItem | src/components/ui/Sidebar/Sidebar.ts:76-78 | a log node iff the log has more than one argument, else an argument node, under the given id |
| CurrentSidebar.LineCompareAgreesWithNodeByLine | src/components/ui/Sidebar/Sidebar.ts:80-83 | the line-difference comparator agrees with ordering by line |
| CurrentSidebar.Sidebar.LeafChildren | src/components/ui/Sidebar/Sidebar.ts:68-84 | a leaf's children are the leaf items with ids from the counters, stably sorted by line; the counters become those of `ArgIndices` |
| CurrentSidebar.DirChildrenIds | src/components/ui/Sidebar/Sidebar.ts:88-92 | directory children carry id `parentId/key`, one per key in key order, all distinct |
| CurrentSidebar.ArgChildrenShowArguments | src/components/ui/Sidebar/Sidebar.ts:95-103 | a log node's children are its argument previews in order, with distinct ids `parentId[i]` |
| CurrentSidebar.VisibleProps | src/components/ui/Sidebar/Sidebar.ts:113-116 | a property is shown iff `showEnumerable` is set or it is enumerable |
| CurrentSidebar.PropLeIsTotalPreorder | src/components/ui/Sidebar/Sidebar.ts:117-125 | the display order of properties is a total preorder |
| CurrentSidebar.PropCompareAgreesWithPropLe | src/components/ui/Sidebar/Sidebar.ts:117-125 | the comparator orders plain < `Symbol(` < `__` < `[[`, plain names by string order; within the other groups it answers 1 both ways |
| CurrentSidebar.OrderedProps | src/components/ui/Sidebar/Sidebar.ts:112-125 | the shown properties, as a permutation, in display order |
| CurrentSidebar.PropChildrenShowProperties | src/components/ui/Sidebar/Sidebar.ts:105-146 | no children without an object handle or when the fetch throws or answers nothing; otherwise one node `parentId['name']` per shown property, in display order |
| CurrentSidebar.Sidebar.ReduceLogByPath | src/components/ui/Sidebar/Sidebar.ts:208-233 | the tree becomes the descending insertion of the log under its path |
| CurrentSidebar.Sidebar.Rebuild | src/components/ui/Sidebar/Sidebar.ts:201-202 | the tree becomes the one built by inserting the logs in order into an empty tree |
| CurrentSidebar.Sidebar.Add | src/components/ui/Sidebar/Sidebar.ts:199-206 | rebuilds the tree from all logs, sets `isLoad`, keeps the id counters, redraws |
| CurrentSidebar.Sidebar.Update | src/components/ui/Sidebar/Sidebar.ts:236-240 | clears `isLoad`, empties the tree and the counters, redraws |
| CurrentSidebar.Sidebar.Clear | src/components/ui/Sidebar/Sidebar.ts:249-254 | sets `isLoad`, empties the tree and the counters, redraws |
| CurrentSidebar.Sidebar.Rerender | src/components/ui/Sidebar/Sidebar.ts:242-247 | empties the tree and the counters and redraws; nothing else changes |
| CurrentSidebar.Sidebar.EmitLoad | src/components/ui/Sidebar/Sidebar.ts:158-166 | a waiting root request is answered with the root items of the tree rebuilt from the delivered logs, and `isLoad` is set; with none waiting nothing happens |
| CurrentSidebar.Sidebar.GetChildren | src/components/ui/Sidebar/Sidebar.ts:54-169 | no children while not ready; the root is answered now when loaded, else it waits; leaf, directory, log, argument and property nodes get their child lists as above |
| CurrentSidebar.LoadAnswersRoot | src/components/ui/Sidebar/Sidebar.ts:160-165 | the tree rebuilt on `load` has distinct keys and lists each file's logs in arrival order |
| IndexSidebar.Sidebar.Add | src/components/ui/Sidebar/index.ts:102-129 | the tree becomes the descending insertion of the log; one redraw |
| IndexSidebar.Sidebar.Reset | src/components/ui/Sidebar/index.ts:131-135 | the tree is emptied; one redraw |
| IndexSidebar.AddExtendsBuild | src/components/ui/Sidebar/index.ts:102-126 | the tree built from `logs + [log]` is the tree built from `logs` with `log` inserted descending |
| IndexSidebar.Sidebar.AddAll | src/components/ui/Sidebar/index.ts:102-135 | `reset` and then one `add` per log, in arrival order, leave the tree built from all the logs; one redraw per call |
| IndexSidebar.FileListsItsLogs | src/components/ui/Sidebar/index.ts:35-46 | after one `add` per log, a file lists exactly its logs in arrival order |
| IndexSidebar.LeafItems | src/components/ui/Sidebar/index.ts:35-46 | one node per stored log in stored order: a log node iff it has more than one argument |
| IndexSidebar.KeyNodes | src/components/ui/Sidebar/index.ts:49-51 | one path node per key, in key order |
| IndexSidebar.PropItems | src/components/ui/Sidebar/index.ts:72-93 | no children without an object handle or on a failed fetch; otherwise one property node per fetched property, in fetch order |
| IndexSidebar.Sidebar.GetChildren | src/components/ui/Sidebar/index.ts:28-100 | root, directory, leaf, log, argument and property children as above; nothing changes |
| LegacySidebar.LogItem | src/components/Sidebar.ts:34-40 | the node of a log is labelled `line: preview` and opens the log's original position |
| LegacySidebar.KeyNodes | src/components/Sidebar.ts:45-51 | one path node per key, in key order |
| LegacySidebar.SortedLeaf | src/components/Sidebar.ts:33 | a file's logs sorted stably by numeric line, as a permutation |
| LegacySidebar.ListingFileOnlyReorders | src/components/Sidebar.ts:30-33 | listing a file keeps every log of the tree, changes no other file, and listing it again changes nothing more |
| LegacySidebar.ReplaceAtFile | src/components/Sidebar.ts:30-33 | replacing a file's list in place puts the new list there and leaves every other file's list |
| LegacySidebar.Sidebar.GetChildren | src/components/Sidebar.ts:26-53 | a file's stored list is replaced by its sorted copy and its log nodes returned; directories and the root list their keys |
| LegacySidebar.Sidebar.Add | src/components/Sidebar.ts:55-72 | the tree becomes the stop-at-file insertion of the log; one redraw |
| LegacySidebar.Sidebar.Reset | src/components/Sidebar.ts:74-77 | the tree is emptied; one redraw |
| LegacySidebar.AddStoresLogOnce | src/components/Sidebar.ts:55-69 | `add` stores the log exactly once unless its path names a directory or is empty |
| LogController.ExclusionIsAPrefixTest | src/components/LogContrller.ts:29-36 | exclusion is a plain prefix test on `/dir`, so `src` also excludes `/src-old/...` |
| LogController.LogController.Log | src/components/LogContrller.ts:22-46 | an excluded log changes nothing; otherwise it is appended; and unless the tree view waits for load, the sidebar is rebuilt from all logs with one redraw, keeping its counters, readiness and waiting root requests, and the decorator gets only the new log |
| LogController.LogController.Update | src/components/LogContrller.ts:51-69 | logs emptied, `isLoad` cleared, counter 0, decorator reset; the sidebar waits (tree-view mode) or is cleared, with one redraw, and root requests already waiting for `load` stay waiting |
| LogController.LogController.Load | src/components/LogContrller.ts:74-85 | the counter goes up by one; only the signal that reaches the route count sets `isLoad`, emits `load` with all logs (the waiting root requests are answered and none is left waiting; counters and readiness are kept) and decorates them all |
| LogController.LoadedOnceAfterAllRoutes | src/components/LogContrller.ts:16 | after `update`, n loads mark the page loaded exactly once iff there are between 1 and n routes; never with no routes setting or an empty list |
| LogController.LogController.AddListeners | src/components/LogContrller.ts:90-118 | listeners are registered and the sidebar becomes ready |
| LogController.LogController.RemoveListeners | src/components/LogContrller.ts:123-133 | logs emptied, `isLoad` cleared, decorator reset; the sidebar is cleared (its `isLoad` set), made not ready and redrawn once, and waiting root requests stay waiting |
| LogController.LogController.OnWillSave | src/components/LogContrller.ts:109-115 | while the listeners are registered, the page stops counting as loaded |
| LogController.LogController.OnTextChanged | src/components/LogContrller.ts:93-101 | while the listeners are registered, the logs are decorated again only while the page counts as loaded |
| LogController.LogController.OnActiveEditorChanged | src/components/LogContrller.ts:103-107 | while the listeners are registered, the logs are decorated again |
| RouteEvents.ParseSound | src/components/Browser.ts:57-60 | every match is `ws kind ws 'selector' ws digits ws` with a word kind, a one-line selector and decimal digits |
| RouteEvents.ParseComplete | src/components/Browser.ts:57-60 | every such string matches, into exactly those pieces |
| RouteEvents.RenderParses | src/components/Browser.ts:57-73 | `kind 'sel' n` matches back to the same kind and selector, and `+timeout` is `n` |
| RouteEvents.ParseWithoutDelay | src/components/Browser.ts:60-73 | `click '.btn'` matches with empty digits, so the delay is 0 |
| RouteEvents.ParseWithoutQuote | src/components/Browser.ts:59 | `click .btn` does not match and is skipped |
| RouteEvents.CloseIsUnique | src/components/Browser.ts:57 | whatever position may close the greedy `(.+)'` is the one the match uses: the closing quote is the last quote |
| RouteEvents.NoCloseWithoutMatch | src/components/Browser.ts:57 | when the text after the opening quote does not match, no position could have closed the selector |
| Browser.NonArrayFramesIgnored | src/components/Browser.ts:124-132 | an empty frame, and any frame not starting with `a` and followed by data, changes nothing |
| Browser.FirstHashIsStored | src/components/Browser.ts:136-140 | the first hash is stored without a reload |
| Browser.RepeatedHashIsSilent | src/components/Browser.ts:142-144 | the stored hash again changes nothing |
| Browser.NewHashReloadsOnce | src/components/Browser.ts:146-147 | a different hash replaces the stored one and signals exactly one reload |
| Browser.OtherPayloadsIgnored | src/components/Browser.ts:136 | payloads of other types change nothing |
| Browser.ProcessConcat | src/components/Browser.ts:134-149 | payloads are handled one after another: a list is its first part, then the rest from the hash the first part leaves |
| Browser.ReloadsBounded | src/components/Browser.ts:134-149 | never more reloads than hash payloads |
| Browser.LastHashIsStored | src/components/Browser.ts:134-149 | the last hash payload decides the stored hash; with none it is kept |
| Browser.ReloadWatcher.OnFrame | src/components/Browser.ts:120-151 | the loop leaves the stored hash and the reload count of the frame's payloads processed in order |
| Browser.EmittedLogsAreShown | src/components/Browser.ts:202-204 | a forwarded call has arguments and a mapped source file |
| Browser.OnConsoleLog | src/components/Browser.ts:192-205 | a log is emitted iff there is a call frame, its script's map is registered, and `existOnClient` holds; it carries the event's type and arguments |

## Where the code and its description differ

The model follows the code in each case.

- Property order:
  - The description puts `__` names before `Symbol(` names. The comparator at src/components/ui/Sidebar/Sidebar.ts:117-125 gives plain < `Symbol(` < `__` < `[[`.
  - Inside the `Symbol(`, `__` and `[[` groups the comparator answers 1 both ways. That is not a consistent comparator. The model keeps fetch order inside those groups, which is the stable outcome when all members are equivalent.
- Constructor calls:
  - src/components/ui/Sidebar/Sidebar.ts constructs tree items with an id first (`new LogTreeItem(argId, log)`). The tree-item classes in the repository take other parameters. The model gives nodes the ids Sidebar.ts passes.
  - src/components/Browser.ts:196 calls `new Log(route, event, getProps)`, but Log.ts's constructor takes the event only. The model builds the log from the event.
- The `getPreview`, `getProps` and `previewTitle` members that the sidebars call are not in Log.ts. The sidebars see logs through `SidebarLog.TreeLog`: source, line, column, argument count, argument previews and text. Property fetching is an input.
- Argument counters:
  - The description resets the per-key counters on every full rebuild. `add` at src/components/ui/Sidebar/Sidebar.ts:199-206 rebuilds the path tree but keeps `argsIdCache`; only `rerender` at lines 242-247 clears it. `CurrentSidebar.Sidebar.Add` keeps the counters.
  - The description promises the same ids when a node is expanded twice. `getArgId` at src/components/ui/Sidebar/Sidebar.ts:171-191 advances the counter on each expansion. `CurrentSidebar.IdsShiftOnSecondExpansion` shows a leaf whose second expansion gets other ids.
- The description collapses directory levels with a single sub-directory into one `dirA/dirB` node. None of the three sidebars does this; each directory level is its own node.
- Members that the sidebars and the controller use but this version of the code does not define:
  - src/components/ui/Sidebar/Sidebar.ts:96-98 and src/components/ui/Sidebar/index.ts:55-57 call `.map` on `log.preview`, which Log.ts:94-139 defines as a string. The model gives the argument nodes the per-argument renderings, `TreeLog.argPreviews`.
  - src/components/ui/Sidebar/Sidebar.ts:160 calls `this.once('load', …)`. The `Emitter` of src/interfaces.ts has only `on` and `emit`. The model reads it as a one-shot handler: `CurrentSidebar.Sidebar.EmitLoad` answers every waiting root request and leaves none waiting.
  - src/components/LogContrller.ts:45, 82, 96 and 104 call `decorator.add`, which src/components/ui/Decorator.ts does not define. The model reads it as adding logs to the decorations, kept as the ghost `decorated`.
  - src/components/ui/Sidebar/Sidebar.ts:2 imports `IDescriptor` from Log.ts, which does not export it. Only the property names and values matter to the model.
- Arrays are rendered without any overflow marker, and object previews as `{ a: 1 }`, as the code writes them.

## Left out

- The `source-map` library and `SourceMaps.ts`. Each registered URL's lookup is a function given as input. An unregistered URL throws in the source: the Log constructor requires registration, and `Browser.OnConsoleLog` emits nothing.
- `new URL(url).pathname` is a function given as input. URL parsing is not modelled.
- Puppeteer and devtools I/O: browser launch, pages, request interception, `loadFile`, `getPropsByObjectId`, `reload`, and dispatching route events with `setTimeout`. These are I/O. The model keeps only the decisions taken on their results.
- `JSON.parse` of sockjs frames is not modelled. A frame carries its decoded payloads, and a parse failure (which throws in the source) is not modelled.
- Promises and async ordering: `getChildren` answers synchronously. A root request waiting for `load` is a counter plus `CurrentSidebar.Sidebar.EmitLoad`.
- vscode tree items, labels, tooltips, icons and the `onDidChangeTreeData` event. A redraw is a ghost counter.
- The decorator, the logger, settings loading and the status bar. `showEnumerable`, `treeViewMode`, `excludeDirs` and the route count are parameters.
- LogController.LogController.AddListeners: it does not model the editor event subscriptions themselves, or the disposal list that repeated calls grow. The three handlers are the methods OnTextChanged, OnActiveEditorChanged and OnWillSave.
- Key order of the path tree is insertion order. JavaScript lists integer-like keys first, in numeric order; that is not modelled.
- Segments named like `Object.prototype` members (`constructor`, `__proto__`) are not modelled. Neither are numeric segments under a file in the legacy walk, which in JavaScript index into the log array.
- String comparison is by character code, not UTF-16 code unit. Characters outside the Basic Multilingual Plane order differently.
- `+timeout` is an unbounded natural number. Floating-point rounding of very long digit strings is not modelled.
- Index and legacy sidebar nodes are addressed by their path in the live tree. A node kept across a `reset`, which in the source still shows the old detached object, is not modelled. `GetChildren` requires the node to name a part of the current tree.
- A log whose original line or column is null is not modelled: `TreeLog` lines are integers. Only logs with a truthy line reach the sidebars.
- Tree-item collapsibility is modelled as `SidebarLog.Expandable`.
- LogController.LogController.Log: the sidebar and the decorator are not ghost call logs. The controller holds the current sidebar object itself and calls its methods. The decorator is the ghost sequence of logs handed to it since its last reset.
