# A verified model of kubernetes-mcp-server

Models of the parts of the server that decide what a client gets to see, and when: how a report is cut to its byte
budget, how a backend body and an exec's output are capped, how a configuration reload becomes visible, how watchers, the
log destination and the handler cap live through it, how layered configuration files are merged and traced, how
CODEOWNERS is generated, how API paths are parsed, and how answers of many targets are combined.

Code that changes state step by step is modelled by classes and loops, each proved against a function of the old state;
what the code promises is then proved of those functions. What several goroutines do together is modelled as a list of
critical sections in any order, where a section that cannot run changes nothing; the invariants hold for every such list.

| file | about |
|---|---|
| `Utf8.dfy`, `CodePoints.dfy` | the byte tests for UTF-8 and white space, and what they mean in code points (sections 3 and 4 of RFC 3629) |
| `Strings.dfy`, `Wrappers.dfy` | splitting and joining, letters and their case, optional results |
| `ResultBudget.dfy`, `Reports.dfy` | the capped builder, and reports of sections nested to any depth on it |
| `ReportLayout.dfy` | what a report may look like, stated without the builder, and that nothing else is printed |
| `ResultLimit.dfy` | `FitSections`, and the acceptance of finished results |
| `ResponseLimit.dfy`, `ExecOutput.dfy` | capped reading of a backend body; stdout and stderr against one limit |
| `ToolSurface.dfy`, `ReloadProtocol.dfy`, `ReloadServer.dfy` | the two-phase reload: registries, interleavings, objects |
| `WatcherGroup.dfy`, `LogSink.dfy`, `InFlight.dfy` | watcher shutdown, the log destination, the handler cap |
| `ConfigMerge.dfy`, `ConfigProvenance.dfy` | merging files in place, and where each leaf comes from |
| `Ownership.dfy`, `Codeowners.dfy` | the ownership rules, and the file generated from them |
| `Workspaces.dfy`, `ApiPath.dfy`, `Inspection.dfy` | workspace discovery, API paths, results of all targets |

`dafny verify dfyconfig.toml` checks everything.

## What the proofs found

The code is modelled as it is. Where a promise does not hold of it, a lemma gives the input and another one the exact
condition under which it does.

- A configuration that is rejected can stay in use. `ReloadConfiguration` swaps the provider's configuration before the
  tools are converted; a manager built for a new context in between keeps it after the roll-back
  (`ReloadProtocol.RejectedConfigSurvives`). `Freshness` says exactly which managers can be affected, and that none is
  ever older than the published snapshot.
- A `Replace` between the copy and the start of watchers in `WatchTargets` leaks a watcher that outlives the shutdown
  (`WatcherGroup.ReplacedWatcherLeaks`); `OnlyStraysSurvive` says that nothing else does.
- A cut inside a section can get lost: with text that is not UTF-8 the notice of the scratch is printed as text and the
  parent stays open (`ReportLayout.CutLostWithoutUtf8`), and a cut body that is blank is dropped without a notice
  (`ReportLayout.BlankCutLost`); the exact condition for both is `CommitOfCutBody`. With UTF-8 texts and a body that is
  not blank a cut always reaches the root (`CommitLaid`, `CutIsPassedOn`).
- A section whose header and suffix do not leave a byte for the body is skipped without a notice
  (`ReportLayout.WrapperFillsRoom`, exact condition `Dropped` in `NoNoticeNothingCut`).
- After `Close`, a reload that asks for the destination from before is skipped and the log stays on the error output
  (`LogSink.SkipAfterCloseIsWrong`, exact condition `SkipIsRight`).
- A Read that finds the cap exceeded after `Close` closes the inner body a second time, exactly when the body is too
  large (`ResponseLimit.ReadAfterClose`).
- `/api/v1/namespaces/prod/status` is parsed as the collection `status` (`ApiPath.MisparsedRequests`, exact condition
  `ResourceRoundTrip`).
- A nested key can take over the provenance of one that contains a dot, and the other way round
  (`ConfigProvenance.DottedKeyMisattributed`, exact condition `Provenance`).

## Model

| member | source | states |
|---|---|---|
| Utf8.ValidCut | pkg/api/resultbudget.go:76-79 | Backing a cut off to a byte that starts a character leaves UTF-8 text; with the next row, why the builder never splits a character |
| Utf8.CutPointIsNear | pkg/api/resultbudget.go:76-79 | In UTF-8 text the back-off gives up at most three bytes |
| CodePoints.ValidIsEncoded | pkg/api/resultbudget.go:76-79 | What counts as UTF-8 here is what scalar values encode to by the arithmetic of the RFC |
| CodePoints.EncodedIsValid | pkg/api/resultbudget.go:76-79 | Whatever scalar values encode to counts as UTF-8 |
| CodePoints.BlankIffWhiteSpace | pkg/api/resultbudget.go:162-171 | Trimming leaves nothing of a text exactly when it is a concatenation of the encodings of the 25 White_Space code points, given as numbers |
| CodePoints.BlankAscii | pkg/api/resultbudget.go:162-171 | For ASCII text, exactly when every byte is a tab, a line or form feed, a vertical tab, a carriage return or a space |
| ResultBudget.Budget.Write | pkg/api/resultbudget.go:62-88 | A write is whole if it fits the room left, else a prefix that ends in front of a character, then one notice; a cut builder takes nothing more; every reachable state stays within its limit |
| ResultBudget.BuilderWithBudget.constructor | pkg/api/resultbudget.go:47-52 | A limit of zero or less gives a builder without a cap |
| ResultBudget.BuilderWithBudget.WriteString | pkg/api/resultbudget.go:62-88 | The in-place write with its back-off loop has the meaning of Write, and reports whether the builder is cut |
| ResultBudget.BuilderWithBudget.Spent | pkg/api/resultbudget.go:102-111 | True if the builder is cut or exactly full; an exact fill is turned into a cut with a notice |
| ResultBudget.BuilderWithBudget.Prefix | pkg/api/resultbudget.go:130-139 | The text without the notice of a cut, and whether there was one |
| ResultBudget.BuilderWithBudget.WriteCut | pkg/api/resultbudget.go:143-157 | A cut text is written and then followed by the notice as text, which itself may cut the builder |
| ResultBudget.BuilderWithBudget.CommitScratch | pkg/api/resultbudget.go:162-171 | Header, body and suffix are committed in one write or, for a blank body, not at all; WhiteSectionVanishes says what is blank |
| ResultBudget.BuilderWithBudget.Scratch | pkg/api/resultbudget.go:257-272 | A scratch has the parent's room less the reserve; without such room it is born cut, without a cap it has none |
| ResultBudget.WriteCutSignals | pkg/api/resultbudget.go:143-157 | The signal to go on: given exactly when the builder was open and took the text whole, with the notice of a cut one, and for no text exactly when nothing was cut; never by a cut builder |
| ResultBudget.CommitScratchSignals | pkg/api/resultbudget.go:162-171 | The same of a commit, where a blank body passes on whether it was cut |
| ResultBudget.AsciiIsCutAtLimit | pkg/api/resultbudget.go:11-88 | ASCII text is cut at the limit to the byte, and the notice behind it is spelled out |
| ResultBudget.FlatWriter | pkg/api/resultbudget.go:62-88 | For any writes: uncut and whole exactly when they fit together. Otherwise the print ends at the first text that overflows: all before it, what is kept of it, and the notice, within the limit and a notice; with UTF-8 writes the part in front is UTF-8 and at most three bytes short. The print equals writes that do not fit exactly when what is left out of them is itself a notice |
| ResultBudget.FlatWriterFrom | pkg/api/resultbudget.go:62-88 | The same for a builder that already holds text |
| ResultBudget.CutTextPrintedWhole | pkg/api/resultbudget.go:62-88 | The last case of FlatWriter happens |
| ResultBudget.UncappedWriter | pkg/api/resultbudget.go:62-66 | Without a cap all writes are printed whole |
| Reports.TrySection | pkg/api/resultbudget.go:213-230 | A gather error leaves the parent as it was, whatever the body wrote before it |
| Reports.RunTrySection | pkg/api/resultbudget.go:213-230 | On mutable builders: the parent's new state, and `written` exactly when the parent grew |
| Reports.RunSections | pkg/api/resultbudget.go:191-207 | The loop over steps on mutable builders of any nesting depth does what the recursive meaning of a report says |
| ReportLayout.Layout | pkg/api/resultbudget.go:143-230 | Any report tree with UTF-8 texts and a limit: payload within the limit and UTF-8, every section header+body+suffix in one piece and never split by its parent's cut, failed sections leave nothing, and the notice is there exactly when something was cut at any depth, other than a body that is blank. The layout is a relation on bytes that knows no builder |
| ReportLayout.SectionsLaid | pkg/api/resultbudget.go:191-207 | Layout for a builder that already holds text, by induction over nesting |
| ReportLayout.NoNoticeNothingCut | pkg/api/resultbudget.go:143-230 | Truncation is never silent: a UTF-8 report of any depth that ends without a notice reads in full, but for exactly those sections whose header and suffix leave no byte for a body, or whose gathered body is blank |
| ReportLayout.UncutSections | pkg/api/resultbudget.go:191-230 | The same for a builder that already holds text, by induction over nesting, with the room that is left at every section |
| ReportLayout.CutIsPassedOn | pkg/api/resultbudget.go:213-230 | A parent that is uncut behind a section that is not dropped has gathered an uncut body |
| ReportLayout.ReportBound | pkg/api/resultbudget.go:143-230 | Any report tree with any bytes: payload within the limit, output at most one notice longer |
| ReportLayout.CommitLaid | pkg/api/resultbudget.go:162-171 | Committing a gathered UTF-8 body that is not blank: one contiguous block, and the parent is cut exactly when the body was |
| ReportLayout.CommitOfCutBody | pkg/api/resultbudget.go:143-171 | For any bytes: a cut body cuts its parent exactly when it is not blank and its block leaves less room than a notice |
| ReportLayout.CutLostWithoutUtf8 | pkg/api/resultbudget.go:143-171 | A report in which a cut does not reach the root: notice printed as text, builder open |
| ReportLayout.BlankCutLost | pkg/api/resultbudget.go:162-171 | A report whose cut body is blank and vanishes without a notice |
| ReportLayout.WrapperFillsRoom | pkg/api/resultbudget.go:213-220 | A report whose section vanishes without a notice because header and suffix fill the room |
| ReportLayout.WhiteSectionVanishes | pkg/api/resultbudget.go:162-230 | A gathered section leaves its parent as it was exactly when its body is white space, and any other body shows |
| ReportLayout.NewlineVanishes | pkg/api/resultbudget.go:162-230 | A section whose body is one newline prints neither header nor suffix |
| ReportLayout.DroppedStepLeavesNotice | pkg/api/resultbudget.go:191-207 | If a non-nil step is not started and nothing failed, the output ends with the notice, also behind an exact fill |
| ReportLayout.CutStays | pkg/api/resultbudget.go:191-207 | Nothing is printed behind a notice |
| ReportLayout.RoomyReport | pkg/api/resultbudget.go:191-230 | A report with less text than room, or without a cap, is printed as if there were no limit, at any depth |
| ResultLimit.LimitString | pkg/api/resultbudget.go:275-279 | A text is returned whole exactly when it fits or there is no limit, else cut in front of a character with the notice |
| ResultLimit.FitSections | pkg/api/resultbudget.go:284-306 | The results together are what one builder of that limit prints for the texts; behind a cut text all are empty; without room only the first non-empty text is replaced, by the notice; never more than the room and a notice |
| ResultLimit.PromptWithinLimit | pkg/mcp/resultlimit.go:76-104 | Accepts exactly when the texts together exceed the limit by no more than a notice, or there is no limit |
| ResultLimit.FittedPrompt | pkg/mcp/resultlimit.go:76-85 | What FitSections returns is always accepted at its limit |
| ResultLimit.PromptBudgetAccepted | pkg/api/resultbudget.go:56-58 | A report on the budget left beside an assistant text is accepted with that text exactly when the text alone is acceptable |
| ResponseLimit.LimitedBody.Read | pkg/kubernetes/responselimit.go:121-150 | For every choice of the inner reader: hands out the next bytes of the whole, an end means that all of it was handed out, too-large is kept and repeated, and a call without an error makes progress unless the inner body stalled |
| ResponseLimit.LimitedBody.Peek | pkg/kubernetes/responselimit.go:152-161 | At the limit: end only if nothing is left, too-large otherwise |
| ResponseLimit.LimitedBody.ReadByte | pkg/kubernetes/responselimit.go:165-174 | A byte, the end, or neither: the inner body is asked at most eight times, gives neither only if it can stall eight times in a row, and then always does so if it stalls that often |
| ResponseLimit.LimitedBody.Fail | pkg/kubernetes/responselimit.go:176-183 | Keeps the too-large error and closes the inner body |
| ResponseLimit.LimitedBody.Close | pkg/kubernetes/responselimit.go:185-193 | However often it is called, the inner body is closed once by it |
| ResponseLimit.ReadLimited | pkg/kubernetes/responselimit.go:99-110 | For every chunking and fewer than eight empty reads in a row: exactly what reading everything and comparing lengths gives; the inner body is closed once exactly when too large. With any number of empty reads no error still means that nothing is missing, and the only other outcome is that a body of exactly the limit is rejected, which it is if it stalls eight times before its end |
| ResponseLimit.ReadCapped | pkg/kubernetes/responselimit.go:88-94 | The same error as reading everything and comparing lengths, with no bytes on any error; nothing is missing without one |
| ResponseLimit.ReadAfterClose | pkg/kubernetes/responselimit.go:121-193 | Reading on behind Close gives the same bytes and error, and closes the inner body a second time exactly when that error is too-large, which without eight empty reads in a row means that the body exceeds the cap |
| ResponseLimit.AcceptedReading | pkg/kubernetes/responselimit.go:55-64 | Accepting a too-large body keeps exactly its first limit bytes with the notice, which is spelled out; other errors give no text |
| ExecOutput.Capture.Write | pkg/kubernetes/pods.go:375-404 | After any interleaving the buffers are the per-stream projections of the first limit bytes in arrival order, cancel was called once if more arrived and else never, and every writer is told that all bytes were taken |
| ExecOutput.Capture.Finish | pkg/kubernetes/pods.go:406-423 | A cut keeps what was stored and puts one notice on stdout, or on stderr if stdout is empty, whatever the exec reports; without a cut an error drops the output |
| ExecOutput.Exec | pkg/kubernetes/pods.go:345-423 | A whole exec of any chunks: canceled exactly when they exceed the limit; then the outputs are the streams' shares of the first limit bytes, with one notice on stdout, or on stderr if stdout has none |
| ExecOutput.KeepFirst | pkg/kubernetes/pods.go:384-400 | Storing what still fits of a chunk keeps the projections of the first limit bytes |
| ExecOutput.ProjectionsPartition | pkg/kubernetes/pods.go:353-361 | Each kept byte is in exactly one stream, so their sizes add up to what was kept |
| ToolSurface.ConvertItems | pkg/mcp/mcp.go:415-430 | All items converted in order, or none if any fails |
| ToolSurface.CommitItems | pkg/mcp/mcp.go:434-458 | On the SDK's registry: names no longer listed are removed and the items added in order |
| ToolSurface.CommitReplaces | pkg/mcp/mcp.go:434-458 | If the registry held only names of the previous list, it then holds exactly the names of the items, each with the last item of that name |
| ToolSurface.ConvertedRegistered | pkg/mcp/mcp.go:415-458 | Converting and committing a list leaves the registry with exactly the names of the list, each with the conversion of its last item, and the enabled list with the names in order |
| ReloadProtocol.RunKeepsInv | pkg/mcp/mcp.go:279-402 | What every critical section of reloads, re-applies, resets and tool calls keeps, in any interleaving: the order of configurations, what each manager holds, and what each registry holds while commits are under way |
| ReloadProtocol.Freshness | pkg/kubernetes/provider_kubeconfig.go:114-217 | In every reachable state no live manager has a configuration older than the published snapshot; when no reload is going on, a manager has the snapshot's exactly when it was not built inside a rejected reload |
| ReloadProtocol.RejectedConfigSurvives | pkg/mcp/mcp.go:716-734 | A run after which a manager keeps the configuration of a rejected reload |
| ReloadProtocol.AcceptedUntilNextReload | pkg/kubernetes/provider_kubeconfig.go:171-217 | From an accepted reload until the next one starts, with re-applies, resets and tool calls in between, every live manager has exactly the accepted configuration |
| ReloadProtocol.StoreAccepts | pkg/mcp/mcp.go:373-387 | Storing the snapshot establishes what AcceptedUntilNextReload starts from |
| ReloadProtocol.SnapshotNeverGoesBack | pkg/mcp/mcp.go:240-252 | No re-apply rolls the published snapshot back to an older configuration |
| ReloadProtocol.SurfaceIsEnabledList | pkg/mcp/mcp.go:356-401 | Over any run, with no reload going on, each of the four registries has exactly the names of its enabled list, each with its last converted item |
| ReloadProtocol.RejectedReloadIsInvisible | pkg/mcp/mcp.go:716-734 | A rejected reload with any tool calls in between changes no registry, no enabled list, not the snapshot and no manager that existed, and restores the provider's configuration |
| ReloadProtocol.RunReload | pkg/mcp/mcp.go:701-742 | The steps of a reload taken without interference: its whole effect, accepted or rejected |
| ReloadProtocol.RunReapply | pkg/mcp/mcp.go:240-246 | The same for a re-apply, which installs the current snapshot again |
| ReloadServer.Provider.ResetLocked | pkg/kubernetes/provider_kubeconfig.go:53-110 | A reset is the protocol's Reset step: all contexts are known, the default one, which is the current or else the only one, gets a manager with the provider's configuration, and no other does; an error changes nothing |
| ReloadServer.Provider.GetDerivedKubernetes | pkg/kubernetes/provider_kubeconfig.go:114-188 | A call on a context is the protocol's Create step: an existing manager is used as it is, a missing one is built on the provider's configuration, and it fails only if there was none and none can be built |
| ReloadServer.Provider.PublishKubernetesConfig | pkg/kubernetes/provider_kubeconfig.go:206-217 | In whatever order the managers are visited, each live one gets the configuration and no other is created |
| ReloadServer.Provider.ReloadConfig | pkg/kubernetes/provider_kubeconfig.go:196-204 | A missing configuration is refused and changes nothing; otherwise the provider's own configuration is replaced and no manager's |
| ReloadServer.Server.ApplyToolsetsLocked | pkg/mcp/mcp.go:279-402 | Succeeds exactly if everything was collected and converts; otherwise nothing changes. Then each kind's registry has exactly the names collected for it, each with the conversion of the last item, each enabled list has these names in order, and every manager is on the configuration |
| ReloadServer.Server.ReapplyToolsets | pkg/mcp/mcp.go:240-246 | The method is the protocol's run of a re-apply; the surface it installs is as ApplyToolsetsLocked says, the configuration stays |
| ReloadServer.Server.ReloadConfiguration | pkg/mcp/mcp.go:701-742 | The method is the protocol's run of a reload; an invalid configuration changes nothing, an accepted one is installed with the surface as ApplyToolsetsLocked says, and after a rejected one snapshot, managers and the provider's configuration are the old ones |
| WatcherGroup.WatcherGroup.Replace | pkg/kubernetes/watcher_group.go:49-62 | The new pair is installed and exactly the old one stopped; in a closed group exactly the new pair is stopped instead |
| WatcherGroup.WatcherGroup.WatchTargets | pkg/kubernetes/watcher_group.go:66-104 | One call with a Close of another goroutine in front of any of its steps: what it started in that window is stopped |
| WatcherGroup.WatcherGroup.Close | pkg/kubernetes/watcher_group.go:107-113 | Closes the group and stops exactly the current pair |
| WatcherGroup.WatcherGroup.ErrClosed | pkg/kubernetes/watcher_group.go:38-45 | Tells whether Close has run, and that answer is final: after it no run of steps by anyone opens the group again |
| WatcherGroup.StaysClosed | pkg/kubernetes/watcher_group.go:38-62 | In a closed group no run of steps installs a watcher or opens the group |
| WatcherGroup.RunKeepsInv | pkg/kubernetes/watcher_group.go:49-113 | What every step of every interleaving keeps: whatever runs is current or a stray, and in a closed group what runs and is no stray will be stopped by a call in flight |
| WatcherGroup.OnlyStraysSurvive | pkg/kubernetes/watcher_group.go:49-113 | In every interleaving, once the group is closed and no call is in flight, what runs are exactly the watchers started after a Replace had taken them out |
| WatcherGroup.ShutdownStopsAll | pkg/kubernetes/watcher_group.go:66-113 | If no Replace falls between a copy and its re-check, nothing runs then |
| WatcherGroup.ReplacedWatcherLeaks | pkg/kubernetes/watcher_group.go:66-113 | A run in which a replaced watcher outlives the shutdown |
| LogSink.SinkIsSafe | pkg/logging/sink.go:193-332 | In every interleaving of one reloader, writers and Close: only the current and at most one opened file are open, writes hit an open destination, no file is closed twice, and in stdio mode nothing reaches the HTTP output |
| LogSink.ReloadLands | pkg/logging/sink.go:278-332 | Unless Close came last: an empty setting leads to the HTTP output in HTTP mode and nowhere in stdio mode, `stderr` to the error output, a path to a file newly opened, the only one then open, and a path that cannot be opened changes nothing |
| LogSink.RunKeepsInv | pkg/logging/sink.go:193-332 | The invariant behind it, kept by every critical section |
| LogSink.SkipIsRight | pkg/logging/sink.go:278-283 | Skipping an unchanged destination leaves the log where a reload would put it exactly when Close did not set the writer last, or the error output is asked for |
| LogSink.SkipAfterCloseIsWrong | pkg/logging/sink.go:278-283 | A run in which the skip leaves the log elsewhere |
| LogSink.Sink.Write | pkg/logging/sink.go:193-200 | The bytes go to the destination last installed, as in the system's Write step |
| LogSink.Sink.Reload | pkg/logging/sink.go:225-332 | Opening the new file and closing the old one, the method does to sink and process what the system's two steps do; a failed one keeps destination, file and settings |
| LogSink.Sink.Close | pkg/logging/sink.go:247-268 | Closing the file, the method does to sink and process what the system's Close step does |
| InFlight.CounterIsExact | pkg/mcp/middleware.go:381-409 | In every run with a limit that changes at will, the counter is the number of limited calls in their handlers, also after panics |
| InFlight.CapHolds | pkg/mcp/middleware.go:381-409 | While the limit stays at a positive value, no more handlers run than the limit or than ran when it took effect |
| InFlight.AdmissionIsExact | pkg/mcp/middleware.go:364-398 | A call is admitted exactly if it is none of tools/call, prompts/get and resources/read, or there is no limit, or the count is below it; it holds a slot exactly if it is one of these |
| InFlight.Middleware.Acquire | pkg/mcp/middleware.go:388-398 | The method admits, counts and rejects as the system's Arrive step does |
| InFlight.Middleware.Release | pkg/mcp/middleware.go:399-405 | The method counts as the system's Leave step does, on both ways out |
| ConfigMerge.Sources.Record | pkg/config/config.go:888-899 | In any order of keys: exactly the dotted paths of the value and of all below it are marked with the file |
| ConfigMerge.DeepMerge | pkg/config/config.go:871-885 | In any order of keys: the recursive merge of both documents, and exactly the merged paths are marked with the file |
| ConfigMerge.MergeTomlFiles | pkg/config/config.go:836-866 | Fails exactly when a file cannot be decoded; otherwise the left-to-right merge of all files with its sources |
| ConfigProvenance.MergeSays | pkg/config/config.go:871-885 | A merge has a leaf at a path according to the second document if that says anything about the path, else according to the first |
| ConfigProvenance.MergedLeaf | pkg/config/config.go:836-885 | For any list of files the leaf at a path is that of the last file that says anything about it, and there is none if that file has a table there or a leaf further up |
| ConfigProvenance.MergeIsNotAssociative | pkg/config/config.go:871-885 | Three documents for which the grouping matters |
| ConfigProvenance.SourcesNameLastSetting | pkg/config/config.go:833-899 | For any documents with any keys, `sources` maps each dotted name to the file that last set it, and has no other name. Setting is a matter of the documents: having, at a path of that name, something that is not a table merged into a table |
| ConfigProvenance.RecordedIffSets | pkg/config/config.go:871-899 | What deepMerge records for a file is exactly what the file sets |
| ConfigProvenance.Provenance | pkg/config/config.go:836-899 | For any documents and any leaf of the result: `sources` names the file that the leaf is from exactly when the leaf has a name and the last file that sets this name is called the same; with distinct file names, exactly when no later file sets the name |
| ConfigProvenance.PlainProvenance | pkg/config/config.go:836-899 | With non-empty keys without dots it names that file for every leaf |
| ConfigProvenance.LastFileWins | pkg/config/config.go:836-899 | For any keys a leaf of the last file is in the result, and that file is its source exactly when the leaf has a name that is not empty |
| ConfigProvenance.MapLookup | pkg/config/config.go:1003-1018 | Looking up a dotted path finds exactly what the document has at the path of its segments |
| ConfigProvenance.NameMeans | pkg/config/option.go:387-396 | The dotted name of a path is its keys joined by dots, without the empty ones |
| ConfigProvenance.DottedLookup | pkg/config/config.go:983-1018 | An option's dotted path leads back to the path it was recorded under |
| ConfigProvenance.DottedKeyMisattributed | pkg/config/config.go:888-899 | With a dot in a key, a leaf is attributed to a file that does not have it: the other side of Provenance |
| Ownership.CheckPath | internal/tools/ownership/ownership.go:82-95 | Accepts a path exactly when it is absolute, without blanks and comments and with no star but a last one, and overlaps no different path before it |
| Ownership.Validate | internal/tools/ownership/ownership.go:54-118 | Accepts exactly the configurations with approvers, well-formed users, toolsets and paths, distinct toolsets, and no two different paths that overlap, in whatever areas they are; well-formed is stated on spellings, not on the matchers |
| Ownership.UserMeans | internal/tools/ownership/ownership.go:31 | The expression for users matches exactly an at-sign and an organization, or these, a slash and a team, spelled from the literal alphabets |
| Ownership.ToolsetMeans | internal/tools/ownership/ownership.go:30 | The expression for toolsets matches exactly one part, or two around a slash |
| Ownership.PathMeans | internal/tools/ownership/ownership.go:83-84 | The conditions on paths amount to an absolute path without blanks and comments and with no star but a last one |
| Ownership.CoversMeans | internal/tools/ownership/ownership.go:101-109 | A pattern covers what is below its directory, or what begins as it does in front of its star, and nothing else |
| Ownership.AcceptedExample | internal/tools/ownership/ownership.go:54-118 | A configuration with a user, a team, a toolset of two parts, a directory and a starred path is accepted |
| Ownership.UniqueKeepsUsers | internal/tools/ownership/ownership.go:120-133 | Dropping repeated users loses nobody and leaves everyone once, without regard to case |
| Ownership.OneMoreUser | internal/tools/ownership/ownership.go:120-133 | One more user is put behind the others exactly if nobody spelled alike is among them, so that first spellings are kept in order |
| Strings.LowerMeans | internal/tools/ownership/ownership.go:125 | Without regard to case: character by character the same, or the two letters at one place of the alphabets |
| Ownership.Unique | internal/tools/ownership/ownership.go:120-133 | The loops do so for all groups, keeping the first spelling |
| Codeowners.MatchesMeans | internal/tools/ownership/ownership.go:101-109 | A pattern matches exactly the file it names, what is below the directory it names, and what begins as it does in front of its star |
| Codeowners.MatchingPatternsOverlap | internal/tools/ownership/ownership.go:101-109 | Two different patterns that match one file overlap, so that refusing overlaps is enough |
| Codeowners.OnePatternMatches | internal/tools/ownership/ownership.go:86-95 | In an accepted configuration at most one distinct pattern matches a file |
| Codeowners.LastMatchIsUnion | internal/tools/update-codeowners/main.go:65-165 | For every file the last matching rule owns exactly the defaults and the approvers of all areas that match it, modulo case |
| Codeowners.RulesMeanUnion | internal/tools/update-codeowners/main.go:65-84 | The same for every order of the rules behind the default one |
| Codeowners.OverlapLosesOwners | internal/tools/ownership/ownership.go:86-95 | With overlapping patterns an area loses its approvers, the reason for the refusal |
| Codeowners.CollectOwnershipPaths | internal/tools/update-codeowners/main.go:86-111 | One rule per distinct path of the configuration, owned by the defaults and all areas that list it, and with the identifiers of exactly these areas, each once |
| Codeowners.AreaIdentifiersDiffer | internal/tools/update-codeowners/main.go:113-118 | Different areas have different identifiers, named or numbered |
| Codeowners.RuleBook.Add | internal/tools/update-codeowners/main.go:93-107 | One more area joins the rule of its path and no other rule changes |
| Codeowners.WriteExclusivePathSections | internal/tools/update-codeowners/main.go:124-140 | Only collected rules of a single area are written, and every path of a single area has one |
| Codeowners.WriteOverlappingPathSections | internal/tools/update-codeowners/main.go:142-165 | Only collected rules of several areas are written, and every such path has exactly one |
| Codeowners.SharedAreWrittenOnce | internal/tools/update-codeowners/main.go:65-84 | A path that two areas list has exactly one rule in the whole file |
| Codeowners.Render | internal/tools/update-codeowners/main.go:65-84 | Succeeds exactly for accepted configurations; the file read by last match means the union over areas for every file path, and shared paths appear once |
| Workspaces.Discovery.DiscoverWorkspacesRecursive | pkg/kcp/workspace.go:52-108 | Ends for any finite reachable set; nothing is discovered in vain, and what was discovered is closed under children but for the ancestors still being visited |
| Workspaces.DiscoverAllWorkspaces | pkg/kcp/workspace.go:112-136 | The least set with the root that is closed under successfully listed non-empty children, each workspace once; besides the root its members are exactly a member's name, a colon and a name listed under it |
| Workspaces.WorkspacesAreAddresses | pkg/kcp/workspace.go:78-101 | When names have no colons, splitting a workspace at colons gives the root and the names along a chain of listings |
| Workspaces.FailedListingDropsOnlyItsOwn | pkg/kcp/workspace.go:65-77 | With failing listings nothing new appears, and whatever is reachable without passing one is still found |
| Workspaces.WorkspaceURLRoundTrip | pkg/kcp/workspace.go:25-47 | A constructed URL is the base, `/clusters/` and the workspace, and it is parsed back exactly when the base brings no marker of its own and the workspace does not end in a slash |
| Workspaces.ParsedElsewhere | pkg/kcp/workspace.go:25-36 | One slash behind the workspace is dropped, and a URL without a marker is all base |
| Workspaces.ParsedBaseIsStable | pkg/kcp/workspace.go:60-66 | The base of a URL stays the base of every workspace URL made from it |
| ApiPath.SameResourceSegment | pkg/kubernetes/accesscontrol_round_tripper.go:327-435 | For every path the resource is parsed exactly when its index is found, and both pick the same segment |
| ApiPath.ResourceRoundTrip | pkg/kubernetes/accesscontrol_round_tripper.go:327-467 | A printed request is parsed to its own group, version, resource, name, subresource and collection flag exactly when it is not a subresource of the cluster-wide resource `namespaces` |
| ApiPath.NamespaceRoundTrip | pkg/kubernetes/accesscontrol_round_tripper.go:379-395 | And to its own namespace exactly when it is not a subresource of a cluster-wide object called `namespaces`; if the group or the version has that name, only when what stands behind it happens to be the namespace |
| ApiPath.ParseURLToNamespaceAndName | pkg/kubernetes/accesscontrol_round_tripper.go:379-395 | The loop finds the segment behind the first marker that has one, and the name behind the resource |
| ApiPath.MisparsedRequests | pkg/kubernetes/accesscontrol_round_tripper.go:327-435 | Requests of both excluded kinds and what they are taken for |
| ApiPath.PrintReads | pkg/kubernetes/accesscontrol_round_tripper.go:327-360 | What a printed request reads, segment by segment, with `/api`, `/apis` and `/namespaces` spelled out |
| ApiPath.SlashesAround | pkg/kubernetes/accesscontrol_round_tripper.go:327-409 | Slashes in front of a path and behind it do not matter |
| ApiPath.PrefixedPath | pkg/kubernetes/accesscontrol_round_tripper.go:362-377 | Behind a host prefix a path is parsed as without it |
| ApiPath.OnlyPrefixIsStripped | pkg/kubernetes/accesscontrol_round_tripper.go:362-377 | Nothing but the prefix is removed, and nothing from a path that does not continue it with a slash; the prefix itself becomes the root |
| ApiPath.VerbOfPrinted | pkg/kubernetes/accesscontrol_round_tripper.go:437-467 | GET and DELETE of a printed request are told apart as list or get, deletecollection or delete by its having a name |
| ApiPath.VerbOfWrite | pkg/kubernetes/accesscontrol_round_tripper.go:437-458 | POST, PUT and PATCH are create, update and patch for every path; a method without a verb is its own in lower case |
| Inspection.NotFoundIsAllLeaves | pkg/api/kubernetes.go:62-81 | An error of any shape is not-found exactly when every leaf of its tree is |
| Inspection.Any | pkg/api/inspection.go:92-122 | True exactly when some answer matches; an error exactly when none does and one failed, and it is not-found exactly when every failure was |
| Inspection.All | pkg/api/inspection.go:127-158 | True exactly when every target answers and matches; an error exactly when one failed and no answer speaks against it, and it is not-found exactly when every failure was |
| Inspection.AnyTargetHasGVK | pkg/api/inspection.go:32-43 | False exactly when every target lists the group version without the kind or fails with not-found, or the targets cannot be obtained for a not-found reason |
| Inspection.AnyIgnoresArrivalOrder | pkg/api/inspection.go:92-122 | For every permutation of the answers Any gives the same boolean and an error or none alike, not-found in both orders or in neither |
| Inspection.AllIgnoresArrivalOrder | pkg/api/inspection.go:127-158 | The same for All |

## Left out

- ResultBudget.BuilderWithBudget.constructor: sizes are unbounded integers, not 64-bit ones, and a nil builder is not modelled.
- ReportLayout.Layout: texts must be UTF-8, because without that a cut need not reach the root (CutLostWithoutUtf8); the bounds hold for any bytes (ReportBound).
- ResultLimit.PromptWithinLimit: message texts only; structured tool results are measured by JSON encoding, which is not modelled, nor is the replacement of an oversized tool result.
- ResponseLimit.ReadLimited: the round tripper that installs the cap and the context key that skips it are not modelled.
- ReloadProtocol.Freshness: a configuration is a number, counted in the order reloads enter the lock; what it holds, the clients derived from a manager, and the closing of managers by a reset are not modelled. The kcp and single-cluster providers are left out.
- ReloadServer.Server.ApplyToolsetsLocked: which tools, prompts and resources apply to a configuration, and their conversion, are parameters.
- ReloadServer.Server.ReloadConfiguration: the order of reloads is given from outside as `number`; validation is a parameter.
- WatcherGroup.ShutdownStopsAll: a watcher is running or not; its timers, debounce and callbacks are left out.
- LogSink.Sink.Reload: the two halves are one call here, which no writer interrupts; the interleaved form is the system that SinkIsSafe is about. Verbosity and the OpenTelemetry sink are left out, and so is the error of closing a file.
- InFlight.CounterIsExact: the rate limiter and its reaper are left out.
- ConfigMerge.DeepMerge: documents are values, so that a table of one document that the result adopts and a later merge changes in place is not seen as shared. TOML decoding, unknown keys, environment variables and extensions are left out.
- ConfigProvenance.Provenance: leaves only; a table's own path may keep the name of a file whose table was replaced since.
- Ownership.Unique: lower case is that of ASCII, which is all that accepted names can have.
- Codeowners.Render: comment texts and column padding are left out, and a pattern matches as `covers` or equality say, not as GitHub's own globs do.
- Workspaces.DiscoverAllWorkspaces: listing children is a function that does not change meanwhile; its reachable set must be finite.
- ApiPath.VerbOfPrinted: methods are ASCII.
- Inspection.AnyIgnoresArrivalOrder: answers that arrive are a list; goroutines, cancellation and error texts are left out.
- Authentication, token exchange, access-control lists, redaction, RBAC metadata, the toolsets themselves, the web UI and all I/O are left out.
