# Verification of the managed Codex runtime

This project models the parts of the repository that decide what a managed Codex run did, and
proves properties of them: the bounded journal of proxy decisions and the evidence drawn from it,
the codecs of texts and trees, the app-server client, three protocol state machines whose every
call may fail, and the meet of authority layers.

Each component is a value-level machine or function with its theorems, and, where the source
changes things in place, a class or a method with loops that is proved to compute it. Every
event-loop turn of concurrent code is one step, and theorems about runs hold for every
interleaving of steps. `dafny verify dfyconfig.toml` checks everything.

| module | what it covers |
|---|---|
| `PhaseJournal`, `EgressProxyJournal` | the ring buffer of CONNECT decisions, its phases and drain protocol |
| `EgressEvidence`, `StageEgress` | evidence from truncated snapshots; the phases and correlation of a stage |
| `Text`, `Json`, `JsonLocality`, `CanonicalJson` | code units, JSON printing and reading, canonical JSON |
| `ObjectScanner`, `AdjacentSplit`, `ContinuationResult` | the splitter of adjacent objects and the selection of results |
| `SchemaDiff`, `SchemaBundles`, `PackageTree` | the bounded schema diff, of documents and of bundles; the byte encoding of package trees |
| `LineFraming`, `AppServerRpc` | framing and the JSON-RPC multiplexer |
| `ProviderTurns`, `TurnWaits`, `AppServerTurns` | the turn records, the waits with their timers, the records in place |
| `AbSequencer`, `AbLedger` | the A/B sequencer, and its runs read off their traces |
| `AuthBoundaryRun`, `McpGateway` | the authentication boundary run, the capability gateway |
| `ContinuationTurn`, `Authority` | the report of a continuation turn; effective authority |

## What the code does not meet

Some properties one would expect fail. The code is modelled as it is: lemmas give failing inputs and
say, where a caller can tell beforehand, exactly when the property holds.

- `canonicalize` in `packages/agents/src/canonical.js` assigns members, so a member named
  `__proto__` is dropped from the digested text; `docker/codex-compat-probe/contract.js` keeps it.
  The text keeps the value if and only if no member has that name.
- Two overlapping `endPhase` calls: the late failure of one can close a phase opened after the other
  ended. A call is safe if and only if no other one is suspended when it is made.
- `correlateStageEgress` does not look at connections in flight: its evidence accounts for every
  connection begun if and only if the later snapshot has none pending.
- A recorded difference of a whole document and of its member with the empty key look the same. No
  other two differences do, and whoever holds both documents can tell these two apart.
- `truncated` is also set when there are exactly as many differences as allowed.
- A provider notification that arrives before `turn/started` and before the continuation is lost,
  unless it is inert; when it is `turn/completed`, whoever waits for the turn is left waiting.
- A second wait for one turn takes the first one's place, and the timer of the first silences the
  second on the same record. When a wait begins it is safe, as long as no other one follows, if and
  only if no live timer is on the record held for the turn.
- A phase with an event that cannot be projected never ends successfully. A call that ends it leaves
  it open, and every later phase refused, if and only if only its own decisions were recorded since
  it began, all are still retained, and the call's drain timer did not fire.
- An event that cannot be projected (a port above 65535, say) makes the diagnostics route unable to
  answer until it is evicted, so that no evidence can begin or end meanwhile.
- After the 2 MiB limit is crossed the buffer is kept, so every later chunk crosses it again.
- `observeNotification` clears the held login id before `finish` may throw; a later completion
  with a null login id is then accepted. An accepted completion carries the presented id if and only
  if no earlier notification threw.
- A rebind of the gateway while a call is in flight lets the earlier dispatch store its invocation
  in the new context. A rebind is safe if and only if no call is in flight.
- Authority differences do not report a bound if and only if none was requested where another layer
  sets one.

## Assumptions on the environment

- A connection is recorded at most once after it was begun (`apps/codex-egress-proxy/src/index.js:36-46`
  and `157-199`); it may never be recorded, because a client error can destroy it silently.
- Phase tokens, generations, call ids and connection identities are fresh.
- Other turns may run between the wake-up of a suspended call and its resumption. This
  over-approximates a gap of a few microtasks: where the other call is already awake, the unsafe half
  of `PhaseJournal.CallIsSafeIff` is about these schedules.
- A timer that was cleared does not fire; one that is live may fire at any time.
- An adapter of the A/B sequencer may answer or throw anything, depending on all earlier calls.
- The identifiers' pattern and lower-casing agree, and clocks give the shape of time that the caller of a theorem names.
- UTF-8 encoding is injective on well-paired texts, and package file names are well paired.

## Model

| member | source | states |
|---|---|---|
| `PhaseJournal.RunKeepsInv` | apps/codex-egress-proxy/src/authAbDiagnostics.js:85-177 | Every interleaving of begin, finish, phase and drain turns keeps the ring buffer equal to the tail of the unbounded decision log, its counters equal to what the log and the connections in flight say, and every boundary honest. |
| `PhaseJournal.JournalAgreesWithLog` | apps/codex-egress-proxy/src/authAbDiagnostics.js:85-129 | After any run the retained events are the last min(cursor, maxEvents) log entries with consecutive cursors, pendingConnects is begun minus recorded, and the open phase’s two counters match the log and the connections in flight. |
| `PhaseJournal.FinishNeverClips` | apps/codex-egress-proxy/src/authAbDiagnostics.js:93 | The clipping of the pending counter at zero is never used: each recorded decision lowers it by exactly one. |
| `PhaseJournal.RunExtends` | apps/codex-egress-proxy/src/authAbDiagnostics.js:94-105 | Along a run the log, the makers and the begun connections only grow, so an entry once recorded keeps its cursor. |
| `PhaseJournal.WokenIffDrained` | apps/codex-egress-proxy/src/authAbDiagnostics.js:107-111 | A call asleep for the open phase is woken as drained exactly by a step that records a decision of that phase and leaves none of its connections undecided, as long as the call is the registered waiter; any other step but its own timer leaves it asleep. |
| `PhaseJournal.WaitsForItsConnections` | apps/codex-egress-proxy/src/authAbDiagnostics.js:131-149 | Over any run without overlapping calls, a sleeping call has an undecided connection of its phase, and a call that goes on without its timer saw a moment when there was none. |
| `PhaseJournal.SuccessReportsPhase` | apps/codex-egress-proxy/src/authAbDiagnostics.js:142-177 | A successful endPhase reports exactly the events of its phase: they fill the cursor interval, none evicted, none foreign; this holds at any moment of any run, even with several calls ending one phase. |
| `PhaseJournal.SuccessShowsPhase` | apps/codex-egress-proxy/src/authAbDiagnostics.js:115-177 | A successful report, field by field: phase, start and starting cursor as an earlier step opened it, the end of now, and of the nth log entry of the phase its cursor, port, decision, reason and times, its host class and its fingerprint. |
| `PhaseJournal.SuccessReportsConnections` | apps/codex-egress-proxy/src/authAbDiagnostics.js:142-177 | The connections behind a successful report are exactly those begun in the phase and recorded by then. |
| `PhaseJournal.DrainedCallCompleteIff` | apps/codex-egress-proxy/src/authAbDiagnostics.js:155-166 | A call of the open phase whose timer did not fire finds its evidence complete if and only if every decision since the phase began belongs to it and all of them are still retained. |
| `PhaseJournal.PhaseStaysOpenIff` | apps/codex-egress-proxy/src/authAbDiagnostics.js:150-177 | A resumed call leaves its phase open, so that every later beginPhase is refused, if and only if its timer did not fire, all decisions since the phase began belong to it and are retained, and one of them cannot be projected. |
| `PhaseJournal.BlockedPhaseNeverSucceeds` | apps/codex-egress-proxy/src/authAbDiagnostics.js:155-177 | Once an event of a phase cannot be projected, no call ends that phase successfully in any continuation. |
| `PhaseJournal.PhasesNeverShareACursor` | apps/codex-egress-proxy/src/authAbDiagnostics.js:115-177 | No cursor is reported by two different phases. |
| `PhaseJournal.LaterPhaseReportsLater` | apps/codex-egress-proxy/src/authAbDiagnostics.js:115-177 | Consecutive successful phases report disjoint cursor intervals in order. |
| `PhaseJournal.DisciplinedRunKeepsOwnPhaseOpen` | apps/codex-egress-proxy/src/authAbDiagnostics.js:142-177 | When calls to endPhase never overlap, the phase a suspended call is waiting for stays open until that call resumes. |
| `PhaseJournal.CallIsSafeIff` | apps/codex-egress-proxy/src/authAbDiagnostics.js:142-177 | At any moment of any run, an accepted endPhase call is safe, in that no continuation without further overlapping calls has a call close a phase that is not its own, if and only if no other call is suspended when it is made. |
| `PhaseJournal.OverlappingCallsCloseAForeignPhase` | apps/codex-egress-proxy/src/authAbDiagnostics.js:142-154 | A concrete run in which two overlapping endPhase calls end with the first one’s timeout closing a phase opened later. |
| `EgressProxyJournal.AuthAbPhaseJournal.constructor` | apps/codex-egress-proxy/src/authAbDiagnostics.js:71-83 | A fresh journal is the initial state of the machine, with the default bound when none is given. |
| `EgressProxyJournal.AuthAbPhaseJournal.BeginConnect` | apps/codex-egress-proxy/src/authAbDiagnostics.js:85-90 | The in-place update is one begin turn; the token is that of the open phase, if any. |
| `EgressProxyJournal.AuthAbPhaseJournal.FinishConnect` | apps/codex-egress-proxy/src/authAbDiagnostics.js:92-113 | The in-place update is one finish turn, appends exactly the decision to the log, and wakes a call asleep for the open phase exactly when it is the registered waiter and no connection of that phase is undecided any more. |
| `EgressProxyJournal.AuthAbPhaseJournal.BeginPhase` | apps/codex-egress-proxy/src/authAbDiagnostics.js:115-129 | The in-place update is one open turn with the boundary of that moment; it throws, changing nothing, exactly for a phase outside the known five or when one is open. |
| `EgressProxyJournal.AuthAbPhaseJournal.EndPhase` | apps/codex-egress-proxy/src/authAbDiagnostics.js:142-149 | The call is accepted exactly when its token is the open phase’s; it has to wait exactly when connections of that phase are in flight. |
| `EgressProxyJournal.AuthAbPhaseJournal.DrainTimeout` | apps/codex-egress-proxy/src/authAbDiagnostics.js:131-140 | The drain timer is one timeout turn. |
| `EgressProxyJournal.AuthAbPhaseJournal.ResumeEndPhase` | apps/codex-egress-proxy/src/authAbDiagnostics.js:150-177 | The resumption is one resume turn, with its result or error; the waiter is forgotten only by a call that waited or succeeded. |
| `EgressProxyJournal.AuthAbPhaseJournal.SafeSnapshot` | apps/codex-egress-proxy/src/authAbDiagnostics.js:179-186 | The snapshot shows the log’s length, the connections in flight and the projected tail of the log, and is refused exactly when some retained event cannot be projected. |
| `EgressEvidence.CompleteEvidenceFillsWindow` | apps/codex-agent-runtime-worker/src/runtimeEgressEvidence.js:125-171 | For arbitrary, even forged, snapshots: COMPLETE evidence names one generation, nothing in flight at either end, and exactly one event for each cursor of the window, at most twenty. |
| `EgressEvidence.EvidenceEnds` | apps/codex-agent-runtime-worker/src/runtimeEgressEvidence.js:26-57 | For any boundary and snapshot as received: which are trusted, when evidence is unavailable and why, when the generation changed, and what the evidence says of its ends. |
| `EgressEvidence.EvidenceReports` | apps/codex-agent-runtime-worker/src/runtimeEgressEvidence.js:82-114 | For any snapshot, forged ones included: each event of the evidence reports a received one of the window field by field, and names a host exactly when it is a listed one or was vouched for as the authentication host. |
| `EgressEvidence.SortSorts` | apps/codex-agent-runtime-worker/src/runtimeEgressEvidence.js:150-152 | Sorting the candidate events by cursor orders them and keeps them all. |
| `EgressEvidence.SnapshotOfJournal` | apps/codex-egress-proxy/src/index.js:97-125 | What the diagnostics route answers for a journal is accepted by snapshot validation and holds exactly the tail of its log; there is no answer exactly while some retained event cannot be projected. |
| `EgressEvidence.EvidenceOfTail` | apps/codex-agent-runtime-worker/src/runtimeEgressEvidence.js:125-171 | The verdict on a window over any log: COMPLETE if and only if quiet at both ends, at most 20 entries, and all of them can be shown; otherwise the reason says which condition failed. |
| `EgressEvidence.WindowVerdict` | apps/codex-agent-runtime-worker/src/runtimeEgressEvidence.js:125-171 | For any two snapshots of any run of an 80-event journal: START_BOUNDARY_UNAVAILABLE or END_SNAPSHOT_UNAVAILABLE exactly while an event retained there cannot be projected; otherwise COMPLETE if and only if nothing was in flight at either end and at most 20 decisions lie between, all of which can be shown; more than 80 gives JOURNAL_OVERWRITTEN, 21 to 80 EVIDENCE_OUTPUT_CAPPED, and EVENT_SEQUENCE_INCOMPLETE never occurs. |
| `EgressEvidence.WindowShowsLatest` | apps/codex-agent-runtime-worker/src/runtimeEgressEvidence.js:136-171 | Evidence of a window of up to 80 decisions shows the latest 20 of them, entry by entry, when all of these can be shown. |
| `EgressEvidence.CompleteWindowIsLogSlice` | apps/codex-agent-runtime-worker/src/runtimeEgressEvidence.js:148-171 | COMPLETE evidence shows exactly the log slice between the two snapshots: of the nth entry its cursor, port, decision, reason, time and fingerprint, and its host only if listed. |
| `EgressEvidence.CompleteWindowIsConnectionsBegun` | apps/codex-agent-runtime-worker/src/runtimeEgressEvidence.js:125-171 | COMPLETE evidence accounts for exactly the connections begun inside the window. |
| `StageEgress.ProjectedIff` | docker/codex-compat-probe/auth-ab/contract.js:93-158 | A received phase is accepted exactly when its fields and events are sound and it counts each event once, and is kept field by field. |
| `StageEgress.JournalPhaseIsAccepted` | docker/codex-compat-probe/auth-ab/contract.js:93-158 | A phase that the journal ended successfully passes the stage’s projection if and only if its clock did not run backwards and the times and fingerprints of its events have the expected shape; it is then kept field by field. |
| `StageEgress.ListedIff` | docker/codex-compat-probe/auth-ab/contract.js:160-181 | A received list is accepted exactly when it has at most six sound phases in strict order and a device-code phase in it repeats the window of the login phase. |
| `StageEgress.StageSoFarIsListed` | docker/codex-compat-probe/auth-ab/contract.js:160-181 | Any prefix of a stage’s phases, alias included, passes the list projection unchanged. |
| `StageEgress.CaptureIff` | docker/codex-compat-probe/auth-ab/runner.js:44-70 | A capture records the end reply, unchanged, exactly when both replies are sound and agree on phase, start, cursor and count; it returns exactly when moreover its action did. |
| `StageEgress.Capture` | docker/codex-compat-probe/auth-ab/runner.js:44-70 | One capture records its phase exactly when both replies agree, whether or not the captured action threw. |
| `StageEgress.RunStagePhases` | docker/codex-compat-probe/auth-ab/runner.js:260-345 | Whichever step of the stage fails, the phases accumulated so far are what their captures gave, accepted, in phase order and with the alias of the login phase; so they pass the list projection by `StageSoFarIsListed`. The stage finishes exactly when all five captures returned. |
| `StageEgress.ReceivedIff` | docker/codex-compat-probe/auth-ab/orchestrator.js:102-142 | A received snapshot is accepted exactly when the proxy is healthy and it holds as many sound events as it says, no cursor twice. |
| `StageEgress.CorrelationIff` | docker/codex-compat-probe/auth-ab/orchestrator.js:144-166 | Any two accepted snapshots correlate exactly when the first is that of a fresh proxy and the second holds the cursors one, two and so on up to its own. |
| `StageEgress.CorrelationIsWholeLog` | docker/codex-compat-probe/auth-ab/orchestrator.js:144-166 | Correlating the snapshot of a fresh proxy with a later accepted one yields the projection of the whole log, or fails exactly when part of it was evicted; the later one is accepted exactly when every retained event is sound. |
| `StageEgress.SnapshotIsSafe` | docker/codex-compat-probe/auth-ab/orchestrator.js:102-142 | The journal’s own snapshot passes the snapshot projection, unchanged, if and only if every retained event can be projected and its time and fingerprint have the expected shape. |
| `StageEgress.CorrelationAccountsForAllIff` | docker/codex-compat-probe/auth-ab/orchestrator.js:144-166 | For any run, the evidence of a successful correlation accounts for every connection begun if and only if the later snapshot’s pendingConnects, which the function does not read, is zero. |
| `StageEgress.CorrelationIgnoresInFlight` | docker/codex-compat-probe/auth-ab/orchestrator.js:144-166 | A concrete run in which a stage is correlated successfully while a connection is still undecided. |
| `Json.RoundTrip` | packages/agents/src/canonical.js:20-22 | JSON.parse(JSON.stringify(v)) is v, key order included (sections 4 and 7 of RFC 8259). |
| `Json.StringifyInjective` | packages/agents/src/canonical.js:20-22 | Values that print alike are the same value. |
| `JsonLocality.ParseWellFormed` | packages/agents/src/continuationResult.js:46-52 | Whatever JSON.parse returns is well formed: keys distinct and in enumeration order. |
| `JsonLocality.ObjectTextReads` | packages/agents/src/continuationResult.js:69-100 | An object’s text, cut where reading stopped, reads as that object, whatever followed it. |
| `CanonicalJson.CanonicalUnique` | docker/codex-compat-probe/contract.js:204-210 | A canonical value is determined by what it means apart from key order. |
| `CanonicalJson.StableTextIff` | docker/codex-compat-probe/contract.js:204-214 | The compatibility contract’s canonical texts are equal if and only if the values are equal up to key order. |
| `CanonicalJson.CanonicalTextIff` | packages/agents/src/canonical.js:3-22 | The agents package’s canonical texts are equal if and only if the values are equal up to key order and up to members named __proto__. |
| `CanonicalJson.CanonicalizeKeepsMeaningIff` | packages/agents/src/canonical.js:3-18 | Canonicalising by assignment keeps the value if and only if no member is named __proto__. |
| `CanonicalJson.CanonicalTextIdentifies` | packages/agents/src/canonical.js:3-22 | On values without such members the text identifies the value up to key order. |
| `CanonicalJson.ProtoMemberIsLost` | packages/agents/src/canonical.js:10-16 | A concrete family of objects, with a __proto__ member, that print like the empty object. |
| `CanonicalJson.CanonicalIdempotent` | packages/agents/src/canonical.js:3-18 | Canonicalising twice is canonicalising once, in either implementation. |
| `ObjectScanner.ScanValue` | packages/agents/src/continuationResult.js:72-95 | The depth, string and escape scan passes over any JSON value without a trace, whatever braces and quotes its strings contain. |
| `ObjectScanner.ScanCutsObject` | packages/agents/src/continuationResult.js:72-95 | The scan first reaches depth zero at an object’s true end, whatever follows it. |
| `ObjectScanner.CutObjectIsText` | packages/agents/src/continuationResult.js:96-100 | A slice that the scan cuts and JSON.parse reads as an object is the text of that one object. |
| `AdjacentSplit.SplitIff` | packages/agents/src/continuationResult.js:54-109 | For any exact cutter, splitting accepts exactly the texts that alternate white space and at most the allowed number of pieces, in one way only. |
| `ContinuationResult.CutObjectExact` | packages/agents/src/continuationResult.js:69-100 | Scanner and parser together cut off exactly the texts of single objects. |
| `ContinuationResult.SplitReadsObjects` | packages/agents/src/continuationResult.js:54-109 | A message splits into given slices if and only if it is white space and those slices in order, each the text of one JSON object, at most maxValues of them. |
| `ContinuationResult.JoinedObjectsSplit` | packages/agents/src/continuationResult.js:54-109 | Objects joined by any white space are returned as exactly those slices; one too many is refused. |
| `ContinuationResult.PrintedObjectIsText` | packages/agents/src/continuationResult.js:54-109 | The objects may be any that JSON.stringify prints. |
| `ContinuationResult.ScanObject` | packages/agents/src/continuationResult.js:72-95 | The inner loop over one object computes the scan and terminates. |
| `ContinuationResult.ParseAdjacent` | packages/agents/src/continuationResult.js:54-109 | The cursor loop terminates and computes exactly the split, with values and slices, or fails with neither. |
| `ContinuationResult.ValidateIff` | packages/agents/src/continuationResult.js:17-44 | Validation succeeds with a result exactly when the document has the two and the five members by their names, each text not blank and each field of the result the value under its own name, and, where required, reports success. |
| `ContinuationResult.SelectionIff` | packages/agents/src/continuationResult.js:111-124 | Selection yields a result exactly when the message is white space and one to eight object texts in turn and the last one describes that successful result. |
| `ContinuationResult.SingleResultIsSelected` | packages/agents/src/continuationResult.js:46-52 | What strict single reading accepts, final selection accepts too, with the same normalised value, as the only value. |
| `ContinuationResult.LastObjectIsSelected` | packages/agents/src/continuationResult.js:111-124 | Of several adjacent objects, selection judges the last by the strict rules, however they are spaced. |
| `SchemaDiff.UnescapeEscape` | docker/codex-compat-probe/contract.js:241-243 | Pointer tokens are escaped reversibly (sections 3 and 4 of RFC 6901). |
| `SchemaDiff.EscapeSpells` | docker/codex-compat-probe/contract.js:241-243 | A tilde is spelled ~0, a slash ~1, and anything else as it is. |
| `SchemaDiff.PointerInjective` | docker/codex-compat-probe/contract.js:241-246 | Different lists of keys print as different pointers. |
| `SchemaDiff.DiffApart` | docker/codex-compat-probe/contract.js:229-247 | No reported path equals another or lies above it. |
| `SchemaDiff.RecordedPathsDiffer` | docker/codex-compat-probe/contract.js:229-247 | Within one file all recorded path texts are different. |
| `SchemaDiff.DiffReal` | docker/codex-compat-probe/contract.js:229-247 | Every reported path is a real addition, removal or change, of that kind. |
| `SchemaDiff.DiffPatches` | docker/codex-compat-probe/contract.js:229-247 | Replacing the baseline’s values at the reported paths by the candidate’s gives the candidate, up to key order. |
| `SchemaDiff.DiffEmptyIff` | docker/codex-compat-probe/contract.js:229-231 | Nothing is reported if and only if the documents are equal up to key order. |
| `SchemaDiff.DiffValue` | docker/codex-compat-probe/contract.js:229-247 | The bounded recursive walk records the first differences of the unbounded list, up to the bound. |
| `SchemaBundles.RecordedPath` | docker/codex-compat-probe/contract.js:229-247 | Of a real difference, file and pointer give its list of keys back to whoever holds both documents, also where the pointer is ambiguous. |
| `SchemaBundles.ChangesReadBack` | docker/codex-compat-probe/contract.js:249-261 | Each of all changes of two bundles names, by its file and pointer, a real addition, removal or change of a file or of a value in one; taking them over from the candidate turns the baseline into the candidate, in file names and in meanings. |
| `SchemaBundles.CompareSchemaBundles` | docker/codex-compat-probe/contract.js:249-261 | The bounded comparison is the first maxDifferences entries of the unbounded one; truncated is set exactly when there are at least that many; so every change returned is real, and when truncated is not set, patching the baseline by them gives the candidate. |
| `SchemaBundles.BundleNamesAre` | docker/codex-compat-probe/contract.js:250-253 | The files compared are those of either bundle, each once, in sorted order. |
| `SchemaBundles.BundlesEqualIff` | docker/codex-compat-probe/contract.js:249-261 | The comparison finds nothing if and only if both bundles hold the same files, equal up to key order. |
| `SchemaDiff.NamedCollideIff` | docker/codex-compat-probe/contract.js:229-247 | Two differences of one file are recorded alike if and only if they are the same, or are of one kind and concern the whole document and its member with the empty key. |
| `SchemaDiff.DocumentsRecordedAlike` | docker/codex-compat-probe/contract.js:229-247 | The failing inputs: two different documents that are not objects, and the same two as members with the empty key, give the same single record. |
| `PackageTree.NodeInjective` | apps/codex-agent-runtime-worker/src/packageArtifactAttestation.js:21-39 | Of one entry followed by anything outside it, the stream determines the entry and the rest, although directories carry no end marker or count and paths may contain colons. |
| `PackageTree.PackageStreamInjective` | apps/codex-agent-runtime-worker/src/packageArtifactAttestation.js:41-45 | The stream fed to the artifact hash determines both package trees: names, modes and file bytes. |
| `PackageTree.SameStreamIffSameTrees` | apps/codex-agent-runtime-worker/src/packageArtifactAttestation.js:21-45 | Streams are equal if and only if the trees are, in whatever order the directories are listed. |
| `PackageTree.SortersAgree` | docker/codex-compat-probe/contract.js:188 | The default sort and the explicit comparator order distinct names alike. |
| `PackageTree.BothSort` | apps/codex-agent-runtime-worker/src/packageArtifactAttestation.js:30 | Both sorts put the names of a directory in the same canonical order. |
| `PackageTree.EntryInStream` | apps/codex-agent-runtime-worker/src/packageArtifactAttestation.js:21-39 | An entry in the stream is the length of its header, most significant byte first, the header, and the bytes of the file or the entries of the directory. |
| `PackageTree.HeaderSpells` | apps/codex-agent-runtime-worker/src/packageArtifactAttestation.js:21-39 | Headers are spelled directory:path:mode and file:path:mode:size. |
| `PackageTree.BigEndianReads` | apps/codex-agent-runtime-worker/src/packageArtifactAttestation.js:13-19 | A length prefix reads as the length, the first byte being the most significant. |
| `PackageTree.PackagesInStream` | apps/codex-agent-runtime-worker/src/packageArtifactAttestation.js:41-45 | The wrapper package comes first and the platform package second, each under its own path. |
| `PackageTree.UpdateField` | apps/codex-agent-runtime-worker/src/packageArtifactAttestation.js:13-19 | One field is fed as its byte length, in eight bytes with the most significant first, and its bytes. |
| `PackageTree.HashPackageEntry` | apps/codex-agent-runtime-worker/src/packageArtifactAttestation.js:21-39 | The recursive walk feeds exactly the encoding of the tree, with either sort, and fails exactly on symbolic links and special files. |
| `PackageTree.HashEntries` | docker/codex-compat-probe/contract.js:181-196 | The loop over a directory feeds its entries in sorted order. |
| `PackageTree.HashPackages` | docker/codex-compat-probe/contract.js:198-202 | Both implementations feed the same stream for both packages. |
| `ProviderTurns.AcceptCommutes` | apps/codex-agent-runtime-worker/src/appServerClient.js:1355-1376 | The turn/start continuation commutes with every notification once the turn’s record exists, and with the one that creates it. |
| `ProviderTurns.RaceIsConfluent` | apps/codex-agent-runtime-worker/src/appServerClient.js:991-1106 | The client ends in the same state wherever among the notifications the continuation runs, given that turn/started comes first. |
| `ProviderTurns.NotificationBeforeRecordIff` | apps/codex-agent-runtime-worker/src/appServerClient.js:925-1106 | Before the record of its turn exists, a notification commutes with the turn/start continuation if and only if it starts the turn or is inert on a fresh record (no model, error payload, delta text or item content); every other kind, turn/completed included, is lost when it comes first. |
| `ProviderTurns.EarlyCompletionIsLost` | apps/codex-agent-runtime-worker/src/appServerClient.js:1079-1106 | When turn/completed comes before the record exists, a later wait hears nothing in any continuation in which the turn does not complete once more. |
| `ProviderTurns.CompletionReachesTheWaiter` | apps/codex-agent-runtime-worker/src/appServerClient.js:1428-1445 | Wherever submission runs among a turn’s notifications, or after them, and wherever behind it the wait begins, the waiter is given one and the same completed record. |
| `ProviderTurns.EndedTurnIsLeftAlone` | apps/codex-agent-runtime-worker/src/appServerClient.js:926-976 | The live record a waiter is handed stays the one that completed through all later notifications that do not name the turn. |
| `ProviderTurns.UpdatedFields` | apps/codex-agent-runtime-worker/src/appServerClient.js:925-1106 | A notification about a record changes exactly these fields: status, model, effort, error and end by completions, reroutings and errors, usage and tool calls by theirs, and message, open message and final id by deltas and agent-message items. |
| `ProviderTurns.StartedRecord` | apps/codex-agent-runtime-worker/src/appServerClient.js:991-1013 | turn/started sets thread, status, time, model and effort, keeps everything else of a record that was there, and forgets the latest error. |
| `ProviderTurns.StepElsewhere` | apps/codex-agent-runtime-worker/src/appServerClient.js:925-1106 | A notification leaves every other record alone, and its kind alone decides the latest error, the latest usage and which waiter is answered. |
| `ProviderTurns.AcceptedRecord` | apps/codex-agent-runtime-worker/src/appServerClient.js:1355-1376 | The continuation keeps what notifications recorded, fills in what is absent, and adds the request. |
| `ProviderTurns.ModelIsLastNamed` | apps/codex-agent-runtime-worker/src/appServerClient.js:926-931 | Over any run the observed model of a turn is the one named last by its start, a rerouting or its completion. |
| `ProviderTurns.DeltasAccumulate` | apps/codex-agent-runtime-worker/src/appServerClient.js:1014-1025 | Deltas outside an open agent message append to the turn’s text, cut at 16000 as a whole. |
| `ProviderTurns.StreamedMessageIsKept` | apps/codex-agent-runtime-worker/src/appServerClient.js:1014-1056 | A streamed agent message becomes the turn’s message, first text and all deltas in order, also when the completing item repeats no text. |
| `ProviderTurns.ToolCallsAreKept` | apps/codex-agent-runtime-worker/src/appServerClient.js:1057-1067 | Of a turn’s tool calls the last eight are kept, in order. |
| `AppServerTurns.TurnRecords.HandleNotification` | apps/codex-agent-runtime-worker/src/appServerClient.js:925-1106 | The handler’s in-place updates are one event of the records and timers. |
| `ProviderTurns.NewestIsLast` | apps/codex-agent-runtime-worker/src/appServerClient.js:928-974 | The search finds the turn in progress, of the wanted thread if one is wanted, that was inserted last, and nothing exactly when there is none. |
| `AppServerTurns.TurnRecords.FindNewest` | apps/codex-agent-runtime-worker/src/appServerClient.js:928-974 | The backwards search finds the most recently inserted turn in progress. |
| `AppServerTurns.TurnRecords.AcceptTurn` | apps/codex-agent-runtime-worker/src/appServerClient.js:1355-1376 | Merging defaults, existing record and request is the continuation’s event, and timers keep the record object it replaces. |
| `TurnWaits.EveryWaitEndsOnce` | apps/codex-agent-runtime-worker/src/appServerClient.js:1428-1445 | Over any interleaving of notifications, submissions, waits and timers, each wait has either a live timer or an answer, never both, and its first answer is its last. |
| `TurnWaits.TimerAnswersFromCaptured` | apps/codex-agent-runtime-worker/src/appServerClient.js:1435-1439 | A timer answers from the record as it was when the captured object was first replaced by turn/started or by a submission, and from the current record exactly as long as none of them replaced it. |
| `TurnWaits.EndIsHeardIff` | apps/codex-agent-runtime-worker/src/appServerClient.js:1079-1106 | The end of a turn reaches a waiter if and only if until then nobody else waited for that turn, its own timer did not fire, and no other timer on the same record object did. |
| `TurnWaits.WaitIsSafeIff` | apps/codex-agent-runtime-worker/src/appServerClient.js:1428-1445 | At the moment a wait for a running turn begins: it will be told of the end in every continuation without another wait for the turn and without its own timer firing, if and only if no live timer is on the record the client holds for the turn. |
| `TurnWaits.TimerSilencesWait` | apps/codex-agent-runtime-worker/src/appServerClient.js:1436-1439 | The failing input from any state with such a timer: it fires, and the end of the turn leaves the later waiter unanswered. |
| `TurnWaits.SecondWaitDisplaces` | apps/codex-agent-runtime-worker/src/appServerClient.js:1440-1443 | A later wait for the same turn takes the earlier one’s place: the earlier one hears of no end of the turn, however it goes on. |
| `TurnWaits.TwoWaitsForOneTurn` | apps/codex-agent-runtime-worker/src/appServerClient.js:1428-1445 | A concrete history from an empty client: of two waits for one turn the first one’s timer answers UNKNOWN, the turn completes, and the second one is left waiting. |
| `AppServerTurns.TurnRecords.AwaitTurn` | apps/codex-agent-runtime-worker/src/appServerClient.js:1428-1445 | An unknown turn is an error, an ended one answers at once, a running one keeps the waiter and a live timer on its record object. |
| `AppServerTurns.TurnRecords.OnWaitTimeout` | apps/codex-agent-runtime-worker/src/appServerClient.js:1436-1439 | A firing timer forgets the waiter in the record object it captured and answers with a copy of that object as UNKNOWN. |
| `LineFraming.PiecesOfJoined` | apps/codex-agent-runtime-worker/src/appServerClient.js:845-848 | Splitting at newlines undoes joining of newline-free lines. |
| `LineFraming.JoinedPieces` | apps/codex-agent-runtime-worker/src/appServerClient.js:845-848 | Every text is the joining of its pieces, none of which contains a newline. |
| `LineFraming.TrimSplits` | apps/codex-agent-runtime-worker/src/appServerClient.js:846 | Trimming takes white space off both ends of a line, and all of it. |
| `LineFraming.FramingIsSplitting` | apps/codex-agent-runtime-worker/src/appServerClient.js:839-858 | For every sequence of chunks, what is handled is what splitting the whole text received before the first crossing of the 2 MiB limit gives; after it nothing is handled any more. |
| `LineFraming.ChunksDoNotMatter` | apps/codex-agent-runtime-worker/src/appServerClient.js:839-858 | Where the text is cut into chunks does not matter as long as the limit is not crossed. |
| `Text.DecimalInjective` | apps/codex-agent-runtime-worker/src/appServerClient.js:1142 | Printed ids identify requests. |
| `AppServerRpc.RunKeepsInv` | apps/codex-agent-runtime-worker/src/appServerClient.js:860-889 | Every interleaving of requests, replies, timeouts, write failures and process exits keeps pending and settled requests disjoint, without repetition, and exactly the issued ones. |
| `AppServerRpc.EveryRequestIsAccounted` | apps/codex-agent-runtime-worker/src/appServerClient.js:1115-1177 | After any run every issued id is either pending with a live timer or settled, never both; no id is settled twice; pending is issued minus settled. |
| `AppServerRpc.OutcomesArePermanent` | apps/codex-agent-runtime-worker/src/appServerClient.js:1115-1177 | A settled request keeps its one outcome in every continuation of the run. |
| `AppServerRpc.ReplySettlesItsRequest` | apps/codex-agent-runtime-worker/src/appServerClient.js:862-889 | A reply settles exactly the pending request with its id and no other; a late or unknown reply changes nothing. |
| `AppServerRpc.ResolvedByItsOwnReply` | apps/codex-agent-runtime-worker/src/appServerClient.js:862-889 | A resolved request got a reply that arrived in the run while it was pending and carried its own id (section 5 of JSON-RPC 2.0). |
| `AppServerRpc.IssuedWasAllowed` | apps/codex-agent-runtime-worker/src/appServerClient.js:1115-1124 | In every run each issued request was on the allow-list or the early initialization, of a live client that was initialized unless the request was early. |
| `AppServerRpc.RejectedForItsReason` | apps/codex-agent-runtime-worker/src/appServerClient.js:1127-1177 | In every run each rejected request was rejected for its own reason: its failed write, its timer, or a failure or exit while it was pending. |
| `AppServerRpc.OfflineIssuesNothing` | apps/codex-agent-runtime-worker/src/appServerClient.js:818-823 | After the process exited no request is issued until it is spawned again. |
| `AppServerRpc.FailureSettlesEverything` | apps/codex-agent-runtime-worker/src/appServerClient.js:1160-1177 | After a transport failure nothing is pending, no timer is left, and every issued request is settled. |
| `AppServerRpc.CutAnywhere` | apps/codex-agent-runtime-worker/src/appServerClient.js:839-858 | For any sequence of chunks the client has handled the lines of the whole text that arrived before the 2 MiB limit was first crossed and, if it was crossed, failed what was pending then and handled nothing since. |
| `AppServerRpc.SameTextSameClient` | apps/codex-agent-runtime-worker/src/appServerClient.js:839-858 | Two ways of cutting one text into chunks leave the same client and buffer unless one of them crosses the limit. |
| `AppServerRpc.AppServerClient.Consume` | apps/codex-agent-runtime-worker/src/appServerClient.js:839-858 | The while loop over newlines handles exactly the frames of the buffered text, in order, or fails everything pending when the limit is crossed: one chunk of the sequence that `CutAnywhere` is about. |
| `AppServerRpc.AppServerClient.FailAll` | apps/codex-agent-runtime-worker/src/appServerClient.js:1160-1177 | The loop over the pending map rejects each entry once, clears its timer and empties the map. |
| `AppServerRpc.AppServerClient.Rpc` | apps/codex-agent-runtime-worker/src/appServerClient.js:1115-1153 | A request is issued under a new id exactly when it is allowed, the client is initialized or the request early, and the process is alive; otherwise it is refused for the first of these that fails. A failed write settles it at once. |
| `AppServerRpc.AppServerClient.HandleMessage` | apps/codex-agent-runtime-worker/src/appServerClient.js:860-889 | Handling a message is one receive step. |
| `AppServerRpc.AppServerClient.OnTimeout` | apps/codex-agent-runtime-worker/src/appServerClient.js:1127-1141 | A firing timer settles its own request. |
| `AppServerRpc.AppServerClient.OnExit` | apps/codex-agent-runtime-worker/src/appServerClient.js:818-823 | Process exit makes the client offline and settles everything. |
| `AbSequencer.StageRests` | docker/codex-compat-probe/auth-ab/contract.js:388-456 | Whatever the adapter answers or throws, a stage ends torn down once; it ends without error only if its egress check passed, its discard was verified, and its evidence was added. |
| `AbSequencer.EveryRunIsTornDown` | docker/codex-compat-probe/auth-ab/contract.js:357-462 | For every adapter the calls of a run follow the protocol and end at rest; a thrown error reports all evidence collected; a normal return implies both stages verified discarded, no violation among the stages run, and PASS exactly when both were observed. |
| `AbSequencer.EveryStageIsTornDownOnce` | docker/codex-compat-probe/auth-ab/contract.js:388-456 | Each stage entered gets exactly one teardown attempt before another stage starts or the run ends, and the candidate starts only after the baseline’s discard was verified. |
| `AbSequencer.CandidateWaits` | docker/codex-compat-probe/auth-ab/orchestrator.js:217 | In every accepted run the adapter’s own guard on the candidate is met: a verification of the baseline’s discard returned, and the baseline was not entered since. |
| `AbLedger.RunEndsAsBooked` | docker/codex-compat-probe/auth-ab/contract.js:357-462 | Read off the trace of any run: it throws exactly the failure that its last failing call stands for, with all evidence there is, and returns exactly when no call failed, with the evidence of the stages as correlated. |
| `AbLedger.TwoSnapshotsOfEachStage` | docker/codex-compat-probe/auth-ab/contract.js:397-444 | Between the start of a stage’s proxy and its teardown exactly two snapshots of that stage are attempted, whatever fails in between, and none when the proxy did not start. |
| `AbLedger.ViolationIsReported` | docker/codex-compat-probe/auth-ab/contract.js:410-452 | If any check of a run, early or late, finds a violation, the run throws an egress mismatch, or a failed run where a discard failed too. |
| `AbSequencer.AuthAbSequencer.RunStage` | docker/codex-compat-probe/auth-ab/contract.js:391-454 | The try, catch and finally blocks compute the stage function. |
| `AbSequencer.AuthAbSequencer.CollectLate` | docker/codex-compat-probe/auth-ab/contract.js:425-444 | The first half of the finally block collects late diagnostics once, and reports their failure. |
| `AbSequencer.AuthAbSequencer.DiscardStage` | docker/codex-compat-probe/auth-ab/contract.js:445-452 | Teardown, verification and marking are attempted in that order, each only after the one before it returned. |
| `AbSequencer.AuthAbSequencer.Run` | docker/codex-compat-probe/auth-ab/contract.js:357-462 | The whole call, on a sequencer that may have run before, computes the run function against the adapter with all its past, and leaves no stage active. |
| `AuthBoundaryRun.ApplyKeepsInv` | docker/codex-compat-probe/auth-boundary-contract.js:374-555 | Every call, throwing or not, keeps the record consistent: methods in order, outcome, failure code and terminal stage matching, login id held only while waiting. |
| `AuthBoundaryRun.ProtocolIsAPrefix` | docker/codex-compat-probe/auth-boundary-contract.js:410-512 | In every run the protocol methods are a prefix of initialize, login start, account read, each at most once, and the failure code is null exactly for success. |
| `AuthBoundaryRun.RankGrows` | docker/codex-compat-probe/auth-boundary-contract.js:374-555 | States only move forward. |
| `AuthBoundaryRun.OutcomeIsFinal` | docker/codex-compat-probe/auth-boundary-contract.js:600-609 | The outcome is set once; later calls leave the terminal record as it is. |
| `AuthBoundaryRun.EvidenceNeedsTeardown` | docker/codex-compat-probe/auth-boundary-contract.js:548-560 | Evidence becomes available only through a verified teardown that came after the outcome. |
| `AuthBoundaryRun.CompletionAcceptedIff` | docker/codex-compat-probe/auth-boundary-contract.js:474-500 | A waiting run accepts a completion exactly when it is successful, names this experiment, operation and server generation, is not older than the login, and carries the id held. |
| `AuthBoundaryRun.AdvancesIff` | docker/codex-compat-probe/auth-boundary-contract.js:396-512 | An open run moves on exactly by the right call with the right values; every other call leaves its state or ends it. |
| `AuthBoundaryRun.ConcludesIff` | docker/codex-compat-probe/auth-boundary-contract.js:435-546 | A call ends an open run with an outcome, a code and a time exactly under these conditions; a refused login is told from an uncertain one, and each failure keeps its code. |
| `AuthBoundaryRun.OutcomeHasItsCause` | docker/codex-compat-probe/auth-boundary-contract.js:600-609 | In every run the outcome was given by the one call that ended it. |
| `AuthBoundaryRun.RecordedAsGiven` | docker/codex-compat-probe/auth-boundary-contract.js:410-538 | Generation, times, request ids, login id and account state are those given by the call of that kind. |
| `AuthBoundaryRun.RpcRecordedAsGiven` | docker/codex-compat-probe/auth-boundary-contract.js:435-538 | The request diagnostic names the request, its id, its code and how it failed, as the call gave them. |
| `AuthBoundaryRun.MatchedAgainstGiven` | docker/codex-compat-probe/auth-boundary-contract.js:474-500 | The generation and login time that a completion is matched against were given by earlier calls of the run. |
| `AuthBoundaryRun.TornDownIff` | docker/codex-compat-probe/auth-boundary-contract.js:548-555 | Teardown is recorded exactly after an outcome and with all three parts gone, and otherwise nothing changes. |
| `AuthBoundaryRun.SuccessWasEarned` | docker/codex-compat-probe/auth-boundary-contract.js:474-538 | Success implies an accepted completion notification matching experiment, operation and generation, and a later account read with the id of the request sent. |
| `AuthBoundaryRun.AcceptedCompletionIsGenuineIff` | docker/codex-compat-probe/auth-boundary-contract.js:474-500 | An accepted completion carries the presented login id if and only if no earlier notification of this login made the run throw; otherwise it carries none. |
| `AuthBoundaryRun.NullLoginIsAccepted` | docker/codex-compat-probe/auth-boundary-contract.js:479-488 | The failing family: after such a throw a completion with a null login id is accepted. |
| `AuthBoundaryRun.ThrowLeavesNoTraceIff` | docker/codex-compat-probe/auth-boundary-contract.js:396-555 | A call that throws leaves the record exactly as it was, except when it forgets a held login id or when the callback of the checkpoint threw; then the run is waiting for the completion. |
| `AuthBoundaryRun.BoundaryRun.Preflight` | docker/codex-compat-probe/auth-boundary-contract.js:396-401 | Accepting the preflight is one step; a call that throws changes nothing. |
| `AuthBoundaryRun.BoundaryRun.IsolatedRuntime` | docker/codex-compat-probe/auth-boundary-contract.js:403-408 | Accepting the isolated runtime is one step; a call that throws changes nothing. |
| `AuthBoundaryRun.BoundaryRun.ServerInitialized` | docker/codex-compat-probe/auth-boundary-contract.js:410-421 | Recording the initialization is one step; a call that throws changes nothing. |
| `AuthBoundaryRun.BoundaryRun.StartLogin` | docker/codex-compat-probe/auth-boundary-contract.js:423-433 | Sending the login start is one step, possible once; a call that throws changes nothing. |
| `AuthBoundaryRun.BoundaryRun.Observe` | docker/codex-compat-probe/auth-boundary-contract.js:474-500 | Observing a notification in place is one step, keeps the record consistent, moves a waiting run on exactly for an acceptable completion, and with an unusable time forgets the id and throws. |
| `AuthBoundaryRun.BoundaryRun.Checkpoint` | docker/codex-compat-probe/auth-boundary-contract.js:446-472 | Presenting the checkpoint is one step, also when the callback throws. |
| `AuthBoundaryRun.BoundaryRun.LoginStartFailed` | docker/codex-compat-probe/auth-boundary-contract.js:435-444 | Recording a login start failure is one step; invalid evidence throws before anything changes. |
| `AuthBoundaryRun.BoundaryRun.StartAccountRead` | docker/codex-compat-probe/auth-boundary-contract.js:502-512 | Sending the account read is one step, possible once; a call that throws changes nothing. |
| `AuthBoundaryRun.BoundaryRun.AccountReadFailed` | docker/codex-compat-probe/auth-boundary-contract.js:514-526 | Recording an account read failure is one step; a call that throws changes nothing. |
| `AuthBoundaryRun.BoundaryRun.AccountReadReturned` | docker/codex-compat-probe/auth-boundary-contract.js:528-538 | Recording the account read is one step. |
| `AuthBoundaryRun.BoundaryRun.OutcomeIsUncertain` | docker/codex-compat-probe/auth-boundary-contract.js:540-546 | Giving up the wait is one step; a call that throws changes nothing. |
| `AuthBoundaryRun.BoundaryRun.TornDown` | docker/codex-compat-probe/auth-boundary-contract.js:548-555 | Teardown is accepted only after an outcome and with all three parts verified. |
| `McpGateway.CallsOfABindAgree` | apps/codex-mcp-gateway/src/index.js:173-196 | Over every interleaving each bind starts at most one dispatch, and all calls under one bind attach to it and get the same outcome. |
| `McpGateway.UnboundDispatchesFail` | apps/codex-mcp-gateway/src/index.js:101-102 | In every run a dispatch of a context without an effect fails for that reason. |
| `McpGateway.BindIsSafeIff` | apps/codex-mcp-gateway/src/index.js:213-225 | A rebind is safe, in that no continuation stores an invocation of an earlier effect, if and only if no call is in flight when it happens. |
| `McpGateway.RebindStoresForeignInvocation` | apps/codex-mcp-gateway/src/index.js:174-176 | From any state with a call in flight, a rebind can be followed by the earlier dispatch storing its invocation in the new context. |
| `McpGateway.DisciplinedRunsStoreTheBoundEffect` | apps/codex-mcp-gateway/src/index.js:173-226 | When rebinds find nothing in flight, the stored invocation always comes from the dispatch of the bound effect. |
| `McpGateway.Context.BindContext` | apps/codex-mcp-gateway/src/index.js:213-225 | A bind overwrites the context in place and forgets the dispatch; a malformed body changes nothing. |
| `McpGateway.Context.HandleToolsCall` | apps/codex-mcp-gateway/src/index.js:148-173 | Only an enabled, exact call reaches the memoised dispatch, which the first such call starts. |
| `McpGateway.Context.Answer` | apps/codex-mcp-gateway/src/index.js:174-196 | A settled call stores its invocation in the context bound by then. |
| `ContinuationTurn.AcceptedIff` | apps/codex-agent-runtime-worker/src/index.js:661-668 | A continuation turn is reported acknowledged without terminal failure if and only if it ended well on the requested model and its message is one JSON document that describes a success whose effect and run id, read by name, are those of the gateway’s stored, completed, acknowledged and undenied invocation. |
| `ContinuationTurn.ReportedAs` | apps/codex-agent-runtime-worker/src/appServerClient.js:1447-1516 | Every turn: when it is unknown or canceled, and for which of model, result, mismatch or provider error it is reported as failed, in that order. |
| `ContinuationTurn.ReportNames` | apps/codex-agent-runtime-worker/src/index.js:645-693 | The report carries the status word and exactly the invocation the gateway stored. |
| `ContinuationTurn.ReportCarries` | apps/codex-agent-runtime-worker/src/appServerClient.js:1447-1516 | The report carries the message, and the result exactly when it was judged and valid. |
| `ContinuationTurn.AcceptedMeansDispatched` | apps/codex-agent-runtime-worker/src/index.js:613-693 | Such a turn’s invocation was completed, acknowledged and not denied, is the one reported, raises no policy violation, and final selection picks the same result. |
| `ContinuationTurn.ViolationIff` | apps/codex-agent-runtime-worker/src/index.js:686-691 | A policy violation is raised exactly when a turn passes as completed although no invocation is stored, and never for a continuation turn. |
| `Authority.UniqueSortedIff` | packages/agents/src/canonical.js:28-30 | Lists are normalised alike if and only if they hold the same trimmed, non-blank values. |
| `Authority.ListsMeet` | packages/agents/src/authority.js:51-54 | Intersecting lists keeps exactly the values that all have, in canonical order. |
| `Authority.CombineIsMeet` | packages/agents/src/authority.js:113-140 | Combining surface entries gives their greatest lower bound, READ_ONLY and EXPLICIT_APPROVAL_REQUIRED meeting at DENY. |
| `Authority.BoundIsMeet` | packages/agents/src/authority.js:156-165 | The effective bound is the greatest lower bound, null meaning unbounded. |
| `Authority.EffectiveIsMeet` | packages/agents/src/authority.js:167-194 | Effective authority permits no transition of a denied surface, exceeds none of the three layers, and is the greatest such authority. |
| `Authority.EvaluationIsMeet` | packages/agents/src/authority.js:252-268 | Evaluating three raw layers yields the scope values that all three mean, and the greatest coherent authority below the three. |
| `Authority.LastEntryCounts` | packages/agents/src/authority.js:64-80 | From raw entries by their place: a surface that none names is denied; otherwise the last entry naming it counts, and an unknown mode denies. |
| `Authority.UnmentionedIsDenied` | packages/agents/src/authority.js:64-80 | A surface that any of the three raw layers does not mention is denied in the evaluation, and listed as denied. |
| `Authority.EvaluationFromRaw` | packages/agents/src/authority.js:88-165 | From raw bounds and transitions: a bound is unbounded exactly when all three miss it, negative and unusable values being zero; a transition is permitted exactly when all three list it and neither end is denied. |
| `Authority.ShrinkingNeverBroadens` | packages/agents/src/authority.js:233-268 | Shrinking a layer never broadens scopes, modes, bounds or transitions. |
| `Authority.ScopeListsAreSets` | packages/agents/src/authority.js:233-300 | Permuting, repeating or padding the scope values of the three raw layers changes nothing in the evaluation: normalised layers, effective authority, denials and differences are equal. |
| `Authority.DenialsAreExact` | packages/agents/src/authority.js:271-275 | The scope denials are exactly the requested values that some other layer does not have. |
| `Authority.SurfaceDenialsAreExact` | packages/agents/src/authority.js:276-278 | The surface denials are exactly the denied surfaces, each with its reason or the fixed one. |
| `Authority.DifferencesAreExact` | packages/agents/src/authority.js:200-231 | A difference is reported exactly for a requested value that is not effective, a surface whose mode changed, and a requested bound that is not the effective one, each with both sides. |
| `Authority.NoDifferencesIff` | packages/agents/src/authority.js:200-231 | No difference is reported if and only if requested scope values and surface modes are effective and every requested bound is the effective one. |
| `Authority.SilentBoundCutIff` | packages/agents/src/authority.js:223-231 | For each kind of bound: the effective one differs from the requested one without being reported if and only if none was requested and another layer sets one. |
| `Authority.UnboundedRequestIsNotReported` | packages/agents/src/authority.js:223-231 | An unbounded request that another layer cuts to zero, without any difference. |
| `Authority.NormalizeSurfaces` | packages/agents/src/authority.js:64-86 | The map-filling loops give every catalogued surface, in catalogue order, what its last raw entry says, and deny the rest. |
| `Authority.CollectDenials` | packages/agents/src/authority.js:269-278 | The nested loops push exactly the denials, in order. |

## Left out

- Hashes, HMAC fingerprints, UUIDs, clocks and timers: digests and fingerprints are uninterpreted, ids are fresh values, times are parameters, a timeout is a step.
- HTTP, sockets, DNS, child processes, Docker, Temporal, PostgreSQL and Playwright: only their calls appear, as steps or adapter answers.
- Shape tests by regular expressions (UUID, ISO date, SHA-256, SRI, host names): predicates or flags.
- Numbers in JSON are their decimal text: rounding to binary floating point and the printing of numbers are not modelled, nor are counters beyond 2^53 - 1 except where a lemma bounds them.
- `JSON.stringify` of unpaired surrogates follows well-formed stringification; `toJSON`, `undefined` and cyclic values do not occur.
- The UTF-8 tables behind `Buffer.byteLength` of a path: the encoder of package paths is an injective parameter; byte lengths of the protocol buffer are computed.
- `lstat` sizes that disagree with the bytes read, and directories that change during the walk.
- Projection of raw stage evidence, of preflight snapshots and of the isolated runtime: long conjunctions of field tests, represented by their verdict.
- What becomes of the proxy process when its diagnostics route throws: the reader gets no snapshot.
- The A/B stage state object and its counters: eight guarded assignments whose properties fall to enumeration.
- The Docker adapter beyond its guard on the candidate, and the parsing of stage markers.
- Diagnostics inside the app-server client (events list, RPC diagnostics, safe texts): projections of fields that no modelled decision reads.
- The open agent message in the answer of a wait's timer: the source shares that object with the record that replaced the captured one; nothing reads it from the answer.
- The identity of the record a waiter is handed: the model hands over the record as it completed, the source the live object, which later lines of the same chunk that name the turn may still change; `ProviderTurns.EndedTurnIsLeftAlone` says when that makes no difference.
- Interrupting, resuming and reconciling provider turns, and login and account notifications of the client.
- The order in which normalised transitions are listed, which depends on a locale, and their reasons.
- Additional denials, obligations, runtime identity and the digest of an authority snapshot: copied fields.
- The catalogue mapping, redaction, configuration, browser runners, admin pages and route tables: plumbing or per-row mapping.
- McpGateway.Context.HandleToolsCall: does not model the other methods of the gateway, which answer from constants.
- AbSequencer.AuthAbSequencer.Run: models one call after another; a second call on the same object while the first is suspended is not covered.
