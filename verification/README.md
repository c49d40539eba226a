# Agent Breadboard: a verified model

Agent Breadboard is a server for designing and running *circuits*, step graphs stored as files in a git
repository and executed by an orchestrator. This project models the parts of the server whose correctness
is not visible from any one function, and proves what they are meant to guarantee. Everything is Dafny 4.11;
`dafny verify dfyconfig.toml` checks the whole project.

## The modules

| file | what it models |
|---|---|
| `Circuits.dfy` | the circuit validator |
| `CircuitRuns.dfy` | runs of nested circuits over validated trees |
| `ConfigTree.dfy` | configuration trees: the validator's overlay, the index built for git, diff and replay |
| `ConfigRepo.dfy` | the repository: a growing commit graph, branches, merges |
| `Proposals.dfy` | the configuration service: direct commits and the life of a proposal, reverts, and every run of them |
| `Affected.dfy` | which circuits a proposal affects |
| `Anchors.dfy` | the quote locator and its normalisation with an offset map |
| `Dependencies.dfy` | the "waits on" graph and its depth-bounded cycle guard |
| `NeedInput.dfy` | need-input requests under concurrent callers, and the tags derived from them |
| `Paging.dfy` | keyset pagination, cursors and limits |
| `EventBus.dfy` | time-sortable event ids, the outbox and replay |
| `EventStream.dfy` | one server-sent-events connection: subscribe, buffer, replay, flush, dedupe |
| `ToolNames.dfy` | aliases for tool names and their inversion |
| `Conversation.dfy` | folding a chat history into alternating turns |
| `Replies.dfy` | replies: stored form, replay, and assembly from interleaved deltas |
| `Templates.dfy` | the prompt template parser |
| `Rendering.dfy` | rendering against nested scopes, and the static reference scan |
| `EvalRuns.dfy` | eval runs: a worker pool over a store, with stops, crashes and restarts |
| `Scoring.dfy` | rubric arithmetic |
| `Basics.dfy`, `Positions.dfy`, `Walks.dfy`, `Decimals.dfy` | shared vocabulary: options and distinct lists, ascending positions, walks over a relation, decimal numerals |

Code that changes state is modelled by classes and loops proved against specification functions; protocols
with several parties are modelled as step relations over values, each step one atomic action of the code.

## How the model reads the code

- Git, SQL, HTTP, the Bedrock SDK, clocks and randomness are parameters, abstract functions or arbitrary
  steps. The result of a three-way merge is any well-formed tree or a conflict. Clock readings are any numbers.
- What the configuration validator asks beyond routing (JSON schemas, prompts, templates, presets) enters
  `Proposals` as an arbitrary predicate on trees that ignores INDEX.md, as the validator does.
- Everything done under a lock or in one transaction is one step.
- Strings are sequences of characters, not UTF-16 code units; lowercasing and white space in `Anchors` are
  arbitrary functions with the few facts stated in `Sane`. Numbers in `Scoring` and `Paging` are reals.
- Optional strings that the code tests by truth value are modelled as possibly empty strings.

## What the proofs found

Where the code and its comments differ, the model follows the code.

- The index builder's comment (`packages/server/src/config/repo.ts:360`) promises to clear shadowing in both
  directions; only a file where a directory is needed is cleared. A file over a directory is refused by git.
  So the committed tree can differ from the validated overlay (exactly when: `CommittedIsOverlayIff`), a
  validated direct commit can leave `main` invalid (`ShadowedCommitBreaksMain`), and the rollback of a merge is
  refused exactly when the merged tree has a directory where the previous one had a file (`ReplayGivesTarget`,
  `MergeKeepsStrictIff`).
- The validator accepts a circuit that starts itself, whose exits no run ever reaches (`SelfNestingIsAccepted`);
  which declared exits runs do reach is `ExitTakenIff`.
- The dependency guard searches 50 levels and misses cycles of 52 edges (`GuardMissesLongCycle`).
- The stream's memory of sent ids is emptied after 5001 frames, and a replay holds at most 500 events
  (`LateNotificationRepeats`, `PageIsEverything`).
- Event ids wrap at 32^9 milliseconds (`IdsWrap`).
- The locator's normalised-context tier can answer an offset that is not an occurrence of the quote
  (`LandingIsOccurrenceIff`), and characters that lowercase to several, and only they, mislead the fuzzy tier
  (`LongLowercaseMisleads`, `FuzzyHitsReadAsQuotesIff`).
- The reference scan passes over every path that begins with `this`, so `{{thistle}}` is not reported
  (`InsertScanIff`).
- Nothing requires fixture ids to be distinct; a repeated id is scored twice in one run (`NeverRescoredIff`).
- "A session that never produced an output cannot pass" fails for a gate of 0 (`FailedPassesIff`).
- A revert is committed to `main` even when its tree is invalid (`RevertKeeps`).
- A page limit strictly between 0 and 1 is clamped to 0, and listing then fails (`ClampedLimitPositiveIff`, `List`).

## Model

| member | source | states |
|---|---|---|
| `Circuits.CheckExits` | packages/server/src/config/service.ts:460-472 | The exits of a step are reported exactly when declared twice, routed to an undeclared circuit exit or to an unknown step; the routed exits and successor steps collected are exactly the valid ones. |
| `Circuits.CheckGate` | packages/server/src/config/service.ts:474-476 | A gate is reported exactly for a missing `approve` or `changes` exit. |
| `Circuits.CheckSubCircuit` | packages/server/src/config/service.ts:501-513 | A sub-circuit step is reported exactly when an exit-map key is no exit of the child, the map is not injective on the child's exits, or the mapped exits and the declared exits differ as sets. |
| `Circuits.ExitMapMeans` | packages/server/src/config/service.ts:502-511 | Told by the exit map itself: an exit of the child in the map is expected under the name it is mapped to, any other under its own, and it is reported missing exactly when the step declares no exit of that name. |
| `Circuits.ExtraExitIff` | packages/server/src/config/service.ts:509-512 | A declared exit is superfluous exactly when no exit of the child is mapped to it and no unmapped one has its name. |
| `Circuits.CollapsesIff` | packages/server/src/config/service.ts:506-508 | The exit map collapses exactly when two exits of the child are expected under one name. |
| `Circuits.ReachableFrom` | packages/server/src/config/service.ts:518-527 | The breadth-first search returns exactly the steps that some walk over the adjacency map leads to; it terminates on cyclic graphs. |
| `Circuits.ValidateCircuit` | packages/server/src/config/service.ts:437-535 | Errors and warnings are exactly the declared issues of the circuit, and unreachability means that no walk from the entry exists; on a work-in-progress branch it moves to the warnings and nothing else changes. |
| `Circuits.CheckReferences` | packages/server/src/config/service.ts:365-373 | Exactly the sub-circuit steps whose reference does not resolve to a circuit are reported. |
| `Circuits.ValidateModel` | packages/server/src/config/service.ts:365-535 | A tree is accepted exactly when it is strictly valid: no circuit has an issue. |
| `CircuitRuns.RouteSound` | packages/server/src/orchestrator/orchestrator.ts:570-581 | In a strictly valid tree, leaving a step through any exit it declares finds the step, the exit and the target. |
| `CircuitRuns.RouteFollows` | packages/server/src/orchestrator/orchestrator.ts:570-581 | Leaving a step by an exit name takes the exit declared with it: out of the circuit for a `$exit.` target, else to the step named, the stack below untouched. |
| `CircuitRuns.RouteStuckIff` | packages/server/src/orchestrator/orchestrator.ts:570-581 | On any tree, leaving a step finds nothing exactly when the step, the exit of that name, or the declared exit or step it leads to is missing. |
| `CircuitRuns.ResumeFollows` | packages/server/src/orchestrator/orchestrator.ts:853-874 | A child that completes through an exit makes the waiting step continue at exactly one of its declared exits: the one the exit map names, or the one of the same name when the map is silent. |
| `CircuitRuns.ResumeSound` | packages/server/src/orchestrator/orchestrator.ts:853-855 | So handing a child's exit on never goes wrong, at any depth. |
| `CircuitRuns.RunsNeverStuck` | packages/server/src/orchestrator/orchestrator.ts:570-600 | No run of nested circuits over a strictly valid tree, however deep and whatever exits are chosen, meets an unknown step, an undeclared circuit exit or an unmapped child exit; a finished run left through a declared exit of its own circuit. |
| `CircuitRuns.RunsProgress` | packages/server/src/orchestrator/orchestrator.ts:583-600 | A run that is not finished can move. |
| `CircuitRuns.ExitHasPath` | packages/server/src/config/service.ts:515-534 | Each declared exit is routed to by a step that the entry reaches. |
| `CircuitRuns.ExitTakenIff` | packages/server/src/orchestrator/orchestrator.ts:822-874 | Some run of a circuit leaves through a given exit, on whatever stack of waiting sessions, exactly when the exit is live: the least solution of rules over declarations alone, an ordinary step leaving through any exit it declares and a sub-circuit step through the mapped live exits of its child. No condition on the tree. |
| `CircuitRuns.ExitsTaken` | packages/server/src/orchestrator/orchestrator.ts:822-874 | When nesting is well-founded, every declared exit of every circuit is the outcome of some run, through whole sub-circuit runs and on any stack of waiting sessions. |
| `CircuitRuns.SelfEntryNeverExits` | packages/server/src/orchestrator/orchestrator.ts:822-848 | A circuit whose entry step starts the circuit itself reaches no exit in any run. |
| `CircuitRuns.SelfNestingIsAccepted` | packages/server/src/config/service.ts:501-534 | The validator accepts such a circuit, so well-founded nesting is a condition on trees that validation does not establish. |
| `ConfigTree.OverlayTree` | packages/server/src/config/service.ts:882-897 | The overlay the validator reads (a file list plus overridden contents) is the base tree with the last change of each path applied. |
| `ConfigTree.LastChangeWins` | packages/server/src/config/service.ts:882-897 | Path by path, the overlay holds what the last change of the path says: its content, or nothing for a delete. |
| `ConfigTree.UntouchedStays` | packages/server/src/config/service.ts:882-897 | And the base tree's entry where no change names the path. |
| `ConfigTree.BuildIndex` | packages/server/src/config/repo.ts:344-380 | The tree written to git is the changes applied in order, each addition first clearing files that shadow it. |
| `ConfigTree.BuildKeepsTreesWellFormed` | packages/server/src/config/repo.ts:344-380 | Whatever the change list, a tree that is built has no path that is both file and directory. |
| `ConfigTree.OverlayIsCommitted` | packages/server/src/config/repo.ts:352-366 | The validated overlay is the committed tree for any change list, with repeated paths and deletes of absent paths, when no path involved is a directory prefix of another. |
| `ConfigTree.CommittedIsOverlayIff` | packages/server/src/config/repo.ts:352-380 | For every change list, repeated paths included: what git accepts equals the overlay if and only if no entry the overlay holds is used as a directory after it was last added. |
| `ConfigTree.UnrepeatedIsOverlayIff` | packages/server/src/config/repo.ts:352-380 | When each path is named once the overlay itself decides: they are equal if and only if it uses no file as a directory. |
| `ConfigTree.ShadowedOverlayDiffers` | packages/server/src/config/repo.ts:360-362 | A file added below an existing file: the overlay keeps both, the committed tree keeps one. |
| `ConfigTree.BuildKeepsUnlost` | packages/server/src/config/repo.ts:372-380 | For every change list, the tree built holds exactly the entries of the overlay that no later addition uses as a directory, with the overlay's contents. |
| `ConfigTree.Diff` | packages/server/src/config/repo.ts:413-416 | The diff names every differing path once, a path before anything inside it. |
| `ConfigTree.ReplayGivesTarget` | packages/server/src/config/service.ts:1303-1308 | Replaying diff(a, b) over a yields exactly b, or is refused, and refused exactly when b has a file where a has a directory. |
| `ConfigTree.ReplayRebases` | packages/server/src/config/service.ts:1268-1274 | A branch's replayed diff over any tree takes from the branch head exactly the paths the branch changed and keeps the rest. |
| `ConfigRepo.AncestorTransitive` | packages/server/src/config/repo.ts:441-444 | Ancestry composes along commits. |
| `ConfigRepo.AncestorStable` | packages/server/src/config/repo.ts:337-340 | Adding commits changes no ancestry among earlier ones. |
| `ConfigRepo.AncestorIff` | packages/server/src/config/repo.ts:441-444 | A commit is an ancestor of another exactly when a chain of parents leads to it. |
| `ConfigRepo.Repo.CommitChanges` | packages/server/src/config/repo.ts:328-341 | One new commit on exactly one branch, its parent the old tip, its tree the changes built over the parent; or nothing at all when git refuses. |
| `ConfigRepo.Repo.DeleteBranch` | packages/server/src/config/repo.ts:400-406 | Removes one branch, present or not; refused exactly for main. |
| `ConfigRepo.Repo.Merge` | packages/server/src/config/repo.ts:418-439 | Main stays, moves forward to the branch head, or gets a merge commit with both parents; a conflict changes nothing; the result always descends from both sides. |
| `Proposals.ValidationMeans` | packages/server/src/config/service.ts:1122-1151 | Validation of a change list asks the rules for main, or the weaker ones for a branch, of the overlay without INDEX.md, and that no definition vanishes. |
| `Proposals.ConfigService.CommitDirect` | packages/server/src/config/service.ts:1122-1135 | Rejected exactly when the overlay without INDEX.md breaks the rules for main or a definition vanishes, refused exactly when git cannot build the tree, and then nothing changed; otherwise main is that tree, and it is the validated overlay with a current INDEX.md, strictly valid, when no entry kept is used as a directory. |
| `Proposals.ConfigService.Propose` | packages/server/src/config/service.ts:1146-1164 | Rejected exactly when the overlay without INDEX.md breaks the rules for branches or a definition vanishes; main is untouched; the new row and its branch agree, and the branch holds the changes built over the base. |
| `Proposals.ConfigService.AmendProposal` | packages/server/src/config/service.ts:1245-1255 | Only a draft or an open proposal is amended, and only when the overlay on its head keeps the rules for branches and no definition vanishes; its row and branch move to the same new commit, which descends from the old head. |
| `Proposals.ConfigService.SubmitProposal` | packages/server/src/config/service.ts:1331-1340 | Exactly a draft becomes open; nothing else changes. |
| `Proposals.ConfigService.DiscardProposal` | packages/server/src/config/service.ts:1319-1329 | Exactly a live proposal becomes discarded and loses its branch; main is untouched. |
| `Proposals.ConfigService.RestoreTree` | packages/server/src/config/service.ts:1303-1308 | Main gets a new commit with exactly the wanted tree, or git refuses and nothing changes, exactly when a wanted file sits where main has a directory. |
| `Proposals.ConfigService.RegenerateIndex` | packages/server/src/config/service.ts:1310-1317 | Main differs from before at most in INDEX.md, which is current afterwards; or git refuses, exactly when the tree has a directory of that name, and nothing changes. |
| `Proposals.ConfigService.StillValidates` | packages/server/src/config/service.ts:1268-1274 | The pre-merge check passes when main has not moved from the base or is the head, and otherwise exactly when main with the branch's own changes put over it is strictly valid and loses no definition by them. |
| `Proposals.ConfigService.MergeProposal` | packages/server/src/config/service.ts:1257-1301 | Whatever the three-way merge returns: done means a strictly valid main with a current index that descends from the proposal's head; a merge failing its post-check leaves exactly the previous tree unless git refuses the rollback; every other failure changes nothing. |
| `Proposals.ConfigService.Revert` | packages/server/src/config/service.ts:1406-1418 | A revert is committed whether or not its tree validates, with a current INDEX.md on top unless that names a directory; a revert git refuses changes nothing. |
| `Proposals.RevertKeeps` | packages/server/src/config/service.ts:1406-1418 | A revert moves main forward and leaves it valid exactly when the reverted tree is. |
| `Proposals.LaterStep` | packages/server/src/config/service.ts:1122-1340 | What one locked operation keeps composes: descent of main, finality of closed proposals, forward statuses. |
| `Proposals.PerformKeeps` | packages/server/src/config/service.ts:1122-1418 | Each of the seven operations, as its method performs it, leaves a consistent repository and rows (a live proposal's head is its branch), moves main only to a descendant, and changes rows only along draft, open, merged or discarded. |
| `Proposals.MergeKeepsStrictIff` | packages/server/src/config/service.ts:1257-1308 | A merge leaves a valid main valid exactly unless it goes ahead, its tree is invalid, and that tree has a directory where main had a file. |
| `Proposals.PerformKeepsStrict` | packages/server/src/config/service.ts:1122-1418 | Each operation keeps main strictly valid, outside three cases a caller can test beforehand: a direct commit that uses an entry it keeps as a directory, a three-way tree that is invalid and has a directory where main has a file, and a revert to an invalid tree. |
| `Proposals.RunsMoveForward` | packages/server/src/config/service.ts:1122-1418 | Over every run of the operations, unsafe ones included: main descends from every earlier main, live proposals' heads are their branches, closed proposals never change, statuses only move forward. |
| `Proposals.RunsKeepMainValid` | packages/server/src/config/service.ts:1122-1418 | Over every run of the operations from a valid main that avoids the three unsafe cases, main is strictly valid at each release of the lock. |
| `Proposals.CommittedWithIndex` | packages/server/src/config/service.ts:1127-1130 | Committing changes together with the index change writes the overlay plus a current INDEX.md whenever git accepts it and nothing kept is used as a directory. |
| `Proposals.ShadowedCommitBreaksMain` | packages/server/src/config/service.ts:1125-1130 | A validated direct commit that uses a kept entry as a directory can leave main invalid: a concrete tree, change and rule set. |
| `Affected.Parents` | packages/server/src/config/service.ts:1386-1391 | The parents queued for an item are exactly those along head references from another circuit, subagent or tool. |
| `Affected.UpIff` | packages/server/src/config/service.ts:1386-1391 | What one reference passes on: to another circuit, subagent or tool that refers to the item, under the same reason, an edited circuit by its name. |
| `Affected.OwnedSeedMeans` | packages/server/src/config/service.ts:1358-1366 | The owner of a changed file is queued, a circuit as changed and anything else by its kind and name. |
| `Affected.HitCollects` | packages/server/src/config/service.ts:1349-1357 | Recording hits gives the same result in any order: `changed` alone if it was hit, otherwise each reason once. |
| `Affected.Propagate` | packages/server/src/config/service.ts:1380-1392 | The worklist ends on any reference graph, cycles included, having met exactly the items that chains of references reach from the seeds. |
| `Affected.Seeds` | packages/server/src/config/service.ts:1358-1378 | The queue starts with exactly the owners of changed files and the subagents on a changed preset tier. |
| `Affected.AffectedCircuits` | packages/server/src/config/service.ts:1342-1393 | The circuits listed are exactly those that reach a change, plus all circuits when tenets changed; the reasons of each are exactly the reasons there are. |
| `Affected.DirectlyChanged` | packages/server/src/config/service.ts:1354-1355 | A circuit is reached as `changed` exactly when a file it owns changed. |
| `Anchors.NormalizeWithMap` | packages/server/src/content/service.ts:181-205 | The loop computes the normal form and its offset map. |
| `Anchors.MapShape` | packages/server/src/content/service.ts:181-205 | The map has the length of the normal form, stays in range, never decreases, and names the source of each character; it is strictly increasing exactly when no kept character lowercases to several. |
| `Anchors.NormIdempotent` | packages/server/src/content/service.ts:181-205 | Normalising twice is normalising once. |
| `Anchors.AllIndexes` | packages/server/src/content/service.ts:167-176 | All occurrences are found, overlapping ones too, in order. |
| `Anchors.ExactIsNormalised` | packages/server/src/content/service.ts:221-246 | Every exact occurrence of a quote is also an occurrence of its normal form in the normalised text. |
| `Anchors.FuzzyHitReadsAsQuote` | packages/server/src/content/service.ts:243-255 | The offset of a fuzzy hit starts a source passage that normalises to the normalised quote. |
| `Anchors.FuzzyHitsReadAsQuotesIff` | packages/server/src/content/service.ts:243-255 | In a text, every fuzzy hit of every quote starts a passage that reads as the quote exactly when no kept character of the text lowercases to several. |
| `Anchors.LongLowercaseMisleads` | packages/server/src/content/service.ts:193-198 | With a character that lowercases to several the fuzzy tier can return an offset that starts no such passage: a concrete text. |
| `Anchors.LandingIsOccurrenceIff` | packages/server/src/content/service.ts:228-237 | The normalised-context tier returns an exact occurrence exactly when the first character of the quote adds something to the normal form after what stands before the occurrence. |
| `Anchors.LandingCharacters` | packages/server/src/content/service.ts:232-235 | Between an exact occurrence and the offset that tier returns, nothing was kept. |
| `Anchors.ResolvesOnlyUniqueMatch` | packages/server/src/content/service.ts:218-256 | Without context a quote resolves exactly to the only place it occurs, or, when it does not occur verbatim, to the source of the only place its normal form occurs. |
| `Anchors.UnmappableIff` | packages/server/src/content/service.ts:218-246 | Nothing can be mapped exactly when text or quote is white space, or a quote that does not occur has an empty normal form. |
| `Anchors.NotFoundIff` | packages/server/src/content/service.ts:218-247 | Nothing is found exactly when, with something to map, neither the quote nor its normal form occurs. |
| `Anchors.SingleMatchResolves` | packages/server/src/content/service.ts:221-255 | The only place of the quote, or of its normal form when it does not occur verbatim, is the answer whatever the context. |
| `Anchors.InContextIff` | packages/server/src/content/service.ts:207-209 | The context counts as being around a passage exactly when it occurs starting no further before it, and ending no further after it, than it is long. |
| `Anchors.ContextDecides` | packages/server/src/content/service.ts:223-231 | With several exact occurrences, some with the context around them, a quote resolves exactly when only one of them has it, and to that one. |
| `Anchors.LandingContextDecides` | packages/server/src/content/service.ts:228-237 | With several exact occurrences, none carrying the context verbatim, a quote resolves exactly when only one occurrence lands in the normalised context, counting occurrences and not landings, and to the source of that landing. |
| `Anchors.NormalizedContextDecides` | packages/server/src/content/service.ts:243-255 | With several occurrences of the normal form only, a quote resolves exactly when only one of them carries the normalised context, and to the source of that one. |
| `Anchors.NeverGuesses` | packages/server/src/content/service.ts:218-256 | Whatever tier answered, a resolved offset starts a passage that reads as the quote once normalised. |
| `Dependencies.EdgeTable.WaitsTransitively` | packages/server/src/content/service.ts:746-758 | The recursive query answers exactly whether one node waits on another through at most 50 edges. |
| `Dependencies.EdgeTable.EmitEdge` | packages/server/src/content/service.ts:711-743 | An edge is appended exactly when it is admissible, new and closes no circle within the depth; an existing edge is returned; the table keeps its guard. |
| `Dependencies.EdgeTable.RetractEdge` | packages/server/src/content/service.ts:760-769 | One active edge becomes retracted, exactly when it exists, both its ends are visible, it does not come from the indexer, and it is not orchestrator-owned unless a service asks. |
| `Dependencies.NewEdgeKeepsShortCyclesOut` | packages/server/src/content/service.ts:726-730 | If the new edge closes no path of at most `depth`, no cycle of length `depth + 1` or less appears, even one through the new edge several times. |
| `Dependencies.SmallGraphsAreAcyclic` | packages/server/src/content/service.ts:745-758 | Excluding cycles up to the number of nodes excludes all cycles. |
| `Dependencies.StepKeepsShortCyclesOut` | packages/server/src/content/service.ts:711-769 | Each emission or retraction keeps short cycles out. |
| `Dependencies.RunsStayFreeOfShortCycles` | packages/server/src/content/service.ts:711-769 | Over any run, nothing waits on itself through 51 edges or fewer; with at most 51 nodes, nothing waits on itself at all. |
| `Dependencies.GuardMissesLongCycle` | packages/server/src/content/service.ts:753-753 | A cycle of 52 edges passes the guard: the bound is sharp. |
| `EventBus.Crockford` | packages/server/src/events/bus.ts:55-62 | The loop writes the last `len` base-32 digits of a number. |
| `EventBus.DigitsOrder` | packages/server/src/events/bus.ts:55-62 | Fixed-width digits compare in byte order exactly as the numbers modulo 32^len. |
| `EventBus.Minter.Mint` | packages/server/src/events/bus.ts:69-85 | An id is the next stamp of the clock sequence followed by random digits, and is well formed. |
| `EventBus.WellFormedIff` | packages/server/src/events/bus.ts:51-51 | A well-formed id is `evt_` and twenty digits or capitals other than I, L, O and U. |
| `EventBus.StampsAscend` | packages/server/src/events/bus.ts:70-81 | Stamps strictly increase for any clock: stalled, jumping back, or overflowing the sequence. |
| `EventBus.IdOrder` | packages/server/src/events/bus.ts:84-84 | Ids compare by milliseconds modulo 32^9, then sequence, then random tail. |
| `EventBus.MintedIdsAscend` | packages/server/src/events/bus.ts:69-85 | For any clock, later ids are strictly greater in byte order while milliseconds are below 32^9. |
| `EventBus.IdsWrap` | packages/server/src/events/bus.ts:84-84 | At 32^9 milliseconds the order wraps. |
| `EventBus.Outbox.Replay` | packages/server/src/events/bus.ts:139-152 | Replay returns exactly the first n events after a well-formed id in byte order, nothing for any other id, and without an id the n latest events, oldest first. |
| `EventBus.ReplayIsPublishOrder` | packages/server/src/events/bus.ts:69-152 | Under any clock, replay after a minted id is exactly the first n later-minted events still present, in the order they were minted. |
| `EventStream.NotifyKeeps` | packages/server/src/api/events.ts:57-61 | A live notification keeps the delivery invariant: held back while replaying, afterwards written if wanted, open and not yet written. |
| `EventStream.SendKeepsDeduplicated` | packages/server/src/api/events.ts:51-56 | Sending keeps the frames free of repetitions as long as there are at most 5001 of them, and the memory of sent ids exact up to 5000. |
| `EventStream.SendsDeliver` | packages/server/src/api/events.ts:51-56 | Sending a list to an open connection only appends, and afterwards exactly the frames from before and the list are written; to a closed one it does nothing. |
| `EventStream.Connection.Resume` | packages/server/src/api/events.ts:77-88 | After the replay query, its wanted events are sent and then everything held back; also when the query failed. |
| `EventStream.StepKeeps` | packages/server/src/api/events.ts:48-88 | Every interleaving of publish, notify, subscribe, query, flush and disconnect keeps the delivery invariant. |
| `EventStream.DeliversExactly` | packages/server/src/api/events.ts:48-88 | Whatever id the client resumes at: once live, an open connection has written exactly the wanted events that the replay answered or that were notified after it subscribed, none twice within 5001 frames; without a well-formed id the replay adds nothing. |
| `EventStream.DeliversInOrder` | packages/server/src/api/events.ts:48-88 | And in order, up to 5001 frames: first the wanted events of the replay page in the order of their ids, then the others, none of them in the page, in the order they were notified, held back or not. |
| `EventStream.NothingLost` | packages/server/src/api/events.ts:48-88 | A wanted event is written if it was notified after subscribing, whatever became of the replay, or if it was waiting after a well-formed id when the query ran, among at most 500. |
| `EventStream.PageIsEverything` | packages/server/src/events/bus.ts:140-148 | The replay page misses nothing exactly when at most 500 events were waiting. |
| `EventStream.LateNotificationRepeats` | packages/server/src/api/events.ts:54-54 | After 5001 distinct frames the memory is emptied and a late notification is written a second time. |
| `ToolNames.Alias` | packages/server/src/gateway/bedrock.ts:207-209 | The search for a free alias ends for every set of names in use and returns the first free candidate. |
| `ToolNames.CandidateMeans` | packages/server/src/gateway/bedrock.ts:207-209 | The names tried after the base are the base, an underscore and a number counting from 2. |
| `ToolNames.ToolNameAliases` | packages/server/src/gateway/bedrock.ts:201-213 | No alias map exactly when the model needs none; otherwise each entry of the list, in order, is given the first candidate not given before. |
| `ToolNames.HandedOutUnique` | packages/server/src/gateway/bedrock.ts:204-211 | The list of names determines the aliases. |
| `ToolNames.AliasesInvert` | packages/server/src/gateway/bedrock.ts:201-213 | Distinct names have distinct aliases, all within letters, digits and underscores. |
| `ToolNames.Invert` | packages/server/src/gateway/bedrock.ts:437-437 | The map turned around has an original name for exactly the aliases in use. |
| `ToolNames.OfferedToolsComeBack` | packages/server/src/gateway/bedrock.ts:322-323 | Whatever was sent for an offered tool is read back as that tool, and every name sent is a word, offered or not. |
| `Conversation.PartIsSent` | packages/server/src/gateway/bedrock.ts:236-263 | How each kind of content is sent: empty texts dropped, system texts marked, tool names rewritten, error results marked by status or by text as the model family takes it, thoughts only to their own model and prefix. |
| `Conversation.MessageSpeaks` | packages/server/src/gateway/bedrock.ts:270-276 | A message speaks for the assistant exactly when its role says so, and its blocks keep their order. |
| `Conversation.TranscriptSplits` | packages/server/src/gateway/bedrock.ts:270-279 | Messages follow each other in the request as in the history. |
| `Conversation.GroupsUnique` | packages/server/src/gateway/bedrock.ts:267-286 | A transcript has exactly one division into non-empty alternating turns. |
| `Conversation.StablePartition` | packages/server/src/gateway/bedrock.ts:278-283 | The rearrangement puts tool results first and keeps every block and the order within each kind. |
| `Conversation.ToConverseMessages` | packages/server/src/gateway/bedrock.ts:267-286 | The request is the one division of the mapped history into alternating turns, rearranged, with a placeholder in front when the user does not open: nothing lost, doubled or reordered beyond that. |
| `Conversation.RequestsAreWellFormed` | packages/server/src/gateway/bedrock.ts:267-286 | Every request is non-empty, opens with the user, alternates, has no empty turn, and in user turns results precede everything else. |
| `Conversation.TurnsSent` | packages/server/src/gateway/bedrock.ts:278-285 | The turns sent are those of the history, user turns with their results first and each kind in its order, after the placeholder exactly when the history does not open with the user. |
| `Conversation.ThoughtsAreReplayable` | packages/server/src/gateway/bedrock.ts:231-242 | Every reasoning block sent was stored by the same model, under the same prefix or with none recorded. |
| `Replies.BlockIsStored` | packages/server/src/gateway/bedrock.ts:397-412 | What is stored of each kind of block: non-empty texts, tool calls under the restored name, thoughts with the model and prefix they came under. |
| `Replies.YieldsSplit` | packages/server/src/gateway/bedrock.ts:597-602 | Every text delta is passed on as it arrives, and nothing else. |
| `Replies.BlocksAreIndependent` | packages/server/src/gateway/bedrock.ts:589-611 | What is received at one block index depends on that index's events alone. |
| `Replies.ChunksReceived` | packages/server/src/gateway/bedrock.ts:590-639 | However a block is cut into deltas, what is received is the block; only an empty text may be missing. |
| `Replies.Assemble` | packages/server/src/gateway/bedrock.ts:586-640 | The streamed reply lists the received blocks in index order. |
| `Replies.StreamEqualsOneShot` | packages/server/src/gateway/bedrock.ts:576-650 | Any delivery of a message, interleaved across blocks in any way, is stored as the message would be in one piece. |
| `Replies.StreamReply` | packages/server/src/gateway/bedrock.ts:576-650 | The streaming call passes on every text delta as it arrives and returns the content of any message the events deliver. |
| `Replies.RepliesReplayVerbatim` | packages/server/src/gateway/bedrock.ts:397-412 | Storing a reply and replaying it to the same model under the same prefix sends the same blocks, thoughts included. |
| `Replies.BlockReplaysIff` | packages/server/src/gateway/bedrock.ts:405-408 | One block is replayed verbatim exactly unless it is an encrypted thought without data. |
| `Templates.Tokenize` | packages/shared/src/template.ts:60-66 | The matches of the tag pattern and the text between them, in order. |
| `Templates.TrimMeans` | packages/shared/src/template.ts:64-64 | Trimming takes off exactly the white space at both ends. |
| `Templates.ParseBlock` | packages/shared/src/template.ts:69-114 | The cursor-driven parser computes the grammar's reading of the tokens and terminates on every token list. |
| `Templates.TagReads` | packages/shared/src/template.ts:79-112 | How a tag on its own is read: a comment as nothing, a knowledge tag as text, an opener or closer as an error, anything else as an insert. |
| `Templates.TreeSpellsTokens` | packages/shared/src/template.ts:69-114 | The tree of a parsed block spells exactly the tokens it was read from, up to comments, spacing inside tags and any `else`, separator or stray, right before a closing `/if`. |
| `Templates.PrintedParsesBack` | packages/shared/src/template.ts:69-114 | Printing any canonical tree and parsing the tokens gives the tree back, in any surroundings. |
| `Templates.ExampleIsCanonical` | packages/shared/src/template.ts:69-114 | There are canonical trees whose tokens can be written: one with a condition, both branches and an insert. |
| `Templates.WrittenTokensReadBack` | packages/shared/src/template.ts:60-66 | Writing out any token list without adjacent texts or early tag ends and tokenizing the source gives the list back, in any surroundings. |
| `Templates.SourceRoundTrip` | packages/shared/src/template.ts:59-115 | A canonical tree written as source text, tokenized and parsed is the tree again. |
| `Rendering.ResolvePath` | packages/shared/src/template.ts:34-46 | Innermost scope first, outward; `this` and `.` are the last scope. |
| `Rendering.KeyMeans` | packages/shared/src/template.ts:34-36 | White space around a path and one leading dollar do not count. |
| `Rendering.SegmentsAtDot` | packages/shared/src/template.ts:38-38 | Dots separate the segments of a path, and empty segments do not count. |
| `Rendering.PathSegsMean` | packages/shared/src/template.ts:38-39 | A path that goes on from `this` is read as what follows it. |
| `Rendering.SearchMeans` | packages/shared/src/template.ts:40-45 | A lookup answers with the innermost scope that has the path, and with nothing when none has. |
| `Rendering.WalkSplits` | packages/shared/src/template.ts:48-57 | A path of several segments is followed one at a time. |
| `Rendering.MemberMeans` | packages/shared/src/template.ts:50-55 | One segment is a position or the length in an array, a field in an object, and nothing elsewhere. |
| `Rendering.RenderBlock` | packages/shared/src/template.ts:131-156 | The rendering loops compute the compositional meaning of the tree. |
| `Rendering.RenderSplits` | packages/shared/src/template.ts:131-156 | Nodes render one after the other. |
| `Rendering.InsertRendersValue` | packages/shared/src/template.ts:124-129 | What an insert writes for each kind of value: nothing for no value, text as it is, JSON on request and for lists and records. |
| `Rendering.IfRenders` | packages/shared/src/template.ts:117-142 | An `if` renders its second branch for exactly six values (nothing, null, false, zero, the empty text, the empty list), and its first for every other. |
| `Rendering.EachRenders` | packages/shared/src/template.ts:144-152 | A loop renders its body once per item of an array or field of an object, in order, with the position and the item as innermost scopes. |
| `Rendering.LoopNamesMean` | packages/shared/src/template.ts:147-149 | Inside a loop `this` is the item, and `@index`, `@first`, `@last` tell its position unless the item has such a field. |
| `Rendering.LoopOverTexts` | packages/shared/src/template.ts:131-156 | A loop that inserts `this` over a list of texts writes them one after the other. |
| `Rendering.TemplateReferences` | packages/shared/src/template.ts:159-173 | The scan returns the references of all tags of the source. |
| `Rendering.ScanReadsTheTree` | packages/shared/src/template.ts:159-173 | The flat scan reports exactly the paths of the syntax tree that are neither skipped nor a stray `else`. |
| `Rendering.RenderAgrees` | packages/shared/src/template.ts:131-156 | Contexts that agree on the reported paths render alike through any nesting of loops and branches. |
| `Rendering.StaticReferencesSound` | packages/shared/src/template.ts:159-173 | From source to output: contexts agreeing on what the scan reports render identically, when every lookup is reported or bound by an enclosing loop. |
| `Rendering.LoopCovered` | packages/shared/src/template.ts:159-173 | A loop that inserts its item or its position is such a template, as long as the path it runs over is reported. |
| `Rendering.InsertScanIff` | packages/shared/src/template.ts:163-170 | For a template that is one insert, the reported references determine the output exactly unless the path begins with `this` or `@` or is `else`. |
| `EvalRuns.Results.ScoreFixture` | packages/server/src/evals/service.ts:310-335 | All dimensions are written before the aggregate, programmatic ones first. |
| `EvalRuns.WriteOrderMeans` | packages/server/src/evals/service.ts:310-335 | Every dimension of the rubric is written once, programmatic ones first, and each kind in the order of the rubric. |
| `EvalRuns.EnqueueMeans` | packages/server/src/evals/service.ts:246-262 | Starting a session queues its fixture or records the error, one after the other. |
| `EvalRuns.FailMeans` | packages/server/src/evals/service.ts:275-293 | A job that fails leaves its error behind unless the run was stopped, frees its worker and writes nothing. |
| `EvalRuns.RecoverTakesUp` | packages/server/src/evals/service.ts:186-207 | A process that takes up a run queues exactly the sessions not scored and changes no result. |
| `EvalRuns.EndingsMean` | packages/server/src/evals/service.ts:186-301 | A stop and a crash leave the run running with all its results; only an unhandled failure, or one to take it up, fails it. |
| `EvalRuns.StepKeeps` | packages/server/src/evals/service.ts:186-335 | Every step of every worker, and every stop, crash, restart and failure, keeps the invariant. |
| `EvalRuns.RunsAreSound` | packages/server/src/evals/service.ts:186-335 | In every reachable state, for any manifest: an aggregate has all its dimensions, as many workers as entries run but never more than `limit` (at least one), no two on the same entry, and a completed run has every session scored or reported; and a scored fixture is never written again when no id is repeated. |
| `EvalRuns.DrainedCovers` | packages/server/src/evals/service.ts:295-301 | When the pool has drained without a stop, every session is scored or has an error. |
| `EvalRuns.CanComplete` | packages/server/src/evals/service.ts:241-301 | Some run completes with every fixture scored in full. |
| `EvalRuns.NeverRescoredIff` | packages/server/src/evals/service.ts:241-273 | A fixture is scored at most once in every run exactly when fixture ids are distinct. |
| `NeedInput.RequestTagsMean` | packages/shared/src/need-input.ts:32-40 | A request calls for `need-input` and for one tag each for a role and a username it asks for; these are exactly the tags of that family. |
| `NeedInput.NeedInputTags` | packages/shared/src/need-input.ts:32-40 | The tags of the open requests, each once, in order of first use. |
| `NeedInput.WithNeedInputTags` | packages/server/src/content/service.ts:105-107 | Need-input tags are dropped and recomputed. |
| `NeedInput.WithTagsMeans` | packages/server/src/content/service.ts:105-107 | The recomputed tags are the other tags and exactly those the open requests call for, without repetition. |
| `NeedInput.Record.TagLocked` | packages/server/src/content/service.ts:924-929 | The locked write appends the request and recomputes the tags. |
| `NeedInput.Record.CheckResolve` | packages/server/src/content/service.ts:934-953 | A snapshot check passes exactly for an open request and a caller entitled to resolve it (ids of open requests being distinct); a gate without a verdict, a request already resolved and an unknown one are told apart. |
| `NeedInput.Record.ResolveLocked` | packages/server/src/content/service.ts:954-963 | The request moves from open to history if it is still open; otherwise nothing changes. |
| `NeedInput.Record.Patch` | packages/server/src/content/service.ts:550-559 | A patch replaces the tags, need-input tags excepted. |
| `NeedInput.RunsConserveRequests` | packages/server/src/content/service.ts:899-966 | Over every interleaving of snapshots and locked writes: each stored request is open or in history, exactly one, once, unaltered; whoever resolved it was entitled; the need-input tags are those of the open requests. |
| `NeedInput.StepsAreMonotone` | packages/server/src/content/service.ts:899-966 | History only grows, and tagging or resolving leaves the other tags alone. |
| `NeedInput.SecondResolutionRefused` | packages/server/src/content/service.ts:957-960 | Of two callers who saw a request open, the second changes nothing. |
| `NeedInput.StaleRetagLosesTag` | packages/server/src/content/service.ts:524-558 | Tags computed from a snapshot taken before another caller's tagging miss that caller's tag, so a patch must be atomic. |
| `Paging.CursorRoundTripIff` | packages/server/src/content/cursor.ts:7-21 | A cursor round-trips exactly when its time holds no bar. |
| `Paging.ClampedLimitPositiveIff` | packages/server/src/content/cursor.ts:23-27 | A page admits a row exactly unless the limit asked for lies strictly between 0 and 1. |
| `Paging.ClampLimit` | packages/server/src/content/cursor.ts:23-27 | 50 without a positive limit, otherwise the largest whole number that is at most the limit and 200. |
| `Paging.OrderedMeans` | packages/server/src/content/nodes.ts:276-290 | Listings are by time, newest or oldest first, and by uid within one moment. |
| `Paging.List` | packages/server/src/content/nodes.ts:276-290 | A page is the first rows after the cursor, with a next cursor exactly when rows are left; a limit of 0 fails when there are rows. |
| `Paging.EveryRowOnce` | packages/server/src/content/nodes.ts:276-290 | Whatever is inserted or deleted between pages, a finished traversal shows every row present throughout exactly once, and no row twice. |
| `Paging.PagesAreTheList` | packages/server/src/content/nodes.ts:276-290 | On an unchanging table the pages together are the full ordered list, for any limits and either direction. |
| `Paging.PagesEnd` | packages/server/src/content/nodes.ts:284-290 | The traversal ends. |
| `Scoring.Normalize` | packages/server/src/evals/scoring.ts:61-86 | Every score lies in [0, 1]. |
| `Scoring.NormalizeMeans` | packages/server/src/evals/scoring.ts:61-86 | A number on a proper scale scores its share of the scale and one beyond its ends 0 or 1; flags and checks score 0 or 1; nothing scores nothing. |
| `Scoring.LevelScores` | packages/server/src/evals/scoring.ts:73-80 | A level scores what the rubric maps it to, or its place among the levels. |
| `Scoring.ValidIff` | packages/server/src/evals/scoring.ts:29-59 | Exactly numbers on the scale, declared levels, flags or their spellings, and outcomes pass validation, stored in canonical form. |
| `Scoring.ValidatedValuesScore` | packages/server/src/evals/scoring.ts:29-59 | Every value that passes validation has a score. |
| `Scoring.NumericScores` | packages/server/src/evals/scoring.ts:65-70 | Scores are monotone in the value; the ends of a proper scale score 0 and 1. |
| `Scoring.AggregateScore` | packages/server/src/evals/scoring.ts:88-104 | The accumulating loop computes the aggregate of the scored dimensions. |
| `Scoring.LeastMeans` | packages/server/src/evals/scoring.ts:93-93 | The `min` method: a score that no other is below. |
| `Scoring.MeanMeans` | packages/server/src/evals/scoring.ts:94-94 | The `mean` method: times the number of scores it is their sum. |
| `Scoring.WeightedMeanMeans` | packages/server/src/evals/scoring.ts:95-103 | The weighted mean: times the sum of the weights it is the sum of the weighted scores, an unlisted key weighing 1; none when nothing carries weight. |
| `Scoring.AggregateBetween` | packages/server/src/evals/scoring.ts:88-104 | For each method the aggregate lies between any bounds on the scores. |
| `Scoring.AggregateMonotone` | packages/server/src/evals/scoring.ts:88-104 | Raising scores never lowers the aggregate nor makes it appear or vanish. |
| `Scoring.RoundIsClose` | packages/server/src/evals/scoring.ts:129-132 | Rounding moves a score by at most 5e-7. |
| `Scoring.RoundStaysInUnit` | packages/server/src/evals/scoring.ts:129-132 | Rounding keeps a score in [0, 1]. |
| `Scoring.RoundIsMillionths` | packages/server/src/evals/scoring.ts:129-132 | Rounded scores are whole millionths. |
| `Scoring.PerDimensionMeans` | packages/server/src/evals/scoring.ts:107-108 | The fields are the rubric's dimensions in order, each with the score of its own value, when no key repeats. |
| `Scoring.PutAgain` | packages/server/src/evals/scoring.ts:107-108 | A key that repeats keeps its place and takes the later score. |
| `Scoring.RowScoreInUnit` | packages/server/src/evals/scoring.ts:106-122 | The score of a row lies in [0, 1] and within 5e-7 of the aggregate; a failed session scores 0; a row passes exactly when there is a gate and its score reaches it. |
| `Scoring.RaisingNeverFails` | packages/server/src/evals/scoring.ts:106-122 | Raising values never lowers a row's score nor turns a pass into a fail. |
| `Scoring.FailedPassesIff` | packages/server/src/evals/scoring.ts:110-114 | A failed session passes exactly when the gate is 0. |

## Left out

- How git computes a revert: its tree is any well-formed one, or a refusal.
- Checks of the circuit validator other than routing: JSON schemas, prompt files, template and gate references.
- Visit limits, retries, suspensions and cancellations of a run: they stop a run and route nothing.
- Path normalisation: paths are taken as already normalised.
- Races outside locks: `patchNode` reads before its transaction and `emitEdge` checks before it inserts; both are atomic steps here.
- Publishes whose inserts finish out of id order over several database connections.
- Two server processes recovering the same eval run at once, and scores recorded by hand during a run.
- Crash of the process between single writes of the configuration service, and failures of its database.
- Webhooks, visibility rules of events (an arbitrary predicate here).
- Fixture counts and the sorting of the affected circuits; two definitions with one slug share a reason, as in the code.
- Block ids in locator results; text search ranking and offset paging in listings.
- Stop reasons, usage and retries of gateway calls; binary data of encrypted thoughts is kept as text.
- Object members inherited from prototypes and array members other than `length` in template lookups; JSON text and number printing are arbitrary functions.
- Conversion of strings to numbers in score validation; rounding errors of floating-point sums.
- CheckReferences: reports sub-circuit references only; references to subagents, tools and MCP servers do not bear on routing.
- TreeSpellsTokens: a stray `else` right before a closing `/if` is dropped on both sides, like an `else` with an empty branch behind it.
- FuzzyHitReadsAsQuote: requires that no kept character lowercases to several, which FuzzyHitsReadAsQuotesIff shows to be exact.
- NeverGuesses: requires the same of texts in which the quote does not occur verbatim.
- StaticReferencesSound: its condition is exact for one-insert templates only (InsertScanIff); in larger templates a skipped path may happen not to matter.
- RepliesReplayVerbatim: leaves out replies holding an encrypted thought without data, the one case BlockReplaysIff shows to fail.
- ExitsTaken: requires well-founded nesting, which validation does not establish; ExitTakenIff asks nothing and is exact.
- PerformKeepsStrict: its condition on direct commits is the exact one for committing what was validated; a tree that lost an entry may happen to be valid.
