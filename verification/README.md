# Verification of probe-agent's control server

Dafny models of the parts of probe-agent that decide who may change what, with proofs of what those parts promise over every input and every run. The modules follow the source files:

| modules | what they model |
|---|---|
| `RosterGuard`, `RosterDigest` | the gate on orchestrator rosters, the task roll-up and the critical path |
| `CanonicalHead`, `CanonicalRuns`, `CanonicalStore` | one canonical understanding per System, promoted by compare-and-swap from sessions that pinned a premise |
| `CardVersions`, `ImprovementLedger`, `ImprovementRuns`, `ImprovementPath`, `ImprovementGates`, `ImprovementPins`, `ImprovementStore` | proposed improvements of a Cell: approvals, the circuit breaker, role-card versions, adoption and rollback |
| `TaskLedger`, `TaskStore`, `TaskAcceptance`, `TaskRetries`, `TaskDeliveries`, `TaskBlocking` | delegated tasks: transitions by compare-and-set, what done takes, the retry limit, idempotent delivery, blocked-by cycles |
| `Calculator`, `CalculatorTexts`, `CalculatorErrors`, `CalculatorEvaluator` | the example calculator: tokenizer and grammar, what texts mean, where a text is rejected, evaluation while parsing |
| `UnionFind` | grouping of issue entries by `view_of` links |
| `ContextBudget`, `ContextGuarantees`, `ContextTrimmer`, `Grounding` | trimming an assistant's context to its budget, and checking the answer against what was sent |
| `BatchApply`, `BatchStore` | applying selected rows of a discussion proposal to a Requirement |
| `CapabilityGraph`, `CapabilityRegistry`, `CapabilityRename` | stable identities of capabilities across confirmed revisions, change sets, and renaming |
| `Sampling`, `RollingWindow` | stratified sample selection and the rolling pass rate |
| `Walks`, `Wrappers` | finite walks over graphs; Option and Result |

`dafny verify dfyconfig.toml` checks the whole project.

Code that works by changing rows in place is a class whose methods change its fields, each proved equal to a function of the old state; the properties over whole runs are lemmas about those functions. A transaction, or a function run under the connection lock, is one step; where the code relies on compare-and-set, and where a model call separates a check from its write, the read and the write are two steps that others may come between.

Digests are taken to be injective and saving and loading lossless. Sizes are an arbitrary measure, hash fractions and rates are reals, the calculator's numbers an arbitrary type with operators of its own and a division that may fail.

## Where the code and its comments differ

The models follow the code.

- `_longest_chain` (`cell_orchestrator.py:328`) says that no write path creates a blocked cycle; `transition_task` (`cell_tasks.py:526-533`) only checks that blockers exist. `TaskBlocking.MutualBlockIsReachable` reaches one; `TaskBlocking.BlockingWriteExactly` and `TaskBlocking.RunStaysAcyclicExactly` say exactly when the graph stays acyclic, by a condition a caller can check before the write. `RosterDigest.LongestChain` is proved for cyclic graphs.
- `_trim_related` writes its coverage row after its size loop (`assistant_context_budget.py:105-111`), so the pack may exceed the budget by that row: `ContextGuarantees.CoverageRowTakesItOver` gives such packs, with any number of entries left, and `ContextGuarantees.OverBudgetIsExhausted` says exactly what is left then.
- An adoption records as previous the card pinned when the improvement was created (`cell_improvement.py:410`, `:919`, `:957`). `ImprovementPins.RollbackRestoresCreationCard` says exactly when that is the card before the adoption.
- `draft_improvement` checks the breaker before its model call and inserts without a second check (`cell_improvement.py:513`, `:574-590`): `ImprovementRuns.LateDraftIsFree`. `ImprovementRuns.TrippedRun` counts such rows, `ImprovementRuns.TrippedThroughoutExactly` says when they end the trip, and `ImprovementRuns.HeldRun` that the older rows stand still even then.
- `adopt_current_premise` is documented for `invalid` sessions only (`canonical_understanding.py:1356-1362`), and neither it nor its route checks that (`routes/canonical_understanding.py:313-356`). The runs here adopt without a check: `CanonicalRuns.StaleThroughoutExactly`, `CanonicalRuns.LosingRacerRefusedExactly` and `CanonicalRuns.PromotedFromPin` say exactly when staleness, the refusal and the pin last; `CanonicalRuns.DocumentedStaleForever`, `CanonicalRuns.DocumentedLoserIsRefused` and `CanonicalRuns.DocumentedFromPin` say that under the documented precondition they always do.
- `apply_items` is documented as all-or-nothing (`assistant_discussion_proposal.py:1612-1618`). It checks eligibility before any write, but each row is written by its own transaction: `BatchApply.HalfwayBatch`. `BatchApply.GoesThroughExactly` and `BatchApply.ThisOrderGoesThrough` say exactly when a given order goes through, and `BatchStore.DiscussionProposal.ApplyItems` what a failing one leaves.
- The retry limit is read before the compare-and-set, which looks only at the status. `TaskRetries.RacingRetriesExceedLimit` goes over it; `TaskRetries.LimitHoldsWithoutOverlap` and `TaskRetries.LimitPassedExactly` say exactly when it can be passed.

## Model

| member | source | states |
|---|---|---|
| RosterGuard.ValidateRoster | apps/control-server/app/cell_orchestrator.py:207-248 | From any good graph (distinct rosters of at most 7 existing cells, no cycle, no chain of more than 3 orchestrators) the gate accepts an edit if and only if the edited graph is good; every refusal names a real fault of the edit, and the depth reported for a too-deep edit is the length of a chain through the edited cell |
| RosterGuard.WouldCreateCycle | apps/control-server/app/cell_orchestrator.py:117-135 | The stack search ends, and says yes exactly when a walk of stored edges leads from the proposed roster to the cell |
| RosterGuard.CellRowDepth | apps/control-server/app/cell_orchestrator.py:138-158 | On a sound graph the downward recursion is the length of the longest chain that starts at the cell; the visited guard never fires |
| RosterGuard.ProposedDepth | apps/control-server/app/cell_orchestrator.py:169-179 | One more than the longest chain that starts in the proposed roster |
| RosterGuard.MaxAncestorHeight | apps/control-server/app/cell_orchestrator.py:182-204 | On a sound graph the upward recursion is the length of the longest chain above the cell, in whatever order the parents are read |
| RosterGuard.EditStaysSound | apps/control-server/app/cell_orchestrator.py:207-248 | If the old graph does not reach the cell from the new roster, the edited graph has no cycle anywhere and refers to existing cells only |
| RosterGuard.EditStaysShallow | apps/control-server/app/cell_orchestrator.py:182-248 | Height above plus depth below bounds every chain of the edited graph, through the cell or not |
| RosterGuard.ChainThroughCell | apps/control-server/app/cell_orchestrator.py:182-248 | Height and depth are attained together: the edited graph has a chain of exactly their sum, so a refusal for depth is never wrong |
| RosterGuard.CellStore.CreateCell | apps/control-server/app/routes/cell_fabric.py:300-365 | A cell is written if and only if its id is new and the edited graph is good; the table stays good |
| RosterGuard.CellStore.UpdateRoster | apps/control-server/app/routes/cell_orchestrators.py:190-232 | A roster is replaced if and only if the cell exists and the edited graph is good; the table stays good |
| Walks.RewiringKeepsAcyclic | apps/control-server/app/cell_orchestrator.py:117-135 | Giving one node of an acyclic graph new successors keeps it acyclic if and only if the old edges do not lead from them back to the node |
| RosterDigest.RollupTaskCounts | apps/control-server/app/cell_orchestrator.py:268-291 | The counts are the sum over walks; with enough fuel on a sound graph those are all the walks below the cell, each once |
| RosterDigest.RollupForDigest | apps/control-server/app/cell_orchestrator.py:268-291 | Under the roster invariant neither the fuel nor the visited guard cuts anything: the counts are the per-path sum over all descendants; when no cell has two parents they are the sum over the set of descendants, each counted once |
| RosterDigest.FuelSuffices | apps/control-server/app/cell_orchestrator.py:268-291 | No walk below a cell of a good graph outruns the fuel of 3 |
| RosterDigest.TreeWalksAreUnique | apps/control-server/app/cell_orchestrator.py:268-291 | When no cell has two parents two walks from one cell to one descendant are the same walk |
| RosterDigest.LongestChain | apps/control-server/app/cell_orchestrator.py:326-336 | Ends on every blocked-by graph, cyclic ones included, with a longest walk whose tasks are distinct except possibly the last |
| RosterDigest.CriticalPath | apps/control-server/app/cell_orchestrator.py:394-409 | A longest such walk over all blocked tasks; on an acyclic graph a longest walk of all, with no task twice |
| RosterDigest.GuardInvisibleWhenAcyclic | apps/control-server/app/cell_orchestrator.py:326-336 | On an acyclic graph the visited guard shuts out no walk |
| CanonicalHead.ReachableInv | apps/control-server/app/canonical_understanding.py:1004-1225 | Head, revision rows, pins and session results agree with the log of head moves in every state of every run of create, draft, sweep, promote, rebase, branch, unchecked adoption and the migration that restores a first head |
| CanonicalHead.VerdictIsPointerTest | apps/control-server/app/canonical_understanding.py:802-878 | A session is current exactly when it is tracked and its pin equals the head (both may be absent); content-changed and missing cannot occur |
| CanonicalHead.SweepKeepsInv | apps/control-server/app/canonical_understanding.py:1471-1486 | Pruning outside the protected set preserves lineage, pins and results |
| CanonicalHead.PromoteKeepsInv | apps/control-server/app/canonical_understanding.py:1004-1225 | A promotion appends exactly one head move, from the head it was checked against |
| CanonicalHead.PromotionExactly | apps/control-server/app/canonical_understanding.py:1004-1110 | In a good state a promotion goes through if and only if the session has a premise of the supported version and pins the head, the revision is its own candidate with content, the expected head is the head (or none when there is none) and an expected version, if given, is the head's (or 0); and each refusal code is returned exactly when its check is the first to fail |
| CanonicalHead.PromotionWrites | apps/control-server/app/canonical_understanding.py:1112-1225 | The head moves on by one to the revision, which keeps its content, takes the old head for parent and freezes content and merged intent; the old head is superseded, the session has its result, one event is written, and no other row changes |
| CanonicalHead.DigestExactly | apps/control-server/app/canonical_understanding.py:439-457 | Two bundles have one digest if and only if version, content and the value, origin and mock flag of every statement agree |
| CanonicalHead.RestoreKeepsInv | apps/control-server/app/db.py:10041-10111 | The migration on a System without a head makes one head move, the first of the log, and keeps head, rows, pins and results in agreement |
| CanonicalHead.MergeIntentItems | apps/control-server/app/canonical_understanding.py:391-433 | The loop over rows is the fold of decisions |
| CanonicalRuns.CanonicalLineage | apps/control-server/app/canonical_understanding.py:1004-1225 | Without a head every revision is a candidate; with one, the parent chain from the head has length head_version, holds the one canonical revision first and then every superseded revision once, and ends without a parent unless the migration restored the first head |
| CanonicalRuns.PromotedFromPin | apps/control-server/app/canonical_understanding.py:1004-1225 | In every run: the parent of a session's promoted revision is the revision the session has pinned if and only if the session has not adopted another premise since it promoted |
| CanonicalRuns.OnePromoterPerPin | apps/control-server/app/canonical_understanding.py:1004-1225 | In every run: two sessions that have promoted, and have adopted nothing since, have different pins |
| CanonicalRuns.OnePromotionPerExpectedHead | apps/control-server/app/canonical_understanding.py:1004-1225 | Over any run two promotions that move the head never expected the same head, nor the same version, whatever happens in between and whichever sessions make them |
| CanonicalRuns.LosingRacerIsRefused | apps/control-server/app/canonical_understanding.py:1004-1225 | Once one of two sessions pinned to one head has promoted, the other is refused in every continuation in which it does not itself adopt the new premise, whatever it expects and whatever the others do |
| CanonicalRuns.LosingRacerRefusedExactly | apps/control-server/app/canonical_understanding.py:1004-1225 | It is refused all through a continuation if and only if it does not adopt the current premise in it |
| CanonicalRuns.PinKept | apps/control-server/app/canonical_understanding.py:608-686 | No step moves the pin of a session that has one, except its own adoption of the current premise and the restoration of its own revision |
| CanonicalRuns.PinMovesExactly | apps/control-server/app/routes/canonical_understanding.py:313-356 | The pin moves exactly when the session adopts a head it was not pinned to, or the migration restores its revision |
| CanonicalRuns.StaleForever | apps/control-server/app/canonical_understanding.py:802-878 | Once stale, a session stays stale in every continuation in which it does not itself adopt the current premise |
| CanonicalRuns.StaleStepExactly | apps/control-server/app/routes/canonical_understanding.py:313-356 | A stale session is stale after a step exactly unless the step is its own adoption, and that makes it current |
| CanonicalRuns.StaleThroughoutExactly | apps/control-server/app/routes/canonical_understanding.py:313-356 | Staleness lasts through a run if and only if the session adopts nothing in it |
| CanonicalRuns.DocumentedStaleForever | apps/control-server/app/canonical_understanding.py:1356-1362 | When only invalid sessions adopt, as documented, a stale session is stale all through every continuation |
| CanonicalRuns.DocumentedLoserIsRefused | apps/control-server/app/canonical_understanding.py:1356-1362 | When only invalid sessions adopt, the loser of a race is refused all through every continuation |
| CanonicalRuns.DocumentedFromPin | apps/control-server/app/canonical_understanding.py:1356-1362 | When only invalid sessions adopt, the parent of every promoted revision is the pin of its session |
| CanonicalRuns.DocumentedNeverSince | apps/control-server/app/canonical_understanding.py:1356-1362 | When only invalid sessions adopt, no session that has promoted has adopted since |
| CanonicalRuns.RestoredPremises | apps/control-server/app/db.py:10041-10111 | After the migration restores a head exactly the session of the restored revision is current, and every other session that had recorded a premise is stale |
| CanonicalRuns.ReachableVerdict | apps/control-server/app/canonical_understanding.py:802-878 | The pointer test in every reachable state |
| CanonicalRuns.UnguardedAdoptRevives | apps/control-server/app/canonical_understanding.py:1346-1386 | Whatever the verdict on a session was, it is current after it adopts |
| CanonicalRuns.HeadOnlyAdvances | apps/control-server/app/canonical_understanding.py:1004-1225 | The head version never decreases and an equal version means the same head |
| CanonicalRuns.RevalidatedMeansHeadStill | apps/control-server/app/canonical_understanding.py:885-951 | When revalidation answers None the head was the same at every intermediate state of the run |
| CanonicalRuns.RevalidationExactly | apps/control-server/app/canonical_understanding.py:885-951 | Over whatever ran meanwhile: nothing is reported if and only if pin and disposition are as they were and the head version has not moved; a changed session is reported first, then a moved head |
| CanonicalRuns.MergedIsLastDecision | apps/control-server/app/canonical_understanding.py:391-433 | A field is in the merged intent with value v exactly when its latest decisive row confirmed v; rows in progress change nothing |
| CanonicalRuns.HeadIntentIsFold | apps/control-server/app/canonical_understanding.py:1103-1136 | After any run the frozen intent of the head is the fold of the rows of the sessions whose revisions were promoted or restored, in the order of the head moves and then row order |
| CanonicalRuns.HeadIntentIsLastDecision | apps/control-server/app/canonical_understanding.py:532-562 | The head holds a field with value v exactly when the latest decisive row among all those sessions confirmed v |
| CanonicalStore.Store.CaptureSessionPremise | apps/control-server/app/canonical_understanding.py:608-686 | Replaces version, base, digest and bundle with those of the head whatever the session had pinned before, field by field; existing understanding content stays, and only a session without any starts from the pinned content; no other session changes |
| CanonicalStore.Store.CreateSession | apps/control-server/app/routes/interview.py:826-842 | A new session pins the head and its bundle in the step that creates it, and so starts current |
| CanonicalStore.Store.DraftRevision | apps/control-server/app/routes/interview.py:3718-3733 | A rebuild adds one candidate with the given content and parent under a new id and changes the verdict on no session |
| CanonicalStore.Store.PromoteUnderstanding | apps/control-server/app/routes/canonical_understanding.py:392-450 | The route around a promotion, in every good state and from the rows before: it succeeds if and only if the session pins the head under the supported version, the revision is its candidate with content, and the expected head and version are the actual ones; each refusal code has its own exact condition; a refusal writes its audit row and nothing else |
| CanonicalStore.Store.SweepRevisions | apps/control-server/app/routes/interview.py:3762-3775 | Deletes exactly the candidates of the session that have at least `limit` newer revisions of it and that are neither the head, cited, pinned nor promoted; every other revision stays as it is |
| CanonicalStore.Store.PromoteRevision | apps/control-server/app/canonical_understanding.py:1004-1225 | The same exact conditions, expected head and expected version included, and with a refusal no change at all; on success revision, head, session and event are written together |
| CanonicalStore.Store.RebaseSession | apps/control-server/app/canonical_understanding.py:1231-1297 | A new session on the current head, current, that names its origin; of the old one only the disposition changes, and not the verdict |
| CanonicalStore.Store.BranchSession | apps/control-server/app/canonical_understanding.py:1300-1343 | Changes the disposition of one session, records its verdict, and changes the verdict on no session |
| CanonicalStore.Store.AdoptCurrentPremise | apps/control-server/app/canonical_understanding.py:1346-1386 | Replaces pin and bundle without a check and makes the session current; its result and its content stay, and no verdict on another session changes |
| CanonicalStore.Store.RestoreHead | apps/control-server/app/db.py:10041-10111 | Restores exactly when there is no head and the revision exists with content: it becomes the head at version 1, keeping parent and content, and its session is pinned to it; then no session but its own is current |
| CalculatorEvaluator.EvaluateExpression | examples/calculator/main.py:127-129 | For every arithmetic, and every text that writes a sum of products of numbers, signed factors and bracketed sums with the characters + - * / ( ) and with spaces anywhere: the result is the left fold of add and sub over the left folds of mul and div, or the failed division. A value comes only from such a text. For any other text, what parsing comes to |
| CalculatorEvaluator.EvalOfSum | examples/calculator/main.py:81-125 | Evaluating the parsed tree of a written sum is folding its terms and factors from the left, each operator by its own operation in the order written |
| CalculatorTexts.SumParses | examples/calculator/main.py:47-125 | The text of any sum, with spaces anywhere, parses to the tree of that sum: * and / bind tighter than + and -, all to the left, signs to the factor |
| CalculatorTexts.AcceptedIsSum | examples/calculator/main.py:47-125 | What the parser accepts is, as far as the tokenizer keeps it, the text of a sum |
| CalculatorTexts.NumberTextIsLexeme | examples/calculator/main.py:47 | The number pattern matches exactly digits, or digits around a point with at least one behind it |
| Calculator.RoundTrip | examples/calculator/main.py:47-79 | Scanning and parsing the rendering, with spaces anywhere, gives the expression back |
| Calculator.ScanText | examples/calculator/main.py:47-57 | Scanning the joined text of tokens whose numbers do not touch gives those tokens back |
| Calculator.ScanIsValid | examples/calculator/main.py:47-57 | Whatever the text, skipping included, every number token is a number lexeme |
| Calculator.ParseIsInverseOfYield | examples/calculator/main.py:73-125 | Parsing accepts exactly the yields of trees of the expr/term/factor grammar and returns that tree |
| Calculator.GrammarIsUnambiguous | examples/calculator/main.py:73-125 | No two trees of the grammar have the same tokens |
| Calculator.ParseIsSound | examples/calculator/main.py:81-125 | At each level: the tokens consumed are the yield of a grammatical tree of that level, and the loop stopped because no operator of the level follows |
| CalculatorErrors.ErrorIsFirstBadToken | examples/calculator/main.py:73-125 | A rejected text is cut at the first token nothing could have made right: the tokens in front begin some expression, and with that token no expression begins |
| CalculatorErrors.RejectedAt | examples/calculator/main.py:64-125 | What the parser was in the middle of covers exactly the tokens in front of the error, and the error names what it found instead of what it needed |
| CalculatorErrors.LookaheadIsOne | examples/calculator/main.py:59-62 | Texts that agree up to and with the token at which a parse stopped are parsed alike |
| Calculator.MinimalIsGrammatical | examples/calculator/main.py:81-125 | The rendering with only the parentheses it needs is a tree of the grammar with the same meaning |
| Calculator.MinimalIsShortest | examples/calculator/main.py:81-125 | No rendering of the expression has fewer tokens |
| CalculatorEvaluator.EvalIgnoresParens | examples/calculator/main.py:105-111 | Parentheses do not change the value |
| CalculatorEvaluator.ExpressionEvaluator.Parse | examples/calculator/main.py:73-79 | The outcome is determined for every text: the value of the tree or its failed division; for a text that is no expression, a failed division if something computed in front of the error needs one, else that error |
| CalculatorEvaluator.ExpressionEvaluator.Expr | examples/calculator/main.py:81-91 | Evaluating while parsing is left-associative evaluation of the parsed tree, whose value for a written sum is given by `EvalOfSum`; the position ends at the unparsed rest |
| CalculatorEvaluator.ExpressionEvaluator.Term | examples/calculator/main.py:93-103 | The same one level down, with division failing at once |
| CalculatorEvaluator.ExpressionEvaluator.Factor | examples/calculator/main.py:105-125 | Parentheses, signs and numbers; it always consumes a token when it succeeds |
| CalculatorEvaluator.ExpressionEvaluator.Consume | examples/calculator/main.py:64-71 | Moves over one token, or refuses without moving |
| ImprovementRuns.AdoptionIsCovered | apps/control-server/app/cell_improvement.py:822-913 | In every run, the step that adopts an improvement finds non-empty evidence, every reference valid, and a parent and a human approval each given at some step since which version and evidence never changed |
| ImprovementRuns.ApprovalHistory | apps/control-server/app/cell_improvement.py:1056-1117 | An approval on record was given by some step, and the proposal has been the same since |
| ImprovementRuns.ChangedProposalLosesApprovals | apps/control-server/app/cell_improvement.py:822-913 | Any change of content voids both approvals, even when the transition is then refused |
| ImprovementPath.RunFollows | apps/control-server/app/cell_improvement.py:125-135 | In every run the status transitions on record for one improvement are one connected walk over the eleven edges of the table, from observed to its present status |
| ImprovementPath.ProposedOnce | apps/control-server/app/cell_improvement.py:781-786 | In every run an improvement that is past observed was moved to proposed by some step that found it observed, with text in hypothesis, expected effect, risk and rollback plan |
| ImprovementPath.AdoptionPath | apps/control-server/app/cell_improvement.py:125-135 | In every run the log of an adopted improvement starts with observed to proposed, its complete narrative given then, and ends with canary_ready to canary_running to adopted; nothing leaves adopted or rejected |
| ImprovementGates.AcceptedExactly | apps/control-server/app/cell_improvement.py:794-961 | A transition goes through if and only if the row is not suspended, the statuses are joined by an edge, every ref resolves, a named card is stored and does not regrade a parentless cell, and the gate of the target holds: narrative, evidence, evidence that still resolves, both approvals on an unchanged proposal, and for a role card an active one of the same major version and no older, or the override |
| ImprovementGates.RefusedExactly | apps/control-server/app/cell_improvement.py:794-961 | Each refusal is returned exactly when its check is the first to fail, said of the row and the request |
| ImprovementGates.TransitionLeaves | apps/control-server/app/cell_improvement.py:822-1000 | A call that goes through leaves its row at the target with the version and evidence named, and without approvals if either changed; a refused one leaves no more than lost approvals |
| ImprovementGates.TransitionTouches | apps/control-server/app/cell_improvement.py:914-1007 | A call pins a card exactly when it adopts one, and changes no other row except that a rejection may suspend rows |
| ImprovementGates.EvidenceAfter | apps/control-server/app/cell_improvement.py:822-828 | The evidence kept is the old evidence followed by each new ref once |
| ImprovementRuns.StreakIsTrailingRun | apps/control-server/app/cell_improvement.py:260-280 | The streak is the trailing run of rejections since the last adoption in the event log |
| ImprovementRuns.RejectionTrips | apps/control-server/app/cell_improvement.py:1002-1007 | A rejection that brings the streak to 3 leaves every open row of the cell suspended |
| ImprovementRuns.FrozenStep | apps/control-server/app/cell_improvement.py:292-342 | Short of a resumption a step ends the trip if and only if it adopts an improvement of the cell, and either way every row older than the trip keeps its status, and its suspension |
| ImprovementRuns.AdoptionEndsStreak | apps/control-server/app/cell_improvement.py:260-280 | An adoption in the cell sets its streak to 0 |
| ImprovementRuns.ResumedStep | apps/control-server/app/cell_improvement.py:345-376 | A resumption ends the trip if and only if some older row is still open |
| ImprovementRuns.HeldRun | apps/control-server/app/cell_improvement.py:292-342 | In every run without a resumption of the cell, adoptions of newer rows included, every row older than the trip keeps its status, and its suspension |
| ImprovementRuns.TrippedThroughoutExactly | apps/control-server/app/cell_improvement.py:260-342 | Without a resumption the trip lasts through a run if and only if nothing of the cell is adopted in it |
| ImprovementRuns.TrippedRun | apps/control-server/app/cell_improvement.py:489-605 | With drafts split in two: as long as the cell is not resumed and nothing of it is adopted, whatever else is done with newer rows, the trip lasts, statuses stand still and new rows come from drafts begun before the trip, at most one each |
| ImprovementRuns.FrozenUntilResumed | apps/control-server/app/cell_improvement.py:384-439 | With no draft under way nothing of the cell changes status or is created as long as the cell is not resumed |
| ImprovementRuns.NoCreationUntilAdoption | apps/control-server/app/cell_improvement.py:345-350 | With no draft under way a cell at the threshold gets no new improvement until one of its own is adopted, resumptions included |
| ImprovementRuns.LateDraftIsFree | apps/control-server/app/cell_improvement.py:489-605 | A draft begun before the trip still inserts an open, unsuspended row after it |
| ImprovementPins.PinNeverFallsBelowFirst | apps/control-server/app/cell_improvement.py:914-961 | Without the administrator override, over every run a pin keeps its role key and major version and never falls below the first version |
| ImprovementPins.PinnedTextFollowsFirst | apps/control-server/app/cell_fabric.py:403-412 | The same of the stored texts: the version text pinned after any run may follow the one pinned first |
| CardVersions.ReadExactly | apps/control-server/app/cell_fabric.py:58 | A version text is read exactly when it is three runs of digits with points between, as those three numbers |
| CardVersions.VersionRoundTrip | apps/control-server/app/cell_fabric.py:396-400 | Reading the text of three numbers gives them back |
| CardVersions.CompatibleIsTransitive | apps/control-server/app/cell_fabric.py:403-412 | If a version may follow a second and that a third, it may follow the third |
| CardVersions.CompatibleIsAntisymmetric | apps/control-server/app/cell_fabric.py:403-412 | Two texts that may follow each other stand for one version |
| ImprovementPins.GateIsSafe | apps/control-server/app/cell_fabric.py:396-412 | An adoption that passes the gate moves to the same role key, same major and no lower version, of the cards and of the version texts they stand for |
| ImprovementPins.RollbackRestoresOwnCard | apps/control-server/app/cell_improvement.py:1125-1184 | In every run, a rollback that is allowed sets the pin to the card the improvement was created against and changes no other |
| ImprovementPins.RollbackRestoresCreationCard | apps/control-server/app/cell_improvement.py:1125-1184 | Adoption then rollback gives the pins back as they were if and only if the card at creation was the pin at adoption |
| ImprovementPins.CreationCapturesPin | apps/control-server/app/cell_improvement.py:384-439 | Creation records the card pinned at that moment |
| ImprovementPins.InterleavedRollbackSkipsAdoption | apps/control-server/app/cell_improvement.py:914-961 | With two adoptions from one card, rolling back the second skips the first as well |
| ImprovementStore.Store.ConsecutiveRejectionCount | apps/control-server/app/cell_improvement.py:260-280 | The query loop counts the streak |
| ImprovementStore.Store.TransitionImprovement | apps/control-server/app/cell_improvement.py:794-1014 | Refusal and new rows are those of the ledger step, whose refusals, acceptance and effects `ImprovementGates.RefusedExactly`, `AcceptedExactly`, `TransitionLeaves` and `TransitionTouches` give exactly, and whose runs reach adoption only along `ImprovementPath.AdoptionPath` |
| ImprovementStore.Store.RecordFailureAndMaybeSuspend | apps/control-server/app/cell_improvement.py:292-309 | Suspends open rows exactly when the streak is 3 or more |
| ImprovementStore.Store.SuspendImprovements | apps/control-server/app/cell_improvement.py:312-342 | Suspends exactly the rows of the cell that are neither adopted, rejected nor suspended, and reports them |
| ImprovementStore.Store.ResumeImprovements | apps/control-server/app/cell_improvement.py:345-376 | Lifts the suspension of exactly the suspended rows of the cell, and reports them |
| ImprovementStore.Store.CreateImprovementManual | apps/control-server/app/cell_improvement.py:384-443 | Each refusal exactly when its check is the first to fail; otherwise one observed row with the card pinned now |
| ImprovementStore.Store.StartDraft | apps/control-server/app/cell_improvement.py:489-530 | The check before the model call: the breaker is looked at here and not again |
| ImprovementStore.Store.FinishDraft | apps/control-server/app/cell_improvement.py:574-605 | The insert after the model call, without a second look at the breaker |
| ImprovementStore.Store.ParentApprove | apps/control-server/app/cell_improvement.py:1056-1088 | Refused for a blank actor, an unknown, suspended or terminal improvement, or an actor out of scope, each exactly when it holds and nothing before it does; otherwise the parent approval of that one row is the actor and nothing else of any row changes |
| ImprovementStore.Store.HumanApprove | apps/control-server/app/cell_improvement.py:1091-1117 | Refused for a blank actor or an unknown, suspended or terminal improvement, in that order; otherwise the human approval of that one row is the actor and nothing else of any row changes |
| ImprovementStore.Store.RollbackRoleCard | apps/control-server/app/cell_improvement.py:1125-1184 | Allowed exactly for an adopted role-card improvement whose newest adoption is on record and still pinned; then the pin of its cell, and no other, is the card recorded as previous, which is returned |
| ImprovementStore.Store.EnsureApprovable | apps/control-server/app/cell_improvement.py:1017-1025 | Suspended rows first, then terminal ones; every other row may be approved |
| ImprovementStore.Store.ParentScope | apps/control-server/app/cell_improvement.py:1028-1053 | In scope exactly if the declared parent rosters the cell, or without a parent if the actor is an administrator |
| ImprovementStore.Store.CheckGate | apps/control-server/app/cell_improvement.py:877-961 | The gates of the target status in order give the refusal or the detail that is recorded |
| ImprovementStore.Store.NewestAdoption | apps/control-server/app/cell_improvement.py:1131-1137 | The search backwards finds the newest adoption of the improvement, or there is none |
| TaskLedger.RowsAreFoldOfLog | apps/control-server/app/cell_tasks.py:502-596 | With reads and compare-and-set writes interleaved at will, each row is the fold of its events, the events form one connected path of the transition table, acceptance holds exactly in done, and blockers are recorded only while blocked |
| TaskAcceptance.DoneWasAccepted | apps/control-server/app/cell_tasks.py:502-596 | In every run, with reads and writes interleaved at will: a task is done only because some request found it in review and asked for done with acceptance met and evidence, all of which resolved then; that list is the evidence on record |
| TaskAcceptance.DoneForGood | apps/control-server/app/cell_fabric.py:329-336 | What is done stays done in every continuation, on the same evidence |
| TaskRetries.StepKeepsCovered | apps/control-server/app/cell_tasks.py:502-596 | Whatever else runs in between, a step keeps the retry count plus the retries in flight within the limit, unless it reads a second retry of the task |
| TaskRetries.LimitHoldsWithoutOverlap | apps/control-server/app/cell_tasks.py:502-596 | In every run in which no second retry of a task is read while one is in flight, with every other operation interleaved, its retry count stays within the limit |
| TaskRetries.LimitPassedExactly | apps/control-server/app/cell_tasks.py:548-596 | For every task: some continuation that reads no further retry of it passes the limit if and only if the count is past it already, or the task is not done and count and retries in flight together exceed it |
| TaskRetries.OverlapPassesLimit | apps/control-server/app/cell_tasks.py:548-596 | Such a continuation, written out for a task in any status but done |
| TaskRetries.SerialFailuresBounded | apps/control-server/app/cell_tasks.py:502-596 | When calls are serialised a task enters failed at most retry_limit + 1 times |
| TaskRetries.RacingRetriesExceedLimit | apps/control-server/app/cell_tasks.py:548-596 | Two retries read against one failed row that has one retry left are both written: the count ends one past the limit |
| TaskDeliveries.RacingDeliveriesAreOne | apps/control-server/app/cell_tasks.py:366-489 | In every run, whatever other operations come between, at most one of the deliveries under one key has an effect: the tables are those of the run in which the others write nothing |
| TaskDeliveries.KeyNamesOneTask | apps/control-server/app/cell_tasks.py:366-489 | In every run no two tasks carry one key |
| TaskBlocking.BlockingWriteExactly | apps/control-server/app/cell_tasks.py:526-533 | Blocking a task keeps an acyclic blocked-by graph acyclic if and only if the graph before does not lead from its new blockers back to it |
| TaskBlocking.StepKeepsAcyclicExactly | apps/control-server/app/cell_tasks.py:502-596 | Of all steps only such a blocking write makes a cycle |
| TaskBlocking.RunStaysAcyclicExactly | apps/control-server/app/cell_tasks.py:502-596 | The graph is acyclic throughout a run if and only if no write of the run closes a cycle |
| TaskBlocking.MutualBlockIsReachable | apps/control-server/app/cell_tasks.py:526-533 | Two tasks that are to do can come to block each other |
| TaskBlocking.DigestGraphInherits | apps/control-server/app/cell_orchestrator.py:506-520 | The part of the blocked-by graph that a digest reads is acyclic if the whole is |
| TaskBlocking.DigestCriticalPath | apps/control-server/app/cell_orchestrator.py:394-409 | The critical path over the ledger's blocked tasks is a longest guarded walk, and on an acyclic ledger a longest walk with no task twice |
| TaskStore.Store.ReadTransition | apps/control-server/app/cell_tasks.py:502-549 | Each refusal exactly when its check is the first to fail, said of the row and the request with the thirteen legal moves written out; otherwise what will be written |
| TaskStore.Store.WriteTransition | apps/control-server/app/cell_tasks.py:550-596 | Writes exactly when the task is still in the status that was read |
| TaskStore.Store.TransitionTask | apps/control-server/app/cell_tasks.py:502-596 | Goes through if and only if the move is legal, no retry is over the limit, a block names known blockers or a detail, and done comes with acceptance met and evidence that resolves; each refusal has its own exact condition; the new row is given field by field |
| TaskStore.Store.DelegateTask | apps/control-server/app/cell_tasks.py:366-489 | A key that is known gives back its task and writes nothing; an invalid order is refused; an empty key is never looked up, so repeating it is an error that writes nothing; otherwise one task is created |
| TaskStore.Store.WriteDelegation | apps/control-server/app/cell_tasks.py:438-484 | A key taken since the read yields the task that took it, an empty one the error |
| TaskStore.Store.ReturnToParent | apps/control-server/app/cell_tasks.py:599-629 | Only a failed or blocked task goes back; the event is the one change |
| UnionFind.Groups | docs/tools/issue_knowledge.py:171-181 | Two entries get one root if and only if view_of links connect them in either direction; each root is the smallest id of its component; every linked pair shares one |
| UnionFind.Find | docs/tools/issue_knowledge.py:173-176 | Ends, at the root |
| UnionFind.JoinLink | docs/tools/issue_knowledge.py:178-180 | One link joins exactly the two components it connects |
| UnionFind.RootAfterUnion | docs/tools/issue_knowledge.py:178-180 | Pointing one root at a smaller one changes the root of its component only |
| UnionFind.ConnectedShareRoot | docs/tools/issue_knowledge.py:171-181 | Connected entries have one root |
| UnionFind.GroupingIsOrderIndependent | docs/tools/issue_knowledge.py:171-181 | The result does not depend on the order of entries or links |
| ContextTrimmer.DropFromTail | apps/control-server/app/assistant_context_budget.py:114-124 | What is left is a prefix and the protected rest, it fits or nothing unprotected is left, and the count of drops is right |
| ContextTrimmer.ContextPack.GiveUpRelated | apps/control-server/app/assistant_context_budget.py:92-111 | The stage over related context, in place |
| ContextTrimmer.ContextPack.PopScreenRows | apps/control-server/app/assistant_context_budget.py:127-149 | The costliest list gives up its last row, coverage first, until the pack fits or no row is left |
| ContextTrimmer.ContextPack.OmitItems | apps/control-server/app/assistant_context_budget.py:57-66 | Adds to the first row of that section and reason or appends one |
| ContextTrimmer.ContextPack.MarkTruncated | apps/control-server/app/assistant_context_budget.py:69-89 | Rewrites the first row of the section or appends one, field by field: truncated by budget, the count left, the original count unless a total was known, limit and way to more kept |
| ContextTrimmer.ContextPack.ApplyContextBudget | apps/control-server/app/assistant_context_budget.py:155-197 | All stages in order, each only while over budget, with what they do given by the `ContextGuarantees` lemmas; the verdict is the size of what is sent, without the notice, against the limit |
| ContextGuarantees.RelatedStage | apps/control-server/app/assistant_context_budget.py:92-111 | Deepest and, within a depth, latest entries go first; an entry goes only if what is left without those before it is over budget; the rest is empty or had fitted before its own coverage row; drops are exact; the coverage row says truncated by budget, the number of entries left with a depth above 0, the number before or the total known earlier, and the limit and way to more it had |
| ContextGuarantees.WithoutKeepsOrder | apps/control-server/app/assistant_context_budget.py:92-104 | The entries left are those not dropped, in their old order |
| ContextGuarantees.CoverageRowTakesItOver | apps/control-server/app/assistant_context_budget.py:92-111 | For every limit and every list of more related entries than the limit: a pack and a measure with which the stage stops at as many entries as the limit, the pack fits, and the coverage row takes it over budget for good, with all those entries still there |
| ContextGuarantees.ScreenStage | apps/control-server/app/assistant_context_budget.py:127-152 | Lists are cut from the tail, never the degraded sections; drops are on record per list; the coverage row of a cut list says truncated by budget, the rows left, the rows before or the total known earlier, and the limit and way to more it had; if the pack still does not fit every such list is empty |
| ContextGuarantees.OverBudgetIsExhausted | apps/control-server/app/assistant_context_budget.py:155-197 | For any measure: a pack over budget after trimming has no unprotected check, setting, state item or list row left; a pack that fits is sent as it is |
| ContextGuarantees.BudgetKeepsProtected | apps/control-server/app/assistant_context_budget.py:155-197 | For any measure: failing and mentioned checks, mentioned settings and the focused item survive; every list is a prefix and its protected rest |
| ContextGuarantees.ProtectedAreSent | apps/control-server/app/assistant_context_budget.py:155-197 | Failing or mentioned checks, mentioned settings, the focused item and the list of degraded sections are all sent |
| ContextGuarantees.GivenUpInOrder | apps/control-server/app/assistant_context_budget.py:155-197 | The fixed order of the stages: something of a later section is given up only when nothing unprotected of the earlier ones is left |
| ContextGuarantees.BudgetAccounts | apps/control-server/app/assistant_context_budget.py:155-197 | Kept plus recorded drops is what there was, for related context, checks, settings and state items |
| ContextGuarantees.BudgetAccountsForRows | apps/control-server/app/assistant_context_budget.py:127-152 | The same for the rows of every screen list |
| ContextGuarantees.BudgetCoverage | apps/control-server/app/assistant_context_budget.py:69-89 | After the whole trimming the coverage rows of every cut list and of related context say just that, field by field |
| Grounding.GroundResponse | apps/control-server/app/assistant.py:1333-1415 | Citations are exactly the mentioned sources still in the pack, once each; every point has the standing its sources give it; counts and the overall state are right |
| Grounding.PointReads | apps/control-server/app/assistant.py:1333-1390 | A checked point keeps exactly the sources of which the pack holds an entry in the section of their type; a fact is supported by one not marked stale, stale with stale ones only, unsupported without any |
| Grounding.RefusedExactly | apps/control-server/app/assistant.py:1333-1360 | The refused sources are those the pack holds no entry of, counted as often as they are named |
| Grounding.AnswerWithinBudget | apps/control-server/app/assistant.py:1782-1788 | Trimming and then checking: every citation names an entry of the pack that was sent and of the pack that was built |
| Grounding.TrimmingOnlyRevokes | apps/control-server/app/assistant.py:732-743 | Trimming makes nothing citable, and takes away no mentioned setting, mentioned check or focused item |
| Grounding.Judge | apps/control-server/app/assistant.py:1361-1370 | Supported, stale, unsupported or not required, by the sources named |
| Grounding.AnswerStateOf | apps/control-server/app/assistant.py:1392-1400 | Grounded, partially grounded, ungrounded or without facts, by the facts |
| Grounding.TalliesCoverAll | apps/control-server/app/assistant.py:1386-1390 | The four counts add up to the points |
| Grounding.EveryPointIsShownOnce | apps/control-server/app/assistant.py:1418-1448 | Every point stands under one heading, as often as it was made, and under no other: a fact under the one of its standing, an interpretation or unknown under its own |
| Grounding.ShownFactsAreBacked | apps/control-server/app/assistant.py:1418-1448 | What stands under the facts has a source that is in the pack and not stale |
| BatchApply.BatchIsSimultaneous | apps/control-server/app/assistant_discussion_proposal.py:1211-1301 | A batch whose rows are allowed, find what they need and do not clash goes through and is the simultaneous update of fields, keys and cells |
| BatchApply.OrderDoesNotMatter | apps/control-server/app/assistant_discussion_proposal.py:1604-1658 | Any two orders of such a batch leave the same fields and the same criteria apart from order numbers |
| BatchApply.EveryOrderGoesThrough | apps/control-server/app/assistant_discussion_proposal.py:1255-1301 | For distinct addresses and reserved keys apart: all orders go through if and only if every row finds what it needs at the start and no removed key is named by another row; the order actually given is decided by `ThisOrderGoesThrough` |
| BatchApply.GoesThroughExactly | apps/control-server/app/assistant_discussion_proposal.py:1604-1658 | For every batch in the order given: it goes through if and only if every row finds what it needs once the rows before it are applied, where the last row that adds or removes a key decides whether it is there |
| BatchApply.ThisOrderGoesThrough | apps/control-server/app/assistant_discussion_proposal.py:1604-1658 | With reserved keys named by add rows only, the order given goes through if and only if every row finds what it needs at the start and no row that updates or removes a criterion comes after a removal of it |
| BatchApply.HalfwayBatch | apps/control-server/app/assistant_discussion_proposal.py:1604-1658 | Rows with distinct addresses that are all eligible can still stop halfway, with the criterion already gone |
| BatchApply.AddedRowsShareOneCriterion | apps/control-server/app/assistant_discussion_proposal.py:1270-1292 | All rows of one reserved key land on one new criterion; the batch adds one criterion per key and takes away the removed ones |
| BatchApply.ReserveKeys | apps/control-server/app/assistant_discussion_proposal.py:1040-1065 | Rows share a key exactly when they share a temporary name; other rows keep theirs |
| BatchStore.DiscussionProposal.ReadCriteria | apps/control-server/app/ux_design.py:1420-1438 | The criteria of the revision, each once, by order number and key |
| BatchStore.DiscussionProposal.AddRevision | apps/control-server/app/ux_design.py:1447-1557 | A revision is stored whole if its keys are distinct, its methods known and it suits the requirement; else nothing is |
| BatchStore.DiscussionProposal.ApplyField | apps/control-server/app/assistant_discussion_proposal.py:1211-1221 | One field changes and every criterion is carried over |
| BatchStore.DiscussionProposal.ApplyChild | apps/control-server/app/assistant_discussion_proposal.py:1224-1301 | Editing the list and writing it back whole is the one-row change of the key-to-criterion map, errors included |
| BatchStore.ChildRowExactly | apps/control-server/app/assistant_discussion_proposal.py:1224-1301 | A row on a criterion fails exactly when it changes one that is not there or adds one out of scope; else it writes the order and column it names on that criterion alone, a new one starting last and under manual review |
| BatchStore.DiscussionProposal.CheckRows | apps/control-server/app/assistant_discussion_proposal.py:905-966 | Every selected row must exist and be appliable: registered with a known method, on a fresh and unchanged proposal, still proposed and no other row of its address applied; the refusal names the first that is not, and which of the three reasons it is |
| BatchStore.DiscussionProposal.ApplyItems | apps/control-server/app/assistant_discussion_proposal.py:1604-1658 | Nothing is written unless every row is appliable; then the rows apply in turn, and a failing row leaves exactly those before it applied; with reserved keys apart all are applied if and only if no row names a criterion an earlier one removed and each finds what it needs |
| CapabilityRegistry.Registry.Confirm | apps/control-server/app/capability_graph.py:290-541 | A revision is confirmed whole or nothing changes; accepted exactly when relations and bindings are valid and no unbound name takes over, in sorted order, an entity bound later; confirming again with the same request gives the same graph and writes nothing |
| CapabilityRegistry.Registry.AssignIdentities | apps/control-server/app/capability_graph.py:371-405 | Names map to entities one to one, bindings are honoured, a free name keeps its previous entity, every other gets a new one, and kinds never change |
| CapabilityRegistry.Registry.ComposeRelations | apps/control-server/app/capability_graph.py:406-455 | A pair of entities has one relation id for good, and each meaning says what its endpoints mean |
| CapabilityGraph.ValidateBindings | apps/control-server/app/capability_graph.py:156-191 | Accepted exactly when targets and entities exist, kinds agree and neither repeats |
| CapabilityGraph.CheckRelations | apps/control-server/app/capability_graph.py:194-233 | Accepted exactly when pairs are allowed, endpoints exist and no pair repeats |
| CapabilityGraph.RelationsExactly | apps/control-server/app/capability_graph.py:26-33 | The allowed pairs are those that lead to a kind further down: core capability, element, supporting element, API boundary |
| CapabilityGraph.MeaningExactly | apps/control-server/app/capability_graph.py:80-96 | Two descriptions mean the same if and only if kind, summary, reason, evidence and references agree, lists up to order: name and confidence do not count |
| CapabilityGraph.NodeChangedExactly | apps/control-server/app/capability_graph.py:694-729 | An entity in both graphs is reported changed if and only if its descriptions differ in more than that |
| CapabilityGraph.RelationChangedExactly | apps/control-server/app/capability_graph.py:694-729 | A relation in both graphs is reported changed if and only if its role, its scope or the meaning of an endpoint changed |
| CapabilityRename.RenameIsAccepted | apps/control-server/app/capability_graph.py:371-405 | A revision that only renames nodes and binds each to the entity it was meets every condition of a confirmation: its relations and its bindings are valid and no name takes over a bound entity |
| CapabilityRename.RenameKeepsIdentity | apps/control-server/app/capability_graph.py:371-405 | Every node of such a revision is the entity it was |
| CapabilityRename.RenameChangesNothing | apps/control-server/app/capability_graph.py:694-729 | Such a revision has empty change sets |
| CapabilityRename.ConfirmThenRename | apps/control-server/app/capability_graph.py:290-541 | Confirming a revision and then the same with its nodes renamed: the second is accepted whenever the first was, every node stays the entity it was, and both change sets are empty |
| Sampling.MatchStratum | apps/control-server/app/cell_quality.py:347-389 | The name of the first stratum whose task type, risk and rarity fit the trace, or the empty name |
| Sampling.Select | apps/control-server/app/cell_quality.py:422-440 | Exactly the traces below the rate and, for each rare stratum without one, its trace of least fraction |
| Sampling.SelectedExactly | apps/control-server/app/cell_quality.py:422-440 | A trace is selected if and only if it is below the rate, or its stratum is rare, holds no trace below the rate, and it is the first of least fraction there |
| Sampling.RareStratumIsCovered | apps/control-server/app/cell_quality.py:433-439 | A rare stratum has a sample if and only if some trace is assigned to it, and a trace is assigned by the first stratum it matches |
| Sampling.SelectionIsMonotone | apps/control-server/app/cell_quality.py:422-440 | Raising the rate deselects no trace, rare picks included |
| Sampling.OnlyOnePickPerStratum | apps/control-server/app/cell_quality.py:433-439 | Beyond the traces below the rate a rare stratum has at most one sample |
| Sampling.SampleTable.SelectSamples | apps/control-server/app/cell_quality.py:392-471 | Existing rows stay, the selected traces get rows, and the rows of the selection come back |
| Sampling.SampleTable.SelectTwice | apps/control-server/app/cell_quality.py:392-471 | A second run over the same traces adds nothing and returns the same rows |
| RollingWindow.RollingPassRate | apps/control-server/app/cell_quality.py:808-837 | The rate over the samples audited last, each by its latest verdict |
| RollingWindow.CountedExactly | apps/control-server/app/cell_quality.py:808-837 | A sample counts if and only if its last audit judged it and fewer samples than the width were audited after that; it passes if that audit passed it |
| RollingWindow.ReauditInWindow | apps/control-server/app/cell_quality.py:808-837 | Auditing a sample of the window again with its verdict moves neither window nor rate |
| RollingWindow.RepeatedAuditsCountOnce | apps/control-server/app/cell_quality.py:808-837 | Any number of audits of one sample in a row with one verdict counts as one |

## Left out

- Model calls, prompts, response schemas and provider errors: proposals, drafts and answers are arbitrary inputs.
- SQL text, connections, routes, authentication and environment: one map or sequence stands for each table of one System; timestamps, titles, notes and actors that no decision reads are dropped.
- Several Systems in one database: every query filters by System, so one is modelled.
- Floating point: real rates and an abstract number type; the size measure is arbitrary.
- `submit_report` and escalations: their idempotency key works as the one of `delegate_task`.
- Goals, roster events, shadow proposals and canary references: they gate nothing that is proved here; evidence validity is an input.
- The storage-level check that the head row was updated (`promote_revision`): inside one transaction it cannot fail once the premise check has passed.
- Bundles compare by content, and intent items are a map by field: the order of items inside a bundle is not modelled.
- Cells and their parents do not change during an improvement run; a batch of suspended rows is one event that lists them.
- The order of criteria rows is by number and key, and keys stand for their place in text order.
- `CapabilityGraph`: relations inferred from `children` are taken as a list already resolved; duplicate node names are refused before confirmation and are a precondition; deletion of sessions, which removes confirmations, is not modelled.
- `RosterDigest`: medians, bottleneck candidates and the digest's text are projections.
- `Grounding`: titles of citations, suggested actions and the joined text of the answer; `Heading` and `Shown` give the points under each heading.
- Calculator.ScanText: the token pattern's digit class is the ten ASCII digits, not every Unicode digit; Python's recursion limit is not modelled.
- TaskRetries.SerialFailuresBounded: holds for serialised calls only, as TaskRetries.RacingRetriesExceedLimit shows; with calls interleaved the bound is on the retry count, in TaskRetries.LimitHoldsWithoutOverlap.
- CardVersions.ReadExactly: digits are the ten ASCII digits and the white space stripped is ASCII; a card with a malformed version cannot be stored, because the card contract refuses it.
- CanonicalStore.Store.RestoreHead: which confirmed revision the migration picks is its parameter; capability confirmations and confirmation times are not modelled.
- BatchApply.OrderDoesNotMatter: order numbers are left out because two rows of one criterion may each carry one.
- Sampling.SampleTable.SelectSamples: rows are inserted in trace order, where the code follows a set's order.
- Sampling.SampleTable.SelectTwice: a property written as a method, because the selection is one.
- RollingWindow.RollingPassRate: the window is at least 1, as the configuration demands.
- Screen-context assembly, dashboards, Markdown rendering, link checking and the first-match advice tables: projection or one-branch decisions.
