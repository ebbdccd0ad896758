# City services: what the gate, its queue and its clients promise

Five small Python services share one substrate. **throughline** is the gate: it classifies effects, holds the
irreversible ones in a durable approval queue, keeps an append-only chain and runs the effect registry.
**docket** judges permits and may only publish findings that quote the permit. **breaker** watches batteries and
proposes load sheds. **siren** drops new registries into a running system. **helm** shows an operator the queue.

The model proves what those services say they are for. One module stands for one component or one set of laws about it.

| file | what it is about |
|---|---|
| `Text.dfy` | whitespace, trimming, collapsing, substrings |
| `Quotes.dfy`, `QuoteLaws.dfy` | the verbatim-quote check; its soundness, completeness, idempotence |
| `Judge.dfy` | judging one permit, and routing what was accepted |
| `Approvals.dfy` | the durable queue: map, cache file, chain |
| `Recovery.dfy` | runs of the queue with crashes and restarts over any cache |
| `Waiting.dfy` | waiting for a decision, as interleaved steps under the lock |
| `EventIds.dfy`, `Rule.dfy` | identity of a divergence event; the divergence rule |
| `GridWatch.dfy`, `DispatchSafety.dfy` | breaker's engine, and its safety against an arbitrary gate |
| `HoldGate.dfy`, `HeldQueue.dfy` | the stand-in gate, and engine and gate together |
| `Config.dfy`, `Preflight.dfy` | the registry and its two validators |
| `Reload.dfy`, `ReloadLaws.dfy` | the downgrade detector and the reload protocol; its laws over whole runs |
| `LedgerPaging.dfy`, `QueuePaging.dfy` | the two pagers |

Components that change state are classes whose methods equate the new state with a specification function of the old
one; the theorems are about those functions, over all inputs and whole runs. Text counts as already NFKC-folded, which
characters are digits is a parameter (`DigitClass`), and so are case folding and lower-casing. Fresh ids and the replies
of whatever sits at the other end of a connection are parameters too, with nothing assumed of them unless a
`requires` says so.

Theorems about whole runs speak through the predicates the operations share. Beside them stand laws that say what an
operation does by the fields and literals of its input alone, so that those predicates are fixed too: what counts as a
quotation mark, as declining, as held, as degraded, as an offence.

## Where the code does not do what it says

Each of these has a lemma that exhibits the failure and one that says exactly when the promise holds.

- A quote is *not* found everywhere it occurs. One that starts inside a quotation of the source is looked for with digit
  spaces removed and stored with them kept (`GroupInsideQuotesIsMissed`). A span is found in every text that contains it
  if and only if a reader from outside and one behind any opening mark drop the same spaces between its digits
  (`FoundEverywhereExactly`); one without quotation marks, if and only if no two of its digits are separated by group
  spaces alone (`FoundEverywhereWithoutMarks`). Any span taken from outside quotation marks is found
  (`SpanOutsideQuotesIsValid`).
- Normalising is *not* idempotent: `9<tab>2` takes two passes (`TabTakesTwoPasses`). It is if and only if no two digits
  outside quotation marks are separated by whitespace that is not all digit-group spaces (`NormalizeIdempotentExactly`).
- The tests check a published quote against the record a second time (docket/tests/test_quote_validator.py:99). That can
  fail: a quote in two layers of marks is published in one and refused when checked again (`TwiceWrappedIsRefusedAgain`).
  It passes again if and only if it is not in matching marks, or what is left without them is not empty and, behind
  an opening mark, drops the same spaces there as on its own (`PublishedQuotePassesAgainExactly`).
- A cache file that is not UTF-8 keeps the queue from opening at all, where other damage only degrades it. The queue
  opens if and only if the file is absent or text (`Open`).
- Replay does not restore `issuer` and `auth_mode` (`AttestationIsLost`). A logged approval is replayed whole if and only
  if it has neither (`AttestationLostExactly`).
- A cache that disagrees with the chain but is well-formed is not repaired, so it raises the alarm on every load
  (`DisagreementAlarmsAgain`). `SecondLoadAgrees` says from the disk alone when the second load raises it.
- A decision that cannot be written to the cache is in force but wakes nobody (`DecisionCanGoUnwritten`,
  `UnwrittenDecisionBlocksForGood`). A blocked thread can return if and only if the decision was written
  (`BlockedThreadCanReturnExactly`).
- `withdrawn` is not final: approving the effect still dispatches it (`WithdrawnIsStillDispatched`). When a decision
  dispatches is settled by `DecisionDispatchesExactly`.
- Refreshing can dispatch an effect the gate never held (`RefreshDispatchesUnheld`, `RefreshDispatchesExactly`). A
  dispatch was held and released if and only if a decision made it (`DispatchJustifiedExactly`).
- Refreshing can reopen a withdrawn proposal beside an open one (`RefreshReopensWithdrawn`). One refresh keeps one open
  proposal per unit exactly under the condition in `RefreshKeepsOneOpenExactly`; a whole run does if and only if it
  never refreshes a withdrawn proposal while another of its unit is open (`OneOpenExactly`).
- Event ids are unique only while the unit has no `:`, the tick is not negative and the kind has neither `:` nor `-`
  (`EventIdInjective`); every other event shares its id with some event (`EventIdAmbiguousOtherwise`).
- The two validators of the registry differ when `effects` is absent or false without being a list (`EffectsMayBeAbsent`),
  and on effect types that cannot be dictionary keys, where throughline fails with no refusal (`UnfiledEffectType`); on
  nothing else (`ValidatorsAgreeExactly`). Of a document both accept they can still read different rules, as siren keeps
  line numbers inside descriptions (`DescriptionKeepsLines`); they read the same if and only if there are none
  (`SameRulesExactly`).
- The downgrade list names a type when any rule makes it reversible, even if a later rule of the same type wins
  (`ShadowedRuleIsListed`, `ListedExactly`).
- A candidate that is applied may loosen a type that is not on its list (`ReleaseCanLoosenUnlisted`): exactly those that
  were reversible when the list was made and were tightened since (`AppliedLoosensListed`).
- A held candidate is applied by whatever effect of its id executes, and that need not be the approved one. An effect of
  no type that claims to be reversible and is posted under the id does it, the approval still pending
  (`PostedEffectApplies`); and if the registry the service starts with lets downgrades execute by themselves, so do two
  reloads of one path and version, with no approval at all (`ReloadsApplyByThemselves`). `StepLoosensExactly` and
  `PostLoosensExactly` say when a step loosens a type; over a run, what loosens is an approval if and only if no step
  executes at once an effect under whose id something looser is held (`LooseningsAreReleasesExactly`). If downgrades
  start out irreversible and no posted effect does that, the first loosening is an approval (`FirstLooseningIsARelease`).
- Candidates of one path and version share an id: approving the first applies the second, even if the second was
  rejected (`SecondHoldTakesOver`). An approval applies what it was raised for if and only if the last operation to touch
  the id held that same candidate (`ReleaseAppliesItsOwnExactly`). So a rejection is not final by itself
  (throughline/tests/test_gate_security.py:362): a rejected candidate stays held, and what becomes of it is decided by the next
  operation to touch its id (`RejectedAppliesExactly`). It is final if no other approval of the id is pending and nothing
  more comes under the id (`RejectionIsFinal`).
- A page of the queue is at most two numbered links away (helm/helm/views.py:56-58) exactly while there are no more than
  eight pages (`TwoHopsExactly`).

## Model

| member | source | states |
|---|---|---|
| Text.CollapseIdempotent | docket/docket/quotes.py:35-41 | collapsing whitespace twice is collapsing it once |
| Text.CollapseAround | docket/docket/quotes.py:35-41 | collapsing a text keeps the collapsed form of every trimmed middle of it, and what is not whitespace on either side |
| Text.InkOfCollapse | docket/docket/quotes.py:35-41 | collapsing moves no character that is not whitespace |
| Quotes.SegmentByQuotes | docket/docket/quotes.py:44-74 | the pieces join to the text, unquoted pieces are never adjacent and hold no opener, every quoted piece is closed by its own closer at its very end, or is the last and unterminated |
| Quotes.SegmentationUnique | docket/docket/quotes.py:44-74 | that description fits one segmentation only, so it pins the scanner |
| Quotes.NormalizeOutsideQuotes | docket/docket/quotes.py:77-88 | segmenting, substituting outside quotation marks and joining equals one pass of a small state machine, then collapsing |
| Quotes.SubstituteIsErase | docket/docket/quotes.py:27-28 | on text without openers the regular expression's substitution is that state machine |
| Quotes.SegmentsRefineErase | docket/docket/quotes.py:77-88 | so are all segments together, whatever piece borders on whatever |
| Quotes.ErasesExactlyGaps | docket/docket/quotes.py:5-18 | a position is dropped exactly if it lies outside quotation marks in a run of group spaces with digits on both sides |
| Quotes.QuotedPieceExact | docket/docket/quotes.py:77-88 | a quoted piece is kept to the character |
| QuoteLaws.UnwrapsOneLayer | docket/docket/quotes.py:91-102 | matching marks around a span, with whitespace around them, are dropped, one layer of them |
| QuoteLaws.WrapperIsNoMatter | docket/docket/quotes.py:91-102 | wrapping a bare span in matching marks changes neither verdict nor reason |
| QuoteLaws.ValidExactly | docket/docket/quotes.py:123-151 | a verdict is valid if and only if the bare quote is not empty and its normal form occurs in the source's |
| QuoteLaws.RefusedByName | docket/docket/quotes.py:123-151 | each refusal reason is given exactly in its own case |
| QuoteLaws.MarksKeepTheSpace | docket/docket/quotes.py:31-32 | each of the four pairs of marks keeps the space in `9 2` |
| QuoteLaws.OthersDropTheSpace | docket/docket/quotes.py:31-32 | no other character does |
| QuoteLaws.GroupSpacesAre | docket/docket/quotes.py:27-28 | three kinds of space between two digits are dropped, other whitespace becomes a space, anything else stays |
| QuoteLaws.WrappersAre | docket/docket/quotes.py:91-102 | six pairs of marks wrap a span, and nothing else does |
| QuoteLaws.SpacesAre | docket/docket/quotes.py:35-41 | which characters are collapsed to a space |
| QuoteLaws.InkOfNormalize | docket/docket/quotes.py:77-88 | normalising erases whitespace and nothing else |
| QuoteLaws.ValidQuoteIsInSource | docket/docket/quotes.py:123-151 | soundness: what is not whitespace in an accepted quote is a non-empty contiguous block of what is not whitespace in the source |
| QuoteLaws.NormalizeAround | docket/docket/quotes.py:77-88 | a text's normal form around a span: the span as it reads there, and on either side exactly what is not whitespace |
| QuoteLaws.SpanIsPlaced | docket/docket/quotes.py:44-88 | a span's normal form, read from the scanner state in front of it, occurs in the normal form of every text around it |
| QuoteLaws.SpanOutsideQuotesIsValid | docket/docket/quotes.py:44-88 | completeness: a quote taken from where the scanner is outside quotation marks is accepted, whatever marks it opens or leaves open |
| QuoteLaws.ReadsTheSameExactly | docket/docket/quotes.py:44-88 | a span's normal form from outside and behind a mark are the same if and only if the two readings drop the same spaces |
| QuoteLaws.FoundEverywhereExactly | docket/docket/quotes.py:44-88 | a span is found wherever it occurs if and only if that holds behind every opening mark |
| QuoteLaws.FoundEverywhereWithoutMarks | docket/docket/quotes.py:44-88 | one without quotation marks, if and only if no two of its digits are separated by group spaces alone |
| QuoteLaws.MissedInsideQuotes | docket/docket/quotes.py:44-88 | a span that reads differently behind some mark is missed in the text that puts it there |
| QuoteLaws.GroupInsideQuotesIsMissed | docket/docket/quotes.py:44-88 | a concrete one |
| QuoteLaws.GapsAfterOnePass | docket/docket/quotes.py:77-88 | what a second pass would still erase is exactly the gaps of mixed whitespace in the original |
| QuoteLaws.NormalizeIdempotentExactly | docket/docket/quotes.py:77-88 | normalising is idempotent on a text if and only if it has no such gap |
| QuoteLaws.NormalizeIdempotentOnGroupSpaces | docket/docket/quotes.py:77-88 | it is on every text whose only whitespace is group spaces |
| QuoteLaws.TabTakesTwoPasses | docket/docket/quotes.py:77-88 | a concrete text on which it is not |
| QuoteLaws.MissedBetweenMarks | docket/docket/quotes.py:44-88 | behind one mark and in front of at most one, a span that reads differently there is missed |
| QuoteLaws.UnwrappedFoundExactly | docket/docket/quotes.py:91-102 | a wrapped text is found in itself without its marks if and only if both readings of what is left drop the same spaces |
| QuoteLaws.PublishedQuotePassesAgainExactly | docket/docket/quotes.py:91-151 | a published quote is accepted again by every source that accepted it if and only if it is not wrapped, or reads the same unwrapped |
| QuoteLaws.TwiceWrappedIsRefusedAgain | docket/docket/quotes.py:91-151 | a concrete quote that is published and then refused |
| Judge.JudgePermit | docket/docket/judge.py:80-153 | the judgment is determined by the one deciding answer, and the model is asked never, once or twice, the second time only after an inconclusive answer |
| Judge.NeverUncited | docket/docket/judge.py:47-153 | whatever the model answers, an abstention has no quote, finding, route or confidence; a judgment has a quote that rests on the description |
| Judge.PublishedExactly | docket/docket/judge.py:80-153 | a permit is judged if and only if there is enough description and one of the two answers cites it |
| Judge.ConclusionByFields | docket/docket/judge.py:80-153 | by the fields of permit and answers: when the model is asked again, each reason to abstain exactly in its case, and what is published |
| Judge.SignalByFields | docket/docket/routing.py:49-51 | the signal a judgment is bound to |
| Judge.AcceptedQuoteRestsOnDescription | docket/docket/judge.py:122-126 | what passes the check is a real span of the description |
| Judge.RouteJudgment | docket/docket/routing.py:40-91 | an abstention or an uncited judgment is refused and posts nothing; otherwise the permit's signal if the permit is at hand, the judgment with its quote as rationale, and a reversible effect, the two bound to the judgment's own signal or else the permit's |
| Judge.JudgeAndRoute | docket/docket/app.py:155-203 | end to end, given a substrate, an effect is routed if and only if the permit was judged, beside a rationale that rests on its description |
| Approvals.Replay | throughline/throughline/approvals.py:191-224 | everything replayed is filed under its own id and carries no attestation |
| Approvals.ReplayChain | throughline/throughline/approvals.py:191-224 | the replay loop computes the fold of the chain |
| Approvals.ReplayByPosition | throughline/throughline/approvals.py:172-224 | an approval exists exactly if some entry opened it, has the content of its last opening, and is settled by the last decision after that, if any |
| Approvals.ReplayByFields | throughline/throughline/approvals.py:191-224 | what one entry makes of an empty queue, and a decision of what it opened |
| Approvals.ReadRows | throughline/throughline/approvals.py:147-170 | later rows of an id win, and rows were dropped exactly if some row is malformed |
| Approvals.FoldInCache | throughline/throughline/approvals.py:87-106 | the chain's version stands wherever it has one, the cache adds the rest, and exactly the differences of state are reported |
| Approvals.RowsOf | throughline/throughline/approvals.py:242-251 | what is written reads back as the queue |
| Approvals.ApprovalQueue.Open | throughline/throughline/approvals.py:54-71 | a new queue is the load of what is on disk, and there is one unless the cache file is not UTF-8 |
| Approvals.ApprovalQueue.Load | throughline/throughline/approvals.py:73-117 | the whole effect of a load: queue, health, alarm entry, repaired cache; or nothing, on bytes that are no text |
| Approvals.ApprovalQueue.Rebuild | throughline/throughline/approvals.py:80-106 | replay over cache, with the report of where they differ |
| Approvals.ApprovalQueue.ReadCache | throughline/throughline/approvals.py:119-170 | a cache that cannot be read, or not wholly, degrades and says how; one that is not UTF-8 fails |
| Approvals.ApprovalQueue.ReadLedger | throughline/throughline/approvals.py:172-189 | an unreadable chain degrades; no chain does not |
| Approvals.ApprovalQueue.Alarm | throughline/throughline/approvals.py:226-240 | one entry is appended if there is a chain that takes it |
| Approvals.ApprovalQueue.Persist | throughline/throughline/approvals.py:242-251 | the file holds exactly the queue, or what it held before |
| Approvals.ApprovalQueue.Enqueue | throughline/throughline/approvals.py:255-276 | the hold and its event are in memory whether or not the file could be written, and reported only if it was |
| Approvals.EnqueuedByFields | throughline/throughline/approvals.py:264-276 | a hold is filed under its id with an event of its own that is not set |
| Approvals.ApprovalQueue.Decide | throughline/throughline/approvals.py:314-349 | each refusal exactly in its case and without effect; otherwise the decision stands and the waiter is woken if it was written |
| Approvals.DecidedByFields | throughline/throughline/approvals.py:338-343 | what a decision changes of an approval, and that it keeps the rest |
| Approvals.ApprovalQueue.EnterWait | throughline/throughline/approvals.py:351-361 | a decided approval at once, else the one event of that id |
| Approvals.ApprovalQueue.PendingApprovals | throughline/throughline/approvals.py:291-293 | exactly the undecided ones, each once |
| Recovery.ChainDecidesWhatIsLoaded | throughline/throughline/approvals.py:10-25 | whatever text the cache holds, an approval the chain opened is loaded as the chain has it; nothing else is added but what only the cache has |
| Recovery.LoadByFields | throughline/throughline/approvals.py:73-170 | by what is on disk: when a load is degraded, when it alarms, when it writes the cache again, and what each leaves |
| Recovery.ReportedExactly | throughline/throughline/approvals.py:97-107 | a disagreement is reported exactly if cache and chain differ on the state of that approval |
| Recovery.AfterLoad | throughline/throughline/approvals.py:108-117 | what a load leaves on disk loads to the same queue, and a repaired cache agrees with the chain |
| Recovery.SecondLoadAgrees | throughline/throughline/approvals.py:73-117 | loading twice is loading once; from the disk before: the second load alarms exactly if the first did, unless that was degraded, had something to write, could write it, and can read the chain |
| Recovery.DisagreementAlarmsAgain | throughline/throughline/approvals.py:108-115 | a disk whose load degrades nothing and alarms, and leaves a disk that alarms |
| Recovery.MoveAgrees | throughline/throughline/gate.py:505-530 | every move of the gate, failures in between and restarts included, keeps memory and chain in agreement |
| Recovery.LiveQueueIsReplay | throughline/throughline/approvals.py:191-349 | over every run the chain's fold is the queue in memory, up to attestation and what is not logged yet |
| Recovery.AttestationLostExactly | throughline/throughline/approvals.py:215-223 | a logged approval is replayed whole if and only if it has neither issuer nor auth mode |
| Recovery.AttestationIsLost | throughline/throughline/approvals.py:339-344 | a run after which one is not |
| Recovery.CrashAnywhere | throughline/throughline/approvals.py:73-117 | a restart after any run over any cache loses no approval the chain has; each comes back as it was, or undecided if its decision was not logged |
| Recovery.UnloggedReleaseStaysHeld | throughline/throughline/approvals.py:19-21 | a release the chain does not have comes back as a hold |
| Recovery.NoReleaseWithoutDecision | throughline/throughline/gate.py:690-725 | over any run with any restarts, what the chain has as approved was approved by a decision to approve, made by the subject it names |
| Waiting.ActKeepsInv | throughline/throughline/approvals.py:255-363 | every step of every thread keeps events in step with decisions |
| Waiting.BlockedThreadCanReturnExactly | throughline/throughline/approvals.py:314-363 | no lost wakeup: a thread blocked on a decided approval can return if and only if the decision was written |
| Waiting.WaitReturnsDecisions | throughline/throughline/approvals.py:351-363 | `wait` returns only a decision, and one that stands |
| Waiting.OnlyADecisionEndsAHold | throughline/throughline/approvals.py:3-8 | no timeout: over any run a hold is unchanged until a decision on it that carries a subject |
| Waiting.UnwrittenDecisionBlocksForGood | throughline/throughline/approvals.py:344-348 | after a decision that could not be written, the blocked thread stays blocked whatever happens |
| Waiting.DecisionCanGoUnwritten | throughline/throughline/approvals.py:338-348 | a run that gets there |
| Rule.DivergesExactly | breaker/breaker/rule.py:25-30 | a full window diverges exactly if nothing holds it back; each check is stated with its threshold on the two readings ten ticks apart |
| Rule.EvaluationByFields | breaker/breaker/rule.py:196-252 | the numbers reported, and what is said of too few readings, none, or several units |
| Rule.DependsOnEndsOnly | breaker/breaker/rule.py:152-170 | metrics and verdict depend on the first and the last eleven readings only |
| Rule.NominalNeverMoves | breaker/breaker/rule.py:220-227 | no later reading moves the baseline |
| Rule.NominalIgnoresOrder | breaker/breaker/rule.py:159-160 | nor does the order of the opening window |
| Rule.NominalIsMedian | breaker/breaker/rule.py:159-160 | it is one of the eleven, with six at or below and six at or above |
| Rule.NoDivergenceAtOwnBaseline | breaker/breaker/rule.py:220-227 | a unit at or above its own baseline does not diverge, and the verdict names the check |
| EventIds.EventIdInjective | breaker/breaker/engine.py:195-223 | plain events never share an id |
| EventIds.EventIdAmbiguousOtherwise | breaker/breaker/engine.py:195-223 | every event that is not plain shares its id with another |
| EventIds.EventIdReads | breaker/breaker/engine.py:195-223 | how an id reads |
| EventIds.PrefixIsNoMatter | breaker/breaker/engine.py:211-220 | proposal ids and effect ids tell the same events apart |
| GridWatch.DivergedExactly | breaker/breaker/engine.py:140-181 | whoever judges, nothing diverges before the window is full or while no check trips; beyond that the rule asks for every check, and a model's word decides, an abstention being none |
| GridWatch.IdsByFields | breaker/breaker/engine.py:195-223 | how a reading's proposal and effect are named |
| GridWatch.PostingByFields | breaker/breaker/throughline.py:168-183 | a new divergence is filed as waiting exactly if the reply says irreversible and one of three statuses; otherwise it is one more violation and has no approval |
| GridWatch.NoPostingByFields | breaker/breaker/engine.py:227-276 | a divergence seen before is refreshed, one behind a proposal of its unit changes nothing |
| GridWatch.ClearingByFields | breaker/breaker/engine.py:278-314 | a later reading that does not diverge withdraws the unit's first proposal; one no later leaves it |
| GridWatch.RelayByFields | breaker/breaker/engine.py:433-495 | what a decision does, by the proposal and the reply |
| GridWatch.StatusFollowsGate | breaker/breaker/engine.py:468-479 | the status each answer leads to |
| GridWatch.Engine.Ingest | breaker/breaker/engine.py:110-138 | the reading joins its unit's history, the history is judged by the rule or the model, and the verdict has the effect the specification gives it |
| GridWatch.Engine.OpenProposalFor | breaker/breaker/engine.py:183-190 | the first open proposal of the unit |
| GridWatch.Engine.ObserveDivergence | breaker/breaker/engine.py:227-246 | refresh, suppress or propose |
| GridWatch.Engine.Reobserve | breaker/breaker/engine.py:255-276 | evidence refreshed, nothing posted |
| GridWatch.Engine.MaybeResolve | breaker/breaker/engine.py:278-314 | withdrawn only by a later tick |
| GridWatch.Engine.ProposeEffect | breaker/breaker/engine.py:316-404 | on file as waiting only if the gate verifiably holds it; a failed hold check is recorded |
| GridWatch.Engine.Decide | breaker/breaker/engine.py:433-466 | relays only a named decision on a proposal with an approval, and applies the answer |
| GridWatch.Engine.Refresh | breaker/breaker/engine.py:425-431 | applies what the gate says became of the effect |
| GridWatch.Engine.ApplyEffectState | breaker/breaker/engine.py:468-479 | one status change for each answer |
| GridWatch.Engine.DispatchOnce | breaker/breaker/engine.py:481-495 | one dispatch record at most, naming who released it |
| DispatchSafety.RunKeepsInv | breaker/breaker/engine.py:481-495 | against any gate, in every run: ids distinct, every dispatch of a proposal on file, and each count is the number of dispatch records, at most one |
| DispatchSafety.ApprovalComesWithHold | breaker/breaker/engine.py:380-396 | a proposal gets its approval only from the posts that proposed it, whose answer named its effect and passed the hold check |
| DispatchSafety.EveryDispatchIsJustified | breaker/breaker/throughline.py:168-183 | against any gate, every dispatched effect was posted and verifiably held, and then its release was relayed for a named subject and answered with `executed`, by the decider on record; or a refresh heard that it executed |
| DispatchSafety.DispatchesWereHeldAndReleased | breaker/breaker/engine.py:316-495 | without refreshes, held and released, always |
| DispatchSafety.ApprovalWasAnsweredHeld | breaker/breaker/throughline.py:168-183 | over any run, a proposal with an approval was posted, and the reply said irreversible and one of three statuses |
| DispatchSafety.DispatchesByFields | breaker/breaker/engine.py:316-495 | without refreshes, every dispatched effect was so answered, and then `executed` to a named subject's decision |
| DispatchSafety.DispatchJustifiedExactly | breaker/breaker/engine.py:425-479 | a dispatch was held and released if and only if a decision made it |
| DispatchSafety.RefreshDispatchesExactly | breaker/breaker/engine.py:425-431 | when exactly a refresh dispatches, and which record it then appends |
| DispatchSafety.RefreshDispatchesUnheld | breaker/breaker/engine.py:425-431 | one that dispatches an unheld effect in nobody's name |
| DispatchSafety.DecisionDispatchesExactly | breaker/breaker/engine.py:433-495 | when exactly a decision dispatches, and which record it then appends |
| DispatchSafety.HistoryIsAppendOnly | breaker/breaker/engine.py:248-253 | records and dispatches only grow |
| HoldGate.MockThroughlineClient.PostSignal | breaker/breaker/throughline.py:346-351 | the signal is kept under its id or a fresh one, with what it points at, and ledgered |
| HoldGate.MockThroughlineClient.PostJudgment | breaker/breaker/throughline.py:353-358 | the judgment likewise, with the signal it judges |
| HoldGate.MockThroughlineClient.PostEffect | breaker/breaker/throughline.py:360-385 | irreversible means queued under a new approval, and unnamed means irreversible |
| HoldGate.MockThroughlineClient.Decide | breaker/breaker/throughline.py:393-465 | the refusals in their order, without effect; otherwise approval and effect settle together |
| HoldGate.RefusedByFields | breaker/breaker/throughline.py:393-441 | each reason to refuse exactly in its case, and none exactly in the remaining one |
| HoldGate.RecordedByFields | breaker/breaker/throughline.py:360-385 | what is recorded of an effect |
| HoldGate.SettledByFields | breaker/breaker/throughline.py:442-465 | what is recorded of a decision |
| HeldQueue.RunKeepsInv | breaker/breaker/engine.py:110-495 | over every run of readings, decisions and refreshes: names, links and counts in step |
| HeldQueue.GateMirrorsProposals | breaker/breaker/throughline.py:360-465 | as many effects and approvals as proposals, none shared, each in step with its proposal and traced to its judgment and signal, and the hold check never fails |
| HeldQueue.RefreshKeepsInv | breaker/breaker/engine.py:425-431 | asked of this gate, a refresh dispatches nothing and keeps all that in step |
| HeldQueue.RefreshKeepsOneOpenExactly | breaker/breaker/engine.py:425-431 | against any gate, when exactly a refresh keeps one open proposal per unit |
| HeldQueue.OneOpenExactly | breaker/breaker/engine.py:183-190 | a run has one open proposal per unit throughout if and only if it never refreshes a withdrawn one while another of its unit is open |
| HeldQueue.AtMostOneOpen | breaker/breaker/engine.py:183-190 | so readings and decisions never open a second one |
| HeldQueue.ProposalsWereSeen | breaker/breaker/engine.py:227-246 | every proposal comes from a diverging reading of its unit and tick |
| HeldQueue.NoFlood | breaker/breaker/engine.py:194-223 | never more proposals or effects than distinct pairs of unit and tick that diverged |
| HeldQueue.WithdrawnIsStillDispatched | breaker/breaker/engine.py:433-495 | from every reachable state, approving a withdrawn proposal dispatches it |
| HeldQueue.RefreshReopensWithdrawn | breaker/breaker/engine.py:468-479 | a refresh can leave two open proposals of one unit |
| Config.ParseConfig | throughline/throughline/config.py:157-226 | the whole document is accepted, or refused for the first offence with its rule, line and policy |
| Config.NoOffenceExactly | throughline/throughline/config.py:177-220 | a document passes rule checks exactly if every rule does, and otherwise the first that does not is the one named |
| Config.StripByFields | throughline/throughline/config.py:95-102 | stripping line numbers leaves texts, lists and keys as they were |
| Config.DocumentReads | throughline/throughline/config.py:157-226 | every sound registry is read back from a document written for it |
| Config.LoadableExactly | throughline/throughline/config.py:157-226 | exactly the sound registries can ever be loaded |
| Config.Downgrades | throughline/throughline/config.py:277-301 | the loop lists what the specification lists |
| Preflight.ValidateConfigText | siren/siren/reload.py:89-150 | the second implementation against the same published policy |
| Preflight.ValidatorsAgreeOnLists | siren/siren/reload.py:89-150 | with `effects` a list, both refuse alike or accept the same rules |
| Preflight.RefusedByFields | throughline/throughline/config.py:177-208 | the first rule that may not stand, by its fields, is refused by both with its id, line and policy |
| Preflight.TopByFields | throughline/throughline/config.py:157-175 | what both refuse before any rule is read, and where siren alone does |
| Preflight.RestByFields | throughline/throughline/config.py:221-226 | the version, and siren's signal classes |
| Preflight.TruthByFields | throughline/throughline/config.py:190-194 | what counts as false |
| Preflight.FiledByFields | throughline/throughline/config.py:135-139 | which effect types throughline fails on |
| Preflight.ValidatorsAgreeExactly | siren/siren/reload.py:89-150 | exactly which documents one accepts and the other does not |
| Preflight.SameRulesExactly | siren/siren/reload.py:130-136 | of a document both accept they read the same rules if and only if no description carries line numbers |
| Preflight.DescriptionKeepsLines | throughline/throughline/config.py:210-218 | a document they read differently |
| Preflight.EffectsMayBeAbsent | siren/siren/reload.py:101-106 | documents throughline accepts and siren refuses |
| Preflight.UnfiledEffectType | throughline/throughline/config.py:135-139 | a document siren accepts and throughline neither accepts nor refuses |
| Preflight.AcceptedIsSafe | throughline/throughline/config.py:197-208 | no registry either accepts has an irreversible rule that executes by itself |
| Preflight.HotReload.Drop | siren/siren/reload.py:215-384 | what is registered changes only with a swap the substrate made; a step of the timeline is green exactly when what it says has happened; each outcome exactly in its case |
| Reload.LastRuleWins | throughline/throughline/config.py:135-139 | the rule of a type is the last one that names it |
| Reload.ListedExactly | throughline/throughline/config.py:277-301 | a type is listed exactly if the candidate has a reversible rule for it and it is not reversible now |
| Reload.ListedByFields | throughline/throughline/config.py:293-300 | what the list says of a rule |
| Reload.SameTypeExactly | throughline/throughline/config.py:135-139 | when two effect types are one to the registry |
| Reload.NoLooseningMissed | throughline/throughline/config.py:277-301 | a type is really loosened exactly if it is listed and reversible in the candidate |
| ReloadLaws.ShadowedRuleIsListed | throughline/throughline/config.py:277-301 | a type that is listed and not loosened |
| Reload.ConfigService.Stage | throughline/throughline/config.py:323-337 | a refusal is ledgered and nothing becomes current |
| Reload.ConfigService.Apply | throughline/throughline/config.py:339-348 | the candidate is current and its loading is ledgered |
| Reload.ConfigService.ReloadConfig | throughline/throughline/app.py:451-491 | refused, applied or held; applied exactly if accepted with nothing listed; held under a new approval, or, if the registry lets downgrades execute by themselves, after executing what was held there |
| Reload.ConfigService.Execute | throughline/throughline/service.py:258-272 | the executor applies, once, what is held under the effect's id, whoever proposed the effect |
| Reload.ConfigService.PostEffect | throughline/throughline/gate.py:362-530 | a posted effect executes at once exactly if it is let in and classified reversible and executing by itself; otherwise it is queued or refused |
| Reload.ConfigService.Decide | throughline/throughline/gate.py:690-740 | an approval executes its effect, once; a rejection leaves the candidate where it is held |
| ReloadLaws.CurrentAfter | throughline/throughline/app.py:466-491 | the registry changes only to a reloaded candidate that loosens nothing, or to what is held under the id of an effect the step executes |
| ReloadLaws.StepLoosensExactly | throughline/throughline/service.py:258-272 | a step loosens a type if and only if it executes an effect under whose id a candidate is held that does |
| ReloadLaws.PostLoosensExactly | throughline/throughline/gate.py:362-399 | a posted effect does, if and only if one is held under its id that does, and it has a reversible rule that executes by itself, or no type and the claim |
| ReloadLaws.NoSilentLoosening | throughline/throughline/app.py:439-450 | over any run, a type that became reversible was made so by a step that executed an effect under whose id the candidate was held |
| ReloadLaws.LooseningsAreReleasesExactly | throughline/throughline/app.py:439-450 | over any run, every loosening is an approval if and only if nothing looser is held under the id of an effect that executes at once |
| ReloadLaws.FirstLooseningIsARelease | throughline/throughline/gate.py:386-399 | from a registry with downgrades irreversible, posted effects apart, the first loosening is an approval |
| ReloadLaws.PostedEffectApplies | throughline/throughline/gate.py:394-399 | a run in which a posted effect applies a candidate whose approval is pending |
| ReloadLaws.ReloadsApplyByThemselves | throughline/throughline/gate.py:386-389 | a run in which two reloads apply a candidate with no approval |
| ReloadLaws.RefusalChangesNothing | throughline/throughline/app.py:451-465 | over any run of reloads that fail, the running registry, the holds and their approvals stand, and of registry entries the ledger gains exactly the refusals |
| ReloadLaws.SourceRefused | throughline/throughline/config.py:239-277 | a path outside the allowlist and an unreadable file are refused, the first by the allowlist's policy, and nothing else changes |
| ReloadLaws.RegistriesComeFromDocuments | throughline/throughline/app.py:451-491 | over any run, every registry that runs or is held, if it was not there at the start, was read from a document reloaded in it |
| ReloadLaws.DecidedOnce | throughline/throughline/approvals.py:333-337 | a decided approval decides nothing more |
| ReloadLaws.RunningConfigIsSafe | throughline/throughline/config.py:197-208 | over any run, no running registry has an irreversible rule that executes by itself |
| ReloadLaws.HeldExactly | throughline/throughline/service.py:207-272 | over any run, what is held under an id is what the last operation to touch it held there, its list made against the registry that ran then |
| ReloadLaws.ReleaseAppliesItsOwnExactly | throughline/throughline/service.py:207-272 | over any run, an approval applies the candidate it was raised for if and only if the last operation to touch its id held that candidate |
| ReloadLaws.UntouchedApprovalAppliesItsOwn | throughline/throughline/service.py:207-272 | it does if nothing has touched the id since it was raised |
| ReloadLaws.SoleApprovalAppliesItsOwn | throughline/throughline/service.py:207-272 | the only approval of a path and version does, if no effect of that id ever executed at once |
| ReloadLaws.SecondHoldTakesOver | throughline/throughline/service.py:207-272 | one of two does not, and applies the other even if that was rejected |
| ReloadLaws.RejectedAppliesExactly | throughline/throughline/gate.py:728-731 | what becomes of a rejected candidate: it stays until its id is touched, and is then applied if that executes an effect there, replaced if it only holds another |
| ReloadLaws.RejectionIsFinal | throughline/throughline/gate.py:728-731 | when a rejected candidate is never applied |
| ReloadLaws.AppliedLoosensListed | throughline/throughline/service.py:207-272 | over any run, what is applied loosens what was listed, except exactly the types reversible then and tightened since |
| ReloadLaws.ReleaseCanLoosenUnlisted | throughline/throughline/service.py:207-272 | a run with such a type |
| LedgerPaging.PageExtends | throughline/throughline/app.py:399-422 | a page read at the end of a prefix extends it, to the end of the chain if there is no more |
| LedgerPaging.PageExactly | throughline/throughline/app.py:404-422 | for every offset, a page is the window asked for, and says whether and where the chain goes on |
| LedgerPaging.ReaderHoldsPrefix | throughline/throughline/app.py:384-394 | while the chain grows, a reader that follows the offsets holds a prefix of it, and when done at least all that was there at the start |
| LedgerPaging.ReaderProgress | throughline/throughline/app.py:399-422 | every request moves it on |
| LedgerPaging.ReaderFinishes | throughline/throughline/app.py:384-394 | once growth stops it finishes |
| LedgerPaging.ReaderTakesExactly | throughline/throughline/app.py:384-394 | a settled chain takes exactly as many requests as it has windows, an empty one takes one |
| QueuePaging.MatchesExactly | helm/helm/views.py:425-437 | the matches are the rows found, in queue order, and no others |
| QueuePaging.FoundByFields | helm/helm/views.py:425-437 | a row is found exactly if the text stands in one of its four fields, or the search is blank |
| QueuePaging.FoundByPart | helm/helm/views.py:61-64 | every row is found by any trimmed part of any of them |
| QueuePaging.EveryFoundRowIsReachable | helm/helm/views.py:408-424 | every row a search finds stands on a page there is, at a known place |
| QueuePaging.RowOnItsPage | helm/helm/views.py:450-456 | the index range a page states is exactly the rows it shows |
| QueuePaging.ExactlyOnePage | helm/helm/views.py:442-451 | every match falls on one page and no other |
| QueuePaging.NoEmptyPage | helm/helm/views.py:442-451 | a page is empty only if nothing matches |
| QueuePaging.AllPagesAreAllMatches | helm/helm/views.py:442-451 | all pages one after another are the matches, and the count stated is theirs |
| QueuePaging.PageIsInRange | helm/helm/views.py:444-449 | any page asked for is answered with the nearest there is |
| QueuePaging.PageByFields | helm/helm/views.py:384-398 | the sizes a page can have, and the counts it states |
| QueuePaging.LinkByFields | helm/helm/views.py:365-381 | a link leaves out what is at its default |
| QueuePaging.LinkRoundTrip | helm/helm/views.py:365-381 | following a link shows the page it was made for: search, page and size survive |
| QueuePaging.LinksLeadToNeighbours | helm/helm/views.py:490-493 | there is a next link exactly before the last page and a previous one exactly after the first, and each leads one page on or back |
| QueuePaging.NextLinksVisitEveryPage | helm/helm/views.py:490-493 | next links from the first page visit every page in order |
| QueuePaging.TwoHopsExactly | helm/helm/views.py:463-468 | any page is at most two numbered links away exactly while there are no more than eight |

## Left out

- HTTP, authentication, tokens other than the stand-in gate's, hashing of the chain, JSON and YAML syntax: the model starts from parsed values.
- NFKC folding, the Unicode table of digits and of letter case: parameters or assumed done.
- Clocks, time stamps and random ids: fresh values are parameters.
- Attestation, role checks, the tracing of effects to signals and the cap on duplicates in the real gate: whether an effect is taken in is a parameter, and `Recovery` has a hold and a decision as they happen once those checks have passed. Classification is modelled where the registry depends on it (`Reload`).
- Approvals.ApprovalQueue.PendingApprovals: the order is left open; maps here have no order, so the order of rows in the cache file is not modelled either.
- Approvals.ApprovalQueue.EnterWait: the part of `wait` under the lock; blocking and returning are steps of `Waiting`.
- Approvals.ApprovalQueue.Decide: the approval is a value replaced in the map, so a caller who kept the old object and sees it change is not modelled.
- Events of waiters are numbers with a set of those that fired, not objects of the platform.
- Recovery.LiveQueueIsReplay: not for `issuer` and `auth_mode`, which replay does not restore.
- Approvals.ApprovalQueue.ReadCache: text on which the JSON reader fails other than by refusing it, as on endless nesting, is not modelled.
- Recovery.CrashAnywhere: needs a chain that can be read and a cache file that is text; without the chain a load keeps what the cache has, which `Approvals.ApprovalQueue.Load` states.
- GridWatch.Engine.Ingest: what a model answers on a window is a parameter, and so is the text of the evidence; the cache of model answers and the list of abstentions are not modelled.
- GridWatch.Engine.ProposeEffect: a proposal's description, magnitude and time stamps are not modelled.
- HoldGate.MockThroughlineClient.PostSignal: of a signal's fields only what it points at is kept, as only its signal is of a judgment's in PostJudgment.
- HoldGate.MockThroughlineClient.PostJudgment: see PostSignal.
- Rule.DependsOnEndsOnly: numbers are reals and rounding is any function, so floating-point error is not modelled.
- Config.ParseConfig: keys of mappings are strings; other keys YAML allows are not modelled.
- Preflight.HotReload.Drop: the wording of the steps of the timeline is not modelled; `signal_classes` that is not a list reads as none.
- Reload.ConfigService.ReloadConfig: of the ledger only entries that concern the registry are kept, not those of signals, effects and decisions; a chain that cannot be written is not modelled.
- Reload.ConfigService.Stage: resolving a path and comparing it with the allowlist is a parameter; `ConfigStore.reload`, which start-up uses and which applies without looking for downgrades, is not modelled.
- ReloadLaws.SoleApprovalAppliesItsOwn: a restart, which forgets held candidates and keeps their approvals, is not among the runs, nor is a guardrail of someone else that keeps an effect from executing.
- Judge.RouteJudgment: the reply of the substrate is what was posted.
- LedgerPaging.ReaderHoldsPrefix: reading a tail without an offset, and the mark that says an entry was verified, are not modelled.
- QueuePaging.LinksLeadToNeighbours: size buttons, first, last and show-all links are not modelled.
- The relay, the dataset views, the map of incidents, the warrant pages and the command lines.
