/** Grid Watch in front of the stand-in gate: one open proposal per unit, no flood, and gate and proposals in step. */
module HeldQueue {
  import opened Text
  import opened EventIds
  import opened GridWatch
  import opened HoldGate
  import DispatchSafety

  datatype System = System(watch: Watch, gate: Gate)

  /** A reading evaluated, with the approval id the gate would mint for it; a decision relayed; or the gate asked what
      became of a proposal's effect. */
  datatype Event =
    | Reading(verdict: Verdict, approvalId: string)
    | Decision(proposalId: string, form: Form)
    | Refresh(proposalId: string)

  const START := System(Watch([], [], [], []), Gate(map[], map[], map[], map[], []))

  function SignalId(v: Verdict): string {
    StableId("sig-breaker", EventKey(v))
  }

  function JudgmentId(v: Verdict): string {
    StableId("jud-breaker", EventKey(v))
  }

  function PayloadRef(v: Verdict): string {
    "breaker://telemetry/" + v.unitId + "/tick/" + Decimal(v.tick)
  }

  function EffectOf(v: Verdict, approvalId: string): GateEffect {
    Recorded(EffectId(v), "irreversible", SignalId(v), JudgmentId(v), approvalId)
  }

  function ReplyOf(e: GateEffect): EffectReply {
    EffectReply(e.id, Some(e.reversibility), Some(e.reversibility), Some(e.status), e.approvalId)
  }

  function Step(s: System, caller: Caller, event: Event): System {
    match event
    case Reading(v, approvalId) =>
      if v.diverged && IsNew(s.watch, v) then
        var e := EffectOf(v, approvalId);
        System(Observe(s.watch, v, Posted(SignalId(v), JudgmentId(v), ReplyOf(e), NotListed)),
               WithEffect(WithJudgment(WithSignal(s.gate, SignalId(v), PayloadRef(v)), JudgmentId(v), SignalId(v)), e))
      else s.(watch := Observe(s.watch, v, PostFailed))
    case Decision(id, form) =>
      if !MayDecide(s.watch, id, form.subject) then s
      else
        var approvalId := s.watch.proposals[IndexOf(s.watch.proposals, id)].approvalId.value;
        if || RefusalOf(s.gate, caller, approvalId, form).Some?
           || s.gate.approvals[approvalId].effectId !in s.gate.effects
        then s
        else
          var a := DecidedApproval(s.gate.approvals[approvalId], form);
          var e := SettledEffect(s.gate.effects[a.effectId], form.decision);
          System(Relay(s.watch, id, form.subject, GridWatch.Decided(Some(a.decidedBy), Some(e.status))),
                 WithDecision(s.gate, a, e))
    case Refresh(id) =>
      var i := IndexOf(s.watch.proposals, id);
      if i == |s.watch.proposals| || s.watch.proposals[i].effectId !in s.gate.effects then s
      else
        var status := s.gate.effects[s.watch.proposals[i].effectId].status;
        s.(watch := Refreshed(s.watch, id, EffectIs(Some(status))))
  }

  function Run(caller: Caller, events: seq<Event>): System {
    if events == [] then START else Step(Run(caller, events[..|events| - 1]), caller, events[|events| - 1])
  }

  /** The gate mints an approval id it has not used before. */
  ghost predicate FreshIds(caller: Caller, events: seq<Event>) {
    events == [] ||
    (&& FreshIds(caller, events[..|events| - 1])
     && var last, gate := events[|events| - 1], Run(caller, events[..|events| - 1]).gate;
        last.Reading? ==> last.approvalId != "" && last.approvalId !in gate.approvals)
  }

  /** The unit and tick of every diverging reading. */
  function SeenPairs(events: seq<Event>): set<(string, int)> {
    set e <- events | e.Reading? && e.verdict.diverged :: (e.verdict.unitId, e.verdict.tick)
  }

  // ---- one proposal and its counterpart at the gate ----

  ghost predicate InStep(p: Proposal, a: GateApproval, e: GateEffect) {
    match a.state
    case Pending => e.status == "queued" && p.status in {WaitingAtGate, Withdrawn} && p.executionCount == 0
    case Approved => e.status == "executed" && p.status == ApprovedByGate && p.executionCount == 1
    case Rejected => e.status == "rejected" && p.status == RejectedByGate && p.executionCount == 0
  }

  ghost predicate Linked(p: Proposal, g: Gate) {
    && p.approvalId.Some? && p.approvalId.value != ""
    && p.approvalId.value in g.approvals && p.effectId in g.effects
    && LinkedTo(p, g.approvals[p.approvalId.value], g.effects[p.effectId])
    && p.signalId in g.signals && p.judgmentId in g.judgments && g.judgments[p.judgmentId] == p.signalId
  }

  ghost predicate LinkedTo(p: Proposal, a: GateApproval, e: GateEffect) {
    && Some(a.id) == p.approvalId == e.approvalId
    && e.id == p.effectId == a.effectId
    && e.signalId == p.signalId && e.judgmentId == p.judgmentId
    && InStep(p, a, e)
  }

  /** The ids of a proposal and of all it posted come from one key. */
  ghost predicate Named(p: Proposal) {
    && p.id == StableId("prop", p.key) == EventId("prop", p.unitId, p.tick, KIND)
    && p.effectId == StableId("eff-breaker", p.key)
    && p.signalId == StableId("sig-breaker", p.key) && p.judgmentId == StableId("jud-breaker", p.key)
  }

  ghost predicate Owned(ps: seq<Proposal>, effectId: string) {
    exists i | 0 <= i < |ps| :: ps[i].effectId == effectId
  }

  ghost predicate OneOpenPerUnit(ps: seq<Proposal>) {
    forall i, j, unit | 0 <= i < j < |ps| && IsOpen(ps[i], unit) :: !IsOpen(ps[j], unit)
  }

  ghost predicate FileOk(ps: seq<Proposal>) {
    DispatchSafety.DistinctIds(ps) && forall i | 0 <= i < |ps| :: Named(ps[i])
  }

  /** As many effects and approvals as proposals, and no effect without its proposal. */
  ghost predicate Counted(ps: seq<Proposal>, g: Gate) {
    && |g.effects| == |g.approvals| == |ps|
    && forall e <- g.effects :: Owned(ps, e)
  }

  ghost predicate AllLinked(ps: seq<Proposal>, g: Gate) {
    forall i | 0 <= i < |ps| :: Linked(ps[i], g)
  }

  ghost predicate Inv(s: System) {
    && FileOk(s.watch.proposals) && Counted(s.watch.proposals, s.gate) && AllLinked(s.watch.proposals, s.gate)
    && s.watch.violations == []
  }

  // ---- every step keeps it ----

  lemma SameProposalSamePosts(key1: string, key2: string)
    ensures StableId("prop", key1) == StableId("prop", key2)
       <==> StableId("eff-breaker", key1) == StableId("eff-breaker", key2)
    ensures StableId("prop", key1) == StableId("prop", key2)
       <==> StableId("sig-breaker", key1) == StableId("sig-breaker", key2)
    ensures StableId("prop", key1) == StableId("prop", key2)
       <==> StableId("jud-breaker", key1) == StableId("jud-breaker", key2)
  {
    PrefixIsNoMatter("prop", "eff-breaker", key1, key2);
    PrefixIsNoMatter("prop", "sig-breaker", key1, key2);
    PrefixIsNoMatter("prop", "jud-breaker", key1, key2);
  }

  lemma DistinctPosts(p: Proposal, key: string)
    requires Named(p) && p.id != StableId("prop", key)
    ensures p.effectId != StableId("eff-breaker", key) && p.judgmentId != StableId("jud-breaker", key)
  {
    SameProposalSamePosts(p.key, key);
  }

  lemma LinkSurvives(p: Proposal, g: Gate, g': Gate)
    requires Linked(p, g)
    requires p.approvalId.value in g'.approvals && g'.approvals[p.approvalId.value] == g.approvals[p.approvalId.value]
    requires p.effectId in g'.effects && g'.effects[p.effectId] == g.effects[p.effectId]
    requires g.signals.Keys <= g'.signals.Keys
    requires p.judgmentId in g'.judgments && g'.judgments[p.judgmentId] == g.judgments[p.judgmentId]
    ensures Linked(p, g')
  {
  }

  lemma FileGrows(ps: seq<Proposal>, p: Proposal)
    requires FileOk(ps) && Named(p) && IndexOf(ps, p.id) == |ps|
    ensures FileOk(ps + [p])
  {
    hide Named;
    assert forall i | 0 <= i < |ps| :: ps[i].id != p.id;
  }

  lemma KeysGrow<V>(m: map<string, V>, m': map<string, V>, k: string)
    requires k !in m && m'.Keys == m.Keys + {k}
    ensures |m'| == |m| + 1
  {
  }

  lemma OwnedGrows(ps: seq<Proposal>, p: Proposal, effectId: string)
    requires Owned(ps, effectId) || p.effectId == effectId
    ensures Owned(ps + [p], effectId)
  {
    if p.effectId == effectId {
      assert (ps + [p])[|ps|] == p;
    } else {
      var i :| 0 <= i < |ps| && ps[i].effectId == effectId;
      assert (ps + [p])[i] == ps[i];
    }
  }

  lemma CountGrows(ps: seq<Proposal>, g: Gate, p: Proposal, g': Gate)
    requires Counted(ps, g)
    requires p.effectId !in g.effects && p.approvalId.Some? && p.approvalId.value !in g.approvals
    requires g'.effects.Keys == g.effects.Keys + {p.effectId}
    requires g'.approvals.Keys == g.approvals.Keys + {p.approvalId.value}
    ensures Counted(ps + [p], g')
  {
    hide Owned;
    KeysGrow(g.effects, g'.effects, p.effectId);
    KeysGrow(g.approvals, g'.approvals, p.approvalId.value);
    forall e <- g'.effects
      ensures Owned(ps + [p], e)
    {
      assert e in g'.effects.Keys;
      assert e in g.effects || e == p.effectId;
      OwnedGrows(ps, p, e);
    }
  }

  lemma NewPosts(ps: seq<Proposal>, g: Gate, key: string)
    requires FileOk(ps) && Counted(ps, g) && IndexOf(ps, StableId("prop", key)) == |ps|
    ensures StableId("eff-breaker", key) !in g.effects
    ensures forall i | 0 <= i < |ps| ::
              ps[i].effectId != StableId("eff-breaker", key) && ps[i].judgmentId != StableId("jud-breaker", key)
  {
    hide StableId;
    forall i | 0 <= i < |ps|
      ensures ps[i].effectId != StableId("eff-breaker", key) && ps[i].judgmentId != StableId("jud-breaker", key)
    {
      assert Named(ps[i]);
      DistinctPosts(ps[i], key);
    }
    forall e <- g.effects
      ensures e != StableId("eff-breaker", key)
    {
      assert Owned(ps, e);
      var i :| 0 <= i < |ps| && ps[i].effectId == e;
    }
  }

  function NewProposal(v: Verdict, approvalId: string): Proposal {
    Proposal(ProposalId(v), v.unitId, v.tick, WaitingAtGate, v.evidence, EventKey(v), SignalId(v), JudgmentId(v),
             EffectId(v), Some(approvalId), None, 0)
  }

  /** What proposing does to both sides. */
  lemma Proposing(s: System, caller: Caller, v: Verdict, approvalId: string)
    requires v.diverged && IsNew(s.watch, v) && approvalId != ""
    ensures var s' := Step(s, caller, Reading(v, approvalId));
            && s'.watch.proposals == s.watch.proposals + [NewProposal(v, approvalId)]
            && s'.watch.violations == s.watch.violations
            && s'.gate.effects == s.gate.effects[EffectId(v) := EffectOf(v, approvalId)]
            && s'.gate.approvals == s.gate.approvals[approvalId := Undecided(approvalId, EffectId(v))]
            && s'.gate.signals == s.gate.signals[SignalId(v) := PayloadRef(v)]
            && s'.gate.judgments == s.gate.judgments[JudgmentId(v) := SignalId(v)]
  {
  }

  lemma NewIsLinked(v: Verdict, approvalId: string, g: Gate)
    requires approvalId != ""
    requires approvalId in g.approvals && g.approvals[approvalId] == Undecided(approvalId, EffectId(v))
    requires EffectId(v) in g.effects && g.effects[EffectId(v)] == EffectOf(v, approvalId)
    requires SignalId(v) in g.signals && JudgmentId(v) in g.judgments && g.judgments[JudgmentId(v)] == SignalId(v)
    ensures Linked(NewProposal(v, approvalId), g)
  {
  }

  /** The gate takes in a signal, a judgment on it, and an effect held under an approval. */
  ghost predicate TakesIn(g: Gate, g': Gate, p: Proposal, e: GateEffect, a: GateApproval) {
    && g'.signals.Keys == g.signals.Keys + {p.signalId} && g'.judgments == g.judgments[p.judgmentId := p.signalId]
    && g'.effects == g.effects[e.id := e] && g'.approvals == g.approvals[a.id := a]
  }

  /** Links survive that, if no proposal refers to what comes in. */
  lemma LinksSurvive(ps: seq<Proposal>, g: Gate, g': Gate, p: Proposal, e: GateEffect, a: GateApproval)
    requires AllLinked(ps, g) && TakesIn(g, g', p, e, a)
    requires forall i | 0 <= i < |ps| :: ps[i].effectId != e.id && ps[i].judgmentId != p.judgmentId
    requires a.id !in g.approvals
    ensures AllLinked(ps, g')
  {
    hide LinkedTo;
    forall i | 0 <= i < |ps|
      ensures Linked(ps[i], g')
    {
      LinkSurvives(ps[i], g, g');
    }
  }

  lemma LinksGrow(ps: seq<Proposal>, p: Proposal, g: Gate)
    requires AllLinked(ps, g) && Linked(p, g)
    ensures AllLinked(ps + [p], g)
  {
  }

  lemma EffectOfIsNamed(v: Verdict, approvalId: string)
    ensures EffectOf(v, approvalId).id == EffectId(v)
  {
  }

  /** One more proposal with an effect and an approval of its own. */
  lemma AddingKeepsInv(s: System, p: Proposal, e: GateEffect, a: GateApproval, s': System)
    requires Inv(s) && Named(p) && IndexOf(s.watch.proposals, p.id) == |s.watch.proposals|
    requires p.effectId == e.id && p.approvalId == Some(a.id) && a.id !in s.gate.approvals
    requires s'.watch.proposals == s.watch.proposals + [p] && s'.watch.violations == []
    requires TakesIn(s.gate, s'.gate, p, e, a) && Linked(p, s'.gate)
    ensures Inv(s')
  {
    hide StableId, EventId, FileOk, Counted, AllLinked, Linked, IndexOf, OpenIndex;
    var ps := s.watch.proposals;
    NewPosts(ps, s.gate, p.key);
    FileGrows(ps, p);
    assert Counted(ps + [p], s'.gate) by {
      CountGrows(ps, s.gate, p, s'.gate);
    }
    LinksSurvive(ps, s.gate, s'.gate, p, e, a);
    LinksGrow(ps, p, s'.gate);
  }

  /** A new proposal brings its own signal, judgment, effect and approval. */
  lemma ProposingKeepsInv(s: System, caller: Caller, v: Verdict, approvalId: string)
    requires Inv(s) && v.diverged && IsNew(s.watch, v) && approvalId != "" && approvalId !in s.gate.approvals
    ensures Inv(Step(s, caller, Reading(v, approvalId)))
  {
    hide StableId, EventKey, EventId, FileOk, Counted, AllLinked, IndexOf, OpenIndex, Step, Named, EffectOf, Linked;
    var s' := Step(s, caller, Reading(v, approvalId));
    Proposing(s, caller, v, approvalId);
    NewIsNamed(v, approvalId);
    EffectOfIsNamed(v, approvalId);
    NewIsLinked(v, approvalId, s'.gate);
    AddingKeepsInv(s, NewProposal(v, approvalId), EffectOf(v, approvalId), Undecided(approvalId, EffectId(v)), s');
  }

  lemma NewIsNamed(v: Verdict, approvalId: string)
    ensures Named(NewProposal(v, approvalId))
    ensures ProposalId(v) == StableId("prop", EventKey(v)) == EventId("prop", v.unitId, v.tick, KIND)
    ensures EffectId(v) == StableId("eff-breaker", EventKey(v))
  {
  }

  lemma FileUpdated(ps: seq<Proposal>, i: nat, p: Proposal)
    requires FileOk(ps) && i < |ps| && Named(p) && p.id == ps[i].id
    ensures FileOk(ps[i := p])
  {
  }

  lemma CountStays(ps: seq<Proposal>, g: Gate, i: nat, p: Proposal, g': Gate)
    requires Counted(ps, g) && i < |ps| && p.effectId == ps[i].effectId
    requires g'.effects.Keys == g.effects.Keys && g'.approvals.Keys == g.approvals.Keys
    ensures Counted(ps[i := p], g')
  {
    assert |g'.effects| == |g'.effects.Keys| && |g.effects| == |g.effects.Keys|;
    assert |g'.approvals| == |g'.approvals.Keys| && |g.approvals| == |g.approvals.Keys|;
    forall e <- g'.effects
      ensures Owned(ps[i := p], e)
    {
      assert Owned(ps, e);
      var k :| 0 <= k < |ps| && ps[k].effectId == e;
      assert ps[i := p][k].effectId == e;
    }
  }

  /** A reading that proposes nothing touches one proposal at most, and the gate not at all. */
  lemma ObservingKeepsInv(s: System, caller: Caller, v: Verdict, approvalId: string)
    requires Inv(s) && !(v.diverged && IsNew(s.watch, v))
    ensures Inv(Step(s, caller, Reading(v, approvalId)))
  {
    hide StableId, EventId, FileOk, Counted, IndexOf, OpenIndex;
    var ps := s.watch.proposals;
    var ps' := Step(s, caller, Reading(v, approvalId)).watch.proposals;
    if ps' != ps {
      var i := if v.diverged then IndexOf(ps, ProposalId(v)) else OpenIndex(ps, v.unitId);
      assert ps' == ps[i := ps'[i]];
      assert Named(ps[i]) by { FileNamed(ps, i); }
      assert Named(ps'[i]) by {
        if v.diverged {
          NewIsNamed(v, approvalId);
          SameProposalSamePosts(ps[i].key, EventKey(v));
        }
      }
      FileUpdated(ps, i, ps'[i]);
      CountStays(ps, s.gate, i, ps'[i], s.gate);
      assert Linked(ps[i], s.gate);
      assert Linked(ps'[i], s.gate);
      assert forall k | 0 <= k < |ps| && k != i :: ps'[k] == ps[k] && Linked(ps[k], s.gate);
    }
  }

  lemma FileNamed(ps: seq<Proposal>, i: nat)
    requires FileOk(ps) && i < |ps|
    ensures Named(ps[i])
  {
  }

  /** Two proposals share neither effect nor approval. */
  lemma OthersUntouched(s: System, i: nat, k: nat)
    requires Inv(s) && i < |s.watch.proposals| && k < |s.watch.proposals| && i != k
    ensures s.watch.proposals[i].effectId != s.watch.proposals[k].effectId
    ensures s.watch.proposals[i].approvalId != s.watch.proposals[k].approvalId
  {
    hide StableId, EventId, Counted;
    var ps := s.watch.proposals;
    assert Named(ps[i]) && Named(ps[k]) && ps[i].id != ps[k].id;
    DistinctPosts(ps[i], ps[k].key);
    assert Linked(ps[i], s.gate) && Linked(ps[k], s.gate);
  }

  lemma DecisionKeepsInv(s: System, caller: Caller, id: string, form: Form)
    requires Inv(s)
    ensures Inv(Step(s, caller, Decision(id, form)))
  {
    hide StableId, EventId, FileOk, Counted, IndexOf, OpenIndex, Named;
    var s' := Step(s, caller, Decision(id, form));
    if s' != s {
      var ps, ps' := s.watch.proposals, s'.watch.proposals;
      var i := IndexOf(ps, id);
      var a := DecidedApproval(s.gate.approvals[ps[i].approvalId.value], form);
      var e := SettledEffect(s.gate.effects[a.effectId], form.decision);
      assert Linked(ps[i], s.gate);
      assert s'.gate == WithDecision(s.gate, a, e);
      assert ps' == ps[i := ps'[i]];
      FileNamed(ps, i);
      SameName(ps[i], ps'[i]);
      FileUpdated(ps, i, ps'[i]);
      CountStays(ps, s.gate, i, ps'[i], s'.gate);
      assert Linked(ps'[i], s'.gate);
      forall k | 0 <= k < |ps| && k != i
        ensures Linked(ps'[k], s'.gate)
      {
        OthersUntouched(s, i, k);
        assert Linked(ps[k], s.gate);
        LinkSurvives(ps[k], s.gate, s'.gate);
      }
    }
  }

  lemma RefreshKeepsInv(s: System, caller: Caller, id: string)
    requires Inv(s)
    ensures Inv(Step(s, caller, Refresh(id)))
    ensures Step(s, caller, Refresh(id)).watch.dispatches == s.watch.dispatches
  {
    hide StableId, EventId, FileOk, Counted, IndexOf, OpenIndex, Named;
    var s' := Step(s, caller, Refresh(id));
    var ps, ps', i := s.watch.proposals, s'.watch.proposals, IndexOf(s.watch.proposals, id);
    if i < |ps| {
      assert Linked(ps[i], s.gate);
      if ps' != ps {
        assert ps' == ps[i := ps'[i]];
        FileNamed(ps, i);
        SameName(ps[i], ps'[i]);
        FileUpdated(ps, i, ps'[i]);
        CountStays(ps, s.gate, i, ps'[i], s.gate);
        assert Linked(ps'[i], s.gate);
        assert forall k | 0 <= k < |ps| && k != i :: ps'[k] == ps[k] && Linked(ps[k], s.gate);
      }
    }
  }

  lemma SameName(p: Proposal, q: Proposal)
    requires Named(p) && q.id == p.id && q.key == p.key && q.unitId == p.unitId && q.tick == p.tick
    requires q.effectId == p.effectId && q.signalId == p.signalId && q.judgmentId == p.judgmentId
    ensures Named(q)
  {
  }

  lemma {:induction false} RunKeepsInv(caller: Caller, events: seq<Event>)
    requires FreshIds(caller, events)
    ensures Inv(Run(caller, events))
  {
    hide Inv, Step;
    if events == [] {
      StartKeepsInv();
    } else {
      var n := |events| - 1;
      RunKeepsInv(caller, events[..n]);
      var s := Run(caller, events[..n]);
      match events[n]
      case Reading(v, approvalId) =>
        if v.diverged && IsNew(s.watch, v) {
          ProposingKeepsInv(s, caller, v, approvalId);
        } else {
          ObservingKeepsInv(s, caller, v, approvalId);
        }
      case Decision(id, form) =>
        DecisionKeepsInv(s, caller, id, form);
      case Refresh(id) =>
        RefreshKeepsInv(s, caller, id);
    }
  }

  lemma StartKeepsInv()
    ensures Inv(START)
  {
  }

  // ---- what the operator is promised ----

  /** Gate and proposals correspond one to one: as many effects and as many approvals as proposals, no two proposals
      sharing either, each in step with its own and traced to a signal the gate has; and the hold check never fails. */
  lemma GateMirrorsProposals(caller: Caller, events: seq<Event>)
    requires FreshIds(caller, events)
    ensures var s := Run(caller, events);
            && |s.gate.effects| == |s.gate.approvals| == |s.watch.proposals|
            && (forall i | 0 <= i < |s.watch.proposals| :: Linked(s.watch.proposals[i], s.gate))
            && (forall i, j | 0 <= i < j < |s.watch.proposals| ::
                  s.watch.proposals[i].effectId != s.watch.proposals[j].effectId
                  && s.watch.proposals[i].approvalId != s.watch.proposals[j].approvalId)
            && s.watch.violations == []
  {
    hide StableId, EventId, Linked, Named;
    RunKeepsInv(caller, events);
    var s := Run(caller, events);
    forall i, j | 0 <= i < j < |s.watch.proposals|
      ensures s.watch.proposals[i].effectId != s.watch.proposals[j].effectId
           && s.watch.proposals[i].approvalId != s.watch.proposals[j].approvalId
    {
      OthersUntouched(s, i, j);
    }
  }

  lemma ProposalWasSeen(s: System, caller: Caller, event: Event, k: nat)
    requires k < |Step(s, caller, event).watch.proposals|
    ensures var p := Step(s, caller, event).watch.proposals[k];
            || (&& k < |s.watch.proposals|
                && p.unitId == s.watch.proposals[k].unitId && p.tick == s.watch.proposals[k].tick)
            || (&& event.Reading? && event.verdict.diverged
                && p.unitId == event.verdict.unitId && p.tick == event.verdict.tick)
  {
    hide StableId, EventId, EventKey, EffectOf, RefusalOf, WithEffect, WithDecision, IndexOf, OpenIndex;
  }

  lemma {:induction false} ProposalsWereSeen(caller: Caller, events: seq<Event>, k: nat)
    requires k < |Run(caller, events).watch.proposals|
    ensures var p := Run(caller, events).watch.proposals[k]; (p.unitId, p.tick) in SeenPairs(events)
  {
    hide Step;
    var n := |events| - 1;
    ProposalWasSeen(Run(caller, events[..n]), caller, events[n], k);
    var p := Run(caller, events).watch.proposals[k];
    if k < |Run(caller, events[..n]).watch.proposals| {
      ProposalsWereSeen(caller, events[..n], k);
    }
    assert forall e <- events[..n] :: e in events;
    assert events[n] in events;
  }

  lemma {:induction false} DistinctCount(pairs: seq<(string, int)>)
    requires forall i, j | 0 <= i < j < |pairs| :: pairs[i] != pairs[j]
    ensures var s := set x <- pairs;
            |s| == |pairs|
  {
    if pairs != [] {
      var front, last := pairs[..|pairs| - 1], pairs[|pairs| - 1];
      DistinctCount(front);
      assert (set x <- pairs) == (set x <- front) + {last};
    }
  }

  lemma SubsetCount<T>(a: set<T>, b: set<T>)
    requires a <= b
    ensures |a| <= |b|
  {
    assert b == a + (b - a);
  }

  /** No flood: however often readings are repeated, re-driven or out of order, there are never more proposals, and so
      never more effects at the gate, than distinct pairs of unit and tick that diverged. */
  lemma NoFlood(caller: Caller, events: seq<Event>)
    requires FreshIds(caller, events)
    ensures |Run(caller, events).gate.effects| == |Run(caller, events).watch.proposals| <= |SeenPairs(events)|
  {
    hide StableId, EventId, Linked, Run;
    RunKeepsInv(caller, events);
    var ps := Run(caller, events).watch.proposals;
    var pairs := seq(|ps|, i requires 0 <= i < |ps| => (ps[i].unitId, ps[i].tick));
    forall i, j | 0 <= i < j < |ps|
      ensures pairs[i] != pairs[j]
    {
      assert Named(ps[i]) && Named(ps[j]) && ps[i].id != ps[j].id;
    }
    DistinctCount(pairs);
    forall x <- pairs
      ensures x in SeenPairs(events)
    {
      var i :| 0 <= i < |ps| && pairs[i] == x;
      ProposalsWereSeen(caller, events, i);
    }
    SubsetCount((set x <- pairs), SeenPairs(events));
  }

  lemma ApprovalOfWithdrawn(s: System, caller: Caller, i: nat, form: Form)
    requires i < |s.watch.proposals| && caller.token != "" && form.subject != "" && IsCallerRole(caller, form.role)
    requires form.decision == "approve"
    ensures var p := s.watch.proposals[i];
            Inv(s) && p.status == Withdrawn ==>
              && IndexOf(s.watch.proposals, p.id) == i
              && Step(s, caller, Decision(p.id, form)).watch.dispatches
                 == s.watch.dispatches + [Dispatch(p.id, p.unitId, p.effectId, Some(form.subject))]
  {
    hide StableId, EventId, IndexOf, Counted, Named;
    var p := s.watch.proposals[i];
    if Inv(s) && p.status == Withdrawn {
      assert Linked(p, s.gate);
      assert IndexOf(s.watch.proposals, p.id) == i;
    }
  }

  /** Withdrawal does not close the hold: an accepted approval still dispatches a withdrawn proposal, from every
      reachable state. */
  lemma WithdrawnIsStillDispatched(caller: Caller, events: seq<Event>, i: nat, form: Form)
    requires FreshIds(caller, events)
    requires i < |Run(caller, events).watch.proposals| && Run(caller, events).watch.proposals[i].status == Withdrawn
    requires caller.token != "" && form.subject != "" && IsCallerRole(caller, form.role) && form.decision == "approve"
    ensures var w, p := Run(caller, events).watch, Run(caller, events).watch.proposals[i];
            Run(caller, events + [Decision(p.id, form)]).watch.dispatches
            == w.dispatches + [Dispatch(p.id, p.unitId, p.effectId, Some(form.subject))]
  {
    hide Step, Inv;
    RunKeepsInv(caller, events);
    ApprovalOfWithdrawn(Run(caller, events), caller, i, form);
    var p := Run(caller, events).watch.proposals[i];
    assert (events + [Decision(p.id, form)])[..|events|] == events;
  }

  // ---- one open proposal per unit, exactly ----

  lemma OpenGrows(ps: seq<Proposal>, p: Proposal)
    requires OneOpenPerUnit(ps) && OpenIndex(ps, p.unitId) == |ps|
    ensures OneOpenPerUnit(ps + [p])
  {
  }

  lemma ReplacedOpensOneExactly(ps: seq<Proposal>, i: nat, p: Proposal)
    requires OneOpenPerUnit(ps) && i < |ps| && p.unitId == ps[i].unitId
    ensures OneOpenPerUnit(ps[i := p])
       <==> !(IsOpen(p, p.unitId) && !IsOpen(ps[i], p.unitId) && OpenIndex(ps, p.unitId) < |ps|)
  {
    var unit, other, qs := p.unitId, OpenIndex(ps, p.unitId), ps[i := p];
    if other < |ps| && other != i {
      assert qs[other] == ps[other] && qs[i] == p;
    }
    forall j, k, u | 0 <= j < k < |qs| && IsOpen(qs[j], u) && IsOpen(qs[k], u)
      ensures u == unit && IsOpen(p, unit) && !IsOpen(ps[i], unit) && other < |ps|
    {
      assert j != i ==> qs[j] == ps[j];
      assert k != i ==> qs[k] == ps[k];
    }
  }

  /** Whatever the gate answers, a refresh leaves one open proposal per unit, except exactly when it opens again one
      that was not open while another one of its unit is. */
  lemma RefreshKeepsOneOpenExactly(w: Watch, id: string, reply: RefreshReply)
    requires OneOpenPerUnit(w.proposals)
    ensures var ps, i := w.proposals, IndexOf(w.proposals, id);
            OneOpenPerUnit(Refreshed(w, id, reply).proposals)
            <==> !(&& i < |ps| && ps[i].effectId != ""
                   && reply.EffectIs? && reply.status in {Some("queued"), Some("waiting_at_gate")}
                   && !IsOpen(ps[i], ps[i].unitId) && OpenIndex(ps, ps[i].unitId) < |ps|)
  {
    hide OneOpenPerUnit, IndexOf, OpenIndex;
    var ps, i := w.proposals, IndexOf(w.proposals, id);
    var ps' := Refreshed(w, id, reply).proposals;
    if ps' != ps {
      assert ps' == ps[i := ps'[i]];
      ReplacedOpensOneExactly(ps, i, ps'[i]);
    }
  }

  /** The event refreshes a withdrawn proposal while another one of its unit is open. */
  ghost predicate Reopens(s: System, event: Event) {
    && event.Refresh?
    && var ps, i := s.watch.proposals, IndexOf(s.watch.proposals, event.proposalId);
       i < |ps| && ps[i].status == Withdrawn && OpenIndex(ps, ps[i].unitId) < |ps|
  }

  lemma ReadingKeepsOneOpen(s: System, caller: Caller, v: Verdict, approvalId: string)
    requires OneOpenPerUnit(s.watch.proposals)
    requires v.diverged && IsNew(s.watch, v) ==> approvalId != ""
    ensures OneOpenPerUnit(Step(s, caller, Reading(v, approvalId)).watch.proposals)
  {
    hide StableId, OneOpenPerUnit, IndexOf, OpenIndex, EffectOf, WithEffect, NewProposal;
    var ps, ps' := s.watch.proposals, Step(s, caller, Reading(v, approvalId)).watch.proposals;
    if v.diverged && IsNew(s.watch, v) {
      Proposing(s, caller, v, approvalId);
      NewIsWaiting(v, approvalId);
      OpenGrows(ps, NewProposal(v, approvalId));
    } else if ps' != ps {
      var i := if v.diverged then IndexOf(ps, ProposalId(v)) else OpenIndex(ps, v.unitId);
      assert ps' == ps[i := ps'[i]];
      ReplacedOpensOneExactly(ps, i, ps'[i]);
    }
  }

  lemma NewIsWaiting(v: Verdict, approvalId: string)
    ensures NewProposal(v, approvalId).unitId == v.unitId
  {
  }

  lemma DecisionKeepsOneOpen(s: System, caller: Caller, id: string, form: Form)
    requires OneOpenPerUnit(s.watch.proposals)
    ensures OneOpenPerUnit(Step(s, caller, Decision(id, form)).watch.proposals)
  {
    hide OneOpenPerUnit, IndexOf, OpenIndex, RefusalOf;
    var ps, ps' := s.watch.proposals, Step(s, caller, Decision(id, form)).watch.proposals;
    if ps' != ps {
      var i := IndexOf(ps, id);
      assert ps' == ps[i := ps'[i]];
      ReplacedOpensOneExactly(ps, i, ps'[i]);
    }
  }

  lemma RefreshedHereExactly(s: System, caller: Caller, id: string)
    requires Inv(s) && OneOpenPerUnit(s.watch.proposals)
    ensures OneOpenPerUnit(Step(s, caller, Refresh(id)).watch.proposals) <==> !Reopens(s, Refresh(id))
  {
    hide StableId, EventId, FileOk, Counted, OneOpenPerUnit, IndexOf, OpenIndex, Named, Refreshed;
    var ps, i := s.watch.proposals, IndexOf(s.watch.proposals, id);
    if i < |ps| {
      assert Linked(ps[i], s.gate);
      RefreshKeepsOneOpenExactly(s.watch, id, EffectIs(Some(s.gate.effects[ps[i].effectId].status)));
      EffectIsNamed(s, i);
    }
  }

  lemma EffectIsNamed(s: System, i: nat)
    requires Inv(s) && i < |s.watch.proposals|
    ensures s.watch.proposals[i].effectId != ""
  {
    FileNamed(s.watch.proposals, i);
  }

  lemma StepKeepsOneOpenExactly(s: System, caller: Caller, event: Event)
    requires Inv(s) && OneOpenPerUnit(s.watch.proposals)
    requires event.Reading? ==> event.approvalId != ""
    ensures OneOpenPerUnit(Step(s, caller, event).watch.proposals) <==> !Reopens(s, event)
  {
    hide Inv, OneOpenPerUnit, Step;
    match event
    case Reading(v, approvalId) => ReadingKeepsOneOpen(s, caller, v, approvalId);
    case Decision(id, form) => DecisionKeepsOneOpen(s, caller, id, form);
    case Refresh(id) => RefreshedHereExactly(s, caller, id);
  }

  /** At every point of the run, no unit has two open proposals. */
  ghost predicate AlwaysOneOpen(caller: Caller, events: seq<Event>) {
    && OneOpenPerUnit(Run(caller, events).watch.proposals)
    && (events != [] ==> AlwaysOneOpen(caller, events[..|events| - 1]))
  }

  ghost predicate NeverReopens(caller: Caller, events: seq<Event>) {
    events != [] ==>
      && NeverReopens(caller, events[..|events| - 1])
      && !Reopens(Run(caller, events[..|events| - 1]), events[|events| - 1])
  }

  /** One open proposal per unit throughout a run, if and only if the run never refreshes a withdrawn proposal while
      another one of its unit is open. */
  lemma {:induction false} OneOpenExactly(caller: Caller, events: seq<Event>)
    requires FreshIds(caller, events)
    ensures AlwaysOneOpen(caller, events) <==> NeverReopens(caller, events)
  {
    hide Inv, Step, Reopens, OneOpenPerUnit;
    if events == [] {
      NoneOpenAtStart();
    } else {
      var n := |events| - 1;
      OneOpenExactly(caller, events[..n]);
      if AlwaysOneOpen(caller, events[..n]) {
        RunKeepsInv(caller, events[..n]);
        StepKeepsOneOpenExactly(Run(caller, events[..n]), caller, events[n]);
      }
    }
  }

  lemma NoneOpenAtStart()
    ensures OneOpenPerUnit(START.watch.proposals)
  {
  }

  /** So readings and decisions alone, repeated, re-driven or out of order, never open a second one. */
  lemma AtMostOneOpen(caller: Caller, events: seq<Event>)
    requires FreshIds(caller, events) && forall e <- events :: !e.Refresh?
    ensures var ps := Run(caller, events).watch.proposals;
            forall i, j | 0 <= i < j < |ps| && ps[i].unitId == ps[j].unitId ::
              !(ps[i].status in {Proposed, WaitingAtGate} && ps[j].status in {Proposed, WaitingAtGate})
  {
    hide Run;
    OneOpenExactly(caller, events);
    NoRefreshNeverReopens(caller, events);
    OneOpenByFields(Run(caller, events).watch.proposals);
  }

  lemma OneOpenByFields(ps: seq<Proposal>)
    requires OneOpenPerUnit(ps)
    ensures forall i, j | 0 <= i < j < |ps| && ps[i].unitId == ps[j].unitId ::
              !(ps[i].status in {Proposed, WaitingAtGate} && ps[j].status in {Proposed, WaitingAtGate})
  {
    forall i, j | 0 <= i < j < |ps| && ps[i].unitId == ps[j].unitId
      ensures !(ps[i].status in {Proposed, WaitingAtGate} && ps[j].status in {Proposed, WaitingAtGate})
    {
      assert IsOpen(ps[i], ps[i].unitId) ==> !IsOpen(ps[j], ps[i].unitId);
    }
  }

  lemma {:induction false} NoRefreshNeverReopens(caller: Caller, events: seq<Event>)
    requires forall e <- events :: !e.Refresh?
    ensures NeverReopens(caller, events)
  {
    if events != [] {
      NoRefreshNeverReopens(caller, events[..|events| - 1]);
    }
  }

  // ---- asking what became of a withdrawn proposal ----

  ghost predicate HeldUnderApproval(post: PostReply) {
    && post.Posted? && AssertHeld(post.effect) && post.effect.id != ""
    && post.effect.approvalId.Some? && post.effect.approvalId.value != ""
  }

  lemma FirstProposal(v: Verdict, post: PostReply)
    requires v.diverged && HeldUnderApproval(post)
    ensures var w := Observe(Watch([], [], [], []), v, post);
            && |w.proposals| == 1 && IsOpen(w.proposals[0], v.unitId)
            && w.proposals[0].id == ProposalId(v) && w.proposals[0].tick == v.tick
            && w.proposals[0].effectId == post.effect.id
  {
  }

  lemma ReopenedBesideAnother(w: Watch, recovered: Verdict, again: Verdict, post: PostReply)
    requires |w.proposals| == 1 && IsOpen(w.proposals[0], recovered.unitId) && w.proposals[0].effectId != ""
    requires !recovered.diverged && recovered.tick > w.proposals[0].tick
    requires again.diverged && again.unitId == recovered.unitId && ProposalId(again) != w.proposals[0].id
    requires HeldUnderApproval(post)
    ensures var withdrawn := Observe(w, recovered, PostFailed);
            var w' := Refreshed(Observe(withdrawn, again, post), w.proposals[0].id, EffectIs(Some("queued")));
            && OneOpenPerUnit(Observe(withdrawn, again, post).proposals)
            && |w'.proposals| == 2 && IsOpen(w'.proposals[0], again.unitId) && IsOpen(w'.proposals[1], again.unitId)
  {
    hide AssertHeld, ProposalId, EventKey;
    assert OpenIndex(w.proposals, recovered.unitId) == 0;
    var withdrawn := Observe(w, recovered, PostFailed);
    assert |withdrawn.proposals| == 1 && withdrawn.proposals[0] == w.proposals[0].(status := Withdrawn);
    assert IndexOf(withdrawn.proposals, ProposalId(again)) == 1 && OpenIndex(withdrawn.proposals, again.unitId) == 1;
    var both := Observe(withdrawn, again, post);
    assert |both.proposals| == 2 && both.proposals[0] == withdrawn.proposals[0];
    assert IndexOf(both.proposals, w.proposals[0].id) == 0;
  }

  /** Where the promise stops: a unit diverges, recovers and diverges again, and the proposal withdrawn in between is
      refreshed while its effect is still queued. Now two proposals of the unit are open. */
  lemma RefreshReopensWithdrawn(first: Verdict, post1: PostReply, recovered: Verdict, again: Verdict, post2: PostReply)
    requires first.diverged && !recovered.diverged && again.diverged
    requires first.unitId == recovered.unitId == again.unitId
    requires recovered.tick > first.tick && ProposalId(again) != ProposalId(first)
    requires HeldUnderApproval(post1) && HeldUnderApproval(post2)
    ensures var w := Observe(Observe(Observe(START.watch, first, post1), recovered, PostFailed), again, post2);
            var w' := Refreshed(w, ProposalId(first), EffectIs(Some("queued")));
            && OneOpenPerUnit(w.proposals)
            && |w'.proposals| == 2 && IsOpen(w'.proposals[0], first.unitId) && IsOpen(w'.proposals[1], first.unitId)
  {
    hide Observe, Refreshed, AssertHeld, ProposalId;
    FirstProposal(first, post1);
    ReopenedBesideAnother(Observe(START.watch, first, post1), recovered, again, post2);
  }
}
