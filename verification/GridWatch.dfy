/** Grid Watch: readings in, one proposal per divergence, the hold verified, dispatch once. The gate is whatever
    replies; nothing is assumed of it here. */
module GridWatch {
  import opened Text
  import opened EventIds
  import Rule

  datatype Status = Proposed | WaitingAtGate | ApprovedByGate | RejectedByGate | Withdrawn

  datatype Proposal = Proposal(
    id: string, unitId: string, tick: int, status: Status, evidence: string, key: string,
    signalId: string, judgmentId: string, effectId: string, approvalId: Option<string>,
    decidedBy: Option<string>, executionCount: nat)

  datatype Dispatch = Dispatch(proposalId: string, unitId: string, effectId: string, releasedBy: Option<string>)

  /** Breaker's own record of what became of its proposals. */
  datatype Record =
    | CreatedRecord(proposalId: string, key: string, effectId: string)
    | ReobservedRecord(proposalId: string, key: string)
    | WithdrawnRecord(proposalId: string, tick: int)

  /** An effect as the gate reports it; a missing field is `None`. */
  datatype EffectReply = EffectReply(id: string, reversibility: Option<string>, reversibilityClass: Option<string>,
                                     status: Option<string>, approvalId: Option<string>)

  /** The outcome of looking the approval up among the gate's. */
  datatype Lookup = LookupFailed | NotListed | Listed(approvalId: string)

  /** What proposing gets back: one of the three posts failed, or all succeeded. */
  datatype PostReply = PostFailed | Posted(signalId: string, judgmentId: string, effect: EffectReply, lookup: Lookup)

  /** What deciding gets back. `decidedBy` is `None` when the reply does not have the field. */
  datatype DecideReply = DecideFailed | Decided(decidedBy: Option<Option<string>>, status: Option<string>)

  /** What asking for an effect gets back. */
  datatype RefreshReply = EffectUnavailable | EffectIs(status: Option<string>)

  /** What judges a window: the rule, or a model endpoint with its reply for this window, an abstention if it cannot be
      reached or gives no verdict. */
  datatype Substrate = RuleSubstrate | ModelSubstrate(reply: ModelReply)
  datatype ModelReply = Abstains | Says(diverged: bool)

  /** One reading's evaluation, whichever substrate gave the verdict. */
  datatype Verdict = Verdict(unitId: string, tick: int, diverged: bool, evidence: string)

  datatype Watch = Watch(
    proposals: seq<Proposal>, dispatches: seq<Dispatch>, records: seq<Record>, violations: seq<string>)

  const KIND := "soc"

  function EventKey(v: Verdict): string {
    Key(v.unitId, v.tick, KIND)
  }

  function ProposalId(v: Verdict): string {
    StableId("prop", EventKey(v))
  }

  function EffectId(v: Verdict): string {
    StableId("eff-breaker", EventKey(v))
  }

  // ---- judging a window ----

  /** The rule always runs. A model is asked for the verdict only on a full window with a check that tripped; if it
      abstains nothing diverged. */
  function JudgeWindow(history: seq<Rule.Reading>, rounding: Rule.Rounding, substrate: Substrate): Rule.Outcome {
    var outcome := Rule.Evaluate(history, rounding);
    if !outcome.Evaluated? || substrate.RuleSubstrate? then outcome
    else if || Rule.ComputeMetrics(history, rounding).None?
            || (forall c <- outcome.evaluation.checks :: !c.passed)
    then outcome
    else
      var diverged := substrate.reply.Says? && substrate.reply.diverged;
      outcome.(evaluation := outcome.evaluation.(diverged := diverged))
  }

  /** Whoever judges, nothing diverges before the window is full or while no check trips; given that, the rule asks for
      every check and a model's own word decides. */
  lemma DivergedExactly(history: seq<Rule.Reading>, rounding: Rule.Rounding, substrate: Substrate)
    requires history != [] && Rule.SingleUnit(history)
    ensures var outcome := JudgeWindow(history, rounding, substrate);
            && outcome.Evaluated?
            && outcome.evaluation.unitId == history[0].unitId && outcome.evaluation.tick == history[|history| - 1].tick
            && var checks := outcome.evaluation.checks;
               (outcome.evaluation.diverged
                <==> && |history| > Rule.WINDOW_TICKS && (exists c <- checks :: c.passed)
                     && (if substrate.RuleSubstrate? then forall c <- checks :: c.passed
                         else substrate.reply == Says(true)))
  {
    hide Rule.ComputeMetrics, Rule.FailedNames;
    var checks := JudgeWindow(history, rounding, substrate).evaluation.checks;
    assert checks[0] in checks;
    assert history[|history| - 1] in history;
    WindowHasMetrics(history, rounding);
  }

  lemma WindowHasMetrics(history: seq<Rule.Reading>, rounding: Rule.Rounding)
    ensures Rule.ComputeMetrics(history, rounding).Some? <==> |history| > Rule.WINDOW_TICKS
  {
  }

  // ---- lookups, in insertion order ----

  function IndexOf(ps: seq<Proposal>, id: string): (i: nat)
    ensures i <= |ps|
    ensures i < |ps| ==> ps[i].id == id
    ensures forall k | 0 <= k < i :: ps[k].id != id
  {
    if ps == [] || ps[0].id == id then 0 else 1 + IndexOf(ps[1..], id)
  }

  predicate IsOpen(p: Proposal, unit: string) {
    p.unitId == unit && (p.status == Proposed || p.status == WaitingAtGate)
  }

  function OpenIndex(ps: seq<Proposal>, unit: string): (i: nat)
    ensures i <= |ps|
    ensures i < |ps| ==> IsOpen(ps[i], unit)
    ensures forall k | 0 <= k < i :: !IsOpen(ps[k], unit)
  {
    if ps == [] || IsOpen(ps[0], unit) then 0 else 1 + OpenIndex(ps[1..], unit)
  }

  // ---- the hold check ----

  function OrElse(a: Option<string>, b: Option<string>): Option<string> {
    if a.Some? && a.value != "" then a else b
  }

  /** The gate came back with an irreversible effect, and holds it. */
  predicate AssertHeld(effect: EffectReply) {
    && OrElse(effect.reversibility, effect.reversibilityClass) == Some("irreversible")
    && effect.status in {Some("queued"), Some("waiting_at_gate"), Some("proposed")}
  }

  // ---- the steps, as functions of the state and the gate's reply ----

  /** Neither seen before nor standing behind another open proposal of the unit. */
  predicate IsNew(w: Watch, v: Verdict) {
    IndexOf(w.proposals, ProposalId(v)) == |w.proposals| && OpenIndex(w.proposals, v.unitId) == |w.proposals|
  }

  function Fresh(v: Verdict, post: PostReply, status: Status, approvalId: Option<string>): Proposal
    requires post.Posted?
  {
    Proposal(ProposalId(v), v.unitId, v.tick, status, v.evidence, EventKey(v), post.signalId, post.judgmentId,
             post.effect.id, approvalId, None, 0)
  }

  function Propose(w: Watch, v: Verdict, post: PostReply): Watch {
    if post.PostFailed? then w
    else if !AssertHeld(post.effect) then
      w.(proposals := w.proposals + [Fresh(v, post, Proposed, None)], violations := w.violations + [post.effect.id])
    else
      var named := post.effect.approvalId.Some? && post.effect.approvalId.value != "";
      if !named && post.lookup.LookupFailed? then w
      else
        var approvalId := if named then post.effect.approvalId
                          else if post.lookup.Listed? then Some(post.lookup.approvalId) else None;
        w.(proposals := w.proposals + [Fresh(v, post, WaitingAtGate, approvalId)],
           records := w.records + [CreatedRecord(ProposalId(v), EventKey(v), post.effect.id)])
  }

  /** The effect of one evaluated reading. */
  function Observe(w: Watch, v: Verdict, post: PostReply): Watch {
    if v.diverged then
      var i := IndexOf(w.proposals, ProposalId(v));
      if i < |w.proposals| then
        w.(proposals := w.proposals[i := w.proposals[i].(evidence := v.evidence, key := EventKey(v))],
           records := w.records + [ReobservedRecord(w.proposals[i].id, EventKey(v))])
      else if OpenIndex(w.proposals, v.unitId) < |w.proposals| then w
      else Propose(w, v, post)
    else
      var i := OpenIndex(w.proposals, v.unitId);
      if i == |w.proposals| || v.tick <= w.proposals[i].tick then w
      else
        w.(proposals := w.proposals[i := w.proposals[i].(status := Withdrawn)],
           records := w.records + [WithdrawnRecord(w.proposals[i].id, v.tick)])
  }

  predicate MayDecide(w: Watch, id: string, subject: string) {
    var i := IndexOf(w.proposals, id);
    i < |w.proposals| && w.proposals[i].approvalId.Some? && w.proposals[i].approvalId.value != "" && subject != ""
  }

  /** Proposal `i`, as `p`, brought in line with the effect's status at the gate; an executed effect dispatches,
      once. */
  function WithEffectState(w: Watch, i: nat, p: Proposal, status: Option<string>): Watch
    requires i < |w.proposals|
  {
    if status == Some("executed") then
      if p.executionCount > 0 then w.(proposals := w.proposals[i := p.(status := ApprovedByGate)])
      else w.(proposals := w.proposals[i := p.(status := ApprovedByGate, executionCount := 1)],
              dispatches := w.dispatches + [Dispatch(p.id, p.unitId, p.effectId, p.decidedBy)])
    else if status == Some("rejected") then w.(proposals := w.proposals[i := p.(status := RejectedByGate)])
    else if status in {Some("queued"), Some("waiting_at_gate")}
    then w.(proposals := w.proposals[i := p.(status := WaitingAtGate)])
    else w.(proposals := w.proposals[i := p])
  }

  /** A decision relayed to the gate, and what the gate answered applied. */
  function Relay(w: Watch, id: string, subject: string, reply: DecideReply): Watch {
    if !MayDecide(w, id, subject) || reply.DecideFailed? then w
    else
      var i := IndexOf(w.proposals, id);
      var decider := if reply.decidedBy.Some? then reply.decidedBy.value else Some(subject);
      WithEffectState(w, i, w.proposals[i].(decidedBy := decider), reply.status)
  }

  /** The gate asked what became of a proposal's effect, and its answer applied. */
  function Refreshed(w: Watch, id: string, reply: RefreshReply): Watch {
    var i := IndexOf(w.proposals, id);
    if i == |w.proposals| || w.proposals[i].effectId == "" || reply.EffectUnavailable? then w
    else WithEffectState(w, i, w.proposals[i], reply.status)
  }

  /** The ids of a reading's proposal and effect, as they read. */
  lemma IdsByFields(v: Verdict)
    ensures ProposalId(v) == "prop-" + (Dashed(v.unitId) + "-" + Decimal(v.tick) + "-soc")
    ensures EffectId(v) == "eff-breaker-" + (Dashed(v.unitId) + "-" + Decimal(v.tick) + "-soc")
  {
    EventIdReads("prop", v.unitId, v.tick, "soc");
    EventIdReads("eff-breaker", v.unitId, v.tick, "soc");
    assert Dashed("soc") == "soc";
  }

  // ---- the steps, by what the gate's reply and the proposals on file say ----

  /** The gate holds the effect: it says it is irreversible, and reports one of three statuses. */
  ghost predicate SaysHeld(effect: EffectReply) {
    && (|| effect.status == Some("queued") || effect.status == Some("waiting_at_gate")
        || effect.status == Some("proposed"))
    && (|| effect.reversibility == Some("irreversible")
        || (effect.reversibility in {None, Some("")} && effect.reversibilityClass == Some("irreversible")))
  }

  /** A divergence not on file, of a unit with no proposal that is proposed or waiting, is proposed. If the gate does
      not hold the effect, that is one more violation, and the proposal gets no approval. */
  lemma PostingByFields(w: Watch, v: Verdict, post: PostReply)
    requires v.diverged && post.Posted?
    requires forall p <- w.proposals ::
               p.id != ProposalId(v) && (p.unitId == v.unitId ==> p.status != Proposed && p.status != WaitingAtGate)
    ensures var w', named := Observe(w, v, post), post.effect.approvalId.Some? && post.effect.approvalId.value != "";
            && w'.dispatches == w.dispatches
            && (if !SaysHeld(post.effect) then
                  && w'.violations == w.violations + [post.effect.id] && w'.records == w.records
                  && w'.proposals == w.proposals + [Fresh(v, post, Proposed, None)]
                else if !named && post.lookup.LookupFailed? then w' == w
                else
                  && w'.violations == w.violations
                  && w'.records == w.records + [CreatedRecord(ProposalId(v), EventKey(v), post.effect.id)]
                  && |w'.proposals| == |w.proposals| + 1 && w'.proposals[..|w.proposals|] == w.proposals
                  && var p := w'.proposals[|w.proposals|];
                     p == Fresh(v, post, WaitingAtGate,
                                if named then post.effect.approvalId
                                else if post.lookup.Listed? then Some(post.lookup.approvalId) else None))
  {
    hide ProposalId, EventKey, Fresh;
    assert IndexOf(w.proposals, ProposalId(v)) == |w.proposals|;
    assert OpenIndex(w.proposals, v.unitId) == |w.proposals|;
  }

  /** Seen before, a divergence refreshes the evidence of its proposal; not seen before, but with a proposal of its unit
      proposed or waiting, it changes nothing. Neither posts anything. */
  lemma NoPostingByFields(w: Watch, v: Verdict, post: PostReply, i: nat)
    requires v.diverged && i < |w.proposals|
    ensures w.proposals[i].id == ProposalId(v) && (forall k | 0 <= k < i :: w.proposals[k].id != ProposalId(v)) ==>
              var p := w.proposals[i].(evidence := v.evidence, key := EventKey(v));
              Observe(w, v, post) == w.(proposals := w.proposals[i := p],
                                        records := w.records + [ReobservedRecord(ProposalId(v), EventKey(v))])
    ensures && (forall p <- w.proposals :: p.id != ProposalId(v))
            && w.proposals[i].unitId == v.unitId
            && (w.proposals[i].status == Proposed || w.proposals[i].status == WaitingAtGate)
            ==> Observe(w, v, post) == w
  {
    hide ProposalId, EventKey, Propose;
    assert w.proposals[i] in w.proposals;
  }

  /** A reading that does not diverge withdraws the first proposal of its unit that is proposed or waiting, if it is of
      a later tick than that proposal, and otherwise changes nothing. */
  lemma ClearingByFields(w: Watch, v: Verdict, post: PostReply, i: nat)
    requires !v.diverged && i <= |w.proposals|
    requires forall k | 0 <= k < i && w.proposals[k].unitId == v.unitId ::
               w.proposals[k].status != Proposed && w.proposals[k].status != WaitingAtGate
    ensures i == |w.proposals| ==> Observe(w, v, post) == w
    ensures && i < |w.proposals| && w.proposals[i].unitId == v.unitId
            && (w.proposals[i].status == Proposed || w.proposals[i].status == WaitingAtGate)
            ==> var p := w.proposals[i];
                Observe(w, v, post)
                == if v.tick <= p.tick then w
                   else w.(proposals := w.proposals[i := p.(status := Withdrawn)],
                           records := w.records + [WithdrawnRecord(p.id, v.tick)])
  {
    if i == |w.proposals| {
      assert OpenIndex(w.proposals, v.unitId) == |w.proposals|;
    } else if IsOpen(w.proposals[i], v.unitId) {
      assert OpenIndex(w.proposals, v.unitId) == i;
    }
  }

  /** A decision on a proposal with an approval, for a named subject, that the gate answers: the decider is on record,
      the status follows the answer, and the first `executed` dispatches. Any other decision changes nothing. */
  lemma RelayByFields(w: Watch, i: nat, subject: string, reply: DecideReply)
    requires i < |w.proposals| && forall k | 0 <= k < i :: w.proposals[k].id != w.proposals[i].id
    ensures var p, w' := w.proposals[i], Relay(w, w.proposals[i].id, subject, reply);
            if p.approvalId == None || p.approvalId == Some("") || subject == "" || reply.DecideFailed? then w' == w
            else
              var decider := if reply.decidedBy.Some? then reply.decidedBy.value else Some(subject);
              var executed := reply.status == Some("executed");
              && w'.proposals[..i] == w.proposals[..i] && w'.proposals[i + 1..] == w.proposals[i + 1..]
              && w'.records == w.records && w'.violations == w.violations
              && |w'.proposals| == |w.proposals|
              && w'.proposals[i].decidedBy == decider
              && w'.proposals[i].status == (if executed then ApprovedByGate
                                            else if reply.status == Some("rejected") then RejectedByGate
                                            else if reply.status == Some("queued") then WaitingAtGate
                                            else if reply.status == Some("waiting_at_gate") then WaitingAtGate
                                            else p.status)
              && w'.dispatches == (if executed && p.executionCount == 0
                                   then w.dispatches + [Dispatch(p.id, p.unitId, p.effectId, decider)]
                                   else w.dispatches)
  {
    assert IndexOf(w.proposals, w.proposals[i].id) == i;
  }

  /** A proposal's status follows what the gate says of its effect. */
  lemma StatusFollowsGate(w: Watch, i: nat, status: Option<string>)
    requires i < |w.proposals| && w.proposals[i].effectId != ""
    requires forall k | 0 <= k < i :: w.proposals[k].id != w.proposals[i].id
    ensures var w' := Refreshed(w, w.proposals[i].id, EffectIs(status));
            && |w'.proposals| == |w.proposals|
            && w'.proposals[i].status == (if status == Some("executed") then ApprovedByGate
                                          else if status == Some("rejected") then RejectedByGate
                                          else if status == Some("queued") then WaitingAtGate
                                          else if status == Some("waiting_at_gate") then WaitingAtGate
                                          else w.proposals[i].status)
            && forall k | 0 <= k < |w.proposals| && k != i :: w'.proposals[k] == w.proposals[k]
  {
    assert IndexOf(w.proposals, w.proposals[i].id) == i;
  }

  // ---- the component ----

  datatype DecideOutcome = ProposalNotFound | SubjectRequired | GateFailed | Applied

  class Engine {
    var history: map<string, seq<Rule.Reading>>
    var proposals: seq<Proposal>
    var dispatches: seq<Dispatch>
    var records: seq<Record>
    var violations: seq<string>

    ghost function Model(): Watch
      reads this
    {
      Watch(proposals, dispatches, records, violations)
    }

    constructor ()
      ensures history == map[] && ByUnit() && Model() == Watch([], [], [], [])
    {
      history, proposals, dispatches, records, violations := map[], [], [], [], [];
    }

    /** Histories are kept by unit. */
    ghost predicate ByUnit()
      reads this
    {
      forall unit <- history :: history[unit] != [] && forall r <- history[unit] :: r.unitId == unit
    }

    /** Take one reading, judge its unit's history, and propose, refresh or withdraw. `render` writes the evidence;
        `post` is what the gate will answer if it is asked. */
    method Ingest(reading: Rule.Reading, rounding: Rule.Rounding, substrate: Substrate,
                  render: Rule.Evaluation -> string, post: PostReply)
      requires ByUnit()
      modifies this
      ensures ByUnit()
      ensures var unit := reading.unitId;
              && history == old(history)[unit := (if unit in old(history) then old(history)[unit] else []) + [reading]]
              && var outcome := JudgeWindow(history[unit], rounding, substrate);
                 && outcome.Evaluated?
                 && var e := outcome.evaluation;
                    Model() == Observe(old(Model()), Verdict(unit, reading.tick, e.diverged, render(e)), post)
    {
      hide JudgeWindow, Propose, ProposalId, IndexOf, OpenIndex;
      var unit := reading.unitId;
      history := history[unit := (if unit in history then history[unit] else []) + [reading]];
      DivergedExactly(history[unit], rounding, substrate);
      var e := JudgeWindow(history[unit], rounding, substrate).evaluation;
      var v := Verdict(e.unitId, e.tick, e.diverged, render(e));
      if v.diverged {
        ObserveDivergence(v, post);
      } else {
        MaybeResolve(v);
      }
    }

    method OpenProposalFor(unit: string) returns (i: nat)
      ensures i == OpenIndex(proposals, unit)
    {
      i := 0;
      while i < |proposals|
        invariant i <= |proposals|
        invariant i + OpenIndex(proposals[i..], unit) == OpenIndex(proposals, unit)
      {
        if proposals[i].unitId == unit && proposals[i].status in {Proposed, WaitingAtGate} {
          return;
        }
        assert proposals[i..][1..] == proposals[i + 1..];
        i := i + 1;
      }
    }

    /** Update, suppress or propose. */
    method ObserveDivergence(v: Verdict, post: PostReply)
      requires v.diverged
      modifies this`proposals, this`records, this`violations
      ensures Model() == Observe(old(Model()), v, post)
    {
      var key := EventKey(v);
      var existing := IndexOf(proposals, StableId("prop", key));
      if existing < |proposals| {
        Reobserve(existing, v.evidence, key);
        return;
      }
      var open := OpenProposalFor(v.unitId);
      if open < |proposals| {
        return;
      }
      ProposeEffect(v, key, post);
    }

    /** The proposal's evidence is refreshed; nothing is posted. */
    method Reobserve(i: nat, evidence: string, key: string)
      requires i < |proposals|
      modifies this`proposals, this`records
      ensures proposals == old(proposals)[i := old(proposals)[i].(evidence := evidence, key := key)]
      ensures records == old(records) + [ReobservedRecord(old(proposals)[i].id, key)]
    {
      proposals := proposals[i := proposals[i].(evidence := evidence)];
      proposals := proposals[i := proposals[i].(key := key)];
      records := records + [ReobservedRecord(proposals[i].id, key)];
    }

    /** A window that stopped diverging, later than the proposing tick, closes the unit's open proposal. */
    method MaybeResolve(v: Verdict)
      requires !v.diverged
      modifies this`proposals, this`records
      ensures Model() == Observe(old(Model()), v, PostFailed)
    {
      var i := OpenProposalFor(v.unitId);
      if i == |proposals| {
        return;
      }
      if v.tick <= proposals[i].tick {
        return;
      }
      proposals := proposals[i := proposals[i].(status := Withdrawn)];
      records := records + [WithdrawnRecord(proposals[i].id, v.tick)];
    }

    /** Post signal, judgment and effect; file the proposal as waiting only if the gate verifiably holds it. */
    method ProposeEffect(v: Verdict, key: string, post: PostReply)
      requires key == EventKey(v)
      modifies this`proposals, this`records, this`violations
      ensures Model() == Propose(old(Model()), v, post)
    {
      if post.PostFailed? {
        return;
      }
      var p := Proposal(StableId("prop", key), v.unitId, v.tick, Proposed, v.evidence, key, post.signalId,
                        post.judgmentId, post.effect.id, None, None, 0);
      if !AssertHeld(post.effect) {
        violations := violations + [post.effect.id];
        proposals := proposals + [p];
        return;
      }
      p := p.(status := WaitingAtGate);
      if post.effect.approvalId.Some? && post.effect.approvalId.value != "" {
        p := p.(approvalId := post.effect.approvalId);
      } else {
        match post.lookup
        case LookupFailed => return;
        case NotListed =>
        case Listed(approvalId) => p := p.(approvalId := Some(approvalId));
      }
      proposals := proposals + [p];
      records := records + [CreatedRecord(p.id, key, p.effectId)];
    }

    /** Relay an identified decision to the gate and act on its answer, once. */
    method Decide(id: string, subject: string, reply: DecideReply) returns (outcome: DecideOutcome)
      modifies this`proposals, this`dispatches
      ensures Model() == Relay(old(Model()), id, subject, reply)
      ensures outcome.GateFailed? || outcome.Applied? <==> MayDecide(old(Model()), id, subject)
      ensures outcome.GateFailed? ==> reply.DecideFailed?
      ensures outcome.Applied? ==> reply.Decided?
      ensures outcome.SubjectRequired? ==> subject == ""
    {
      var i := IndexOf(proposals, id);
      if i == |proposals| || proposals[i].approvalId.None? || proposals[i].approvalId.value == "" {
        return ProposalNotFound;
      }
      if subject == "" {
        return SubjectRequired;
      }
      if reply.DecideFailed? {
        return GateFailed;
      }
      var decider := if reply.decidedBy.Some? then reply.decidedBy.value else Some(subject);
      proposals := proposals[i := proposals[i].(decidedBy := decider)];
      ApplyEffectState(i, reply.status);
      outcome := Applied;
    }

    /** Ask the gate what became of the effect, and act on it once. */
    method Refresh(id: string, reply: RefreshReply)
      modifies this`proposals, this`dispatches
      ensures Model() == Refreshed(old(Model()), id, reply)
    {
      var i := IndexOf(proposals, id);
      if i == |proposals| || proposals[i].effectId == "" || reply.EffectUnavailable? {
        return;
      }
      ApplyEffectState(i, reply.status);
    }

    method ApplyEffectState(i: nat, status: Option<string>)
      requires i < |proposals|
      modifies this`proposals, this`dispatches
      ensures Model() == WithEffectState(old(Model()), i, old(proposals)[i], status)
    {
      if status == Some("executed") {
        proposals := proposals[i := proposals[i].(status := ApprovedByGate)];
        DispatchOnce(i);
      } else if status == Some("rejected") {
        proposals := proposals[i := proposals[i].(status := RejectedByGate)];
      } else if status == Some("queued") || status == Some("waiting_at_gate") {
        proposals := proposals[i := proposals[i].(status := WaitingAtGate)];
      }
    }

    /** The load shed runs at most once, however often the gate says so. */
    method DispatchOnce(i: nat)
      requires i < |proposals|
      modifies this`proposals, this`dispatches
      ensures var p := old(proposals)[i];
              if p.executionCount > 0 then proposals == old(proposals) && dispatches == old(dispatches)
              else && proposals == old(proposals)[i := p.(executionCount := 1)]
                   && dispatches == old(dispatches) + [Dispatch(p.id, p.unitId, p.effectId, p.decidedBy)]
    {
      var p := proposals[i];
      if p.executionCount > 0 {
        return;
      }
      proposals := proposals[i := p.(executionCount := 1)];
      dispatches := dispatches + [Dispatch(p.id, p.unitId, p.effectId, p.decidedBy)];
    }
  }
}
