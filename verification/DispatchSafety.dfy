/** What holds of Grid Watch over every run, whatever the gate replies. */
module DispatchSafety {
  import opened Text
  import opened GridWatch

  datatype Op =
    | Ingest(verdict: Verdict, post: PostReply)
    | Decide(id: string, subject: string, reply: DecideReply)
    | Refresh(id: string, status: RefreshReply)

  const EMPTY := Watch([], [], [], [])

  function Apply(w: Watch, op: Op): Watch {
    match op
    case Ingest(v, post) => Observe(w, v, post)
    case Decide(id, subject, reply) => Relay(w, id, subject, reply)
    case Refresh(id, status) => Refreshed(w, id, status)
  }

  function Run(ops: seq<Op>): Watch {
    if ops == [] then EMPTY else Apply(Run(ops[..|ops| - 1]), ops[|ops| - 1])
  }

  function DispatchCount(dispatches: seq<Dispatch>, id: string): nat {
    if dispatches == [] then 0
    else
      var last := dispatches[|dispatches| - 1];
      DispatchCount(dispatches[..|dispatches| - 1], id) + if last.proposalId == id then 1 else 0
  }

  lemma {:induction false} DispatchCountAppend(dispatches: seq<Dispatch>, d: Dispatch, id: string)
    ensures DispatchCount(dispatches + [d], id) == DispatchCount(dispatches, id) + if d.proposalId == id then 1 else 0
  {
  }

  lemma {:induction false} CountedOnlyIfPresent(dispatches: seq<Dispatch>, id: string)
    requires forall d <- dispatches :: d.proposalId != id
    ensures DispatchCount(dispatches, id) == 0
  {
    if dispatches != [] {
      CountedOnlyIfPresent(dispatches[..|dispatches| - 1], id);
    }
  }

  // ---- what every step keeps ----

  ghost predicate DistinctIds(ps: seq<Proposal>) {
    forall i, j | 0 <= i < j < |ps| :: ps[i].id != ps[j].id
  }

  ghost predicate HasId(ps: seq<Proposal>, id: string) {
    exists p <- ps :: p.id == id
  }

  /** Ids are distinct, every dispatch is of a proposal on file, and each proposal's count is the number of its
      dispatch records, at most one. */
  ghost predicate Inv(w: Watch) {
    && DistinctIds(w.proposals)
    && (forall d <- w.dispatches :: HasId(w.proposals, d.proposalId))
    && (forall p <- w.proposals :: p.executionCount == DispatchCount(w.dispatches, p.id) <= 1)
  }

  /** One proposal replaced by one of the same id, with its count in step with the dispatches. */
  lemma ReplaceKeepsInv(w: Watch, i: nat, p: Proposal, w': Watch)
    requires Inv(w) && i < |w.proposals| && p.id == w.proposals[i].id
    requires w'.proposals == w.proposals[i := p]
    requires || (w'.dispatches == w.dispatches && p.executionCount == w.proposals[i].executionCount)
             || (w.proposals[i].executionCount == 0 && p.executionCount == 1
                 && exists d: Dispatch :: d.proposalId == p.id && w'.dispatches == w.dispatches + [d])
    ensures Inv(w')
  {
    assert w.proposals[i] in w.proposals && w'.proposals[i] == p;
    if w'.dispatches != w.dispatches {
      var d: Dispatch :| d.proposalId == p.id && w'.dispatches == w.dispatches + [d];
      forall q <- w'.proposals
        ensures q.executionCount == DispatchCount(w'.dispatches, q.id) <= 1
      {
        DispatchCountAppend(w.dispatches, d, q.id);
      }
    }
    forall e <- w'.dispatches
      ensures HasId(w'.proposals, e.proposalId)
    {
      if e in w.dispatches {
        var q :| q in w.proposals && q.id == e.proposalId;
        var k :| 0 <= k < |w.proposals| && w.proposals[k] == q;
        assert w'.proposals[k] in w'.proposals && w'.proposals[k].id == e.proposalId;
      } else {
        assert p in w'.proposals && p.id == e.proposalId;
      }
    }
  }

  lemma AddKeepsInv(w: Watch, p: Proposal, w': Watch)
    requires Inv(w) && p.executionCount == 0 && !HasId(w.proposals, p.id)
    requires w'.proposals == w.proposals + [p] && w'.dispatches == w.dispatches
    ensures Inv(w')
  {
    forall d <- w.dispatches
      ensures d.proposalId != p.id && HasId(w'.proposals, d.proposalId)
    {
      assert HasId(w.proposals, d.proposalId);
      var q :| q in w.proposals && q.id == d.proposalId;
      assert q in w'.proposals;
    }
    CountedOnlyIfPresent(w.dispatches, p.id);
  }

  lemma NotOnFile(ps: seq<Proposal>, id: string)
    requires IndexOf(ps, id) == |ps|
    ensures !HasId(ps, id)
  {
  }

  lemma ObserveKeepsInv(w: Watch, v: Verdict, post: PostReply)
    requires Inv(w)
    ensures Inv(Observe(w, v, post))
  {
    hide DistinctIds, HasId, DispatchCount, AssertHeld, ProposalId, EventKey, IndexOf, OpenIndex, IsOpen;
    var w' := Observe(w, v, post);
    if |w'.proposals| > |w.proposals| {
      NotOnFile(w.proposals, ProposalId(v));
      AddKeepsInv(w, w'.proposals[|w.proposals|], w');
    } else if w'.proposals != w.proposals {
      var i := if v.diverged then IndexOf(w.proposals, ProposalId(v)) else OpenIndex(w.proposals, v.unitId);
      ReplaceKeepsInv(w, i, w'.proposals[i], w');
    }
  }

  lemma RelayKeepsInv(w: Watch, id: string, subject: string, reply: DecideReply)
    requires Inv(w)
    ensures Inv(Relay(w, id, subject, reply))
  {
    hide DistinctIds, HasId, DispatchCount, IndexOf;
    var w', i := Relay(w, id, subject, reply), IndexOf(w.proposals, id);
    if w'.proposals != w.proposals {
      assert w'.dispatches != w.dispatches ==> w'.dispatches == w.dispatches + [w'.dispatches[|w.dispatches|]];
      ReplaceKeepsInv(w, i, w'.proposals[i], w');
    }
  }

  lemma RefreshKeepsInv(w: Watch, id: string, reply: RefreshReply)
    requires Inv(w)
    ensures Inv(Refreshed(w, id, reply))
  {
    hide DistinctIds, HasId, DispatchCount, IndexOf;
    var w', i := Refreshed(w, id, reply), IndexOf(w.proposals, id);
    if w'.proposals != w.proposals {
      assert w'.dispatches != w.dispatches ==> w'.dispatches == w.dispatches + [w'.dispatches[|w.dispatches|]];
      ReplaceKeepsInv(w, i, w'.proposals[i], w');
    }
  }

  lemma ApplyKeepsInv(w: Watch, op: Op)
    requires Inv(w)
    ensures Inv(Apply(w, op))
  {
    match op
    case Ingest(v, post) => ObserveKeepsInv(w, v, post);
    case Decide(id, subject, reply) => RelayKeepsInv(w, id, subject, reply);
    case Refresh(id, reply) => RefreshKeepsInv(w, id, reply);
  }

  /** At most one dispatch per proposal, and the count tells the truth, in every run. */
  lemma {:induction false} RunKeepsInv(ops: seq<Op>)
    ensures Inv(Run(ops))
  {
    if ops != [] {
      RunKeepsInv(ops[..|ops| - 1]);
      ApplyKeepsInv(Run(ops[..|ops| - 1]), ops[|ops| - 1]);
    }
  }

  // ---- why a proposal was dispatched ----

  /** In state `w` the operation makes the posts that propose `id`, and the gate's answer, which names the effect
      `effectId`, passes the hold check. */
  ghost predicate HoldsFor(w: Watch, op: Op, id: string, effectId: string) {
    && op.Ingest? && op.verdict.diverged && ProposalId(op.verdict) == id && IsNew(w, op.verdict)
    && op.post.Posted? && AssertHeld(op.post.effect) && op.post.effect.id == effectId
  }

  ghost predicate HeldAt(ops: seq<Op>, i: nat, id: string, effectId: string) {
    i < |ops| && HoldsFor(Run(ops[..i]), ops[i], id, effectId)
  }

  /** In state `w` the operation relays a decision on `id`, and the gate answers that it executed; `releasedBy` is whom
      the answer names, or else the subject. */
  ghost predicate Releases(w: Watch, op: Op, id: string, releasedBy: Option<string>) {
    && op.Decide? && op.id == id && MayDecide(w, id, op.subject)
    && op.reply.Decided? && op.reply.status == Some("executed")
    && releasedBy == if op.reply.decidedBy.Some? then op.reply.decidedBy.value else Some(op.subject)
  }

  ghost predicate ReleasedAt(ops: seq<Op>, j: nat, d: Dispatch) {
    j < |ops| && Releases(Run(ops[..j]), ops[j], d.proposalId, d.releasedBy)
  }

  /** In state `w` the operation asks the gate about the effect of a proposal on file, and hears that it executed. */
  ghost predicate Reports(w: Watch, op: Op, id: string, effectId: string) {
    && op.Refresh? && op.id == id && op.status == EffectIs(Some("executed"))
    && effectId != "" && exists p <- w.proposals :: p.id == id && p.effectId == effectId
  }

  ghost predicate ReportedAt(ops: seq<Op>, j: nat, d: Dispatch) {
    j < |ops| && Reports(Run(ops[..j]), ops[j], d.proposalId, d.effectId)
  }

  ghost predicate Reported(ops: seq<Op>, d: Dispatch) {
    exists j: nat :: ReportedAt(ops, j, d)
  }

  ghost predicate Justified(ops: seq<Op>, d: Dispatch) {
    exists i: nat, j: nat :: i < j && HeldAt(ops, i, d.proposalId, d.effectId) && ReleasedAt(ops, j, d)
  }

  ghost predicate WasHeld(ops: seq<Op>, id: string, effectId: string) {
    exists i: nat :: HeldAt(ops, i, id, effectId)
  }

  lemma PrefixOfFront(ops: seq<Op>, i: nat)
    requires i < |ops|
    ensures ops[..|ops| - 1][..i] == ops[..i]
  {
  }

  lemma StillHeld(ops: seq<Op>, id: string, effectId: string)
    requires ops != [] && WasHeld(ops[..|ops| - 1], id, effectId)
    ensures WasHeld(ops, id, effectId)
  {
    var i: nat :| HeldAt(ops[..|ops| - 1], i, id, effectId);
    PrefixOfFront(ops, i);
    assert HeldAt(ops, i, id, effectId);
  }

  lemma StillTrue(ops: seq<Op>, d: Dispatch)
    requires ops != []
    ensures Justified(ops[..|ops| - 1], d) ==> Justified(ops, d)
    ensures Reported(ops[..|ops| - 1], d) ==> Reported(ops, d)
  {
    hide Run, HoldsFor, Releases, Reports;
    var front := ops[..|ops| - 1];
    if Justified(front, d) {
      var i: nat, j: nat :| i < j && HeldAt(front, i, d.proposalId, d.effectId) && ReleasedAt(front, j, d);
      PrefixOfFront(ops, i);
      PrefixOfFront(ops, j);
      assert HeldAt(ops, i, d.proposalId, d.effectId) && ReleasedAt(ops, j, d);
    }
    if Reported(front, d) {
      var j: nat :| ReportedAt(front, j, d);
      PrefixOfFront(ops, j);
      assert ReportedAt(ops, j, d);
    }
  }

  lemma ReleaseJustifies(ops: seq<Op>, d: Dispatch)
    requires ops != [] && WasHeld(ops[..|ops| - 1], d.proposalId, d.effectId) && ReleasedAt(ops, |ops| - 1, d)
    ensures Justified(ops, d)
  {
    hide Run, HoldsFor, Releases;
    var i: nat :| HeldAt(ops[..|ops| - 1], i, d.proposalId, d.effectId);
    PrefixOfFront(ops, i);
    assert i < |ops| - 1 && HeldAt(ops, i, d.proposalId, d.effectId);
  }

  /** A proposal has its approval from the posts that proposed it, whose answer passed the hold check. */
  lemma ApprovalComesWithHold(w: Watch, op: Op, k: nat)
    requires var ps := Apply(w, op).proposals; k < |ps| && ps[k].approvalId.Some?
    ensures var p := Apply(w, op).proposals[k];
            if k < |w.proposals|
            then var q := w.proposals[k]; p.id == q.id && p.effectId == q.effectId && p.approvalId == q.approvalId
            else HoldsFor(w, op, p.id, p.effectId)
  {
    hide AssertHeld, EventKey, ProposalId, IndexOf, OpenIndex;
  }

  lemma {:induction false} DecidableWasHeld(ops: seq<Op>, k: nat)
    requires k < |Run(ops).proposals| && Run(ops).proposals[k].approvalId.Some?
    ensures WasHeld(ops, Run(ops).proposals[k].id, Run(ops).proposals[k].effectId)
  {
    hide HoldsFor, Apply;
    if ops != [] {
      var n := |ops| - 1;
      var p := Run(ops).proposals[k];
      ApprovalComesWithHold(Run(ops[..n]), ops[n], k);
      if k < |Run(ops[..n]).proposals| {
        DecidableWasHeld(ops[..n], k);
        StillHeld(ops, p.id, p.effectId);
      } else {
        assert HeldAt(ops, n, p.id, p.effectId);
      }
    }
  }

  /** What a step dispatches, and why it may. */
  lemma StepDispatches(w: Watch, op: Op, d: Dispatch)
    requires d in Apply(w, op).dispatches && d !in w.dispatches
    ensures !op.Ingest?
    ensures var i := IndexOf(w.proposals, d.proposalId);
            && i < |w.proposals| && d.unitId == w.proposals[i].unitId && d.effectId == w.proposals[i].effectId
            && (op.Decide? ==> w.proposals[i].approvalId.Some? && Releases(w, op, d.proposalId, d.releasedBy))
            && (op.Refresh? ==> Reports(w, op, d.proposalId, d.effectId) && d.releasedBy == w.proposals[i].decidedBy)
  {
    hide AssertHeld, ProposalId, EventKey, OpenIndex;
    if !op.Ingest? && IndexOf(w.proposals, op.id) < |w.proposals| {
      assert w.proposals[IndexOf(w.proposals, op.id)] in w.proposals;
    }
  }

  /** Dispatch safety, against any gate. For every dispatch record there are two operations, one after the other: the
      first made the posts that proposed it, and the gate's answer named the dispatched effect and passed the hold
      check; the second relayed a named subject's decision on it, which the gate answered with `executed`, and the
      record names the decider. Or else the gate, asked about that effect, said that it had executed. */
  lemma {:induction false} EveryDispatchIsJustified(ops: seq<Op>)
    ensures forall d <- Run(ops).dispatches :: Justified(ops, d) || Reported(ops, d)
  {
    if ops != [] {
      hide Apply, Justified, Reported, Releases, Reports, WasHeld;
      var n := |ops| - 1;
      var w := Run(ops[..n]);
      EveryDispatchIsJustified(ops[..n]);
      forall d <- Run(ops).dispatches
        ensures Justified(ops, d) || Reported(ops, d)
      {
        StillTrue(ops, d);
        if d !in w.dispatches {
          StepDispatches(w, ops[n], d);
          if ops[n].Decide? {
            DecidableWasHeld(ops[..n], IndexOf(w.proposals, d.proposalId));
            ReleaseJustifies(ops, d);
          } else {
            LastReports(ops, d);
          }
        }
      }
    }
  }

  lemma LastReports(ops: seq<Op>, d: Dispatch)
    requires ops != [] && ReportedAt(ops, |ops| - 1, d)
    ensures Reported(ops, d)
  {
  }

  /** So in a run that never asks, every dispatch was held and then released. */
  lemma DispatchesWereHeldAndReleased(ops: seq<Op>)
    requires forall op <- ops :: !op.Refresh?
    ensures forall d <- Run(ops).dispatches :: Justified(ops, d)
  {
    hide Justified;
    EveryDispatchIsJustified(ops);
    forall d <- Run(ops).dispatches
      ensures Justified(ops, d)
    {
      assert !Reported(ops, d);
    }
  }

  /** Where the promise stops: an effect the gate did not hold is dispatched, with nobody's name on it, if a refresh
      then hears that it executed. */
  lemma RefreshDispatchesUnheld(v: Verdict, post: PostReply)
    requires v.diverged && post.Posted? && !AssertHeld(post.effect) && post.effect.id != ""
    ensures var ops := [Ingest(v, post), Refresh(ProposalId(v), EffectIs(Some("executed")))];
            var d := Dispatch(ProposalId(v), v.unitId, post.effect.id, None);
            Run(ops).dispatches == [d] && !Justified(ops, d)
  {
    hide AssertHeld, ProposalId, EventKey;
    var first, second := Ingest(v, post), Refresh(ProposalId(v), EffectIs(Some("executed")));
    assert [first, second][..1] == [first] && [first][..0] == [];
    var p := Fresh(v, post, Proposed, None);
    assert Run([]) == EMPTY;
    assert Run([first]) == Apply(EMPTY, first);
    assert Run([first]).proposals == [p];
    assert IndexOf([p], ProposalId(v)) == 0;
    assert Run([first, second]) == Apply(Run([first]), second);
  }

  /** The operation reported `id`, and the gate's answer about the effect says that it is held. */
  ghost predicate AnsweredHeld(op: Op, id: string, effectId: string) {
    && op.Ingest? && op.verdict.diverged && ProposalId(op.verdict) == id
    && op.post.Posted? && op.post.effect.id == effectId && SaysHeld(op.post.effect)
  }

  /** The operation decided `id`, for a named subject, and the gate's answer says that the effect executed. */
  ghost predicate AnsweredExecuted(op: Op, d: Dispatch) {
    && op.Decide? && op.id == d.proposalId && op.subject != ""
    && op.reply.Decided? && op.reply.status == Some("executed")
    && d.releasedBy == if op.reply.decidedBy.Some? then op.reply.decidedBy.value else Some(op.subject)
  }

  lemma HeldIsAnswered(w: Watch, op: Op, id: string, effectId: string)
    requires HoldsFor(w, op, id, effectId)
    ensures AnsweredHeld(op, id, effectId)
  {
  }

  lemma ReleaseIsAnswered(w: Watch, op: Op, d: Dispatch)
    requires Releases(w, op, d.proposalId, d.releasedBy)
    ensures AnsweredExecuted(op, d)
  {
  }

  /** In any run, a proposal with an approval was proposed to a gate that answered that it holds the effect. */
  lemma ApprovalWasAnsweredHeld(ops: seq<Op>, k: nat)
    requires k < |Run(ops).proposals| && Run(ops).proposals[k].approvalId.Some?
    ensures exists i: nat :: i < |ops| && AnsweredHeld(ops[i], Run(ops).proposals[k].id, Run(ops).proposals[k].effectId)
  {
    hide HoldsFor, AnsweredHeld, Run;
    var p := Run(ops).proposals[k];
    DecidableWasHeld(ops, k);
    var i: nat :| HeldAt(ops, i, p.id, p.effectId);
    HeldIsAnswered(Run(ops[..i]), ops[i], p.id, p.effectId);
  }

  /** And in a run without refreshes every dispatched effect was answered to be held, and after that to have executed,
      for a named subject. */
  lemma DispatchesByFields(ops: seq<Op>)
    requires forall op <- ops :: !op.Refresh?
    ensures forall d <- Run(ops).dispatches ::
              exists i: nat, j: nat :: && i < j < |ops| && AnsweredHeld(ops[i], d.proposalId, d.effectId)
                                       && AnsweredExecuted(ops[j], d)
  {
    hide Run, HoldsFor, Releases, AnsweredHeld, AnsweredExecuted;
    DispatchesWereHeldAndReleased(ops);
    forall d <- Run(ops).dispatches
      ensures exists i: nat, j: nat :: && i < j < |ops| && AnsweredHeld(ops[i], d.proposalId, d.effectId)
                                       && AnsweredExecuted(ops[j], d)
    {
      var i: nat, j: nat :| i < j && HeldAt(ops, i, d.proposalId, d.effectId) && ReleasedAt(ops, j, d);
      HeldIsAnswered(Run(ops[..i]), ops[i], d.proposalId, d.effectId);
      ReleaseIsAnswered(Run(ops[..j]), ops[j], d);
    }
  }

  /** What a refresh does, exactly: it dispatches if and only if the proposal is on file with an effect, the gate says
      that the effect executed, and nothing was dispatched before. Whether the effect was ever held does not matter. */
  lemma RefreshDispatchesExactly(w: Watch, id: string, reply: RefreshReply)
    ensures var i, w' := IndexOf(w.proposals, id), Refreshed(w, id, reply);
            if i < |w.proposals| && w.proposals[i].effectId != "" && reply == EffectIs(Some("executed"))
               && w.proposals[i].executionCount == 0
            then var p := w.proposals[i];
                 w'.dispatches == w.dispatches + [Dispatch(id, p.unitId, p.effectId, p.decidedBy)]
            else w'.dispatches == w.dispatches
  {
  }

  lemma ApplyAppends(w: Watch, op: Op)
    ensures w.records <= Apply(w, op).records
    ensures w.dispatches <= Apply(w, op).dispatches
  {
  }

  /** Records and dispatches are only ever appended to. */
  lemma {:induction false} HistoryIsAppendOnly(ops: seq<Op>, k: nat)
    requires k <= |ops|
    ensures Run(ops[..k]).records <= Run(ops).records
    ensures Run(ops[..k]).dispatches <= Run(ops).dispatches
    decreases |ops|
  {
    if k == |ops| {
      assert ops[..k] == ops;
    } else {
      var n := |ops| - 1;
      assert ops[..n][..k] == ops[..k];
      HistoryIsAppendOnly(ops[..n], k);
      ApplyAppends(Run(ops[..n]), ops[n]);
    }
  }

  /** What a decision does, exactly: it dispatches if and only if the gate answers that it executed, the proposal was
      verifiably held, the subject is named and nothing was dispatched before. The proposal's own status does not
      matter, so one withdrawn meanwhile is dispatched all the same. */
  lemma DecisionDispatchesExactly(w: Watch, id: string, subject: string, reply: DecideReply)
    ensures var i, w' := IndexOf(w.proposals, id), Relay(w, id, subject, reply);
            if MayDecide(w, id, subject) && reply.Decided? && reply.status == Some("executed")
               && w.proposals[i].executionCount == 0
            then var p := w.proposals[i];
                 var decider := if reply.decidedBy.Some? then reply.decidedBy.value else Some(subject);
                 w'.dispatches == w.dispatches + [Dispatch(id, p.unitId, p.effectId, decider)]
            else w'.dispatches == w.dispatches
  {
  }

  // ---- exactly which dispatches were released ----

  lemma {:induction false} PresentIsCounted(dispatches: seq<Dispatch>, d: Dispatch)
    requires d in dispatches
    ensures DispatchCount(dispatches, d.proposalId) >= 1
  {
    var front, last := dispatches[..|dispatches| - 1], dispatches[|dispatches| - 1];
    assert dispatches == front + [last];
    if d != last {
      PresentIsCounted(front, d);
    }
  }

  /** Once a release of `id` was relayed, its proposal counts as dispatched. */
  lemma ReleasedIsCounted(ops: seq<Op>, j: nat, d: Dispatch)
    requires ReleasedAt(ops, j, d)
    ensures DispatchCount(Run(ops).dispatches, d.proposalId) >= 1
  {
    hide Apply, Inv, DispatchCount;
    var before, after := Run(ops[..j]), Run(ops[..j + 1]);
    assert ops[..j + 1][..j] == ops[..j];
    var i := IndexOf(before.proposals, d.proposalId);
    CountKnown(ops[..j], i);
    ReleaseRecorded(before, ops[j], d);
    HistoryIsAppendOnly(ops, j + 1);
    if e :| e in after.dispatches && e.proposalId == d.proposalId {
      PresentIsCounted(Run(ops).dispatches, e);
    } else {
      CountedOnlyIfPresent(after.dispatches, d.proposalId);
    }
  }

  lemma CountKnown(ops: seq<Op>, i: nat)
    requires i < |Run(ops).proposals|
    ensures var p := Run(ops).proposals[i]; p.executionCount == DispatchCount(Run(ops).dispatches, p.id)
  {
    RunKeepsInv(ops);
    assert Run(ops).proposals[i] in Run(ops).proposals;
  }

  lemma ReleaseRecorded(w: Watch, op: Op, d: Dispatch)
    requires Releases(w, op, d.proposalId, d.releasedBy)
    requires var p := w.proposals[IndexOf(w.proposals, d.proposalId)];
             p.executionCount == DispatchCount(w.dispatches, d.proposalId)
    ensures exists e <- Apply(w, op).dispatches :: e.proposalId == d.proposalId
  {
    var p := w.proposals[IndexOf(w.proposals, d.proposalId)];
    DecisionDispatchesExactly(w, op.id, op.subject, op.reply);
    if p.executionCount > 0 {
      if forall e <- w.dispatches :: e.proposalId != d.proposalId {
        CountedOnlyIfPresent(w.dispatches, d.proposalId);
      }
      var e :| e in w.dispatches && e.proposalId == d.proposalId;
      assert e in Apply(w, op).dispatches;
    } else {
      var dispatches := Apply(w, op).dispatches;
      assert dispatches[|dispatches| - 1] in dispatches;
    }
  }

  /** A dispatch was held and released if and only if it was a decision that made it: one that a refresh makes was
      never released through breaker. */
  lemma DispatchJustifiedExactly(ops: seq<Op>, d: Dispatch)
    requires ops != [] && d in Run(ops).dispatches && d !in Run(ops[..|ops| - 1]).dispatches
    ensures Justified(ops, d) <==> ops[|ops| - 1].Decide?
  {
    hide Apply, Releases, Reports, HoldsFor, WasHeld;
    var n := |ops| - 1;
    var w := Run(ops[..n]);
    var i := IndexOf(w.proposals, d.proposalId);
    StepDispatches(w, ops[n], d);
    if ops[n].Decide? {
      DecidableWasHeld(ops[..n], i);
      ReleaseJustifies(ops, d);
    } else if Justified(ops, d) {
      var j: nat :| ReleasedAt(ops, j, d);
      RefreshIsNoRelease(ops, j, d);
      assert ops[..n][..j] == ops[..j];
      ReleasedIsCounted(ops[..n], j, d);
      CountKnown(ops[..n], i);
      NoSecondDispatch(w, ops[n], d);
    }
  }

  lemma RefreshIsNoRelease(ops: seq<Op>, j: nat, d: Dispatch)
    requires ReleasedAt(ops, j, d) && ops[|ops| - 1].Refresh?
    ensures j < |ops| - 1
  {
  }

  lemma NoSecondDispatch(w: Watch, op: Op, d: Dispatch)
    requires op.Refresh? && d in Apply(w, op).dispatches && d !in w.dispatches
    ensures d.proposalId == op.id
    ensures w.proposals[IndexOf(w.proposals, op.id)].executionCount == 0
  {
    RefreshDispatchesExactly(w, op.id, op.status);
  }
}
