/** What holds of the reload protocol over whole runs: when a type becomes reversible, which candidate is applied, and
    where the promises stop. */
module ReloadLaws {
  import opened Text
  import opened Config
  import opened Reload
  import Preflight

  datatype Op =
    | ReloadOp(path: string, source: Source, admitted: bool)
    | PostOp(id: HoldId, proposed: Proposed, admitted: bool)
    | ReleaseOp(approval: nat)
    | RejectOp(approval: nat)

  function After(s: State, op: Op): State {
    match op
    case ReloadOp(path, source, admitted) => AfterReload(s, path, source, admitted)
    case PostOp(id, p, admitted) => AfterPost(s, id, p, admitted)
    case ReleaseOp(approval) => AfterRelease(s, approval)
    case RejectOp(approval) => AfterReject(s, approval)
  }

  function Run(s: State, ops: seq<Op>): State {
    if ops == [] then s else After(Run(s, ops[..|ops| - 1]), ops[|ops| - 1])
  }

  // ---- what a step does to the holds ----

  /** The candidate loosens something, so its reload submits an effect. */
  predicate Submits(s: State, op: Op) {
    op.ReloadOp? && Staged(op.source).Accepted? && DowngradesIn(s.current, Staged(op.source).config.rules) != []
  }

  function IdOf(op: Op): HoldId
    requires op.ReloadOp? && Staged(op.source).Accepted?
  {
    HoldId(op.path, Staged(op.source).config.version)
  }

  /** The id of the effect a step executes, if it executes one: an approved one, or one that executes at once. */
  function Executes(s: State, op: Op): Option<HoldId> {
    match op
    case ReloadOp(_, _, _) => if Submits(s, op) && ExecutesAtOnce(s.current, DOWNGRADE) then Some(IdOf(op)) else None
    case PostOp(id, p, _) => if !TurnedAway(p) && ExecutesAtOnce(s.current, p) then Some(id) else None
    case ReleaseOp(approval) => if IsPending(s, approval) then Some(s.approvals[approval].id) else None
    case RejectOp(_) => None
  }

  /** The step holds a candidate under `id`. */
  predicate Holds(s: State, op: Op, id: HoldId) {
    Submits(s, op) && (ExecutesAtOnce(s.current, DOWNGRADE) || op.admitted) && id == IdOf(op)
  }

  function HoldOf(s: State, op: Op): Hold
    requires op.ReloadOp? && Staged(op.source).Accepted?
  {
    Hold(Staged(op.source).config, DowngradesIn(s.current, Staged(op.source).config.rules))
  }

  /** After a step there is under an id what the step holds there, or nothing if it executes there, or what was. */
  lemma HeldAfter(s: State, op: Op, id: HoldId)
    ensures var held := After(s, op).held;
            if Holds(s, op, id) then id in held && held[id] == HoldOf(s, op)
            else if Executes(s, op) == Some(id) then id !in held
            else (id in held <==> id in s.held) && (id in held ==> held[id] == s.held[id])
  {
    hide Staged, DowngradesIn, ExecutesAtOnce;
  }

  /** The registry changes only to a candidate that loosens nothing, reloaded, or to one held under the id of an effect
      the step executes. */
  lemma CurrentAfter(s: State, op: Op)
    ensures var at := Executes(s, op);
            After(s, op).current
            == (if at.Some? && at.value in s.held then s.held[at.value].candidate
                else if op.ReloadOp? && Staged(op.source).Accepted? && !Submits(s, op) then Staged(op.source).config
                else s.current)
  {
    hide Staged, DowngradesIn, ExecutesAtOnce;
  }

  // ---- loosening ----

  /** The step executes an effect under whose id something is held that loosens `key`. */
  ghost predicate AppliesLooser(s: State, op: Op, key: Node) {
    var at := Executes(s, op);
    at.Some? && at.value in s.held && Loosened(s.current, s.held[at.value].candidate, key)
  }

  /** One step loosens a type if and only if it executes an effect under whose id a candidate is held that does. */
  lemma StepLoosensExactly(s: State, op: Op, key: Node)
    ensures Loosened(s.current, After(s, op).current, key) <==> AppliesLooser(s, op, key)
  {
    hide Staged, DowngradesIn, ExecutesAtOnce, ClassOf, Lists;
    CurrentAfter(s, op);
    if op.ReloadOp? && Staged(op.source).Accepted? && !Submits(s, op) {
      NoLooseningMissed(s.current, Staged(op.source).config, key);
      NothingListed(s.current, Staged(op.source).config.rules, key);
    }
  }

  lemma NothingListed(current: Config, rules: seq<EffectRule>, key: Node)
    ensures DowngradesIn(current, rules) == [] ==> !Lists(DowngradesIn(current, rules), key)
  {
  }

  /** So an effect posted under an id loosens a type if and only if a candidate is held there that does, and the effect
      is let in and executes at once: of a type whose rule is reversible and executes by itself, or of no type and
      claiming to be reversible. */
  lemma PostLoosensExactly(s: State, id: HoldId, p: Proposed, admitted: bool, key: Node)
    ensures Loosened(s.current, After(s, PostOp(id, p, admitted)).current, key)
       <==> && id in s.held && Loosened(s.current, s.held[id].candidate, key)
            && (if p.effectType == "" then p.claimsReversible
                else && (p.authenticated || !("authz." <= p.effectType))
                     && !(p.effectType in {"authz.grant", "authz.delegate"} && p.escalates)
                     && var types := ByEffectType(s.current.rules);
                        && Str(p.effectType) in types
                        && types[Str(p.effectType)].reversibilityClass == "reversible"
                        && types[Str(p.effectType)].autoExecute)
  {
    hide Loosened, ByEffectType;
    StepLoosensExactly(s, PostOp(id, p, admitted), key);
  }

  ghost predicate LoosensAt(s: State, ops: seq<Op>, i: nat, key: Node) {
    i < |ops| && Loosened(Run(s, ops[..i]).current, Run(s, ops[..i + 1]).current, key)
  }

  lemma LoosensAtExactly(s: State, ops: seq<Op>, i: nat, key: Node)
    requires i < |ops|
    ensures LoosensAt(s, ops, i, key) <==> AppliesLooser(Run(s, ops[..i]), ops[i], key)
  {
    hide AppliesLooser, After;
    assert ops[..i + 1][..i] == ops[..i];
    StepLoosensExactly(Run(s, ops[..i]), ops[i], key);
  }

  lemma LoosenedBefore(first: Config, middle: Config, last: Config, key: Node)
    requires Loosened(first, last, key) && !Loosened(middle, last, key)
    ensures Loosened(first, middle, key)
  {
  }

  lemma LoosensInFront(s: State, ops: seq<Op>, i: nat, key: Node)
    requires ops != [] && LoosensAt(s, ops[..|ops| - 1], i, key)
    ensures LoosensAt(s, ops, i, key)
  {
    hide Run, Loosened;
    var front := ops[..|ops| - 1];
    assert front[..i] == ops[..i] && front[..i + 1] == ops[..i + 1];
  }

  lemma {:induction false} LoosenedSomewhere(s: State, ops: seq<Op>, key: Node)
    requires Loosened(s.current, Run(s, ops).current, key)
    ensures exists i: nat :: LoosensAt(s, ops, i, key)
  {
    hide After, LoosensAt;
    if ops != [] {
      var n := |ops| - 1;
      if Loosened(Run(s, ops[..n]).current, Run(s, ops).current, key) {
        LoosensLast(s, ops, key);
      } else {
        LoosenedBefore(s.current, Run(s, ops[..n]).current, Run(s, ops).current, key);
        LoosenedSomewhere(s, ops[..n], key);
        var i: nat :| LoosensAt(s, ops[..n], i, key);
        LoosensInFront(s, ops, i, key);
      }
    }
  }

  lemma LoosensLast(s: State, ops: seq<Op>, key: Node)
    requires ops != [] && Loosened(Run(s, ops[..|ops| - 1]).current, Run(s, ops).current, key)
    ensures LoosensAt(s, ops, |ops| - 1, key)
  {
    hide Run, Loosened;
    assert ops[..|ops|] == ops;
  }

  /** No silent loosening: if a type has become reversible over a run, some step in it loosened that type, by executing
      an effect under whose id the candidate was held. */
  lemma NoSilentLoosening(s: State, ops: seq<Op>, key: Node)
    requires Loosened(s.current, Run(s, ops).current, key)
    ensures exists i | 0 <= i < |ops| :: LoosensAt(s, ops, i, key) && AppliesLooser(Run(s, ops[..i]), ops[i], key)
  {
    hide Run, Loosened, AppliesLooser;
    LoosenedSomewhere(s, ops, key);
    var i: nat :| LoosensAt(s, ops, i, key);
    LoosensAtExactly(s, ops, i, key);
  }

  /** The step executes at once, with no approval, an effect under whose id something is held that loosens `key`. */
  ghost predicate Unapproved(s: State, op: Op, key: Node) {
    !op.ReleaseOp? && AppliesLooser(s, op, key)
  }

  /** In a run, whatever loosens a type is an approval, if and only if no step executes at once an effect under whose id
      a candidate is held that loosens it. */
  lemma LooseningsAreReleasesExactly(s: State, ops: seq<Op>, key: Node)
    ensures (forall i: nat | LoosensAt(s, ops, i, key) :: ops[i].ReleaseOp?)
       <==> (forall i: nat | i < |ops| :: !Unapproved(Run(s, ops[..i]), ops[i], key))
  {
    hide AppliesLooser, LoosensAt;
    forall i: nat | i < |ops|
      ensures LoosensAt(s, ops, i, key) <==> AppliesLooser(Run(s, ops[..i]), ops[i], key)
    {
      LoosensAtExactly(s, ops, i, key);
    }
    assert forall i: nat :: LoosensAt(s, ops, i, key) ==> i < |ops| by {
      InRange(s, ops, key);
    }
  }

  lemma InRange(s: State, ops: seq<Op>, key: Node)
    ensures forall i: nat :: LoosensAt(s, ops, i, key) ==> i < |ops|
  {
  }

  /** An effect posted at step `i` executes at once under an id where something is held. */
  ghost predicate PostApplies(s: State, ops: seq<Op>, i: nat) {
    && i < |ops| && ops[i].PostOp?
    && var w := Run(s, ops[..i]);
       ops[i].id in w.held && Executes(w, ops[i]) == Some(ops[i].id)
  }

  ghost predicate NoPostApplies(s: State, ops: seq<Op>) {
    forall i: nat :: !PostApplies(s, ops, i)
  }

  ghost predicate ReleaseLoosens(s: State, ops: seq<Op>) {
    exists i: nat, key :: i < |ops| && ops[i].ReleaseOp? && LoosensAt(s, ops, i, key)
  }

  ghost predicate LoosensNothing(before: Config, after: Config) {
    forall key: Node :: ClassOf(after, key) == "reversible" ==> ClassOf(before, key) == "reversible"
  }

  lemma SomethingLoosened(before: Config, after: Config) returns (key: Node)
    requires !LoosensNothing(before, after)
    ensures Loosened(before, after, key)
  {
    key :| ClassOf(after, key) == "reversible" && ClassOf(before, key) != "reversible";
  }

  /** From a registry that loosens nothing over the start, a step that is no release loosens nothing. */
  lemma StepLoosensNothing(start: Config, s: State, op: Op)
    requires ClassOf(start, Str(DOWNGRADE_TYPE)) != "reversible" && LoosensNothing(start, s.current)
    requires !(op.PostOp? && op.id in s.held && Executes(s, op) == Some(op.id))
    ensures op.ReleaseOp? || LoosensNothing(s.current, After(s, op).current)
  {
    hide After, ClassOf, Executes, ExecutesAtOnce, LoosensNothing, Loosened;
    if !LoosensNothing(s.current, After(s, op).current) {
      var key := SomethingLoosened(s.current, After(s, op).current);
      StepLoosensExactly(s, op, key);
      DowngradeNotAtOnce(start, s.current);
      OnlyAReleaseIsLeft(s, op, key);
    }
  }

  lemma LastReleaseLoosens(s: State, ops: seq<Op>, key: Node)
    requires ops != [] && ops[|ops| - 1].ReleaseOp?
    requires Loosened(Run(s, ops[..|ops| - 1]).current, Run(s, ops).current, key)
    ensures ReleaseLoosens(s, ops)
  {
    hide Run, Loosened, LoosensAt;
    LoosensLast(s, ops, key);
  }

  lemma PostsBefore(s: State, ops: seq<Op>)
    requires ops != [] && NoPostApplies(s, ops)
    ensures NoPostApplies(s, ops[..|ops| - 1])
  {
    hide Run, Executes;
    var front := ops[..|ops| - 1];
    forall i: nat
      ensures !PostApplies(s, front, i)
    {
      assert i < |front| ==> front[..i] == ops[..i];
      assert !PostApplies(s, ops, i);
    }
  }

  lemma {:induction false} NothingLoosenedYet(s: State, ops: seq<Op>)
    requires ClassOf(s.current, Str(DOWNGRADE_TYPE)) != "reversible"
    requires NoPostApplies(s, ops)
    ensures ReleaseLoosens(s, ops) || LoosensNothing(s.current, Run(s, ops).current)
  {
    if ops != [] {
      hide After, ClassOf, Executes, LoosensNothing, Loosened, ReleaseLoosens;
      var n := |ops| - 1;
      var w, after := Run(s, ops[..n]).current, Run(s, ops).current;
      PostsBefore(s, ops);
      NothingLoosenedYet(s, ops[..n]);
      if ReleaseLoosens(s, ops[..n]) {
        StillLoosens(s, ops);
      } else {
        assert !PostApplies(s, ops, n);
        StepLoosensNothing(s.current, Run(s, ops[..n]), ops[n]);
        if LoosensNothing(w, after) {
          LoosensNothingStill(s.current, w, after);
        } else {
          var key := SomethingLoosened(w, after);
          LastReleaseLoosens(s, ops, key);
        }
      }
    }
  }

  lemma LoosensNothingStill(first: Config, middle: Config, last: Config)
    requires LoosensNothing(first, middle) && LoosensNothing(middle, last)
    ensures LoosensNothing(first, last)
  {
  }

  lemma OnlyAReleaseIsLeft(s: State, op: Op, key: Node)
    requires AppliesLooser(s, op, key) && !ExecutesAtOnce(s.current, DOWNGRADE)
    requires !(op.PostOp? && op.id in s.held && Executes(s, op) == Some(op.id))
    ensures op.ReleaseOp?
  {
    hide Submits, ExecutesAtOnce, Loosened;
  }

  lemma StillLoosens(s: State, ops: seq<Op>)
    requires ops != [] && ReleaseLoosens(s, ops[..|ops| - 1])
    ensures ReleaseLoosens(s, ops)
  {
    hide LoosensAt;
    var n := |ops| - 1;
    var i: nat, key :| i < n && ops[..n][i].ReleaseOp? && LoosensAt(s, ops[..n], i, key);
    LoosensInFront(s, ops, i, key);
  }

  /** As long as nothing was loosened, a reload's effect does not execute at once. */
  lemma DowngradeNotAtOnce(start: Config, current: Config)
    requires ClassOf(start, Str(DOWNGRADE_TYPE)) != "reversible" && LoosensNothing(start, current)
    ensures !ExecutesAtOnce(current, DOWNGRADE)
  {
    assert ClassOf(current, Str(DOWNGRADE_TYPE)) != "reversible";
  }

  /** The first loosening is a human's: if the registry starts with downgrades irreversible, known or not, and no effect
      posted under a hold's id executes at once, then a run that loosens anything has an approval in it that does. */
  lemma FirstLooseningIsARelease(s: State, ops: seq<Op>, key: Node)
    requires ClassOf(s.current, Str("config.reversibility_downgrade")) != "reversible"
    requires NoPostApplies(s, ops)
    ensures Loosened(s.current, Run(s, ops).current, key) ==> ReleaseLoosens(s, ops)
  {
    hide Run, NoPostApplies, ReleaseLoosens;
    NothingLoosenedYet(s, ops);
  }

  // ---- reloads that fail ----

  /** The reload does not succeed: refused, failed, or its hold not admitted. */
  ghost predicate Fails(s: State, op: Op) {
    && op.ReloadOp?
    && (Staged(op.source).Accepted? ==> Submits(s, op) && !ExecutesAtOnce(s.current, DOWNGRADE) && !op.admitted)
  }

  function Refusals(ops: seq<Op>): seq<Entry> {
    if ops == [] then []
    else
      var last := ops[|ops| - 1];
      Refusals(ops[..|ops| - 1])
      + if last.ReloadOp? && Staged(last.source).Refused? then [ConfigRefused(Staged(last.source).refusal)] else []
  }

  /** However many reloads fail against a running registry, it runs on, the holds and their approvals stand, and of
      registry entries the ledger has gained the refusals, in order, and no other. */
  lemma {:induction false} RefusalChangesNothing(s: State, ops: seq<Op>)
    requires forall op <- ops :: Fails(s, op)
    ensures var s' := Run(s, ops);
            && s'.current == s.current && s'.held == s.held && s'.approvals == s.approvals
            && s'.ledger == s.ledger + Refusals(ops)
  {
    if ops != [] {
      var n := |ops| - 1;
      RefusalChangesNothing(s, ops[..n]);
      assert Fails(s, ops[n]);
      assert s.ledger + Refusals(ops[..n]) + Refusals(ops)[|Refusals(ops[..n])|..] == s.ledger + Refusals(ops);
    }
  }

  /** Every config that runs after a start from safe rules is safe: none holds an irreversible rule that executes by
      itself. */
  ghost predicate Safe(s: State) {
    && Preflight.SafeRules(s.current.rules)
    && forall id <- s.held :: Preflight.SafeRules(s.held[id].candidate.rules)
  }

  lemma {:induction false} RunningConfigIsSafe(s: State, ops: seq<Op>)
    requires Safe(s)
    ensures Safe(Run(s, ops))
  {
    if ops != [] {
      var n := |ops| - 1;
      RunningConfigIsSafe(s, ops[..n]);
      StepIsSafe(Run(s, ops[..n]), ops[n]);
    }
  }

  lemma StepIsSafe(s: State, op: Op)
    requires Safe(s)
    ensures Safe(After(s, op))
  {
    hide Throughline, Preflight.SafeRules, DowngradesIn, ExecutesAtOnce;
    if op.ReloadOp? && op.source.FileText? {
      Preflight.AcceptedIsSafe(op.source.doc);
    }
  }

  // ---- where the running registry comes from ----

  /** A path outside the allowlist and a file that cannot be read are refused, the first by the allowlist's policy: the
      refusal stands and is ledgered, and nothing else changes. */
  lemma SourceRefused(s: State, path: string, source: Source, admitted: bool)
    requires source.OutsideDirectory? || source.UnreadableFile?
    ensures exists r: Refusal ::
              && After(s, ReloadOp(path, source, admitted))
                 == State(s.current, s.held, s.approvals, Some(r), s.ledger + [ConfigRefused(r)])
              && (r.policy == SourceAllowlist <==> source.OutsideDirectory?)
              && r.rule == None && r.line == None
  {
    var s' := After(s, ReloadOp(path, source, admitted));
    assert s'.refusal.Some? && s' == State(s.current, s.held, s.approvals, s'.refusal, s'.ledger);
  }

  /** Some reload of the run was of a document that throughline reads as this registry. */
  ghost predicate WasReloaded(ops: seq<Op>, config: Config) {
    exists i: nat :: && i < |ops| && ops[i].ReloadOp? && ops[i].source.FileText?
                     && Throughline(ops[i].source.doc) == Accepted(config)
  }

  lemma StillReloaded(ops: seq<Op>, config: Config)
    requires ops != [] && WasReloaded(ops[..|ops| - 1], config)
    ensures WasReloaded(ops, config)
  {
    var front := ops[..|ops| - 1];
    var i: nat :| && i < |front| && front[i].ReloadOp? && front[i].source.FileText?
                  && Throughline(front[i].source.doc) == Accepted(config);
    assert ops[i] == front[i];
  }

  lemma ReloadedLast(ops: seq<Op>)
    requires ops != [] && ops[|ops| - 1].ReloadOp? && Staged(ops[|ops| - 1].source).Accepted?
    ensures WasReloaded(ops, Staged(ops[|ops| - 1].source).config)
  {
    hide Throughline;
    assert ops[|ops| - 1].source.FileText?;
  }

  /** Over any run, the registry that runs is the one it started with or one a reload in it read from a document, and so
      is every candidate held that was not held before. */
  lemma {:induction false} RegistriesComeFromDocuments(s: State, ops: seq<Op>)
    ensures Run(s, ops).current == s.current || WasReloaded(ops, Run(s, ops).current)
         || exists id <- s.held :: Run(s, ops).current == s.held[id].candidate
    ensures forall id <- Run(s, ops).held ::
              || (id in s.held && Run(s, ops).held[id] == s.held[id])
              || WasReloaded(ops, Run(s, ops).held[id].candidate)
  {
    if ops != [] {
      hide After, Staged, WasReloaded, Executes, Holds, Submits;
      var n := |ops| - 1;
      var w, w' := Run(s, ops[..n]), Run(s, ops);
      RegistriesComeFromDocuments(s, ops[..n]);
      CurrentAfter(w, ops[n]);
      if WasReloaded(ops[..n], w.current) {
        StillReloaded(ops, w.current);
      }
      if ops[n].ReloadOp? && Staged(ops[n].source).Accepted? {
        ReloadedLast(ops);
      }
      forall id | id in w.held && WasReloaded(ops[..n], w.held[id].candidate)
        ensures WasReloaded(ops, w.held[id].candidate)
      {
        StillReloaded(ops, w.held[id].candidate);
      }
      forall id <- w'.held
        ensures (id in w.held && w'.held[id] == w.held[id]) || WasReloaded(ops, w'.held[id].candidate)
      {
        HeldAfter(w, ops[n], id);
        HoldIsReload(w, ops[n], id);
      }
    }
  }

  lemma HoldIsReload(s: State, op: Op, id: HoldId)
    ensures Holds(s, op, id) ==>
              op.ReloadOp? && Staged(op.source).Accepted? && HoldOf(s, op).candidate == Staged(op.source).config
  {
  }

  // ---- which candidate is held ----

  /** Nothing is held and no approval raised, as at start-up. */
  ghost predicate NothingHeld(s: State) {
    s.held == map[] && s.approvals == []
  }

  /** Operation `i` is the reload that held this: the candidate comes from the id's path, and its list was made against
      the registry that ran then. */
  ghost predicate HeldAt(s: State, ops: seq<Op>, i: nat, id: HoldId, hold: Hold) {
    && i < |ops| && Holds(Run(s, ops[..i]), ops[i], id)
    && hold == HoldOf(Run(s, ops[..i]), ops[i])
  }

  ghost predicate Touches(s: State, ops: seq<Op>, j: nat, id: HoldId)
    requires j < |ops|
  {
    var w := Run(s, ops[..j]);
    Holds(w, ops[j], id) || Executes(w, ops[j]) == Some(id)
  }

  /** From operation `from` on, nothing is held or executed under `id`. */
  ghost predicate Untouched(s: State, ops: seq<Op>, from: nat, id: HoldId) {
    forall j: nat | from <= j < |ops| :: !Touches(s, ops, j, id)
  }

  ghost predicate LastHeldAt(s: State, ops: seq<Op>, i: nat, id: HoldId, hold: Hold) {
    HeldAt(s, ops, i, id, hold) && Untouched(s, ops, i + 1, id)
  }

  ghost predicate IsHeld(s: State, id: HoldId, hold: Hold) {
    id in s.held && s.held[id] == hold
  }

  lemma FrontTouches(s: State, ops: seq<Op>, j: nat, id: HoldId)
    requires j < |ops| - 1
    ensures Touches(s, ops[..|ops| - 1], j, id) == Touches(s, ops, j, id)
  {
    assert ops[..|ops| - 1][..j] == ops[..j];
  }

  lemma FrontUntouched(s: State, ops: seq<Op>, from: nat, id: HoldId)
    requires ops != [] && from < |ops|
    ensures Untouched(s, ops, from, id)
       <==> Untouched(s, ops[..|ops| - 1], from, id) && !Touches(s, ops, |ops| - 1, id)
  {
    hide Touches;
    var front := ops[..|ops| - 1];
    forall j: nat | j < |front|
      ensures Touches(s, front, j, id) == Touches(s, ops, j, id)
    {
      FrontTouches(s, ops, j, id);
    }
    assert Untouched(s, front, from, id) ==> forall j: nat | from <= j < |front| :: !Touches(s, ops, j, id);
  }

  lemma LastHeldInFront(s: State, ops: seq<Op>, i: nat, id: HoldId, hold: Hold)
    requires i < |ops| - 1
    ensures LastHeldAt(s, ops, i, id, hold)
       <==> LastHeldAt(s, ops[..|ops| - 1], i, id, hold) && !Touches(s, ops, |ops| - 1, id)
  {
    hide Touches, Untouched, Holds, HoldOf;
    FrontUntouched(s, ops, i + 1, id);
    assert ops[..|ops| - 1][..i] == ops[..i];
  }

  lemma LastHeldHere(s: State, ops: seq<Op>, id: HoldId, hold: Hold)
    requires ops != []
    ensures LastHeldAt(s, ops, |ops| - 1, id, hold) <==> HeldAt(s, ops, |ops| - 1, id, hold)
  {
    hide Touches, HeldAt;
  }

  /** What is held under an id is what the last operation to touch it held there, if that held something; and if the
      last to touch it executed an effect, nothing. */
  lemma {:induction false} HeldExactly(s: State, ops: seq<Op>, id: HoldId, hold: Hold)
    requires NothingHeld(s)
    ensures IsHeld(Run(s, ops), id, hold) <==> exists i: nat :: LastHeldAt(s, ops, i, id, hold)
  {
    if ops != [] {
      hide Holds, HoldOf, Executes, After, LastHeldAt;
      var n := |ops| - 1;
      HeldExactly(s, ops[..n], id, hold);
      HeldAfter(Run(s, ops[..n]), ops[n], id);
      LastHeldHere(s, ops, id, hold);
      forall i: nat | i < n
        ensures LastHeldAt(s, ops, i, id, hold)
           <==> LastHeldAt(s, ops[..n], i, id, hold) && !Touches(s, ops, n, id)
      {
        LastHeldInFront(s, ops, i, id, hold);
      }
      forall i: nat
        ensures LastHeldAt(s, ops, i, id, hold) ==> i <= n
        ensures LastHeldAt(s, ops[..n], i, id, hold) ==> i < n
      {
        LastHeldWithin(s, ops, i, id, hold);
        LastHeldWithin(s, ops[..n], i, id, hold);
      }
    }
  }

  lemma LastHeldWithin(s: State, ops: seq<Op>, i: nat, id: HoldId, hold: Hold)
    ensures LastHeldAt(s, ops, i, id, hold) ==> i < |ops|
  {
  }

  /** What is applied loosens what is on the list its hold was made with, except exactly the types that were reversible
      when the list was made and were tightened since. */
  lemma AppliedLoosensListed(s: State, ops: seq<Op>, op: Op, key: Node)
    requires NothingHeld(s)
    requires Loosened(Run(s, ops).current, After(Run(s, ops), op).current, key)
    ensures var w := Run(s, ops);
            && AppliesLooser(w, op, key)
            && var id := Executes(w, op).value;
               exists i: nat ::
                 && LastHeldAt(s, ops, i, id, w.held[id])
                 && (Lists(w.held[id].downgrades, key) <==> ClassOf(Run(s, ops[..i]).current, key) != "reversible")
  {
    hide Run, Staged, DowngradesIn, Lists, ClassOf, ExecutesAtOnce;
    var w := Run(s, ops);
    StepLoosensExactly(w, op, key);
    var id := Executes(w, op).value;
    HeldExactly(s, ops, id, w.held[id]);
    var i: nat :| LastHeldAt(s, ops, i, id, w.held[id]);
    ListedAgainst(Run(s, ops[..i]).current, w.current, w.held[id], key);
  }

  lemma ListedAgainst(against: Config, running: Config, hold: Hold, key: Node)
    requires hold.downgrades == DowngradesIn(against, hold.candidate.rules)
    requires Loosened(running, hold.candidate, key)
    ensures Lists(hold.downgrades, key) <==> ClassOf(against, key) != "reversible"
  {
    NoLooseningMissed(running, hold.candidate, key);
    ListedExactly(running, hold.candidate.rules, key);
    ListedExactly(against, hold.candidate.rules, key);
  }

  /** An approval there is not, or one already decided, decides nothing; and after a decision it is decided. */
  lemma DecidedOnce(s: State, k: nat)
    ensures k >= |s.approvals| || s.approvals[k].decided ==> After(s, ReleaseOp(k)) == s && After(s, RejectOp(k)) == s
    ensures k < |s.approvals| ==>
              && k < |After(s, ReleaseOp(k)).approvals| && After(s, ReleaseOp(k)).approvals[k].decided
              && k < |After(s, RejectOp(k)).approvals| && After(s, RejectOp(k)).approvals[k].decided
              && After(s, RejectOp(k)).current == s.current && After(s, RejectOp(k)).held == s.held
  {
  }

  // ---- which candidate an approval applies ----

  /** Which candidate an approval applies, exactly: its own, if and only if the last operation to touch the id of its
      effect held that same candidate there. */
  lemma ReleaseAppliesItsOwnExactly(s: State, ops: seq<Op>, approval: nat)
    requires NothingHeld(s)
    requires IsPending(Run(s, ops), approval) && Run(s, ops).approvals[approval].candidate.Some?
    ensures var w, a := Run(s, ops), Run(s, ops).approvals[approval];
            (After(w, ReleaseOp(approval)) == Taken(Decided(w, approval), a.id, a.candidate.value))
            <==> exists i: nat, hold: Hold :: hold.candidate == a.candidate.value && LastHeldAt(s, ops, i, a.id, hold)
  {
    hide Run, LastHeldAt;
    var w := Run(s, ops);
    var a := w.approvals[approval];
    if a.id in w.held {
      HeldExactly(s, ops, a.id, w.held[a.id]);
    } else {
      assert |After(w, ReleaseOp(approval)).ledger| == |w.ledger|;
    }
    forall i: nat, hold | LastHeldAt(s, ops, i, a.id, hold)
      ensures IsHeld(w, a.id, hold)
    {
      HeldExactly(s, ops, a.id, hold);
    }
  }

  /** Operation `i` is the reload that raised the approval. */
  ghost predicate RaisedAt(s: State, ops: seq<Op>, i: nat, approval: nat) {
    && i < |ops| && Submits(Run(s, ops[..i]), ops[i]) && approval == |Run(s, ops[..i]).approvals|
    && approval < |Run(s, ops[..i + 1]).approvals|
  }

  /** The same approval, maybe decided meanwhile. */
  ghost predicate Becomes(a: Raised, b: Raised) {
    b.id == a.id && b.candidate == a.candidate && (a.decided ==> b.decided)
  }

  lemma ApprovalStays(s: State, op: Op, k: nat)
    requires k < |s.approvals|
    ensures k < |After(s, op).approvals| && Becomes(s.approvals[k], After(s, op).approvals[k])
    ensures op == ReleaseOp(k) || op == RejectOp(k) ==> After(s, op).approvals[k].decided
  {
    hide Staged, DowngradesIn, ExecutesAtOnce;
  }

  /** A step raises one approval at most: a reload that submits, for its candidate, or a posted effect, for none. */
  lemma ApprovalIsNew(s: State, op: Op)
    ensures |After(s, op).approvals| <= |s.approvals| + 1
    ensures Submits(s, op) && !ExecutesAtOnce(s.current, DOWNGRADE) && op.admitted ==>
              |After(s, op).approvals| == |s.approvals| + 1
    ensures |After(s, op).approvals| > |s.approvals| ==>
              var a := After(s, op).approvals[|s.approvals|];
              if op.ReloadOp?
              then && Submits(s, op) && !ExecutesAtOnce(s.current, DOWNGRADE) && op.admitted
                   && a == Raised(IdOf(op), Some(Staged(op.source).config), false)
              else op.PostOp? && a == Raised(op.id, None, false)
  {
    hide Staged, DowngradesIn, ExecutesAtOnce;
  }

  lemma {:induction false} ApprovalsPersist(s: State, ops: seq<Op>, j: nat, k: nat)
    requires j <= |ops| && k < |Run(s, ops[..j]).approvals|
    ensures k < |Run(s, ops).approvals| && Becomes(Run(s, ops[..j]).approvals[k], Run(s, ops).approvals[k])
    decreases |ops|
  {
    hide After;
    if j == |ops| {
      assert ops[..j] == ops;
    } else {
      var n := |ops| - 1;
      assert ops[..n][..j] == ops[..j];
      ApprovalsPersist(s, ops[..n], j, k);
      ApprovalStays(Run(s, ops[..n]), ops[n], k);
    }
  }

  lemma {:induction false} ApprovalsAreRaised(s: State, ops: seq<Op>, k: nat)
    requires NothingHeld(s) && k < |Run(s, ops).approvals| && Run(s, ops).approvals[k].candidate.Some?
    ensures exists i: nat :: RaisedAt(s, ops, i, k)
  {
    hide After, Submits;
    var n := |ops| - 1;
    var w := Run(s, ops[..n]);
    assert ops[..n + 1] == ops;
    ApprovalIsNew(w, ops[n]);
    if k < |w.approvals| {
      ApprovalStays(w, ops[n], k);
      ApprovalsAreRaised(s, ops[..n], k);
      var i: nat :| RaisedAt(s, ops[..n], i, k);
      assert ops[..n][..i] == ops[..i] && ops[..n][..i + 1] == ops[..i + 1];
      assert RaisedAt(s, ops, i, k);
    } else {
      assert RaisedAt(s, ops, n, k);
    }
  }

  /** What the reload that raised an approval did: it held the approval's candidate under the approval's id. */
  lemma RaisingHolds(s: State, ops: seq<Op>, i: nat, k: nat)
    requires RaisedAt(s, ops, i, k)
    ensures k < |Run(s, ops).approvals|
    ensures var a := Run(s, ops).approvals[k];
            && a.candidate.Some?
            && exists hold: Hold :: hold.candidate == a.candidate.value && HeldAt(s, ops, i, a.id, hold)
  {
    hide After, DowngradesIn, Staged;
    var w := Run(s, ops[..i]);
    assert ops[..i + 1][..i] == ops[..i];
    ApprovalIsNew(w, ops[i]);
    ApprovalsPersist(s, ops, i + 1, k);
    assert HeldAt(s, ops, i, IdOf(ops[i]), HoldOf(w, ops[i]));
  }

  /** An approval applies what it was raised for if nothing has touched the id of its effect since. */
  lemma UntouchedApprovalAppliesItsOwn(s: State, ops: seq<Op>, i: nat, approval: nat)
    requires NothingHeld(s) && IsPending(Run(s, ops), approval) && RaisedAt(s, ops, i, approval)
    requires Untouched(s, ops, i + 1, Run(s, ops).approvals[approval].id)
    ensures var w, a := Run(s, ops), Run(s, ops).approvals[approval];
            && a.candidate.Some?
            && After(w, ReleaseOp(approval)) == Taken(Decided(w, approval), a.id, a.candidate.value)
  {
    hide Run, After, RaisedAt, HeldAt, Untouched;
    var a := Run(s, ops).approvals[approval];
    RaisingHolds(s, ops, i, approval);
    var hold: Hold :| hold.candidate == a.candidate.value && HeldAt(s, ops, i, a.id, hold);
    assert LastHeldAt(s, ops, i, a.id, hold);
    ReleaseAppliesItsOwnExactly(s, ops, approval);
  }

  /** Operation `j` executes an effect of that id at once. */
  ghost predicate AtOnce(s: State, ops: seq<Op>, j: nat, id: HoldId)
    requires j < |ops|
  {
    !ops[j].ReleaseOp? && Executes(Run(s, ops[..j]), ops[j]) == Some(id)
  }

  /** A touch under `id` that is not at once raises another approval there, or decides one. */
  lemma TouchShows(s: State, ops: seq<Op>, j: nat, id: HoldId)
    requires j < |ops| && Touches(s, ops, j, id) && !AtOnce(s, ops, j, id)
    ensures var before, after := Run(s, ops[..j]).approvals, Run(s, ops).approvals;
            || (&& ops[j].ReleaseOp? && ops[j].approval < |after| && after[ops[j].approval].id == id
                && after[ops[j].approval].decided)
            || (|before| < |after| && after[|before|].id == id)
  {
    hide After, DowngradesIn, Staged, ExecutesAtOnce;
    var w := Run(s, ops[..j]);
    assert ops[..j + 1][..j] == ops[..j];
    if ops[j].ReleaseOp? {
      ApprovalStays(w, ops[j], ops[j].approval);
      ApprovalsPersist(s, ops, j + 1, ops[j].approval);
    } else {
      ApprovalIsNew(w, ops[j]);
      ApprovalsPersist(s, ops, j + 1, |w.approvals|);
    }
  }

  /** So the only approval raised for a path and version applies what it was raised for, if no effect of that id ever
      executed at once. */
  lemma SoleApprovalAppliesItsOwn(s: State, ops: seq<Op>, approval: nat)
    requires NothingHeld(s)
    requires IsPending(Run(s, ops), approval) && Run(s, ops).approvals[approval].candidate.Some?
    requires var all := Run(s, ops).approvals;
             forall n | 0 <= n < |all| && n != approval :: all[n].id != all[approval].id
    requires forall j: nat | j < |ops| :: !AtOnce(s, ops, j, Run(s, ops).approvals[approval].id)
    ensures var w, a := Run(s, ops), Run(s, ops).approvals[approval];
            After(w, ReleaseOp(approval)) == Taken(Decided(w, approval), a.id, a.candidate.value)
  {
    hide Run, After, AtOnce, Touches;
    var id := Run(s, ops).approvals[approval].id;
    ApprovalsAreRaised(s, ops, approval);
    var i: nat :| RaisedAt(s, ops, i, approval);
    forall j: nat | i + 1 <= j < |ops|
      ensures !Touches(s, ops, j, id)
    {
      if Touches(s, ops, j, id) {
        TouchShows(s, ops, j, id);
        RaisedEarlier(s, ops, i, j, approval);
      }
    }
    UntouchedApprovalAppliesItsOwn(s, ops, i, approval);
  }

  lemma RaisedEarlier(s: State, ops: seq<Op>, i: nat, j: nat, k: nat)
    requires RaisedAt(s, ops, i, k) && i + 1 <= j < |ops|
    ensures k < |Run(s, ops[..j]).approvals|
  {
    hide Run;
    assert ops[..j][..i + 1] == ops[..i + 1];
    ApprovalsPersist(s, ops[..j], i + 1, k);
  }

  // ---- rejected candidates ----

  lemma {:induction false} UntouchedStands(s: State, ops: seq<Op>, id: HoldId)
    requires Untouched(s, ops, 0, id) && id in s.held
    ensures IsHeld(Run(s, ops), id, s.held[id])
  {
    if ops != [] {
      hide After, Holds, Executes;
      var n := |ops| - 1;
      FrontUntouched(s, ops, 0, id);
      UntouchedStands(s, ops[..n], id);
      HeldAfter(Run(s, ops[..n]), ops[n], id);
    }
  }

  /** What becomes of a rejected candidate, exactly. It stays where it is held until an operation touches its id. If
      that one executes an effect there, an approval that is still pending or an effect that executes at once, the
      rejected candidate is applied. If it only holds another candidate there, the rejected one is gone. */
  lemma RejectedAppliesExactly(w: State, approval: nat, ops: seq<Op>, op: Op)
    requires IsPending(w, approval) && w.approvals[approval].id in w.held
    requires Untouched(AfterReject(w, approval), ops, 0, w.approvals[approval].id)
    ensures var id, v := w.approvals[approval].id, Run(AfterReject(w, approval), ops);
            && IsHeld(v, id, w.held[id])
            && (if Executes(v, op) == Some(id) then After(v, op).current == w.held[id].candidate
                else && (Holds(v, op, id) || IsHeld(After(v, op), id, w.held[id]))
                     && (Holds(v, op, id) ==>
                           IsHeld(After(v, op), id, HoldOf(v, op)) && After(v, op).current == v.current))
  {
    hide Run, Untouched, DowngradesIn, Staged, ExecutesAtOnce;
    var id, v := w.approvals[approval].id, Run(AfterReject(w, approval), ops);
    UntouchedStands(AfterReject(w, approval), ops, id);
    HeldAfter(v, op, id);
    CurrentAfter(v, op);
  }

  ghost predicate NonePending(s: State, id: HoldId) {
    forall k: nat | k < |s.approvals| && s.approvals[k].id == id :: s.approvals[k].decided
  }

  /** Nothing more is reloaded from there, nor posted under that id. */
  ghost predicate LeavesAlone(op: Op, id: HoldId) {
    && (op.ReloadOp? && Staged(op.source).Accepted? ==> IdOf(op) != id)
    && (op.PostOp? ==> op.id != id)
  }

  lemma LeftAlone(s: State, op: Op, id: HoldId)
    requires NonePending(s, id) && LeavesAlone(op, id)
    ensures NonePending(After(s, op), id) && !Holds(s, op, id) && Executes(s, op) != Some(id)
  {
    hide DowngradesIn, Staged, ExecutesAtOnce;
  }

  /** A rejection is final if no other approval of that id is pending, and nothing more comes from the same path and
      version or is posted under its id: the candidate is then never applied. */
  lemma {:induction false} RejectionIsFinal(w: State, approval: nat, ops: seq<Op>)
    requires IsPending(w, approval) && w.approvals[approval].id in w.held
    requires NonePending(AfterReject(w, approval), w.approvals[approval].id)
    requires forall op <- ops :: LeavesAlone(op, w.approvals[approval].id)
    ensures var id, r := w.approvals[approval].id, AfterReject(w, approval);
            && NonePending(Run(r, ops), id) && Untouched(r, ops, 0, id) && IsHeld(Run(r, ops), id, w.held[id])
  {
    var id, r := w.approvals[approval].id, AfterReject(w, approval);
    if ops != [] {
      hide After, Holds, Executes, NonePending;
      var n := |ops| - 1;
      RejectionIsFinal(w, approval, ops[..n]);
      LeftAlone(Run(r, ops[..n]), ops[n], id);
      FrontUntouched(r, ops, 0, id);
      assert ops[..n] + [ops[n]] == ops;
    }
    UntouchedStands(r, ops, id);
  }

  // ---- where the promises stop: concrete runs ----

  /** A type is listed although nothing loosens it: its last rule in the candidate is irreversible. */
  lemma ShadowedRuleIsListed(id: Node, key: Node)
    requires DictKey(key) == key
    ensures var rules := [EffectRule(id, key, "reversible", false, Null),
                          EffectRule(id, key, "irreversible", false, Null)];
            && Lists(DowngradesIn(EMPTY, rules), key)
            && !Loosened(EMPTY, Config(Int(1), rules), key)
  {
    var rules := [EffectRule(id, key, "reversible", false, Null), EffectRule(id, key, "irreversible", false, Null)];
    ListedExactly(EMPTY, rules, key);
    assert rules[0] in rules;
    LastRuleWins(rules, key);
  }

  function Rule(effectType: string, class_: string): EffectRule {
    EffectRule(Str(effectType), Str(effectType), class_, false, Null)
  }

  /** A reload of a document that reads as the candidate, with the gate taking in a hold. */
  function Dropped(path: string, candidate: Config): Op {
    ReloadOp(path, FileText(DocumentOf(candidate)), true)
  }

  lemma ReloadOfDocument(s: State, path: string, candidate: Config)
    requires SoundConfig(candidate)
    ensures var op := Dropped(path, candidate);
            var found, id := DowngradesIn(s.current, candidate.rules), HoldId(path, candidate.version);
            var hold := Hold(candidate, found);
            && (found == [] ==> After(s, op) == Applied(s, candidate))
            && (found != [] && !ExecutesAtOnce(s.current, DOWNGRADE) ==>
                  After(s, op) == Holding(Raising(s, id, Some(candidate)), id, hold))
            && (found != [] && ExecutesAtOnce(s.current, DOWNGRADE) ==>
                  After(s, op) == Holding(Executed(s, id), id, hold))
  {
    hide DowngradesIn, ExecutesAtOnce;
    DocumentReads(candidate);
  }

  lemma SoundRules(version: int, rules: seq<EffectRule>)
    requires forall r <- rules ::
               && r.id.Str? && r.id.s != "" && r.effectType == r.id
               && r.reversibilityClass in {"reversible", "irreversible"}
               && !r.autoExecute && r.description == Null
    ensures SoundConfig(Config(Int(version), rules))
  {
  }

  lemma RunOfTwo(s: State, op1: Op, op2: Op)
    ensures Run(s, [op1, op2]) == After(After(s, op1), op2)
  {
    assert [op1, op2][..1] == [op1] && [op1][..0] == [];
    assert Run(s, [op1]) == After(Run(s, []), op1);
  }

  lemma OneDowngrade(current: Config, rule: EffectRule)
    requires Loosens(current, rule)
    ensures DowngradesIn(current, [rule]) == [DowngradeOf(current, rule)]
  {
    assert [rule][..0] == [];
  }

  lemma LoosensNothingKnown(rule: EffectRule)
    requires rule.reversibilityClass == "reversible"
    ensures Loosens(EMPTY, rule)
  {
  }

  lemma EmptyHolds()
    ensures !ExecutesAtOnce(EMPTY, DOWNGRADE)
  {
  }

  function Start(boot: Config): State {
    State(boot, map[], [], None, [])
  }

  function One(effectType: string): Config {
    Config(Int(1), [Rule(effectType, "reversible")])
  }

  lemma DropOne(s: State, path: string, effectType: string)
    requires s.current == EMPTY && effectType != ""
    ensures var c, id := One(effectType), HoldId(path, Int(1));
            After(s, Dropped(path, c))
            == Holding(Raising(s, id, Some(c)), id, Hold(c, [DowngradeOf(EMPTY, c.rules[0])]))
  {
    hide Throughline, DowngradesIn, Loosens, ExecutesAtOnce, Staged;
    var c := One(effectType);
    EmptyHolds();
    LoosensNothingKnown(c.rules[0]);
    OneDowngrade(EMPTY, c.rules[0]);
    SoundRules(1, c.rules);
    ReloadOfDocument(s, path, c);
  }

  /** Two candidates of one path and version are held, each under an approval of its own. Approving the first applies
      the second; and it does so too if the second was rejected before. */
  lemma SecondHoldTakesOver(path: string)
    ensures var w := Run(Start(EMPTY), [Dropped(path, One("a")), Dropped(path, One("b"))]);
            && |w.approvals| == 2
            && w.approvals[0].candidate == Some(One("a")) && w.approvals[1].candidate == Some(One("b"))
            && After(w, ReleaseOp(0)).current == One("b") != One("a")
            && After(After(w, RejectOp(1)), ReleaseOp(0)).current == One("b")
  {
    hide Dropped, Run;
    DropOne(Start(EMPTY), path, "a");
    DropOne(After(Start(EMPTY), Dropped(path, One("a"))), path, "b");
    RunOfTwo(Start(EMPTY), Dropped(path, One("a")), Dropped(path, One("b")));
    assert One("a").rules[0] != One("b").rules[0];
  }

  /** A candidate is held, and an effect of no type that claims to be reversible is posted under the hold's id. The
      candidate is applied, its approval still pending. */
  lemma PostedEffectApplies(path: string)
    ensures var post := PostOp(HoldId(path, Int(1)), Proposed("", true, false, false), false);
            var w := Run(Start(EMPTY), [Dropped(path, One("a")), post]);
            w.current == One("a") && |w.approvals| == 1 && !w.approvals[0].decided && w.held == map[]
  {
    hide Dropped, Run;
    var post := PostOp(HoldId(path, Int(1)), Proposed("", true, false, false), false);
    DropOne(Start(EMPTY), path, "a");
    RunOfTwo(Start(EMPTY), Dropped(path, One("a")), post);
  }

  /** The registry the service starts with lets downgrades execute by themselves. Two reloads of one path and version
      apply the first candidate, and no approval was ever raised. */
  lemma ReloadsApplyByThemselves(path: string)
    ensures var rule := EffectRule(Str("d"), Str("config.reversibility_downgrade"), "reversible", true, Null);
            var boot := Config(Int(0), [rule]);
            var w := Run(Start(boot), [Dropped(path, One("a")), Dropped(path, One("b"))]);
            w.current == One("a") && w.approvals == [] && HoldId(path, Int(1)) in w.held
  {
    hide Throughline, DowngradesIn, Loosens, Run, Staged, ExecutesAtOnce, Dropped;
    var rule := EffectRule(Str("d"), Str(DOWNGRADE_TYPE), "reversible", true, Null);
    var boot := Config(Int(0), [rule]);
    OnlyRule(boot, rule);
    var c1, c2 := One("a"), One("b");
    OneDowngrade(boot, c1.rules[0]);
    OneDowngrade(boot, c2.rules[0]);
    SoundRules(1, c1.rules);
    SoundRules(1, c2.rules);
    ReloadOfDocument(Start(boot), path, c1);
    ReloadOfDocument(After(Start(boot), Dropped(path, c1)), path, c2);
    RunOfTwo(Start(boot), Dropped(path, c1), Dropped(path, c2));
  }

  lemma OnlyRule(boot: Config, rule: EffectRule)
    requires boot.rules == [rule] && rule.effectType == Str(DOWNGRADE_TYPE)
    requires rule.reversibilityClass == "reversible" && rule.autoExecute
    ensures ExecutesAtOnce(boot, DOWNGRADE)
    ensures Loosens(boot, Rule("a", "reversible")) && Loosens(boot, Rule("b", "reversible"))
  {
    assert boot.rules[..0] == [];
    assert ByEffectType(boot.rules) == map[Str(DOWNGRADE_TYPE) := rule];
    assert |DOWNGRADE_TYPE| > 1;
  }

  lemma ClassInOne(version: int, t: string, class_: string, key: string)
    ensures ClassOf(Config(Int(version), [Rule(t, class_)]), Str(key)) == if key == t then class_ else "irreversible"
  {
    var rules := [Rule(t, class_)];
    assert rules[..0] == [];
    assert ByEffectType(rules) == map[Str(t) := rules[0]];
  }

  lemma ClassInTwo(version: int, t: string, u: string, key: string)
    requires t != u
    ensures ClassOf(Config(Int(version), [Rule(t, "reversible"), Rule(u, "reversible")]), Str(key))
         == if key in {t, u} then "reversible" else "irreversible"
  {
    var rules := [Rule(t, "reversible"), Rule(u, "reversible")];
    assert rules[..1] == [rules[0]] && [rules[0]][..0] == [];
    assert ByEffectType([rules[0]]) == map[Str(t) := rules[0]];
    assert ByEffectType(rules) == map[Str(t) := rules[0]][Str(u) := rules[1]];
  }

  /** A release loosens a type its list does not name: reversible when the candidate was held, tightened since. */
  lemma ReleaseCanLoosenUnlisted(path: string)
    ensures var c0 := Config(Int(0), [Rule("a", "reversible")]);
            var c1 := Config(Int(1), [Rule("a", "reversible"), Rule("b", "reversible")]);
            var c2, id := Config(Int(2), [Rule("a", "irreversible")]), HoldId(path, Int(1));
            var w := Run(Start(c0), [Dropped(path, c1), Dropped(path, c2)]);
            && w.current == c2 && id in w.held && !Lists(w.held[id].downgrades, Str("a"))
            && After(w, ReleaseOp(0)).current == c1 && Loosened(c2, c1, Str("a"))
  {
    hide Throughline, DowngradesIn, ClassOf, Run, Staged, Lists, Dropped;
    var a := Rule("a", "reversible");
    var c0, c1 := Config(Int(0), [a]), Config(Int(1), [a, Rule("b", "reversible")]);
    var c2 := Config(Int(2), [Rule("a", "irreversible")]);
    var op1, op2 := Dropped(path, c1), Dropped(path, c2);
    ClassInOne(0, "a", "reversible", "a");
    ClassInOne(0, "a", "reversible", "b");
    ClassInOne(2, "a", "irreversible", "a");
    ClassInTwo(1, "a", "b", "a");
    ListedExactly(c0, c1.rules, Str("a"));
    ListedExactly(c0, c1.rules, Str("b"));
    assert c1.rules[1] in c1.rules;
    NothingReversible(c0, c2.rules);
    SoundRules(1, c1.rules);
    SoundRules(2, c2.rules);
    NotAtOnce(a, c0);
    ReloadOfDocument(Start(c0), path, c1);
    ReloadOfDocument(After(Start(c0), op1), path, c2);
    RunOfTwo(Start(c0), op1, op2);
    ListsSomething(c0, c1.rules, Str("b"));
  }

  lemma NotAtOnce(rule: EffectRule, c: Config)
    requires c.rules == [rule] && rule == Rule("a", "reversible")
    ensures !ExecutesAtOnce(c, DOWNGRADE)
  {
    assert c.rules[..0] == [];
    assert ByEffectType(c.rules) == map[Str("a") := rule];
    assert |DOWNGRADE_TYPE| > 1;
  }

  lemma ListsSomething(current: Config, rules: seq<EffectRule>, key: Node)
    ensures Lists(DowngradesIn(current, rules), key) ==> DowngradesIn(current, rules) != []
  {
  }

  lemma {:induction false} NothingReversible(current: Config, rules: seq<EffectRule>)
    requires forall r <- rules :: r.reversibilityClass != "reversible"
    ensures DowngradesIn(current, rules) == []
  {
    if rules != [] {
      NothingReversible(current, rules[..|rules| - 1]);
    }
  }
}
