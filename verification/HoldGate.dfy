/** The stand-in gate, which holds as hard as the real one: an irreversible effect is queued under a fresh approval and
    only a decision moves it. */
module HoldGate {
  import opened Text

  datatype ApprovalState = Pending | Approved | Rejected

  datatype GateEffect = GateEffect(
    id: string, reversibility: string, status: string, approvalId: Option<string>, signalId: string, judgmentId: string)

  datatype GateApproval = GateApproval(
    id: string, effectId: string, state: ApprovalState, decidedBy: Option<string>, callerRole: Option<string>,
    authMode: Option<string>, issuer: Option<string>, rationale: Option<string>)

  datatype GateEntry = GateEntry(kind: string, id: string)

  /** Signals with what they point at, judgments with the signal they judge. */
  datatype Gate = Gate(
    signals: map<string, string>, judgments: map<string, string>, effects: map<string, GateEffect>,
    approvals: map<string, GateApproval>, ledger: seq<GateEntry>)

  datatype Refusal =
    | CallerTokenMissing | SubjectRequired | RoleRequired | RoleUnrecognised | UnknownApproval | AlreadyDecided

  datatype Answer = Refused(why: Refusal) | Accepted(approval: GateApproval, effect: GateEffect)

  /** A decision as it is sent in; what the caller was not told is empty. */
  datatype Form = Form(
    decision: string, subject: string, role: string, rationale: Option<string>, authMode: string, issuer: string)

  /** Who calls the gate: its token, and how the platform lower-cases. */
  datatype Caller = Caller(token: string, lower: string -> string)

  function OrFresh(id: string, freshId: string): string {
    if id != "" then id else freshId
  }

  function WithSignal(g: Gate, id: string, payload: string): Gate {
    g.(signals := g.signals[id := payload], ledger := g.ledger + [GateEntry("signal.ingested", id)])
  }

  function WithJudgment(g: Gate, id: string, signalId: string): Gate {
    g.(judgments := g.judgments[id := signalId], ledger := g.ledger + [GateEntry("judgment.recorded", id)])
  }

  function Undecided(id: string, effectId: string): GateApproval {
    GateApproval(id, effectId, Pending, None, None, None, None, None)
  }

  /** The effect as recorded: held under `freshId` if irreversible, executed otherwise. */
  function Recorded(id: string, reversibility: string, signalId: string, judgmentId: string, freshId: string)
    : GateEffect
  {
    var r := if reversibility != "" then reversibility else "irreversible";
    if r == "irreversible" then GateEffect(id, r, "queued", Some(freshId), signalId, judgmentId)
    else GateEffect(id, r, "executed", None, signalId, judgmentId)
  }

  function WithEffect(g: Gate, e: GateEffect): Gate {
    g.(effects := g.effects[e.id := e],
       approvals := if e.approvalId.Some? then g.approvals[e.approvalId.value := Undecided(e.approvalId.value, e.id)]
                    else g.approvals,
       ledger := g.ledger + [GateEntry("effect." + e.status, e.id)])
  }

  predicate IsCallerRole(caller: Caller, role: string) {
    caller.lower(Strip(role)) in {"human", "agent"}
  }

  /** Why a decision is refused, in the order the checks are made. */
  function RefusalOf(g: Gate, caller: Caller, approvalId: string, form: Form): Option<Refusal> {
    if caller.token == "" then Some(CallerTokenMissing)
    else if form.subject == "" then Some(SubjectRequired)
    else if caller.lower(Strip(form.role)) == "" then Some(RoleRequired)
    else if !IsCallerRole(caller, form.role) then Some(RoleUnrecognised)
    else if approvalId !in g.approvals then Some(UnknownApproval)
    else if g.approvals[approvalId].state != Pending then Some(AlreadyDecided)
    else None
  }

  function NonEmpty(s: string): Option<string> {
    if s == "" then None else Some(s)
  }

  /** The decision is on record with its subject and role, and with what vouched for the subject. */
  function DecidedApproval(a: GateApproval, form: Form): GateApproval {
    a.(state := if form.decision == "approve" then Approved else Rejected, decidedBy := Some(form.subject),
       callerRole := Some(form.role), authMode := NonEmpty(form.authMode), issuer := NonEmpty(form.issuer),
       rationale := form.rationale)
  }

  function SettledEffect(e: GateEffect, decision: string): GateEffect {
    e.(status := if decision == "approve" then "executed" else "rejected")
  }

  function WithDecision(g: Gate, a: GateApproval, e: GateEffect): Gate {
    g.(approvals := g.approvals[a.id := a], effects := g.effects[e.id := e],
       ledger := g.ledger + [GateEntry("approval.decided", a.id), GateEntry("effect." + e.status, e.id)])
  }

  /** Every approval is filed under its id and belongs to an effect on file. */
  ghost predicate ValidGate(g: Gate) {
    && (forall id <- g.approvals :: g.approvals[id].id == id && g.approvals[id].effectId in g.effects)
    && (forall id <- g.effects :: g.effects[id].id == id)
  }

  /** Why a decision is refused, by its fields: each reason exactly in its own case, in this order, and none exactly if
      the caller has a token, a subject is named, the role is one of two, and the approval is known and undecided. */
  lemma RefusedByFields(g: Gate, caller: Caller, approvalId: string, form: Form)
    ensures var why, role := RefusalOf(g, caller, approvalId, form), caller.lower(Strip(form.role));
            var known := approvalId in g.approvals;
            var asked := caller.token != "" && form.subject != "";
            && (why == Some(CallerTokenMissing) <==> caller.token == "")
            && (why == Some(SubjectRequired) <==> caller.token != "" && form.subject == "")
            && (why == Some(RoleRequired) <==> asked && role == "")
            && (why == Some(RoleUnrecognised) <==> asked && role != "" && role != "human" && role != "agent")
            && (why == Some(UnknownApproval) <==> asked && (role == "human" || role == "agent") && !known)
            && (why == Some(AlreadyDecided)
                <==> asked && (role == "human" || role == "agent") && known && g.approvals[approvalId].state != Pending)
            && (why == None
                <==> asked && (role == "human" || role == "agent") && known && g.approvals[approvalId].state == Pending)
  {
  }

  /** What is recorded of an effect, by its fields. */
  lemma RecordedByFields(id: string, reversibility: string, signalId: string, judgmentId: string, freshId: string)
    ensures Recorded(id, reversibility, signalId, judgmentId, freshId)
         == if reversibility == "" || reversibility == "irreversible"
            then GateEffect(id, "irreversible", "queued", Some(freshId), signalId, judgmentId)
            else GateEffect(id, reversibility, "executed", None, signalId, judgmentId)
  {
  }

  /** What is recorded of a decision, by its fields. */
  lemma SettledByFields(a: GateApproval, e: GateEffect, form: Form)
    ensures DecidedApproval(a, form)
         == GateApproval(a.id, a.effectId, if form.decision == "approve" then Approved else Rejected,
                         Some(form.subject), Some(form.role), if form.authMode == "" then None else Some(form.authMode),
                         if form.issuer == "" then None else Some(form.issuer), form.rationale)
    ensures SettledEffect(e, form.decision).status == if form.decision == "approve" then "executed" else "rejected"
  {
  }

  class MockThroughlineClient {
    const caller: Caller
    var signals: map<string, string>
    var judgments: map<string, string>
    var effects: map<string, GateEffect>
    var approvals: map<string, GateApproval>
    var ledger: seq<GateEntry>

    ghost function Model(): Gate
      reads this
    {
      Gate(signals, judgments, effects, approvals, ledger)
    }

    constructor (caller: Caller)
      ensures this.caller == caller && Model() == Gate(map[], map[], map[], map[], [])
    {
      this.caller := caller;
      signals, judgments, effects, approvals, ledger := map[], map[], map[], map[], [];
    }

    method Append(kind: string, id: string)
      modifies this`ledger
      ensures ledger == old(ledger) + [GateEntry(kind, id)]
    {
      ledger := ledger + [GateEntry(kind, id)];
    }

    /** Each record keeps the id it came with, or gets a fresh one. */
    method PostSignal(id: string, payload: string, freshId: string) returns (recordId: string)
      modifies this
      ensures recordId == OrFresh(id, freshId) && Model() == WithSignal(old(Model()), recordId, payload)
    {
      recordId := if id != "" then id else freshId;
      signals := signals[recordId := payload];
      Append("signal.ingested", recordId);
    }

    method PostJudgment(id: string, signalId: string, freshId: string) returns (recordId: string)
      modifies this
      ensures recordId == OrFresh(id, freshId) && Model() == WithJudgment(old(Model()), recordId, signalId)
    {
      recordId := if id != "" then id else freshId;
      judgments := judgments[recordId := signalId];
      Append("judgment.recorded", recordId);
    }

    method PostEffect(id: string, reversibility: string, signalId: string, judgmentId: string, freshId: string,
                      approvalId: string)
      returns (e: GateEffect)
      requires ValidGate(Model())
      modifies this
      ensures e == Recorded(OrFresh(id, freshId), reversibility, signalId, judgmentId, approvalId)
      ensures ValidGate(Model()) && Model() == WithEffect(old(Model()), e)
    {
      var r := if reversibility != "" then reversibility else "irreversible";
      e := GateEffect(if id != "" then id else freshId, r, "executed", None, signalId, judgmentId);
      if r == "irreversible" {
        approvals := approvals[approvalId := Undecided(approvalId, e.id)];
        e := e.(status := "queued", approvalId := Some(approvalId));
      }
      effects := effects[e.id := e];
      Append("effect." + e.status, e.id);
    }

    /** The only transition out of a hold. A refused decision changes nothing. */
    method Decide(approvalId: string, form: Form) returns (answer: Answer)
      requires ValidGate(Model())
      modifies this
      ensures ValidGate(Model())
      ensures var refusal := RefusalOf(old(Model()), caller, approvalId, form);
              if refusal.Some? then answer == Refused(refusal.value) && Model() == old(Model())
              else var a := DecidedApproval(old(approvals)[approvalId], form);
                   var e := SettledEffect(old(effects)[a.effectId], form.decision);
                   answer == Accepted(a, e) && Model() == WithDecision(old(Model()), a, e)
    {
      if caller.token == "" { return Refused(CallerTokenMissing); }
      if form.subject == "" { return Refused(SubjectRequired); }
      var role := caller.lower(Strip(form.role));
      if role == "" { return Refused(RoleRequired); }
      if role !in {"human", "agent"} { return Refused(RoleUnrecognised); }
      if approvalId !in approvals { return Refused(UnknownApproval); }
      var a := approvals[approvalId];
      if a.state != Pending { return Refused(AlreadyDecided); }
      a := a.(state := if form.decision == "approve" then Approved else Rejected);
      a := a.(decidedBy := Some(form.subject), callerRole := Some(form.role));
      a := a.(authMode := NonEmpty(form.authMode), issuer := NonEmpty(form.issuer), rationale := form.rationale);
      approvals := approvals[approvalId := a];
      Append("approval.decided", approvalId);
      var e := effects[a.effectId];
      e := e.(status := if form.decision == "approve" then "executed" else "rejected");
      effects := effects[e.id := e];
      Append("effect." + e.status, e.id);
      assert ledger == old(ledger) + [GateEntry("approval.decided", a.id), GateEntry("effect." + e.status, e.id)];
      answer := Accepted(a, e);
    }
  }
}
