/** The reload protocol: stage a candidate, apply it if it loosens nothing, hold it for a human if it does. */
module Reload {
  import opened Text
  import opened Config

  // ---- what the downgrade detector sees ----

  lemma {:induction false} LastRuleWins(rules: seq<EffectRule>, key: Node)
    ensures key in ByEffectType(rules) <==> exists i :: 0 <= i < |rules| && DictKey(rules[i].effectType) == key
    ensures key in ByEffectType(rules) ==>
              exists i :: && 0 <= i < |rules| && DictKey(rules[i].effectType) == key
                          && ByEffectType(rules)[key] == rules[i]
                          && forall k | i < k < |rules| :: DictKey(rules[k].effectType) != key
  {
    if rules != [] {
      var n := |rules| - 1;
      LastRuleWins(rules[..n], key);
      if DictKey(rules[n].effectType) == key {
        assert ByEffectType(rules)[key] == rules[n];
      } else if key in ByEffectType(rules[..n]) {
        var i :| && 0 <= i < n && DictKey(rules[..n][i].effectType) == key
                 && ByEffectType(rules[..n])[key] == rules[..n][i]
                 && forall k | i < k < n :: DictKey(rules[..n][k].effectType) != key;
        assert rules[i] == rules[..n][i];
        assert forall k | i < k < |rules| :: DictKey(rules[k].effectType) != key;
      }
    }
  }

  predicate Lists(found: seq<Downgrade>, key: Node) {
    exists d <- found :: DictKey(d.effectType) == key
  }

  /** The detector lists a type exactly when the candidate has a reversible rule for it and it is not reversible now. */
  lemma {:induction false} ListedExactly(current: Config, rules: seq<EffectRule>, key: Node)
    ensures Lists(DowngradesIn(current, rules), key)
       <==> ClassOf(current, key) != "reversible"
            && exists r <- rules :: r.reversibilityClass == "reversible" && DictKey(r.effectType) == key
  {
    if rules != [] {
      var n := |rules| - 1;
      ListedExactly(current, rules[..n], key);
      var front, last := DowngradesIn(current, rules[..n]), rules[n];
      assert rules == rules[..n] + [last];
      assert (exists r <- rules :: r.reversibilityClass == "reversible" && DictKey(r.effectType) == key)
        <==> (exists r <- rules[..n] :: r.reversibilityClass == "reversible" && DictKey(r.effectType) == key)
             || (last.reversibilityClass == "reversible" && DictKey(last.effectType) == key);
      if Loosens(current, last) {
        var all := front + [DowngradeOf(current, last)];
        assert Lists(all, key) <==> Lists(front, key) || DictKey(last.effectType) == key by {
          assert forall d :: d in all <==> d in front || d == DowngradeOf(current, last);
        }
      }
    }
  }

  ghost predicate Loosened(before: Config, after: Config, key: Node) {
    ClassOf(before, key) != "reversible" && ClassOf(after, key) == "reversible"
  }

  /** Nothing is missed: a type the candidate would loosen, counting unregistered types as irreversible and the last
      rule of a type as the one that holds, is listed. A listed type is really loosened exactly if its last rule is
      one of the reversible ones. */
  lemma NoLooseningMissed(current: Config, candidate: Config, key: Node)
    ensures Loosened(current, candidate, key)
       <==> Lists(DowngradesIn(current, candidate.rules), key) && ClassOf(candidate, key) == "reversible"
  {
    ListedExactly(current, candidate.rules, key);
    LastRuleWins(candidate.rules, key);
    if ClassOf(candidate, key) == "reversible" {
      var i :| 0 <= i < |candidate.rules| && DictKey(candidate.rules[i].effectType) == key
               && ByEffectType(candidate.rules)[key] == candidate.rules[i];
      assert candidate.rules[i] in candidate.rules;
    }
  }

  ghost predicate Registered(current: Config, effectType: Node) {
    exists c <- current.rules :: DictKey(c.effectType) == DictKey(effectType)
  }

  /** What the list says of a rule: its type and name, whether the running registry has a rule of the type, and whether
      it would execute by itself. */
  lemma {:induction false} ListedByFields(current: Config, rules: seq<EffectRule>, d: Downgrade)
    requires d in DowngradesIn(current, rules)
    ensures exists r <- rules ::
              && r.reversibilityClass == "reversible"
              && d == Downgrade(r.effectType, r.id, Registered(current, r.effectType), r.autoExecute)
  {
    var n := |rules| - 1;
    if d in DowngradesIn(current, rules[..n]) {
      ListedByFields(current, rules[..n], d);
      var r :| && r in rules[..n] && r.reversibilityClass == "reversible"
               && d == Downgrade(r.effectType, r.id, Registered(current, r.effectType), r.autoExecute);
      assert r in rules;
    } else {
      RegisteredByFields(current.rules, DictKey(rules[n].effectType));
      assert rules[n] in rules;
    }
  }

  lemma RegisteredByFields(rules: seq<EffectRule>, key: Node)
    ensures key in ByEffectType(rules) <==> exists r <- rules :: DictKey(r.effectType) == key
  {
    LastRuleWins(rules, key);
    if r :| r in rules && DictKey(r.effectType) == key {
      var i :| 0 <= i < |rules| && rules[i] == r;
    }
  }

  /** Two effect types are one to the registry if they are the same, or a truth value and its number. */
  lemma SameTypeExactly(x: Node, y: Node)
    ensures var value := (n: Node) => if n == Bool(true) then Int(1) else if n == Bool(false) then Int(0) else n;
            var current := Config(Int(1), [EffectRule(x, x, "reversible", false, Null)]);
            DowngradesIn(current, [EffectRule(y, y, "reversible", false, Null)]) == [] <==> value(x) == value(y)
  {
    var a, b := EffectRule(x, x, "reversible", false, Null), EffectRule(y, y, "reversible", false, Null);
    assert [a][..0] == [] && [b][..0] == [];
    assert ByEffectType([a]) == map[DictKey(x) := a];
  }

  // ---- the gate, as far as a hold depends on it ----

  const EMPTY := Config(Int(0), [])

  /** An effect as proposed: its type, empty if it has none; whether it claims to be reversible; whether it confers an
      escalating role; and whether the caller is authenticated. */
  datatype Proposed = Proposed(effectType: string, claimsReversible: bool, escalates: bool, authenticated: bool)

  /** What a reload proposes when it has downgrades to hold. */
  const DOWNGRADE_TYPE := "config.reversibility_downgrade"
  const DOWNGRADE := Proposed(DOWNGRADE_TYPE, false, false, true)

  /** Changes of the permission graph need an authenticated caller. */
  predicate TurnedAway(p: Proposed) {
    "authz." <= p.effectType && !p.authenticated
  }

  /** Reversibility class, and whether the effect executes by itself: what is conferred outranks the registry, the
      registry the claim, and a type the registry does not know is irreversible. */
  function Classify(current: Config, p: Proposed): (string, bool) {
    var types := ByEffectType(current.rules);
    if p.effectType in {"authz.grant", "authz.delegate"} && p.escalates then ("irreversible", false)
    else if p.effectType != "" && Str(p.effectType) in types then
      (types[Str(p.effectType)].reversibilityClass, types[Str(p.effectType)].autoExecute)
    else if p.effectType != "" then ("irreversible", false)
    else if p.claimsReversible then ("reversible", true)
    else ("irreversible", false)
  }

  predicate ExecutesAtOnce(current: Config, p: Proposed) {
    Classify(current, p) == ("reversible", true)
  }

  // ---- the protocol ----

  /** A path outside the allowlist, an unreadable file, or a document. */
  datatype Source = OutsideDirectory | UnreadableFile | FileText(doc: Document)

  /** The effect that holds a candidate is known by the path and version the candidate came from. */
  datatype HoldId = HoldId(path: string, version: Node)

  datatype Hold = Hold(candidate: Config, downgrades: seq<Downgrade>)

  /** An approval the gate raised for an effect of that id: for a reload's, with its candidate, or for another. */
  datatype Raised = Raised(id: HoldId, candidate: Option<Config>, decided: bool)

  /** The entries that concern the registry. */
  datatype Entry =
    | ConfigRefused(refusal: Refusal)
    | ConfigLoaded(version: Node, rules: nat)
    | DowngradeHeld(id: HoldId, downgrades: seq<Downgrade>)

  datatype State = State(
    current: Config, held: map<HoldId, Hold>, approvals: seq<Raised>, refusal: Option<Refusal>, ledger: seq<Entry>)

  function Staged(source: Source): Outcome {
    match source
    case OutsideDirectory => Refused(Refusal(None, None, SourceAllowlist, OutsideAllowlist))
    case UnreadableFile => Refused(Refusal(None, None, RuleShape, Unreadable))
    case FileText(doc) => Throughline(doc)
  }

  function Applied(s: State, candidate: Config): State {
    s.(current := candidate, refusal := None, ledger := s.ledger + [ConfigLoaded(candidate.version, |candidate.rules|)])
  }

  /** The hold is taken out, and its candidate applied. */
  function Taken(s: State, id: HoldId, candidate: Config): State {
    Applied(s.(held := s.held - {id}), candidate)
  }

  /** The gate's executor, run for an effect of that id, whoever proposed it: what is held under the id is applied. */
  function Executed(s: State, id: HoldId): State {
    if id in s.held then Taken(s, id, s.held[id].candidate) else s
  }

  function Holding(s: State, id: HoldId, hold: Hold): State {
    s.(held := s.held[id := hold], ledger := s.ledger + [DowngradeHeld(id, hold.downgrades)])
  }

  function Raising(s: State, id: HoldId, candidate: Option<Config>): State {
    s.(approvals := s.approvals + [Raised(id, candidate, false)])
  }

  /** One reload request. A candidate that loosens something is held after its effect was submitted: to be executed at
      once if the registry lets the effect's type execute by itself, or else, if `admitted`, under a new approval. */
  function AfterReload(s: State, path: string, source: Source, admitted: bool): State {
    match Staged(source)
    case Refused(refusal) => s.(refusal := Some(refusal), ledger := s.ledger + [ConfigRefused(refusal)])
    case Crashed => s
    case Accepted(candidate) =>
      var found := DowngradesIn(s.current, candidate.rules);
      var id := HoldId(path, candidate.version);
      if found == [] then Applied(s, candidate)
      else if ExecutesAtOnce(s.current, DOWNGRADE) then Holding(Executed(s, id), id, Hold(candidate, found))
      else if admitted then Holding(Raising(s, id, Some(candidate)), id, Hold(candidate, found))
      else s
  }

  /** An effect posted under the id of a hold. It executes at once or is queued, if it has a type and is `admitted`. */
  function AfterPost(s: State, id: HoldId, p: Proposed, admitted: bool): State {
    if TurnedAway(p) then s
    else if ExecutesAtOnce(s.current, p) then Executed(s, id)
    else if admitted && p.effectType != "" then Raising(s, id, None)
    else s
  }

  predicate IsPending(s: State, approval: nat) {
    approval < |s.approvals| && !s.approvals[approval].decided
  }

  function Decided(s: State, approval: nat): State
    requires IsPending(s, approval)
  {
    s.(approvals := s.approvals[approval := s.approvals[approval].(decided := true)])
  }

  /** A human approved, and the approval's effect executes. */
  function AfterRelease(s: State, approval: nat): State {
    if IsPending(s, approval) then Executed(Decided(s, approval), s.approvals[approval].id) else s
  }

  /** A human rejected; the candidate stays where it is held. */
  function AfterReject(s: State, approval: nat): State {
    if IsPending(s, approval) then Decided(s, approval) else s
  }

  datatype ReloadReply =
    | ReloadRefused(refusal: Refusal)
    | ReloadCrashed
    | ReloadHeld(id: HoldId, approval: Option<nat>)
    | HoldNotAdmitted
    | Reloaded

  class ConfigService {
    var current: Config
    var held: map<HoldId, Hold>
    var approvals: seq<Raised>
    var refusal: Option<Refusal>
    var ledger: seq<Entry>

    ghost function Model(): State
      reads this
    {
      State(current, held, approvals, refusal, ledger)
    }

    constructor (boot: Config)
      ensures Model() == State(boot, map[], [], None, [])
    {
      current, held, approvals, refusal, ledger := boot, map[], [], None, [];
    }

    /** Validate a candidate without making it current; a refusal is ledgered. */
    method Stage(source: Source) returns (r: Outcome)
      modifies this`ledger
      ensures r == Staged(source)
      ensures ledger == if r.Refused? then old(ledger) + [ConfigRefused(r.refusal)] else old(ledger)
    {
      match source {
        case OutsideDirectory => r := Refused(Refusal(None, None, SourceAllowlist, OutsideAllowlist));
        case UnreadableFile => r := Refused(Refusal(None, None, RuleShape, Unreadable));
        case FileText(doc) => r := ParseConfig(doc);
      }
      if r.Refused? {
        ledger := ledger + [ConfigRefused(r.refusal)];
      }
    }

    /** Swap in an already validated candidate. */
    method Apply(candidate: Config)
      modifies this`current, this`ledger
      ensures current == candidate && ledger == old(ledger) + [ConfigLoaded(candidate.version, |candidate.rules|)]
    {
      current := candidate;
      ledger := ledger + [ConfigLoaded(candidate.version, |candidate.rules|)];
    }

    /** The gate's executor: what is held under the effect's id is applied, once. */
    method Execute(id: HoldId) returns (applied: bool)
      modifies this
      ensures Model() == Executed(old(Model()), id) && applied == (id in old(held))
    {
      applied := id in held;
      if applied {
        var candidate := held[id].candidate;
        held := held - {id};
        Apply(candidate);
        refusal := None;
      }
    }

    method ReloadConfig(path: string, source: Source, admitted: bool) returns (reply: ReloadReply)
      modifies this
      ensures Model() == AfterReload(old(Model()), path, source, admitted)
      ensures reply.Reloaded? <==>
                Staged(source).Accepted? && DowngradesIn(old(current), Staged(source).config.rules) == []
      ensures reply.ReloadRefused? ==> Staged(source) == Refused(reply.refusal)
      ensures reply.ReloadHeld? ==>
                && Staged(source).Accepted? && reply.id in held && held[reply.id].candidate == Staged(source).config
                && (reply.approval.None? <==> ExecutesAtOnce(old(current), DOWNGRADE))
                && (reply.approval.Some? ==>
                      && reply.approval.value < |approvals|
                      && approvals[reply.approval.value] == Raised(reply.id, Some(Staged(source).config), false))
    {
      hide Classify, Throughline;
      var staged := Stage(source);
      if staged.Refused? {
        refusal := Some(staged.refusal);
        return ReloadRefused(staged.refusal);
      }
      if staged.Crashed? {
        return ReloadCrashed;
      }
      var candidate := staged.config;
      var found := Downgrades(current, candidate);
      if found == [] {
        Apply(candidate);
        refusal := None;
        return Reloaded;
      }
      var id := HoldId(path, candidate.version);
      var approval: Option<nat> := None;
      if ExecutesAtOnce(current, DOWNGRADE) {
        var _ := Execute(id);
      } else if admitted {
        approval := Some(|approvals|);
        approvals := approvals + [Raised(id, Some(candidate), false)];
      } else {
        return HoldNotAdmitted;
      }
      held := held[id := Hold(candidate, found)];
      ledger := ledger + [DowngradeHeld(id, found)];
      reply := ReloadHeld(id, approval);
    }

    /** An effect posted under a hold's id. */
    method PostEffect(id: HoldId, p: Proposed, admitted: bool) returns (executed: bool)
      modifies this
      ensures Model() == AfterPost(old(Model()), id, p, admitted)
      ensures executed <==> !TurnedAway(p) && ExecutesAtOnce(old(current), p)
    {
      executed := false;
      if TurnedAway(p) {
        return;
      }
      if ExecutesAtOnce(current, p) {
        executed := true;
        var _ := Execute(id);
      } else if admitted && p.effectType != "" {
        approvals := approvals + [Raised(id, None, false)];
      }
    }

    /** A human's decision on an approval; an approval executes its effect. */
    method Decide(approval: nat, approve: bool) returns (applied: bool)
      modifies this
      ensures Model() == if approve then AfterRelease(old(Model()), approval) else AfterReject(old(Model()), approval)
      ensures applied <==> approve && IsPending(old(Model()), approval) && old(approvals)[approval].id in old(held)
    {
      applied := false;
      if approval < |approvals| && !approvals[approval].decided {
        var id := approvals[approval].id;
        approvals := approvals[approval := approvals[approval].(decided := true)];
        if approve {
          applied := Execute(id);
        }
      }
    }
  }
}
