/** Siren's pre-flight: the same policy written a second time, and the hot reload that reports what the substrate did
    with a dropped file. */
module Preflight {
  import opened Text
  import opened EventIds
  import opened Config

  datatype SirenConfig = SirenConfig(version: Node, effects: seq<EffectRule>, signalClasses: seq<Node>)

  datatype SirenOutcome = Passes(config: SirenConfig) | Fails(refusal: Refusal)

  function SignalClasses(raw: Node): seq<Node>
    requires raw.Mapping?
  {
    var classes := Get(raw, "signal_classes");
    if classes.List? then classes.items else []
  }

  /** What siren makes of a document. */
  function Siren(doc: Document): SirenOutcome {
    if doc.NotYaml? then Fails(Refusal(None, None, RuleShape, InvalidYaml))
    else
      var raw := Root(doc.root);
      if !raw.Mapping? then Fails(Refusal(None, None, RuleShape, TopLevelNotMapping))
      else
        var effects := Get(raw, "effects");
        if effects.Null? then Fails(Refusal(None, None, RuleShape, MissingEffects))
        else if !effects.List? then Fails(Refusal(None, KeyLine(raw, "effects"), RuleShape, EffectsNotList))
        else
          var offence := FirstOffence(effects.items, 0);
          if offence.Some? then Fails(offence.value)
          else if !IntegerVersion(VersionOf(raw))
          then Fails(Refusal(None, KeyLine(raw, "version"), RuleShape, VersionNotInteger))
          else Passes(SirenConfig(VersionOf(raw), RulesOf(effects.items), SignalClasses(raw)))
  }

  /** Validate a candidate registry without the substrate. */
  method ValidateConfigText(doc: Document) returns (r: SirenOutcome)
    ensures r == Siren(doc)
  {
    hide Decimal, KeyLine, Or, VersionOf, IntegerVersion;
    if doc.NotYaml? {
      return Fails(Refusal(None, None, RuleShape, InvalidYaml));
    }
    var raw := if Truthy(doc.root) then doc.root else Mapping(map[], None);
    if !raw.Mapping? {
      return Fails(Refusal(None, None, RuleShape, TopLevelNotMapping));
    }
    var effects := Get(raw, "effects");
    if effects.Null? {
      return Fails(Refusal(None, None, RuleShape, MissingEffects));
    }
    if !effects.List? {
      return Fails(Refusal(None, KeyLine(raw, "effects"), RuleShape, EffectsNotList));
    }
    var entries := effects.items;
    var rules: seq<EffectRule> := [];
    var index := 0;
    while index < |entries|
      invariant index <= |entries|
      invariant FirstOffence(entries, index) == FirstOffence(entries, 0)
      invariant forall k | 0 <= k < index :: Offence(entries[k], k).None?
      invariant |rules| == index
      invariant forall k | 0 <= k < index :: rules[k] == RuleOf(entries[k], k)
    {
      var entry := entries[index];
      if !entry.Mapping? {
        return Fails(Refusal(None, None, RuleShape, RuleNotMapping(index)));
      }
      var line := if entry.lines.Some? then Some(entry.lines.value.line) else None;
      var ruleId := if Truthy(Get(entry, "id")) then Get(entry, "id") else Str("effects[" + Decimal(index) + "]");
      var effectType, klass := Get(entry, "effect_type"), Get(entry, "reversibility_class");
      var autoExecute := Truthy(Get(entry, "auto_execute"));
      if !Truthy(effectType) {
        return Fails(Refusal(Some(ruleId), line, RuleShape, MissingEffectType));
      }
      if !KnownClass(klass) {
        var at := Or(KeyLine(entry, "reversibility_class"), line);
        return Fails(Refusal(Some(ruleId), at, UnknownClass, ClassNotKnown(klass)));
      }
      if klass == Str("irreversible") && autoExecute {
        var at := Or(KeyLine(entry, "auto_execute"), line);
        return Fails(Refusal(Some(ruleId), at, IrreversibleAutoExecute, HeldForAHuman));
      }
      rules := rules + [EffectRule(ruleId, effectType, klass.s, autoExecute, Get(entry, "description"))];
      index := index + 1;
    }
    if !IntegerVersion(VersionOf(raw)) {
      return Fails(Refusal(None, KeyLine(raw, "version"), RuleShape, VersionNotInteger));
    }
    assert rules == RulesOf(entries);
    var classes := Get(raw, "signal_classes");
    r := Passes(SirenConfig(VersionOf(raw), rules, if classes.List? then classes.items else []));
  }

  // ---- the two validators side by side ----

  /** `effects` is present as a list. */
  predicate ListsEffects(doc: Document) {
    doc.Yaml? && Root(doc.root).Mapping? && Get(Root(doc.root), "effects").List?
  }

  /** `effects` is absent, or false without being a list. */
  predicate FalseEffects(doc: Document) {
    doc.Yaml? && Root(doc.root).Mapping? && !Truthy(Get(Root(doc.root), "effects")) && !ListsEffects(doc)
  }

  /** With `effects` a list, both refuse alike, rule, line and policy; or both accept the same rules, siren's
      descriptions with their line numbers; or siren accepts what throughline cannot file by type. */
  lemma ValidatorsAgreeOnLists(doc: Document)
    requires ListsEffects(doc)
    ensures match Throughline(doc)
            case Refused(refusal) => Siren(doc) == Fails(refusal)
            case Accepted(config) => && Siren(doc).Passes? && Siren(doc).config.version == config.version
                                     && config.rules == Stripped(Siren(doc).config.effects)
                                     && DictKeys(Siren(doc).config.effects)
            case Crashed => Siren(doc).Passes? && !DictKeys(Siren(doc).config.effects)
  {
  }

  /** Of a document both accept they read the same rules exactly if no rule's description carries line numbers. */
  lemma SameRulesExactly(doc: Document)
    ensures Throughline(doc).Accepted? && Siren(doc).Passes? ==>
              (Throughline(doc).config.rules == Siren(doc).config.effects
               <==> forall r <- Siren(doc).config.effects :: StripLines(r.description) == r.description)
  {
    hide Throughline, Siren, StripLines;
    if Throughline(doc).Accepted? && Siren(doc).Passes? {
      var ours, theirs := Throughline(doc).config.rules, Siren(doc).config.effects;
      BothRead(doc);
      forall i | 0 <= i < |theirs|
        ensures ours[i] == theirs[i] <==> StripLines(theirs[i].description) == theirs[i].description
      {
      }
    }
  }

  lemma BothRead(doc: Document)
    requires Throughline(doc).Accepted? && Siren(doc).Passes?
    ensures Throughline(doc).config.rules == Stripped(Siren(doc).config.effects)
  {
    hide StripLines, Stripped, RulesOf;
    ValidatorsAgreeExactly(doc);
    ValidatorsAgreeOnLists(doc);
  }

  /** A document both accept and read differently: the description of its rule is a mapping. */
  lemma DescriptionKeepsLines()
    ensures var description := Mapping(map[], Some(Lines(4, map[])));
            var rule := Mapping(map["effect_type" := Str("a"), "reversibility_class" := Str("reversible"),
                                    "description" := description], None);
            var doc := Yaml(Mapping(map["effects" := List([rule])], None));
            && Throughline(doc).Accepted? && Siren(doc).Passes?
            && Throughline(doc).config.rules != Siren(doc).config.effects
  {
    var description := Mapping(map[], Some(Lines(4, map[])));
    var rule := Mapping(map["effect_type" := Str("a"), "reversibility_class" := Str("reversible"),
                            "description" := description], None);
    var doc := Yaml(Mapping(map["effects" := List([rule])], None));
    assert Offence(rule, 0).None?;
    assert FirstOffence([rule], 1).None? && FirstOffence([rule], 0).None?;
    var rules := RulesOf([rule]);
    assert rules == [RuleOf(rule, 0)] && rules[0].description == description;
    assert Stripped(rules)[0].description == StripLines(description) != description;
  }

  /** Siren accepts exactly the documents throughline does not refuse and whose `effects` is a list; throughline
      accepts exactly those of them whose effect types can be filed, and those where `effects` is false and no list. */
  lemma ValidatorsAgreeExactly(doc: Document)
    ensures Siren(doc).Passes? <==> ListsEffects(doc) && !Throughline(doc).Refused?
    ensures Throughline(doc).Accepted? <==>
              || (Siren(doc).Passes? && DictKeys(Siren(doc).config.effects))
              || (FalseEffects(doc) && IntegerVersion(VersionOf(Root(doc.root))))
    ensures Throughline(doc).Accepted? && !Siren(doc).Passes? ==> Throughline(doc).config.rules == []
  {
  }

  /** Documents throughline accepts and siren refuses: without `effects`, and with `effects` false. */
  lemma EffectsMayBeAbsent()
    ensures var doc := Yaml(Mapping(map[], None)); Throughline(doc).Accepted? && Siren(doc).Fails?
    ensures var doc := Yaml(Mapping(map["effects" := Bool(false)], None));
            Throughline(doc).Accepted? && Siren(doc).Fails?
  {
  }

  /** A document siren accepts and throughline neither accepts nor refuses: an effect type that is a list. */
  lemma UnfiledEffectType()
    ensures var rule := Mapping(map["effect_type" := List([Int(1)]), "reversibility_class" := Str("reversible")], None);
            var doc := Yaml(Mapping(map["effects" := List([rule])], None));
            Siren(doc).Passes? && Throughline(doc).Crashed?
  {
    var rule := Mapping(map["effect_type" := List([Int(1)]), "reversibility_class" := Str("reversible")], None);
    assert Truthy(List([Int(1)]));
    assert Offence(rule, 0).None?;
    assert FirstOffence([rule], 1).None? && FirstOffence([rule], 0).None?;
    assert RulesOf([rule])[0] in RulesOf([rule]);
  }

  /** Both validators keep the one rule that matters: no accepted registry holds an irreversible rule that executes by
      itself, and every class is one of the two. */
  lemma AcceptedIsSafe(doc: Document)
    ensures Siren(doc).Passes? ==> SafeRules(Siren(doc).config.effects)
    ensures Throughline(doc).Accepted? ==> SafeRules(Throughline(doc).config.rules)
  {
    if doc.Yaml? && Root(doc.root).Mapping? {
      var effects := Get(Root(doc.root), "effects");
      var entries := if effects.List? then effects.items else [];
      if FirstOffence(entries, 0).None? {
        InoffensiveIsSafe(entries);
      }
    }
  }

  ghost predicate SafeRules(rules: seq<EffectRule>) {
    forall r <- rules ::
      && r.reversibilityClass in {"reversible", "irreversible"}
      && !(r.reversibilityClass == "irreversible" && r.autoExecute)
  }

  lemma InoffensiveIsSafe(entries: seq<Node>)
    requires FirstOffence(entries, 0).None?
    ensures SafeRules(RulesOf(entries)) && SafeRules(Stripped(RulesOf(entries)))
  {
    NoOffenceExactly(entries, 0);
  }

  // ---- what is refused, and why, by the fields of a rule ----

  /** False are nothing, `false`, zero, the empty text and the empty list. */
  lemma TruthByFields(n: Node)
    ensures Truthy(n) <==> n !in {Null, Bool(false), Int(0), Str(""), List([])} && !(n.Other? && !n.truthy)
  {
  }

  /** A document of these rules and nothing else. */
  function DocumentWith(entries: seq<Node>): Document {
    Yaml(Mapping(map["effects" := List(entries)], None))
  }

  lemma OffenceHere(entries: seq<Node>, k: nat)
    requires k < |entries| && (forall j | 0 <= j < k :: Offence(entries[j], j).None?) && Offence(entries[k], k).Some?
    ensures Throughline(DocumentWith(entries)) == Refused(Offence(entries[k], k).value)
    ensures Siren(DocumentWith(entries)) == Fails(Offence(entries[k], k).value)
  {
    hide Offence;
    FirstIs(entries, 0, k);
  }

  lemma {:induction false} FirstIs(entries: seq<Node>, i: nat, k: nat)
    requires i <= k < |entries|
    requires (forall j | i <= j < k :: Offence(entries[j], j).None?) && Offence(entries[k], k).Some?
    ensures FirstOffence(entries, i) == Offence(entries[k], k)
    decreases k - i
  {
    hide Offence;
    if i < k {
      FirstIs(entries, i + 1, k);
    }
  }

  /** The first rule that may not stand is refused by both validators, and the document with it: for a missing type at
      the rule's line, for another class than the two at the line of the class, and for an irreversible rule that
      executes by itself at the line of `auto_execute`; or at the rule's line if the key has none. */
  lemma RefusedByFields(entries: seq<Node>, k: nat)
    requires k < |entries| && (forall j | 0 <= j < k :: Offence(entries[j], j).None?)
    ensures var e := entries[k];
            var field := (key: string) => if e.Mapping? && key in e.entries then e.entries[key] else Null;
            var ruleLine := if e.Mapping? && e.lines.Some? then Some(e.lines.value.line) else None;
            var lineOf := (key: string) =>
              if e.Mapping? && e.lines.Some? && key in e.lines.value.keyLines then Some(e.lines.value.keyLines[key])
              else ruleLine;
            var id := if Truthy(field("id")) then field("id") else Str("effects[" + Decimal(k) + "]");
            var t, o := Throughline(DocumentWith(entries)), Siren(DocumentWith(entries));
            && (!e.Mapping? ==>
                  var r := Refusal(None, None, RuleShape, RuleNotMapping(k)); t == Refused(r) && o == Fails(r))
            && (e.Mapping? && field("effect_type") in {Null, Str("")} ==>
                  var r := Refusal(Some(id), ruleLine, RuleShape, MissingEffectType); t == Refused(r) && o == Fails(r))
            && (e.Mapping? && Truthy(field("effect_type"))
                && field("reversibility_class") !in {Str("reversible"), Str("irreversible")} ==>
                  var got := ClassNotKnown(field("reversibility_class"));
                  var r := Refusal(Some(id), lineOf("reversibility_class"), UnknownClass, got);
                  t == Refused(r) && o == Fails(r))
            && (e.Mapping? && Truthy(field("effect_type"))
                && field("reversibility_class") == Str("irreversible") && Truthy(field("auto_execute")) ==>
                  var r := Refusal(Some(id), lineOf("auto_execute"), IrreversibleAutoExecute, HeldForAHuman);
                  t == Refused(r) && o == Fails(r))
  {
    hide Throughline, Siren, Decimal, FirstOffence;
    if Offence(entries[k], k).Some? {
      OffenceHere(entries, k);
    }
  }

  /** What is refused before any rule is read. Both refuse what is no YAML, a top level that is no mapping, and an
      `effects` that is true but no list; where it is absent or nothing siren refuses and throughline reads on. */
  lemma TopByFields(root: Node)
    ensures var r := Refusal(None, None, RuleShape, InvalidYaml);
            Throughline(NotYaml) == Refused(r) && Siren(NotYaml) == Fails(r)
    ensures !root.Mapping? && Truthy(root) ==>
              var r := Refusal(None, None, RuleShape, TopLevelNotMapping);
              Throughline(Yaml(root)) == Refused(r) && Siren(Yaml(root)) == Fails(r)
    ensures !root.Mapping? && !Truthy(root) ==>
              && Throughline(Yaml(root)) == Accepted(Config(Int(1), []))
              && Siren(Yaml(root)) == Fails(Refusal(None, None, RuleShape, MissingEffects))
    ensures && root.Mapping? && "effects" in root.entries
            && Truthy(root.entries["effects"]) && !root.entries["effects"].List? ==>
              var line := if root.lines.Some? && "effects" in root.lines.value.keyLines
                          then Some(root.lines.value.keyLines["effects"]) else None;
              var r := Refusal(None, line, RuleShape, EffectsNotList);
              Throughline(Yaml(root)) == Refused(r) && Siren(Yaml(root)) == Fails(r)
    ensures root.Mapping? && ("effects" !in root.entries || root.entries["effects"] == Null) ==>
              Siren(Yaml(root)) == Fails(Refusal(None, None, RuleShape, MissingEffects))
  {
    assert FirstOffence([], 0).None?;
    assert RulesOf([]) == [] && Stripped([]) == [];
  }

  /** A type throughline cannot file, so that it fails, is a list, a mapping, or of a kind that cannot be a key. */
  lemma FiledByFields(effectType: Node)
    requires Truthy(effectType)
    ensures var rule := Mapping(map["effect_type" := effectType, "reversibility_class" := Str("reversible")], None);
            Throughline(DocumentWith([rule])).Crashed?
            <==> effectType.List? || effectType.Mapping? || (effectType.Other? && !effectType.hashable)
  {
    var rule := Mapping(map["effect_type" := effectType, "reversibility_class" := Str("reversible")], None);
    assert Offence(rule, 0).None?;
    assert FirstOffence([rule], 1).None? && FirstOffence([rule], 0).None?;
    assert RulesOf([rule])[0] in RulesOf([rule]);
  }

  /** The version, and siren's signal classes, by what the document has under those keys. */
  lemma RestByFields(entries: map<string, Node>, lines: Option<Lines>)
    requires "effects" in entries && entries["effects"] == List([])
    ensures var doc := Yaml(Mapping(entries, lines));
            var integer := "version" in entries ==> entries["version"].Int? || entries["version"].Bool?;
            var version := if "version" in entries then entries["version"] else Int(1);
            var line := if lines.Some? && "version" in lines.value.keyLines then Some(lines.value.keyLines["version"])
                        else None;
            var classes := if "signal_classes" in entries && entries["signal_classes"].List?
                           then entries["signal_classes"].items else [];
            if integer
            then && Throughline(doc) == Accepted(Config(version, []))
                 && Siren(doc) == Passes(SirenConfig(version, [], classes))
            else var r := Refusal(None, line, RuleShape, VersionNotInteger);
                 Throughline(doc) == Refused(r) && Siren(doc) == Fails(r)
  {
    assert FirstOffence([], 0).None?;
    assert RulesOf([]) == [] && Stripped([]) == [];
  }

  // ---- the drop ----

  /** A dropped file: a document, or `None` if it cannot be read. */
  function SirenFile(file: Option<Document>): SirenOutcome {
    if file.None? then Fails(Refusal(None, None, RuleShape, Unreadable)) else Siren(file.value)
  }

  /** What the substrate answers to a reload. */
  datatype Reply = SubstrateRefused(why: Option<Refusal>) | SubstrateUnreachable | Held | Swapped

  datatype DropState = Idle | RefusedDrop | ErrorDrop | HeldDrop | RegisteredDrop(policyDrift: bool)

  datatype StepState = StepPending | StepOk | StepRefused | StepHeld | StepSkipped

  /** The timeline the pane shows: was the file validated, the swap registered, do signals flow. */
  datatype Steps = Steps(validated: StepState, registered: StepState, flowing: StepState)

  datatype StandingRefusal = NoRefusal | ByPreflight(refusal: Refusal) | BySubstrate(why: Option<Refusal>) | Unreachable

  const INCIDENT_SIGNAL_CLASS := Str("fire.incident")

  class HotReload {
    var last: DropState
    var steps: Steps
    var registeredClasses: seq<Node>
    var activeConfig: Option<SirenConfig>
    var refusal: StandingRefusal

    constructor ()
      ensures last.Idle? && registeredClasses == [] && activeConfig.None? && refusal.NoRefusal?
      ensures steps == Steps(StepPending, StepPending, StepPending)
    {
      last, registeredClasses, activeConfig, refusal := Idle, [], None, NoRefusal;
      steps := Steps(StepPending, StepPending, StepPending);
    }

    /** Validate, hand over, report what happened. A file is handed over even if the pre-flight refused it, when the
        substrate can judge for itself. What is registered changes only with a swap the substrate made, and no step is
        green on intent: registered means swapped, flowing means that signals went out after the swap. */
    method Drop(file: Option<Document>, substrateDecides: bool, reply: Reply, emitted: nat)
      modifies this
      ensures var skipped := SirenFile(file).Fails? && !substrateDecides;
              && (last.RegisteredDrop? <==> !skipped && reply.Swapped?)
              && (last.HeldDrop? <==> !skipped && reply.Held?)
              && (last == RegisteredDrop(true) <==> substrateDecides && reply.Swapped? && SirenFile(file).Fails?)
              && (last.ErrorDrop? <==> !skipped && reply.SubstrateUnreachable?) && !last.Idle?
              && refusal == (if skipped then ByPreflight(SirenFile(file).refusal)
                             else if reply.SubstrateRefused? then BySubstrate(reply.why)
                             else if reply.SubstrateUnreachable? then Unreachable else NoRefusal)
              && (steps.registered == StepSkipped <==> skipped)
      ensures steps.validated == if SirenFile(file).Fails? then StepRefused else StepOk
      ensures steps.registered == StepOk <==> last.RegisteredDrop?
      ensures steps.registered == StepHeld <==> last.HeldDrop?
      ensures steps.flowing == (if !last.RegisteredDrop? then StepSkipped
                                else if emitted > 0 then StepOk else StepPending)
      ensures !last.RegisteredDrop? ==> registeredClasses == old(registeredClasses) && activeConfig == old(activeConfig)
      ensures last.RegisteredDrop? ==>
                && activeConfig == (if SirenFile(file).Passes? then Some(SirenFile(file).config) else None)
                && registeredClasses == if SirenFile(file).Passes? && SirenFile(file).config.signalClasses != []
                                        then SirenFile(file).config.signalClasses else [INCIDENT_SIGNAL_CLASS]
    {
      hide Siren;
      var preflight := Fails(Refusal(None, None, RuleShape, Unreadable));
      if file.Some? {
        preflight := ValidateConfigText(file.value);
      }
      if preflight.Fails? && !substrateDecides {
        refusal, last := ByPreflight(preflight.refusal), RefusedDrop;
        steps := Steps(StepRefused, StepSkipped, StepSkipped);
        return;
      }
      var validated := if preflight.Fails? then StepRefused else StepOk;
      match reply
      case SubstrateRefused(why) =>
        refusal, last, steps := BySubstrate(why), RefusedDrop, Steps(validated, StepRefused, StepSkipped);
      case SubstrateUnreachable =>
        refusal, last, steps := Unreachable, ErrorDrop, Steps(validated, StepRefused, StepSkipped);
      case Held =>
        refusal, last, steps := NoRefusal, HeldDrop, Steps(validated, StepHeld, StepSkipped);
      case Swapped =>
        refusal, last := NoRefusal, RegisteredDrop(preflight.Fails?);
        activeConfig := if preflight.Passes? then Some(preflight.config) else None;
        registeredClasses := if preflight.Passes? && preflight.config.signalClasses != []
                             then preflight.config.signalClasses else [INCIDENT_SIGNAL_CLASS];
        steps := Steps(validated, StepOk, if emitted > 0 then StepOk else StepPending);
    }
  }
}
