/** The effect registry's document, and throughline's loader for it: accepted as a whole or refused by name. */
module Config {
  import opened Text
  import opened EventIds

  /** Where a mapping starts, and where the value of each of its keys does. */
  datatype Lines = Lines(line: int, keyLines: map<string, int>)

  /** A parsed document. `Other` stands for scalars of other types. */
  datatype Node =
    | Null
    | Bool(b: bool)
    | Int(n: int)
    | Str(s: string)
    | List(items: seq<Node>)
    | Mapping(entries: map<string, Node>, lines: Option<Lines>)
    | Other(tag: string, truthy: bool, hashable: bool)

  datatype Document = NotYaml | Yaml(root: Node)

  /** Python's truth value; a mapping from the loader carries its line numbers and so is never empty. */
  predicate Truthy(n: Node) {
    match n
    case Null => false
    case Bool(b) => b
    case Int(n) => n != 0
    case Str(s) => s != ""
    case List(items) => items != []
    case Mapping(_, _) => true
    case Other(_, truthy, _) => truthy
  }

  /** May be the key of a dictionary. */
  predicate Hashable(n: Node) {
    match n
    case List(_) => false
    case Mapping(_, _) => false
    case Other(_, _, hashable) => hashable
    case _ => true
  }

  /** As dictionary keys, `true` is 1 and `false` is 0. */
  function DictKey(n: Node): Node {
    if n.Bool? then Int(if n.b then 1 else 0) else n
  }

  function Get(m: Node, key: string): Node
    requires m.Mapping?
  {
    if key in m.entries then m.entries[key] else Null
  }

  function KeyLine(m: Node, key: string): Option<int>
    requires m.Mapping?
  {
    if m.lines.Some? && key in m.lines.value.keyLines then Some(m.lines.value.keyLines[key]) else None
  }

  function Or<T>(a: Option<T>, b: Option<T>): Option<T> {
    if a.Some? then a else b
  }

  /** The document without its line numbers. */
  function StripLines(n: Node): Node {
    match n
    case List(items) => List(seq(|items|, i requires 0 <= i < |items| => StripLines(items[i])))
    case Mapping(entries, _) => Mapping(map k | k in entries :: StripLines(entries[k]), None)
    case _ => n
  }

  /** Without line numbers a document says the same: its texts, its lists and its keys are as they were. */
  lemma {:induction false} StripByFields(n: Node)
    ensures var m := StripLines(n);
            && (n.List? ==> m.List? && |m.items| == |n.items|
                            && forall i | 0 <= i < |n.items| :: m.items[i] == StripLines(n.items[i]))
            && (n.Mapping? ==> m.Mapping? && m.lines.None? && m.entries.Keys == n.entries.Keys
                               && forall k <- n.entries :: m.entries[k] == StripLines(n.entries[k]))
            && (!n.List? && !n.Mapping? ==> m == n)
  {
  }

  // ---- refusals ----

  datatype Policy = IrreversibleAutoExecute | UnknownClass | RuleShape | SourceAllowlist

  datatype Message =
    | InvalidYaml | TopLevelNotMapping | MissingEffects | EffectsNotList | RuleNotMapping(index: nat)
    | MissingEffectType | ClassNotKnown(got: Node) | HeldForAHuman | VersionNotInteger | Unreadable | OutsideAllowlist

  datatype Refusal = Refusal(rule: Option<Node>, line: Option<int>, policy: Policy, message: Message)

  datatype EffectRule = EffectRule(
    id: Node, effectType: Node, reversibilityClass: string, autoExecute: bool, description: Node)

  datatype Config = Config(version: Node, rules: seq<EffectRule>)

  /** `Crashed` is the failure that is no refusal: an effect type that cannot be a dictionary key. */
  datatype Outcome = Accepted(config: Config) | Refused(refusal: Refusal) | Crashed

  // ---- the published policy, rule by rule ----

  function RuleId(entry: Node, index: nat): Node
    requires entry.Mapping?
  {
    if Truthy(Get(entry, "id")) then Get(entry, "id") else Str("effects[" + Decimal(index) + "]")
  }

  predicate KnownClass(n: Node) {
    n == Str("reversible") || n == Str("irreversible")
  }

  /** Why a rule may not stand, or `None`. */
  function Offence(entry: Node, index: nat): Option<Refusal> {
    if !entry.Mapping? then Some(Refusal(None, None, RuleShape, RuleNotMapping(index)))
    else
      var line := if entry.lines.Some? then Some(entry.lines.value.line) else None;
      var klass := Get(entry, "reversibility_class");
      if !Truthy(Get(entry, "effect_type")) then
        Some(Refusal(Some(RuleId(entry, index)), line, RuleShape, MissingEffectType))
      else if !KnownClass(klass) then
        Some(Refusal(Some(RuleId(entry, index)), Or(KeyLine(entry, "reversibility_class"), line), UnknownClass,
                     ClassNotKnown(klass)))
      else if klass == Str("irreversible") && Truthy(Get(entry, "auto_execute")) then
        Some(Refusal(Some(RuleId(entry, index)), Or(KeyLine(entry, "auto_execute"), line), IrreversibleAutoExecute,
                     HeldForAHuman))
      else None
  }

  /** The first offence from rule `i` on. */
  function FirstOffence(entries: seq<Node>, i: nat): Option<Refusal>
    requires i <= |entries|
    decreases |entries| - i
  {
    if i == |entries| then None
    else if Offence(entries[i], i).Some? then Offence(entries[i], i)
    else FirstOffence(entries, i + 1)
  }

  lemma {:induction false} NoOffenceExactly(entries: seq<Node>, i: nat)
    requires i <= |entries|
    ensures FirstOffence(entries, i).None? <==> forall k | i <= k < |entries| :: Offence(entries[k], k).None?
    ensures FirstOffence(entries, i).Some? ==>
              exists k :: i <= k < |entries| && Offence(entries[k], k) == FirstOffence(entries, i)
                          && forall j | i <= j < k :: Offence(entries[j], j).None?
    decreases |entries| - i
  {
    if i < |entries| {
      NoOffenceExactly(entries, i + 1);
    }
  }

  /** The rule an inoffensive entry stands for, its description as given. */
  function RuleOf(entry: Node, index: nat): EffectRule
    requires Offence(entry, index).None?
  {
    EffectRule(RuleId(entry, index), Get(entry, "effect_type"), Get(entry, "reversibility_class").s,
               Truthy(Get(entry, "auto_execute")), Get(entry, "description"))
  }

  function RulesOf(entries: seq<Node>): seq<EffectRule>
    requires FirstOffence(entries, 0).None?
  {
    NoOffenceExactly(entries, 0);
    seq(|entries|, i requires 0 <= i < |entries| => RuleOf(entries[i], i))
  }

  function Stripped(rules: seq<EffectRule>): seq<EffectRule> {
    seq(|rules|, i requires 0 <= i < |rules| => rules[i].(description := StripLines(rules[i].description)))
  }

  /** The document's mapping; anything false at the top reads as an empty one. */
  function Root(root: Node): Node {
    if Truthy(root) then root else Mapping(map[], None)
  }

  predicate IntegerVersion(n: Node) {
    n.Int? || n.Bool?
  }

  function VersionOf(raw: Node): Node
    requires raw.Mapping?
  {
    if "version" in raw.entries then raw.entries["version"] else Int(1)
  }

  predicate DictKeys(rules: seq<EffectRule>) {
    forall r <- rules :: Hashable(r.effectType)
  }

  /** What throughline makes of a document. */
  function Throughline(doc: Document): Outcome {
    if doc.NotYaml? then Refused(Refusal(None, None, RuleShape, InvalidYaml))
    else
      var raw := Root(doc.root);
      if !raw.Mapping? then Refused(Refusal(None, None, RuleShape, TopLevelNotMapping))
      else
        var effects := Get(raw, "effects");
        if Truthy(effects) && !effects.List?
        then Refused(Refusal(None, KeyLine(raw, "effects"), RuleShape, EffectsNotList))
        else
          var entries := if effects.List? then effects.items else [];
          var offence := FirstOffence(entries, 0);
          if offence.Some? then Refused(offence.value)
          else if !IntegerVersion(VersionOf(raw))
          then Refused(Refusal(None, KeyLine(raw, "version"), RuleShape, VersionNotInteger))
          else if !DictKeys(RulesOf(entries)) then Crashed
          else Accepted(Config(VersionOf(raw), Stripped(RulesOf(entries))))
  }

  lemma CollectedRules(entries: seq<Node>, rules: seq<EffectRule>)
    requires FirstOffence(entries, 0).None? && |rules| == |entries|
    requires forall k | 0 <= k < |entries| :: Offence(entries[k], k).None?
               && rules[k] == RuleOf(entries[k], k).(description := StripLines(Get(entries[k], "description")))
    ensures rules == Stripped(RulesOf(entries))
    ensures DictKeys(RulesOf(entries)) <==> forall rule <- rules :: Hashable(rule.effectType)
  {
    hide Offence, StripLines, Hashable;
    assert forall k | 0 <= k < |entries| :: rules[k].effectType == RulesOf(entries)[k].effectType;
  }

  /** Parse and validate; refuse the whole document at the first offence. */
  method ParseConfig(doc: Document) returns (r: Outcome)
    ensures r == Throughline(doc)
  {
    hide StripLines, Stripped, RulesOf, Decimal, Hashable, Get, KeyLine, Or, VersionOf, IntegerVersion;
    if doc.NotYaml? {
      return Refused(Refusal(None, None, RuleShape, InvalidYaml));
    }
    var raw := if Truthy(doc.root) then doc.root else Mapping(map[], None);
    if !raw.Mapping? {
      return Refused(Refusal(None, None, RuleShape, TopLevelNotMapping));
    }
    var effects := Get(raw, "effects");
    if !Truthy(effects) {
      effects := List([]);
    }
    if !effects.List? {
      return Refused(Refusal(None, KeyLine(raw, "effects"), RuleShape, EffectsNotList));
    }
    var entries := effects.items;
    var rules: seq<EffectRule> := [];
    var index := 0;
    while index < |entries|
      invariant index <= |entries|
      invariant FirstOffence(entries, index) == FirstOffence(entries, 0)
      invariant forall k | 0 <= k < index :: Offence(entries[k], k).None?
      invariant |rules| == index
      invariant forall k | 0 <= k < index ::
                  rules[k] == RuleOf(entries[k], k).(description := StripLines(Get(entries[k], "description")))
    {
      var entry := entries[index];
      if !entry.Mapping? {
        return Refused(Refusal(None, None, RuleShape, RuleNotMapping(index)));
      }
      var line := if entry.lines.Some? then Some(entry.lines.value.line) else None;
      var ruleId := if Truthy(Get(entry, "id")) then Get(entry, "id") else Str("effects[" + Decimal(index) + "]");
      var effectType, klass := Get(entry, "effect_type"), Get(entry, "reversibility_class");
      var autoExecute := Truthy(Get(entry, "auto_execute"));
      if !Truthy(effectType) {
        return Refused(Refusal(Some(ruleId), line, RuleShape, MissingEffectType));
      }
      if !KnownClass(klass) {
        var at := Or(KeyLine(entry, "reversibility_class"), line);
        return Refused(Refusal(Some(ruleId), at, UnknownClass, ClassNotKnown(klass)));
      }
      if klass == Str("irreversible") && autoExecute {
        var at := Or(KeyLine(entry, "auto_execute"), line);
        return Refused(Refusal(Some(ruleId), at, IrreversibleAutoExecute, HeldForAHuman));
      }
      rules := rules + [EffectRule(ruleId, effectType, klass.s, autoExecute, StripLines(Get(entry, "description")))];
      index := index + 1;
    }
    if !IntegerVersion(VersionOf(raw)) {
      return Refused(Refusal(None, KeyLine(raw, "version"), RuleShape, VersionNotInteger));
    }
    CollectedRules(entries, rules);
    if exists rule <- rules :: !Hashable(rule.effectType) {
      return Crashed;
    }
    r := Accepted(Config(VersionOf(raw), rules));
  }

  // ---- which registries there are ----

  function EntryOf(rule: EffectRule): Node {
    Mapping(map["id" := rule.id, "effect_type" := rule.effectType,
                "reversibility_class" := Str(rule.reversibilityClass), "auto_execute" := Bool(rule.autoExecute),
                "description" := rule.description], None)
  }

  function EntriesOf(rules: seq<EffectRule>): seq<Node> {
    seq(|rules|, i requires 0 <= i < |rules| => EntryOf(rules[i]))
  }

  function DocumentOf(config: Config): Document {
    Yaml(Mapping(map["version" := config.version, "effects" := List(EntriesOf(config.rules))], None))
  }

  /** Named, of a type that can be filed, of a known class, not both irreversible and executing by itself, and without
      line numbers. */
  ghost predicate SoundRule(rule: EffectRule) {
    && Truthy(rule.id) && Truthy(rule.effectType) && Hashable(rule.effectType)
    && rule.reversibilityClass in {"reversible", "irreversible"}
    && !(rule.reversibilityClass == "irreversible" && rule.autoExecute)
    && StripLines(rule.description) == rule.description
  }

  ghost predicate SoundConfig(config: Config) {
    IntegerVersion(config.version) && forall rule <- config.rules :: SoundRule(rule)
  }

  lemma RuleOfEntry(rule: EffectRule, index: nat)
    requires SoundRule(rule)
    ensures Offence(EntryOf(rule), index).None? && RuleOf(EntryOf(rule), index) == rule
  {
  }

  lemma DocumentReads(config: Config)
    requires SoundConfig(config)
    ensures Throughline(DocumentOf(config)) == Accepted(config)
  {
    hide SoundRule, EntryOf, Offence, RuleOf, RuleId, Hashable, StripLines, Decimal;
    var rules, entries := config.rules, EntriesOf(config.rules);
    forall i | 0 <= i < |rules|
      ensures Offence(entries[i], i).None? && RuleOf(entries[i], i) == rules[i]
      ensures Hashable(rules[i].effectType) && StripLines(rules[i].description) == rules[i].description
    {
      RuleOfEntry(rules[i], i);
      SoundParts(rules[i]);
    }
    NoOffenceExactly(entries, 0);
    assert RulesOf(entries) == rules && Stripped(rules) == rules;
  }

  lemma SoundParts(rule: EffectRule)
    requires SoundRule(rule)
    ensures Hashable(rule.effectType) && StripLines(rule.description) == rule.description
  {
  }

  lemma {:induction false} StripTwice(n: Node)
    ensures StripLines(StripLines(n)) == StripLines(n)
  {
    match n {
      case List(items) =>
        forall i | 0 <= i < |items|
          ensures StripLines(StripLines(items[i])) == StripLines(items[i])
        {
          StripTwice(items[i]);
        }
      case Mapping(entries, _) =>
        forall k | k in entries
          ensures StripLines(StripLines(entries[k])) == StripLines(entries[k])
        {
          StripTwice(entries[k]);
        }
      case _ =>
    }
  }

  lemma AcceptedIsSound(doc: Document)
    ensures Throughline(doc).Accepted? ==> SoundConfig(Throughline(doc).config)
  {
    if Throughline(doc).Accepted? {
      var effects := Get(Root(doc.root), "effects");
      var entries := if effects.List? then effects.items else [];
      NoOffenceExactly(entries, 0);
      var rules := Stripped(RulesOf(entries));
      forall i | 0 <= i < |rules|
        ensures SoundRule(rules[i])
      {
        StripTwice(RulesOf(entries)[i].description);
        assert RulesOf(entries)[i] in RulesOf(entries);
      }
    }
  }

  /** Exactly the sound registries can ever be loaded: each is the reading of a document, and no document reads as
      another. */
  lemma LoadableExactly(config: Config)
    ensures (exists doc :: Throughline(doc) == Accepted(config)) <==> SoundConfig(config)
  {
    if doc :| Throughline(doc) == Accepted(config) {
      AcceptedIsSound(doc);
    }
    if SoundConfig(config) {
      DocumentReads(config);
    }
  }

  // ---- the registry as the gate reads it ----

  /** Last rule of a type wins. */
  function ByEffectType(rules: seq<EffectRule>): map<Node, EffectRule> {
    if rules == [] then map[]
    else ByEffectType(rules[..|rules| - 1])[DictKey(rules[|rules| - 1].effectType) := rules[|rules| - 1]]
  }

  /** The class the gate derives; a type no rule names is irreversible. */
  function ClassOf(config: Config, key: Node): string {
    var types := ByEffectType(config.rules);
    if key in types then types[key].reversibilityClass else "irreversible"
  }

  datatype Downgrade = Downgrade(effectType: Node, rule: Node, registered: bool, autoExecute: bool)

  predicate Loosens(current: Config, rule: EffectRule) {
    rule.reversibilityClass == "reversible" && ClassOf(current, DictKey(rule.effectType)) != "reversible"
  }

  function DowngradeOf(current: Config, rule: EffectRule): Downgrade {
    Downgrade(rule.effectType, rule.id, DictKey(rule.effectType) in ByEffectType(current.rules), rule.autoExecute)
  }

  function DowngradesIn(current: Config, rules: seq<EffectRule>): seq<Downgrade> {
    if rules == [] then []
    else DowngradesIn(current, rules[..|rules| - 1])
         + if Loosens(current, rules[|rules| - 1]) then [DowngradeOf(current, rules[|rules| - 1])] else []
  }

  /** The rules of a candidate that would make an effect type easier to execute. */
  method Downgrades(current: Config, candidate: Config) returns (found: seq<Downgrade>)
    ensures found == DowngradesIn(current, candidate.rules)
  {
    found := [];
    var types := ByEffectType(current.rules);
    for i := 0 to |candidate.rules|
      invariant found == DowngradesIn(current, candidate.rules[..i])
    {
      assert candidate.rules[..i + 1][..i] == candidate.rules[..i];
      var rule := candidate.rules[i];
      if rule.reversibilityClass == "reversible" {
        var registered := DictKey(rule.effectType) in types;
        if !registered || types[DictKey(rule.effectType)].reversibilityClass != "reversible" {
          found := found + [Downgrade(rule.effectType, rule.id, registered, rule.autoExecute)];
        }
      }
    }
    assert candidate.rules[..|candidate.rules|] == candidate.rules;
  }
}
