/** Applying a stored policy pack to an engine. */
module PolicyPack {
  import opened Common
  import opened PolicyEvaluation
  import opened PolicyEngine

  datatype PackRule = PackRule(ruleId: string, enabled: Option<bool>, configKey: Option<string>, config: Option<Value>)

  datatype PackComposition = PackComposition(
    ruleId: string, priority: Option<int>, operator: Operator, children: seq<string>, enabled: Option<bool>)

  datatype Pack = Pack(name: string, rules: seq<PackRule>, compositions: seq<PackComposition>)

  datatype Warning =
    | UnknownRule(ruleId: string)
    | CouldNotDisable(ruleId: string)
    | CouldNotEnable(ruleId: string)
    | Conflict(ruleId: string)
    | NotRegistered(ruleId: string, reason: string)

  function DefinitionOf(c: PackComposition): Definition {
    Composition(c.ruleId, c.priority, c.operator, c.children)
  }

  // ---------- what applying a pack has to do ----------

  /** The last explicit flag the pack gives a rule, or the flag it had. */
  ghost function LastFlag(rules: seq<PackRule>, id: string, current: bool): bool {
    if rules == [] then current
    else
      var last := rules[|rules| - 1];
      if last.ruleId == id && last.enabled.Some? then last.enabled.value
      else LastFlag(rules[..|rules| - 1], id, current)
  }

  function ConfigKeyOf(known: Rules, rule: PackRule): string {
    if rule.configKey.Some? then rule.configKey.value
    else if rule.ruleId in known && known[rule.ruleId].definition.Rule? && known[rule.ruleId].definition.configKey.Some?
    then known[rule.ruleId].definition.configKey.value
    else rule.ruleId
  }

  /** The last configuration the pack gives under a key; Undefined when it gives none. */
  ghost function LastConfig(known: Rules, rules: seq<PackRule>, key: string): Option<Value> {
    if rules == [] then None
    else
      var last := rules[|rules| - 1];
      if last.config.Some? && ConfigKeyOf(known, last) == key then last.config
      else LastConfig(known, rules[..|rules| - 1], key)
  }

  /** The first well-formed composition of the pack with this id. */
  ghost function FirstValid(compositions: seq<PackComposition>, id: string): Option<PackComposition> {
    if compositions == [] then None
    else
      var last := compositions[|compositions| - 1];
      var earlier := FirstValid(compositions[..|compositions| - 1], id);
      if earlier.Some? then earlier
      else if last.ruleId == id && WellFormedDefinition(DefinitionOf(last)) then Some(last)
      else None
  }

  ghost predicate FlagsApplied(before: Rules, after: Rules, rules: seq<PackRule>) {
    after.Keys == before.Keys
    && forall id :: id in before ==> after[id] == before[id].(enabled := LastFlag(rules, id, before[id].enabled))
  }

  /** Existing entries untouched; each fresh id gets its first well-formed composition; nothing else is added. */
  ghost predicate CompositionsAdded(before: Rules, after: Rules, compositions: seq<PackComposition>) {
    && (forall id :: id in before ==> id in after && after[id] == before[id])
    && (forall id :: id in after && id !in before ==> FirstValid(compositions, id).Some?)
    && (forall id :: id !in before && FirstValid(compositions, id).Some? ==>
          id in after && FromPack(after[id], FirstValid(compositions, id).value))
  }

  ghost predicate FromPack(e: Entry, c: PackComposition) {
    e.definition == DefinitionOf(c) && e.source == Custom && (e.enabled <==> c.enabled != Some(false))
  }

  ghost predicate ConfigCollected(known: Rules, rules: seq<PackRule>, custom: Config) {
    forall key :: (key in custom <==> LastConfig(known, rules, key).Some?)
      && (key in custom ==> Some(custom[key]) == LastConfig(known, rules, key))
  }

  /** An unknown rule warns once, and once more when its flag could not be set. */
  function RuleWarning(known: set<string>, rule: PackRule): seq<Warning> {
    if rule.ruleId in known then []
    else
      [UnknownRule(rule.ruleId)]
      + if rule.enabled.None? then []
        else if rule.enabled.value then [CouldNotEnable(rule.ruleId)] else [CouldNotDisable(rule.ruleId)]
  }

  ghost function RuleWarnings(known: set<string>, rules: seq<PackRule>): seq<Warning> {
    if rules == [] then [] else RuleWarnings(known, rules[..|rules| - 1]) + RuleWarning(known, rules[|rules| - 1])
  }

  /**
   * A taken id conflicts, whether it was registered before or by an earlier composition of the pack; a malformed
   * one is not registered.
   */
  ghost function CompositionWarnings(known: set<string>, compositions: seq<PackComposition>): seq<Warning> {
    if compositions == [] then []
    else
      var earlier, last := compositions[..|compositions| - 1], compositions[|compositions| - 1];
      CompositionWarnings(known, earlier)
      + if last.ruleId in known || FirstValid(earlier, last.ruleId).Some? then [Conflict(last.ruleId)]
        else if !WellFormedDefinition(DefinitionOf(last)) then [NotRegistered(last.ruleId, NOT_NEEDS_ONE_CHILD)]
        else []
  }

  // ---------- applying it ----------

  /** Sets one rule's flag as the pack asks; a warning exactly when the rule is unknown. */
  method ApplyFlag(engine: Engine, rule: PackRule) returns (warnings: seq<Warning>)
    requires engine.Valid()
    modifies engine
    ensures engine.Valid() && engine.orderCounter == old(engine.orderCounter)
    ensures engine.rules == if rule.enabled.Some? && rule.ruleId in old(engine.rules)
      then old(engine.rules)[rule.ruleId := old(engine.rules)[rule.ruleId].(enabled := rule.enabled.value)]
      else old(engine.rules)
    ensures warnings == RuleWarning(old(engine.rules).Keys, rule)
  {
    warnings := if rule.ruleId in engine.rules then [] else [UnknownRule(rule.ruleId)];
    if rule.enabled == Some(false) {
      var found := engine.SetEnabled(rule.ruleId, false);
      if !found { warnings := warnings + [CouldNotDisable(rule.ruleId)]; }
    }
    if rule.enabled == Some(true) {
      var found := engine.SetEnabled(rule.ruleId, true);
      if !found { warnings := warnings + [CouldNotEnable(rule.ruleId)]; }
    }
  }

  method ApplyRules(engine: Engine, pack: Pack) returns (custom: Config, warnings: seq<Warning>)
    requires engine.Valid()
    modifies engine
    ensures engine.Valid() && engine.orderCounter == old(engine.orderCounter)
    ensures FlagsApplied(old(engine.rules), engine.rules, pack.rules)
    ensures ConfigCollected(old(engine.rules), pack.rules, custom)
    ensures warnings == RuleWarnings(old(engine.rules).Keys, pack.rules)
  {
    custom, warnings := map[], [];
    var metadata := engine.rules;
    for i := 0 to |pack.rules|
      invariant engine.Valid() && engine.orderCounter == old(engine.orderCounter)
      invariant FlagsApplied(metadata, engine.rules, pack.rules[..i])
      invariant ConfigCollected(metadata, pack.rules[..i], custom)
      invariant warnings == RuleWarnings(metadata.Keys, pack.rules[..i])
    {
      var rule := pack.rules[i];
      assert pack.rules[..i + 1] == pack.rules[..i] + [rule] && pack.rules[..i + 1][..i] == pack.rules[..i];
      ghost var earlier := engine.rules;
      var more := ApplyFlag(engine, rule);
      warnings := warnings + more;
      FlagStep(metadata, earlier, engine.rules, pack.rules[..i], rule);
      ConfigStep(metadata, pack.rules[..i], rule, custom);
      if rule.config.Some? {
        custom := custom[ConfigKeyOf(metadata, rule) := rule.config.value];
      }
    }
    assert pack.rules[..|pack.rules|] == pack.rules;
  }

  lemma ConfigStep(known: Rules, rules: seq<PackRule>, rule: PackRule, custom: Config)
    requires ConfigCollected(known, rules, custom)
    ensures ConfigCollected(known, rules + [rule],
      if rule.config.Some? then custom[ConfigKeyOf(known, rule) := rule.config.value] else custom)
  {
    assert (rules + [rule])[..|rules|] == rules;
  }

  lemma FlagStep(before: Rules, mid: Rules, after: Rules, rules: seq<PackRule>, rule: PackRule)
    requires FlagsApplied(before, mid, rules)
    requires after == if rule.enabled.Some? && rule.ruleId in mid
      then mid[rule.ruleId := mid[rule.ruleId].(enabled := rule.enabled.value)] else mid
    ensures FlagsApplied(before, after, rules + [rule])
  {
    assert (rules + [rule])[..|rules|] == rules;
  }

  method AddComposition(engine: Engine, c: PackComposition) returns (warnings: seq<Warning>)
    requires engine.Valid()
    modifies engine
    ensures engine.Valid()
    ensures c.ruleId in old(engine.rules) ==> engine.rules == old(engine.rules) && warnings == [Conflict(c.ruleId)]
    ensures c.ruleId !in old(engine.rules) && !WellFormedDefinition(DefinitionOf(c)) ==>
      engine.rules == old(engine.rules) && warnings == [NotRegistered(c.ruleId, NOT_NEEDS_ONE_CHILD)]
    ensures c.ruleId !in old(engine.rules) && WellFormedDefinition(DefinitionOf(c)) ==>
      c.ruleId in engine.rules && FromPack(engine.rules[c.ruleId], c)
      && engine.rules - {c.ruleId} == old(engine.rules) && warnings == []
  {
    if c.ruleId in engine.rules { return [Conflict(c.ruleId)]; }
    var r := engine.Register(DefinitionOf(c));
    if r.Err? { return [NotRegistered(c.ruleId, r.error)]; }
    if c.enabled == Some(false) {
      var _ := engine.SetEnabled(c.ruleId, false);
    }
    warnings := [];
  }

  method AddCompositions(engine: Engine, pack: Pack) returns (warnings: seq<Warning>)
    requires engine.Valid()
    modifies engine
    ensures engine.Valid() && CompositionsAdded(old(engine.rules), engine.rules, pack.compositions)
    ensures warnings == CompositionWarnings(old(engine.rules).Keys, pack.compositions)
  {
    hide CompositionsAdded, WellFormedDefinition, ValidRules, FirstValid;
    warnings := [];
    ghost var before := engine.rules;
    NothingAdded(before);
    for i := 0 to |pack.compositions|
      invariant engine.Valid() && CompositionsAdded(before, engine.rules, pack.compositions[..i])
      invariant warnings == CompositionWarnings(before.Keys, pack.compositions[..i])
    {
      var c := pack.compositions[i];
      ghost var mid := engine.rules;
      assert pack.compositions[..i + 1] == pack.compositions[..i] + [c];
      assert pack.compositions[..i + 1][..i] == pack.compositions[..i];
      TakenIff(before, mid, pack.compositions[..i], c.ruleId);
      var more := AddComposition(engine, c);
      warnings := warnings + more;
      CompositionStep(before, mid, engine.rules, pack.compositions[..i], c);
    }
    assert pack.compositions[..|pack.compositions|] == pack.compositions;
  }

  lemma TakenIff(before: Rules, mid: Rules, compositions: seq<PackComposition>, id: string)
    requires CompositionsAdded(before, mid, compositions)
    ensures id in mid <==> id in before || FirstValid(compositions, id).Some?
  {
    hide FirstValid, FromPack;
  }

  lemma NothingAdded(before: Rules)
    ensures CompositionsAdded(before, before, [])
  {
  }

  lemma CompositionStep(before: Rules, mid: Rules, after: Rules, compositions: seq<PackComposition>, c: PackComposition)
    requires CompositionsAdded(before, mid, compositions)
    requires c.ruleId in mid || !WellFormedDefinition(DefinitionOf(c)) ==> after == mid
    requires c.ruleId !in mid && WellFormedDefinition(DefinitionOf(c)) ==>
      c.ruleId in after && FromPack(after[c.ruleId], c) && after - {c.ruleId} == mid
    ensures CompositionsAdded(before, after, compositions + [c])
  {
    assert (compositions + [c])[..|compositions|] == compositions;
    assert forall id :: id in mid ==> id in after && after[id] == mid[id];
  }

  /** The engine after a pack: flags first, then the fresh compositions; no existing definition is replaced. */
  method ApplyPolicyPack(engine: Engine, pack: Pack) returns (custom: Config, warnings: seq<Warning>)
    requires engine.Valid()
    modifies engine
    ensures engine.Valid()
    ensures ConfigCollected(old(engine.rules), pack.rules, custom)
    ensures exists mid ::
      FlagsApplied(old(engine.rules), mid, pack.rules) && CompositionsAdded(mid, engine.rules, pack.compositions)
    ensures warnings ==
      RuleWarnings(old(engine.rules).Keys, pack.rules) + CompositionWarnings(old(engine.rules).Keys, pack.compositions)
  {
    var first, second;
    custom, first := ApplyRules(engine, pack);
    ghost var mid := engine.rules;
    second := AddCompositions(engine, pack);
    warnings := first + second;
    assert FlagsApplied(old(engine.rules), mid, pack.rules) && CompositionsAdded(mid, engine.rules, pack.compositions);
  }

  // ---------- consequences ----------

  /** Every rule known, every composition well-formed under an id of its own. */
  ghost predicate AppliesCleanly(known: set<string>, pack: Pack) {
    && (forall r :: r in pack.rules ==> r.ruleId in known)
    && CleanCompositions(known, pack.compositions)
  }

  ghost predicate CleanCompositions(known: set<string>, compositions: seq<PackComposition>) {
    && (forall c :: c in compositions ==> c.ruleId !in known && WellFormedDefinition(DefinitionOf(c)))
    && forall i, j :: 0 <= i < j < |compositions| ==> compositions[i].ruleId != compositions[j].ruleId
  }

  lemma {:induction false} RuleWarningsIff(known: set<string>, rules: seq<PackRule>)
    ensures RuleWarnings(known, rules) == [] <==> forall r :: r in rules ==> r.ruleId in known
  {
    if rules != [] {
      var n := |rules| - 1;
      RuleWarningsIff(known, rules[..n]);
      assert rules == rules[..n] + [rules[n]];
    }
  }

  lemma {:induction false} FirstValidIff(compositions: seq<PackComposition>, id: string)
    ensures FirstValid(compositions, id).Some? <==>
      exists c :: c in compositions && c.ruleId == id && WellFormedDefinition(DefinitionOf(c))
  {
    hide WellFormedDefinition;
    if compositions != [] {
      var n := |compositions| - 1;
      FirstValidIff(compositions[..n], id);
      assert compositions == compositions[..n] + [compositions[n]];
    }
  }

  lemma {:induction false} CompositionWarningsIff(known: set<string>, compositions: seq<PackComposition>)
    ensures CompositionWarnings(known, compositions) == [] <==> CleanCompositions(known, compositions)
  {
    hide WellFormedDefinition, FirstValid;
    if compositions != [] {
      var n := |compositions| - 1;
      var earlier, last := compositions[..n], compositions[n];
      CompositionWarningsIff(known, earlier);
      FirstValidIff(earlier, last.ruleId);
      assert compositions == earlier + [last];
      if CleanCompositions(known, earlier) {
        OneMoreClean(known, earlier, last);
      }
    }
  }

  lemma OneMoreClean(known: set<string>, earlier: seq<PackComposition>, last: PackComposition)
    requires CleanCompositions(known, earlier)
    ensures CleanCompositions(known, earlier + [last]) <==>
      && last.ruleId !in known && WellFormedDefinition(DefinitionOf(last))
      && forall c :: c in earlier ==> c.ruleId != last.ruleId
  {
    hide WellFormedDefinition;
    var all := earlier + [last];
    assert all[|earlier|] == last && last in all;
    if CleanCompositions(known, all) {
      forall c | c in earlier
        ensures c.ruleId != last.ruleId
      {
        var i :| 0 <= i < |earlier| && earlier[i] == c;
        assert all[i] == c;
      }
    }
    assert forall i :: 0 <= i < |earlier| ==> earlier[i] in earlier;
  }

  /** Applying a pack warns of nothing if and only if everything in it takes effect. */
  lemma NoWarningsIff(known: set<string>, pack: Pack)
    ensures RuleWarnings(known, pack.rules) + CompositionWarnings(known, pack.compositions) == [] <==>
      AppliesCleanly(known, pack)
  {
    RuleWarningsIff(known, pack.rules);
    CompositionWarningsIff(known, pack.compositions);
  }

  /** A pack cannot redefine, remove, or reorder an existing entry; it can only set its flag. */
  lemma ExistingEntriesKept(before: Rules, mid: Rules, after: Rules, pack: Pack, id: string)
    requires FlagsApplied(before, mid, pack.rules) && CompositionsAdded(mid, after, pack.compositions) && id in before
    ensures id in after && after[id] == before[id].(enabled := LastFlag(pack.rules, id, before[id].enabled))
  {
  }

  /** A fresh composition is registered as the pack writes it, as a custom entry, on unless the pack says off. */
  lemma AddedAsWritten(before: Rules, after: Rules, pack: Pack, id: string)
    requires CompositionsAdded(before, after, pack.compositions) && id !in before
    ensures id in after <==> exists k :: 0 <= k < |pack.compositions| && IsFirstFor(pack.compositions, id, k)
    ensures forall k :: 0 <= k < |pack.compositions| && IsFirstFor(pack.compositions, id, k) ==>
      IsWritten(after, id, pack.compositions[k])
  {
    FirstIsFirst(pack.compositions, id);
  }

  ghost predicate CanRegister(c: PackComposition) {
    c.operator == Not ==> |c.children| == 1
  }

  ghost predicate IsFirstFor(compositions: seq<PackComposition>, id: string, k: nat)
    requires k < |compositions|
  {
    && compositions[k].ruleId == id && CanRegister(compositions[k])
    && forall j :: 0 <= j < k ==> compositions[j].ruleId != id || !CanRegister(compositions[j])
  }

  ghost predicate IsWritten(rules: Rules, id: string, c: PackComposition) {
    && id in rules && rules[id].definition == Composition(id, c.priority, c.operator, c.children)
    && rules[id].source == Custom && (rules[id].enabled <==> c.enabled != Some(false))
  }

  lemma {:induction false} FirstIsFirst(compositions: seq<PackComposition>, id: string)
    ensures var c := FirstValid(compositions, id);
      && (c.Some? ==> exists k :: 0 <= k < |compositions| && IsFirstFor(compositions, id, k))
      && forall k :: 0 <= k < |compositions| && IsFirstFor(compositions, id, k) ==> c == Some(compositions[k])
  {
    if compositions != [] {
      var n := |compositions| - 1;
      var earlier := compositions[..n];
      FirstIsFirst(earlier, id);
      forall k | 0 <= k < n
        ensures IsFirstFor(compositions, id, k) <==> IsFirstFor(earlier, id, k)
      {
        assert forall j :: 0 <= j <= k ==> earlier[j] == compositions[j];
      }
      if FirstValid(earlier, id).None? && FirstValid(compositions, id).Some? {
        FirstValidIff(earlier, id);
        assert forall j :: 0 <= j < n ==> compositions[j] in earlier;
        assert IsFirstFor(compositions, id, n);
      }
    }
  }

  /** The last configuration a pack gives goes under its explicit key, else the rule's own key, else the rule's id. */
  lemma LastConfigIsTaken(known: Rules, rules: seq<PackRule>, custom: Config)
    requires ConfigCollected(known, rules, custom) && rules != [] && rules[|rules| - 1].config.Some?
    ensures var last := rules[|rules| - 1];
      var key :=
        match last.configKey
        case Some(explicit) => explicit
        case None =>
          if last.ruleId !in known || known[last.ruleId].definition.Composition? then last.ruleId
          else
            match known[last.ruleId].definition.configKey
            case Some(own) => own
            case None => last.ruleId;
      key in custom && custom[key] == last.config.value
  {
  }

  /** A pack that configures nothing gives no configuration. */
  lemma {:induction false} UnconfiguredIsEmpty(known: Rules, rules: seq<PackRule>, custom: Config)
    requires ConfigCollected(known, rules, custom) && forall r :: r in rules ==> r.config.None?
    ensures custom == map[]
  {
    forall key
      ensures LastConfig(known, rules, key).None?
    {
      NoConfig(known, rules, key);
    }
  }

  lemma {:induction false} NoConfig(known: Rules, rules: seq<PackRule>, key: string)
    requires forall r :: r in rules ==> r.config.None?
    ensures LastConfig(known, rules, key).None?
  {
    if rules != [] {
      NoConfig(known, rules[..|rules| - 1], key);
    }
  }

  lemma PackKeepsOverrides(before: Rules, mid: Rules, after: Rules, pack: Pack, custom: Config, id: string, key: string)
    requires FlagsApplied(before, mid, pack.rules) && CompositionsAdded(mid, after, pack.compositions)
    ensures Overrides(before, custom, id, key) <==> Overrides(after, custom, id, key)
    ensures Overrides(before, custom, id, key) ==> after[id].definition == before[id].definition
  {
    hide OverrideFor, POLICY_CONFIG_KEYS, LastFlag, FirstValid;
    if id in before {
      assert after[id].definition == before[id].definition && after[id].source == before[id].source;
    } else if id in after {
      assert after[id].definition.Composition?;
    }
  }

  /** For the same custom configuration, a pack leaves the effective built-in configuration as it was. */
  lemma PackKeepsEffectiveConfig(
      before: Rules, mid: Rules, after: Rules, pack: Pack, ctx: Context, a: Config, b: Config)
    requires FlagsApplied(before, mid, pack.rules) && CompositionsAdded(mid, after, pack.compositions)
    requires IsEffective(before, ctx, a) && IsEffective(after, ctx, b)
    ensures a == b
  {
    hide Overrides, OverrideFor, FlagsApplied, CompositionsAdded;
    forall id, key
      ensures Overrides(before, ctx.customRuleConfig, id, key) <==> Overrides(after, ctx.customRuleConfig, id, key)
      ensures Overrides(before, ctx.customRuleConfig, id, key) ==>
        id in before && id in after && after[id].definition == before[id].definition
    {
      PackKeepsOverrides(before, mid, after, pack, ctx.customRuleConfig, id, key);
      OverridesRegistered(before, ctx.customRuleConfig, id, key);
      OverridesRegistered(after, ctx.customRuleConfig, id, key);
    }
    assert IsEffective(before, ctx, b);
    EffectiveUnique(before, ctx, a, b);
  }

  lemma OverridesRegistered(rules: Rules, custom: Config, id: string, key: string)
    ensures Overrides(rules, custom, id, key) ==> id in rules
  {
  }

  /** Entry i sets the flag of `id`, and no later entry sets it again. */
  ghost predicate SetsLast(rules: seq<PackRule>, id: string, flag: bool, i: nat)
    requires i < |rules|
  {
    && rules[i].ruleId == id && rules[i].enabled == Some(flag)
    && forall j :: i < j < |rules| && rules[j].ruleId == id ==> rules[j].enabled.None?
  }

  /** The last flag is the last explicit one: some pack rule sets it and no later one sets it again. */
  lemma {:induction false} LastFlagIsLast(rules: seq<PackRule>, id: string, current: bool)
    ensures (forall r :: r in rules && r.ruleId == id ==> r.enabled.None?) ==> LastFlag(rules, id, current) == current
    ensures forall i, flag :: 0 <= i < |rules| && SetsLast(rules, id, flag, i) ==> LastFlag(rules, id, current) == flag
  {
    if rules != [] {
      var n := |rules| - 1;
      LastFlagIsLast(rules[..n], id, current);
      assert rules == rules[..n] + [rules[n]];
      forall i, flag | 0 <= i < |rules| && SetsLast(rules, id, flag, i)
        ensures LastFlag(rules, id, current) == flag
      {
        if i < n {
          assert SetsLast(rules[..n], id, flag, i);
        }
      }
    }
  }
}
