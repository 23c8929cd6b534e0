/** The mutable rule registry, its canonical ordering, and whole-policy decisions. */
module PolicyEngine {
  import opened Common
  import opened PolicyEvaluation
  import Sorting

  /** A configuration value; Other stands for anything that is not a plain record. */
  datatype Value = Undefined | Null | Record(fields: map<string, Value>) | Other(text: string)

  type Config = map<string, Value>

  datatype Context = Context(intentId: string, config: Config, customRuleConfig: Config)

  datatype Decision = Decision(intentId: string, allowed: bool, contributions: seq<Contribution>)

  const POLICY_CONFIG_KEYS: set<string> := {
    "maxOrderSize", "maxSlippageBps", "venueAllowlist", "assetAllowlist", "liveModeEnabled",
    "keetaPolicyEnabled", "identityPolicyEnabled", "anchorBondVerificationRequired",
    "maxExposurePerAsset", "maxExposurePerWallet", "maxExposurePerVenue", "maxNotionalPerStrategy",
    "maxDailyTrades", "maxUnsettledExecutions", "perSessionAgentSpendCapUsd",
    "allowedAgentPaymentRails", "maxDrawdownBps"}

  const NOT_NEEDS_ONE_CHILD := "Policy composition \"not\" requires exactly one child rule"

  // ---------- the registry invariant ----------

  ghost predicate WellFormedDefinition(d: Definition) {
    d.Composition? && d.operator == Not ==> |d.children| == 1
  }

  /** A built-in rule with a configuration key of the policy config. */
  predicate Configurable(e: Entry) {
    && e.source == Default && e.definition.Rule?
    && e.definition.configKey.Some? && e.definition.configKey.value in POLICY_CONFIG_KEYS
  }

  ghost predicate ValidRules(rules: Rules, counter: nat) {
    && (forall id :: id in rules ==>
          rules[id].definition.ruleId == id && rules[id].order < counter && WellFormedDefinition(rules[id].definition))
    && (forall a, b :: a in rules && b in rules && a != b ==> rules[a].order != rules[b].order)
    && (forall a, b :: a in rules && b in rules && a != b && Configurable(rules[a]) && Configurable(rules[b]) ==>
          rules[a].definition.configKey != rules[b].definition.configKey)
  }

  // ---------- canonical order ----------

  function Priority(e: Entry): int {
    if e.definition.priority.Some? then e.definition.priority.value else 0
  }

  predicate AtOrBefore(a: Entry, b: Entry) {
    Priority(a) > Priority(b) || (Priority(a) == Priority(b) && a.order <= b.order)
  }

  ghost predicate StrictlyBefore(a: Entry, b: Entry) {
    AtOrBefore(a, b) && !AtOrBefore(b, a)
  }

  /** Every registered entry once, by falling priority and then by registration. */
  ghost predicate IsListing(rules: Rules, listing: seq<Entry>) {
    && (forall e :: e in listing <==> e in rules.Values)
    && (forall i, j :: 0 <= i < j < |listing| ==> StrictlyBefore(listing[i], listing[j]))
  }

  /** There is only one listing of a registry. */
  lemma ListingUnique(rules: Rules, a: seq<Entry>, b: seq<Entry>)
    requires IsListing(rules, a) && IsListing(rules, b)
    ensures a == b
  {
    StrictOrderUnique(a, b);
  }

  /** A higher priority comes first, none at all counts as zero, and equals come in order of registration. */
  lemma HigherPriorityFirst(rules: Rules, listing: seq<Entry>, i: nat, j: nat)
    requires IsListing(rules, listing) && i < |listing| && j < |listing|
    ensures var a, b := listing[i].definition.priority, listing[j].definition.priority;
      && (forall x, y :: a == Some(x) && b == Some(y) && x > y ==> i < j)
      && (forall x :: a == Some(x) && b == None ==> (x > 0 ==> i < j) && (x < 0 ==> j < i))
      && (a == b || {a, b} == {None, Some(0)} ==> (i < j <==> listing[i].order < listing[j].order))
  {
  }

  lemma HeadIn<T>(xs: seq<T>)
    requires xs != []
    ensures xs[0] in xs
  {
  }

  lemma {:induction false} StrictOrderUnique(a: seq<Entry>, b: seq<Entry>)
    requires forall e :: e in a <==> e in b
    requires forall i, j :: 0 <= i < j < |a| ==> StrictlyBefore(a[i], a[j])
    requires forall i, j :: 0 <= i < j < |b| ==> StrictlyBefore(b[i], b[j])
    ensures a == b
  {
    if a == [] {
      if b != [] { HeadIn(b); }
    } else {
      assert a[0] in b;
      assert b[0] in a;
      assert a[0] == b[0];
      forall e
        ensures e in a[1..] <==> e in b[1..]
      {
        assert e in a <==> e == a[0] || e in a[1..];
        assert e in b <==> e == b[0] || e in b[1..];
      }
      StrictOrderUnique(a[1..], b[1..]);
    }
  }

  /** values holds the entries of all ids but the pending ones, each once. */
  ghost predicate Collected(rules: Rules, pending: set<string>, values: seq<Entry>) {
    && (forall e :: e in values <==> exists id :: id in rules && id !in pending && rules[id] == e)
    && (forall i, j :: 0 <= i < j < |values| ==> values[i].order != values[j].order)
  }

  lemma CollectOne(rules: Rules, counter: nat, pending: set<string>, values: seq<Entry>, id: string)
    requires ValidRules(rules, counter) && Collected(rules, pending, values) && id in pending && id in rules
    ensures Collected(rules, pending - {id}, values + [rules[id]])
  {
    forall i | 0 <= i < |values|
      ensures values[i].order != rules[id].order
    {
      assert values[i] in values;
    }
  }

  lemma CanonicalOrderIsTotal()
    ensures Sorting.TotalPreorder(AtOrBefore)
  {
  }

  lemma SortGivesListing(rules: Rules, values: seq<Entry>)
    requires Collected(rules, {}, values)
    ensures IsListing(rules, Sorting.Sort(AtOrBefore, values))
  {
    hide Priority, Sorting.Sort, Sorting.TotalPreorder, Sorting.Ties, Configurable;
    CanonicalOrderIsTotal();
    var listing := Sorting.Sort(AtOrBefore, values);
    Sorting.SortCorrect(AtOrBefore, values);
    Sorting.SameElements(listing, values);
    DistinctOrdersPermute(values, listing);
    StrictlySorted(listing);
  }

  lemma StrictlySorted(listing: seq<Entry>)
    requires Sorting.SortedBy(AtOrBefore, listing)
    requires forall i, j :: 0 <= i < j < |listing| ==> listing[i].order != listing[j].order
    ensures forall i, j :: 0 <= i < j < |listing| ==> StrictlyBefore(listing[i], listing[j])
  {
    forall i, j | 0 <= i < j < |listing|
      ensures StrictlyBefore(listing[i], listing[j])
    {
      assert AtOrBefore(listing[i], listing[j]) && listing[i].order != listing[j].order;
    }
  }

  // ---------- built-in rules ----------

  ghost predicate DistinctBuiltIns(defaults: seq<Definition>) {
    && (forall i :: 0 <= i < |defaults| ==> defaults[i].Rule?)
    && (forall i, j :: 0 <= i < j < |defaults| ==> defaults[i].ruleId != defaults[j].ruleId)
    && (forall i, j :: 0 <= i < j < |defaults| ==>
      defaults[i].configKey != defaults[j].configKey || defaults[i].configKey.None?)
  }

  /**
   * The registry holds these definitions in order, the first ones as built-in, all enabled but the disabled, and
   * nothing else.
   */
  ghost predicate HoldsExactly(rules: Rules, definitions: seq<Definition>, builtIns: nat, disabled: seq<string>) {
    && (forall i :: 0 <= i < |definitions| ==> HoldsAt(rules, definitions, builtIns, disabled, i))
    && (forall id :: id in rules ==> rules[id].order < |definitions| && definitions[rules[id].order].ruleId == id)
  }

  ghost predicate HoldsAt(rules: Rules, definitions: seq<Definition>, builtIns: nat, disabled: seq<string>, i: nat)
    requires i < |definitions|
  {
    var d := definitions[i];
    d.ruleId in rules && rules[d.ruleId] == Entry(d, i, if i < builtIns then Default else Custom, d.ruleId !in disabled)
  }

  lemma AddNext(rules: Rules, definitions: seq<Definition>, builtIns: nat, i: nat)
    requires i < |definitions| && HoldsExactly(rules, definitions[..i], builtIns, []) && definitions[i].ruleId !in rules
    ensures HoldsExactly(
      rules[definitions[i].ruleId := Entry(definitions[i], i, if i < builtIns then Default else Custom, true)],
      definitions[..i + 1], builtIns, [])
  {
    var d, taken := definitions[i], definitions[..i + 1];
    var more := rules[d.ruleId := Entry(d, i, if i < builtIns then Default else Custom, true)];
    forall k | 0 <= k < |taken|
      ensures HoldsAt(more, taken, builtIns, [], k)
    {
      if k < i {
        assert HoldsAt(rules, definitions[..i], builtIns, [], k) && taken[k] == definitions[..i][k];
      }
    }
  }

  lemma AddBuiltIn(rules: Rules, defaults: seq<Definition>, i: nat)
    requires i < |defaults| && DistinctBuiltIns(defaults) && HoldsExactly(rules, defaults[..i], |defaults|, [])
    requires ValidRules(rules, i)
    ensures var more := rules[defaults[i].ruleId := Entry(defaults[i], i, Default, true)];
      HoldsExactly(more, defaults[..i + 1], |defaults|, []) && ValidRules(more, i + 1)
  {
    var d := defaults[i];
    forall id | id in rules
      ensures rules[id].definition.Rule?
      ensures id != d.ruleId && (rules[id].definition.configKey != d.configKey || d.configKey.None?)
    {
      var k := rules[id].order;
      assert HoldsAt(rules, defaults[..i], |defaults|, [], k) && defaults[..i][k] == defaults[k];
    }
    AddNext(rules, defaults, |defaults|, i);
  }

  /** What the constructor can register: distinct ids throughout, and every `not` with one child. */
  ghost predicate Registrable(definitions: seq<Definition>) {
    && (forall i, j :: 0 <= i < j < |definitions| ==> definitions[i].ruleId != definitions[j].ruleId)
    && forall i :: 0 <= i < |definitions| ==> WellFormedDefinition(definitions[i])
  }

  lemma RefusedIsUnregistrable(rules: Rules, definitions: seq<Definition>, builtIns: nat, i: nat)
    requires i < |definitions| && HoldsExactly(rules, definitions[..i], builtIns, [])
    requires definitions[i].ruleId in rules || !WellFormedDefinition(definitions[i])
    ensures !Registrable(definitions)
  {
    if definitions[i].ruleId in rules {
      var k := rules[definitions[i].ruleId].order;
      assert definitions[..i][k] == definitions[k];
    }
  }

  lemma RegisteredIsRegistrable(rules: Rules, definitions: seq<Definition>, builtIns: nat, counter: nat)
    requires HoldsExactly(rules, definitions, builtIns, []) && ValidRules(rules, counter)
    ensures Registrable(definitions)
  {
    forall i | 0 <= i < |definitions|
      ensures WellFormedDefinition(definitions[i])
    {
      assert HoldsAt(rules, definitions, builtIns, [], i);
    }
    forall i, j | 0 <= i < j < |definitions|
      ensures definitions[i].ruleId != definitions[j].ruleId
    {
      assert HoldsAt(rules, definitions, builtIns, [], i) && HoldsAt(rules, definitions, builtIns, [], j);
    }
  }

  lemma DisableNext(rules: Rules, definitions: seq<Definition>, builtIns: nat, disabled: seq<string>, id: string)
    requires HoldsExactly(rules, definitions, builtIns, disabled)
    ensures HoldsExactly(
      if id in rules then rules[id := rules[id].(enabled := false)] else rules, definitions, builtIns, disabled + [id])
  {
    var after := if id in rules then rules[id := rules[id].(enabled := false)] else rules;
    forall i | 0 <= i < |definitions|
      ensures HoldsAt(after, definitions, builtIns, disabled + [id], i)
    {
      assert HoldsAt(rules, definitions, builtIns, disabled, i);
    }
  }

  // ---------- built-in configuration overrides ----------

  function Read(m: Config, key: string): Value {
    if key in m then m[key] else Undefined
  }

  /** What the custom config says about a configurable rule; Undefined when it says nothing. */
  function OverrideFor(custom: Config, key: string, ruleId: string): Value {
    var direct := Read(custom, key);
    var raw := if direct.Undefined? || direct.Null? then Read(custom, ruleId) else direct;
    if raw.Record? && key in raw.fields then raw.fields[key] else raw
  }

  ghost predicate Overrides(rules: Rules, custom: Config, id: string, key: string) {
    && id in rules && Configurable(rules[id]) && rules[id].definition.configKey == Some(key)
    && OverrideFor(custom, key, rules[id].definition.ruleId) != Undefined
  }

  /** The base config with each overridden key replaced; order and enable flags play no part. */
  ghost predicate IsEffective(rules: Rules, ctx: Context, config: Config) {
    && (forall key :: key in config <==>
      key in ctx.config || exists id :: Overrides(rules, ctx.customRuleConfig, id, key))
    && (forall id, key :: Overrides(rules, ctx.customRuleConfig, id, key) ==>
          key in config && config[key] == OverrideFor(ctx.customRuleConfig, key, rules[id].definition.ruleId))
    && (forall key :: key in config && (forall id :: !Overrides(rules, ctx.customRuleConfig, id, key)) ==>
          config[key] == Read(ctx.config, key))
  }

  lemma EffectiveUnique(rules: Rules, ctx: Context, a: Config, b: Config)
    requires IsEffective(rules, ctx, a) && IsEffective(rules, ctx, b)
    ensures a == b
  {
    assert a.Keys == b.Keys;
    forall key | key in a
      ensures a[key] == b[key]
    {
      if id :| Overrides(rules, ctx.customRuleConfig, id, key) {
      }
    }
  }

  /** What a given value means for a key: the field of that name in a record that has one, else the value itself. */
  ghost predicate Says(given: Value, key: string, value: Value) {
    if given.Record? && key in given.fields then value == given.fields[key] else value == given
  }

  /** The custom configuration has something other than null under this name. */
  ghost predicate Gives(custom: Config, name: string) {
    name in custom && custom[name] != Undefined && custom[name] != Null
  }

  /**
   * A built-in rule's key takes what the custom configuration says under the key, or else under the rule's id,
   * and keeps its base value when nothing is said. A null under the key gives way to the id, one under the id counts.
   */
  lemma CustomConfigDecides(
      rules: Rules, counter: nat, ctx: Context, config: Config, id: string, key: string)
    requires ValidRules(rules, counter) && IsEffective(rules, ctx, config)
    requires id in rules && rules[id].source == Default && rules[id].definition.Rule?
    requires rules[id].definition.configKey == Some(key) && key in POLICY_CONFIG_KEYS
    ensures var custom := ctx.customRuleConfig;
      && (Gives(custom, key) && !Says(custom[key], key, Undefined) ==>
            key in config && Says(custom[key], key, config[key]))
      && (!Gives(custom, key) && id in custom && !Says(custom[id], key, Undefined) ==>
            key in config && Says(custom[id], key, config[key]))
      && ((if Gives(custom, key) then Says(custom[key], key, Undefined)
           else id !in custom || Says(custom[id], key, Undefined)) ==>
            (key in config <==> key in ctx.config) && (key in config ==> config[key] == ctx.config[key]))
  {
    OnlyOneOverrides(rules, counter, ctx.customRuleConfig, id, key);
    OverrideSays(ctx.customRuleConfig, key, id);
    KeyIsDecided(rules, ctx, config, id, key);
    hide IsEffective, OverrideFor, Overrides, Says, Gives, ValidRules, POLICY_CONFIG_KEYS;
  }

  lemma KeyIsDecided(rules: Rules, ctx: Context, config: Config, id: string, key: string)
    requires IsEffective(rules, ctx, config) && id in rules && rules[id].definition.ruleId == id
    requires Configurable(rules[id]) && rules[id].definition.configKey == Some(key)
    requires forall x :: Overrides(rules, ctx.customRuleConfig, x, key) ==> x == id
    ensures var said := OverrideFor(ctx.customRuleConfig, key, id);
      if said != Undefined then key in config && config[key] == said
      else (key in config <==> key in ctx.config) && (key in config ==> config[key] == ctx.config[key])
  {
    hide OverrideFor, POLICY_CONFIG_KEYS;
    assert Overrides(rules, ctx.customRuleConfig, id, key) <==> OverrideFor(ctx.customRuleConfig, key, id) != Undefined;
  }

  lemma OverrideSays(custom: Config, key: string, id: string)
    ensures var said := OverrideFor(custom, key, id);
      if Gives(custom, key) then Says(custom[key], key, said)
      else if id in custom then Says(custom[id], key, said)
      else said == Undefined
    ensures forall given, a, b :: Says(given, key, a) && Says(given, key, b) ==> a == b
  {
  }

  lemma OnlyOneOverrides(rules: Rules, counter: nat, custom: Config, id: string, key: string)
    requires ValidRules(rules, counter) && id in rules && Configurable(rules[id])
    requires rules[id].definition.configKey == Some(key)
    ensures rules[id].definition.ruleId == id
    ensures forall x :: Overrides(rules, custom, x, key) ==> x == id
  {
    hide OverrideFor, POLICY_CONFIG_KEYS;
  }

  /** A rule that is not built in, a composition, or a key the policy configuration does not have overrides nothing. */
  lemma OthersOverrideNothing(rules: Rules, ctx: Context, config: Config, key: string)
    requires IsEffective(rules, ctx, config)
    requires key !in POLICY_CONFIG_KEYS || forall id :: id in rules && rules[id].source == Default ==>
      rules[id].definition.Composition? || rules[id].definition.configKey != Some(key)
    ensures (key in config <==> key in ctx.config) && (key in config ==> config[key] == ctx.config[key])
  {
    hide POLICY_CONFIG_KEYS;
  }

  function ConfigKey(e: Entry): string
    requires Configurable(e)
  {
    e.definition.configKey.value
  }

  /** The effective configuration as far as the given entries go. */
  ghost predicate EffectiveOver(rules: Rules, ctx: Context, done: seq<Entry>, config: Config) {
    && (forall key :: key in config <==>
          key in ctx.config || exists id :: Overrides(rules, ctx.customRuleConfig, id, key) && rules[id] in done)
    && (forall id, key :: Overrides(rules, ctx.customRuleConfig, id, key) && rules[id] in done ==>
          key in config && config[key] == OverrideFor(ctx.customRuleConfig, key, rules[id].definition.ruleId))
    && (forall key ::
      key in config && (forall id :: Overrides(rules, ctx.customRuleConfig, id, key) ==> rules[id] !in done) ==>
          config[key] == Read(ctx.config, key))
  }

  lemma EffectiveNone(rules: Rules, ctx: Context)
    ensures EffectiveOver(rules, ctx, [], ctx.config)
  {
    hide Overrides;
  }

  lemma ListedIsRegistered(rules: Rules, counter: nat, listing: seq<Entry>, i: nat)
    requires ValidRules(rules, counter) && IsListing(rules, listing) && i < |listing|
    ensures listing[i].definition.ruleId in rules && rules[listing[i].definition.ruleId] == listing[i]
  {
    assert listing[i] in listing;
  }

  lemma EffectiveSkip(rules: Rules, ctx: Context, done: seq<Entry>, entry: Entry, config: Config)
    requires EffectiveOver(rules, ctx, done, config)
    requires Configurable(entry) ==>
      OverrideFor(ctx.customRuleConfig, ConfigKey(entry), entry.definition.ruleId) == Undefined
    ensures EffectiveOver(rules, ctx, done + [entry], config)
  {
    hide OverrideFor, POLICY_CONFIG_KEYS;
    forall id, key | Overrides(rules, ctx.customRuleConfig, id, key)
      ensures rules[id] in done + [entry] <==> rules[id] in done
    {
    }
  }

  lemma OwnKey(rules: Rules, counter: nat, ctx: Context, id: string, key: string, entry: Entry)
    requires ValidRules(rules, counter) && Overrides(rules, ctx.customRuleConfig, id, key)
    requires entry.definition.ruleId in rules && rules[entry.definition.ruleId] == entry && Configurable(entry)
    ensures rules[id] == entry <==> id == entry.definition.ruleId
    ensures key == ConfigKey(entry) ==> id == entry.definition.ruleId
  {
  }

  lemma EffectiveSet(rules: Rules, counter: nat, ctx: Context, done: seq<Entry>, entry: Entry, config: Config)
    requires ValidRules(rules, counter) && EffectiveOver(rules, ctx, done, config)
    requires entry.definition.ruleId in rules && rules[entry.definition.ruleId] == entry && Configurable(entry)
    requires OverrideFor(ctx.customRuleConfig, ConfigKey(entry), entry.definition.ruleId) != Undefined
    ensures EffectiveOver(rules, ctx, done + [entry],
              config[ConfigKey(entry) := OverrideFor(ctx.customRuleConfig, ConfigKey(entry), entry.definition.ruleId)])
  {
    hide OverrideFor, POLICY_CONFIG_KEYS, ValidRules;
    assert Overrides(rules, ctx.customRuleConfig, entry.definition.ruleId, ConfigKey(entry));
    forall id, key | Overrides(rules, ctx.customRuleConfig, id, key)
      ensures rules[id] in done + [entry] <==> rules[id] in done || id == entry.definition.ruleId
      ensures key == ConfigKey(entry) ==> id == entry.definition.ruleId
    {
      OwnKey(rules, counter, ctx, id, key, entry);
    }
  }

  lemma EffectiveAll(rules: Rules, ctx: Context, listing: seq<Entry>, config: Config)
    requires IsListing(rules, listing) && EffectiveOver(rules, ctx, listing, config)
    ensures IsEffective(rules, ctx, config)
  {
    hide OverrideFor, Configurable;
    forall id, key | Overrides(rules, ctx.customRuleConfig, id, key)
      ensures rules[id] in listing
    {
      assert rules[id] in rules.Values;
    }
  }

  // ---------- decisions ----------

  /** Which plain rules pass, given how each rule judges a context. */
  function LeafOf(rules: Rules, judge: (Definition, Context) -> bool, ctx: Context): string -> bool {
    (id: string) => id in rules && judge(rules[id].definition, ctx)
  }

  ghost predicate Allows(rules: Rules, leaf: string -> bool) {
    forall id :: id in rules && rules[id].enabled ==> Passes(rules, leaf, id, {})
  }

  /** Every enabled entry is a plain rule. */
  ghost predicate OnlyPlainRules(rules: Rules) {
    forall id :: id in rules && rules[id].enabled ==> rules[id].definition.Rule?
  }

  /** A contribution for every enabled entry and for nothing else; that of a plain rule is what it judges. */
  ghost predicate SpeaksForRules(
      rules: Rules, judge: (Definition, Context) -> bool, ctx: Context, contributions: seq<Contribution>)
  {
    && (forall id :: id in rules && rules[id].enabled ==> exists c :: c in contributions && c.ruleId == id)
    && (forall c :: c in contributions ==>
          && c.ruleId in rules && rules[c.ruleId].enabled
          && (rules[c.ruleId].definition.Rule? ==> c.passed == judge(rules[c.ruleId].definition, ctx)))
  }

  ghost predicate SameDefinitions(a: Rules, b: Rules) {
    a.Keys == b.Keys && forall id :: id in a ==> a[id].definition == b[id].definition && a[id].source == b[id].source
  }

  lemma {:induction false} RegisteredSame(a: Rules, b: Rules, children: seq<string>)
    requires a.Keys == b.Keys
    ensures Registered(a, children) == Registered(b, children)
  {
    if children != [] {
      assert children[0] in a.Keys <==> children[0] in b.Keys;
      RegisteredSame(a, b, children[1..]);
    }
  }

  /** Enable flags have no influence on how any single entry evaluates. */
  lemma {:induction false} EvaluationIgnoresFlags(
      a: Rules, b: Rules, leaf: string -> bool, id: string, visiting: set<string>)
    requires SameDefinitions(a, b) && id in a
    ensures EvaluateEntry(a, leaf, id, visiting) == EvaluateEntry(b, leaf, id, visiting)
    decreases |a.Keys - visiting|
  {
    var d := a[id].definition;
    if d.Composition? && id !in visiting {
      RegisteredSame(a, b, d.children);
      VisitingGrows(a.Keys, visiting, id);
      var registered := Registered(a, d.children);
      forall i | 0 <= i < |registered|
        ensures EvaluateEntry(a, leaf, registered[i], visiting + {id}) ==
                EvaluateEntry(b, leaf, registered[i], visiting + {id})
      {
        assert registered[i] in registered;
        EvaluationIgnoresFlags(a, b, leaf, registered[i], visiting + {id});
      }
      assert
        seq(|registered|,
          i requires 0 <= i < |registered| => EvaluateEntry(a, leaf, registered[i], visiting + {id}))
        == seq(|registered|,
          i requires 0 <= i < |registered| => EvaluateEntry(b, leaf, registered[i], visiting + {id}));
    }
  }

  /** Registries that agree on their definitions give the same effective configuration. */
  lemma SameEffective(a: Rules, b: Rules, ctx: Context, configA: Config, configB: Config)
    requires SameDefinitions(a, b) && IsEffective(a, ctx, configA) && IsEffective(b, ctx, configB)
    ensures configA == configB
  {
    hide OverrideFor, Read;
    forall id, key
      ensures Overrides(a, ctx.customRuleConfig, id, key) <==> Overrides(b, ctx.customRuleConfig, id, key)
    {
    }
    assert IsEffective(a, ctx, configB);
    EffectiveUnique(a, ctx, configA, configB);
  }

  /** Disabling an entry changes no outcome of any entry and never turns an allowed decision into a denied one. */
  lemma DisableIsMonotone(
      rules: Rules, id: string, judge: (Definition, Context) -> bool, ctx: Context, before: Config, after: Config)
    requires id in rules
    requires IsEffective(rules, ctx, before) && IsEffective(rules[id := rules[id].(enabled := false)], ctx, after)
    ensures var disabled := rules[id := rules[id].(enabled := false)];
      && before == after
      && (forall x :: x in rules ==>
            EvaluateEntry(rules, LeafOf(rules, judge, ctx.(config := before)), x, {})
            == EvaluateEntry(disabled, LeafOf(disabled, judge, ctx.(config := after)), x, {}))
      && (Allows(rules, LeafOf(rules, judge, ctx.(config := before))) ==>
            Allows(disabled, LeafOf(disabled, judge, ctx.(config := after))))
  {
    hide IsEffective, EvaluateEntry;
    var disabled := rules[id := rules[id].(enabled := false)];
    SameEffective(rules, disabled, ctx, before, after);
    var leafA, leafB := LeafOf(rules, judge, ctx.(config := before)), LeafOf(disabled, judge, ctx.(config := after));
    forall x | x in rules
      ensures EvaluateEntry(rules, leafA, x, {}) == EvaluateEntry(disabled, leafB, x, {})
    {
      EvaluationIgnoresFlags(rules, disabled, leafA, x, {});
      SameLeaf(disabled, leafA, leafB, x, {});
    }
  }

  lemma {:induction false} SameLeaf(
      rules: Rules, leafA: string -> bool, leafB: string -> bool, id: string, visiting: set<string>)
    requires id in rules && forall x :: x in rules ==> leafA(x) == leafB(x)
    ensures EvaluateEntry(rules, leafA, id, visiting) == EvaluateEntry(rules, leafB, id, visiting)
    decreases |rules.Keys - visiting|
  {
    var d := rules[id].definition;
    if d.Composition? && id !in visiting {
      VisitingGrows(rules.Keys, visiting, id);
      var registered := Registered(rules, d.children);
      forall i | 0 <= i < |registered|
        ensures EvaluateEntry(rules, leafA, registered[i], visiting + {id}) ==
                EvaluateEntry(rules, leafB, registered[i], visiting + {id})
      {
        assert registered[i] in registered;
        SameLeaf(rules, leafA, leafB, registered[i], visiting + {id});
      }
      assert
        seq(|registered|,
          i requires 0 <= i < |registered| => EvaluateEntry(rules, leafA, registered[i], visiting + {id}))
        == seq(|registered|,
          i requires 0 <= i < |registered| => EvaluateEntry(rules, leafB, registered[i], visiting + {id}));
    }
  }

  // ---------- the engine ----------

  class Engine {
    var rules: Rules
    var orderCounter: nat

    ghost predicate Valid()
      reads this
    {
      ValidRules(rules, orderCounter)
    }

    /** The built-in rules in order, all enabled. */
    constructor (defaults: seq<Definition>)
      requires DistinctBuiltIns(defaults)
      ensures Valid() && orderCounter == |defaults| && HoldsExactly(rules, defaults, |defaults|, [])
    {
      rules, orderCounter := map[], 0;
      new;
      for i := 0 to |defaults|
        invariant Valid() && orderCounter == i && HoldsExactly(rules, defaults[..i], |defaults|, [])
      {
        AddBuiltIn(rules, defaults, i);
        rules := rules[defaults[i].ruleId := Entry(defaults[i], orderCounter, Default, true)];
        orderCounter := orderCounter + 1;
      }
      assert defaults[..|defaults|] == defaults;
    }

    /**
     * An engine from its options: the built-in rules, then custom rules, then compositions, less the disabled ids.
     * Fails exactly when an id is taken or a `not` has no single child.
     */
    static method Create(
        defaults: seq<Definition>, customs: seq<Definition>, disabled: seq<string>)
      returns (r: Result<Engine, string>)
      requires DistinctBuiltIns(defaults)
      ensures r.Ok? <==> Registrable(defaults + customs)
      ensures r.Ok? ==> fresh(r.value) && r.value.Valid() && r.value.orderCounter == |defaults| + |customs|
      ensures r.Ok? ==> HoldsExactly(r.value.rules, defaults + customs, |defaults|, disabled)
    {
      hide HoldsExactly, ValidRules, Registrable, WellFormedDefinition, DistinctBuiltIns;
      var engine := new Engine(defaults);
      ghost var all, b := defaults + customs, |defaults|;
      assert all[..b] == defaults;
      for i := 0 to |customs|
        invariant fresh(engine) && engine.Valid() && engine.orderCounter == b + i
        invariant HoldsExactly(engine.rules, all[..b + i], b, [])
      {
        assert all[b + i] == customs[i];
        ghost var before := engine.rules;
        var registered := engine.Register(customs[i]);
        if registered.Err? {
          RefusedIsUnregistrable(before, all, b, b + i);
          return Err(registered.error);
        }
        AddNext(before, all, b, b + i);
      }
      assert all[..b + |customs|] == all;
      RegisteredIsRegistrable(engine.rules, all, b, engine.orderCounter);
      for i := 0 to |disabled|
        invariant fresh(engine) && engine.Valid() && engine.orderCounter == b + |customs|
        invariant HoldsExactly(engine.rules, all, b, disabled[..i])
      {
        DisableNext(engine.rules, all, b, disabled[..i], disabled[i]);
        assert disabled[..i + 1] == disabled[..i] + [disabled[i]];
        var _ := engine.SetEnabled(disabled[i], false);
      }
      assert disabled[..|disabled|] == disabled;
      r := Ok(engine);
    }

    /** Registers a custom rule or composition; refuses a taken id and a `not` without exactly one child. */
    method Register(definition: Definition) returns (r: Result<(), string>)
      requires Valid()
      modifies this
      ensures Valid()
      ensures r.Ok? <==> definition.ruleId !in old(rules) && WellFormedDefinition(definition)
      ensures r.Err? && definition.ruleId !in old(rules) ==> r.error == NOT_NEEDS_ONE_CHILD
      ensures r.Err? ==> rules == old(rules) && orderCounter == old(orderCounter)
      ensures r.Ok? ==> orderCounter == old(orderCounter) + 1
      ensures r.Ok? ==> rules == old(rules)[definition.ruleId := Entry(definition, old(orderCounter), Custom, true)]
    {
      if definition.ruleId in rules {
        return Err("Policy rule already registered: " + definition.ruleId);
      }
      if definition.Composition? && definition.operator == Not && |definition.children| != 1 {
        return Err(NOT_NEEDS_ONE_CHILD);
      }
      rules := rules[definition.ruleId := Entry(definition, orderCounter, Custom, true)];
      orderCounter := orderCounter + 1;
      r := Ok(());
    }

    method Unregister(ruleId: string) returns (removed: bool)
      requires Valid()
      modifies this
      ensures Valid() && orderCounter == old(orderCounter)
      ensures removed == (ruleId in old(rules)) && rules == old(rules) - {ruleId}
    {
      removed := ruleId in rules;
      rules := rules - {ruleId};
    }

    method SetEnabled(ruleId: string, enabled: bool) returns (found: bool)
      requires Valid()
      modifies this
      ensures Valid() && orderCounter == old(orderCounter) && found == (ruleId in old(rules))
      ensures rules == if found then old(rules)[ruleId := old(rules)[ruleId].(enabled := enabled)] else old(rules)
    {
      found := ruleId in rules;
      if found {
        rules := rules[ruleId := rules[ruleId].(enabled := enabled)];
      }
    }

    method SortedEntries() returns (listing: seq<Entry>)
      requires Valid()
      ensures IsListing(rules, listing)
    {
      var keys, values: seq<Entry> := rules.Keys, [];
      while keys != {}
        invariant keys <= rules.Keys && Collected(rules, keys, values)
        decreases |keys|
      {
        var id :| id in keys;
        CollectOne(rules, orderCounter, keys, values, id);
        keys := keys - {id};
        values := values + [rules[id]];
      }
      listing := Sorting.Sort(AtOrBefore, values);
      SortGivesListing(rules, values);
    }

    /** The context with the built-in configuration overridden by the custom configuration. */
    method EffectiveConfig(ctx: Context, listing: seq<Entry>) returns (config: Config)
      requires Valid() && IsListing(rules, listing)
      ensures IsEffective(rules, ctx, config)
    {
      hide EffectiveOver, IsListing, OverrideFor, Configurable;
      config := ctx.config;
      EffectiveNone(rules, ctx);
      for i := 0 to |listing|
        invariant EffectiveOver(rules, ctx, listing[..i], config)
      {
        var entry := listing[i];
        ListedIsRegistered(rules, orderCounter, listing, i);
        assert listing[..i + 1] == listing[..i] + [entry];
        if !Configurable(entry) {
          EffectiveSkip(rules, ctx, listing[..i], entry, config);
          continue;
        }
        var key := ConfigKey(entry);
        var value := OverrideFor(ctx.customRuleConfig, key, entry.definition.ruleId);
        if value == Undefined {
          EffectiveSkip(rules, ctx, listing[..i], entry, config);
          continue;
        }
        EffectiveSet(rules, orderCounter, ctx, listing[..i], entry, config);
        config := config[key := value];
      }
      assert listing[..|listing|] == listing;
      EffectiveAll(rules, ctx, listing, config);
    }

    /** Decides a context: the enabled entries in canonical order, each evaluated on its own. */
    method Evaluate(ctx: Context, judge: (Definition, Context) -> bool)
      returns (decision: Decision, ghost config: Config, ghost listing: seq<Entry>)
      requires Valid()
      ensures IsListing(rules, listing) && IsEffective(rules, ctx, config)
      ensures decision.intentId == ctx.intentId
      ensures decision.allowed <==> Allows(rules, LeafOf(rules, judge, ctx.(config := config)))
      ensures decision.contributions == EvaluateAll(rules, LeafOf(rules, judge, ctx.(config := config)), listing)
      ensures SpeaksForRules(rules, judge, ctx.(config := config), decision.contributions)
      ensures OnlyPlainRules(rules) ==>
        (decision.allowed <==>
         forall id :: id in rules && rules[id].enabled ==> judge(rules[id].definition, ctx.(config := config)))
    {
      var entries := SortedEntries();
      var effective := EffectiveConfig(ctx, entries);
      listing, config := entries, effective;
      var leaf := LeafOf(rules, judge, ctx.(config := effective));
      var contributions: seq<Contribution> := [];
      var allowed := true;
      for i := 0 to |entries|
        invariant contributions == EvaluateAll(rules, leaf, entries[..i])
        invariant allowed <==> forall e :: e in entries[..i] && e.enabled ==>
          e.definition.ruleId in rules && Passes(rules, leaf, e.definition.ruleId, {})
      {
        var entry := entries[i];
        assert entry in entries;
        assert entries[..i + 1] == entries[..i] + [entry];
        assert entries[..i + 1][..i] == entries[..i];
        if entry.enabled {
          var c := EvaluateEntry(rules, leaf, entry.definition.ruleId, {});
          contributions := contributions + [c];
          if !c.passed { allowed := false; }
        }
      }
      assert entries[..|entries|] == entries;
      forall id | id in rules
        ensures rules[id] in entries && rules[id].definition.ruleId == id
      {
        assert rules[id] in rules.Values;
      }
      AllSpeak(rules, orderCounter, judge, ctx.(config := effective), entries);
      decision := Decision(ctx.intentId, allowed, contributions);
    }
  }

  ghost function EvaluateAll(rules: Rules, leaf: string -> bool, listing: seq<Entry>): seq<Contribution> {
    if listing == [] then []
    else
      var last := listing[|listing| - 1];
      EvaluateAll(rules, leaf, listing[..|listing| - 1])
      + if last.enabled && last.definition.ruleId in rules
        then [EvaluateEntry(rules, leaf, last.definition.ruleId, {})] else []
  }

  lemma {:induction false} EvaluatedOnce(rules: Rules, leaf: string -> bool, listing: seq<Entry>)
    requires forall e :: e in listing ==> e.definition.ruleId in rules
    ensures var contributions := EvaluateAll(rules, leaf, listing);
      && (forall e :: e in listing && e.enabled ==>
            EvaluateEntry(rules, leaf, e.definition.ruleId, {}) in contributions)
      && forall c :: c in contributions ==>
           exists e :: e in listing && e.enabled && c == EvaluateEntry(rules, leaf, e.definition.ruleId, {})
  {
    hide EvaluateEntry;
    if listing != [] {
      var n := |listing| - 1;
      EvaluatedOnce(rules, leaf, listing[..n]);
      assert listing == listing[..n] + [listing[n]];
    }
  }

  lemma EntryNamesItself(rules: Rules, leaf: string -> bool, id: string)
    requires id in rules
    ensures EvaluateEntry(rules, leaf, id, {}).ruleId == id
    ensures rules[id].definition.Rule? ==> EvaluateEntry(rules, leaf, id, {}).passed == leaf(id)
  {
  }

  lemma AllSpeak(
      rules: Rules, counter: nat, judge: (Definition, Context) -> bool, ctx: Context, listing: seq<Entry>)
    requires ValidRules(rules, counter) && IsListing(rules, listing)
    ensures SpeaksForRules(rules, judge, ctx, EvaluateAll(rules, LeafOf(rules, judge, ctx), listing))
  {
    hide EvaluateEntry, EvaluateAll;
    var leaf := LeafOf(rules, judge, ctx);
    forall e | e in listing
      ensures e.definition.ruleId in rules && rules[e.definition.ruleId] == e
    {
    }
    EvaluatedOnce(rules, leaf, listing);
    forall id | id in rules
      ensures rules[id] in listing && rules[id].definition.ruleId == id
    {
      assert rules[id] in rules.Values;
      EntryNamesItself(rules, leaf, id);
    }
    forall id | id in rules
      ensures EvaluateEntry(rules, leaf, id, {}).ruleId == id
      ensures rules[id].definition.Rule? ==>
        EvaluateEntry(rules, leaf, id, {}).passed == judge(rules[id].definition, ctx)
    {
      EntryNamesItself(rules, leaf, id);
    }
  }

  lemma DistinctOrdersPermute(xs: seq<Entry>, ys: seq<Entry>)
    requires multiset(xs) == multiset(ys)
    requires forall i, j :: 0 <= i < j < |xs| ==> xs[i].order != xs[j].order
    ensures forall i, j :: 0 <= i < j < |ys| ==> ys[i].order != ys[j].order
  {
    assert NoRepeat(xs);
    NoRepeatPermutes(xs, ys);
    Sorting.SameElements(xs, ys);
    forall i, j | 0 <= i < j < |ys|
      ensures ys[i].order != ys[j].order
    {
      assert ys[i] in xs && ys[j] in xs && ys[i] != ys[j];
    }
  }
}
