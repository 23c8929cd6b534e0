/** Registered policy entries and the recursive evaluator of compositions. */
module PolicyEvaluation {
  import opened Common

  datatype Operator = AllOf | AnyOf | Not

  datatype Definition =
    | Rule(ruleId: string, priority: Option<int>, configKey: Option<string>)
    | Composition(ruleId: string, priority: Option<int>, operator: Operator, children: seq<string>)

  datatype Source = Default | Custom

  datatype Entry = Entry(definition: Definition, order: nat, source: Source, enabled: bool)

  type Rules = map<string, Entry>

  datatype Explanation =
    | Leaf
    | CycleDetected
    | NoRegisteredChildren
    | Composed(operator: Operator, children: seq<Contribution>)

  datatype Contribution = Contribution(ruleId: string, passed: bool, why: Explanation)

  /** The children that are registered, in order. */
  function Registered(rules: Rules, children: seq<string>): (r: seq<string>)
    ensures forall c :: c in r <==> c in children && c in rules
    ensures |r| <= |children|
  {
    if children == [] then []
    else (if children[0] in rules then [children[0]] else []) + Registered(rules, children[1..])
  }

  function Combine(op: Operator, outcomes: seq<Contribution>): bool
    requires outcomes != []
  {
    match op
    case AllOf => forall c :: c in outcomes ==> c.passed
    case AnyOf => exists c :: c in outcomes && c.passed
    case Not => !outcomes[0].passed
  }

  lemma VisitingGrows(keys: set<string>, visiting: set<string>, id: string)
    requires id in keys && id !in visiting
    ensures |keys - (visiting + {id})| < |keys - visiting|
  {
    assert keys - (visiting + {id}) == (keys - visiting) - {id};
  }

  /**
   * Evaluates one entry, cutting compositions that are already being visited.
   * `leaf` says which plain rules pass in the context at hand. Terminates on every registry, cyclic or not.
   */
  function EvaluateEntry(rules: Rules, leaf: string -> bool, id: string, visiting: set<string>): Contribution
    requires id in rules
    decreases |rules.Keys - visiting|
  {
    match rules[id].definition
    case Rule(_, _, _) => Contribution(id, leaf(id), Leaf)
    case Composition(_, _, op, children) =>
      if id in visiting then Contribution(id, false, CycleDetected)
      else
        var registered := Registered(rules, children);
        if registered == [] then Contribution(id, false, NoRegisteredChildren)
        else
          VisitingGrows(rules.Keys, visiting, id);
          var outcomes := seq(|registered|, i requires 0 <= i < |registered| =>
            EvaluateEntry(rules, leaf, registered[i], visiting + {id}));
          Contribution(id, Combine(op, outcomes), Composed(op, outcomes))
  }

  predicate Passes(rules: Rules, leaf: string -> bool, id: string, visiting: set<string>)
    requires id in rules
  {
    EvaluateEntry(rules, leaf, id, visiting).passed
  }

  /** One step of the rule system: does `id` hold when exactly the entries in `truth` hold? */
  ghost predicate Fires(rules: Rules, leaf: string -> bool, id: string, truth: set<string>)
    requires id in rules
  {
    match rules[id].definition
    case Rule(_, _, _) => leaf(id)
    case Composition(_, _, op, children) =>
      var registered := Registered(rules, children);
      registered != [] &&
      match op
      case AllOf => forall c :: c in registered ==> c in truth
      case AnyOf => exists c :: c in registered && c in truth
      case Not => registered[0] !in truth
  }

  /** The evaluator takes one step and asks the children, with `id` added to the visited entries. */
  lemma EvaluateUnfolds(rules: Rules, leaf: string -> bool, id: string, visiting: set<string>, truth: set<string>)
    requires id in rules && (rules[id].definition.Composition? ==> id !in visiting)
    requires rules[id].definition.Composition? ==>
      forall c :: c in Registered(rules, rules[id].definition.children) ==>
        (c in truth <==> Passes(rules, leaf, c, visiting + {id}))
    ensures Passes(rules, leaf, id, visiting) <==> Fires(rules, leaf, id, truth)
  {
    if rules[id].definition.Composition? {
      var registered := Registered(rules, rules[id].definition.children);
      if registered != [] {
        var outcomes := seq(|registered|, i requires 0 <= i < |registered| =>
          EvaluateEntry(rules, leaf, registered[i], visiting + {id}));
        assert EvaluateEntry(rules, leaf, id, visiting).passed == Combine(rules[id].definition.operator, outcomes);
        forall i | 0 <= i < |registered|
          ensures outcomes[i] in outcomes && registered[i] in registered
          ensures outcomes[i].passed <==> registered[i] in truth
        {
          assert Passes(rules, leaf, registered[i], visiting + {id}) <==> registered[i] in truth;
        }
        CombineReads(rules[id].definition.operator, registered, outcomes, truth);
      }
    }
  }

  lemma CombineReads(op: Operator, registered: seq<string>, outcomes: seq<Contribution>, truth: set<string>)
    requires registered != [] && |outcomes| == |registered|
    requires forall i :: 0 <= i < |registered| ==> (outcomes[i].passed <==> registered[i] in truth)
    ensures Combine(op, outcomes) <==>
      match op
      case AllOf => (forall c :: c in registered ==> c in truth)
      case AnyOf => (exists c :: c in registered && c in truth)
      case Not => registered[0] !in truth
  {
    match op
    case AllOf =>
      if forall c :: c in registered ==> c in truth {
        assert forall i :: 0 <= i < |registered| ==> registered[i] in registered;
      } else {
        var i :| 0 <= i < |registered| && registered[i] !in truth;
        assert outcomes[i] in outcomes;
      }
    case AnyOf =>
      if c :| c in registered && c in truth {
        var i :| 0 <= i < |registered| && registered[i] == c;
        assert outcomes[i] in outcomes;
      } else {
        assert forall i :: 0 <= i < |registered| ==> registered[i] in registered;
      }
    case Not =>
  }
}
