/**
 * What the evaluator means. The compositions reachable from an entry form a system of boolean
 * equations, possibly cyclic. When every `not` goes strictly down some stratification, the
 * evaluator computes the system's stratified model: stratum by stratum the least solution.
 */
module PolicySemantics {
  import opened Common
  import opened PolicyEvaluation

  /** The children an entry is evaluated from; none for a plain rule. */
  ghost function Children(rules: Rules, id: string): seq<string>
    requires id in rules
  {
    match rules[id].definition
    case Rule(_, _, _) => []
    case Composition(_, _, _, children) => Registered(rules, children)
  }

  ghost predicate IsNot(rules: Rules, id: string)
    requires id in rules
  {
    rules[id].definition.Composition? && rules[id].definition.operator == Not
  }

  /** `scope` is closed under children; no edge goes up, and every `not` edge goes strictly down. */
  ghost predicate Stratified(rules: Rules, scope: set<string>, s: string -> nat) {
    && scope <= rules.Keys
    && forall id, c :: id in scope && c in Children(rules, id) ==>
         c in scope && s(c) <= s(id) && (IsNot(rules, id) ==> s(c) < s(id))
  }

  ghost predicate FixedPoint(rules: Rules, leaf: string -> bool, scope: set<string>, m: set<string>)
    requires scope <= rules.Keys
  {
    m <= scope && forall id :: id in scope ==> (id in m <==> Fires(rules, leaf, id, m))
  }

  /** `smaller` differs from m on stratum k only, and is closed under the rules there. */
  ghost predicate Undercuts(
      rules: Rules, leaf: string -> bool, scope: set<string>, s: string -> nat, m: set<string>, k: nat,
      smaller: set<string>)
    requires scope <= rules.Keys
  {
    && smaller <= m
    && (forall id :: id in m && s(id) != k ==> id in smaller)
    && (forall id :: id in scope && s(id) == k && Fires(rules, leaf, id, smaller) ==> id in smaller)
  }

  /** A fixed point that is least on every stratum. */
  ghost predicate IsModel(rules: Rules, leaf: string -> bool, scope: set<string>, s: string -> nat, m: set<string>)
    requires scope <= rules.Keys
  {
    && FixedPoint(rules, leaf, scope, m)
    && forall k, smaller :: Undercuts(rules, leaf, scope, s, m, k, smaller) ==> smaller == m
  }

  /** The entries of the scope that pass when evaluated on their own. */
  ghost function Verdicts(rules: Rules, leaf: string -> bool, scope: set<string>): set<string>
    requires scope <= rules.Keys
  {
    set id | id in scope && Passes(rules, leaf, id, {})
  }

  /** No visited entry lies at or below stratum k. */
  ghost predicate Above(scope: set<string>, s: string -> nat, visiting: set<string>, k: nat) {
    forall x :: x in visiting && x in scope ==> s(x) > k
  }

  lemma FiresMonotone(
      rules: Rules, leaf: string -> bool, scope: set<string>, s: string -> nat, id: string, a: set<string>,
      b: set<string>)
    requires Stratified(rules, scope, s) && id in scope && Fires(rules, leaf, id, a)
    requires forall x :: x in scope && s(x) <= s(id) && x in a ==> x in b
    requires forall x :: x in scope && s(x) < s(id) && x in b ==> x in a
    ensures Fires(rules, leaf, id, b)
  {
    if rules[id].definition.Composition? {
      var registered := Children(rules, id);
      assert forall c :: c in registered ==> c in scope && s(c) <= s(id);
      if IsNot(rules, id) {
        assert registered[0] in registered && s(registered[0]) < s(id);
      }
    }
  }

  // ---------- stages of one stratum ----------

  ghost function Below(rules: Rules, leaf: string -> bool, scope: set<string>, s: string -> nat, k: nat): set<string>
    requires scope <= rules.Keys
  {
    set id | id in Verdicts(rules, leaf, scope) && s(id) < k
  }

  /** What n rounds of the rules of stratum k derive from the verdicts below it. */
  ghost function Stage(
      rules: Rules, leaf: string -> bool, scope: set<string>, s: string -> nat, k: nat, n: nat): (r: set<string>)
    requires scope <= rules.Keys
    ensures forall x :: x in r ==> x in scope && s(x) <= k
    ensures forall x :: s(x) < k ==> (x in r <==> x in Verdicts(rules, leaf, scope))
  {
    if n == 0 then Below(rules, leaf, scope, s, k)
    else
      var previous := Stage(rules, leaf, scope, s, k, n - 1);
      Below(rules, leaf, scope, s, k) + (set id | id in scope && s(id) == k && Fires(rules, leaf, id, previous))
  }

  lemma {:induction false} StageGrows(
      rules: Rules, leaf: string -> bool, scope: set<string>, s: string -> nat, k: nat, n: nat)
    requires Stratified(rules, scope, s)
    ensures Stage(rules, leaf, scope, s, k, n) <= Stage(rules, leaf, scope, s, k, n + 1)
  {
    if n > 0 {
      StageGrows(rules, leaf, scope, s, k, n - 1);
      var a, b := Stage(rules, leaf, scope, s, k, n - 1), Stage(rules, leaf, scope, s, k, n);
      forall id | id in scope && s(id) == k && Fires(rules, leaf, id, a)
        ensures Fires(rules, leaf, id, b)
      {
        FiresMonotone(rules, leaf, scope, s, id, a, b);
      }
    }
  }

  lemma {:induction false} StageMonotone(
      rules: Rules, leaf: string -> bool, scope: set<string>, s: string -> nat, k: nat, n: nat, m: nat)
    requires Stratified(rules, scope, s) && n <= m
    ensures Stage(rules, leaf, scope, s, k, n) <= Stage(rules, leaf, scope, s, k, m)
    decreases m - n
  {
    if n < m {
      StageGrows(rules, leaf, scope, s, k, n);
      StageMonotone(rules, leaf, scope, s, k, n + 1, m);
    }
  }

  ghost predicate Derived(rules: Rules, leaf: string -> bool, scope: set<string>, s: string -> nat, id: string)
    requires scope <= rules.Keys
  {
    exists n: nat :: id in Stage(rules, leaf, scope, s, s(id), n)
  }

  /** Finitely many derived children are derived at one common stage. */
  lemma {:induction false} CommonStage(
      rules: Rules, leaf: string -> bool, scope: set<string>, s: string -> nat, k: nat, ids: seq<string>)
    returns (n: nat)
    requires Stratified(rules, scope, s)
    requires forall c :: c in ids ==> c in scope && s(c) <= k
    ensures forall c :: c in ids && s(c) == k && Derived(rules, leaf, scope, s, c) ==>
      c in Stage(rules, leaf, scope, s, k, n)
  {
    n := 0;
    if ids != [] {
      var c := ids[0];
      n := CommonStage(rules, leaf, scope, s, k, ids[1..]);
      if s(c) == k && Derived(rules, leaf, scope, s, c) {
        var m: nat :| c in Stage(rules, leaf, scope, s, k, m);
        var top := if m < n then n else m;
        StageMonotone(rules, leaf, scope, s, k, m, top);
        StageMonotone(rules, leaf, scope, s, k, n, top);
        n := top;
      }
    }
  }

  /** A rule that fires on derived children derives its own entry. */
  lemma DerivedStep(
      rules: Rules, leaf: string -> bool, scope: set<string>, s: string -> nat, id: string, truth: set<string>)
    requires Stratified(rules, scope, s) && id in scope && Fires(rules, leaf, id, truth)
    requires forall c :: c in Children(rules, id) && s(c) == s(id) && c in truth ==> Derived(rules, leaf, scope, s, c)
    requires forall c :: c in Children(rules, id) && s(c) < s(id) ==>
      (c in truth <==> c in Verdicts(rules, leaf, scope))
    ensures Derived(rules, leaf, scope, s, id)
  {
    var k := s(id);
    var n := CommonStage(rules, leaf, scope, s, k, Children(rules, id));
    var stage := Stage(rules, leaf, scope, s, k, n);
    var heard := set c | c in truth && c in Children(rules, id);
    if rules[id].definition.Composition? {
      var registered := Children(rules, id);
      assert registered[0] in registered;
      assert Fires(rules, leaf, id, heard);
    }
    assert forall x :: x in heard ==> x in stage;
    if IsNot(rules, id) {
      assert s(Children(rules, id)[0]) < k;
    }
    assert Fires(rules, leaf, id, stage);
    assert id in Stage(rules, leaf, scope, s, k, n + 1);
  }

  // ---------- the evaluator derives exactly what the stages derive ----------

  lemma {:induction false} EvaluationSound(
      rules: Rules, leaf: string -> bool, scope: set<string>, s: string -> nat, id: string,
      visiting: set<string>)
    requires Stratified(rules, scope, s) && id in scope && Passes(rules, leaf, id, visiting)
    requires forall x :: x in visiting && x in scope ==> s(x) >= s(id)
    ensures Derived(rules, leaf, scope, s, id)
    decreases s(id), 0, |rules.Keys - visiting|
  {
    var truth := set c | c in scope && Passes(rules, leaf, c, visiting + {id});
    if rules[id].definition.Composition? {
      VisitingGrows(rules.Keys, visiting, id);
      forall c | c in Children(rules, id) && s(c) == s(id) && c in truth
        ensures Derived(rules, leaf, scope, s, c)
      {
        EvaluationSound(rules, leaf, scope, s, c, visiting + {id});
      }
      forall c | c in Children(rules, id) && s(c) < s(id)
        ensures c in truth <==> c in Verdicts(rules, leaf, scope)
      {
        VisitedAboveIrrelevant(rules, leaf, scope, s, c, visiting + {id});
      }
    }
    EvaluateUnfolds(rules, leaf, id, visiting, truth);
    DerivedStep(rules, leaf, scope, s, id, truth);
  }

  /** The stage just before an entry first appears. */
  lemma {:induction false} FirstFires(
      rules: Rules, leaf: string -> bool, scope: set<string>, s: string -> nat, k: nat, id: string, n: nat)
    returns (m: nat)
    requires Stratified(rules, scope, s) && s(id) == k && id in Stage(rules, leaf, scope, s, k, n)
    ensures m < n && id !in Stage(rules, leaf, scope, s, k, m)
    ensures Fires(rules, leaf, id, Stage(rules, leaf, scope, s, k, m))
    ensures Stage(rules, leaf, scope, s, k, m) <= Stage(rules, leaf, scope, s, k, n)
  {
    m := n - 1;
    if id in Stage(rules, leaf, scope, s, k, n - 1) {
      m := FirstFires(rules, leaf, scope, s, k, id, n - 1);
    }
    StageMonotone(rules, leaf, scope, s, k, m, n);
  }

  lemma {:induction false} EvaluationComplete(
      rules: Rules, leaf: string -> bool, scope: set<string>, s: string -> nat, id: string, k: nat,
      visiting: set<string>, n: nat)
    requires Stratified(rules, scope, s) && id in scope && s(id) == k && id !in visiting
    requires id !in Stage(rules, leaf, scope, s, k, n) && Fires(rules, leaf, id, Stage(rules, leaf, scope, s, k, n))
    requires forall x :: x in visiting && x in scope ==> s(x) >= k && x !in Stage(rules, leaf, scope, s, k, n)
    ensures Passes(rules, leaf, id, visiting)
    decreases k, 0, n, 1
  {
    var stage := Stage(rules, leaf, scope, s, k, n);
    forall c | c in Children(rules, id) && s(c) == k && c in stage
      ensures Passes(rules, leaf, c, visiting + {id})
    {
      var m := FirstFires(rules, leaf, scope, s, k, c, n);
      EvaluationComplete(rules, leaf, scope, s, c, k, visiting + {id}, m);
    }
    CompleteStep(rules, leaf, scope, s, id, visiting, stage);
  }

  lemma {:induction false} CompleteStep(
      rules: Rules, leaf: string -> bool, scope: set<string>, s: string -> nat, id: string,
      visiting: set<string>, stage: set<string>)
    requires Stratified(rules, scope, s) && id in scope && id !in visiting && Fires(rules, leaf, id, stage)
    requires forall x :: x in visiting && x in scope ==> s(x) >= s(id)
    requires forall x :: s(x) < s(id) ==> (x in stage <==> x in Verdicts(rules, leaf, scope))
    requires forall c :: c in Children(rules, id) && s(c) == s(id) && c in stage ==>
      Passes(rules, leaf, c, visiting + {id})
    ensures Passes(rules, leaf, id, visiting)
    decreases s(id), 0, 0, 0
  {
    var children := Children(rules, id);
    var truth := set c | c in children && Passes(rules, leaf, c, visiting + {id});
    forall c | c in children && s(c) < s(id)
      ensures c in truth <==> c in stage
    {
      VisitedAboveIrrelevant(rules, leaf, scope, s, c, visiting + {id});
      assert c in Verdicts(rules, leaf, scope) <==> Passes(rules, leaf, c, {});
    }
    FiresOnChildren(rules, leaf, scope, s, id, stage, truth);
    EvaluateUnfolds(rules, leaf, id, visiting, truth);
  }

  lemma {:induction false} DerivedPasses(
      rules: Rules, leaf: string -> bool, scope: set<string>, s: string -> nat, id: string,
      visiting: set<string>)
    requires Stratified(rules, scope, s) && id in scope && Derived(rules, leaf, scope, s, id)
    requires Above(scope, s, visiting, s(id))
    ensures Passes(rules, leaf, id, visiting)
    decreases s(id), 1, 0
  {
    var n: nat :| id in Stage(rules, leaf, scope, s, s(id), n);
    var m := FirstFires(rules, leaf, scope, s, s(id), id, n);
    EvaluationComplete(rules, leaf, scope, s, id, s(id), visiting, m);
  }

  /** FiresMonotone, asking only about the children. */
  lemma FiresOnChildren(
      rules: Rules, leaf: string -> bool, scope: set<string>, s: string -> nat, id: string, a: set<string>,
      b: set<string>)
    requires Stratified(rules, scope, s) && id in scope && Fires(rules, leaf, id, a)
    requires forall c :: c in Children(rules, id) && c in a ==> c in b
    requires forall c :: c in Children(rules, id) && s(c) < s(id) && c in b ==> c in a
    ensures Fires(rules, leaf, id, b)
  {
    if IsNot(rules, id) {
      assert Children(rules, id)[0] in Children(rules, id);
    }
  }

  /** Ancestors from higher strata do not change an entry's outcome. */
  lemma {:induction false} VisitedAboveIrrelevant(
      rules: Rules, leaf: string -> bool, scope: set<string>, s: string -> nat, id: string,
      visiting: set<string>)
    requires Stratified(rules, scope, s) && id in scope && Above(scope, s, visiting, s(id))
    ensures Passes(rules, leaf, id, visiting) <==> Passes(rules, leaf, id, {})
    decreases s(id), 1, 1
  {
    if Passes(rules, leaf, id, visiting) {
      EvaluationSound(rules, leaf, scope, s, id, visiting);
      DerivedPasses(rules, leaf, scope, s, id, {});
    }
    if Passes(rules, leaf, id, {}) {
      EvaluationSound(rules, leaf, scope, s, id, {});
      DerivedPasses(rules, leaf, scope, s, id, visiting);
    }
  }

  lemma VerdictsAreDerived(rules: Rules, leaf: string -> bool, scope: set<string>, s: string -> nat, id: string)
    requires Stratified(rules, scope, s) && id in scope
    ensures id in Verdicts(rules, leaf, scope) <==> Derived(rules, leaf, scope, s, id)
  {
    if id in Verdicts(rules, leaf, scope) {
      EvaluationSound(rules, leaf, scope, s, id, {});
    }
    if Derived(rules, leaf, scope, s, id) {
      DerivedPasses(rules, leaf, scope, s, id, {});
    }
  }

  // ---------- the main theorem ----------

  /** Evaluating each entry afresh gives a consistent answer: every verdict follows from the children's verdicts. */
  lemma VerdictsFixedPoint(rules: Rules, leaf: string -> bool, scope: set<string>, s: string -> nat)
    requires Stratified(rules, scope, s)
    ensures FixedPoint(rules, leaf, scope, Verdicts(rules, leaf, scope))
  {
    var m := Verdicts(rules, leaf, scope);
    forall id | id in scope
      ensures id in m <==> Fires(rules, leaf, id, m)
    {
      VerdictsAreDerived(rules, leaf, scope, s, id);
      forall c | c in Children(rules, id) ensures c in m <==> Derived(rules, leaf, scope, s, c) {
        VerdictsAreDerived(rules, leaf, scope, s, c);
      }
      if Fires(rules, leaf, id, m) {
        DerivedStep(rules, leaf, scope, s, id, m);
      }
      if id in m {
        var k := s(id);
        var n: nat :| id in Stage(rules, leaf, scope, s, k, n);
        StageMonotone(rules, leaf, scope, s, k, n, n + 1);
        var stage := Stage(rules, leaf, scope, s, k, n);
        forall c | c in Children(rules, id) && c in stage ensures c in m {
          if s(c) == k { assert Derived(rules, leaf, scope, s, c); }
        }
        FiresOnChildren(rules, leaf, scope, s, id, stage, m);
      }
    }
  }

  lemma {:induction false} StageInside(
      rules: Rules, leaf: string -> bool, scope: set<string>, s: string -> nat, k: nat, n: nat,
      smaller: set<string>)
    requires Stratified(rules, scope, s)
    requires Undercuts(rules, leaf, scope, s, Verdicts(rules, leaf, scope), k, smaller)
    ensures Stage(rules, leaf, scope, s, k, n) <= smaller
  {
    if n > 0 {
      StageInside(rules, leaf, scope, s, k, n - 1, smaller);
      var previous := Stage(rules, leaf, scope, s, k, n - 1);
      forall id | id in scope && s(id) == k && Fires(rules, leaf, id, previous)
        ensures id in smaller
      {
        FiresMonotone(rules, leaf, scope, s, id, previous, smaller);
      }
    }
  }

  lemma VerdictsAreModel(rules: Rules, leaf: string -> bool, scope: set<string>, s: string -> nat)
    requires Stratified(rules, scope, s)
    ensures IsModel(rules, leaf, scope, s, Verdicts(rules, leaf, scope))
  {
    var m := Verdicts(rules, leaf, scope);
    VerdictsFixedPoint(rules, leaf, scope, s);
    forall k, smaller | Undercuts(rules, leaf, scope, s, m, k, smaller)
      ensures smaller == m
    {
      forall id | id in m
        ensures id in smaller
      {
        if s(id) == k {
          VerdictsAreDerived(rules, leaf, scope, s, id);
          var n: nat :| id in Stage(rules, leaf, scope, s, k, n);
          StageInside(rules, leaf, scope, s, k, n, smaller);
        }
      }
    }
  }

  lemma {:induction false} ModelsAgree(
      rules: Rules, leaf: string -> bool, scope: set<string>, s: string -> nat, m: set<string>, w: set<string>,
      k: nat)
    requires Stratified(rules, scope, s)
    requires IsModel(rules, leaf, scope, s, m) && IsModel(rules, leaf, scope, s, w)
    ensures forall id :: s(id) < k ==> (id in m <==> id in w)
  {
    if k > 0 {
      ModelsAgree(rules, leaf, scope, s, m, w, k - 1);
      ModelInside(rules, leaf, scope, s, m, w, k - 1);
      ModelInside(rules, leaf, scope, s, w, m, k - 1);
    }
  }

  lemma ModelInside(
      rules: Rules, leaf: string -> bool, scope: set<string>, s: string -> nat, m: set<string>, w: set<string>,
      k: nat)
    requires Stratified(rules, scope, s)
    requires IsModel(rules, leaf, scope, s, m) && FixedPoint(rules, leaf, scope, w)
    requires forall id :: s(id) < k ==> (id in m <==> id in w)
    ensures forall id :: s(id) == k && id in m ==> id in w
  {
    var smaller := set id | id in m && (s(id) == k ==> id in w);
    forall id | id in scope && s(id) == k && Fires(rules, leaf, id, smaller)
      ensures id in smaller
    {
      FiresMonotone(rules, leaf, scope, s, id, smaller, m);
      FiresMonotone(rules, leaf, scope, s, id, smaller, w);
    }
    assert Undercuts(rules, leaf, scope, s, m, k, smaller);
  }

  /** The evaluator computes the stratified model, and there is only one. */
  lemma StratifiedMeaning(rules: Rules, leaf: string -> bool, scope: set<string>, s: string -> nat, m: set<string>)
    requires Stratified(rules, scope, s)
    ensures IsModel(rules, leaf, scope, s, m) <==> m == Verdicts(rules, leaf, scope)
  {
    VerdictsAreModel(rules, leaf, scope, s);
    if IsModel(rules, leaf, scope, s, m) {
      var w := Verdicts(rules, leaf, scope);
      forall id
        ensures id in m <==> id in w
      {
        ModelsAgree(rules, leaf, scope, s, m, w, s(id) + 1);
      }
    }
  }

  // ---------- allOf / anyOf only: the least fixed point ----------

  ghost predicate ClosedUnderRules(rules: Rules, leaf: string -> bool, scope: set<string>, truth: set<string>)
    requires scope <= rules.Keys
  {
    forall id :: id in scope && Fires(rules, leaf, id, truth) ==> id in truth
  }

  ghost predicate Positive(rules: Rules, scope: set<string>) {
    && scope <= rules.Keys
    && forall id :: id in scope ==> !IsNot(rules, id) && forall c :: c in Children(rules, id) ==> c in scope
  }

  /** Cycles allowed: an entry passes exactly when every set closed under the rules contains it. */
  lemma LeastFixedPoint(rules: Rules, leaf: string -> bool, scope: set<string>, id: string)
    requires Positive(rules, scope) && id in scope
    ensures Passes(rules, leaf, id, {}) <==> forall truth :: ClosedUnderRules(rules, leaf, scope, truth) ==> id in truth
  {
    var flat := (x: string) => 0 as nat;
    var m := Verdicts(rules, leaf, scope);
    VerdictsAreModel(rules, leaf, scope, flat);
    if id in m {
      forall truth | ClosedUnderRules(rules, leaf, scope, truth)
        ensures id in truth
      {
        var smaller := m * truth;
        forall x | x in scope && Fires(rules, leaf, x, smaller)
          ensures x in smaller
        {
          FiresOnChildren(rules, leaf, scope, flat, x, smaller, m);
          FiresOnChildren(rules, leaf, scope, flat, x, smaller, truth);
        }
        assert Undercuts(rules, leaf, scope, flat, m, 0, smaller);
      }
    } else {
      assert ClosedUnderRules(rules, leaf, scope, m);
    }
  }

  // ---------- acyclic graphs, `not` included: the boolean formula ----------

  /** Every child has a strictly smaller rank. */
  ghost predicate Acyclic(rules: Rules, scope: set<string>, rank: string -> nat) {
    && scope <= rules.Keys
    && forall id, c :: id in scope && c in Children(rules, id) ==> c in scope && rank(c) < rank(id)
  }

  /** The boolean formula the composition graph denotes at `id`; no notion of visiting. */
  ghost predicate Denotes(rules: Rules, leaf: string -> bool, scope: set<string>, rank: string -> nat, id: string)
    requires Acyclic(rules, scope, rank) && id in scope
    decreases rank(id)
  {
    var children := Children(rules, id);
    match rules[id].definition
    case Rule(_, _, _) => leaf(id)
    case Composition(_, _, op, _) =>
      children != [] &&
      match op
      case AllOf => forall c :: c in children ==> Denotes(rules, leaf, scope, rank, c)
      case AnyOf => exists c :: c in children && Denotes(rules, leaf, scope, rank, c)
      case Not => !Denotes(rules, leaf, scope, rank, children[0])
  }

  /** Whatever ancestors are being visited, the outcome is the formula's value. */
  lemma {:induction false} AcyclicMeaning(
      rules: Rules, leaf: string -> bool, scope: set<string>, rank: string -> nat, id: string,
      ancestors: set<string>)
    requires Acyclic(rules, scope, rank) && id in scope && Above(scope, rank, ancestors, rank(id))
    ensures Passes(rules, leaf, id, ancestors) <==> Denotes(rules, leaf, scope, rank, id)
    decreases rank(id)
  {
    var truth := set c | c in Children(rules, id) && Denotes(rules, leaf, scope, rank, c);
    forall c | c in Children(rules, id)
      ensures c in truth <==> Passes(rules, leaf, c, ancestors + {id})
    {
      AcyclicMeaning(rules, leaf, scope, rank, c, ancestors + {id});
    }
    assert rules[id].definition.Composition? && Children(rules, id) != [] ==>
      Children(rules, id)[0] in Children(rules, id);
    EvaluateUnfolds(rules, leaf, id, ancestors, truth);
  }
}
