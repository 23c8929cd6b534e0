/** Where the meaning stops: cycles through `not`, and exactly which entries they make incoherent. */
module PolicyNegation {
  import opened Common
  import opened PolicyEvaluation
  import opened PolicySemantics

  /** The entry passes on its own exactly when its rule fires on the verdicts of all entries on their own. */
  ghost predicate IsCoherent(rules: Rules, leaf: string -> bool, scope: set<string>, id: string)
    requires scope <= rules.Keys && id in scope
  {
    var m := Verdicts(rules, leaf, scope);
    id in m <==> Fires(rules, leaf, id, m)
  }

  // ---------- entries on no cycle ----------

  ghost predicate IsClosed(rules: Rules, scope: set<string>) {
    scope <= rules.Keys && forall id, c :: id in scope && c in Children(rules, id) ==> c in scope
  }

  /** A visited entry that cannot be reached makes no difference. */
  lemma {:induction false} UnreachedIsIrrelevant(
      rules: Rules, leaf: string -> bool, reach: set<string>, id: string, visiting: set<string>, outside: string)
    requires IsClosed(rules, reach) && id in reach && outside !in reach
    ensures Passes(rules, leaf, id, visiting + {outside}) <==> Passes(rules, leaf, id, visiting)
    decreases |rules.Keys - visiting|
  {
    if rules[id].definition.Composition? && id !in visiting {
      VisitingGrows(rules.Keys, visiting, id);
      var truth := set c | c in Children(rules, id) && Passes(rules, leaf, c, visiting + {id});
      assert visiting + {outside} + {id} == visiting + {id} + {outside};
      forall c | c in Children(rules, id)
        ensures c in truth <==> Passes(rules, leaf, c, visiting + {outside} + {id})
      {
        UnreachedIsIrrelevant(rules, leaf, reach, c, visiting + {id}, outside);
      }
      EvaluateUnfolds(rules, leaf, id, visiting, truth);
      EvaluateUnfolds(rules, leaf, id, visiting + {outside}, truth);
    }
  }

  /** In any registry, an entry its own children cannot reach is coherent, whatever cycles lie below it. */
  lemma OffCycleIsCoherent(rules: Rules, leaf: string -> bool, scope: set<string>, reach: set<string>, id: string)
    requires scope <= rules.Keys && id in scope && reach <= scope
    requires IsClosed(rules, reach) && id !in reach && forall c :: c in Children(rules, id) ==> c in reach
    ensures IsCoherent(rules, leaf, scope, id)
  {
    var m := Verdicts(rules, leaf, scope);
    forall c | c in Children(rules, id)
      ensures c in m <==> Passes(rules, leaf, c, {} + {id})
    {
      UnreachedIsIrrelevant(rules, leaf, reach, c, {}, id);
    }
    EvaluateUnfolds(rules, leaf, id, {}, m);
  }

  // ---------- chains of negations ----------

  /** Every composition of the scope negates its one child, which is registered and in the scope. */
  ghost predicate AllNegations(rules: Rules, scope: set<string>) {
    && scope <= rules.Keys
    && forall id :: id in scope && rules[id].definition.Composition? ==>
         IsNot(rules, id) && |Children(rules, id)| == 1 && Children(rules, id)[0] in scope
  }

  /** The negated entry; a plain rule stays where it is. */
  ghost function Negated(rules: Rules, scope: set<string>, id: string): (next: string)
    requires AllNegations(rules, scope) && id in scope
    ensures next in scope
  {
    if rules[id].definition.Composition? then Children(rules, id)[0] else id
  }

  ghost function Walk(rules: Rules, scope: set<string>, id: string, n: nat): (end: string)
    requires AllNegations(rules, scope) && id in scope
    ensures end in scope
    decreases n
  {
    if n == 0 then id else Walk(rules, scope, Negated(rules, scope, id), n - 1)
  }

  lemma {:induction false} WalkAdds(rules: Rules, scope: set<string>, id: string, m: nat, n: nat)
    requires AllNegations(rules, scope) && id in scope
    ensures Walk(rules, scope, id, m + n) == Walk(rules, scope, Walk(rules, scope, id, m), n)
    decreases m
  {
    if m > 0 { WalkAdds(rules, scope, Negated(rules, scope, id), m - 1, n); }
  }

  lemma WalkFirst(rules: Rules, scope: set<string>, id: string)
    requires AllNegations(rules, scope) && id in scope
    ensures Walk(rules, scope, id, 0) == id && Walk(rules, scope, id, 1) == Negated(rules, scope, id)
  {
    assert Walk(rules, scope, Negated(rules, scope, id), 0) == Negated(rules, scope, id);
  }

  lemma {:induction false} RuleStays(rules: Rules, scope: set<string>, id: string, n: nat)
    requires AllNegations(rules, scope) && id in scope && rules[id].definition.Rule?
    ensures Walk(rules, scope, id, n) == id
    decreases n
  {
    if n > 0 { RuleStays(rules, scope, id, n - 1); }
  }

  /** Negating its way around, the entry comes back to itself. */
  ghost predicate OnCycle(rules: Rules, scope: set<string>, id: string)
    requires AllNegations(rules, scope) && id in scope
  {
    rules[id].definition.Composition? && exists n: nat :: n >= 1 && Walk(rules, scope, id, n) == id
  }

  /** The length of the cycle an entry is on. */
  ghost predicate IsPeriod(rules: Rules, scope: set<string>, id: string, period: nat)
    requires AllNegations(rules, scope) && id in scope
  {
    && period >= 1 && Walk(rules, scope, id, period) == id
    && forall m: nat :: 1 <= m < period ==> Walk(rules, scope, id, m) != id
  }

  lemma {:induction false} HasPeriod(rules: Rules, scope: set<string>, id: string, n: nat) returns (period: nat)
    requires AllNegations(rules, scope) && id in scope && n >= 1 && Walk(rules, scope, id, n) == id
    ensures IsPeriod(rules, scope, id, period)
    decreases n
  {
    period := n;
    if m: nat :| 1 <= m < n && Walk(rules, scope, id, m) == id {
      period := HasPeriod(rules, scope, id, m);
    }
  }

  /** The negated entry is on the same cycle. */
  lemma SamePeriod(rules: Rules, scope: set<string>, id: string, period: nat)
    requires AllNegations(rules, scope) && id in scope && IsPeriod(rules, scope, id, period)
    ensures IsPeriod(rules, scope, Negated(rules, scope, id), period)
  {
    hide Walk, AllNegations, Negated;
    var next := Negated(rules, scope, id);
    WalkFirst(rules, scope, id);
    WalkAdds(rules, scope, id, period, 1);
    WalkAdds(rules, scope, id, 1, period);
    WalkAdds(rules, scope, id, 1, period - 1);
    forall m: nat | 1 <= m < period
      ensures Walk(rules, scope, next, m) != next
    {
      WalkAdds(rules, scope, next, m, period - 1);
      WalkAdds(rules, scope, next, period - 1, m);
    }
  }

  ghost function Visited(rules: Rules, scope: set<string>, id: string, k: nat): set<string>
    requires AllNegations(rules, scope) && id in scope
  {
    set j | 0 <= j < k :: Walk(rules, scope, id, j)
  }

  lemma RestOfRound(rules: Rules, scope: set<string>, id: string, period: nat, k: nat)
    requires AllNegations(rules, scope) && id in scope && IsPeriod(rules, scope, id, period) && k < period
    ensures Walk(rules, scope, Walk(rules, scope, id, k), period - k) == id
  {
    hide Walk, AllNegations;
    WalkAdds(rules, scope, id, k, period - k);
    assert k + (period - k) == period;
  }

  lemma NotMetBefore(rules: Rules, scope: set<string>, id: string, period: nat, j: nat, k: nat)
    requires AllNegations(rules, scope) && id in scope && IsPeriod(rules, scope, id, period) && j < k < period
    ensures Walk(rules, scope, id, j) != Walk(rules, scope, id, k)
  {
    RestOfRound(rules, scope, id, period, k);
    hide Walk, AllNegations;
    var m := j + (period - k);
    assert Walk(rules, scope, id, m) != id;
    WalkAdds(rules, scope, id, j, period - k);
  }

  /** Within one round no entry is met twice. */
  lemma RoundIsFresh(rules: Rules, scope: set<string>, id: string, period: nat, k: nat)
    requires AllNegations(rules, scope) && id in scope && IsPeriod(rules, scope, id, period) && k < period
    ensures Walk(rules, scope, id, k) !in Visited(rules, scope, id, k)
  {
    hide Walk, AllNegations, IsPeriod;
    forall j: nat | j < k
      ensures Walk(rules, scope, id, j) != Walk(rules, scope, id, k)
    {
      NotMetBefore(rules, scope, id, period, j, k);
    }
  }

  /** And all entries of the round are negations. */
  lemma RoundIsNegations(rules: Rules, scope: set<string>, id: string, period: nat, k: nat)
    requires AllNegations(rules, scope) && id in scope && rules[id].definition.Composition?
    requires IsPeriod(rules, scope, id, period) && k < period
    ensures rules[Walk(rules, scope, id, k)].definition.Composition?
  {
    assert scope <= rules.Keys;
    hide Walk, AllNegations, IsPeriod;
    RestOfRound(rules, scope, id, period, k);
    var x := Walk(rules, scope, id, k);
    if rules[x].definition.Rule? {
      RuleStays(rules, scope, x, period - k);
    }
  }

  /** Evaluated k entries into the round, the outcome alternates with the distance to the cut. */
  lemma {:induction false} RoundAlternates(
      rules: Rules, leaf: string -> bool, scope: set<string>, id: string, period: nat, k: nat)
    requires AllNegations(rules, scope) && id in scope && rules[id].definition.Composition?
    requires IsPeriod(rules, scope, id, period) && k <= period
    ensures Passes(rules, leaf, Walk(rules, scope, id, k), Visited(rules, scope, id, k)) <==> (period - k) % 2 == 1
    decreases period - k
  {
    hide Walk, AllNegations, Visited;
    var x, visited := Walk(rules, scope, id, k), Visited(rules, scope, id, k);
    if k == period {
      StartIsVisited(rules, scope, id, k);
    } else {
      RoundIsFresh(rules, scope, id, period, k);
      RoundIsNegations(rules, scope, id, period, k);
      RoundAlternates(rules, leaf, scope, id, period, k + 1);
      WalkAdds(rules, scope, id, k, 1);
      WalkFirst(rules, scope, x);
      VisitedGrows(rules, scope, id, k);
      NegationStep(rules, leaf, scope, x, visited);
    }
  }

  lemma StartIsVisited(rules: Rules, scope: set<string>, id: string, k: nat)
    requires AllNegations(rules, scope) && id in scope && k >= 1
    ensures id in Visited(rules, scope, id, k)
  {
    assert Walk(rules, scope, id, 0) == id;
  }

  lemma VisitedGrows(rules: Rules, scope: set<string>, id: string, k: nat)
    requires AllNegations(rules, scope) && id in scope
    ensures Visited(rules, scope, id, k + 1) == Visited(rules, scope, id, k) + {Walk(rules, scope, id, k)}
  {
    hide Walk;
  }

  /** A negation not yet visited passes exactly when what it negates does not. */
  lemma NegationStep(rules: Rules, leaf: string -> bool, scope: set<string>, x: string, visited: set<string>)
    requires AllNegations(rules, scope) && x in scope && rules[x].definition.Composition? && x !in visited
    ensures Passes(rules, leaf, x, visited) <==> !Passes(rules, leaf, Negated(rules, scope, x), visited + {x})
  {
    var truth := set c | c in Children(rules, x) && Passes(rules, leaf, c, visited + {x});
    EvaluateUnfolds(rules, leaf, x, visited, truth);
  }

  /** On a cycle an entry passes exactly when the cycle is odd. */
  lemma CycleVerdict(rules: Rules, leaf: string -> bool, scope: set<string>, id: string, period: nat)
    requires AllNegations(rules, scope) && id in scope && rules[id].definition.Composition?
    requires IsPeriod(rules, scope, id, period)
    ensures Passes(rules, leaf, id, {}) <==> period % 2 == 1
  {
    assert Visited(rules, scope, id, 0) == {};
    hide Walk, AllNegations, IsPeriod, Passes, Visited;
    WalkFirst(rules, scope, id);
    RoundAlternates(rules, leaf, scope, id, period, 0);
  }

  lemma CoherentNegation(rules: Rules, leaf: string -> bool, scope: set<string>, id: string)
    requires AllNegations(rules, scope) && id in scope && rules[id].definition.Composition?
    ensures IsCoherent(rules, leaf, scope, id) <==>
      (Passes(rules, leaf, id, {}) <==> !Passes(rules, leaf, Negated(rules, scope, id), {}))
  {
  }

  /** All entries of a cycle of negations get one verdict, which no negation can agree with. */
  lemma OnCycleIsIncoherent(rules: Rules, leaf: string -> bool, scope: set<string>, id: string)
    requires AllNegations(rules, scope) && id in scope && OnCycle(rules, scope, id)
    ensures !IsCoherent(rules, leaf, scope, id)
  {
    var n: nat :| n >= 1 && Walk(rules, scope, id, n) == id;
    hide Walk, IsPeriod, Passes, IsCoherent, Negated, AllNegations;
    var period := HasPeriod(rules, scope, id, n);
    SamePeriod(rules, scope, id, period);
    RuleOnNoCycle(rules, scope, id, period);
    CycleVerdict(rules, leaf, scope, id, period);
    CycleVerdict(rules, leaf, scope, Negated(rules, scope, id), period);
    CoherentNegation(rules, leaf, scope, id);
  }

  lemma RuleOnNoCycle(rules: Rules, scope: set<string>, id: string, period: nat)
    requires AllNegations(rules, scope) && id in scope && rules[id].definition.Composition?
    requires IsPeriod(rules, scope, id, period)
    ensures rules[Negated(rules, scope, id)].definition.Composition?
  {
    assert scope <= rules.Keys;
    hide Walk, AllNegations;
    var next := Negated(rules, scope, id);
    WalkAdds(rules, scope, id, 1, period - 1);
    WalkFirst(rules, scope, id);
    if rules[next].definition.Rule? {
      RuleStays(rules, scope, next, period - 1);
    }
  }

  /** Among entries that negate one another, an entry is coherent if and only if it is on no cycle. */
  lemma NegationCoherentIff(rules: Rules, leaf: string -> bool, scope: set<string>, id: string)
    requires AllNegations(rules, scope) && id in scope
    ensures IsCoherent(rules, leaf, scope, id) <==> !OnCycle(rules, scope, id)
  {
    assert scope <= rules.Keys;
    hide OnCycle, IsReached, IsCoherent, Walk, AllNegations;
    if OnCycle(rules, scope, id) {
      OnCycleIsIncoherent(rules, leaf, scope, id);
    } else if rules[id].definition.Composition? {
      OffCycleNegation(rules, leaf, scope, id);
    } else {
      RuleIsCoherent(rules, leaf, scope, id);
    }
  }

  lemma OffCycleNegation(rules: Rules, leaf: string -> bool, scope: set<string>, id: string)
    requires AllNegations(rules, scope) && id in scope && rules[id].definition.Composition?
    requires !OnCycle(rules, scope, id)
    ensures IsCoherent(rules, leaf, scope, id)
  {
    assert forall c :: c in Children(rules, id) ==> c == Negated(rules, scope, id);
    hide OnCycle, IsReached, IsCoherent, Walk, AllNegations, IsClosed;
    var next := Negated(rules, scope, id);
    var reach := set x | x in scope && IsReached(rules, scope, next, x);
    ReachIsClosed(rules, scope, next, reach);
    NotReached(rules, scope, id);
    OffCycleIsCoherent(rules, leaf, scope, reach, id);
  }

  lemma RuleIsCoherent(rules: Rules, leaf: string -> bool, scope: set<string>, id: string)
    requires AllNegations(rules, scope) && id in scope && rules[id].definition.Rule?
    ensures IsCoherent(rules, leaf, scope, id) && !OnCycle(rules, scope, id)
  {
  }

  lemma ReachIsClosed(rules: Rules, scope: set<string>, from: string, reach: set<string>)
    requires AllNegations(rules, scope) && from in scope
    requires forall x :: x in reach <==> x in scope && IsReached(rules, scope, from, x)
    ensures IsClosed(rules, reach) && from in reach
  {
    hide Walk;
    WalkFirst(rules, scope, from);
    forall x, c | x in reach && c in Children(rules, x)
      ensures c in reach
    {
      NextIsReached(rules, scope, from, x);
    }
  }

  lemma NextIsReached(rules: Rules, scope: set<string>, from: string, x: string)
    requires AllNegations(rules, scope) && from in scope && x in scope && IsReached(rules, scope, from, x)
    ensures IsReached(rules, scope, from, Negated(rules, scope, x))
  {
    var k: nat :| Walk(rules, scope, from, k) == x;
    hide Walk, AllNegations;
    WalkAdds(rules, scope, from, k, 1);
    WalkFirst(rules, scope, x);
  }

  ghost predicate IsReached(rules: Rules, scope: set<string>, from: string, x: string)
    requires AllNegations(rules, scope) && from in scope
  {
    exists k: nat :: Walk(rules, scope, from, k) == x
  }

  lemma NotReached(rules: Rules, scope: set<string>, id: string)
    requires AllNegations(rules, scope) && id in scope && rules[id].definition.Composition?
    requires !OnCycle(rules, scope, id)
    ensures !IsReached(rules, scope, Negated(rules, scope, id), id)
  {
    forall k: nat
      ensures Walk(rules, scope, Negated(rules, scope, id), k) != id
    {
      assert Walk(rules, scope, id, k + 1) == Walk(rules, scope, Negated(rules, scope, id), k);
    }
  }

  /** So their verdicts are consistent with each other if and only if no entry is on a cycle. */
  lemma VerdictsConsistentIff(rules: Rules, leaf: string -> bool, scope: set<string>)
    requires AllNegations(rules, scope)
    ensures FixedPoint(rules, leaf, scope, Verdicts(rules, leaf, scope)) <==>
      forall id :: id in scope ==> !OnCycle(rules, scope, id)
  {
    assert scope <= rules.Keys;
    hide OnCycle, AllNegations;
    forall id | id in scope
      ensures IsCoherent(rules, leaf, scope, id) <==> !OnCycle(rules, scope, id)
    {
      NegationCoherentIff(rules, leaf, scope, id);
    }
  }

  ghost predicate Negates(rules: Rules, a: string, b: string) {
    a in rules && IsNot(rules, a) && Children(rules, a) == [b]
  }

  /**
   * In any registry, two entries that negate each other are both refused, although each refusal should let the
   * other pass.
   */
  lemma MutualNegationIsIncoherent(rules: Rules, leaf: string -> bool, a: string, b: string)
    requires a in rules && b in rules && a != b && Negates(rules, a, b) && Negates(rules, b, a)
    ensures !Passes(rules, leaf, a, {}) && !Passes(rules, leaf, b, {})
    ensures Fires(rules, leaf, a, Verdicts(rules, leaf, {a, b})) && Fires(rules, leaf, b, Verdicts(rules, leaf, {a, b}))
  {
    RefusedByTheOther(rules, leaf, a, b);
    RefusedByTheOther(rules, leaf, b, a);
  }

  lemma RefusedByTheOther(rules: Rules, leaf: string -> bool, a: string, b: string)
    requires a in rules && b in rules && a != b && Negates(rules, a, b) && Negates(rules, b, a)
    ensures !Passes(rules, leaf, a, {})
  {
    assert !Passes(rules, leaf, a, {a} + {b});
    EvaluateUnfolds(rules, leaf, b, {a}, {});
    assert {} + {a} == {a};
    EvaluateUnfolds(rules, leaf, a, {}, {b});
  }
}
