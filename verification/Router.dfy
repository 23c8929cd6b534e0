/** The multi-hop router: index, search, dedupe, quote, sort. */
module Router {
  import opened Common
  import opened RouteTypes
  import opened RouteKeys
  import opened RoutePaths
  import opened RoutePlans
  import opened AdapterRegistry
  import Sorting

  datatype RouterOptions = RouterOptions(maxQuotes: int, maxHops: int, weights: Weights)

  const DEFAULT_OPTIONS := RouterOptions(8, 3, DEFAULT_WEIGHTS)

  datatype Routing = Routing(best: RoutePlan, alternates: seq<RoutePlan>)

  function EffectiveHops(maxHops: int): int {
    if maxHops < 1 then 1 else maxHops
  }

  // ---------- what a routing has to be ----------

  /** A pair that one of these adapters offers, supports and may be used for. */
  ghost predicate IsUsable(adapters: seq<Adapter>, market: Market, e: Edge) {
    && e.adapter in adapters
    && market.canUseAdapter(e.adapter)
    && Pair(e.base, e.quote) in e.adapter.pairs
    && market.supportsPair(e.adapter.id, e.base, e.quote)
    && e.supportLevel == e.adapter.supportLevel
  }

  ghost function UsableEdges(adapters: seq<Adapter>, market: Market): (edges: set<Edge>)
    ensures forall e :: e in edges <==> IsUsable(adapters, market, e)
  {
    set a, pair |
      a in adapters && pair in a.pairs && market.canUseAdapter(a) && market.supportsPair(a.id, pair.base, pair.quote)
      :: Edge(a, pair.base, pair.quote, a.supportLevel)
  }

  ghost predicate IsRoutePath(adapters: seq<Adapter>, opts: RouterOptions, market: Market, intent: Intent, p: Path) {
    LegalPath(
      UsableEdges(Limited(adapters, opts.maxQuotes), market),
      intent.baseAsset, intent.quoteAsset, EffectiveHops(opts.maxHops), p)
  }

  /** A plan some legal path is quoted at. */
  ghost predicate IsLegalPlan(
      adapters: seq<Adapter>, opts: RouterOptions, market: Market, intent: Intent, plan: RoutePlan)
  {
    exists p :: IsRoutePath(adapters, opts, market, intent, p) && IsPlanFor(market, intent, opts.weights, p, plan)
  }

  predicate NotWorse(a: RoutePlan, b: RoutePlan) {
    a.score >= b.score
  }

  /** All legal plans, each once, in non-increasing order of score. */
  ghost predicate IsRouting(adapters: seq<Adapter>, opts: RouterOptions, market: Market, intent: Intent, r: Routing) {
    var plans := [r.best] + r.alternates;
    && (forall plan :: plan in plans <==> IsLegalPlan(adapters, opts, market, intent, plan))
    && NoRepeat(plans)
    && Sorting.SortedBy(NotWorse, plans)
  }

  // ---------- what the search follows ----------

  /** The assets the search knows: the intent's two and those of every usable pair. */
  ghost function NamesOf(edges: set<Edge>, intent: Intent): set<string> {
    {intent.baseAsset, intent.quoteAsset} + (set e | e in edges :: e.base) + (set e | e in edges :: e.quote)
  }

  /** The hops reached through the string index: those whose key is the key of a usable pair. */
  ghost function FollowedEdges(edges: set<Edge>, intent: Intent): (followed: set<Edge>)
    ensures forall f :: f in followed <==> exists e :: e in edges && Follows(edges, intent, e, f)
  {
    set e, base, quote | e in edges && base in NamesOf(edges, intent) && quote in NamesOf(edges, intent)
        && PairKey(e.base, e.quote) == PairKey(base, quote)
      :: Retarget(e, base, quote)
  }

  ghost predicate Follows(edges: set<Edge>, intent: Intent, e: Edge, f: Edge) {
    && f.base in NamesOf(edges, intent) && f.quote in NamesOf(edges, intent)
    && PairKey(e.base, e.quote) == PairKey(f.base, f.quote) && f == Retarget(e, f.base, f.quote)
  }

  lemma UsableIsFollowed(edges: set<Edge>, intent: Intent)
    ensures edges <= FollowedEdges(edges, intent)
  {
    forall e | e in edges
      ensures e in FollowedEdges(edges, intent)
    {
      assert Follows(edges, intent, e, e);
    }
  }

  /** Another known pair than the offered one, with the same key. */
  ghost predicate Collides(edges: set<Edge>, intent: Intent, e: Edge, base: string, quote: string) {
    && e in edges && base in NamesOf(edges, intent) && quote in NamesOf(edges, intent)
    && (Overlaps(e.base, e.quote, base, quote) || Overlaps(base, quote, e.base, e.quote))
  }

  ghost predicate CollisionsAreOffered(edges: set<Edge>, intent: Intent) {
    forall e, base, quote :: Collides(edges, intent, e, base, quote) ==> Retarget(e, base, quote) in edges
  }

  /**
   * The search follows only hops that are offered if and only if every known pair that collides
   * with an offered one is offered by that adapter too.
   */
  lemma FollowsOnlyOfferedIff(edges: set<Edge>, intent: Intent)
    ensures FollowedEdges(edges, intent) == edges <==> CollisionsAreOffered(edges, intent)
  {
    hide FollowedEdges, Follows, CollisionsAreOffered;
    UsableIsFollowed(edges, intent);
    if CollisionsAreOffered(edges, intent) {
      forall f | f in FollowedEdges(edges, intent)
        ensures f in edges
      {
        var e :| e in edges && Follows(edges, intent, e, f);
        OfferedIsFollowed(edges, intent, e, f);
      }
    }
    if FollowedEdges(edges, intent) == edges {
      FollowedIsOffered(edges, intent);
    }
  }

  lemma OfferedIsFollowed(edges: set<Edge>, intent: Intent, e: Edge, f: Edge)
    requires CollisionsAreOffered(edges, intent) && e in edges && Follows(edges, intent, e, f)
    ensures f in edges
  {
    hide Overlaps, PairKey, NamesOf;
    PairKeysCollideIff(e.base, e.quote, f.base, f.quote);
    assert Collides(edges, intent, e, f.base, f.quote) || f == e;
  }

  lemma FollowedIsOffered(edges: set<Edge>, intent: Intent)
    requires FollowedEdges(edges, intent) == edges
    ensures CollisionsAreOffered(edges, intent)
  {
    hide FollowedEdges, Overlaps, PairKey, NamesOf;
    forall e, base, quote | Collides(edges, intent, e, base, quote)
      ensures Retarget(e, base, quote) in edges
    {
      PairKeysCollideIff(e.base, e.quote, base, quote);
      assert Follows(edges, intent, e, Retarget(e, base, quote));
    }
  }

  ghost predicate IsCandidate(adapters: seq<Adapter>, opts: RouterOptions, market: Market, intent: Intent, p: Path) {
    LegalPath(FollowedEdges(UsableEdges(Limited(adapters, opts.maxQuotes), market), intent),
              intent.baseAsset, intent.quoteAsset, EffectiveHops(opts.maxHops), p)
  }

  /** A path may have as many hops as asked for, and one in any case. */
  lemma HopsAreLimited(adapters: seq<Adapter>, opts: RouterOptions, market: Market, intent: Intent, p: Path)
    ensures IsCandidate(adapters, opts, market, intent, p) <==>
      && LegalPath(FollowedEdges(UsableEdges(Limited(adapters, opts.maxQuotes), market), intent),
                   intent.baseAsset, intent.quoteAsset, |p|, p)
      && (|p| == 1 || |p| <= opts.maxHops)
  {
  }

  lemma RoutePathIsCandidate(adapters: seq<Adapter>, opts: RouterOptions, market: Market, intent: Intent, p: Path)
    requires IsRoutePath(adapters, opts, market, intent, p)
    ensures IsCandidate(adapters, opts, market, intent, p)
  {
    hide LegalPath;
    var edges, hops := UsableEdges(Limited(adapters, opts.maxQuotes), market), EffectiveHops(opts.maxHops);
    UsableIsFollowed(edges, intent);
    LegalPathMonotone(edges, FollowedEdges(edges, intent), intent.baseAsset, intent.quoteAsset, hops, hops, p);
  }

  /** One path for every signature among the candidates. */
  ghost predicate IsChoice(
      adapters: seq<Adapter>, opts: RouterOptions, market: Market, intent: Intent, chosen: seq<Path>)
  {
    && (forall p :: p in chosen ==> IsCandidate(adapters, opts, market, intent, p))
    && (forall p :: IsCandidate(adapters, opts, market, intent, p) ==> HasSignature(chosen, Signature(p)))
    && DistinctSignatures(chosen)
  }

  ghost predicate HasSignature(paths: seq<Path>, s: string) {
    exists p :: p in paths && Signature(p) == s
  }

  ghost predicate DistinctSignatures(paths: seq<Path>) {
    forall p, q :: p in paths && q in paths && Signature(p) == Signature(q) ==> p == q
  }

  /** The plans of exactly these paths, each once. */
  ghost predicate PlansOf(market: Market, intent: Intent, w: Weights, paths: seq<Path>, plans: seq<RoutePlan>) {
    && (forall plan :: plan in plans <==> exists p :: p in paths && IsPlanFor(market, intent, w, p, plan))
    && NoRepeat(plans)
  }

  ghost predicate SharesSignature(
      adapters: seq<Adapter>, opts: RouterOptions, market: Market, intent: Intent, p: Path, q: Path)
  {
    && IsCandidate(adapters, opts, market, intent, p) && IsCandidate(adapters, opts, market, intent, q)
    && Signature(p) == Signature(q)
  }

  /**
   * Every known pair that collides with an offered one is offered too, and no two candidate paths share a
   * signature.
   */
  ghost predicate Unambiguous(adapters: seq<Adapter>, opts: RouterOptions, market: Market, intent: Intent) {
    && CollisionsAreOffered(UsableEdges(Limited(adapters, opts.maxQuotes), market), intent)
    && forall p, q :: SharesSignature(adapters, opts, market, intent, p, q) ==> p == q
  }

  // ---------- when the search is exact ----------

  /** Where no two known pairs share a key, nothing collides. */
  lemma InjectiveIsUnambiguous(edges: set<Edge>, intent: Intent)
    requires KeysAreInjective(NamesOf(edges, intent))
    ensures CollisionsAreOffered(edges, intent)
  {
    hide Overlaps;
    forall e, base, quote | Collides(edges, intent, e, base, quote)
      ensures Retarget(e, base, quote) in edges
    {
      PairKeysCollideIff(e.base, e.quote, base, quote);
      assert e.base in NamesOf(edges, intent) && e.quote in NamesOf(edges, intent);
      assert Retarget(e, base, quote) == e;
    }
  }

  /** Without ambiguous names the plans of a choice are the plans of all legal paths. */
  lemma ChoiceIsEverything(
      adapters: seq<Adapter>, opts: RouterOptions, market: Market, intent: Intent, chosen: seq<Path>,
      plan: RoutePlan)
    requires IsChoice(adapters, opts, market, intent, chosen) && Unambiguous(adapters, opts, market, intent)
    ensures (exists p :: p in chosen && IsPlanFor(market, intent, opts.weights, p, plan)) <==>
      IsLegalPlan(adapters, opts, market, intent, plan)
  {
    hide IsPlanFor, Signature, LegalPath, CollisionsAreOffered;
    var edges := UsableEdges(Limited(adapters, opts.maxQuotes), market);
    FollowsOnlyOfferedIff(edges, intent);
    assert forall p :: IsCandidate(adapters, opts, market, intent, p) <==>
      IsRoutePath(adapters, opts, market, intent, p);
    if p :| IsRoutePath(adapters, opts, market, intent, p) && IsPlanFor(market, intent, opts.weights, p, plan) {
      assert HasSignature(chosen, Signature(p));
      var q :| q in chosen && Signature(q) == Signature(p);
      assert SharesSignature(adapters, opts, market, intent, p, q);
    }
  }

  ghost predicate PlainNames(adapters: seq<Adapter>, intent: Intent) {
    && Plain(intent.baseAsset) && Plain(intent.quoteAsset)
    && forall a :: a in adapters ==>
      Plain(a.id) && forall pair :: pair in a.pairs ==> Plain(pair.base) && Plain(pair.quote)
  }

  /** Names free of the two separators are never ambiguous. */
  lemma PlainIsUnambiguous(adapters: seq<Adapter>, opts: RouterOptions, market: Market, intent: Intent)
    requires DistinctIds(adapters) && PlainNames(adapters, intent)
    ensures Unambiguous(adapters, opts, market, intent)
  {
    hide LegalPath, Signature, KeysAreInjective, CollisionsAreOffered;
    var edges := UsableEdges(Limited(adapters, opts.maxQuotes), market);
    ColonFreeIsInjective(NamesOf(edges, intent));
    InjectiveIsUnambiguous(edges, intent);
    FollowsOnlyOfferedIff(edges, intent);
    forall p, q | SharesSignature(adapters, opts, market, intent, p, q)
      ensures p == q
    {
      CandidateHops(adapters, opts, market, intent, p);
      CandidateHops(adapters, opts, market, intent, q);
      forall e | e in p || e in q
        ensures PlainEdge(e)
      {
        assert e in edges && e.adapter in adapters && Pair(e.base, e.quote) in e.adapter.pairs;
      }
      SignatureInjective(p, q);
      HopsDeterminePath(adapters, p, q);
    }
  }

  lemma CandidateHops(adapters: seq<Adapter>, opts: RouterOptions, market: Market, intent: Intent, p: Path)
    requires IsCandidate(adapters, opts, market, intent, p)
    ensures forall e :: e in p ==> IsHopOf(adapters, e)
    ensures forall e :: e in p ==> e in FollowedEdges(UsableEdges(Limited(adapters, opts.maxQuotes), market), intent)
  {
    var edges := UsableEdges(Limited(adapters, opts.maxQuotes), market);
    forall f | f in p
      ensures IsHopOf(adapters, f)
    {
      var e :| e in edges && Follows(edges, intent, e, f);
      assert IsUsable(Limited(adapters, opts.maxQuotes), market, e);
    }
  }

  /**
   * What a collision does to a routing: an adapter that offers only x:t against y is asked for x against t:y,
   * a pair it never listed.
   */
  lemma CollisionFollowsForeignHop(
      adapters: seq<Adapter>, opts: RouterOptions, market: Market, intent: Intent,
      a: Adapter, x: string, t: string, y: string)
    requires a in Limited(adapters, opts.maxQuotes) && market.canUseAdapter(a)
    requires Pair(x + ":" + t, y) in a.pairs && market.supportsPair(a.id, x + ":" + t, y)
    requires intent.baseAsset == x && intent.quoteAsset == t + ":" + y && Pair(x, t + ":" + y) !in a.pairs
    ensures var hop := Edge(a, x, t + ":" + y, a.supportLevel);
      IsCandidate(adapters, opts, market, intent, [hop]) && !IsRoutePath(adapters, opts, market, intent, [hop])
  {
    var edges := UsableEdges(Limited(adapters, opts.maxQuotes), market);
    var offered, hop := Edge(a, x + ":" + t, y, a.supportLevel), Edge(a, x, t + ":" + y, a.supportLevel);
    assert IsUsable(Limited(adapters, opts.maxQuotes), market, offered);
    OverlapCollides(x, t + ":" + y, x + ":" + t, y, t);
    assert Follows(edges, intent, offered, hop);
    assert !IsUsable(Limited(adapters, opts.maxQuotes), market, hop);
    assert hop in [hop];
  }

  // ---------- identity of paths and plans ----------

  lemma SameAdapter(adapters: seq<Adapter>, a: Adapter, b: Adapter)
    requires DistinctIds(adapters) && a in adapters && b in adapters && a.id == b.id
    ensures a == b
  {
    var i :| 0 <= i < |adapters| && adapters[i] == a;
    var j :| 0 <= j < |adapters| && adapters[j] == b;
    assert i == j;
  }

  /** A hop over a registered adapter, with the support level it reports. */
  ghost predicate IsHopOf(adapters: seq<Adapter>, e: Edge) {
    e.adapter in adapters && e.supportLevel == e.adapter.supportLevel
  }

  lemma HopsDeterminePath(adapters: seq<Adapter>, p: Path, q: Path)
    requires DistinctIds(adapters) && |p| == |q|
    requires forall e :: e in p || e in q ==> IsHopOf(adapters, e)
    requires forall k :: 0 <= k < |p| ==> SameHop(p[k], q[k])
    ensures p == q
  {
    forall k | 0 <= k < |p|
      ensures p[k] == q[k]
    {
      assert IsHopOf(adapters, p[k]) && IsHopOf(adapters, q[k]);
      SameAdapter(adapters, p[k].adapter, q[k].adapter);
    }
  }

  lemma PlanDeterminesPath(
      adapters: seq<Adapter>, market: Market, intent: Intent, w: Weights, p: Path, q: Path, plan: RoutePlan)
    requires DistinctIds(adapters)
    requires forall e :: e in p || e in q ==> IsHopOf(adapters, e)
    requires IsPlanFor(market, intent, w, p, plan) && IsPlanFor(market, intent, w, q, plan)
    ensures p == q
  {
    forall k | 0 <= k < |p|
      ensures SameHop(p[k], q[k])
    {
      assert Link(market, intent, p, plan.steps, k) && Link(market, intent, q, plan.steps, k);
    }
    HopsDeterminePath(adapters, p, q);
  }

  // ---------- the phases of buildPlans ----------

  /** Under every key exactly the pairs with that key. */
  ghost predicate Collects(index: map<string, seq<Edge>>, edges: set<Edge>) {
    forall base, quote, e :: e in Lookup(index, base, quote) <==>
      e in edges && PairKey(e.base, e.quote) == PairKey(base, quote)
  }

  lemma AddToIndex(index: map<string, seq<Edge>>, edges: set<Edge>, e: Edge)
    requires Collects(index, edges)
    ensures Collects(index[PairKey(e.base, e.quote) := Lookup(index, e.base, e.quote) + [e]], edges + {e})
  {
    hide PairKey;
    var more := index[PairKey(e.base, e.quote) := Lookup(index, e.base, e.quote) + [e]];
    forall base, quote, f
      ensures f in Lookup(more, base, quote) <==> f in edges + {e} && PairKey(f.base, f.quote) == PairKey(base, quote)
    {
      assert f in Lookup(index, base, quote) <==> f in edges && PairKey(f.base, f.quote) == PairKey(base, quote);
      if PairKey(base, quote) == PairKey(e.base, e.quote) {
        assert Lookup(more, base, quote) == Lookup(index, base, quote) + [e];
      } else {
        assert Lookup(more, base, quote) == Lookup(index, base, quote);
      }
    }
  }

  /** The index leads the search exactly over the followed edges. */
  lemma IndexFollows(index: map<string, seq<Edge>>, edges: set<Edge>, intent: Intent, known: seq<string>)
    requires Collects(index, edges) && forall x :: x in known <==> x in NamesOf(edges, intent)
    ensures Indexes(index, FollowedEdges(edges, intent), known)
  {
    hide PairKey, NamesOf;
    var followed := FollowedEdges(edges, intent);
    forall base, quote, f | base in known && quote in known
      ensures f in Hops(index, base, quote) <==> f in followed && f.base == base && f.quote == quote
    {
      var entries, hops := Lookup(index, base, quote), Hops(index, base, quote);
      if f in hops {
        var i :| 0 <= i < |hops| && hops[i] == f;
        assert entries[i] in entries;
        assert Follows(edges, intent, entries[i], f);
      }
      if f in followed && f.base == base && f.quote == quote {
        var e :| e in edges && Follows(edges, intent, e, f);
        assert e in entries;
        var i :| 0 <= i < |entries| && entries[i] == e;
        assert hops[i] == f;
      }
    }
  }

  /** The adapter supports some pair it lists. */
  ghost predicate Trades(market: Market, a: Adapter) {
    exists pair :: pair in a.pairs && market.supportsPair(a.id, pair.base, pair.quote)
  }

  method SelectAdapters(discovered: seq<Adapter>, market: Market) returns (eligible: seq<Adapter>)
    ensures forall a :: a in eligible <==> a in discovered && market.canUseAdapter(a) && Trades(market, a)
    ensures UsableEdges(eligible, market) == UsableEdges(discovered, market)
  {
    eligible := [];
    for i := 0 to |discovered|
      invariant forall a :: a in eligible <==> a in discovered[..i] && market.canUseAdapter(a) && Trades(market, a)
      invariant forall e :: IsUsable(discovered[..i], market, e) ==> e.adapter in eligible
    {
      var adapter := discovered[i];
      assert discovered[..i + 1] == discovered[..i] + [adapter];
      if !market.canUseAdapter(adapter) { continue; }
      if !exists pair :: pair in adapter.pairs && market.supportsPair(adapter.id, pair.base, pair.quote) {
        forall e | IsUsable(discovered[..i + 1], market, e)
          ensures e.adapter in eligible
        {
          assert e.adapter == adapter ==>
            Pair(e.base, e.quote) in adapter.pairs && market.supportsPair(adapter.id, e.base, e.quote);
          assert IsUsable(discovered[..i], market, e);
        }
        continue;
      }
      forall e | IsUsable(discovered[..i + 1], market, e)
        ensures e.adapter in eligible + [adapter]
      {
        assert e.adapter != adapter ==> IsUsable(discovered[..i], market, e);
      }
      eligible := eligible + [adapter];
    }
    assert discovered[..|discovered|] == discovered;
    forall e
      ensures IsUsable(eligible, market, e) <==> IsUsable(discovered, market, e)
    {
    }
  }

  /** Adds a name to a set of names kept in order of arrival. */
  function Including(names: seq<string>, x: string): (more: seq<string>)
    ensures forall y :: y in more <==> y in names || y == x
    ensures NoRepeat(names) ==> NoRepeat(more)
  {
    if x in names then names else names + [x]
  }

  method IndexPairs(eligible: seq<Adapter>, market: Market, intent: Intent)
    returns (index: map<string, seq<Edge>>, known: seq<string>)
    requires forall a :: a in eligible ==> market.canUseAdapter(a)
    ensures Collects(index, UsableEdges(eligible, market))
    ensures forall x :: x in known <==> x in NamesOf(UsableEdges(eligible, market), intent)
    ensures NoRepeat(known)
  {
    hide Collects, PairKey, Including, NoRepeat;
    assert NoRepeat([intent.baseAsset]) && (intent.baseAsset != intent.quoteAsset ==>
      NoRepeat([intent.baseAsset, intent.quoteAsset])) by { FirstNames(intent.baseAsset, intent.quoteAsset); }
    index := map[];
    known := if intent.baseAsset == intent.quoteAsset then [intent.baseAsset]
      else [intent.baseAsset, intent.quoteAsset];
    ghost var done: set<Edge> := {};
    NothingCollected();
    for i := 0 to |eligible|
      invariant Collects(index, done) && NoRepeat(known) && forall x :: x in known <==> x in NamesOf(done, intent)
      invariant forall e :: e in done <==> IsUsable(eligible[..i], market, e)
    {
      var adapter := eligible[i];
      assert eligible[..i + 1] == eligible[..i] + [adapter];
      for j := 0 to |adapter.pairs|
        invariant Collects(index, done) && NoRepeat(known) && forall x :: x in known <==> x in NamesOf(done, intent)
        invariant forall e :: e in done <==>
          IsUsable(eligible[..i], market, e)
          || (IsUsable([adapter], market, e) && Pair(e.base, e.quote) in adapter.pairs[..j])
      {
        var pair := adapter.pairs[j];
        assert adapter.pairs[..j + 1] == adapter.pairs[..j] + [pair];
        if !market.supportsPair(adapter.id, pair.base, pair.quote) { continue; }
        known := Including(Including(known, pair.base), pair.quote);
        var entry := Edge(adapter, pair.base, pair.quote, adapter.supportLevel);
        assert pair in adapter.pairs && adapter in eligible;
        AddToIndex(index, done, entry);
        index := index[PairKey(pair.base, pair.quote) := Lookup(index, pair.base, pair.quote) + [entry]];
        NamesGrow(done, intent, entry);
        done := done + {entry};
      }
      assert adapter.pairs[..|adapter.pairs|] == adapter.pairs;
    }
    assert eligible[..|eligible|] == eligible;
    assert done == UsableEdges(eligible, market);
  }

  lemma FirstNames(a: string, b: string)
    ensures NoRepeat([a]) && (a != b ==> NoRepeat([a, b]))
  {
  }

  lemma NothingCollected()
    ensures Collects(map[], {})
  {
  }

  lemma NamesGrow(edges: set<Edge>, intent: Intent, e: Edge)
    ensures NamesOf(edges + {e}, intent) == NamesOf(edges, intent) + {e.base, e.quote}
  {
  }

  // ---------- quoting every signature once ----------

  /** The first path of every signature, in order. */
  ghost function FirstOfEach(paths: seq<Path>): seq<Path> {
    if paths == [] then []
    else
      var earlier, last := FirstOfEach(paths[..|paths| - 1]), paths[|paths| - 1];
      if HasSignature(earlier, Signature(last)) then earlier else earlier + [last]
  }

  lemma FirstOfEachSnoc(paths: seq<Path>, p: Path)
    ensures FirstOfEach(paths + [p]) ==
      if HasSignature(FirstOfEach(paths), Signature(p)) then FirstOfEach(paths) else FirstOfEach(paths) + [p]
  {
    assert (paths + [p])[..|paths|] == paths;
  }

  lemma SignatureAdded(chosen: seq<Path>, p: Path, s: string)
    ensures HasSignature(chosen + [p], s) <==> HasSignature(chosen, s) || Signature(p) == s
  {
    hide Signature;
    assert p in chosen + [p] && forall q :: q in chosen + [p] <==> q in chosen || q == p;
    if HasSignature(chosen, s) {
      var q :| q in chosen && Signature(q) == s;
      assert q in chosen + [p];
    }
  }

  /** It has each signature of the paths exactly once. */
  lemma {:induction false} FirstOfEachIsChoice(paths: seq<Path>)
    ensures (forall p :: p in FirstOfEach(paths) ==> p in paths) && DistinctSignatures(FirstOfEach(paths))
    ensures forall p :: p in paths ==> HasSignature(FirstOfEach(paths), Signature(p))
  {
    hide Signature, HasSignature;
    if paths != [] {
      var n := |paths| - 1;
      var last, earlier := paths[n], FirstOfEach(paths[..n]);
      FirstOfEachIsChoice(paths[..n]);
      assert paths == paths[..n] + [last];
      forall s { SignatureAdded(earlier, last, s); }
      forall q | q in earlier && Signature(q) == Signature(last)
        ensures HasSignature(earlier, Signature(last))
      {
        IsSignature(earlier, q);
      }
    }
  }

  lemma IsSignature(paths: seq<Path>, p: Path)
    requires p in paths
    ensures HasSignature(paths, Signature(p))
  {
  }

  /** `dedupe` holds the signatures so far, and `plans` are the plans of the first path of each. */
  ghost predicate QuotedSoFar(
      market: Market, intent: Intent, w: Weights, done: seq<Path>, dedupe: set<string>, plans: seq<RoutePlan>)
  {
    && (forall s :: s in dedupe <==> HasSignature(FirstOfEach(done), s))
    && PlansOf(market, intent, w, FirstOfEach(done), plans)
  }

  lemma NoPlanOf(market: Market, intent: Intent, w: Weights, chosen: seq<Path>, plans: seq<RoutePlan>, p: Path)
    requires PlansOf(market, intent, w, chosen, plans) && forall plan :: !IsPlanFor(market, intent, w, p, plan)
    ensures PlansOf(market, intent, w, chosen + [p], plans)
  {
    hide IsPlanFor;
    assert forall q :: q in chosen + [p] <==> q in chosen || q == p;
  }

  lemma OnePlanOf(
      adapters: seq<Adapter>, market: Market, intent: Intent, w: Weights, chosen: seq<Path>, plans: seq<RoutePlan>,
      p: Path, plan: RoutePlan)
    requires DistinctIds(adapters) && forall q: Path, e :: q in chosen + [p] && e in q ==> IsHopOf(adapters, e)
    requires PlansOf(market, intent, w, chosen, plans) && IsPlanFor(market, intent, w, p, plan) && p !in chosen
    ensures PlansOf(market, intent, w, chosen + [p], plans + [plan])
  {
    hide IsPlanFor, DistinctIds, IsHopOf;
    assert forall q :: q in chosen + [p] <==> q in chosen || q == p;
    OnlyPathOf(adapters, market, intent, w, chosen, p, plan);
    forall other | IsPlanFor(market, intent, w, p, other)
      ensures other == plan
    {
      PlanUnique(market, intent, w, p, other, plan);
    }
    assert plan !in plans;
    forall x
      ensures x in plans + [plan] <==> exists q :: q in chosen + [p] && IsPlanFor(market, intent, w, q, x)
    {
      assert x in plans <==> exists q :: q in chosen && IsPlanFor(market, intent, w, q, x);
    }
  }

  lemma OnlyPathOf(
      adapters: seq<Adapter>, market: Market, intent: Intent, w: Weights, done: seq<Path>, p: Path,
      plan: RoutePlan)
    requires DistinctIds(adapters) && IsPlanFor(market, intent, w, p, plan)
    requires forall q: Path, e :: q in done + [p] && e in q ==> IsHopOf(adapters, e)
    ensures forall q :: q in done && IsPlanFor(market, intent, w, q, plan) ==> q == p
  {
    hide IsPlanFor, DistinctIds, IsHopOf;
    assert p in done + [p];
    forall q | q in done && IsPlanFor(market, intent, w, q, plan)
      ensures q == p
    {
      assert q in done + [p];
      PlanDeterminesPath(adapters, market, intent, w, q, p, plan);
    }
  }

  /** Quotes the first candidate of every signature. */
  method QuoteCandidates(
      candidates: seq<Path>, ghost adapters: seq<Adapter>, market: Market, intent: Intent, w: Weights)
    returns (plans: seq<RoutePlan>)
    requires DistinctIds(adapters) && forall p: Path, e :: p in candidates && e in p ==> IsHopOf(adapters, e)
    ensures PlansOf(market, intent, w, FirstOfEach(candidates), plans)
  {
    hide IsPlanFor, Signature, DistinctIds, IsHopOf, PlansOf, HasSignature, DistinctSignatures;
    plans := [];
    var dedupe: set<string> := {};
    NothingQuoted(market, intent, w);
    for i := 0 to |candidates|
      invariant QuotedSoFar(market, intent, w, candidates[..i], dedupe, plans)
    {
      var candidate := candidates[i];
      ghost var chosen := FirstOfEach(candidates[..i]);
      assert candidates[..i + 1] == candidates[..i] + [candidate];
      FirstOfEachSnoc(candidates[..i], candidate);
      var signature := Signature(candidate);
      if signature in dedupe { continue; }
      dedupe := dedupe + {signature};
      forall s { SignatureAdded(chosen, candidate, s); }
      FirstOfEachIsChoice(candidates[..i]);
      assert forall q :: q in chosen + [candidate] ==> q in candidates;
      if candidate in chosen { IsSignature(chosen, candidate); }
      var plan := QuoteRoute(market, intent, w, candidate);
      if plan.Some? {
        OnePlanOf(adapters, market, intent, w, chosen, plans, candidate, plan.value);
        plans := plans + [plan.value];
      } else {
        NoPlanOf(market, intent, w, chosen, plans, candidate);
      }
    }
    assert candidates[..|candidates|] == candidates;
  }

  lemma NothingQuoted(market: Market, intent: Intent, w: Weights)
    ensures QuotedSoFar(market, intent, w, [], {}, [])
  {
  }

  class RouterService {
    const registry: Registry
    const opts: RouterOptions

    constructor (registry: Registry, opts: RouterOptions := DEFAULT_OPTIONS)
      ensures this.registry == registry && this.opts == opts
    {
      this.registry, this.opts := registry, opts;
    }

    method FindCandidates(intent: Intent, market: Market) returns (candidates: seq<Path>)
      ensures forall p: Path :: p in candidates <==> IsCandidate(registry.adapters, opts, market, intent, p)
    {
      hide LegalPath;
      var discovered := registry.DiscoverAdapters(LimitOnly(opts.maxQuotes), market.supportsPair);
      ghost var limited := Limited(registry.adapters, opts.maxQuotes);
      forall a ensures a in discovered <==> a in limited { LimitAcceptsAll(opts.maxQuotes, market.supportsPair, a); }
      SameUsable(discovered, limited, market);
      var eligible := SelectAdapters(discovered, market);
      var index, known := IndexPairs(eligible, market, intent);
      ghost var usable := UsableEdges(limited, market);
      ghost var edges := FollowedEdges(usable, intent);
      IndexFollows(index, usable, intent, known);
      var maxHops := EffectiveHops(opts.maxHops);
      assert intent.baseAsset in NamesOf(usable, intent);
      candidates := Visit(
        index, known, edges, intent.quoteAsset, maxHops, intent.baseAsset, 0, [], {intent.baseAsset}, []);
      forall p: Path
        ensures p in candidates <==> IsCandidate(registry.adapters, opts, market, intent, p)
      {
        assert p[0..] == p && p[..0] == [];
        assert p in candidates <==>
          Completes(edges, intent.baseAsset, intent.quoteAsset, maxHops, {intent.baseAsset}, [], p);
        SearchIsExact(edges, intent.baseAsset, intent.quoteAsset, maxHops, p);
      }
    }

    /**
     * The plans of one candidate path per signature, best first; an error exactly when none of them can be quoted.
     * Unless names are ambiguous these are the plans of all legal paths.
     */
    method BuildPlans(intent: Intent, market: Market) returns (r: Result<Routing, string>, ghost chosen: seq<Path>)
      requires registry.Valid()
      ensures IsChoice(registry.adapters, opts, market, intent, chosen)
      ensures r.Ok? ==> var plans := [r.value.best] + r.value.alternates;
        PlansOf(market, intent, opts.weights, chosen, plans) && Sorting.SortedBy(NotWorse, plans)
      ensures r.Err? <==> forall p, plan :: p in chosen ==> !IsPlanFor(market, intent, opts.weights, p, plan)
      ensures r.Err? <==> forall p :: p in chosen ==> SizeThrough(market, intent, p).None?
      ensures r.Err? ==> r.error == "No route plans available from adapters"
      ensures Unambiguous(registry.adapters, opts, market, intent) ==>
        && (r.Ok? ==> IsRouting(registry.adapters, opts, market, intent, r.value))
        && (r.Err? <==> forall plan :: !IsLegalPlan(registry.adapters, opts, market, intent, plan))
    {
      hide IsPlanFor, Signature, IsCandidate, Unambiguous, IsLegalPlan, DistinctIds, SizeThrough;
      var candidates := FindCandidates(intent, market);
      forall p: Path, e | p in candidates && e in p
        ensures IsHopOf(registry.adapters, e)
      {
        CandidateHops(registry.adapters, opts, market, intent, p);
      }
      chosen := FirstOfEach(candidates);
      FirstOfEachIsChoice(candidates);
      var plans := QuoteCandidates(candidates, registry.adapters, market, intent, opts.weights);
      if Unambiguous(registry.adapters, opts, market, intent) {
        forall plan { ChoiceIsEverything(registry.adapters, opts, market, intent, chosen, plan); }
      }
      var sorted := Sorting.Sort(NotWorse, plans);
      SortKeepsPlans(market, intent, opts.weights, chosen, plans);
      forall p { PlanExistsIff(market, intent, opts.weights, p); }
      if sorted == [] {
        NoPlans(market, intent, opts.weights, chosen);
        return Err("No route plans available from adapters"), chosen;
      }
      r := Ok(Routing(sorted[0], sorted[1..]));
      assert [sorted[0]] + sorted[1..] == sorted;
      assert sorted[0] in sorted;
    }
  }

  lemma NoPlans(market: Market, intent: Intent, w: Weights, chosen: seq<Path>)
    requires PlansOf(market, intent, w, chosen, [])
    ensures forall p, plan :: p in chosen ==> !IsPlanFor(market, intent, w, p, plan)
  {
    hide IsPlanFor;
    forall p, plan | p in chosen
      ensures !IsPlanFor(market, intent, w, p, plan)
    {
      assert plan !in [];
    }
  }

  lemma SortKeepsPlans(market: Market, intent: Intent, w: Weights, chosen: seq<Path>, plans: seq<RoutePlan>)
    requires PlansOf(market, intent, w, chosen, plans)
    ensures PlansOf(market, intent, w, chosen, Sorting.Sort(NotWorse, plans))
    ensures Sorting.SortedBy(NotWorse, Sorting.Sort(NotWorse, plans))
  {
    hide IsPlanFor;
    var sorted := Sorting.Sort(NotWorse, plans);
    Sorting.SortCorrect(NotWorse, plans);
    Sorting.SameElements(sorted, plans);
    NoRepeatPermutes(plans, sorted);
  }

  lemma SameUsable(a: seq<Adapter>, b: seq<Adapter>, market: Market)
    requires forall x :: x in a <==> x in b
    ensures UsableEdges(a, market) == UsableEdges(b, market)
  {
    forall e ensures e in UsableEdges(a, market) <==> e in UsableEdges(b, market) {
      assert IsUsable(a, market, e) <==> IsUsable(b, market, e);
    }
  }

  // ---------- the defaults ----------

  /** Unless told otherwise: a hop costs half a point beside its fee and slippage, and full health gains a quarter. */
  lemma DefaultScore(market: Market, intent: Intent, path: Path, plan: RoutePlan)
    requires IsPlanFor(market, intent, DEFAULT_OPTIONS.weights, path, plan)
    ensures plan.score == Total(plan.steps, AdjustmentOf) - plan.totalFeeBps - plan.expectedSlippageBps
      - |path| as real / 2.0 + (if AllHealthy(market, path) then 0.25 else 0.0)
  {
  }

  /** Unless told otherwise: up to three hops, over the first eight adapters. */
  lemma DefaultReach(adapters: seq<Adapter>, market: Market, intent: Intent, p: Path)
    requires IsCandidate(adapters, DEFAULT_OPTIONS, market, intent, p)
    ensures |p| <= 3
    ensures |adapters| > 8 ==> forall e :: e in p ==> e.adapter in adapters[..8]
  {
  }

  // ---------- consequences for any routing ----------

  /** No legal path scores above the best plan. */
  lemma BestIsOptimal(
      adapters: seq<Adapter>, opts: RouterOptions, market: Market, intent: Intent, r: Routing, p: Path,
      plan: RoutePlan)
    requires IsRouting(adapters, opts, market, intent, r)
    requires IsRoutePath(adapters, opts, market, intent, p) && IsPlanFor(market, intent, opts.weights, p, plan)
    ensures r.best.score >= plan.score
  {
    var plans := [r.best] + r.alternates;
    assert IsLegalPlan(adapters, opts, market, intent, plan);
    var i :| 0 <= i < |plans| && plans[i] == plan;
    assert i == 0 || NotWorse(plans[0], plans[i]);
  }

  /** Some registered adapter the caller did not refuse trades this step's pair. */
  ghost predicate Servable(adapters: seq<Adapter>, market: Market, step: RouteStep) {
    exists a :: a in adapters && a.id == step.adapterId
      && market.canUseAdapter(a) && market.supportsPair(a.id, step.baseAsset, step.quoteAsset)
  }

  /**
   * The plan of any path the search follows is a chain from the base to the quote asset:
   * sizes flow from each quote into the next request.
   */
  lemma PlanIsChained(
      adapters: seq<Adapter>, opts: RouterOptions, market: Market, intent: Intent, p: Path, plan: RoutePlan)
    requires IsCandidate(adapters, opts, market, intent, p) && IsPlanFor(market, intent, opts.weights, p, plan)
    ensures 1 <= |plan.steps| == plan.hopCount <= EffectiveHops(opts.maxHops)
    ensures plan.steps[0].baseAsset == intent.baseAsset && plan.steps[|plan.steps| - 1].quoteAsset == intent.quoteAsset
    ensures plan.steps[0].sizeIn == intent.size
    ensures forall k :: 0 < k < |plan.steps| ==>
      plan.steps[k].baseAsset == plan.steps[k - 1].quoteAsset
      && plan.steps[k].sizeIn == plan.steps[k - 1].sizeOutEstimate
  {
    var n := |plan.steps|;
    assert Link(market, intent, p, plan.steps, 0) && Link(market, intent, p, plan.steps, n - 1);
    forall k | 0 < k < n
      ensures plan.steps[k].baseAsset == plan.steps[k - 1].quoteAsset
      ensures plan.steps[k].sizeIn == plan.steps[k - 1].sizeOutEstimate
    {
      assert Link(market, intent, p, plan.steps, k) && Link(market, intent, p, plan.steps, k - 1);
    }
  }

  /** No refused or unsupporting adapter appears, and the plan's support level is the lowest known one. */
  lemma PlanIsServable(
      adapters: seq<Adapter>, opts: RouterOptions, market: Market, intent: Intent, plan: RoutePlan, k: nat)
    requires IsLegalPlan(adapters, opts, market, intent, plan) && k < |plan.steps|
    ensures Servable(adapters, market, plan.steps[k])
    ensures plan.steps[k].supportLevel.Some? ==>
      plan.supportLevel.Some? && Rank(plan.supportLevel.value) <= Rank(plan.steps[k].supportLevel.value)
    ensures plan.supportLevel.Some? ==>
      exists j :: 0 <= j < |plan.steps| && plan.steps[j].supportLevel == plan.supportLevel
  {
    var p: Path :| IsRoutePath(adapters, opts, market, intent, p) && IsPlanFor(market, intent, opts.weights, p, plan);
    assert Link(market, intent, p, plan.steps, k);
    assert IsUsable(Limited(adapters, opts.maxQuotes), market, p[k]);
    assert Levels(plan.steps)[k] == plan.steps[k].supportLevel;
    if plan.supportLevel.Some? {
      var j :| 0 <= j < |plan.steps| && Levels(plan.steps)[j] == plan.supportLevel;
    }
  }

  /**
   * Raising the limit keeps every adapter within it, unless it turns negative to a number too small to make up for
   * it.
   */
  lemma LimitGrowsIff(adapters: seq<Adapter>, limit: int, more: int)
    requires limit <= more
    ensures Limited(adapters, limit) <= Limited(adapters, more) <==>
      limit >= 0 || more < 0 || |adapters| + limit <= more
  {
  }

  /** A legal plan stays legal when more hops and more venues are allowed, so routing never starts to fail. */
  lemma LegalPlanMonotone(
      adapters: seq<Adapter>, opts: RouterOptions, more: RouterOptions, market: Market, intent: Intent,
      plan: RoutePlan)
    requires opts.weights == more.weights && opts.maxHops <= more.maxHops
    requires Limited(adapters, opts.maxQuotes) <= Limited(adapters, more.maxQuotes)
    requires IsLegalPlan(adapters, opts, market, intent, plan)
    ensures IsLegalPlan(adapters, more, market, intent, plan)
  {
    var p :| IsRoutePath(adapters, opts, market, intent, p) && IsPlanFor(market, intent, opts.weights, p, plan);
    var few := UsableEdges(Limited(adapters, opts.maxQuotes), market);
    var many := UsableEdges(Limited(adapters, more.maxQuotes), market);
    forall e | e in few
      ensures e in many
    {
      assert e.adapter in Limited(adapters, more.maxQuotes);
    }
    LegalPathMonotone(
      few, many, intent.baseAsset, intent.quoteAsset, EffectiveHops(opts.maxHops), EffectiveHops(more.maxHops), p);
  }

  /** More hops and more venues never lower the best score. */
  lemma RaisingLimitsNeverHurts(
      adapters: seq<Adapter>, opts: RouterOptions, more: RouterOptions, market: Market, intent: Intent,
      r: Routing, s: Routing)
    requires opts.weights == more.weights && opts.maxHops <= more.maxHops
    requires Limited(adapters, opts.maxQuotes) <= Limited(adapters, more.maxQuotes)
    requires IsRouting(adapters, opts, market, intent, r) && IsRouting(adapters, more, market, intent, s)
    ensures s.best.score >= r.best.score
  {
    assert r.best in [r.best] + r.alternates;
    LegalPlanMonotone(adapters, opts, more, market, intent, r.best);
    var p :| IsRoutePath(adapters, more, market, intent, p) && IsPlanFor(market, intent, more.weights, p, r.best);
    BestIsOptimal(adapters, more, market, intent, s, p, r.best);
  }
}
