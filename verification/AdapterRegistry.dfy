/** The adapter registry: an insertion-ordered map from adapter id to adapter. */
module AdapterRegistry {
  import opened Common
  import opened RouteTypes

  ghost predicate DistinctIds(adapters: seq<Adapter>) {
    forall i, j :: 0 <= i < j < |adapters| ==> adapters[i].id != adapters[j].id
  }

  /** The first `limit` entries; a negative limit drops entries from the end instead. */
  function Limited(adapters: seq<Adapter>, limit: int): (r: seq<Adapter>)
    ensures r <= adapters
    ensures limit >= 0 ==> |r| == if limit < |adapters| then limit else |adapters|
    ensures limit < 0 ==> |r| == if -limit < |adapters| then |adapters| + limit else 0
  {
    if limit >= 0 then adapters[..if limit < |adapters| then limit else |adapters|]
    else adapters[..if -limit < |adapters| then |adapters| + limit else 0]
  }

  // ---------- discovery ----------

  datatype Filter = Filter(
    kind: Option<VenueKind>, pair: Option<Pair>, baseAsset: Option<string>, quoteAsset: Option<string>,
    feature: Option<string>, features: Option<seq<string>>, limit: Option<int>)

  function LimitOnly(limit: int): Filter {
    Filter(None, None, None, None, None, None, Some(limit))
  }

  /** Given and not empty; an empty name counts as none. */
  predicate IsNamed(name: Option<string>) {
    name.Some? && name.value != ""
  }

  function RequiredFeatures(filter: Filter): seq<string> {
    (if IsNamed(filter.feature) then [filter.feature.value] else [])
    + if filter.features.Some? then filter.features.value else []
  }

  predicate PairHasAssets(pair: Pair, filter: Filter) {
    && (IsNamed(filter.baseAsset) ==> pair.base == filter.baseAsset.value)
    && (IsNamed(filter.quoteAsset) ==> pair.quote == filter.quoteAsset.value)
  }

  /** Whether the capability map is looked at; a pair filter on its own does without it. */
  predicate NeedsCapabilities(filter: Filter) {
    || filter.feature.Some? || (filter.features.Some? && filter.features.value != [])
    || filter.baseAsset.Some? || filter.quoteAsset.Some? || filter.pair.None?
  }

  type Supports = (string, string, string) -> bool

  /** What a discovered adapter has to meet: each criterion that is given, by what it reports or supports. */
  ghost predicate Accepts(filter: Filter, supports: Supports, a: Adapter) {
    && (filter.kind.Some? ==> a.kind == filter.kind.value)
    && (filter.pair.Some? ==> supports(a.id, filter.pair.value.base, filter.pair.value.quote))
    && (filter.feature.Some? && filter.feature.value != "" ==> filter.feature.value in a.features)
    && (filter.features.Some? ==> forall f :: f in filter.features.value ==> f in a.features)
    && (!Open(filter.baseAsset) || !Open(filter.quoteAsset) ==>
      exists pair :: pair in a.pairs && AssetsFit(filter, pair))
    && (filter.pair.Some? && AsksForMore(filter) ==>
      exists pair :: pair in a.pairs && supports(a.id, pair.base, pair.quote))
  }

  /** No asset is asked for; an empty name asks for none. */
  ghost predicate Open(asset: Option<string>) {
    asset.None? || asset.value == ""
  }

  ghost predicate AssetsFit(filter: Filter, pair: Pair) {
    && (Open(filter.baseAsset) || filter.baseAsset.value == pair.base)
    && (Open(filter.quoteAsset) || filter.quoteAsset.value == pair.quote)
  }

  /** Anything besides a kind, a pair and a limit, be it an empty name; an empty list of features is nothing. */
  ghost predicate AsksForMore(filter: Filter) {
    || filter.feature != None || filter.baseAsset != None || filter.quoteAsset != None
    || (filter.features.Some? && |filter.features.value| > 0)
  }

  /** What the checks compute is what the criteria say. */
  lemma ChecksAgree(filter: Filter, a: Adapter)
    ensures filter.pair.Some? ==> (NeedsCapabilities(filter) <==> AsksForMore(filter))
    ensures !NeedsCapabilities(filter) ==>
      RequiredFeatures(filter) == [] && Open(filter.baseAsset) && Open(filter.quoteAsset)
    ensures (forall f :: f in RequiredFeatures(filter) ==> f in a.features) <==>
      && (filter.feature.Some? && filter.feature.value != "" ==> filter.feature.value in a.features)
      && (filter.features.Some? ==> forall f :: f in filter.features.value ==> f in a.features)
    ensures IsNamed(filter.baseAsset) || IsNamed(filter.quoteAsset) <==>
      !Open(filter.baseAsset) || !Open(filter.quoteAsset)
    ensures forall pair :: PairHasAssets(pair, filter) <==> AssetsFit(filter, pair)
  {
    var named := if IsNamed(filter.feature) then [filter.feature.value] else [];
    var listed := if filter.features.Some? then filter.features.value else [];
    assert RequiredFeatures(filter) == named + listed;
    assert IsNamed(filter.feature) ==> filter.feature.value in named;
  }

  /** `kept` lists exactly the accepted adapters, in their order. */
  ghost predicate IsSelection(filter: Filter, supports: Supports, adapters: seq<Adapter>, kept: seq<Adapter>) {
    && (forall a :: a in kept <==> a in adapters && Accepts(filter, supports, a))
    && (forall i, j :: 0 <= i < j < |kept| ==> InOrder(adapters, kept[i], kept[j]))
  }

  ghost predicate InOrder(adapters: seq<Adapter>, a: Adapter, b: Adapter) {
    exists k, l :: 0 <= k < l < |adapters| && adapters[k] == a && adapters[l] == b
  }

  lemma OrderGrows(adapters: seq<Adapter>, x: Adapter, y: Adapter, a: Adapter)
    ensures InOrder(adapters, x, y) ==> InOrder(adapters + [a], x, y)
    ensures x in adapters ==> InOrder(adapters + [a], x, a)
  {
    var more := adapters + [a];
    if InOrder(adapters, x, y) {
      var k, l :| 0 <= k < l < |adapters| && adapters[k] == x && adapters[l] == y;
      assert more[k] == x && more[l] == y;
    }
    if x in adapters {
      var k :| 0 <= k < |adapters| && adapters[k] == x;
      assert more[k] == x && more[|adapters|] == a;
    }
  }

  lemma SelectionExtends(filter: Filter, supports: Supports, adapters: seq<Adapter>, kept: seq<Adapter>, a: Adapter)
    requires IsSelection(filter, supports, adapters, kept)
    ensures IsSelection(filter, supports, adapters + [a], if Accepts(filter, supports, a) then kept + [a] else kept)
  {
    hide Accepts, InOrder;
    var next := if Accepts(filter, supports, a) then kept + [a] else kept;
    forall i, j | 0 <= i < j < |next|
      ensures InOrder(adapters + [a], next[i], next[j])
    {
      assert next[i] == kept[i] && kept[i] in kept;
      OrderGrows(adapters, next[i], next[j], a);
    }
  }

  /** A limit alone turns no adapter down. */
  lemma LimitAcceptsAll(limit: int, supports: Supports, a: Adapter)
    ensures Accepts(LimitOnly(limit), supports, a)
  {
  }

  /** The checks in the order they are made; the capability map is looked at only when a criterion needs it. */
  method CheckAdapter(filter: Filter, supports: Supports, adapter: Adapter) returns (ok: bool)
    ensures ok <==> Accepts(filter, supports, adapter)
  {
    ChecksAgree(filter, adapter);
    hide NeedsCapabilities, RequiredFeatures, IsNamed, PairHasAssets, AsksForMore, Open, AssetsFit;
    if filter.kind.Some? && adapter.kind != filter.kind.value { return false; }
    if filter.pair.Some? && !supports(adapter.id, filter.pair.value.base, filter.pair.value.quote) { return false; }
    if NeedsCapabilities(filter) {
      if !forall f :: f in RequiredFeatures(filter) ==> f in adapter.features { return false; }
      if IsNamed(filter.baseAsset) || IsNamed(filter.quoteAsset) {
        if !exists pair :: pair in adapter.pairs && PairHasAssets(pair, filter) { return false; }
      }
      if filter.pair.Some? {
        ok := exists pair :: pair in adapter.pairs && supports(adapter.id, pair.base, pair.quote);
        return;
      }
    }
    ok := true;
  }

  class Registry {
    var adapters: seq<Adapter>

    ghost predicate Valid()
      reads this
    {
      DistinctIds(adapters)
    }

    constructor ()
      ensures Valid() && adapters == []
    {
      adapters := [];
    }

    /** Registers a new id last; a known id keeps its place and gets the new adapter. */
    method Register(adapter: Adapter)
      requires Valid()
      modifies this
      ensures Valid()
      ensures (forall a :: a in old(adapters) ==> a.id != adapter.id) ==> adapters == old(adapters) + [adapter]
      ensures forall i :: 0 <= i < |old(adapters)| ==>
        i < |adapters| && adapters[i] == if old(adapters)[i].id == adapter.id then adapter else old(adapters)[i]
      ensures (exists a :: a in old(adapters) && a.id == adapter.id) ==> |adapters| == |old(adapters)|
    {
      var i := 0;
      while i < |adapters| && adapters[i].id != adapter.id
        invariant 0 <= i <= |adapters| && adapters == old(adapters)
        invariant forall j :: 0 <= j < i ==> adapters[j].id != adapter.id
      {
        i := i + 1;
      }
      adapters := if i < |adapters| then adapters[i := adapter] else adapters + [adapter];
    }

    /** The accepted adapters among the first ones, in registration order. */
    method DiscoverAdapters(filter: Filter, supports: Supports) returns (discovered: seq<Adapter>)
      ensures var limited := if filter.limit.Some? then Limited(adapters, filter.limit.value) else adapters;
        IsSelection(filter, supports, limited, discovered)
    {
      var listed := if filter.limit.Some? then Limited(adapters, filter.limit.value) else adapters;
      hide Accepts, InOrder, Limited;
      discovered := [];
      for i := 0 to |listed|
        invariant IsSelection(filter, supports, listed[..i], discovered)
      {
        var adapter := listed[i];
        assert listed[..i + 1] == listed[..i] + [adapter];
        SelectionExtends(filter, supports, listed[..i], discovered, adapter);
        var ok := CheckAdapter(filter, supports, adapter);
        if ok { discovered := discovered + [adapter]; }
      }
      assert listed[..|listed|] == listed;
    }
  }
}
