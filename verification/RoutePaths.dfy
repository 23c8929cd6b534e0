/** Depth-bounded enumeration of the asset paths between two assets. */
module RoutePaths {
  import opened RouteTypes
  import opened RouteKeys

  /** What a caller of the router expects of a path, with no reference to how it is found. */
  ghost predicate LegalPath(edges: set<Edge>, base: string, quote: string, maxHops: int, p: Path) {
    && 1 <= |p| <= maxHops
    && (forall e :: e in p ==> e in edges)
    && p[0].base == base && p[|p| - 1].quote == quote
    && (forall k :: 0 < k < |p| ==> p[k].base == p[k - 1].quote)
    && (forall k :: 0 <= k < |p| - 1 ==> p[k].quote != base && p[k].quote != quote)
    && (forall j, k :: 0 <= j < k < |p| - 1 ==> p[j].quote != p[k].quote)
  }

  /** The walks the depth-first search follows from `current`, having seen `seen`. */
  ghost predicate Walk(edges: set<Edge>, current: string, target: string, seen: set<string>, tail: Path)
    decreases |tail|
  {
    && tail != [] && tail[0] in edges && tail[0].base == current
    && var next := tail[0].quote;
       if next == target then |tail| == 1
       else next !in seen && Walk(edges, next, target, seen + {next}, tail[1..])
  }

  ghost predicate Simple(edges: set<Edge>, current: string, target: string, seen: set<string>, t: Path) {
    && t != [] && (forall e :: e in t ==> e in edges)
    && t[0].base == current && t[|t| - 1].quote == target
    && (forall k :: 0 < k < |t| ==> t[k].base == t[k - 1].quote)
    && (forall k :: 0 <= k < |t| - 1 ==> t[k].quote !in seen && t[k].quote != target)
    && (forall j, k :: 0 <= j < k < |t| - 1 ==> t[j].quote != t[k].quote)
  }

  lemma {:induction false} WalkIsSimple(edges: set<Edge>, current: string, target: string, seen: set<string>, t: Path)
    ensures Walk(edges, current, target, seen, t) <==> Simple(edges, current, target, seen, t)
    decreases |t|
  {
    if |t| > 1 {
      var next, rest := t[0].quote, t[1..];
      WalkIsSimple(edges, next, target, seen + {next}, rest);
      assert t == [t[0]] + rest;
      if Walk(edges, current, target, seen, t) {
        forall k | 0 < k < |t|
          ensures t[k].base == t[k - 1].quote
        {
          if k > 1 { assert rest[k - 1].base == rest[k - 2].quote; }
        }
      }
      if Simple(edges, current, target, seen, t) {
        assert t[1].base == t[0].quote;
        forall k | 0 < k < |rest|
          ensures rest[k].base == rest[k - 1].quote
        {
          assert t[k + 1].base == t[k].quote;
        }
        forall k | 0 <= k < |rest| - 1
          ensures rest[k].quote !in seen + {next} && rest[k].quote != target
        {
          assert t[k + 1].quote !in seen && t[0].quote != t[k + 1].quote;
        }
      }
    }
  }

  /** Searching from the base asset, having seen only it, follows exactly the legal paths. */
  lemma SearchIsExact(edges: set<Edge>, base: string, quote: string, maxHops: int, p: Path)
    ensures |p| <= maxHops && Walk(edges, base, quote, {base}, p) <==> LegalPath(edges, base, quote, maxHops, p)
  {
    WalkIsSimple(edges, base, quote, {base}, p);
  }

  /** A deeper search on more edges finds every path the shallower one found. */
  lemma LegalPathMonotone(
      edges: set<Edge>, more: set<Edge>, base: string, quote: string, hops: int, moreHops: int, p: Path)
    requires edges <= more && hops <= moreHops && LegalPath(edges, base, quote, hops, p)
    ensures LegalPath(more, base, quote, moreHops, p)
  {
  }

  function Lookup(index: map<string, seq<Edge>>, base: string, quote: string): seq<Edge> {
    var key := PairKey(base, quote);
    if key in index then index[key] else []
  }

  /** The hop the search takes over an indexed pair: from and to the assets it looked up, not the pair's own. */
  function Retarget(entry: Edge, base: string, quote: string): Edge {
    Edge(entry.adapter, base, quote, entry.supportLevel)
  }

  ghost function Hops(index: map<string, seq<Edge>>, base: string, quote: string): seq<Edge> {
    var entries := Lookup(index, base, quote);
    seq(|entries|, i requires 0 <= i < |entries| => Retarget(entries[i], base, quote))
  }

  /** Between known assets the index leads exactly over these edges. */
  ghost predicate Indexes(index: map<string, seq<Edge>>, edges: set<Edge>, known: seq<string>) {
    && (forall e :: e in edges ==> e.base in known && e.quote in known)
    && forall base, quote, e :: base in known && quote in known ==>
         (e in Hops(index, base, quote) <==> e in edges && e.base == base && e.quote == quote)
  }

  /** p continues `path` by a walk, within the hop limit. */
  ghost predicate Completes(
      edges: set<Edge>, current: string, target: string, maxHops: int, seen: set<string>, path: Path, p: Path)
  {
    |path| < |p| <= maxHops && p[..|path|] == path && Walk(edges, current, target, seen, p[|path|..])
  }

  lemma CompletesStep(
      edges: set<Edge>, current: string, target: string, maxHops: int, seen: set<string>, path: Path, e: Edge,
      p: Path)
    requires e in edges && e.base == current && |path| < maxHops
    ensures
      (Completes(edges, current, target, maxHops, seen, path, p) && p[|path|] == e)
      <==>
      if e.quote == target then p == path + [e]
      else e.quote !in seen && Completes(edges, e.quote, target, maxHops, seen + {e.quote}, path + [e], p)
  {
    var n := |path|;
    if |p| > n && p[..n] == path && p[n] == e {
      assert p[..n + 1] == path + [e] && p[n..][1..] == p[n + 1..] && p[n..][0] == e;
    }
    if |p| > n && p[..n + 1] == path + [e] {
      assert p[..n] == p[..n + 1][..n] == path && p[n] == p[..n + 1][n] == e;
    }
    if p == path + [e] {
      var tail := p[n..];
      assert p[..n] == path && p[n] == e && tail == [e] && tail[0] == e && tail[1..] == [];
      assert Walk(edges, current, target, seen, tail) <==> e.quote == target;
      assert Completes(edges, current, target, maxHops, seen, path, p) <==> e.quote == target;
    } else if |p| == n + 1 {
      assert p == p[..n] + [p[n]];
    }
  }

  /** The recursive search: adds to `found` exactly the paths that complete `path`. */
  method Visit(
      index: map<string, seq<Edge>>, known: seq<string>, ghost edges: set<Edge>, target: string, maxHops: int,
      current: string, depth: nat, path: Path, seen: set<string>, found: seq<Path>)
    returns (found': seq<Path>)
    requires Indexes(index, edges, known) && current in known && depth == |path|
    ensures forall p: Path :: p in found' <==> p in found || Completes(edges, current, target, maxHops, seen, path, p)
    decreases maxHops - depth
  {
    found' := found;
    if depth >= maxHops { return; }
    for i := 0 to |known|
      invariant forall p: Path :: p in found' <==>
        p in found || (Completes(edges, current, target, maxHops, seen, path, p) && p[depth].quote in known[..i])
    {
      var next := known[i];
      var entries := Lookup(index, current, next);
      ghost var hops := Hops(index, current, next);
      ghost var before := found';
      for j := 0 to |entries|
        invariant forall p: Path :: p in found' <==>
          p in before || (Completes(edges, current, target, maxHops, seen, path, p) && p[depth] in hops[..j])
      {
        var step := Retarget(entries[j], current, next);
        assert hops[j] == step && step in hops;
        var nextPath := path + [step];
        if next == target {
          found' := found' + [nextPath];
        } else if next !in seen {
          found' := Visit(index, known, edges, target, maxHops, next, depth + 1, nextPath, seen + {next}, found');
        }
        forall p: Path { CompletesStep(edges, current, target, maxHops, seen, path, step, p); }
        assert hops[..j + 1] == hops[..j] + [step];
      }
      assert known[..i + 1] == known[..i] + [next];
      forall p: Path | Completes(edges, current, target, maxHops, seen, path, p)
        ensures p[depth] in hops <==> p[depth].quote == next
      {
        assert p[|path|..][0] == p[depth];
        assert p[depth] in hops <==> p[depth] in edges && p[depth].base == current && p[depth].quote == next;
      }
      assert hops[..|hops|] == hops;
    }
    assert known[..|known|] == known;
    forall p: Path | Completes(edges, current, target, maxHops, seen, path, p)
      ensures p[depth].quote in known
    {
      assert p[|path|..][0] == p[depth];
    }
  }
}
