/** The order in which the smoke script builds the workspace packages. */
module TopologicalSort {
  import opened Common

  const WORKSPACE_PREFIX := "@keeta-agent-stack/"

  /** What a package's manifest lists as dependencies and peer dependencies. */
  type Manifest = string -> seq<string>

  predicate DependsOn(names: seq<string>, manifest: Manifest, a: string, b: string) {
    b in manifest(a) && WORKSPACE_PREFIX <= b && b in names
  }

  /** Every package once, each after all its in-set dependencies. */
  ghost predicate IsBuildOrder(names: seq<string>, manifest: Manifest, order: seq<string>) {
    && NoRepeat(order)
    && (forall x :: x in order <==> x in names)
    && forall i, d :: 0 <= i < |order| && DependsOn(names, manifest, order[i], d) ==> d in order[..i]
  }

  /** Packages none of which can go first: each waits for one of them, possibly itself. */
  ghost predicate Stuck(names: seq<string>, manifest: Manifest, left: seq<string>) {
    && left != []
    && (forall x :: x in left ==> x in names)
    && forall x {:trigger WaitsInside(names, manifest, left, x)} :: x in left ==> WaitsInside(names, manifest, left, x)
  }

  ghost predicate WaitsInside(names: seq<string>, manifest: Manifest, left: seq<string>, x: string) {
    exists d :: d in left && DependsOn(names, manifest, x, d)
  }

  ghost predicate Arc(names: seq<string>, manifest: Manifest, w: seq<string>, i: nat)
    requires i + 1 < |w|
  {
    DependsOn(names, manifest, w[i], w[i + 1])
  }

  ghost predicate IsWalk(names: seq<string>, manifest: Manifest, w: seq<string>) {
    && (forall x :: x in w ==> x in names)
    && forall i :: 0 <= i < |w| - 1 ==> Arc(names, manifest, w, i)
  }

  ghost predicate IsCycle(names: seq<string>, manifest: Manifest, c: seq<string>) {
    c != [] && IsWalk(names, manifest, c) && DependsOn(names, manifest, c[|c| - 1], c[0])
  }

  /** In a build order no package comes before, or is itself, a workspace package its manifest lists. */
  lemma OrderRespectsManifests(names: seq<string>, manifest: Manifest, order: seq<string>, i: nat, j: nat)
    requires IsBuildOrder(names, manifest, order) && i < |order| && j < |order|
    requires order[j] in manifest(order[i]) && "@keeta-agent-stack/" <= order[j]
    ensures j < i
  {
    assert order[j] in order[..i];
    var k :| 0 <= k < i && order[k] == order[j];
    assert k == j;
  }

  /** What is outside the workspace or the set keeps no package waiting: it can always go first. */
  lemma OutsideNeverWaits(names: seq<string>, manifest: Manifest, left: seq<string>, x: string)
    requires x in left && WaitsInside(names, manifest, left, x)
    ensures exists d :: d in manifest(x) && "@keeta-agent-stack/" <= d && d in names && d in left
  {
  }

  // ---------- stuck packages contain a cycle ----------

  lemma {:induction false} WalkInside(
      names: seq<string>, manifest: Manifest, left: seq<string>, n: nat)
    returns (w: seq<string>)
    requires Stuck(names, manifest, left)
    ensures |w| == n + 1 && IsWalk(names, manifest, w) && forall x :: x in w ==> x in left
  {
    if n == 0 {
      w := [left[0]];
    } else {
      var shorter := WalkInside(names, manifest, left, n - 1);
      var last := shorter[n - 1];
      assert last in shorter && WaitsInside(names, manifest, left, last);
      var d :| d in left && DependsOn(names, manifest, last, d);
      w := shorter + [d];
      forall i | 0 <= i < |w| - 1
        ensures Arc(names, manifest, w, i)
      {
        if i < n - 1 {
          assert Arc(names, manifest, shorter, i);
          assert w[i] == shorter[i] && w[i + 1] == shorter[i + 1];
        }
      }
    }
  }

  lemma {:induction false} Pigeonhole(w: seq<string>, holes: set<string>)
    requires forall x :: x in w ==> x in holes
    ensures |w| > |holes| ==> exists i, j :: 0 <= i < j < |w| && w[i] == w[j]
  {
    if w != [] && NoRepeat(w) {
      var last := w[|w| - 1];
      var rest := w[..|w| - 1];
      forall x | x in rest
        ensures x in holes - {last}
      {
      }
      assert last in w;
      Pigeonhole(rest, holes - {last});
      assert NoRepeat(rest);
    }
  }

  lemma StuckHasCycle(names: seq<string>, manifest: Manifest, left: seq<string>)
    requires Stuck(names, manifest, left)
    ensures exists c :: IsCycle(names, manifest, c)
  {
    var holes := set x | x in left;
    var w := WalkInside(names, manifest, left, |holes|);
    Pigeonhole(w, holes);
    var i, j :| 0 <= i < j < |w| && w[i] == w[j];
    var c := w[i..j];
    forall k | 0 <= k < |c| - 1
      ensures Arc(names, manifest, c, k)
    {
      assert Arc(names, manifest, w, i + k);
      assert c[k] == w[i + k] && c[k + 1] == w[i + k + 1];
    }
    assert Arc(names, manifest, w, j - 1) && c[|c| - 1] == w[j - 1];
    assert IsCycle(names, manifest, c);
  }

  // ---------- a build order excludes cycles ----------

  lemma {:induction false} WalkGoesBack(
      names: seq<string>, manifest: Manifest, order: seq<string>, w: seq<string>, n: nat, at: nat)
    returns (to: nat)
    requires IsBuildOrder(names, manifest, order) && IsWalk(names, manifest, w)
    requires n < |w| && at < |order| && order[at] == w[0]
    ensures to <= at && order[to] == w[n]
  {
    to := at;
    if n > 0 {
      var previous := WalkGoesBack(names, manifest, order, w, n - 1, at);
      assert Arc(names, manifest, w, n - 1);
      assert DependsOn(names, manifest, order[previous], w[n]);
      to :| 0 <= to < previous && order[to] == w[n];
    }
  }

  lemma OrderExcludesCycle(names: seq<string>, manifest: Manifest, order: seq<string>, c: seq<string>)
    requires IsBuildOrder(names, manifest, order)
    ensures !IsCycle(names, manifest, c)
  {
    if IsCycle(names, manifest, c) {
      assert c[0] in c;
      var at: nat :| at < |order| && order[at] == c[0];
      var last := WalkGoesBack(names, manifest, order, c, |c| - 1, at);
      NotEarlier(order, at, last);
    }
  }

  lemma NotEarlier(order: seq<string>, at: nat, last: nat)
    requires NoRepeat(order) && last <= at < |order|
    ensures order[at] !in order[..last]
  {
  }

  // ---------- the algorithm ----------

  method Deduplicate(names: seq<string>) returns (unique: seq<string>)
    ensures NoRepeat(unique) && forall x :: x in unique <==> x in names
  {
    unique := [];
    for i := 0 to |names|
      invariant NoRepeat(unique) && forall x :: x in unique <==> x in names[..i]
    {
      assert names[..i + 1] == names[..i] + [names[i]];
      if names[i] !in unique { unique := unique + [names[i]]; }
    }
    assert names[..|names|] == names;
  }

  ghost predicate Progressing(names: seq<string>, manifest: Manifest, ordered: seq<string>, remaining: seq<string>) {
    && NoRepeat(ordered) && NoRepeat(remaining)
    && (forall x :: x in ordered || x in remaining <==> x in names)
    && (forall x :: x in ordered ==> x !in remaining)
    && forall i, d :: 0 <= i < |ordered| && DependsOn(names, manifest, ordered[i], d) ==> d in ordered[..i]
  }

  ghost predicate AllWait(names: seq<string>, manifest: Manifest, left: seq<string>, built: seq<string>) {
    forall x {:trigger Waits(names, manifest, built, x)} :: x in left ==> Waits(names, manifest, built, x)
  }

  ghost predicate Waits(names: seq<string>, manifest: Manifest, built: seq<string>, x: string) {
    exists d :: DependsOn(names, manifest, x, d) && d !in built
  }

  /** One pass over the packages still to build, in order. */
  method Pass(names: seq<string>, manifest: Manifest, built: seq<string>, remaining: seq<string>)
    returns (ordered: seq<string>, left: seq<string>)
    requires Progressing(names, manifest, built, remaining)
    ensures Progressing(names, manifest, ordered, left) && |left| <= |remaining|
    ensures |left| == |remaining| ==> ordered == built && AllWait(names, manifest, left, built)
  {
    ordered, left := built, [];
    for j := 0 to |remaining|
      invariant |left| <= j
      invariant Progressing(names, manifest, ordered, left + remaining[j..])
      invariant |left| == j ==> ordered == built && AllWait(names, manifest, left, built)
    {
      var name := remaining[j];
      assert remaining[j..] == [name] + remaining[j + 1..];
      assert remaining[..j + 1] == remaining[..j] + [name];
      if forall d :: d in manifest(name) && WORKSPACE_PREFIX <= d && d in names ==> d in ordered {
        BuildOne(names, manifest, ordered, left, name, remaining[j + 1..]);
        ordered := ordered + [name];
      } else {
        assert Waits(names, manifest, ordered, name);
        assert left + remaining[j..] == (left + [name]) + remaining[j + 1..];
        left := left + [name];
      }
    }
    assert left + remaining[|remaining|..] == left && remaining[..|remaining|] == remaining;
  }

  lemma BuildOne(
      names: seq<string>, manifest: Manifest, ordered: seq<string>, left: seq<string>, name: string,
      rest: seq<string>)
    requires Progressing(names, manifest, ordered, left + ([name] + rest))
    requires forall d :: DependsOn(names, manifest, name, d) ==> d in ordered
    ensures Progressing(names, manifest, ordered + [name], left + rest)
  {
    var before, after := left + ([name] + rest), left + rest;
    assert before[|left|] == name && name in before && name !in ordered;
    forall i, j | 0 <= i < j < |after|
      ensures after[i] != after[j]
    {
      var k, l := if i < |left| then i else i + 1, if j < |left| then j else j + 1;
      assert after[i] == before[k] && after[j] == before[l] && before[k] != before[l];
    }
    forall x
      ensures x in before <==> x == name || x in after
    {
    }
    forall k | 0 <= k < |after|
      ensures after[k] != name
    {
      assert after[k] == before[if k < |left| then k else k + 1];
    }
    forall i, d | 0 <= i < |ordered + [name]| && DependsOn(names, manifest, (ordered + [name])[i], d)
      ensures d in (ordered + [name])[..i]
    {
      assert (ordered + [name])[..i] == if i < |ordered| then ordered[..i] else ordered;
    }
  }

  /**
   * Passes over the remaining packages until none is left or a pass builds nothing.
   * Fails exactly when the in-set dependency graph has a cycle.
   */
  method TopologicallySortPackages(
      packageNames: seq<string>, manifest: Manifest)
    returns (r: Result<seq<string>, seq<string>>)
    ensures r.Ok? ==> IsBuildOrder(packageNames, manifest, r.value)
    ensures r.Err? ==> Stuck(packageNames, manifest, r.error)
    ensures r.Err? <==> exists c :: IsCycle(packageNames, manifest, c)
  {
    var remaining := Deduplicate(packageNames);
    var ordered: seq<string> := [];
    while |remaining| > 0
      invariant Progressing(packageNames, manifest, ordered, remaining)
      decreases |remaining|
    {
      ghost var before := remaining;
      var left;
      ordered, left := Pass(packageNames, manifest, ordered, remaining);
      if |left| == |remaining| {
        forall x | x in left
          ensures WaitsInside(packageNames, manifest, left, x)
        {
          assert Waits(packageNames, manifest, ordered, x);
          var d :| DependsOn(packageNames, manifest, x, d) && d !in ordered;
          assert d in left;
        }
        StuckHasCycle(packageNames, manifest, left);
        return Err(left);
      }
      remaining := left;
    }
    forall c { OrderExcludesCycle(packageNames, manifest, ordered, c); }
    r := Ok(ordered);
  }
}
