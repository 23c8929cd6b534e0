/** Venues, capability pairs and the string keys the router indexes and deduplicates by. */
module RouteTypes {
  import opened Common

  datatype Side = Buy | Sell

  datatype VenueKind = Dex | Anchor | Transfer | AgentPayment

  datatype SupportLevel = Listed | Readable | Routable | Simulatable | Executable | AgentReady

  datatype Pair = Pair(base: string, quote: string)

  /** A venue adapter together with the capability map it reports. */
  datatype Adapter = Adapter(
    id: string, kind: VenueKind, pairs: seq<Pair>, features: seq<string>, supportLevel: Option<SupportLevel>)

  /** One hop of a candidate path. */
  datatype Edge = Edge(adapter: Adapter, base: string, quote: string, supportLevel: Option<SupportLevel>)

  type Path = seq<Edge>
}

module RouteKeys {
  import opened RouteTypes

  /** Free of the two separators the keys are built with. */
  predicate Plain(s: string) {
    ':' !in s && '>' !in s
  }

  function PairKey(base: string, quote: string): string {
    base + ":" + quote
  }

  function StepKey(e: Edge): string {
    e.adapter.id + ":" + e.base + ":" + e.quote
  }

  function Signature(p: Path): string {
    if p == [] then ""
    else if |p| == 1 then StepKey(p[0])
    else StepKey(p[0]) + ">" + Signature(p[1..])
  }

  predicate PlainEdge(e: Edge) {
    Plain(e.adapter.id) && Plain(e.base) && Plain(e.quote)
  }

  /** The names a step key is made of; the support level is not part of it. */
  predicate SameHop(e: Edge, f: Edge) {
    e.adapter.id == f.adapter.id && e.base == f.base && e.quote == f.quote
  }

  lemma SplitAtFirst(a: string, b: string, c: string, d: string, sep: char)
    requires sep !in a && sep !in c && a + [sep] + b == c + [sep] + d
    ensures a == c && b == d
  {
    var s, t := a + [sep] + b, c + [sep] + d;
    assert s[|a|] == sep && t[|c|] == sep;
    assert forall i :: 0 <= i < |a| ==> s[i] == a[i];
    assert forall i :: 0 <= i < |c| ==> t[i] == c[i];
    assert |a| == |c|;
    assert a == s[..|a|] && c == t[..|c|];
    assert b == s[|a| + 1..] && d == t[|c| + 1..];
  }

  /** The second pair moves the separator: its base takes in what the first pair's quote begins with. */
  ghost predicate Overlaps(a: string, b: string, c: string, d: string) {
    exists t :: c == a + ":" + t && b == t + ":" + d
  }

  lemma LongerBase(a: string, b: string, c: string, d: string)
    requires PairKey(a, b) == PairKey(c, d) && |a| < |c|
    ensures Overlaps(a, b, c, d)
  {
    var key, t := PairKey(a, b), c[|a| + 1..];
    assert c == key[..|c|] && d == key[|c| + 1..] && a == key[..|a|] && b == key[|a| + 1..];
    assert key[|a|] == ':' && c[|a|] == ':';
    assert c == a + ":" + t && b == t + ":" + d;
  }

  lemma OverlapCollides(a: string, b: string, c: string, d: string, t: string)
    requires c == a + ":" + t && b == t + ":" + d
    ensures PairKey(a, b) == PairKey(c, d)
  {
    assert a + ":" + (t + ":" + d) == (a + ":" + t) + ":" + d;
  }

  /** Two pairs share an index key if and only if they are equal or overlap, one way or the other. */
  lemma PairKeysCollideIff(a: string, b: string, c: string, d: string)
    ensures PairKey(a, b) == PairKey(c, d) <==> (a == c && b == d) || Overlaps(a, b, c, d) || Overlaps(c, d, a, b)
  {
    if PairKey(a, b) == PairKey(c, d) {
      if |a| < |c| {
        LongerBase(a, b, c, d);
      } else if |c| < |a| {
        LongerBase(c, d, a, b);
      } else {
        var key := PairKey(a, b);
        assert a == key[..|a|] && c == key[..|c|] && b == key[|a| + 1..] && d == key[|c| + 1..];
      }
    }
    if t :| c == a + ":" + t && b == t + ":" + d {
      OverlapCollides(a, b, c, d, t);
    }
    if t :| a == c + ":" + t && d == t + ":" + b {
      OverlapCollides(c, d, a, b, t);
    }
  }

  /** No two pairs of these names share a key. */
  ghost predicate KeysAreInjective(names: set<string>) {
    forall a, b, c, d :: a in names && b in names && c in names && d in names && PairKey(a, b) == PairKey(c, d) ==>
      a == c && b == d
  }

  /** Names without a colon never collide. */
  lemma ColonFreeIsInjective(names: set<string>)
    requires forall x :: x in names ==> ':' !in x
    ensures KeysAreInjective(names)
  {
    forall a, b, c, d | a in names && b in names && c in names && d in names && PairKey(a, b) == PairKey(c, d)
      ensures a == c && b == d
    {
      PairKeysCollideIff(a, b, c, d);
    }
  }

  lemma StepKeyInjective(e: Edge, f: Edge)
    requires PlainEdge(e) && PlainEdge(f) && StepKey(e) == StepKey(f)
    ensures SameHop(e, f)
  {
    var a, b, c := e.adapter.id, e.base, e.quote;
    var x, y, z := f.adapter.id, f.base, f.quote;
    assert a + [':'] + (b + ":" + c) == StepKey(e) == StepKey(f) == x + [':'] + (y + ":" + z);
    SplitAtFirst(a, b + ":" + c, x, y + ":" + z, ':');
    assert b + [':'] + c == y + [':'] + z;
    SplitAtFirst(b, c, y, z, ':');
  }

  lemma StepKeyShape(e: Edge)
    requires PlainEdge(e)
    ensures '>' !in StepKey(e) && StepKey(e) != ""
  {
  }

  lemma SeparatorIffLonger(p: Path)
    requires p != [] && PlainEdge(p[0])
    ensures '>' in Signature(p) <==> |p| > 1
  {
    StepKeyShape(p[0]);
    if |p| > 1 {
      assert Signature(p)[|StepKey(p[0])|] == '>';
    }
  }

  /** Path signatures identify a path by its hops. */
  lemma {:induction false} SignatureInjective(p: Path, q: Path)
    requires forall e :: e in p || e in q ==> PlainEdge(e)
    requires Signature(p) == Signature(q)
    ensures |p| == |q| && forall k :: 0 <= k < |p| ==> SameHop(p[k], q[k])
  {
    if p != [] { StepKeyShape(p[0]); }
    if q != [] { StepKeyShape(q[0]); }
    if p == [] || q == [] {
      assert p == [] && q == [];
    } else if |p| == 1 || |q| == 1 {
      SeparatorIffLonger(p);
      SeparatorIffLonger(q);
      StepKeyInjective(p[0], q[0]);
    } else {
      SplitAtFirst(StepKey(p[0]), Signature(p[1..]), StepKey(q[0]), Signature(q[1..]), '>');
      StepKeyInjective(p[0], q[0]);
      SignatureInjective(p[1..], q[1..]);
      forall k | 0 <= k < |p|
        ensures SameHop(p[k], q[k])
      {
        if k > 0 {
          assert p[k] == p[1..][k - 1] && q[k] == q[1..][k - 1];
        }
      }
    }
  }
}
