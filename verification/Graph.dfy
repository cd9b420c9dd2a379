/** Dependency graphs as maps from a step id to the ids it directly depends on. */
module Graph {
  type Deps = map<string, seq<string>>

  function Succ(g: Deps, id: string): seq<string> {
    if id in g then g[id] else []
  }

  ghost function Elems(s: seq<string>): set<string> {
    set x | x in s
  }

  ghost predicate Distinct(s: seq<string>) {
    forall i, j :: 0 <= i < j < |s| ==> s[i] != s[j]
  }

  lemma ElemsAppend(s: seq<string>, t: seq<string>)
    ensures Elems(s + t) == Elems(s) + Elems(t)
  {
    forall x | x in Elems(s) + Elems(t)
      ensures x in s + t
    {
    }
  }

  lemma ElemsPrefix(s: seq<string>, k: nat)
    requires k < |s|
    ensures Elems(s[..k + 1]) == Elems(s[..k]) + {s[k]}
  {
    assert s[..k + 1] == s[..k] + [s[k]];
    ElemsAppend(s[..k], [s[k]]);
  }

  lemma DistinctAppend(s: seq<string>, t: seq<string>)
    requires Distinct(s) && Distinct(t) && forall x :: x in t ==> x !in s
    ensures Distinct(s + t)
  {
    forall i, j | 0 <= i < |s| && 0 <= j < |t|
      ensures s[i] != t[j]
    {
      assert t[j] in t;
    }
  }

  lemma {:induction false} DistinctCount(s: seq<string>)
    requires Distinct(s)
    ensures |Elems(s)| == |s|
  {
    if s != [] {
      DistinctCount(s[..|s| - 1]);
      assert Elems(s) == Elems(s[..|s| - 1]) + {s[|s| - 1]};
    }
  }

  lemma SubsetCount(s: set<string>, t: set<string>)
    requires s <= t
    ensures |s| <= |t|
  {
    assert t == s + (t - s);
  }

  lemma SubsetOfSameSize(s: set<string>, t: set<string>)
    requires s <= t && |s| >= |t|
    ensures s == t
  {
    assert t == s + (t - s);
  }

  // The first occurrence of every element.
  function Dedup(s: seq<string>): (r: seq<string>)
    ensures Distinct(r) && Elems(r) == Elems(s)
  {
    if s == [] then [] else
      var init := Dedup(s[..|s| - 1]);
      assert Elems(s) == Elems(s[..|s| - 1]) + {s[|s| - 1]};
      assert Elems(init + [s[|s| - 1]]) == Elems(init) + {s[|s| - 1]};
      if s[|s| - 1] in init then init else init + [s[|s| - 1]]
  }

  // x occurs before y first does.
  ghost predicate SeenBefore(s: seq<string>, x: string, y: string) {
    exists k :: 0 <= k < |s| && s[k] == x && y !in s[..k + 1]
  }

  /** ... in the order of those occurrences. */
  lemma {:induction false} DedupKeepsOrder(s: seq<string>)
    ensures forall i, j :: 0 <= i < j < |Dedup(s)| ==> SeenBefore(s, Dedup(s)[i], Dedup(s)[j])
  {
    if s != [] {
      var n := |s| - 1;
      var init, r := s[..n], Dedup(s);
      DedupKeepsOrder(init);
      forall i, j | 0 <= i < j < |r|
        ensures SeenBefore(s, r[i], r[j])
      {
        var x := r[i];
        assert x == Dedup(init)[i] && x in Elems(Dedup(init));
        if j < |Dedup(init)| {
          var k :| 0 <= k < n && init[k] == x && r[j] !in init[..k + 1];
          assert s[..k + 1] == init[..k + 1];
        } else {
          var k :| 0 <= k < n && init[k] == x;
          assert s[n] !in Elems(init) && s[..k + 1] == init[..k + 1];
          assert s[k] == x;
        }
      }
    }
  }

  /** Each entry depends on the next one. */
  ghost predicate IsPath(g: Deps, p: seq<string>) {
    forall k :: 0 <= k < |p| - 1 ==> p[k + 1] in Succ(g, p[k])
  }

  ghost predicate IsCycle(g: Deps, p: seq<string>) {
    |p| >= 2 && p[0] == p[|p| - 1] && IsPath(g, p)
  }

  ghost predicate Cyclic(g: Deps) {
    exists p :: IsCycle(g, p)
  }

  ghost predicate ChainFrom(g: Deps, id: string, p: seq<string>) {
    p != [] && p[0] == id && IsPath(g, p)
  }

  lemma DependenciesFirstAppend(g: Deps, order: seq<string>, id: string)
    requires DependenciesFirst(g, order)
    requires forall d :: d in Succ(g, id) ==> d in order
    ensures DependenciesFirst(g, order + [id])
  {
    var longer := order + [id];
    forall k, d | 0 <= k < |longer| && d in Succ(g, longer[k])
      ensures d in longer[..k]
    {
      assert longer[..k] == order[..k];
      assert k == |order| ==> order[..k] == order;
    }
  }

  /** The longest dependency chain below id has n edges. */
  ghost predicate LongestChain(g: Deps, id: string, n: int) {
    && (exists p :: ChainFrom(g, id, p) && |p| == n + 1)
    && (forall p :: ChainFrom(g, id, p) ==> |p| <= n + 1)
  }

  /** Every entry comes after all of its dependencies. */
  ghost predicate DependenciesFirst(g: Deps, order: seq<string>) {
    forall k, d :: 0 <= k < |order| && d in Succ(g, order[k]) ==> d in order[..k]
  }

  lemma FirstEdge(g: Deps, p: seq<string>)
    requires IsPath(g, p)
    ensures |p| > 1 ==> p[1] in Succ(g, p[0])
  {
    if |p| > 1 {
      assert p[0 + 1] in Succ(g, p[0]);
    }
  }

  lemma LongestChainLeaf(g: Deps, id: string)
    requires Succ(g, id) == []
    ensures LongestChain(g, id, 0)
  {
    assert ChainFrom(g, id, [id]);
    forall p | ChainFrom(g, id, p)
      ensures |p| <= 1
    {
      FirstEdge(g, p);
    }
  }

  /** A node sits one level above the highest of its dependencies. */
  lemma LongestChainStep(g: Deps, id: string, dep: string, n: int)
    requires dep in Succ(g, id) && LongestChain(g, dep, n)
    requires forall d :: d in Succ(g, id) ==> exists m :: m <= n && LongestChain(g, d, m)
    ensures LongestChain(g, id, n + 1)
  {
    var q :| ChainFrom(g, dep, q) && |q| == n + 1;
    var chain := [id] + q;
    forall k | 0 <= k < |chain| - 1
      ensures chain[k + 1] in Succ(g, chain[k])
    {
      if k > 0 {
        assert q[(k - 1) + 1] in Succ(g, q[k - 1]);
      }
    }
    assert ChainFrom(g, id, chain);
    forall p | ChainFrom(g, id, p)
      ensures |p| <= n + 2
    {
      FirstEdge(g, p);
      if |p| > 1 {
        var m :| m <= n && LongestChain(g, p[1], m);
        var rest := p[1..];
        forall k | 0 <= k < |rest| - 1
          ensures rest[k + 1] in Succ(g, rest[k])
        {
          assert p[(k + 1) + 1] in Succ(g, p[k + 1]);
        }
        assert ChainFrom(g, p[1], rest);
      }
    }
  }

  ghost function Position(order: seq<string>, x: string): (k: nat)
    requires x in order
    ensures k < |order| && order[k] == x
    ensures forall i :: 0 <= i < |order| && order[i] == x ==> k <= i
  {
    if order[0] == x then 0 else
      assert order == [order[0]] + order[1..];
      1 + Position(order[1..], x)
  }

  /** Along a path, positions in a dependencies-first order strictly decrease. */
  lemma {:induction false} PositionsDecrease(g: Deps, order: seq<string>, p: seq<string>, n: nat)
    requires DependenciesFirst(g, order) && IsPath(g, p) && n < |p|
    requires p[0] in order
    ensures p[n] in order && Position(order, p[n]) <= Position(order, p[0]) - n
  {
    if n > 0 {
      PositionsDecrease(g, order, p, n - 1);
      var k := Position(order, p[n - 1]);
      assert p[(n - 1) + 1] in Succ(g, order[k]);
      var i :| 0 <= i < k && order[..k][i] == p[n];
      assert order[i] == p[n];
    }
  }

  /** A dependencies-first order of all nodes rules out every cycle. */
  lemma OrderedIsAcyclic(g: Deps, order: seq<string>)
    requires DependenciesFirst(g, order)
    requires forall id :: id in g ==> id in order
    ensures !Cyclic(g)
  {
    if p :| IsCycle(g, p) {
      FirstEdge(g, p);
      PositionsDecrease(g, order, p, |p| - 1);
    }
  }

  ghost predicate WaitsFor(g: Deps, id: string, stuck: set<string>) {
    exists d :: d in Succ(g, id) && d in stuck
  }

  /** ... and rules out a set of nodes that all wait for one another. */
  lemma {:induction false} OrderedHasNoDeadlock(g: Deps, order: seq<string>, stuck: set<string>, n: nat)
    requires DependenciesFirst(g, order) && n <= |order|
    requires forall x :: x in stuck ==> WaitsFor(g, x, stuck)
    ensures forall k :: 0 <= k < n ==> order[k] !in stuck
  {
    if n > 0 {
      OrderedHasNoDeadlock(g, order, stuck, n - 1);
      var id := order[n - 1];
      assert forall d :: d in Succ(g, id) ==> d in order[..n - 1] && d !in stuck;
      assert !WaitsFor(g, id, stuck);
    }
  }
}
