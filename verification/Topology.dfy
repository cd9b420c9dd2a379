/** Resolution of a suite's steps into an executable order (execution/topology.go). */
module Topology {
  import opened Text
  import opened Graph

  datatype Node = Node(id: string, name: string, order: int, level: int, dependsOn: seq<string>)

  datatype Error =
    | DuplicateNode(node: string)
    | MissingDependency(node: string, dependency: string)
    | CycleFound(path: seq<string>)

  datatype Result = Ok(nodes: seq<Node>) | Err(error: Error)

  /***** What resolution is meant to achieve *****/

  function Normalized(n: Node): Node {
    n.(dependsOn := Dedup(n.dependsOn))
  }

  function NormalizeAll(nodes: seq<Node>): (r: seq<Node>)
    ensures |r| == |nodes| && forall i :: 0 <= i < |r| ==> r[i] == Normalized(nodes[i])
  {
    seq(|nodes|, i requires 0 <= i < |nodes| => Normalized(nodes[i]))
  }

  function Ids(nodes: seq<Node>): (r: seq<string>)
    ensures |r| == |nodes| && forall i :: 0 <= i < |r| ==> r[i] == nodes[i].id
  {
    seq(|nodes|, i requires 0 <= i < |nodes| => nodes[i].id)
  }

  // The graph of a list of nodes; the last node of an id counts, as in a Go map literal.
  function IndexOf(nodes: seq<Node>): (byID: map<string, Node>)
    ensures byID.Keys == Elems(Ids(nodes))
    ensures forall id :: id in byID ==> byID[id] in nodes && byID[id].id == id
  {
    if nodes == [] then map[] else
      var last := nodes[|nodes| - 1];
      assert Ids(nodes) == Ids(nodes[..|nodes| - 1]) + [last.id];
      IndexOf(nodes[..|nodes| - 1])[last.id := last]
  }

  function GraphOf(byID: map<string, Node>): Deps {
    map id | id in byID :: byID[id].dependsOn
  }

  ghost function DependencyGraph(nodes: seq<Node>): Deps {
    GraphOf(IndexOf(nodes))
  }

  lemma {:induction false} IndexOfEach(nodes: seq<Node>, i: nat)
    requires Distinct(Ids(nodes)) && i < |nodes|
    ensures nodes[i].id in IndexOf(nodes) && IndexOf(nodes)[nodes[i].id] == nodes[i]
  {
    assert Ids(nodes)[i] == nodes[i].id;
    if i < |nodes| - 1 {
      assert Ids(nodes)[|nodes| - 1] == nodes[|nodes| - 1].id;
      assert Ids(nodes[..|nodes| - 1]) == Ids(nodes)[..|nodes| - 1];
      IndexOfEach(nodes[..|nodes| - 1], i);
    }
  }

  // By declaration order, then by name: the `less` of sortTopologyIDs.
  predicate Less(byID: map<string, Node>, a: string, b: string) {
    if a !in byID || b !in byID then LexLess(a, b)
    else if byID[a].order != byID[b].order then byID[a].order < byID[b].order
    else LexLess(byID[a].name, byID[b].name)
  }

  ghost predicate Sorted(byID: map<string, Node>, ids: seq<string>) {
    forall i, j :: 0 <= i < j < |ids| ==> !Less(byID, ids[j], ids[i])
  }

  ghost predicate NodeLeq(a: Node, b: Node) {
    a.level < b.level || (a.level == b.level &&
    (a.order < b.order || (a.order == b.order && !Precedes(b.name, a.name))))
  }

  /** out is the input, reordered and levelled. */
  ghost predicate Resolves(nodes: seq<Node>, out: seq<Node>) {
    var g := DependencyGraph(nodes);
    && |out| == |nodes|
    && Distinct(Ids(out))
    && (forall k :: 0 <= k < |out| ==> out[k].(level := 0) in Levelless(nodes))
    && DependenciesFirst(g, Ids(out))
    && (forall k :: 0 <= k < |out| ==> LongestChain(g, out[k].id, out[k].level))
    && (forall j, k :: 0 <= j < k < |out| ==> NodeLeq(out[j], out[k]))
  }

  function Levelless(nodes: seq<Node>): (r: seq<Node>)
    ensures |r| == |nodes| && forall i :: 0 <= i < |r| ==> r[i] == nodes[i].(level := 0)
  {
    seq(|nodes|, i requires 0 <= i < |nodes| => nodes[i].(level := 0))
  }

  /***** The cycle search *****/

  // What the search keeps: the path is a chain of the nodes in progress, everything else that was
  // visited is finished, and nodes finish after their dependencies.
  ghost predicate SearchState(g: Deps, visiting: set<string>, visited: set<string>,
                              path: seq<string>, finished: seq<string>) {
    && visiting == Elems(path)
    && visited == Elems(path) + Elems(finished)
    && Elems(path) !! Elems(finished)
    && Distinct(path)
    && IsPath(g, path)
    && DependenciesFirst(g, finished)
  }

  lemma EnterKeepsState(g: Deps, visiting: set<string>, visited: set<string>,
                        path: seq<string>, finished: seq<string>, id: string)
    requires SearchState(g, visiting, visited, path, finished)
    requires id !in visited && (path != [] ==> id in Succ(g, path[|path| - 1]))
    ensures SearchState(g, visiting + {id}, visited + {id}, path + [id], finished)
  {
    ElemsAppend(path, [id]);
    forall k | 0 <= k < |path|
      ensures path[k] != id
    {
      assert path[k] in Elems(path);
    }
  }

  lemma LeaveKeepsState(g: Deps, visiting: set<string>, visited: set<string>,
                        path: seq<string>, finished: seq<string>)
    requires SearchState(g, visiting, visited, path, finished) && path != []
    requires Elems(Succ(g, path[|path| - 1])) <= Elems(finished)
    ensures var id := path[|path| - 1];
      SearchState(g, visiting - {id}, visited, path[..|path| - 1], finished + [id])
  {
    var id, rest := path[|path| - 1], path[..|path| - 1];
    assert path == rest + [id];
    ElemsAppend(rest, [id]);
    ElemsAppend(finished, [id]);
    forall d | d in Succ(g, id)
      ensures d in finished
    {
      assert d in Elems(Succ(g, id));
    }
    DependenciesFirstAppend(g, finished, id);
    assert id !in Elems(rest);
  }

  // All ids a graph mentions, as nodes or as dependencies.
  ghost function AllIds(g: Deps): set<string> {
    set id, d | id in g && d in [id] + g[id] :: d
  }

  lemma DependencyInUniverse(g: Deps, id: string, dependency: string)
    requires dependency in Succ(g, id)
    ensures dependency in AllIds(g)
  {
    assert id in g && dependency in [id] + g[id];
  }

  class CycleSearch {
    const g: Deps
    var visiting: set<string>
    var visited: set<string>
    var path: seq<string>
    ghost var finished: seq<string>  // in the order the calls returned

    constructor (g: Deps)
      ensures Valid() && path == [] && finished == [] && this.g == g
    {
      this.g := g;
      visiting, visited, path, finished := {}, {}, [], [];
    }

    ghost predicate Valid()
      reads this
    {
      SearchState(g, visiting, visited, path, finished)
    }

    ghost function Universe(): set<string> {
      AllIds(g)
    }

    method Enter(id: string)
      requires Valid() && id !in visited
      requires path != [] ==> id in Succ(g, path[|path| - 1])
      modifies this
      ensures Valid() && path == old(path) + [id] && finished == old(finished)
      ensures visited == old(visited) + {id}
    {
      EnterKeepsState(g, visiting, visited, path, finished, id);
      visited := visited + {id};
      visiting := visiting + {id};
      path := path + [id];
    }

    method Leave(id: string)
      requires Valid() && path != [] && path[|path| - 1] == id
      requires Elems(Succ(g, id)) <= Elems(finished)
      modifies this
      ensures Valid() && path == old(path)[..|old(path)| - 1] && visited == old(visited)
      ensures Elems(finished) == Elems(old(finished)) + {id}
    {
      LeaveKeepsState(g, visiting, visited, path, finished);
      ElemsAppend(finished, [id]);
      visiting := visiting - {id};
      path := path[..|path| - 1];
      finished := finished + [id];
    }

    method Visit(id: string) returns (cycle: seq<string>)
      requires Valid() && id in Universe() && id !in visited
      requires path != [] ==> id in Succ(g, path[|path| - 1])
      modifies this
      ensures cycle != [] ==> IsCycle(g, cycle)
      ensures cycle == [] ==>
        && Valid() && path == old(path) && id in Elems(finished)
        && Elems(old(finished)) <= Elems(finished) && old(visited) <= visited
      decreases Universe() - visited
    {
      Enter(id);
      ghost var entered := path;
      var deps := Succ(g, id);
      ghost var done := {};
      for k := 0 to |deps|
        invariant Valid() && path == entered && old(visited) + {id} <= visited
        invariant done == Elems(deps[..k]) && Elems(old(finished)) + done <= Elems(finished)
      {
        var dependency := deps[k];
        ElemsPrefix(deps, k);
        DependencyInUniverse(g, id, dependency);
        if dependency !in visited {
          cycle := Visit(dependency);
          if |cycle| > 0 {
            return;
          }
        } else if dependency in visiting {
          cycle := CloseCycle(dependency);
          return;
        }
        done := done + {dependency};
      }
      assert deps[..|deps|] == deps;
      Leave(id);
      cycle := [];
    }

    method CloseCycle(dependency: string) returns (cycle: seq<string>)
      requires Valid() && path != [] && dependency in visiting
      requires dependency in Succ(g, path[|path| - 1])
      ensures cycle != [] && IsCycle(g, cycle)
    {
      var start := FirstIndex(path, dependency);
      cycle := path[start..] + [dependency];
      CycleCloses(g, path, start, dependency);
    }

    static method FirstIndex(path: seq<string>, id: string) returns (start: nat)
      requires id in path
      ensures start < |path| && path[start] == id
    {
      start := 0;
      for i := 0 to |path|
        invariant id !in path[..i]
      {
        if path[i] == id {
          return i;
        }
      }
    }
  }

  lemma CycleCloses(g: Deps, path: seq<string>, start: nat, dependency: string)
    requires IsPath(g, path) && start < |path| && path[start] == dependency
    requires dependency in Succ(g, path[|path| - 1])
    ensures IsCycle(g, path[start..] + [dependency])
  {
    var cycle := path[start..] + [dependency];
    forall k | 0 <= k < |cycle| - 1
      ensures cycle[k + 1] in Succ(g, cycle[k])
    {
      assert k < |cycle| - 2 ==> path[(start + k) + 1] in Succ(g, path[start + k]);
    }
  }

  /** findTopologyCycle: a cycle if there is one, and otherwise an order that shows there is none. */
  method FindTopologyCycle(nodes: seq<Node>, byID: map<string, Node>) returns (cycle: seq<string>, ghost order: seq<string>)
    requires byID.Keys == Elems(Ids(nodes))
    ensures cycle != [] ==> IsCycle(GraphOf(byID), cycle)
    ensures cycle == [] ==> DependenciesFirst(GraphOf(byID), order) && byID.Keys <= Elems(order)
    ensures cycle == [] <==> !Cyclic(GraphOf(byID))
  {
    order := [];
    var search := new CycleSearch(GraphOf(byID));
    for i := 0 to |nodes|
      invariant search.Valid() && search.path == []
      invariant forall j :: 0 <= j < i ==> nodes[j].id in Elems(search.finished)
    {
      var id := nodes[i].id;
      assert Ids(nodes)[i] in byID;
      if id !in search.visited {
        assert id in search.g && id in [id] + search.g[id];
        cycle := search.Visit(id);
        if |cycle| > 0 {
          return;
        }
      }
    }
    cycle, order := [], search.finished;
    OrderedIsAcyclic(GraphOf(byID), order);
  }

  /***** Ordering by levels *****/

  method NormalizeTopologyDependencies(dependsOn: seq<string>) returns (result: seq<string>)
    ensures result == Dedup(dependsOn)
  {
    result := [];
    for i := 0 to |dependsOn|
      invariant result == Dedup(dependsOn[..i])
    {
      var duplicate := false;
      for j := 0 to |result|
        invariant duplicate <==> dependsOn[i] in result[..j]
      {
        if result[j] == dependsOn[i] {
          duplicate := true;
          break;
        }
      }
      assert dependsOn[..i + 1][..i] == dependsOn[..i];
      if !duplicate {
        result := result + [dependsOn[i]];
      }
    }
    assert dependsOn[..|dependsOn|] == dependsOn;
  }

  lemma LessIsAnOrder(byID: map<string, Node>, a: string, b: string, c: string)
    requires a in byID && b in byID && c in byID
    ensures !Less(byID, a, b) || !Less(byID, b, a)
    ensures !Less(byID, b, a) && !Less(byID, c, b) ==> !Less(byID, c, a)
  {
    LexTrichotomy(byID[a].name, byID[b].name);
    if byID[a].order == byID[b].order == byID[c].order && !Less(byID, b, a) && !Less(byID, c, b) {
      LexTransitive(byID[a].name, byID[b].name, byID[c].name);
    }
  }

  /** sortTopologyIDs: like sort.Slice it promises a sorted permutation and nothing about ties. */
  method SortTopologyIDs(ids: seq<string>, byID: map<string, Node>) returns (sorted: seq<string>)
    ensures multiset(sorted) == multiset(ids)
    ensures Elems(ids) <= byID.Keys ==> Sorted(byID, sorted) && ByOrderThenName(byID, sorted)
  {
    sorted := [];
    for i := 0 to |ids|
      invariant multiset(sorted) == multiset(ids[..i])
      invariant Elems(ids) <= byID.Keys ==> Sorted(byID, sorted)
    {
      assert ids[..i + 1] == ids[..i] + [ids[i]];
      sorted := InsertSorted(byID, sorted, ids[i], ids[..i]);
    }
    assert ids[..|ids|] == ids;
    if Elems(ids) <= byID.Keys {
      SortedMeans(byID, ids, sorted);
    }
  }

  // The declaration order never decreases, and where it is equal the names do not, character by character.
  ghost predicate ByOrderThenName(byID: map<string, Node>, ids: seq<string>) {
    forall i, j :: 0 <= i < j < |ids| ==> InOrder(byID, ids[i], ids[j])
  }

  ghost predicate InOrder(byID: map<string, Node>, a: string, b: string) {
    && a in byID && b in byID
    && (byID[a].order < byID[b].order ||
        (byID[a].order == byID[b].order && !Precedes(byID[b].name, byID[a].name)))
  }

  lemma SortedMeans(byID: map<string, Node>, ids: seq<string>, sorted: seq<string>)
    requires multiset(sorted) == multiset(ids) && Elems(ids) <= byID.Keys && Sorted(byID, sorted)
    ensures ByOrderThenName(byID, sorted)
  {
    forall i, j | 0 <= i < j < |sorted|
      ensures InOrder(byID, sorted[i], sorted[j])
    {
      assert sorted[i] in multiset(sorted) && sorted[j] in multiset(sorted);
      assert sorted[i] in multiset(ids) && sorted[j] in multiset(ids);
      assert sorted[i] in Elems(ids) && sorted[j] in Elems(ids);
      LexLessMeans(byID[sorted[j]].name, byID[sorted[i]].name);
    }
  }

  method InsertSorted(byID: map<string, Node>, s: seq<string>, x: string, ghost from: seq<string>)
    returns (r: seq<string>)
    requires multiset(s) == multiset(from)
    ensures multiset(r) == multiset(from + [x])
    ensures Elems(from + [x]) <= byID.Keys && Sorted(byID, s) ==> Sorted(byID, r)
  {
    var k := |s|;
    while k > 0 && Less(byID, x, s[k - 1])
      invariant 0 <= k <= |s|
      invariant forall j :: k <= j < |s| ==> Less(byID, x, s[j])
    {
      k := k - 1;
    }
    r := s[..k] + [x] + s[k..];
    assert s == s[..k] + s[k..];
    if Elems(from + [x]) <= byID.Keys && Sorted(byID, s) {
      assert forall y :: y in s ==> y in multiset(from);
      InsertionSorts(byID, s, k, x);
    }
  }

  lemma InsertionSorts(byID: map<string, Node>, s: seq<string>, k: nat, x: string)
    requires Sorted(byID, s) && k <= |s| && x in byID && Elems(s) <= byID.Keys
    requires k > 0 ==> !Less(byID, x, s[k - 1])
    requires forall j :: k <= j < |s| ==> Less(byID, x, s[j])
    ensures Sorted(byID, s[..k] + [x] + s[k..])
  {
    forall i | 0 <= i < |s|
      ensures i < k ==> !Less(byID, x, s[i])
      ensures i >= k ==> !Less(byID, s[i], x)
    {
      assert s[i] in Elems(s);
      if i < k - 1 {
        assert s[k - 1] in Elems(s);
        LessIsAnOrder(byID, s[i], s[k - 1], x);
      } else {
        LessIsAnOrder(byID, s[i], x, x);
      }
    }
  }

  function Get(m: map<string, seq<string>>, id: string): seq<string> {
    if id in m then m[id] else []
  }

  // dependants lists, without repetition, who depends on whom: over the nodes seen so far, and over
  // the first dependencies of the node at hand.
  ghost predicate Lists(byID: map<string, Node>, seen: set<string>, cur: string, part: seq<string>,
                        dependants: map<string, seq<string>>) {
    && (forall d :: Distinct(Get(dependants, d)))
    && (forall d, x {:trigger x in Get(dependants, d)} :: x in Get(dependants, d) <==>
         (x in seen && x in byID && d in byID[x].dependsOn) || (x == cur && d in part))
  }

  ghost predicate AllPresent(deps: seq<string>, byID: map<string, Node>) {
    forall d :: d in deps ==> d in byID
  }

  lemma ListsAppend(byID: map<string, Node>, seen: set<string>, cur: string, deps: seq<string>, j: nat,
                    dependants: map<string, seq<string>>)
    requires j < |deps| && Distinct(deps) && cur !in seen
    requires Lists(byID, seen, cur, deps[..j], dependants)
    ensures Lists(byID, seen, cur, deps[..j + 1], dependants[deps[j] := Get(dependants, deps[j]) + [cur]])
  {
    var d := deps[j];
    var was, now := Get(dependants, d), dependants[d := Get(dependants, d) + [cur]];
    assert deps[..j + 1] == deps[..j] + [d];
    assert cur !in was;
    forall e, x
      ensures x in Get(now, e) <==> (x in seen && x in byID && e in byID[x].dependsOn) || (x == cur && e in deps[..j + 1])
    {
      assert e != d ==> Get(now, e) == Get(dependants, e);
    }
    forall e
      ensures Distinct(Get(now, e))
    {
      assert e != d ==> Get(now, e) == Get(dependants, e);
    }
  }

  lemma ListsNext(byID: map<string, Node>, seen: set<string>, cur: string, dependants: map<string, seq<string>>)
    requires cur in byID && Lists(byID, seen, cur, byID[cur].dependsOn, dependants)
    ensures Lists(byID, seen + {cur}, "", [], dependants)
  {
  }

  /** The inner loop over one node's dependencies; stops at the first one that does not exist. */
  method RecordNode(byID: map<string, Node>, ghost seen: set<string>, node: Node,
                    dependants: map<string, seq<string>>)
    returns (r: map<string, seq<string>>, missing: Option<string>)
    requires node.id !in seen && Distinct(node.dependsOn)
    requires Lists(byID, seen, node.id, [], dependants)
    ensures missing.None? <==> AllPresent(node.dependsOn, byID)
    ensures missing.Some? ==> FirstAbsent(node.dependsOn, byID, missing.value)
    ensures missing.None? ==> Lists(byID, seen, node.id, node.dependsOn, r)
  {
    r, missing := dependants, None;
    for j := 0 to |node.dependsOn|
      invariant Lists(byID, seen, node.id, node.dependsOn[..j], r)
      invariant AllPresent(node.dependsOn[..j], byID)
    {
      var dependency := node.dependsOn[j];
      if dependency !in byID {
        missing := Some(dependency);
        return;
      }
      ListsAppend(byID, seen, node.id, node.dependsOn, j, r);
      assert node.dependsOn[..j + 1] == node.dependsOn[..j] + [dependency];
      r := r[dependency := Get(r, dependency) + [node.id]];
    }
    assert node.dependsOn[..|node.dependsOn|] == node.dependsOn;
  }

  // The i-th node is the first with a missing dependency, and d is the first one it misses.
  ghost predicate FirstMissing(nodes: seq<Node>, byID: map<string, Node>, i: int, d: string) {
    && 0 <= i < |nodes|
    && (forall k :: 0 <= k < i ==> AllPresent(nodes[k].dependsOn, byID))
    && FirstAbsent(nodes[i].dependsOn, byID, d)
  }

  ghost predicate FirstAbsent(deps: seq<string>, byID: map<string, Node>, d: string) {
    d !in byID && exists j :: 0 <= j < |deps| && deps[j] == d && AllPresent(deps[..j], byID)
  }

  ghost predicate IsFirstMissing(nodes: seq<Node>, byID: map<string, Node>, e: Error) {
    exists i :: 0 <= i < |nodes| && e.MissingDependency? && e.node == nodes[i].id &&
                FirstMissing(nodes, byID, i, e.dependency)
  }

  ghost predicate NoMissing(nodes: seq<Node>, byID: map<string, Node>) {
    forall k :: 0 <= k < |nodes| ==> AllPresent(nodes[k].dependsOn, byID)
  }

  ghost predicate Indexes(byID: map<string, Node>, nodes: seq<Node>) {
    && byID.Keys == Elems(Ids(nodes))
    && Distinct(Ids(nodes))
    && (forall i :: 0 <= i < |nodes| ==> nodes[i].id in byID && byID[nodes[i].id] == nodes[i])
  }

  lemma DistinctFresh(s: seq<string>, i: nat)
    requires Distinct(s) && i < |s|
    ensures s[i] !in Elems(s[..i])
  {
  }

  ghost predicate Indegrees(byID: map<string, Node>, seen: set<string>, indegree: map<string, int>) {
    && indegree.Keys == seen
    && (forall id :: id in indegree ==> id in byID && indegree[id] == |byID[id].dependsOn|)
  }

  lemma IndegreesNext(byID: map<string, Node>, seen: set<string>, indegree: map<string, int>, node: Node)
    requires Indegrees(byID, seen, indegree) && node.id in byID && byID[node.id] == node
    ensures Indegrees(byID, seen + {node.id}, indegree[node.id := |node.dependsOn|])
  {
  }

  lemma MissingFound(nodes: seq<Node>, byID: map<string, Node>, i: nat, d: string)
    requires i < |nodes| && FirstAbsent(nodes[i].dependsOn, byID, d)
    requires forall k :: 0 <= k < i ==> AllPresent(nodes[k].dependsOn, byID)
    ensures !NoMissing(nodes, byID) && IsFirstMissing(nodes, byID, MissingDependency(nodes[i].id, d))
  {
    assert FirstMissing(nodes, byID, i, d);
    assert !AllPresent(nodes[i].dependsOn, byID);
  }

  /** Counts every node's dependencies and lists its dependants, or names the first missing one. */
  method CountDependencies(nodes: seq<Node>, byID: map<string, Node>)
    returns (indegree: map<string, int>, dependants: map<string, seq<string>>, missing: Option<Error>)
    requires Indexes(byID, nodes)
    requires forall i :: 0 <= i < |nodes| ==> Distinct(nodes[i].dependsOn)
    ensures missing.None? <==> NoMissing(nodes, byID)
    ensures missing.Some? ==> IsFirstMissing(nodes, byID, missing.value)
    ensures missing.None? ==> indegree.Keys == byID.Keys && Lists(byID, byID.Keys, "", [], dependants)
    ensures missing.None? ==> forall id :: id in byID ==> indegree[id] == |byID[id].dependsOn|
  {
    indegree, dependants, missing := map[], map[], None;
    ghost var ids := Ids(nodes);
    for i := 0 to |nodes|
      invariant forall k :: 0 <= k < i ==> AllPresent(nodes[k].dependsOn, byID)
      invariant Indegrees(byID, Elems(ids[..i]), indegree)
      invariant Lists(byID, Elems(ids[..i]), "", [], dependants)
    {
      var node := nodes[i];
      ElemsPrefix(ids, i);
      DistinctFresh(ids, i);
      IndegreesNext(byID, Elems(ids[..i]), indegree, node);
      indegree := indegree[node.id := |node.dependsOn|];
      var absent;
      dependants, absent := RecordNode(byID, Elems(ids[..i]), node, dependants);
      if absent.None? {
        ListsNext(byID, Elems(ids[..i]), node.id, dependants);
      }
      if absent.Some? {
        missing := Some(MissingDependency(node.id, absent.value));
        MissingFound(nodes, byID, i, absent.value);
        return;
      }
    }
    assert ids[..|nodes|] == ids;
  }

  /** Counts one finished dependency down in each of its dependants; freed lists those left with none. */
  method Release(dependants: seq<string>, indegree: map<string, int>)
    returns (r: map<string, int>, freed: seq<string>)
    requires Distinct(dependants) && Elems(dependants) <= indegree.Keys
    ensures r.Keys == indegree.Keys
    ensures forall x :: x in r ==> r[x] == indegree[x] - (if x in dependants then 1 else 0)
    ensures Distinct(freed)
    ensures forall x :: x in freed <==> x in dependants && r[x] == 0
  {
    r, freed := indegree, [];
    for k := 0 to |dependants|
      invariant r.Keys == indegree.Keys && Distinct(freed)
      invariant forall x :: x in r ==> r[x] == indegree[x] - (if x in dependants[..k] then 1 else 0)
      invariant forall x :: x in freed <==> x in dependants[..k] && r[x] == 0
    {
      var x := dependants[k];
      assert x in Elems(dependants) && x !in dependants[..k];
      assert dependants[..k + 1] == dependants[..k] + [x];
      r := r[x := r[x] - 1];
      if r[x] == 0 {
        freed := freed + [x];
      }
    }
    assert dependants[..|dependants|] == dependants;
  }

  // The nodes placed so far: final, and all of a level at most the current one.
  ghost predicate Placed(byID: map<string, Node>, level: int, ordered: seq<Node>) {
    && Distinct(Ids(ordered))
    && DependenciesFirst(GraphOf(byID), Ids(ordered))
    && (forall k :: 0 <= k < |ordered| ==> PlacedNode(byID, level, ordered[k]))
    && (forall j, k :: 0 <= j < k < |ordered| ==> NodeLeq(ordered[j], ordered[k]))
  }

  ghost predicate PlacedNode(byID: map<string, Node>, level: int, n: Node) {
    && n.id in byID && n == byID[n.id].(level := n.level)
    && n.level <= level
    && LongestChain(GraphOf(byID), n.id, n.level)
  }

  // A node all of whose dependencies are placed, and whose level is the given one.
  ghost predicate Waiting(byID: map<string, Node>, level: int, placed: seq<string>, x: string) {
    && x in byID && byID[x].id == x && x !in placed
    && Elems(byID[x].dependsOn) <= Elems(placed)
    && LongestChain(GraphOf(byID), x, level)
  }

  // The nodes of the current level that are still to be placed.
  ghost predicate Wave(byID: map<string, Node>, level: int, ordered: seq<Node>, wave: seq<string>) {
    && Distinct(wave) && Sorted(byID, wave)
    && (forall x :: x in wave ==> Waiting(byID, level, Ids(ordered), x))
    && (forall k, x :: 0 <= k < |ordered| && x in wave ==> ComesBefore(byID, level, ordered[k], x))
  }

  ghost predicate ComesBefore(byID: map<string, Node>, level: int, n: Node, x: string) {
    x in byID && NodeLeq(n, byID[x].(level := level))
  }

  // The nodes of the next level found so far.
  ghost predicate Next(byID: map<string, Node>, level: int, placed: seq<string>, wave: seq<string>, next: seq<string>) {
    && Distinct(next)
    && (forall x :: x in next ==> x !in wave && Waiting(byID, level + 1, placed, x))
    && (forall x :: x in byID && x !in placed && x !in wave && Elems(byID[x].dependsOn) <= Elems(placed) ==> x in next)
  }

  // How many dependencies every node still lacks.
  ghost predicate Counts(byID: map<string, Node>, placed: seq<string>, indegree: map<string, int>) {
    && indegree.Keys == byID.Keys
    && (forall x :: x in byID ==> indegree[x] == |Elems(byID[x].dependsOn) - Elems(placed)|)
  }

  lemma IdsAppend(ordered: seq<Node>, n: Node)
    ensures Ids(ordered + [n]) == Ids(ordered) + [n.id]
  {
  }

  lemma PlaceStep(byID: map<string, Node>, level: int, ordered: seq<Node>, wave: seq<string>)
    requires Placed(byID, level, ordered) && Wave(byID, level, ordered, wave) && wave != []
    ensures wave[0] in byID && byID[wave[0]].id == wave[0]
    ensures Placed(byID, level, ordered + [byID[wave[0]].(level := level)])
  {
    var id := wave[0];
    assert Waiting(byID, level, Ids(ordered), id);
    var node := byID[id].(level := level);
    IdsAppend(ordered, node);
    forall d | d in Succ(GraphOf(byID), id)
      ensures d in Ids(ordered)
    {
      assert d in Elems(byID[id].dependsOn);
    }
    DependenciesFirstAppend(GraphOf(byID), Ids(ordered), id);
    assert PlacedNode(byID, level, node);
    forall k | 0 <= k < |ordered|
      ensures NodeLeq(ordered[k], node)
    {
      assert ComesBefore(byID, level, ordered[k], id);
    }
  }

  lemma WaveStep(byID: map<string, Node>, level: int, ordered: seq<Node>, wave: seq<string>)
    requires Wave(byID, level, ordered, wave) && wave != [] && wave[0] in byID && byID[wave[0]].id == wave[0]
    ensures Wave(byID, level, ordered + [byID[wave[0]].(level := level)], wave[1..])
  {
    var node := byID[wave[0]].(level := level);
    IdsAppend(ordered, node);
    ElemsAppend(Ids(ordered), [node.id]);
    var rest := wave[1..];
    forall x | x in rest
      ensures Waiting(byID, level, Ids(ordered + [node]), x) && ComesBefore(byID, level, node, x)
    {
      assert x in wave && Waiting(byID, level, Ids(ordered), x);
      var i :| 0 < i < |wave| && wave[i] == x;
      assert !Less(byID, wave[i], wave[0]);
      LexLessMeans(byID[x].name, node.name);
    }
    forall k, x | 0 <= k < |ordered + [node]| && x in rest
      ensures ComesBefore(byID, level, (ordered + [node])[k], x)
    {
      assert x in wave;
    }
  }

  // The dependencies of a placed node are placed.
  lemma PlacedIsClosed(byID: map<string, Node>, level: int, ordered: seq<Node>, x: string)
    requires Placed(byID, level, ordered) && x in Ids(ordered)
    ensures x in byID && Elems(byID[x].dependsOn) <= Elems(Ids(ordered))
  {
    var k :| 0 <= k < |ordered| && Ids(ordered)[k] == x;
    assert PlacedNode(byID, level, ordered[k]);
    forall d | d in byID[x].dependsOn
      ensures d in Ids(ordered)
    {
      assert d in Succ(GraphOf(byID), Ids(ordered)[k]);
    }
  }

  lemma OneLess(deps: set<string>, placed: set<string>, id: string)
    requires id !in placed
    ensures |deps - (placed + {id})| == |deps - placed| - (if id in deps then 1 else 0)
  {
    assert deps - (placed + {id}) == deps - placed - {id};
  }

  lemma CountsStep(byID: map<string, Node>, placed: seq<string>, id: string,
                   indegree: map<string, int>, indegree': map<string, int>, dependants: seq<string>)
    requires Counts(byID, placed, indegree) && id !in placed && indegree'.Keys == byID.Keys
    requires forall x :: x in dependants <==> x in byID && id in byID[x].dependsOn
    requires forall x :: x in indegree' ==> indegree'[x] == indegree[x] - (if x in dependants then 1 else 0)
    ensures Counts(byID, placed + [id], indegree')
  {
    ElemsAppend(placed, [id]);
    assert Elems([id]) == {id};
    forall x | x in byID
      ensures indegree'[x] == |Elems(byID[x].dependsOn) - Elems(placed + [id])|
    {
      assert id in Elems(byID[x].dependsOn) <==> x in dependants;
      OneLess(Elems(byID[x].dependsOn), Elems(placed), id);
    }
  }

  // A dependant freed by the last placed node belongs to the next level.
  lemma FreedIsWaiting(byID: map<string, Node>, level: int, ordered: seq<Node>, wave: seq<string>, next: seq<string>,
                       node: Node, x: string)
    requires KeysMatch(byID) && Placed(byID, level, ordered) && Placed(byID, level, ordered + [node])
    requires Wave(byID, level, ordered, wave) && node.id in wave && node.level == level
    requires Next(byID, level, Ids(ordered), wave, next)
    requires Freed(byID, Ids(ordered), node.id, x)
    ensures x !in wave && x !in next && Waiting(byID, level + 1, Ids(ordered) + [node.id], x)
  {
    assert node.id in Elems(byID[x].dependsOn);
    assert node.id !in Elems(Ids(ordered)) by {
      assert Waiting(byID, level, Ids(ordered), node.id);
    }
    FreedIsNew(byID, level, ordered, wave, next, x, node.id);
    IdsAppend(ordered, node);
    FreedLevel(byID, level, ordered, node, x);
  }

  lemma FreedLevel(byID: map<string, Node>, level: int, ordered: seq<Node>, node: Node, x: string)
    requires Placed(byID, level, ordered + [node]) && node.level == level
    requires Freed(byID, Ids(ordered), node.id, x)
    ensures LongestChain(GraphOf(byID), x, level + 1)
  {
    var g, placed := GraphOf(byID), ordered + [node];
    IdsAppend(ordered, node);
    assert PlacedNode(byID, level, placed[|ordered|]);
    forall d | d in Succ(g, x)
      ensures exists m :: m <= level && LongestChain(g, d, m)
    {
      assert d in Elems(byID[x].dependsOn);
      var k :| 0 <= k < |placed| && Ids(placed)[k] == d;
      assert PlacedNode(byID, level, placed[k]);
    }
    LongestChainStep(g, x, node.id, level);
  }

  // x lacked id and nothing else.
  ghost predicate Freed(byID: map<string, Node>, placed: seq<string>, id: string, x: string) {
    x in byID && id in byID[x].dependsOn && Elems(byID[x].dependsOn) <= Elems(placed + [id])
  }

  lemma NextStep(byID: map<string, Node>, level: int, ordered: seq<Node>, wave: seq<string>, next: seq<string>,
                 freed: seq<string>, node: Node)
    requires KeysMatch(byID) && Placed(byID, level, ordered) && Placed(byID, level, ordered + [node])
    requires Wave(byID, level, ordered, wave) && wave != [] && node.id == wave[0] && node.level == level
    requires Next(byID, level, Ids(ordered), wave, next) && Distinct(freed)
    requires forall x :: x in freed <==> Freed(byID, Ids(ordered), node.id, x)
    ensures Next(byID, level, Ids(ordered) + [node.id], wave[1..], next + freed)
  {
    var placed := Ids(ordered);
    forall x | x in freed
      ensures x !in wave && x !in next && Waiting(byID, level + 1, placed + [node.id], x)
    {
      FreedIsWaiting(byID, level, ordered, wave, next, node, x);
    }
    NextCollects(byID, level, placed, wave, next, freed);
  }

  lemma NextCollects(byID: map<string, Node>, level: int, placed: seq<string>, wave: seq<string>, next: seq<string>,
                     freed: seq<string>)
    requires wave != [] && Next(byID, level, placed, wave, next) && Distinct(freed)
    requires forall x :: Freed(byID, placed, wave[0], x) ==> x in freed
    requires forall x :: x in freed ==> x !in wave && x !in next && Waiting(byID, level + 1, placed + [wave[0]], x)
    ensures Next(byID, level, placed + [wave[0]], wave[1..], next + freed)
  {
    var id := wave[0];
    ElemsAppend(placed, [id]);
    DistinctAppend(next, freed);
    assert wave == [id] + wave[1..];
    forall x | x in next
      ensures x !in wave && Waiting(byID, level + 1, placed + [id], x)
    {
      assert Waiting(byID, level + 1, placed, x);
    }
    forall x | x in byID && x !in placed + [id] && x !in wave[1..] && Elems(byID[x].dependsOn) <= Elems(placed + [id])
      ensures x in next + freed
    {
      if id in byID[x].dependsOn {
        assert Freed(byID, placed, id, x);
      } else {
        assert Elems(byID[x].dependsOn) <= Elems(placed);
      }
    }
  }

  lemma FreedIsNew(byID: map<string, Node>, level: int, ordered: seq<Node>, wave: seq<string>, next: seq<string>,
                   x: string, id: string)
    requires Placed(byID, level, ordered) && Wave(byID, level, ordered, wave)
    requires Next(byID, level, Ids(ordered), wave, next)
    requires x in byID && id in Elems(byID[x].dependsOn) && id !in Elems(Ids(ordered)) && id in wave
    ensures x !in wave && x !in next && x !in Ids(ordered) && x != id
  {
    assert x in wave ==> Waiting(byID, level, Ids(ordered), x);
    assert x in next ==> Waiting(byID, level + 1, Ids(ordered), x);
    if x in Ids(ordered) {
      PlacedIsClosed(byID, level, ordered, x);
    }
  }

  ghost predicate KeysMatch(byID: map<string, Node>) {
    forall x :: x in byID ==> byID[x].id == x
  }

  // A whole level is placed: the next one begins.
  lemma NextWave(byID: map<string, Node>, level: int, ordered: seq<Node>, next: seq<string>, wave: seq<string>)
    requires Placed(byID, level, ordered) && Next(byID, level, Ids(ordered), [], next)
    requires multiset(wave) == multiset(next) && Sorted(byID, wave)
    ensures Placed(byID, level + 1, ordered) && Wave(byID, level + 1, ordered, wave)
    ensures Next(byID, level + 1, Ids(ordered), wave, [])
  {
    SamePermutation(next, wave);
    forall x | x in wave
      ensures Waiting(byID, level + 1, Ids(ordered), x)
    {
      assert x in next;
    }
    forall k | 0 <= k < |ordered|
      ensures PlacedNode(byID, level + 1, ordered[k]) && ordered[k].level <= level
    {
      assert PlacedNode(byID, level, ordered[k]);
    }
  }

  lemma SamePermutation(s: seq<string>, t: seq<string>)
    requires multiset(s) == multiset(t) && Distinct(s)
    ensures Distinct(t) && forall x :: x in s <==> x in t
  {
    forall x
      ensures x in s <==> x in t
    {
      assert x in multiset(s) <==> x in multiset(t);
    }
    DistinctMultiset(s);
    MultisetDistinct(t);
  }

  lemma {:induction false} DistinctMultiset(s: seq<string>)
    requires Distinct(s)
    ensures forall x :: multiset(s)[x] <= 1
  {
    if s != [] {
      DistinctMultiset(s[1..]);
      assert s == [s[0]] + s[1..];
      assert s[0] !in s[1..];
    }
  }

  lemma {:induction false} MultisetDistinct(s: seq<string>)
    requires forall x :: multiset(s)[x] <= 1
    ensures Distinct(s)
  {
    if s != [] {
      assert s == [s[0]] + s[1..];
      assert forall x :: multiset(s)[x] == multiset([s[0]])[x] + multiset(s[1..])[x];
      MultisetDistinct(s[1..]);
      assert s[0] !in multiset(s[1..]);
    }
  }

  lemma CountsStart(byID: map<string, Node>, indegree: map<string, int>)
    requires indegree.Keys == byID.Keys
    requires forall x :: x in byID ==> Distinct(byID[x].dependsOn) && indegree[x] == |byID[x].dependsOn|
    ensures Counts(byID, [], indegree)
  {
    forall x | x in byID
      ensures indegree[x] == |Elems(byID[x].dependsOn) - Elems([])|
    {
      DistinctCount(byID[x].dependsOn);
      assert Elems(byID[x].dependsOn) - Elems([]) == Elems(byID[x].dependsOn);
    }
  }

  lemma FreedAreListed(byID: map<string, Node>, placed: seq<string>, id: string, indegree: map<string, int>,
                       dependants: seq<string>)
    requires Counts(byID, placed + [id], indegree)
    requires forall x :: x in dependants <==> x in byID && id in byID[x].dependsOn
    ensures forall x :: Freed(byID, placed, id, x) <==> x in dependants && x in indegree && indegree[x] == 0
  {
    forall x | x in dependants
      ensures Freed(byID, placed, id, x) <==> indegree[x] == 0
    {
      assert x in byID;
      NothingLeft(Elems(byID[x].dependsOn), Elems(placed + [id]));
    }
  }

  lemma NothingLeft(s: set<string>, t: set<string>)
    ensures |s - t| == 0 <==> s <= t
  {
    if s - t == {} {
      forall x | x in s
        ensures x in t
      {
        assert x !in s - t;
      }
    }
  }

  /** The body of the loop over one level: places wave[0] and frees its dependants. */
  method PlaceNode(byID: map<string, Node>, dependants: map<string, seq<string>>, level: int,
                   ghost wave: seq<string>, id: string, ordered: seq<Node>, next: seq<string>, indegree: map<string, int>)
    returns (ordered': seq<Node>, next': seq<string>, indegree': map<string, int>)
    requires KeysMatch(byID) && Lists(byID, byID.Keys, "", [], dependants)
    requires Placed(byID, level, ordered) && Wave(byID, level, ordered, wave) && wave != [] && id == wave[0]
    requires Next(byID, level, Ids(ordered), wave, next) && Counts(byID, Ids(ordered), indegree)
    ensures Placed(byID, level, ordered') && Wave(byID, level, ordered', wave[1..])
    ensures Next(byID, level, Ids(ordered'), wave[1..], next') && Counts(byID, Ids(ordered'), indegree')
    ensures |ordered'| == |ordered| + 1
  {
    PlaceStep(byID, level, ordered, wave);
    WaveStep(byID, level, ordered, wave);
    var node := byID[id].(level := level);
    IdsAppend(ordered, node);
    ordered' := ordered + [node];
    var freed;
    DependantsExact(byID, dependants, id);
    indegree', freed := Release(Get(dependants, id), indegree);
    assert id !in Ids(ordered) by {
      assert Waiting(byID, level, Ids(ordered), id);
    }
    CountsStep(byID, Ids(ordered), id, indegree, indegree', Get(dependants, id));
    FreedAreListed(byID, Ids(ordered), id, indegree', Get(dependants, id));
    NextStep(byID, level, ordered, wave, next, freed, node);
    next' := next + freed;
  }

  lemma PlacedFits(byID: map<string, Node>, level: int, ordered: seq<Node>)
    requires Placed(byID, level, ordered)
    ensures |ordered| <= |byID|
  {
    DistinctCount(Ids(ordered));
    forall x | x in Ids(ordered)
      ensures x in byID
    {
      var k :| 0 <= k < |ordered| && Ids(ordered)[k] == x;
      assert PlacedNode(byID, level, ordered[k]);
    }
    SubsetCount(Elems(Ids(ordered)), byID.Keys);
  }

  lemma FirstWave(byID: map<string, Node>, ready: seq<string>, indegree: map<string, int>)
    requires KeysMatch(byID) && Counts(byID, [], indegree) && Distinct(ready)
    requires forall x :: x in ready <==> x in byID && indegree[x] == 0
    ensures Placed(byID, -1, []) && Next(byID, -1, [], [], ready)
  {
    forall x | x in byID
      ensures x in ready <==> byID[x].dependsOn == []
    {
      NothingLeft(Elems(byID[x].dependsOn), Elems([]));
      assert byID[x].dependsOn != [] ==> byID[x].dependsOn[0] in Elems(byID[x].dependsOn);
    }
    forall x | x in ready
      ensures Waiting(byID, 0, [], x)
    {
      LongestChainLeaf(GraphOf(byID), x);
    }
    forall x | x in byID && Elems(byID[x].dependsOn) <= Elems([])
      ensures x in ready
    {
      NothingLeft(Elems(byID[x].dependsOn), Elems([]));
    }
  }

  lemma DependantsExact(byID: map<string, Node>, dependants: map<string, seq<string>>, id: string)
    requires Lists(byID, byID.Keys, "", [], dependants)
    ensures Distinct(Get(dependants, id)) && Elems(Get(dependants, id)) <= byID.Keys
    ensures forall x :: x in Get(dependants, id) <==> x in byID && id in byID[x].dependsOn
  {
  }

  method InitialReady(nodes: seq<Node>, byID: map<string, Node>, indegree: map<string, int>)
    returns (ready: seq<string>)
    requires Indexes(byID, nodes) && indegree.Keys == byID.Keys
    ensures Distinct(ready) && forall x :: x in ready <==> x in byID && indegree[x] == 0
  {
    ready := [];
    ghost var ids := Ids(nodes);
    for i := 0 to |nodes|
      invariant Distinct(ready)
      invariant forall x :: x in ready <==> x in Elems(ids[..i]) && x in indegree && indegree[x] == 0
    {
      ElemsPrefix(ids, i);
      DistinctFresh(ids, i);
      if indegree[nodes[i].id] == 0 {
        ready := ready + [nodes[i].id];
      }
    }
    assert ids[..|nodes|] == ids;
  }

  /** The loop over the nodes of one level. */
  method PlaceLevel(byID: map<string, Node>, dependants: map<string, seq<string>>, level: int,
                    ready: seq<string>, ordered0: seq<Node>, indegree0: map<string, int>)
    returns (ordered: seq<Node>, nextReady: seq<string>, indegree: map<string, int>)
    requires KeysMatch(byID) && Lists(byID, byID.Keys, "", [], dependants)
    requires Placed(byID, level, ordered0) && Wave(byID, level, ordered0, ready)
    requires Next(byID, level, Ids(ordered0), ready, []) && Counts(byID, Ids(ordered0), indegree0)
    ensures Placed(byID, level, ordered) && Next(byID, level, Ids(ordered), [], nextReady)
    ensures Counts(byID, Ids(ordered), indegree) && |ordered| == |ordered0| + |ready|
  {
    ordered, nextReady, indegree := ordered0, [], indegree0;
    assert ready[0..] == ready;
    for k := 0 to |ready|
      invariant Placed(byID, level, ordered) && Wave(byID, level, ordered, ready[k..])
      invariant Next(byID, level, Ids(ordered), ready[k..], nextReady) && Counts(byID, Ids(ordered), indegree)
      invariant |ordered| == |ordered0| + k
    {
      ordered, nextReady, indegree :=
        PlaceNode(byID, dependants, level, ready[k..], ready[k], ordered, nextReady, indegree);
      assert ready[k..][1..] == ready[k + 1..];
    }
  }

  ghost predicate Unfinished(byID: map<string, Node>, level: int, ordered: seq<Node>, ready: seq<string>,
                             indegree: map<string, int>) {
    && Placed(byID, level, ordered) && Wave(byID, level, ordered, ready)
    && Next(byID, level, Ids(ordered), ready, []) && Counts(byID, Ids(ordered), indegree)
  }

  lemma NothingWaits(byID: map<string, Node>, level: int, placed: seq<string>)
    requires Next(byID, level, placed, [], [])
    ensures forall x :: x in byID && Elems(byID[x].dependsOn) <= Elems(placed) ==> x in placed
  {
  }

  /** The level-by-level loop of resolveTopology. Every node it leaves out waits for another one. */
  method OrderByLevels(nodes: seq<Node>, byID: map<string, Node>, indegree0: map<string, int>,
                       dependants: map<string, seq<string>>)
    returns (ordered: seq<Node>, ghost last: int)
    requires Indexes(byID, nodes) && KeysMatch(byID)
    requires Lists(byID, byID.Keys, "", [], dependants) && Counts(byID, [], indegree0)
    ensures Placed(byID, last, ordered)
    ensures forall x :: x in byID && Elems(byID[x].dependsOn) <= Elems(Ids(ordered)) ==> x in Ids(ordered)
  {
    var indegree := indegree0;
    var ready := InitialReady(nodes, byID, indegree);
    FirstWave(byID, ready, indegree);
    ready := SortWave(byID, -1, [], ready);
    ordered := [];
    var level := 0;
    while |ready| > 0
      invariant Unfinished(byID, level, ordered, ready, indegree)
      decreases |byID| - |ordered|
    {
      ordered, ready, indegree := PlaceLevel(byID, dependants, level, ready, ordered, indegree);
      PlacedFits(byID, level, ordered);
      ready := SortWave(byID, level, ordered, ready);
      level := level + 1;
    }
    last := level;
    NothingWaits(byID, level, Ids(ordered));
  }

  method SortWave(byID: map<string, Node>, level: int, ghost ordered: seq<Node>, nextReady: seq<string>)
    returns (ready: seq<string>)
    requires Placed(byID, level, ordered) && Next(byID, level, Ids(ordered), [], nextReady)
    ensures Placed(byID, level + 1, ordered) && Wave(byID, level + 1, ordered, ready)
    ensures Next(byID, level + 1, Ids(ordered), ready, [])
  {
    NextIsKnown(byID, level, Ids(ordered), nextReady);
    ready := SortTopologyIDs(nextReady, byID);
    NextWave(byID, level, ordered, nextReady, ready);
  }

  lemma NextIsKnown(byID: map<string, Node>, level: int, placed: seq<string>, next: seq<string>)
    requires Next(byID, level, placed, [], next)
    ensures Elems(next) <= byID.Keys
  {
    forall x | x in next
      ensures x in byID
    {
      assert Waiting(byID, level + 1, placed, x);
    }
  }

  /***** resolveTopology *****/

  // Every node is placed, so the order found is the resolution asked for.
  lemma AllPlaced(nodes: seq<Node>, byID: map<string, Node>, last: int, ordered: seq<Node>)
    requires Indexes(byID, nodes) && byID == IndexOf(nodes) && Placed(byID, last, ordered) && |ordered| == |nodes|
    ensures Resolves(nodes, ordered) && !Cyclic(DependencyGraph(nodes))
  {
    DistinctCount(Ids(nodes));
    DistinctCount(Ids(ordered));
    forall k | 0 <= k < |ordered|
      ensures ordered[k].id in byID && ordered[k].(level := 0) in Levelless(nodes)
    {
      assert PlacedNode(byID, last, ordered[k]);
      var i :| 0 <= i < |nodes| && Ids(nodes)[i] == ordered[k].id;
      assert Levelless(nodes)[i] == nodes[i].(level := 0);
    }
    SubsetOfSameSize(Elems(Ids(ordered)), byID.Keys);
    OrderedIsAcyclic(GraphOf(byID), Ids(ordered));
  }

  // Nodes are left over: they wait for one another, which no dependencies-first order allows.
  lemma LeftoverIsStuck(nodes: seq<Node>, byID: map<string, Node>, last: int, ordered: seq<Node>, order: seq<string>)
    requires Indexes(byID, nodes) && NoMissing(nodes, byID) && Placed(byID, last, ordered)
    requires forall x :: x in byID && Elems(byID[x].dependsOn) <= Elems(Ids(ordered)) ==> x in Ids(ordered)
    requires DependenciesFirst(GraphOf(byID), order) && byID.Keys <= Elems(order)
    ensures |ordered| == |nodes|
  {
    var stuck := byID.Keys - Elems(Ids(ordered));
    forall x | x in stuck
      ensures WaitsFor(GraphOf(byID), x, stuck)
    {
      NothingLeft(Elems(byID[x].dependsOn), Elems(Ids(ordered)));
      var d :| d in byID[x].dependsOn && d !in Ids(ordered);
      var i :| 0 <= i < |nodes| && Ids(nodes)[i] == x;
      assert AllPresent(nodes[i].dependsOn, byID);
      assert d in Succ(GraphOf(byID), x) && d in stuck;
    }
    OrderedHasNoDeadlock(GraphOf(byID), order, stuck, |order|);
    forall x | x in byID
      ensures x in Ids(ordered)
    {
      var k :| 0 <= k < |order| && order[k] == x;
    }
    PlacedFits(byID, last, ordered);
    DistinctCount(Ids(nodes));
    DistinctCount(Ids(ordered));
    SubsetCount(byID.Keys, Elems(Ids(ordered)));
  }

  // The d-th id is the first that repeats an earlier one.
  ghost predicate FirstDuplicate(ids: seq<string>, d: int) {
    0 <= d < |ids| && Distinct(ids[..d]) && ids[d] in ids[..d]
  }

  // The first d nodes are normalised, the others are as they were.
  ghost predicate NormalizedUpTo(before: seq<Node>, after: seq<Node>, d: int) {
    && |after| == |before|
    && (forall k :: 0 <= k < |before| ==> after[k] == if k < d then Normalized(before[k]) else before[k])
  }

  ghost predicate IndexedUpTo(before: seq<Node>, byID: map<string, Node>, d: nat)
    requires d <= |before|
  {
    && byID.Keys == Elems(Ids(before)[..d])
    && (forall k :: 0 <= k < d ==> Ids(before)[k] in byID && byID[Ids(before)[k]] == Normalized(before[k]))
  }

  lemma AllIndexed(before: seq<Node>, after: seq<Node>, byID: map<string, Node>)
    requires NormalizedUpTo(before, after, |before|) && IndexedUpTo(before, byID, |before|)
    requires Distinct(Ids(before)[..|before|])
    ensures after == NormalizeAll(before) && Ids(after) == Ids(before) && Distinct(Ids(before))
    ensures Indexes(byID, after) && KeysMatch(byID) && byID == IndexOf(after)
  {
    assert Ids(before)[..|before|] == Ids(before);
    SameIds(before, after);
    forall i | 0 <= i < |after|
      ensures after[i].id in byID && byID[after[i].id] == after[i]
    {
      assert Ids(before)[i] == after[i].id;
    }
    OneIndex(after, byID);
  }

  lemma SameIds(before: seq<Node>, after: seq<Node>)
    requires NormalizedUpTo(before, after, |before|)
    ensures after == NormalizeAll(before) && Ids(after) == Ids(before)
  {
    forall k | 0 <= k < |before|
      ensures after[k] == NormalizeAll(before)[k] && Ids(after)[k] == Ids(before)[k]
    {
    }
  }

  lemma OneIndex(nodes: seq<Node>, byID: map<string, Node>)
    requires Indexes(byID, nodes)
    ensures KeysMatch(byID) && byID == IndexOf(nodes)
  {
    var index := IndexOf(nodes);
    forall i | 0 <= i < |nodes|
      ensures nodes[i].id in index && index[nodes[i].id] == nodes[i]
    {
      IndexOfEach(nodes, i);
    }
    IndexesAgree(nodes, byID, index);
  }

  lemma IndexesAgree(nodes: seq<Node>, a: map<string, Node>, b: map<string, Node>)
    requires Indexes(a, nodes) && Indexes(b, nodes)
    ensures KeysMatch(a) && a == b
  {
    assert a.Keys == b.Keys;
    forall x | x in a
      ensures a[x].id == x && a[x] == b[x]
    {
      var i :| 0 <= i < |nodes| && Ids(nodes)[i] == x;
      assert nodes[i].id == x;
    }
  }

  lemma IndexNext(before: seq<Node>, byID: map<string, Node>, i: nat)
    requires i < |before| && IndexedUpTo(before, byID, i) && Distinct(Ids(before)[..i]) && before[i].id !in byID
    ensures IndexedUpTo(before, byID[before[i].id := Normalized(before[i])], i + 1)
    ensures Distinct(Ids(before)[..i + 1])
  {
    var ids := Ids(before);
    ElemsPrefix(ids, i);
    NewIdIsDistinct(ids, i);
    forall k | 0 <= k < i
      ensures ids[k] != ids[i]
    {
      assert ids[k] in byID;
    }
  }

  lemma NewIdIsDistinct(ids: seq<string>, i: nat)
    requires i < |ids| && Distinct(ids[..i]) && ids[i] !in Elems(ids[..i])
    ensures Distinct(ids[..i + 1])
  {
    assert ids[..i + 1] == ids[..i] + [ids[i]];
    DistinctAppend(ids[..i], [ids[i]]);
  }

  /** The first loop: normalises the nodes in place and indexes them, up to a repeated id. */
  method IndexNodes(nodes: array<Node>) returns (byID: map<string, Node>, duplicate: int)
    modifies nodes
    ensures duplicate == -1 ==>
      && NormalizedUpTo(old(nodes[..]), nodes[..], nodes.Length)
      && IndexedUpTo(old(nodes[..]), byID, nodes.Length) && Distinct(Ids(old(nodes[..]))[..nodes.Length])
    ensures duplicate != -1 ==>
      && FirstDuplicate(Ids(old(nodes[..])), duplicate)
      && NormalizedUpTo(old(nodes[..]), nodes[..], duplicate + 1)
  {
    byID, duplicate := map[], -1;
    ghost var before := nodes[..];
    for i := 0 to nodes.Length
      invariant NormalizedUpTo(before, nodes[..], i)
      invariant IndexedUpTo(before, byID, i) && Distinct(Ids(before)[..i])
    {
      assert nodes[..][i] == before[i];
      var deps := NormalizeTopologyDependencies(nodes[i].dependsOn);
      nodes[i] := nodes[i].(dependsOn := deps);
      assert NormalizedUpTo(before, nodes[..], i + 1);
      if nodes[i].id in byID {
        duplicate := i;
        return;
      }
      IndexNext(before, byID, i);
      byID := byID[nodes[i].id := nodes[i]];
    }
  }

  /** Exactly when resolution succeeds, and exactly which error it reports otherwise. */
  method ResolveTopology(nodes: array<Node>) returns (r: Result)
    modifies nodes
    ensures r.Err? && r.error.DuplicateNode? <==> !Distinct(Ids(old(nodes[..])))
    ensures r.Err? && r.error.DuplicateNode? ==> exists d ::
      && FirstDuplicate(Ids(old(nodes[..])), d) && r.error.node == Ids(old(nodes[..]))[d]
      && NormalizedUpTo(old(nodes[..]), nodes[..], d + 1)
    ensures Distinct(Ids(old(nodes[..]))) ==>
      && nodes[..] == NormalizeAll(old(nodes[..]))
      && Outcome(nodes[..], r)
  {
    ghost var before := nodes[..];
    if nodes.Length == 0 {
      OrderedIsAcyclic(DependencyGraph([]), []);
      return Ok([]);
    }
    var byID, duplicate := IndexNodes(nodes);
    if duplicate != -1 {
      assert Ids(before)[duplicate] in Ids(before)[..duplicate];
      assert nodes[..][duplicate].id == Ids(before)[duplicate];
      return Err(DuplicateNode(nodes[duplicate].id));
    }
    AllIndexed(before, nodes[..], byID);
    r := OrderNodes(nodes[..], byID);
  }

  // What resolveTopology returns for nodes with distinct ids: the missing-dependency error exactly when a
  // dependency is missing, the cycle error exactly when there is a cycle otherwise, and else an order.
  ghost predicate Outcome(nodes: seq<Node>, r: Result) {
    var byID := IndexOf(nodes);
    match r
    case Err(DuplicateNode(_)) => false
    case Err(MissingDependency(_, _)) => !NoMissing(nodes, byID) && IsFirstMissing(nodes, byID, r.error)
    case Err(CycleFound(path)) => NoMissing(nodes, byID) && IsCycle(DependencyGraph(nodes), path)
    case Ok(out) => NoMissing(nodes, byID) && !Cyclic(DependencyGraph(nodes)) && Resolves(nodes, out)
  }

  method OrderNodes(nodes: seq<Node>, byID: map<string, Node>) returns (r: Result)
    requires Indexes(byID, nodes) && KeysMatch(byID) && byID == IndexOf(nodes)
    requires forall i :: 0 <= i < |nodes| ==> Distinct(nodes[i].dependsOn)
    ensures Outcome(nodes, r)
  {
    var indegree, dependants, missing := CountDependencies(nodes, byID);
    if missing.Some? {
      return Err(missing.value);
    }
    IndexedAreDistinct(nodes, byID);
    CountsStart(byID, indegree);
    var ordered, last := OrderByLevels(nodes, byID, indegree, dependants);
    if |ordered| != |nodes| {
      var cycle, order := FindTopologyCycle(nodes, byID);
      if cycle == [] {
        LeftoverIsStuck(nodes, byID, last, ordered, order);
        assert false;
      }
      return Err(CycleFound(cycle));
    }
    AllPlaced(nodes, byID, last, ordered);
    r := Ok(ordered);
  }

  lemma IndexedAreDistinct(nodes: seq<Node>, byID: map<string, Node>)
    requires Indexes(byID, nodes) && forall i :: 0 <= i < |nodes| ==> Distinct(nodes[i].dependsOn)
    ensures forall x :: x in byID ==> Distinct(byID[x].dependsOn)
  {
    forall x | x in byID
      ensures Distinct(byID[x].dependsOn)
    {
      var i :| 0 <= i < |nodes| && Ids(nodes)[i] == x;
    }
  }
}
