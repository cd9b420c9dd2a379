/** Which steps may still run after a fatal failure (execution/flow.go). */
module FailurePath {
  import opened Text
  import opened Graph

  datatype Step = Step(id: string, dependsOn: seq<string>, onFailure: seq<string>, continueOnFailure: bool)

  // The status of a step; Unset stands for the empty string, which is what a missing map key reads as
  // and what a purely informational event carries.
  datatype Status = Unset | Pending | Running | Healthy | Failed | Skipped

  // topologyNodeByID: the first step of that id.
  function StepByID(topology: seq<Step>, id: string): (r: Option<Step>)
    ensures r.Some? ==> r.value in topology && r.value.id == id
    ensures r.None? ==> forall s :: s in topology ==> s.id != id
  {
    if topology == [] then None
    else if topology[0].id == id then Some(topology[0])
    else StepByID(topology[1..], id)
  }

  function StepIds(topology: seq<Step>): set<string> {
    set s | s in topology :: s.id
  }

  function StatusOf(statuses: map<string, Status>, id: string): Status {
    if id in statuses then statuses[id] else Unset
  }

  // One of the step's on_failure triggers has failed.
  predicate Triggered(s: Step, statuses: map<string, Status>) {
    exists t :: t in s.onFailure && StatusOf(statuses, t) == Failed
  }

  ghost function DependencyGraph(topology: seq<Step>): Deps {
    map id | id in StepIds(topology) && StepByID(topology, id).Some? :: StepByID(topology, id).value.dependsOn
  }

  /** A dependency path from id to a step whose on_failure has been triggered. */
  ghost predicate FailureRoute(topology: seq<Step>, statuses: map<string, Status>, id: string, p: seq<string>) {
    && ChainFrom(DependencyGraph(topology), id, p)
    && var end := StepByID(topology, p[|p| - 1]); end.Some? && Triggered(end.value, statuses)
  }

  ghost predicate OnFailurePath(topology: seq<Step>, statuses: map<string, Status>, id: string) {
    exists p :: FailureRoute(topology, statuses, id, p)
  }

  // ... that stays clear of some steps.
  ghost predicate RouteAvoiding(topology: seq<Step>, statuses: map<string, Status>, id: string, avoid: set<string>) {
    exists p :: FailureRoute(topology, statuses, id, p) && Elems(p) !! avoid
  }

  // After the last visit to id, a route goes on through a dependency of id and never returns.
  lemma {:induction false} RouteLeaves(topology: seq<Step>, statuses: map<string, Status>, step: Step,
                                       avoid: set<string>, p: seq<string>)
    requires StepByID(topology, step.id) == Some(step) && !Triggered(step, statuses)
    requires FailureRoute(topology, statuses, step.id, p) && Elems(p) !! avoid
    ensures exists d :: d in step.dependsOn && RouteAvoiding(topology, statuses, d, avoid + {step.id})
    decreases |p|
  {
    var rest := p[1..];
    FirstEdge(DependencyGraph(topology), p);
    assert p == [p[0]] + rest && |p| > 1;
    RouteTail(topology, statuses, step.id, p);
    if step.id in rest {
      var k :| 0 <= k < |rest| && rest[k] == step.id;
      RouteSuffix(topology, statuses, rest, k);
      RouteLeaves(topology, statuses, step, avoid, rest[k..]);
    } else {
      assert Elems(rest) !! avoid + {step.id};
      assert RouteAvoiding(topology, statuses, rest[0], avoid + {step.id});
    }
  }

  lemma RouteTail(topology: seq<Step>, statuses: map<string, Status>, id: string, p: seq<string>)
    requires FailureRoute(topology, statuses, id, p) && |p| > 1
    ensures FailureRoute(topology, statuses, p[1], p[1..])
  {
    RouteSuffix(topology, statuses, p, 1);
  }

  lemma RouteSuffix(topology: seq<Step>, statuses: map<string, Status>, p: seq<string>, k: nat)
    requires k < |p| && FailureRoute(topology, statuses, p[0], p)
    ensures FailureRoute(topology, statuses, p[k], p[k..])
  {
    forall j | 0 <= j < |p[k..]| - 1
      ensures p[k..][j + 1] in Succ(DependencyGraph(topology), p[k..][j])
    {
      assert p[(k + j) + 1] in Succ(DependencyGraph(topology), p[k + j]);
    }
  }

  lemma RouteExtends(topology: seq<Step>, statuses: map<string, Status>, step: Step, d: string, avoid: set<string>)
    requires StepByID(topology, step.id) == Some(step) && d in step.dependsOn && step.id !in avoid
    requires RouteAvoiding(topology, statuses, d, avoid + {step.id})
    ensures RouteAvoiding(topology, statuses, step.id, avoid)
  {
    var p :| FailureRoute(topology, statuses, d, p) && Elems(p) !! avoid + {step.id};
    var q := [step.id] + p;
    var g := DependencyGraph(topology);
    assert step in topology && step.id in StepIds(topology);
    forall k | 0 <= k < |q| - 1
      ensures q[k + 1] in Succ(g, q[k])
    {
      assert k > 0 ==> p[(k - 1) + 1] in Succ(g, p[k - 1]);
    }
    ElemsAppend([step.id], p);
    assert FailureRoute(topology, statuses, step.id, q);
  }

  /** The search, with the visiting set that the recursive calls share and undo. */
  class Search {
    const topology: seq<Step>
    const statuses: map<string, Status>
    var visiting: set<string>

    constructor (topology: seq<Step>, statuses: map<string, Status>)
      ensures visiting == {} && this.topology == topology && this.statuses == statuses
    {
      this.topology, this.statuses, visiting := topology, statuses, {};
    }

    /** isFailurePathNodeLocked: terminates on every graph and finds exactly the failure routes. */
    method IsFailurePathNode(id: string) returns (found: bool)
      modifies this
      ensures visiting == old(visiting)
      ensures found <==> RouteAvoiding(topology, statuses, id, visiting)
      decreases StepIds(topology) - visiting
    {
      if id in visiting {
        NoRouteThrough(topology, statuses, id, visiting);
        return false;
      }
      ghost var before := visiting;
      visiting := visiting + {id};
      var node := StepByID(topology, id);
      if node.None? {
        visiting := visiting - {id};
        NoRouteFromNowhere(topology, statuses, id);
        return false;
      }
      var step := node.value;
      for i := 0 to |step.onFailure|
        invariant visiting == before + {id}
        invariant forall j :: 0 <= j < i ==> StatusOf(statuses, step.onFailure[j]) != Failed
      {
        if StatusOf(statuses, step.onFailure[i]) == Failed {
          visiting := visiting - {id};
          RouteHere(topology, statuses, step, visiting);
          return true;
        }
      }
      assert !Triggered(step, statuses);
      for i := 0 to |step.dependsOn|
        invariant visiting == before + {id}
        invariant forall j :: 0 <= j < i ==> !RouteAvoiding(topology, statuses, step.dependsOn[j], before + {id})
      {
        var deeper := IsFailurePathNode(step.dependsOn[i]);
        if deeper {
          visiting := visiting - {id};
          RouteExtends(topology, statuses, step, step.dependsOn[i], visiting);
          return true;
        }
      }
      visiting := visiting - {id};
      NoRouteBeyond(topology, statuses, step, visiting);
      return false;
    }
  }

  lemma NoRouteThrough(topology: seq<Step>, statuses: map<string, Status>, id: string, avoid: set<string>)
    requires id in avoid
    ensures !RouteAvoiding(topology, statuses, id, avoid)
  {
    forall p | FailureRoute(topology, statuses, id, p)
      ensures !(Elems(p) !! avoid)
    {
      assert p[0] in Elems(p);
    }
  }

  lemma NoRouteFromNowhere(topology: seq<Step>, statuses: map<string, Status>, id: string)
    requires StepByID(topology, id).None?
    ensures forall avoid :: !RouteAvoiding(topology, statuses, id, avoid)
  {
    forall p | ChainFrom(DependencyGraph(topology), id, p)
      ensures |p| == 1
    {
      FirstEdge(DependencyGraph(topology), p);
    }
  }

  lemma RouteHere(topology: seq<Step>, statuses: map<string, Status>, step: Step, avoid: set<string>)
    requires StepByID(topology, step.id) == Some(step) && Triggered(step, statuses) && step.id !in avoid
    ensures RouteAvoiding(topology, statuses, step.id, avoid)
  {
    assert FailureRoute(topology, statuses, step.id, [step.id]);
    assert Elems([step.id]) !! avoid;
  }

  lemma NoRouteBeyond(topology: seq<Step>, statuses: map<string, Status>, step: Step, avoid: set<string>)
    requires StepByID(topology, step.id) == Some(step) && !Triggered(step, statuses)
    requires forall d :: d in step.dependsOn ==> !RouteAvoiding(topology, statuses, d, avoid + {step.id})
    ensures !RouteAvoiding(topology, statuses, step.id, avoid)
  {
    forall p | FailureRoute(topology, statuses, step.id, p)
      ensures !(Elems(p) !! avoid)
    {
      if Elems(p) !! avoid {
        RouteLeaves(topology, statuses, step, avoid, p);
        assert false;
      }
    }
  }

  /** A call with an empty visiting set: the question nodeBelongsToFailurePath asks. */
  method NodeBelongsToFailurePath(topology: seq<Step>, statuses: map<string, Status>, id: string) returns (found: bool)
    ensures found <==> OnFailurePath(topology, statuses, id)
  {
    var search := new Search(topology, statuses);
    found := search.IsFailurePathNode(id);
    assert forall p: seq<string> :: Elems(p) !! {};
  }
}
