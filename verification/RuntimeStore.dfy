/** Saving all executions and restoring them into a fresh service (execution/runtime_store.go). */
module RuntimeStore {
  import opened FailurePath
  import opened Execution
  import opened Replays
  import Machines
  import Runs

  datatype Record = Record(id: string, startedAt: int, exec: Exec)

  // PersistedExecution: the record, with its topology, events and status, and the two counters.
  datatype Persisted = Persisted(id: string, startedAt: int, topology: seq<Step>, events: seq<Event>,
                                 status: RunStatus, total: int, completed: int)

  function Snapshot(r: Record): Persisted {
    Persisted(r.id, r.startedAt, r.exec.topology, r.exec.events, r.exec.status, r.exec.total, r.exec.completed)
  }

  function Restored(p: Persisted): Record {
    var statuses := Replay(p.topology, p.events);
    var counted := |TerminalSteps(statuses)|;
    Record(p.id, p.startedAt, Exec(
      p.topology, p.events, statuses,
      if counted == 0 && p.completed > 0 then p.completed else counted,
      if p.total == 0 then |p.topology| else p.total,
      p.status, Text.None, 0, false, false, 0))
  }

  /** Whatever was saved: a total that is not zero is kept, and so is a positive counter if no step reads terminal. */
  lemma RestoredNumbers(p: Persisted)
    ensures var x := Restored(p).exec;
      && x.stepStatus == Replay(p.topology, p.events) && x.status == p.status
      && x.total == (if p.total != 0 then p.total else |p.topology|)
      && (TerminalSteps(x.stepStatus) != {} || p.completed <= 0 ==> x.completed == |TerminalSteps(x.stepStatus)|)
      && (TerminalSteps(x.stepStatus) == {} && p.completed > 0 ==> x.completed == p.completed)
  {
  }

  // The execution without what only lives in memory: its error, its backend and the calls made so far.
  function Durable(r: Record): Record {
    r.(exec := r.exec.(terminalErr := Text.None, cancelCalls := 0, hasBackend := false, released := false, destroyCalls := 0))
  }

  // What LiveEqualsReplay and CountIsExact establish of a running execution.
  ghost predicate Consistent(x: Exec) {
    Live(x) && Counted(x) && x.total == |x.topology|
  }

  /** Saving and restoring an execution changes nothing durable. */
  lemma RestoreAfterSave(r: Record)
    requires Consistent(r.exec)
    ensures Restored(Snapshot(r)) == Durable(r)
  {
  }

  /** The statuses survive in any case, the counter exactly if it was right or nothing is terminal. */
  lemma RestoredCounter(r: Record)
    requires Live(r.exec) && r.exec.completed >= 0
    ensures Restored(Snapshot(r)).exec.stepStatus == r.exec.stepStatus
    ensures Restored(Snapshot(r)).exec.completed == r.exec.completed <==>
      Counted(r.exec) || TerminalSteps(r.exec.stepStatus) == {}
  {
  }

  /** At any point of any legal run, late reports included, restoring loses nothing durable if and only if every
      ended step reads terminal, or none does. */
  lemma RestoreAfterRunExactlyWhen(id: string, startedAt: int, topology: seq<Step>, notes: seq<Event>, hasBackend: bool,
                                   actions: seq<Runs.Action>)
    requires Runs.Resolved(topology) && OnlyNotes(notes) && Machines.Legal(Runs.RUN, Runs.Init(topology, notes, hasBackend), actions)
    ensures var w := Machines.After(Runs.RUN, Runs.Init(topology, notes, hasBackend), actions);
      var r := Record(id, startedAt, w.exec);
      && Restored(Snapshot(r)) == Durable(r).(exec := Durable(r).exec.(completed := Restored(Snapshot(r)).exec.completed))
      && (Restored(Snapshot(r)) == Durable(r) <==> Runs.Settled(w) || TerminalSteps(w.exec.stepStatus) == {})
  {
    var w := Machines.After(Runs.RUN, Runs.Init(topology, notes, hasBackend), actions);
    Runs.RunVerdict(topology, notes, hasBackend, actions);
    Runs.CountedExactlyWhen(w);
    RestoredCounter(Record(id, startedAt, w.exec));
  }

  ghost predicate UniqueIds(s: seq<Persisted>) {
    forall i, j :: 0 <= i < j < |s| ==> s[i].id != s[j].id
  }

  ghost predicate Sorted(s: seq<Persisted>) {
    forall i, j :: 0 <= i < j < |s| ==> s[i].startedAt <= s[j].startedAt
  }

  // t is s, sorted; distinct ids stay distinct.
  ghost predicate Sorts(s: seq<Persisted>, t: seq<Persisted>) {
    && Sorted(t) && multiset(t) == multiset(s)
    && (UniqueIds(s) ==> UniqueIds(t))
  }

  method Insert(s: seq<Persisted>, x: Persisted) returns (r: seq<Persisted>)
    requires Sorted(s)
    ensures Sorted(r) && multiset(r) == multiset(s) + multiset{x}
    ensures UniqueIds(s) && IsNew(s, x) ==> UniqueIds(r)
  {
    var k := |s|;
    while k > 0 && x.startedAt < s[k - 1].startedAt
      invariant 0 <= k <= |s| && forall j :: k <= j < |s| ==> x.startedAt < s[j].startedAt
    {
      k := k - 1;
    }
    InsertSorted(s, k, x);
    InsertElements(s, k, x);
    if UniqueIds(s) && IsNew(s, x) {
      InsertUnique(s, k, x);
    }
    r := Inserted(s, k, x);
  }

  ghost predicate IsNew(s: seq<Persisted>, x: Persisted) {
    forall i :: 0 <= i < |s| ==> s[i].id != x.id
  }

  function Inserted(s: seq<Persisted>, k: nat, x: Persisted): (r: seq<Persisted>)
    requires k <= |s|
    ensures |r| == |s| + 1
    ensures forall i :: 0 <= i < |r| ==> r[i] == if i < k then s[i] else if i == k then x else s[i - 1]
  {
    s[..k] + [x] + s[k..]
  }

  lemma InsertSorted(s: seq<Persisted>, k: nat, x: Persisted)
    requires Sorted(s) && k <= |s|
    requires k > 0 ==> s[k - 1].startedAt <= x.startedAt
    requires forall j :: k <= j < |s| ==> x.startedAt < s[j].startedAt
    ensures Sorted(Inserted(s, k, x))
  {
    forall i | 0 <= i < k
      ensures s[i].startedAt <= x.startedAt
    {
      assert s[i].startedAt <= s[k - 1].startedAt;
    }
  }

  lemma InsertUnique(s: seq<Persisted>, k: nat, x: Persisted)
    requires k <= |s| && UniqueIds(s) && IsNew(s, x)
    ensures UniqueIds(Inserted(s, k, x))
  {
  }

  lemma InsertElements(s: seq<Persisted>, k: nat, x: Persisted)
    requires k <= |s|
    ensures multiset(Inserted(s, k, x)) == multiset(s) + multiset{x}
  {
    assert s == s[..k] + s[k..];
  }

  method SortByStart(s: seq<Persisted>) returns (r: seq<Persisted>)
    ensures Sorts(s, r)
  {
    r := [];
    for i := 0 to |s|
      invariant Sorts(s[..i], r)
    {
      InsertNext(s, i, r);
      r := Insert(r, s[i]);
    }
    assert s[..|s|] == s;
  }

  lemma InsertNext(s: seq<Persisted>, i: nat, r: seq<Persisted>)
    requires i < |s| && Sorts(s[..i], r)
    ensures multiset(s[..i + 1]) == multiset(s[..i]) + multiset{s[i]}
    ensures UniqueIds(s[..i + 1]) ==> UniqueIds(s[..i]) && IsNew(r, s[i])
  {
    assert s[..i + 1] == s[..i] + [s[i]];
    if UniqueIds(s[..i + 1]) {
      assert forall k :: 0 <= k < i ==> s[..i][k] == s[..i + 1][k];
      forall k | 0 <= k < |r|
        ensures r[k].id != s[i].id
      {
        assert r[k] in multiset(r) && r[k] in multiset(s[..i]) && r[k] in s[..i];
        assert s[..i + 1][i] == s[i];
      }
    }
  }

  // The saved list holds these executions, each once.
  ghost predicate Saves(executions: map<string, Record>, ids: set<string>, saved: seq<Persisted>) {
    && UniqueIds(saved)
    && (forall p :: p in saved ==> p.id in ids && p.id in executions && p == Snapshot(executions[p.id]))
    && (forall id :: id in ids && id in executions ==> Snapshot(executions[id]) in saved)
  }

  // The executions are the saved ones with an id.
  ghost predicate RestoredFrom(saved: seq<Persisted>, executions: map<string, Record>) {
    && (forall p :: p in saved && p.id != "" ==> p.id in executions && executions[p.id] == Restored(p))
    && (forall id :: id in executions ==> exists p :: p in saved && p.id == id && id != "")
  }

  // order lists the executions, each once, by their start.
  ghost predicate InStartOrder(executions: map<string, Record>, order: seq<string>) {
    && (forall id :: id in order <==> id in executions)
    && (forall j, k :: 0 <= j < k < |order| ==> order[j] != order[k])
    && (forall j, k :: 0 <= j < k < |order| ==> NotAfter(executions, order[j], order[k]))
  }

  ghost predicate NotAfter(executions: map<string, Record>, a: string, b: string) {
    a in executions && b in executions && executions[a].startedAt <= executions[b].startedAt
  }

  // What the loop of the restore makes of a sorted list: of two entries with one id the later one counts, and
  // the id is listed twice.
  function RestoredMap(persisted: seq<Persisted>): map<string, Record> {
    if persisted == [] then map[] else
      var before, last := RestoredMap(persisted[..|persisted| - 1]), persisted[|persisted| - 1];
      if last.id == "" then before else before[last.id := Restored(last)]
  }

  function RestoredOrder(persisted: seq<Persisted>): seq<string> {
    if persisted == [] then [] else
      var before, last := RestoredOrder(persisted[..|persisted| - 1]), persisted[|persisted| - 1];
      if last.id == "" then before else before + [last.id]
  }

  ghost predicate RestoredAs(loaded: seq<Persisted>, persisted: seq<Persisted>,
                             executions: map<string, Record>, order: seq<string>) {
    Sorts(loaded, persisted) && executions == RestoredMap(persisted) && order == RestoredOrder(persisted)
  }

  /** With distinct ids that is every saved execution with an id, listed once by its start. */
  lemma {:induction false} RestoredOnce(persisted: seq<Persisted>)
    requires Sorted(persisted) && UniqueIds(persisted)
    ensures RestoredFrom(persisted, RestoredMap(persisted))
    ensures InStartOrder(RestoredMap(persisted), RestoredOrder(persisted))
  {
    if persisted != [] {
      var n := |persisted| - 1;
      var init, p := persisted[..n], persisted[n];
      RestoredOnce(init);
      assert persisted == init + [p];
      forall q | q in init
        ensures q.id != p.id && q.startedAt <= p.startedAt
      {
        var i :| 0 <= i < n && init[i] == q;
        assert persisted[i] == q;
      }
      RestoreNext(init, p, RestoredMap(init));
      OrderNext(init, p, RestoredMap(init), RestoredOrder(init));
    }
  }

  lemma RestoreNext(saved: seq<Persisted>, p: Persisted, executions: map<string, Record>)
    requires RestoredFrom(saved, executions) && forall q :: q in saved ==> q.id != p.id
    ensures p.id == "" ==> RestoredFrom(saved + [p], executions)
    ensures p.id != "" ==> RestoredFrom(saved + [p], executions[p.id := Restored(p)])
  {
    forall id | id in executions
      ensures exists q :: q in saved + [p] && q.id == id && id != ""
    {
      var q :| q in saved && q.id == id && id != "";
      assert q in saved + [p];
    }
    assert p in saved + [p];
  }

  lemma OrderNext(saved: seq<Persisted>, p: Persisted, executions: map<string, Record>, order: seq<string>)
    requires RestoredFrom(saved, executions) && InStartOrder(executions, order)
    requires forall q :: q in saved ==> q.id != p.id && q.startedAt <= p.startedAt
    ensures InStartOrder(executions[p.id := Restored(p)], order + [p.id])
  {
    var executions' := executions[p.id := Restored(p)];
    forall id | id in order
      ensures id != p.id && NotAfter(executions', id, p.id)
    {
      var q :| q in saved && q.id == id && id != "";
    }
    forall j, k | 0 <= j < k < |order|
      ensures NotAfter(executions', order[j], order[k])
    {
      assert order[j] in order && order[k] in order && NotAfter(executions, order[j], order[k]);
    }
    var longer := order + [p.id];
    forall j, k | 0 <= j < k < |longer|
      ensures longer[j] != longer[k] && NotAfter(executions', longer[j], longer[k])
    {
      assert longer[j] == order[j] && longer[j] in order;
    }
  }

  class ExecutionStore {
    var executions: map<string, Record>
    var order: seq<string>

    ghost predicate Valid()
      reads this
    {
      forall id :: id in executions ==> id != "" && executions[id].id == id
    }

    constructor ()
      ensures Valid() && executions == map[] && order == []
    {
      executions, order := map[], [];
    }

    /** persistExecutionStore: one entry an execution, in no particular order. */
    method Persist() returns (saved: seq<Persisted>)
      requires Valid()
      ensures Saves(executions, executions.Keys, saved)
    {
      saved := [];
      var todo := executions.Keys;
      while todo != {}
        invariant todo <= executions.Keys
        invariant Saves(executions, executions.Keys - todo, saved)
        decreases |todo|
      {
        var id :| id in todo;
        todo := todo - {id};
        saved := saved + [Snapshot(executions[id])];
      }
    }

    /** restorePersistedExecutions: an empty load changes nothing. */
    method Restore(loaded: seq<Persisted>)
      modifies this
      ensures loaded == [] ==> executions == old(executions) && order == old(order)
      ensures loaded != [] ==> exists persisted :: RestoredAs(loaded, persisted, executions, order)
    {
      if |loaded| == 0 {
        return;
      }
      var persisted := SortByStart(loaded);
      executions, order := map[], [];
      for i := 0 to |persisted|
        invariant executions == RestoredMap(persisted[..i]) && order == RestoredOrder(persisted[..i])
      {
        var p := persisted[i];
        assert persisted[..i + 1][..i] == persisted[..i];
        if p.id == "" {
          continue;
        }
        executions := executions[p.id := Restored(p)];
        order := order + [p.id];
      }
      assert persisted[..|persisted|] == persisted;
      assert RestoredAs(loaded, persisted, executions, order);
    }
  }

  /** What was loaded, with distinct ids, is what is there afterwards. */
  lemma LoadedIsRestored(loaded: seq<Persisted>, persisted: seq<Persisted>)
    requires UniqueIds(loaded) && Sorts(loaded, persisted)
    ensures RestoredFrom(loaded, RestoredMap(persisted)) && InStartOrder(RestoredMap(persisted), RestoredOrder(persisted))
  {
    RestoredOnce(persisted);
    forall p
      ensures p in loaded <==> p in persisted
    {
      assert p in multiset(loaded) <==> p in multiset(persisted);
    }
  }

  /** A store saved and restored into a fresh one holds the same executions, up to what lives in memory only. */
  method SaveAndRestore(store: ExecutionStore) returns (restored: ExecutionStore)
    requires store.Valid()
    requires forall id :: id in store.executions ==> Consistent(store.executions[id].exec)
    ensures restored.executions == map id | id in store.executions :: Durable(store.executions[id])
    ensures InStartOrder(restored.executions, restored.order)
  {
    var saved := store.Persist();
    restored := new ExecutionStore();
    restored.Restore(saved);
    if saved != [] {
      ghost var persisted :| RestoredAs(saved, persisted, restored.executions, restored.order);
      LoadedIsRestored(saved, persisted);
    }
    SameExecutions(store.executions, saved, restored.executions);
  }

  lemma SameExecutions(executions: map<string, Record>, saved: seq<Persisted>, restored: map<string, Record>)
    requires Saves(executions, executions.Keys, saved)
    requires if saved == [] then restored == map[] else RestoredFrom(saved, restored)
    requires forall id :: id in executions ==> id != "" && executions[id].id == id
    requires forall id :: id in executions ==> Consistent(executions[id].exec)
    ensures restored == map id | id in executions :: Durable(executions[id])
  {
    forall id | id in executions
      ensures id in restored && restored[id] == Durable(executions[id])
    {
      assert Snapshot(executions[id]) in saved;
      RestoreAfterSave(executions[id]);
    }
  }
}
