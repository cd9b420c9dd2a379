/** Profile inheritance (execution/profile_runtime.go). */
module Profiles {
  import opened Text
  import opened Graph

  datatype Spec = Spec(env: map<string, string>, devices: seq<string>, memory: int, milliCPU: int)

  datatype SecretRef = SecretRef(key: string, source: string)

  // A profile record with its parsed document.
  datatype Record = Record(id: string, extendsID: string, env: map<string, string>, services: map<string, Spec>,
                           docRefs: seq<SecretRef>, recordRefs: seq<SecretRef>, networkMode: string, agentTags: seq<string>)

  datatype Runtime = Runtime(env: map<string, string>, services: map<string, Spec>, secretRefs: seq<SecretRef>,
                             networkMode: string, agentTags: seq<string>)

  /***** resolveProfileChain *****/

  type Index = map<string, Record>

  // Every profile's parent, as visit trims it.
  function Parents(byID: Index): map<string, string> {
    map id | id in byID :: TrimSpace(byID[id].extendsID)
  }

  // The n-th id on the way up from a profile; "" once there is nothing more to follow.
  function Walk(up: map<string, string>, id: string, n: nat): string {
    if n == 0 then id else
      var below := Walk(up, id, n - 1);
      if below in up then up[below] else ""
  }

  predicate Present(up: map<string, string>, id: string) {
    id != "" && id in up
  }

  ghost predicate PresentUpTo(up: map<string, string>, id: string, n: nat) {
    forall k :: 0 <= k < n ==> Present(up, Walk(up, id, k))
  }

  // The walk ends well after n profiles: at a root, or at the built-in base.
  ghost predicate Finishes(up: map<string, string>, id: string, n: nat) {
    PresentUpTo(up, id, n) && (Walk(up, id, n) == "" || (Walk(up, id, n) == "base" && "base" !in up))
  }

  // It hits a profile that does not exist.
  ghost predicate Misses(up: map<string, string>, id: string, n: nat) {
    PresentUpTo(up, id, n) && Walk(up, id, n) != "" && Walk(up, id, n) != "base" && Walk(up, id, n) !in up
  }

  // It comes back to where it was.
  ghost predicate Revisits(up: map<string, string>, id: string, i: nat, j: nat) {
    i < j && Walk(up, id, i) == Walk(up, id, j) && PresentUpTo(up, id, j)
  }

  lemma {:induction false} WalkRepeats(up: map<string, string>, id: string, i: nat, j: nat, k: nat)
    requires Walk(up, id, i) == Walk(up, id, j)
    ensures Walk(up, id, i + k) == Walk(up, id, j + k)
  {
    if k > 0 {
      WalkRepeats(up, id, i, j, k - 1);
    }
  }

  /** A walk that revisits an id never ends. */
  lemma {:induction false} RevisitingNeverEnds(up: map<string, string>, id: string, i: nat, j: nat, n: nat)
    requires Revisits(up, id, i, j)
    ensures Present(up, Walk(up, id, n))
    decreases n
  {
    if n >= j {
      WalkRepeats(up, id, i, j, n - j);
      RevisitingNeverEnds(up, id, i, j, n - (j - i));
    }
  }

  /** The three outcomes exclude one another. */
  lemma OutcomesExclude(up: map<string, string>, id: string, n: nat, m: nat, i: nat, j: nat)
    requires Finishes(up, id, n)
    ensures Finishes(up, id, m) ==> n == m
    ensures !Misses(up, id, m) && !Revisits(up, id, i, j)
  {
    assert !Present(up, Walk(up, id, n));
    if Revisits(up, id, i, j) {
      RevisitingNeverEnds(up, id, i, j, n);
    }
  }

  // The profiles i to n - 1 of the walk, the last one first.
  ghost function RootFirst(byID: Index, id: string, i: nat, n: nat): (r: seq<Record>)
    requires i <= n && PresentUpTo(Parents(byID), id, n)
    ensures |r| == n - i
    ensures forall k :: 0 <= k < |r| ==> r[k] == At(byID, Walk(Parents(byID), id, n - 1 - k))
    decreases n - i
  {
    if i == n then [] else RootFirst(byID, id, i + 1, n) + [At(byID, Walk(Parents(byID), id, i))]
  }

  function At(byID: Index, id: string): Record {
    if id in byID then byID[id] else Record("", "", map[], map[], [], [], "", [])
  }

  datatype Error = InheritanceCycle(id: string) | BaseNotFound(id: string)

  datatype Result = Ok(chain: seq<Record>) | Err(error: Error)

  // The ids visited on the way to the n-th one.
  ghost predicate IsTrail(trail: seq<string>, up: map<string, string>, selected: string) {
    forall k :: 0 <= k < |trail| ==> trail[k] == Walk(up, selected, k) && Present(up, trail[k])
  }

  class ChainResolver {
    const byID: Index
    var visiting: set<string>
    var visited: set<string>
    var ordered: seq<Record>

    constructor (byID: Index)
      ensures this.byID == byID && visiting == {} && visited == {} && ordered == []
    {
      this.byID, visiting, visited, ordered := byID, {}, {}, [];
    }

    /** The recursive closure, called for the last id of the trail. */
    method Visit(rawID: string, ghost selected: string, ghost trail: seq<string>)
      returns (err: Option<Error>, ghost end: nat)
      requires IsTrail(trail, Parents(byID), selected)
      requires TrimSpace(rawID) == Walk(Parents(byID), selected, |trail|)
      requires visiting == Elems(trail) && visited == {} && ordered == []
      modifies this
      ensures err.None? ==> |trail| <= end && Finishes(Parents(byID), selected, end)
      ensures err.None? ==> ordered == RootFirst(byID, selected, |trail|, end)
      ensures err.Some? ==> Explains(Parents(byID), selected, err.value)
      decreases byID.Keys - visiting
    {
      end := |trail|;
      var id := TrimSpace(rawID);
      if id == "" {
        return None, end;
      }
      if id in visiting {
        RevisitExplained(Parents(byID), selected, trail, id);
        return Some(InheritanceCycle(id)), end;
      }
      if id in visited {
        return None, end;
      }
      if id !in byID {
        if id == "base" {
          return None, end;
        }
        assert Misses(Parents(byID), selected, |trail|);
        return Some(BaseNotFound(id)), end;
      }
      visiting := visiting + {id};
      NextOnTrail(byID, selected, trail, id);
      err, end := Visit(byID[id].extendsID, selected, trail + [id]);
      if err.Some? {
        return;
      }
      assert RootFirst(byID, selected, |trail|, end) == RootFirst(byID, selected, |trail| + 1, end) + [byID[id]];
      visiting := visiting - {id};
      visited := visited + {id};
      ordered := ordered + [byID[id]];
    }
  }

  lemma NextOnTrail(byID: Index, selected: string, trail: seq<string>, id: string)
    requires IsTrail(trail, Parents(byID), selected) && id == Walk(Parents(byID), selected, |trail|)
    requires id != "" && id in byID
    ensures IsTrail(trail + [id], Parents(byID), selected) && Elems(trail + [id]) == Elems(trail) + {id}
    ensures Walk(Parents(byID), selected, |trail + [id]|) == TrimSpace(byID[id].extendsID)
  {
    ElemsAppend(trail, [id]);
  }

  // The error says what went wrong with the walk.
  ghost predicate Explains(up: map<string, string>, selected: string, e: Error) {
    match e
    case BaseNotFound(id) => exists n :: Misses(up, selected, n) && id == Walk(up, selected, n)
    case InheritanceCycle(id) => exists i, j :: Revisits(up, selected, i, j) && id == Walk(up, selected, i)
  }

  lemma RevisitExplained(up: map<string, string>, selected: string, trail: seq<string>, id: string)
    requires IsTrail(trail, up, selected) && id in trail && id == Walk(up, selected, |trail|)
    ensures Explains(up, selected, InheritanceCycle(id))
  {
    var i :| 0 <= i < |trail| && trail[i] == id;
    assert Revisits(up, selected, i, |trail|);
  }

  // The last record of an id counts.
  function IndexOf(records: seq<Record>): Index {
    if records == [] then map[]
    else IndexOf(records[..|records| - 1])[TrimSpace(records[|records| - 1].id) := records[|records| - 1]]
  }

  ghost predicate IsLastOf(records: seq<Record>, id: string, k: int) {
    && 0 <= k < |records| && TrimSpace(records[k].id) == id
    && (forall j :: k < j < |records| ==> TrimSpace(records[j].id) != id)
  }

  /** A profile is found under its trimmed id, and the last one of an id counts. */
  lemma {:induction false} IndexOfIsLast(records: seq<Record>, id: string)
    ensures id in IndexOf(records) <==> exists k :: IsLastOf(records, id, k)
    ensures forall k :: IsLastOf(records, id, k) ==> IndexOf(records)[id] == records[k]
  {
    if records != [] {
      var n := |records| - 1;
      IndexOfIsLast(records[..n], id);
      if TrimSpace(records[n].id) == id {
        assert IsLastOf(records, id, n);
      } else {
        forall k
          ensures IsLastOf(records, id, k) <==> IsLastOf(records[..n], id, k)
        {
        }
      }
    }
  }

  /** resolveProfileChain succeeds exactly when the walk finishes, and then returns it, root first and without
      repetition; otherwise it names the missing or the revisited profile. */
  method ResolveProfileChain(records: seq<Record>, selectedID: string) returns (r: Result)
    ensures var up, selected := Parents(IndexOf(records)), TrimSpace(selectedID);
      && (r.Ok? <==> exists n :: Finishes(up, selected, n))
      && (r.Ok? ==> exists n :: Finishes(up, selected, n) && r.chain == RootFirst(IndexOf(records), selected, 0, n))
      && (r.Err? ==> Explains(up, selected, r.error))
  {
    var byID: Index := map[];
    for i := 0 to |records|
      invariant byID == IndexOf(records[..i])
    {
      assert records[..i + 1][..i] == records[..i];
      byID := byID[TrimSpace(records[i].id) := records[i]];
    }
    assert records[..|records|] == records;
    var resolver := new ChainResolver(byID);
    var err, end := resolver.Visit(selectedID, TrimSpace(selectedID), []);
    if err.Some? {
      ExplainedFails(Parents(byID), TrimSpace(selectedID), err.value);
      return Err(err.value);
    }
    return Ok(resolver.ordered);
  }

  lemma ExplainedFails(up: map<string, string>, selected: string, e: Error)
    requires Explains(up, selected, e)
    ensures forall n :: !Finishes(up, selected, n)
  {
    forall n
      ensures !Finishes(up, selected, n)
    {
      if Finishes(up, selected, n) {
        if e.BaseNotFound? {
          var m :| Misses(up, selected, m);
          OutcomesExclude(up, selected, n, m, 0, 0);
        } else {
          var i, j :| Revisits(up, selected, i, j);
          OutcomesExclude(up, selected, n, 0, i, j);
        }
        assert false;
      }
    }
  }

  /** The chain repeats no profile. */
  lemma ChainIsDistinct(up: map<string, string>, selected: string, n: nat, i: nat, j: nat)
    requires Finishes(up, selected, n) && i < j < n
    ensures Walk(up, selected, i) != Walk(up, selected, j)
  {
    if Walk(up, selected, i) == Walk(up, selected, j) {
      assert Revisits(up, selected, i, j);
      OutcomesExclude(up, selected, n, 0, i, j);
      assert false;
    }
  }

  /***** Merging *****/

  // A service that nobody has described yet; a nil map or list is an empty one.
  const NO_SPEC := Spec(map[], [], 0, 0)

  function SpecOf(services: map<string, Spec>, name: string): Spec {
    if name in services then services[name] else NO_SPEC
  }

  // An overlay replaces what it states: environment keys one by one, devices as a whole, positive limits.
  function MergedSpec(base: Spec, over: Spec): Spec {
    Spec(base.env + over.env,
         if |over.devices| > 0 then over.devices else base.devices,
         if over.memory > 0 then over.memory else base.memory,
         if over.milliCPU > 0 then over.milliCPU else base.milliCPU)
  }

  function Merged(base: map<string, Spec>, over: map<string, Spec>): map<string, Spec> {
    map name | name in base.Keys + over.Keys ::
      if name in over then MergedSpec(SpecOf(base, name), over[name]) else base[name]
  }

  /** mergeServiceSpecs */
  method MergeServiceSpecs(base: map<string, Spec>, over: map<string, Spec>) returns (result: map<string, Spec>)
    ensures result == Merged(base, over)
  {
    result := base;
    var todo := over.Keys;
    while todo != {}
      invariant todo <= over.Keys && MergedSoFar(base, over, result, todo)
      decreases |todo|
    {
      var name :| name in todo;
      MergedStep(base, over, result, todo, name);
      result := MergeInto(result, name, over[name]);
      todo := todo - {name};
    }
    MergedEnd(base, over, result);
  }

  // The overlay is merged in, except for some names.
  ghost predicate MergedSoFar(base: map<string, Spec>, over: map<string, Spec>, result: map<string, Spec>, todo: set<string>) {
    && result.Keys == base.Keys + (over.Keys - todo)
    && (forall name :: name in result && name in over && name !in todo ==>
         result[name] == MergedSpec(SpecOf(base, name), over[name]))
    && (forall name :: name in result && (name !in over || name in todo) ==> result[name] == SpecOf(base, name))
  }

  lemma MergedStep(base: map<string, Spec>, over: map<string, Spec>, result: map<string, Spec>, todo: set<string>, name: string)
    requires MergedSoFar(base, over, result, todo) && name in todo && todo <= over.Keys
    ensures MergedSoFar(base, over, result[name := MergedSpec(SpecOf(result, name), over[name])], todo - {name})
  {
    assert SpecOf(result, name) == SpecOf(base, name);
  }

  lemma MergedEnd(base: map<string, Spec>, over: map<string, Spec>, result: map<string, Spec>)
    requires MergedSoFar(base, over, result, {})
    ensures result == Merged(base, over)
  {
    assert result.Keys == Merged(base, over).Keys;
  }

  // The body of the loop over the overlay.
  method MergeInto(services: map<string, Spec>, name: string, v: Spec) returns (result: map<string, Spec>)
    ensures result == services[name := MergedSpec(SpecOf(services, name), v)]
  {
    var spec := MergeSpec(SpecOf(services, name), v);
    result := services[name := spec];
  }

  method MergeSpec(existing: Spec, v: Spec) returns (merged: Spec)
    ensures merged == MergedSpec(existing, v)
  {
    var env := MergeMaps(existing.env, v.env);
    merged := existing.(env := env);
    if |v.devices| > 0 {
      merged := merged.(devices := v.devices);
    }
    if v.memory > 0 {
      merged := merged.(memory := v.memory);
    }
    if v.milliCPU > 0 {
      merged := merged.(milliCPU := v.milliCPU);
    }
  }

  /** mergeRuntimeMaps of two maps */
  method MergeMaps(a: map<string, string>, b: map<string, string>) returns (merged: map<string, string>)
    ensures merged == a + b
  {
    merged := a;
    var todo := b.Keys;
    while todo != {}
      invariant todo <= b.Keys && merged == a + map key | key in b && key !in todo :: b[key]
      decreases |todo|
    {
      var key :| key in todo;
      todo := todo - {key};
      merged := merged[key := b[key]];
    }
    assert b == map key | key in b && key !in todo :: b[key];
  }

  lemma MergedSpecLaws(a: Spec, b: Spec, c: Spec)
    ensures MergedSpec(MergedSpec(a, b), c) == MergedSpec(a, MergedSpec(b, c))
    ensures MergedSpec(a, MergedSpec(NO_SPEC, c)) == MergedSpec(a, c)
  {
    assert a.env + b.env + c.env == a.env + (b.env + c.env);
    assert map[] + c.env == c.env;
  }

  lemma MergedAt(a: map<string, Spec>, b: map<string, Spec>, name: string)
    ensures SpecOf(Merged(a, b), name) == if name in b then MergedSpec(SpecOf(a, name), b[name]) else SpecOf(a, name)
    ensures name in Merged(a, b) <==> name in a || name in b
  {
  }

  lemma AssociativeAt(a: map<string, Spec>, b: map<string, Spec>, c: map<string, Spec>, name: string)
    ensures SpecOf(Merged(Merged(a, b), c), name) == SpecOf(Merged(a, Merged(b, c)), name)
  {
    MergedAt(a, b, name);
    MergedAt(b, c, name);
    MergedAt(Merged(a, b), c, name);
    MergedAt(a, Merged(b, c), name);
    MergedSpecLaws(SpecOf(a, name), SpecOf(b, name), SpecOf(c, name));
    if name in b || name in c {
      assert Merged(b, c)[name] == SpecOf(Merged(b, c), name);
    }
  }

  /** Merging services is associative, for any limits. */
  lemma MergeIsAssociative(a: map<string, Spec>, b: map<string, Spec>, c: map<string, Spec>)
    ensures Merged(Merged(a, b), c) == Merged(a, Merged(b, c))
  {
    var left, right := Merged(Merged(a, b), c), Merged(a, Merged(b, c));
    assert left.Keys == right.Keys;
    forall name | name in left
      ensures left[name] == right[name]
    {
      AssociativeAt(a, b, c, name);
      assert SpecOf(left, name) == left[name] && SpecOf(right, name) == right[name];
    }
  }

  /***** Secret references *****/

  function KeyOf(ref: SecretRef): string {
    TrimSpace(ref.key)
  }

  function Keys(refs: seq<SecretRef>): (r: seq<string>)
    ensures |r| == |refs| && forall k :: 0 <= k < |r| ==> r[k] == KeyOf(refs[k]) == TrimSpace(refs[k].key)
  {
    seq(|refs|, k requires 0 <= k < |refs| => KeyOf(refs[k]))
  }

  // Where a key stands in a list; the length of the list if it does not.
  function PlaceOf(refs: seq<SecretRef>, key: string): (k: nat)
    ensures k <= |refs|
    ensures k < |refs| ==> KeyOf(refs[k]) == key
    ensures forall j :: 0 <= j < k ==> KeyOf(refs[j]) != key
  {
    if refs == [] || KeyOf(refs[0]) == key then 0 else 1 + PlaceOf(refs[1..], key)
  }

  // appendRef: a new key goes to the end, a known one is replaced where it stands.
  function WithRef(ordered: seq<SecretRef>, ref: SecretRef): seq<SecretRef> {
    var k := PlaceOf(ordered, KeyOf(ref));
    if KeyOf(ref) == "" then ordered
    else if k < |ordered| then ordered[k := ref]
    else ordered + [ref]
  }

  function WithRefs(ordered: seq<SecretRef>, refs: seq<SecretRef>): seq<SecretRef> {
    if refs == [] then ordered else WithRef(WithRefs(ordered, refs[..|refs| - 1]), refs[|refs| - 1])
  }

  /** mergeSecretRefs, with the index it keeps. */
  method MergeSecretRefs(base: seq<SecretRef>, overlays: seq<seq<SecretRef>>) returns (ordered: seq<SecretRef>)
    ensures ordered == WithRefs([], base + Flatten(overlays))
  {
    ordered := [];
    var indexByKey: map<string, nat> := map[];
    ordered, indexByKey := AppendRefs(ordered, indexByKey, base);
    assert base + Flatten(overlays[..0]) == base;
    for i := 0 to |overlays|
      invariant ordered == WithRefs([], base + Flatten(overlays[..i])) && Indexes(indexByKey, ordered)
    {
      ordered, indexByKey := AppendRefs(ordered, indexByKey, overlays[i]);
      NextOverlay(base, overlays, i);
    }
    assert overlays[..|overlays|] == overlays;
  }

  lemma NextOverlay(base: seq<SecretRef>, overlays: seq<seq<SecretRef>>, i: nat)
    requires i < |overlays|
    ensures WithRefs([], base + Flatten(overlays[..i + 1])) == WithRefs(WithRefs([], base + Flatten(overlays[..i])), overlays[i])
  {
    assert overlays[..i + 1][..i] == overlays[..i];
    assert base + (Flatten(overlays[..i]) + overlays[i]) == base + Flatten(overlays[..i]) + overlays[i];
    WithRefsAppend([], base + Flatten(overlays[..i]), overlays[i]);
  }

  function Flatten(lists: seq<seq<SecretRef>>): seq<SecretRef> {
    if lists == [] then [] else Flatten(lists[..|lists| - 1]) + lists[|lists| - 1]
  }

  ghost predicate Indexes(indexByKey: map<string, nat>, ordered: seq<SecretRef>) {
    && (forall key :: key in indexByKey <==> PlaceOf(ordered, key) < |ordered|)
    && (forall key :: key in indexByKey ==> indexByKey[key] == PlaceOf(ordered, key))
  }

  method AppendRefs(ordered: seq<SecretRef>, indexByKey: map<string, nat>, refs: seq<SecretRef>)
    returns (r: seq<SecretRef>, index: map<string, nat>)
    requires Indexes(indexByKey, ordered)
    ensures r == WithRefs(ordered, refs) && Indexes(index, r)
  {
    r, index := ordered, indexByKey;
    for i := 0 to |refs|
      invariant r == WithRefs(ordered, refs[..i]) && Indexes(index, r)
    {
      assert refs[..i + 1][..i] == refs[..i];
      var key := KeyOf(refs[i]);
      if key == "" {
        continue;
      }
      PlacesAfter(r, refs[i]);
      if key in index {
        r := r[index[key] := refs[i]];
      } else {
        index := index[key := |r|];
        r := r + [refs[i]];
      }
    }
    assert refs[..|refs|] == refs;
  }

  // The other keys stay where they are.
  lemma PlacesAfter(ordered: seq<SecretRef>, ref: SecretRef)
    requires KeyOf(ref) != ""
    ensures var r := WithRef(ordered, ref);
      && |r| == (if PlaceOf(ordered, KeyOf(ref)) < |ordered| then |ordered| else |ordered| + 1)
      && PlaceOf(r, KeyOf(ref)) == PlaceOf(ordered, KeyOf(ref))
      && forall key :: key != KeyOf(ref) ==>
           PlaceOf(r, key) == (if PlaceOf(ordered, key) < |ordered| then PlaceOf(ordered, key) else |r|)
  {
    var r := WithRef(ordered, ref);
    IsPlace(r, KeyOf(ref), PlaceOf(ordered, KeyOf(ref)));
    forall key | key != KeyOf(ref)
      ensures PlaceOf(r, key) == if PlaceOf(ordered, key) < |ordered| then PlaceOf(ordered, key) else |r|
    {
      IsPlace(r, key, if PlaceOf(ordered, key) < |ordered| then PlaceOf(ordered, key) else |r|);
    }
  }

  lemma IsPlace(refs: seq<SecretRef>, key: string, k: nat)
    requires k <= |refs| && (k < |refs| ==> KeyOf(refs[k]) == key)
    requires forall j :: 0 <= j < k ==> KeyOf(refs[j]) != key
    ensures PlaceOf(refs, key) == k
  {
  }

  lemma {:induction false} WithRefsAppend(ordered: seq<SecretRef>, a: seq<SecretRef>, b: seq<SecretRef>)
    ensures WithRefs(ordered, a + b) == WithRefs(WithRefs(ordered, a), b)
  {
    if b == [] {
      assert a + b == a;
    } else {
      assert (a + b)[..|a + b| - 1] == a + b[..|b| - 1];
      WithRefsAppend(ordered, a, b[..|b| - 1]);
    }
  }

  // The last reference of a key.
  ghost predicate IsLast(refs: seq<SecretRef>, key: string, ref: SecretRef) {
    exists k :: 0 <= k < |refs| && refs[k] == ref && KeyOf(ref) == key && LaterKeysDiffer(refs, k, key)
  }

  ghost predicate LaterKeysDiffer(refs: seq<SecretRef>, k: int, key: string)
    requires 0 <= k
  {
    forall j :: k < j < |refs| ==> KeyOf(refs[j]) != key
  }

  function NonEmpty(keys: seq<string>): seq<string> {
    if keys == [] then []
    else NonEmpty(keys[..|keys| - 1]) + if keys[|keys| - 1] == "" then [] else [keys[|keys| - 1]]
  }

  /** The merge lists every non-empty key once, where it first appears ... */
  lemma {:induction false} MergedKeys(refs: seq<SecretRef>)
    ensures Keys(WithRefs([], refs)) == Dedup(NonEmpty(Keys(refs)))
  {
    if refs != [] {
      var init, last := refs[..|refs| - 1], refs[|refs| - 1];
      MergedKeys(init);
      assert Keys(refs)[..|refs| - 1] == Keys(init);
      assert NonEmpty(Keys(init)) + [] == NonEmpty(Keys(init));
      KeysAfter(WithRefs([], init), last, NonEmpty(Keys(init)));
    }
  }

  /** ... with its last reference. */
  lemma {:induction false} MergedRefs(refs: seq<SecretRef>)
    ensures forall k :: 0 <= k < |WithRefs([], refs)| ==>
      IsLast(refs, KeyOf(WithRefs([], refs)[k]), WithRefs([], refs)[k])
  {
    if refs != [] {
      var init, last := refs[..|refs| - 1], refs[|refs| - 1];
      MergedRefs(init);
      MergedKeys(init);
      assert refs == init + [last];
      var o := WithRefs([], init);
      forall k | 0 <= k < |WithRef(o, last)|
        ensures IsLast(refs, KeyOf(WithRef(o, last)[k]), WithRef(o, last)[k])
      {
        if k < |o| {
          KeysNonEmpty(Keys(init));
          assert Keys(o)[k] in Elems(Keys(o));
        }
        LastAfter(init, last, o, k);
      }
    }
  }

  lemma {:induction false} KeysNonEmpty(keys: seq<string>)
    ensures "" !in Elems(NonEmpty(keys))
  {
    if keys != [] {
      KeysNonEmpty(keys[..|keys| - 1]);
    }
  }

  lemma KeysAfter(o: seq<SecretRef>, ref: SecretRef, keys: seq<string>)
    requires Keys(o) == Dedup(keys)
    ensures Keys(WithRef(o, ref)) == Dedup(if KeyOf(ref) == "" then keys else keys + [KeyOf(ref)])
  {
    var key := KeyOf(ref);
    var k := PlaceOf(o, key);
    assert (keys + [key])[..|keys|] == keys && keys + [] == keys;
    assert k < |o| ==> Keys(o)[k] == key;
    assert k == |o| ==> key !in Keys(o);
  }

  lemma LastAfter(refs: seq<SecretRef>, last: SecretRef, o: seq<SecretRef>, k: nat)
    requires k < |WithRef(o, last)| && Distinct(Keys(o))
    requires k < |o| ==> IsLast(refs, KeyOf(o[k]), o[k]) && KeyOf(o[k]) != ""
    ensures IsLast(refs + [last], KeyOf(WithRef(o, last)[k]), WithRef(o, last)[k])
  {
    var all, ref := refs + [last], WithRef(o, last)[k];
    if k < |o| && ref == o[k] && KeyOf(o[k]) != KeyOf(last) {
      var j :| 0 <= j < |refs| && refs[j] == o[k] && LaterKeysDiffer(refs, j, KeyOf(o[k]));
      assert LaterKeysDiffer(all, j, KeyOf(ref)) && all[j] == ref;
    } else {
      assert k < |o| ==> Keys(o)[k] == KeyOf(o[k]);
      assert KeyOf(last) != "";
      assert ref == last;
      assert LaterKeysDiffer(all, |refs|, KeyOf(last)) && all[|refs|] == last;
    }
  }

  ghost predicate IsMergedList(o: seq<SecretRef>) {
    Distinct(Keys(o)) && "" !in Elems(Keys(o))
  }

  lemma NewKeyGoesLast(o: seq<SecretRef>, n: nat)
    requires IsMergedList(o) && n < |o|
    ensures WithRef(o[..n], o[n]) == o[..n] + [o[n]] && IsMergedList(o[..n])
  {
    assert Keys(o[..n]) == Keys(o)[..n];
    assert Keys(o)[n] in Elems(Keys(o));
    forall j | 0 <= j < n
      ensures KeyOf(o[..n][j]) != KeyOf(o[n])
    {
      assert Keys(o)[j] != Keys(o)[n];
    }
    IsPlace(o[..n], KeyOf(o[n]), n);
  }

  lemma {:induction false} MergeOfMerged(o: seq<SecretRef>)
    requires IsMergedList(o)
    ensures WithRefs([], o) == o
  {
    if o != [] {
      var n := |o| - 1;
      NewKeyGoesLast(o, n);
      MergeOfMerged(o[..n]);
      assert o == o[..n] + [o[n]];
    }
  }

  /** Merging in stages is merging at once. */
  lemma MergeInStages(refs: seq<SecretRef>, more: seq<SecretRef>)
    ensures WithRefs([], WithRefs([], refs) + more) == WithRefs([], refs + more)
  {
    var o := WithRefs([], refs);
    MergedKeys(refs);
    KeysNonEmpty(Keys(refs));
    MergeOfMerged(o);
    WithRefsAppend([], o, more);
    WithRefsAppend([], refs, more);
  }

  /***** The fold of resolveManagedProfileRuntime *****/

  const EMPTY := Runtime(map[], map[], [], "", [])

  function Overlaid(base: Runtime, r: Record): Runtime {
    Runtime(base.env + r.env,
            Merged(base.services, r.services),
            WithRefs([], base.secretRefs + Flatten([r.docRefs, r.recordRefs])),
            if r.networkMode != "" then r.networkMode else base.networkMode,
            if |r.agentTags| > 0 then r.agentTags else base.agentTags)
  }

  function Fold(chain: seq<Record>): Runtime {
    if chain == [] then EMPTY else Overlaid(Fold(chain[..|chain| - 1]), chain[|chain| - 1])
  }

  method ResolveRuntime(chain: seq<Record>) returns (runtime: Runtime)
    ensures runtime == Fold(chain)
  {
    runtime := EMPTY;
    for i := 0 to |chain|
      invariant runtime == Fold(chain[..i])
    {
      assert chain[..i + 1][..i] == chain[..i];
      var current := chain[i];
      var env := MergeMaps(runtime.env, current.env);
      var services := MergeServiceSpecs(runtime.services, current.services);
      var refs := MergeSecretRefs(runtime.secretRefs, [current.docRefs, current.recordRefs]);
      runtime := Runtime(env, services, refs,
                         if current.networkMode != "" then current.networkMode else runtime.networkMode,
                         if |current.agentTags| > 0 then current.agentTags else runtime.agentTags);
    }
    assert chain[..|chain|] == chain;
  }

  // The profile nearest to the selected one that satisfies p, as an index into the chain; -1 if none does.
  function Nearest(chain: seq<Record>, p: Record -> bool): (k: int)
    ensures -1 <= k < |chain|
    ensures k >= 0 ==> p(chain[k])
    ensures forall j :: k < j < |chain| ==> !p(chain[j])
  {
    if chain == [] then -1
    else if p(chain[|chain| - 1]) then |chain| - 1
    else Nearest(chain[..|chain| - 1], p)
  }

  /** Every environment key has the value of the nearest profile that defines it, and so have the network mode
      and the agent tags. */
  lemma {:induction false} NearestProfileWins(chain: seq<Record>, key: string)
    ensures var k := Nearest(chain, (r: Record) => key in r.env);
      if k >= 0 then key in Fold(chain).env && Fold(chain).env[key] == chain[k].env[key] else key !in Fold(chain).env
    ensures var k := Nearest(chain, (r: Record) => r.networkMode != "");
      Fold(chain).networkMode == if k >= 0 then chain[k].networkMode else ""
    ensures var k := Nearest(chain, (r: Record) => |r.agentTags| > 0);
      Fold(chain).agentTags == if k >= 0 then chain[k].agentTags else []
  {
    if chain != [] {
      NearestProfileWins(chain[..|chain| - 1], key);
    }
  }

  function ServiceOf(r: Record, name: string): Spec {
    SpecOf(r.services, name)
  }

  /** Every field of a service has the value of the nearest profile that states it. */
  lemma {:induction false} NearestServiceWins(chain: seq<Record>, name: string)
    ensures var k := Nearest(chain, (r: Record) => ServiceOf(r, name).memory > 0);
      SpecOf(Fold(chain).services, name).memory == if k >= 0 then ServiceOf(chain[k], name).memory else 0
    ensures var k := Nearest(chain, (r: Record) => ServiceOf(r, name).milliCPU > 0);
      SpecOf(Fold(chain).services, name).milliCPU == if k >= 0 then ServiceOf(chain[k], name).milliCPU else 0
    ensures var k := Nearest(chain, (r: Record) => |ServiceOf(r, name).devices| > 0);
      SpecOf(Fold(chain).services, name).devices == if k >= 0 then ServiceOf(chain[k], name).devices else []
    ensures name in Fold(chain).services <==> Nearest(chain, (r: Record) => name in r.services) >= 0
  {
    if chain != [] {
      var init, last := chain[..|chain| - 1], chain[|chain| - 1];
      NearestServiceWins(init, name);
      MergedAt(Fold(init).services, last.services, name);
    }
  }

  lemma {:induction false} NearestServiceEnvWins(chain: seq<Record>, name: string, key: string)
    ensures var k := Nearest(chain, (r: Record) => key in ServiceOf(r, name).env); var env := SpecOf(Fold(chain).services, name).env;
      if k >= 0 then key in env && env[key] == ServiceOf(chain[k], name).env[key] else key !in env
  {
    if chain != [] {
      var init, last := chain[..|chain| - 1], chain[|chain| - 1];
      NearestServiceEnvWins(init, name, key);
      MergedAt(Fold(init).services, last.services, name);
    }
  }

  function AllRefs(chain: seq<Record>): seq<SecretRef> {
    if chain == [] then [] else
      AllRefs(chain[..|chain| - 1]) + Flatten([chain[|chain| - 1].docRefs, chain[|chain| - 1].recordRefs])
  }

  /** The secret references are the merge of all the references of the chain. */
  lemma {:induction false} FoldedRefs(chain: seq<Record>)
    ensures Fold(chain).secretRefs == WithRefs([], AllRefs(chain))
  {
    if chain != [] {
      FoldedRefs(chain[..|chain| - 1]);
      MergeInStages(AllRefs(chain[..|chain| - 1]),
                    Flatten([chain[|chain| - 1].docRefs, chain[|chain| - 1].recordRefs]));
    }
  }
}
