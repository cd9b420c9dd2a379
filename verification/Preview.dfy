/** Preview requests and the dispatch they are meant to satisfy (mocking/preview.go, mocking/request.go). */
module Preview {
  import opened Json
  import opened Templates
  import opened Text

  /***** Body paths *****/

  // strings.Split(path, ".")
  function Segments(path: string): (r: seq<string>)
    ensures r != []
  {
    if path == "" then [""] else
      var rest := Segments(path[1..]);
      if path[0] == '.' then [""] + rest else [[path[0]] + rest[0]] + rest[1..]
  }

  lemma {:induction false} SegmentsKeepThePath(path: string)
    ensures Join(Segments(path), ".") == path
  {
    if path != "" {
      var rest := Segments(path[1..]);
      SegmentsKeepThePath(path[1..]);
      if path[0] == '.' {
        assert Join([""] + rest, ".") == "" + "." + Join(rest, ".");
      } else {
        var all := [[path[0]] + rest[0]] + rest[1..];
        assert all[1..] == rest[1..];
        assert Join(all, ".") == [path[0]] + Join(rest, ".");
      }
    }
  }

  /** The segments are what stands between the dots. */
  lemma {:induction false} SegmentsHaveNoDots(path: string)
    ensures forall k :: 0 <= k < |Segments(path)| ==> '.' !in Segments(path)[k]
  {
    if path != "" {
      SegmentsHaveNoDots(path[1..]);
    }
  }

  // setPreviewBodyValue, on the value of the nested maps: empty segments are skipped, and whatever is in
  // the way is replaced by an object.
  function Set(body: map<string, Json>, segments: seq<string>, value: string): map<string, Json>
    decreases |segments|
  {
    if segments == [] then body
    else if segments[0] == "" then Set(body, segments[1..], value)
    else if |segments| == 1 then body[segments[0] := Str(value)]
    else body[segments[0] := Obj(Set(Inner(body, segments[0]), segments[1..], value))]
  }

  function Inner(body: map<string, Json>, key: string): map<string, Json> {
    if key in body && body[key].Obj? then body[key].fields else map[]
  }

  // Where the loop of bodyLookup ends; null when it leaves the objects.
  function Walk(v: Json, segments: seq<string>): Json
    decreases |segments|
  {
    if segments == [] then v
    else if v.Obj? && segments[0] in v.fields then Walk(v.fields[segments[0]], segments[1..])
    else Null
  }

  /** bodyLookup */
  method BodyLookup(body: Json, key: string, show: Json -> string) returns (r: string)
    ensures r == TextAt(body, key, show)
  {
    if body == Null || Blank(key) {
      return "";
    }
    var current, segments := body, Segments(key);
    for i := 0 to |segments|
      invariant Walk(body, segments) == Walk(current, segments[i..])
    {
      assert segments[i..][1..] == segments[i + 1..];
      if !current.Obj? {
        return "";
      }
      if segments[i] !in current.fields {
        WalkFromNull(segments[i + 1..]);
      }
      current := if segments[i] in current.fields then current.fields[segments[i]] else Null;
    }
    return if current == Null then "" else Sprint(current, show);
  }

  lemma WalkFromNull(segments: seq<string>)
    ensures Walk(Null, segments) == Null
  {
  }

  function TextAt(body: Json, key: string, show: Json -> string): string {
    var found := Walk(body, Segments(key));
    if Blank(key) || found == Null then "" else Sprint(found, show)
  }

  lemma {:induction false} WalkIsLookup(v: Json, segments: seq<string>)
    ensures Walk(v, segments) == if Lookup(v, segments).Some? then Lookup(v, segments).value else Null
    decreases |segments|
  {
    if segments != [] && v.Obj? && segments[0] in v.fields {
      WalkIsLookup(v.fields[segments[0]], segments[1..]);
    }
  }

  /** What is read in a body: the text of the value at the path, and nothing at a blank path or if it is missing or null. */
  lemma BodyTextMeans(body: Json, key: string, show: Json -> string)
    ensures TextAt(body, key, show) ==
      var found := Lookup(body, Segments(key));
      if TrimSpace(key) == "" || found.None? || found.value == Null then "" else Sprint(found.value, show)
  {
    WalkIsLookup(body, Segments(key));
  }

  predicate NoneEmpty(segments: seq<string>) {
    "" !in segments
  }

  predicate IsPrefix(p: seq<string>, q: seq<string>) {
    |p| <= |q| && q[..|p|] == p
  }

  /** What was set is found. */
  lemma {:induction false} GetAfterSet(body: map<string, Json>, p: seq<string>, value: string)
    requires p != [] && NoneEmpty(p)
    ensures Walk(Obj(Set(body, p, value)), p) == Str(value)
    decreases |p|
  {
    assert p[0] in p;
    if |p| > 1 {
      GetAfterSet(Inner(body, p[0]), p[1..], value);
    }
  }

  lemma PrefixByHead(p: seq<string>, q: seq<string>)
    requires p != [] && q != []
    ensures IsPrefix(p, q) <==> p[0] == q[0] && IsPrefix(p[1..], q[1..])
  {
    if p[0] == q[0] && IsPrefix(p[1..], q[1..]) {
      assert p == [p[0]] + p[1..] && q[..|p|] == [q[0]] + q[1..][..|p| - 1];
    }
    if IsPrefix(p, q) {
      assert q[1..][..|p| - 1] == q[..|p|][1..];
    }
  }

  /** Setting one path leaves the others alone, unless one leads through the other. */
  lemma {:induction false} SetFrame(body: map<string, Json>, p: seq<string>, q: seq<string>, value: string)
    requires p != [] && q != [] && NoneEmpty(p)
    requires !IsPrefix(p, q) && !IsPrefix(q, p)
    ensures Walk(Obj(Set(body, p, value)), q) == Walk(Obj(body), q)
    decreases |p|
  {
    assert p[0] in p;
    if p[0] == q[0] {
      PrefixByHead(p, q);
      PrefixByHead(q, p);
      SetFrame(Inner(body, p[0]), p[1..], q[1..], value);
    }
  }

  /** A path that leads through one set later is lost. */
  lemma {:induction false} SetHidesLongerPaths(body: map<string, Json>, p: seq<string>, q: seq<string>, value: string)
    requires p != [] && NoneEmpty(p) && IsPrefix(p, q) && p != q
    ensures Walk(Obj(Set(body, p, value)), q) == Null
    decreases |p|
  {
    assert p[0] in p;
    PrefixByHead(p, q);
    if |p| > 1 {
      assert p == [p[0]] + p[1..] && q == [q[0]] + q[1..];
      SetHidesLongerPaths(Inner(body, p[0]), p[1..], q[1..], value);
    } else {
      assert |q| > 1;
    }
  }

  /***** Snapshots *****/

  datatype Condition = Condition(from: string, param: string, value: string)

  datatype Header = Header(name: string, value: string)

  // What url.Parse and json.Unmarshal make of the operation's URL and the example's body, strings.ToLower,
  // and the texts of values that are not strings.
  datatype Library = Library(
    query: map<string, string>, pathParams: map<string, string>, decode: string -> Option<Json>,
    lower: string -> string, show: Json -> string)

  datatype Exchange = Exchange(headers: seq<Header>, body: string, conditions: seq<Condition>)

  datatype Snapshot = Snapshot(
    query: map<string, string>, headers: map<string, string>, path: map<string, string>,
    bodyJSON: Json, bodyObject: Option<map<string, Json>>)

  datatype Kind = FromPath | FromHeader | FromBody | FromQuery

  function KindOf(from: string, lib: Library): Kind {
    var name := lib.lower(TrimSpace(from));
    if name == "path" then FromPath
    else if name == "header" then FromHeader
    else if name == "body" then FromBody
    else FromQuery
  }

  function Sent(headers: seq<Header>, lib: Library): map<string, string> {
    if headers == [] then map[] else
      var last := headers[|headers| - 1];
      var before := Sent(headers[..|headers| - 1], lib);
      if Blank(last.name) then before else before[lib.lower(last.name) := last.value]
  }

  function Decoded(body: string, lib: Library): Json {
    if Blank(body) then Null
    else if lib.decode(body).Some? then lib.decode(body).value
    else Str(TrimSpace(body))
  }

  // The snapshot before the conditions.
  function Base(exchange: Exchange, lib: Library): Snapshot {
    var body := Decoded(exchange.body, lib);
    Snapshot(lib.query, Sent(exchange.headers, lib), lib.pathParams, body, if body.Obj? then Some(body.fields) else None)
  }

  function Apply(s: Snapshot, c: Condition, lib: Library): Snapshot {
    match KindOf(c.from, lib)
    case FromPath => s.(path := s.path[c.param := c.value])
    case FromHeader => s.(headers := s.headers[lib.lower(c.param) := c.value])
    case FromBody =>
      var body := Set(if s.bodyObject.Some? then s.bodyObject.value else map[], Segments(TrimSpace(c.param)), c.value);
      s.(bodyObject := Some(body), bodyJSON := Obj(body))
    case FromQuery => s.(query := s.query[c.param := c.value])
  }

  function ApplyAll(s: Snapshot, conditions: seq<Condition>, lib: Library): Snapshot {
    if conditions == [] then s
    else Apply(ApplyAll(s, conditions[..|conditions| - 1], lib), conditions[|conditions| - 1], lib)
  }

  /** previewRequestSnapshot */
  method PreviewRequestSnapshot(exchange: Exchange, lib: Library) returns (s: Snapshot)
    ensures s == ApplyAll(Base(exchange, lib), exchange.conditions, lib)
  {
    s := Snapshot(lib.query, map[], lib.pathParams, Null, None);
    for i := 0 to |exchange.headers|
      invariant s == Snapshot(lib.query, Sent(exchange.headers[..i], lib), lib.pathParams, Null, None)
    {
      assert exchange.headers[..i + 1][..i] == exchange.headers[..i];
      var header := exchange.headers[i];
      if !Blank(header.name) {
        s := s.(headers := s.headers[lib.lower(header.name) := header.value]);
      }
    }
    assert exchange.headers[..|exchange.headers|] == exchange.headers;
    if !Blank(exchange.body) {
      var decoded := lib.decode(exchange.body);
      if decoded.Some? {
        s := s.(bodyJSON := decoded.value, bodyObject := if decoded.value.Obj? then Some(decoded.value.fields) else None);
      } else {
        s := s.(bodyJSON := Str(TrimSpace(exchange.body)));
      }
    }
    for i := 0 to |exchange.conditions|
      invariant s == ApplyAll(Base(exchange, lib), exchange.conditions[..i], lib)
    {
      assert exchange.conditions[..i + 1][..i] == exchange.conditions[..i];
      s := Apply(s, exchange.conditions[i], lib);
    }
    assert exchange.conditions[..|exchange.conditions|] == exchange.conditions;
  }

  /***** Dispatch *****/

  // An absent key reads as the empty string.
  function At(values: map<string, string>, key: string): string {
    if key in values then values[key] else ""
  }

  // valueAt
  function ValueAt(c: Condition, s: Snapshot, lib: Library): string {
    match KindOf(c.from, lib)
    case FromPath => At(s.path, c.param)
    case FromHeader => At(s.headers, lib.lower(c.param))
    case FromBody => TextAt(s.bodyJSON, c.param, lib.show)
    case FromQuery => At(s.query, c.param)
  }

  // matchWhen
  predicate MatchWhen(conditions: seq<Condition>, s: Snapshot, lib: Library) {
    forall i | 0 <= i < |conditions| :: ValueAt(conditions[i], s, lib) == conditions[i].value
  }

  /** Where a condition is read: by its trimmed source in lower case, with headers by their name in lower case. */
  lemma ReadsWhereItSays(c: Condition, s: Snapshot, lib: Library)
    ensures var from, value := lib.lower(TrimSpace(c.from)), ValueAt(c, s, lib);
      && (from == "path" ==> value == if c.param in s.path then s.path[c.param] else "")
      && (from == "header" ==>
           value == if lib.lower(c.param) in s.headers then s.headers[lib.lower(c.param)] else "")
      && (from == "body" ==> value == TextAt(s.bodyJSON, c.param, lib.show))
      && (from !in ["path", "header", "body"] ==> value == if c.param in s.query then s.query[c.param] else "")
  {
  }

  /** Where a condition is written: there, and nowhere else. */
  lemma WritesWhereItSays(s: Snapshot, c: Condition, lib: Library)
    ensures var from, after := lib.lower(TrimSpace(c.from)), Apply(s, c, lib);
      && (from == "path" ==> after == s.(path := s.path[c.param := c.value]))
      && (from == "header" ==> after == s.(headers := s.headers[lib.lower(c.param) := c.value]))
      && (from == "body" ==> after == s.(bodyJSON := after.bodyJSON, bodyObject := after.bodyObject))
      && (from == "body" ==> after.bodyObject.Some? && after.bodyJSON == Obj(after.bodyObject.value))
      && (from !in ["path", "header", "body"] ==> after == s.(query := s.query[c.param := c.value]))
  {
  }

  // The last header of that name, in lower case.
  ghost predicate IsLastHeader(headers: seq<Header>, key: string, k: int, lib: Library) {
    && 0 <= k < |headers| && IsNamed(headers[k], key, lib)
    && (forall j :: k < j < |headers| ==> !IsNamed(headers[j], key, lib))
  }

  predicate IsNamed(header: Header, key: string, lib: Library) {
    !Blank(header.name) && lib.lower(header.name) == key
  }

  /** The headers sent are those with a name, in lower case, the last one of a name counting. */
  lemma {:induction false} SentExactlyWhen(headers: seq<Header>, key: string, lib: Library)
    ensures key in Sent(headers, lib) <==> exists k :: IsLastHeader(headers, key, k, lib)
    ensures forall k :: IsLastHeader(headers, key, k, lib) ==> Sent(headers, lib)[key] == headers[k].value
  {
    if headers != [] {
      var n := |headers| - 1;
      SentExactlyWhen(headers[..n], key, lib);
      if IsNamed(headers[n], key, lib) {
        assert IsLastHeader(headers, key, n, lib);
      } else {
        forall k
          ensures IsLastHeader(headers, key, k, lib) <==> IsLastHeader(headers[..n], key, k, lib)
        {
        }
      }
    }
  }

  /** An example without conditions gives the query and the path parameters of the URL, the headers sent, and the body
      decoded, or trimmed if it cannot be, or nothing if it is blank. */
  lemma WithoutConditions(exchange: Exchange, lib: Library)
    requires exchange.conditions == []
    ensures var s := ApplyAll(Base(exchange, lib), exchange.conditions, lib);
      && s.query == lib.query && s.path == lib.pathParams && s.headers == Sent(exchange.headers, lib)
      && (TrimSpace(exchange.body) == "" ==> s.bodyJSON == Null)
      && (TrimSpace(exchange.body) != "" && lib.decode(exchange.body).Some? ==> s.bodyJSON == lib.decode(exchange.body).value)
      && (TrimSpace(exchange.body) != "" && lib.decode(exchange.body).None? ==> s.bodyJSON == Str(TrimSpace(exchange.body)))
      && s.bodyObject == if s.bodyJSON.Obj? then Some(s.bodyJSON.fields) else None
  {
  }

  predicate SameLocation(c: Condition, d: Condition, lib: Library) {
    var kind := KindOf(c.from, lib);
    && kind == KindOf(d.from, lib)
    && (c.param == d.param || (kind == FromHeader && lib.lower(c.param) == lib.lower(d.param)))
  }

  // A body path has no outer white space and no empty segments.
  predicate WellFormed(c: Condition, lib: Library) {
    KindOf(c.from, lib) == FromBody ==> TrimSpace(c.param) == c.param && NoneEmpty(Segments(c.param))
  }

  // Neither body path leads through the other.
  predicate Apart(c: Condition, d: Condition, lib: Library) {
    && KindOf(c.from, lib) == FromBody
    && KindOf(d.from, lib) == FromBody
    && c.param != d.param
    ==> !IsPrefix(Segments(c.param), Segments(d.param)) && !IsPrefix(Segments(d.param), Segments(c.param))
  }

  ghost predicate Clean(conditions: seq<Condition>, lib: Library) {
    && (forall i :: 0 <= i < |conditions| ==> WellFormed(conditions[i], lib))
    && (forall i, j :: 0 <= i < j < |conditions| ==> Apart(conditions[i], conditions[j], lib))
  }

  ghost predicate Agreeing(conditions: seq<Condition>, lib: Library) {
    forall i, j :: 0 <= i < j < |conditions| && SameLocation(conditions[i], conditions[j], lib)
      ==> conditions[i].value == conditions[j].value
  }

  ghost predicate Consistent(s: Snapshot) {
    s.bodyObject == if s.bodyJSON.Obj? then Some(s.bodyJSON.fields) else None
  }

  lemma WellFormedIsNotBlank(c: Condition, lib: Library)
    requires WellFormed(c, lib) && KindOf(c.from, lib) == FromBody
    ensures !Blank(c.param)
  {
    assert c.param == "" ==> "" in Segments(c.param);
  }

  lemma ApplyIsSeen(s: Snapshot, c: Condition, lib: Library)
    requires WellFormed(c, lib)
    ensures ValueAt(c, Apply(s, c, lib), lib) == c.value
  {
    if KindOf(c.from, lib) == FromBody {
      WellFormedIsNotBlank(c, lib);
      GetAfterSet(if s.bodyObject.Some? then s.bodyObject.value else map[], Segments(c.param), c.value);
    }
  }

  lemma SameSegments(p: string, q: string)
    ensures Segments(p) == Segments(q) ==> p == q
  {
    SegmentsKeepThePath(p);
    SegmentsKeepThePath(q);
  }

  lemma ApplyElsewhere(s: Snapshot, c: Condition, d: Condition, lib: Library)
    requires Consistent(s) && WellFormed(c, lib) && WellFormed(d, lib)
    requires !SameLocation(c, d, lib) && Apart(c, d, lib)
    ensures ValueAt(c, Apply(s, d, lib), lib) == ValueAt(c, s, lib)
  {
    if KindOf(c.from, lib) == FromBody && KindOf(d.from, lib) == FromBody {
      SetFrame(if s.bodyObject.Some? then s.bodyObject.value else map[], Segments(d.param), Segments(c.param), d.value);
    }
  }

  lemma SameValue(s: Snapshot, c: Condition, d: Condition, lib: Library)
    requires SameLocation(c, d, lib)
    ensures ValueAt(c, s, lib) == ValueAt(d, s, lib)
  {
  }

  lemma {:induction false} ApplyAllIsConsistent(s: Snapshot, conditions: seq<Condition>, lib: Library)
    requires Consistent(s)
    ensures Consistent(ApplyAll(s, conditions, lib))
  {
    if conditions != [] {
      ApplyAllIsConsistent(s, conditions[..|conditions| - 1], lib);
    }
  }

  lemma {:induction false} AgreeingIsSeen(s: Snapshot, conditions: seq<Condition>, i: nat, lib: Library)
    requires Consistent(s) && Clean(conditions, lib) && Agreeing(conditions, lib) && i < |conditions|
    ensures ValueAt(conditions[i], ApplyAll(s, conditions, lib), lib) == conditions[i].value
    decreases |conditions|
  {
    var n := |conditions| - 1;
    var init, c, d := conditions[..n], conditions[i], conditions[n];
    var before := ApplyAll(s, init, lib);
    ApplyAllIsConsistent(s, init, lib);
    ApplyIsSeen(before, d, lib);
    if i < n {
      if SameLocation(c, d, lib) {
        SameValue(Apply(before, d, lib), c, d, lib);
      } else {
        ApplyElsewhere(before, c, d, lib);
        AgreeingIsSeen(s, init, i, lib);
      }
    }
  }

  /** The preview of an example satisfies its own conditions exactly when those on one location agree. */
  lemma PreviewMatchesExactlyWhen(exchange: Exchange, lib: Library)
    requires Clean(exchange.conditions, lib)
    ensures MatchWhen(exchange.conditions, ApplyAll(Base(exchange, lib), exchange.conditions, lib), lib)
      <==> Agreeing(exchange.conditions, lib)
  {
    var conditions := exchange.conditions;
    var s := ApplyAll(Base(exchange, lib), conditions, lib);
    if MatchWhen(conditions, s, lib) {
      forall i, j | 0 <= i < j < |conditions| && SameLocation(conditions[i], conditions[j], lib)
        ensures conditions[i].value == conditions[j].value
      {
        SameValue(s, conditions[i], conditions[j], lib);
        assert ValueAt(conditions[i], s, lib) == conditions[i].value;
        assert ValueAt(conditions[j], s, lib) == conditions[j].value;
      }
    }
    if Agreeing(conditions, lib) {
      forall i | 0 <= i < |conditions|
        ensures ValueAt(conditions[i], s, lib) == conditions[i].value
      {
        AgreeingIsSeen(Base(exchange, lib), conditions, i, lib);
      }
    }
  }

  /***** Paths that lead through each other, or have gaps *****/

  predicate Related(c: Condition, d: Condition, lib: Library) {
    || SameLocation(c, d, lib)
    || !Apart(c, d, lib)
  }

  // The k-th condition is the last one that has to do with the location of c.
  ghost predicate LastRelated(conditions: seq<Condition>, c: Condition, k: int, lib: Library) {
    && 0 <= k < |conditions| && Related(c, conditions[k], lib)
    && (forall j :: k < j < |conditions| ==> !Related(c, conditions[j], lib))
  }

  lemma {:induction false} LaterUnrelated(s: Snapshot, conditions: seq<Condition>, c: Condition, k: nat, lib: Library)
    requires Consistent(s) && WellFormed(c, lib) && k <= |conditions|
    requires forall j :: 0 <= j < |conditions| ==> WellFormed(conditions[j], lib)
    requires forall j :: k <= j < |conditions| ==> !Related(c, conditions[j], lib)
    ensures ValueAt(c, ApplyAll(s, conditions, lib), lib) == ValueAt(c, ApplyAll(s, conditions[..k], lib), lib)
    decreases |conditions|
  {
    var n := |conditions|;
    if k < n {
      var init := conditions[..n - 1];
      assert init[..k] == conditions[..k];
      LaterUnrelated(s, init, c, k, lib);
      ApplyAllIsConsistent(s, init, lib);
      ApplyElsewhere(ApplyAll(s, init, lib), c, conditions[n - 1], lib);
    } else {
      assert conditions[..k] == conditions;
    }
  }

  /** The last condition that has to do with a location decides what is read there: its own value on the same
      location, nothing if it leads to a shorter path, and an object's text if it leads to a longer one. */
  lemma LastRelatedDecides(s: Snapshot, conditions: seq<Condition>, c: Condition, k: nat, lib: Library)
    requires Consistent(s) && WellFormed(c, lib) && LastRelated(conditions, c, k, lib)
    requires forall j :: 0 <= j < |conditions| ==> WellFormed(conditions[j], lib)
    ensures var value, d := ValueAt(c, ApplyAll(s, conditions, lib), lib), conditions[k];
      && (SameLocation(c, d, lib) ==> value == d.value)
      && (!SameLocation(c, d, lib) && IsPrefix(Segments(d.param), Segments(c.param)) ==> value == "")
      && (!SameLocation(c, d, lib) && IsPrefix(Segments(c.param), Segments(d.param)) ==>
           exists fields :: value == lib.show(Obj(fields)))
  {
    var d, before := conditions[k], ApplyAll(s, conditions[..k], lib);
    LaterUnrelated(s, conditions, c, k + 1, lib);
    assert conditions[..k + 1][..k] == conditions[..k];
    ApplyIsSeen(before, d, lib);
    if SameLocation(c, d, lib) {
      SameValue(Apply(before, d, lib), c, d, lib);
    } else {
      RelatedPath(before, c, d, lib);
    }
  }

  lemma RelatedPath(s: Snapshot, c: Condition, d: Condition, lib: Library)
    requires WellFormed(c, lib) && WellFormed(d, lib) && !SameLocation(c, d, lib) && !Apart(c, d, lib)
    ensures var value := ValueAt(c, Apply(s, d, lib), lib);
      && (IsPrefix(Segments(d.param), Segments(c.param)) ==> value == "")
      && (IsPrefix(Segments(c.param), Segments(d.param)) ==> exists fields :: value == lib.show(Obj(fields)))
  {
    var p, q := Segments(d.param), Segments(c.param);
    var body := if s.bodyObject.Some? then s.bodyObject.value else map[];
    SameSegments(c.param, d.param);
    WellFormedIsNotBlank(c, lib);
    if IsPrefix(p, q) {
      SetHidesLongerPaths(body, p, q, d.value);
    }
    if IsPrefix(q, p) {
      SetMakesObjects(body, p, q, d.value);
      var found := Walk(Obj(Set(body, p, d.value)), q);
      assert found == Obj(found.fields);
    }
  }

  /** A path that a later one leads through holds an object. */
  lemma {:induction false} SetMakesObjects(body: map<string, Json>, p: seq<string>, q: seq<string>, value: string)
    requires q != [] && NoneEmpty(p) && IsPrefix(q, p) && p != q
    ensures Walk(Obj(Set(body, p, value)), q).Obj?
    decreases |p|
  {
    assert p != [] && p[0] in p;
    PrefixByHead(q, p);
    assert p == [p[0]] + p[1..] && q == [q[0]] + q[1..];
    if |q| > 1 {
      SetMakesObjects(Inner(body, p[0]), p[1..], q[1..], value);
    }
  }

  /** So a preview never matches if, of two body paths, the longer one has a value and the shorter one comes after
      it, in any list of conditions that does not set the longer one again. */
  lemma LongerPathIsLost(exchange: Exchange, i: nat, k: nat, lib: Library)
    requires forall j :: 0 <= j < |exchange.conditions| ==> WellFormed(exchange.conditions[j], lib)
    requires i < |exchange.conditions| && LastRelated(exchange.conditions, exchange.conditions[i], k, lib)
    requires var c, d := exchange.conditions[i], exchange.conditions[k];
      c.value != "" && !SameLocation(c, d, lib) && IsPrefix(Segments(d.param), Segments(c.param))
    ensures !MatchWhen(exchange.conditions, ApplyAll(Base(exchange, lib), exchange.conditions, lib), lib)
  {
    LastRelatedDecides(Base(exchange, lib), exchange.conditions, exchange.conditions[i], k, lib);
  }

  lemma {:induction false} SetKeepsEmptyKey(body: map<string, Json>, p: seq<string>, value: string)
    ensures var after := Set(body, p, value);
      ("" in after <==> "" in body) && ("" in body ==> after[""] == body[""])
    decreases |p|
  {
    if p != [] && p[0] == "" {
      SetKeepsEmptyKey(body, p[1..], value);
    }
  }

  /** Neither is a value found that was set at a path with an empty segment, wherever that is: empty segments are
      skipped when the value is set and looked up as keys, so the path reads as it did before. */
  lemma {:induction false} EmptySegmentIsLost(body: map<string, Json>, p: seq<string>, value: string)
    requires !NoneEmpty(p)
    ensures Walk(Obj(Set(body, p, value)), p) == Walk(Obj(body), p)
    decreases |p|
  {
    if p[0] == "" {
      SetKeepsEmptyKey(body, p[1..], value);
    } else {
      assert p == [p[0]] + p[1..];
      EmptySegmentIsLost(Inner(body, p[0]), p[1..], value);
    }
  }
}
