/** Template expressions: splitting, look-up and evaluation (mocking/template.go, examplegen/mock_schema.go). */
module Templates {
  import opened Json
  import opened Text

  /***** Splitting *****/

  // Where the scan stands: how many parentheses are open, and inside which quotes.
  datatype Mode = Mode(depth: nat, inSingle: bool, inDouble: bool)

  const TOP := Mode(0, false, false)

  function Step(m: Mode, c: char): Mode {
    if c == '\'' && !m.inDouble then m.(inSingle := !m.inSingle)
    else if c == '"' && !m.inSingle then m.(inDouble := !m.inDouble)
    else if c == '(' && !m.inSingle && !m.inDouble then m.(depth := m.depth + 1)
    else if c == ')' && !m.inSingle && !m.inDouble && m.depth > 0 then m.(depth := m.depth - 1)
    else m
  }

  function ModeAfter(m: Mode, s: string): Mode
    decreases |s|
  {
    if s == "" then m else ModeAfter(Step(m, s[0]), s[1..])
  }

  // The delimiters the callers use.
  predicate Delimiter(d: string) {
    d == "||" || d == ","
  }

  predicate CutsHere(rest: string, m: Mode, d: string) {
    rest != "" && Step(m, rest[0]) == TOP && HasPrefix(rest, d)
  }

  // The pieces of cur + rest, where cur has been scanned already.
  function Cut(rest: string, cur: string, m: Mode, d: string): (r: seq<string>)
    requires Delimiter(d)
    ensures |r| > 0
    decreases |rest|
  {
    if rest == "" then [cur]
    else if CutsHere(rest, m, d) then [cur] + Cut(rest[|d|..], "", TOP, d)
    else Cut(rest[1..], cur + [rest[0]], Step(m, rest[0]), d)
  }

  // compactTemplateParts: trimmed, without the empty ones.
  function Compact(parts: seq<string>): (r: seq<string>)
    ensures |r| <= |parts|
  {
    if parts == [] then []
    else (if Blank(parts[0]) then [] else [TrimSpace(parts[0])]) + Compact(parts[1..])
  }

  function Split(input: string, d: string): seq<string>
    requires Delimiter(d)
  {
    if Blank(input) then [] else Compact(Cut(input, "", TOP, d))
  }

  /** splitTemplateExpression, as the loop over the bytes that both packages contain. */
  method SplitTemplateExpression(input: string, d: string) returns (parts: seq<string>)
    requires Delimiter(d)
    ensures parts == Split(input, d)
  {
    if Blank(input) {
      return [];
    }
    var raw: seq<string> := [];
    var mode, start, index := TOP, 0, 0;
    while index < |input|
      invariant 0 <= start <= index <= |input|
      invariant raw + Cut(input[index..], input[start..index], mode, d) == Cut(input, "", TOP, d)
    {
      CutNext(input, raw, start, index, mode, d);
      mode := Step(mode, input[index]);
      if mode == TOP && HasPrefix(input[index..], d) {
        raw := raw + [input[start..index]];
        index := index + |d|;
        start := index;
        assert input[start..index] == "";
      } else {
        index := index + 1;
      }
    }
    raw := raw + [input[start..]];
    assert input[start..] == input[start..index];
    parts := Compact(raw);
  }

  // One round of the loop.
  lemma CutNext(input: string, raw: seq<string>, start: nat, index: nat, m: Mode, d: string)
    requires Delimiter(d) && start <= index < |input|
    ensures var rest, cur := input[index..], input[start..index];
      raw + Cut(rest, cur, m, d) ==
        if CutsHere(rest, m, d) then raw + [cur] + Cut(input[index + |d|..], "", TOP, d)
        else raw + Cut(input[index + 1..], input[start..index + 1], Step(m, input[index]), d)
  {
    var rest, cur := input[index..], input[start..index];
    assert rest[1..] == input[index + 1..] && cur + [rest[0]] == input[start..index + 1];
    if CutsHere(rest, m, d) {
      var more := Cut(input[index + |d|..], "", TOP, d);
      assert rest[|d|..] == input[index + |d|..];
      ConcatAssoc(raw, [cur], more);
    }
  }

  // Scanned on its own, s is never cut.
  predicate Uncut(s: string, m: Mode, d: string)
    decreases |s|
  {
    s == "" || (!CutsHere(s, m, d) && Uncut(s[1..], Step(m, s[0]), d))
  }

  lemma {:induction false} UncutIsOnePiece(s: string, cur: string, m: Mode, d: string)
    requires Delimiter(d) && Uncut(s, m, d)
    ensures Cut(s, cur, m, d) == [cur + s]
    decreases |s|
  {
    if s != "" {
      UncutIsOnePiece(s[1..], cur + [s[0]], Step(m, s[0]), d);
      assert cur + [s[0]] + s[1..] == cur + s;
    } else {
      assert cur + s == cur;
    }
  }

  // Scanned with rest behind it, s is not cut.
  ghost predicate UncutIn(s: string, rest: string, m: Mode, d: string)
    decreases |s|
  {
    s == "" || (!CutsHere(s + rest, m, d) && UncutIn(s[1..], rest, Step(m, s[0]), d))
  }

  lemma {:induction false} UncutAlone(s: string, rest: string, m: Mode, d: string)
    requires UncutIn(s, rest, m, d)
    ensures Uncut(s, m, d)
    decreases |s|
  {
    if s != "" {
      assert HasPrefix(s, d) ==> (s + rest)[..|d|] == s[..|d|];
      UncutAlone(s[1..], rest, Step(m, s[0]), d);
    }
  }

  lemma {:induction false} UncutPrefix(s: string, rest: string, m: Mode, d: string)
    requires Uncut(s + rest, m, d)
    ensures UncutIn(s, rest, m, d)
    decreases |s|
  {
    if s != "" {
      assert (s + rest)[1..] == s[1..] + rest;
      UncutPrefix(s[1..], rest, Step(m, s[0]), d);
    }
  }

  lemma {:induction false} ModeAfterAppend(m: Mode, s: string, t: string)
    ensures ModeAfter(m, s + t) == ModeAfter(ModeAfter(m, s), t)
    decreases |s|
  {
    if s == "" {
      assert s + t == t;
    } else {
      assert (s + t)[1..] == s[1..] + t;
      ModeAfterAppend(Step(m, s[0]), s[1..], t);
    }
  }

  lemma {:induction false} UncutGrows(s: string, c: char, rest: string, m: Mode, d: string)
    requires UncutIn(s, [c] + rest, m, d) && !CutsHere([c] + rest, ModeAfter(m, s), d)
    ensures UncutIn(s + [c], rest, m, d)
    decreases |s|
  {
    assert s + [c] + rest == s + ([c] + rest);
    if s != "" {
      UncutGrows(s[1..], c, rest, Step(m, s[0]), d);
      assert (s + [c])[1..] == s[1..] + [c];
    }
  }

  // No piece would be cut again.
  lemma {:induction false} PiecesAreUncut(rest: string, cur: string, m: Mode, d: string)
    requires Delimiter(d) && m == ModeAfter(TOP, cur) && UncutIn(cur, rest, TOP, d)
    ensures forall p :: p in Cut(rest, cur, m, d) ==> Uncut(p, TOP, d)
    decreases |rest|
  {
    UncutAlone(cur, rest, TOP, d);
    if rest != "" {
      if CutsHere(rest, m, d) {
        PiecesAreUncut(rest[|d|..], "", TOP, d);
      } else {
        assert rest == [rest[0]] + rest[1..];
        UncutGrows(cur, rest[0], rest[1..], TOP, d);
        ModeAfterAppend(TOP, cur, [rest[0]]);
        PiecesAreUncut(rest[1..], cur + [rest[0]], Step(m, rest[0]), d);
      }
    }
  }

  lemma {:induction false} SpaceBefore(l: string, s: string, m: Mode, d: string)
    requires Delimiter(d) && AllSpace(l) && Uncut(l + s, m, d)
    ensures Uncut(s, m, d)
    decreases |l|
  {
    if l == "" {
      assert l + s == s;
    } else {
      assert (l + s)[1..] == l[1..] + s;
      SpaceBefore(l[1..], s, m, d);
    }
  }

  lemma TrimmedIsUncut(p: string, d: string)
    requires Delimiter(d) && Uncut(p, TOP, d)
    ensures Uncut(TrimSpace(p), TOP, d)
  {
    var l, r := TrimSplits(p);
    var t := TrimSpace(p);
    assert p == l + (t + r);
    SpaceBefore(l, t + r, TOP, d);
    UncutPrefix(t, r, TOP, d);
    UncutAlone(t, r, TOP, d);
  }

  lemma {:induction false} CompactElements(parts: seq<string>, p: string)
    requires p in Compact(parts)
    ensures !Blank(p) && TrimSpace(p) == p && exists q :: q in parts && p == TrimSpace(q)
  {
    if !Blank(parts[0]) && p == TrimSpace(parts[0]) {
      TrimTwice(parts[0]);
      assert parts[0] in parts;
    } else {
      CompactElements(parts[1..], p);
      var q :| q in parts[1..] && p == TrimSpace(q);
      assert q in parts;
    }
  }

  /** Every part of a split re-splits to itself. */
  lemma PartResplitsToItself(input: string, d: string, p: string)
    requires Delimiter(d) && p in Split(input, d)
    ensures Split(p, d) == [p] && TrimSpace(p) == p && !Blank(p)
  {
    SplitPartIsPart(input, d, p);
    SplitOfUncut(p, d);
  }

  lemma SplitPartIsPart(input: string, d: string, p: string)
    requires Delimiter(d) && p in Split(input, d)
    ensures IsPart(p, d) && p != ""
  {
    var pieces := Cut(input, "", TOP, d);
    CompactElements(pieces, p);
    var q :| q in pieces && p == TrimSpace(q);
    PiecesAreUncut(input, "", TOP, d);
    TrimmedIsUncut(q, d);
  }

  lemma SplitOfUncut(p: string, d: string)
    requires Delimiter(d) && Uncut(p, TOP, d) && !Blank(p) && TrimSpace(p) == p
    ensures Split(p, d) == [p]
  {
    UncutIsOnePiece(p, "", TOP, d);
    assert "" + p == p;
    CompactOne(p);
  }

  lemma CompactOne(p: string)
    requires !Blank(p) && TrimSpace(p) == p
    ensures Compact([p]) == [p]
  {
    assert [p][1..] == [];
  }

  /***** Joining *****/

  function Join(parts: seq<string>, d: string): string
    requires parts != []
  {
    if |parts| == 1 then parts[0] else parts[0] + d + Join(parts[1..], d)
  }

  // A part as a split returns it.
  ghost predicate IsPart(p: string, d: string) {
    !Blank(p) && TrimSpace(p) == p && Uncut(p, TOP, d)
  }

  // A part that something can follow: its parentheses and quotes are closed, and it does not end with
  // the first character of the delimiter.
  ghost predicate CanBeFollowed(p: string, d: string)
    requires Delimiter(d)
  {
    p != "" && ModeAfter(TOP, p) == TOP && p[|p| - 1] != d[0]
  }

  lemma {:induction false} CutAfter(p: string, rest: string, cur: string, m: Mode, d: string)
    requires Delimiter(d) && Uncut(p, m, d) && ModeAfter(m, p) == TOP
    requires p != "" ==> p[|p| - 1] != d[0]
    ensures Cut(p + d + rest, cur, m, d) == [cur + p] + Cut(rest, "", TOP, d)
    decreases |p|
  {
    var s := p + d + rest;
    if p == "" {
      assert s == d + rest && s[|d|..] == rest && cur + p == cur;
    } else {
      assert s[1..] == p[1..] + d + rest && cur + [p[0]] + p[1..] == cur + p;
      assert !CutsHere(s, m, d) by {
        assert |p| >= |d| ==> s[..|d|] == p[..|d|];
        assert |p| < |d| ==> s[0] == p[|p| - 1];
      }
      CutAfter(p[1..], rest, cur + [p[0]], Step(m, p[0]), d);
    }
  }

  lemma {:induction false} CutOfJoin(parts: seq<string>, d: string)
    requires Delimiter(d) && parts != []
    requires forall k :: 0 <= k < |parts| ==> IsPart(parts[k], d)
    requires forall k :: 0 <= k < |parts| - 1 ==> CanBeFollowed(parts[k], d)
    ensures Cut(Join(parts, d), "", TOP, d) == parts
  {
    assert "" + parts[0] == parts[0];
    if |parts| == 1 {
      UncutIsOnePiece(parts[0], "", TOP, d);
    } else {
      CutOfJoin(parts[1..], d);
      assert CanBeFollowed(parts[0], d);
      CutAfter(parts[0], Join(parts[1..], d), "", TOP, d);
    }
  }

  lemma {:induction false} CompactKeepsParts(parts: seq<string>)
    requires forall k :: 0 <= k < |parts| ==> !Blank(parts[k]) && TrimSpace(parts[k]) == parts[k]
    ensures Compact(parts) == parts
  {
    if parts != [] {
      CompactKeepsParts(parts[1..]);
    }
  }

  // Splitting undoes joining.
  lemma SplitOfJoin(parts: seq<string>, d: string)
    requires Delimiter(d) && parts != []
    requires forall k :: 0 <= k < |parts| ==> IsPart(parts[k], d)
    requires forall k :: 0 <= k < |parts| - 1 ==> CanBeFollowed(parts[k], d)
    ensures Split(Join(parts, d), d) == parts
  {
    CutOfJoin(parts, d);
    CompactKeepsParts(parts);
    assert IsPart(parts[0], d);
    JoinIsNotBlank(parts, d);
  }

  lemma JoinIsNotBlank(parts: seq<string>, d: string)
    requires parts != [] && TrimSpace(parts[0]) == parts[0] && !Blank(parts[0])
    ensures !Blank(Join(parts, d))
  {
    var l, r := TrimSplits(parts[0]);
    VisibleIsNotBlank(Join(parts, d), 0);
  }

  /** Joining undoes cutting. */
  lemma {:induction false} JoinOfCut(s: string, cur: string, m: Mode, d: string)
    requires Delimiter(d)
    ensures Join(Cut(s, cur, m, d), d) == cur + s
    decreases |s|
  {
    if s == "" {
      assert cur + s == cur;
    } else if CutsHere(s, m, d) {
      var rest := Cut(s[|d|..], "", TOP, d);
      JoinOfCut(s[|d|..], "", TOP, d);
      assert ([cur] + rest)[1..] == rest;
      assert "" + s[|d|..] == s[|d|..] && s == d + s[|d|..];
      ConcatAssoc(cur, d, s[|d|..]);
    } else {
      JoinOfCut(s[1..], cur + [s[0]], Step(m, s[0]), d);
      ConcatAssoc(cur, [s[0]], s[1..]);
      assert s == [s[0]] + s[1..];
    }
  }

  // Trimming the pieces and dropping the blank ones makes the whole shorter, unless it changes nothing.
  lemma {:induction false} CompactShrinks(c: seq<string>, d: string)
    requires Delimiter(d) && c != [] && Compact(c) != []
    ensures |Join(Compact(c), d)| <= |Join(c, d)|
    ensures |Join(Compact(c), d)| == |Join(c, d)| ==> Compact(c) == c
  {
    var first, rest := c[0], c[1..];
    TrimIsShorter(first);
    assert c == [first] + rest;
    if Blank(first) {
      assert Compact(c) == Compact(rest);
      CompactShrinks(rest, d);
    } else if Compact(rest) == [] {
      assert Compact(c) == [TrimSpace(first)];
    } else {
      CompactShrinks(rest, d);
      assert Compact(c) == [TrimSpace(first)] + Compact(rest) && Compact(c)[1..] == Compact(rest);
    }
  }

  lemma TrimIsShorter(s: string)
    ensures |TrimSpace(s)| <= |s| && (|TrimSpace(s)| == |s| ==> TrimSpace(s) == s)
  {
    var l, r := TrimSplits(s);
    assert |l| == 0 && |r| == 0 ==> l + TrimSpace(s) + r == TrimSpace(s);
  }

  // A split that returns the parts of a join has cut it at the joints, and nowhere else.
  lemma SplitIsCut(parts: seq<string>, d: string)
    requires Delimiter(d) && parts != [] && Split(Join(parts, d), d) == parts
    ensures Cut(Join(parts, d), "", TOP, d) == parts
  {
    var whole := Join(parts, d);
    var c := Cut(whole, "", TOP, d);
    JoinOfCut(whole, "", TOP, d);
    assert "" + whole == whole;
    CompactShrinks(c, d);
  }

  lemma {:induction false} FirstPieceStarts(s: string, cur: string, m: Mode, d: string)
    requires Delimiter(d)
    ensures HasPrefix(Cut(s, cur, m, d)[0], cur)
    decreases |s|
  {
    if s != "" && !CutsHere(s, m, d) {
      var longer := cur + [s[0]];
      FirstPieceStarts(s[1..], longer, Step(m, s[0]), d);
      var piece := Cut(s[1..], longer, Step(m, s[0]), d)[0];
      assert piece[..|cur|] == piece[..|longer|][..|cur|] == cur;
    }
  }

  // Where the first piece ends, the scan was outside quotes and parentheses, and it had not seen a delimiter.
  lemma {:induction false} FirstCut(p: string, rest: string, cur: string, m: Mode, d: string)
    requires Delimiter(d)
    requires var c := Cut(p + (d + rest), cur, m, d); |c| > 1 && c[0] == cur + p
    ensures UncutIn(p, d + rest, m, d) && CutsHere(d + rest, ModeAfter(m, p), d)
    ensures Cut(p + (d + rest), cur, m, d)[1..] == Cut(rest, "", TOP, d)
    decreases |p|
  {
    var s := p + (d + rest);
    if p == "" {
      assert s == d + rest && s[|d|..] == rest;
      if !CutsHere(s, m, d) {
        FirstPieceStarts(s[1..], cur + [s[0]], Step(m, s[0]), d);
        assert false;
      }
    } else {
      assert s[0] == p[0] && s[1..] == p[1..] + (d + rest);
      assert !CutsHere(s, m, d) by {
        assert |cur + p| > |cur|;
      }
      assert p == [p[0]] + p[1..];
      ConcatAssoc(cur, [p[0]], p[1..]);
      FirstCut(p[1..], rest, cur + [p[0]], Step(m, p[0]), d);
    }
  }

  // The last character before a delimiter is not the delimiter's first.
  lemma {:induction false} EndsBeforeTheDelimiter(p: string, rest: string, m: Mode, d: string)
    requires Delimiter(d) && p != "" && UncutIn(p, d + rest, m, d) && ModeAfter(m, p) == TOP
    ensures p[|p| - 1] != d[0]
    decreases |p|
  {
    if |p| == 1 {
      var s := p + (d + rest);
      assert p[1..] == "" && ModeAfter(m, p) == Step(m, p[0]);
      assert s[..|d|] == [p[0]] + d[..|d| - 1] && [d[0]] + d[..|d| - 1] == d;
    } else {
      EndsBeforeTheDelimiter(p[1..], rest, Step(m, p[0]), d);
    }
  }

  lemma {:induction false} CutPartsCanBeFollowed(parts: seq<string>, d: string)
    requires Delimiter(d) && parts != [] && Cut(Join(parts, d), "", TOP, d) == parts
    requires forall k :: 0 <= k < |parts| ==> parts[k] != ""
    ensures forall k :: 0 <= k < |parts| - 1 ==> CanBeFollowed(parts[k], d)
  {
    if |parts| > 1 {
      var p, more := parts[0], Join(parts[1..], d);
      assert Join(parts, d) == p + (d + more) && "" + p == p;
      FirstCut(p, more, "", TOP, d);
      assert (d + more)[0] == d[0] && ModeAfter(TOP, p) == TOP;
      EndsBeforeTheDelimiter(p, more, TOP, d);
      CutPartsCanBeFollowed(parts[1..], d);
      forall k | 0 <= k < |parts| - 1
        ensures CanBeFollowed(parts[k], d)
      {
        assert k > 0 ==> parts[k] == parts[1..][k - 1];
      }
    }
  }

  /** Splitting undoes joining if and only if every part is trimmed, not blank and uncut, and all but the last have
      their quotes and parentheses closed and do not end in the delimiter's first character. */
  lemma SplitUndoesJoinExactlyWhen(parts: seq<string>, d: string)
    requires Delimiter(d) && parts != []
    ensures Split(Join(parts, d), d) == parts <==>
      && (forall k :: 0 <= k < |parts| ==> IsPart(parts[k], d))
      && (forall k :: 0 <= k < |parts| - 1 ==> CanBeFollowed(parts[k], d))
  {
    if Split(Join(parts, d), d) == parts {
      forall k | 0 <= k < |parts|
        ensures IsPart(parts[k], d) && parts[k] != ""
      {
        SplitPartIsPart(Join(parts, d), d, parts[k]);
      }
      SplitIsCut(parts, d);
      CutPartsCanBeFollowed(parts, d);
    } else if (forall k :: 0 <= k < |parts| ==> IsPart(parts[k], d)) &&
              (forall k :: 0 <= k < |parts| - 1 ==> CanBeFollowed(parts[k], d)) {
      SplitOfJoin(parts, d);
      assert false;
    }
  }

  lemma CutAtTheBars()
    ensures Cut("a|||b", "", TOP, "||") == ["a", "|b"]
  {
    assert "a|||b" == "a" + "||" + "|b" && "" + "a" == "a" && "" + "|b" == "|b";
    assert Uncut("a", TOP, "||") && "a"[1..] == "" && ModeAfter(TOP, "a") == TOP;
    assert "|b"[1..] == "b" && "b"[1..] == "" && Uncut("b", TOP, "||") && "|b"[..2] != "||";
    CutAfter("a", "|b", "", TOP, "||");
    UncutIsOnePiece("|b", "", TOP, "||");
  }

  /** A part that ends in a bar loses it to the delimiter. */
  lemma BarIsTaken()
    ensures Split(Join(["a|", "b"], "||"), "||") == ["a", "|b"]
  {
    assert Join(["a|", "b"], "||") == "a|||b";
    CutAtTheBars();
    VisibleIsNotBlank("a|||b", 0);
    VisibleParts("a", "|b");
  }

  lemma VisibleParts(a: string, b: string)
    requires a != "" && Trimmed(a) && b != "" && Trimmed(b)
    ensures Compact([a, b]) == [a, b]
  {
    VisibleIsNotBlank(a, 0);
    VisibleIsNotBlank(b, 0);
    TrimmedIsFixed(a);
    TrimmedIsFixed(b);
    CompactKeepsParts([a, b]);
  }

  /***** Quotes and parentheses *****/

  // Text with quoted pieces and groups in parentheses.
  datatype Nested =
    | Done
    | Letter(c: char, rest: Nested)
    | Quote(mark: char, text: string, rest: Nested)
    | Group(inner: Nested, rest: Nested)

  function Show(n: Nested): string {
    match n
    case Done => ""
    case Letter(c, rest) => [c] + Show(rest)
    case Quote(mark, text, rest) => [mark] + (text + ([mark] + Show(rest)))
    case Group(inner, rest) => "(" + (Show(inner) + (")" + Show(rest)))
  }

  predicate WellFormed(n: Nested) {
    match n
    case Done => true
    case Letter(c, rest) => c !in "'\"()" && WellFormed(rest)
    case Quote(mark, text, rest) => mark in "'\"" && mark !in text && WellFormed(rest)
    case Group(inner, rest) => WellFormed(inner) && WellFormed(rest)
  }

  // Outside quotes and parentheses, the delimiter does not occur.
  predicate Undivided(n: Nested, d: string)
    requires Delimiter(d)
  {
    match n
    case Done => true
    case Letter(c, rest) => c != d[0] && Undivided(rest, d)
    case Quote(_, _, rest) => Undivided(rest, d)
    case Group(_, rest) => Undivided(rest, d)
  }

  lemma {:induction false} UncutAppend(s: string, t: string, rest: string, m: Mode, d: string)
    requires UncutIn(s, t + rest, m, d) && UncutIn(t, rest, ModeAfter(m, s), d)
    ensures UncutIn(s + t, rest, m, d)
    decreases |s|
  {
    if s == "" {
      assert s + t == t;
    } else {
      assert (s + t)[1..] == s[1..] + t;
      ConcatAssoc(s, t, rest);
      UncutAppend(s[1..], t, rest, Step(m, s[0]), d);
    }
  }

  lemma {:induction false} QuotedTextIsSkipped(mark: char, text: string, rest: string, depth: nat, d: string)
    requires Delimiter(d) && mark in "'\"" && mark !in text
    ensures var m := Mode(depth, mark == '\'', mark == '"');
      UncutIn(text, rest, m, d) && ModeAfter(m, text) == m
    decreases |text|
  {
    if text != "" {
      assert text[0] in text;
      assert Step(Mode(depth, mark == '\'', mark == '"'), text[0]) == Mode(depth, mark == '\'', mark == '"');
      QuotedTextIsSkipped(mark, text[1..], rest, depth, d);
    }
  }

  // One character that cannot start a delimiter, or after which the scan is inside something.
  lemma OneCharacter(c: char, rest: string, m: Mode, d: string)
    requires Delimiter(d) && (c != d[0] || Step(m, c) != TOP)
    ensures UncutIn([c], rest, m, d) && ModeAfter(m, [c]) == Step(m, c)
  {
    assert |d| <= |[c] + rest| ==> ([c] + rest)[..|d|][0] == c;
    assert [c][1..] == "";
  }

  lemma {:induction false} NestedIsUncut(n: Nested, rest: string, depth: nat, d: string)
    requires Delimiter(d) && WellFormed(n) && (depth > 0 || Undivided(n, d))
    ensures var m := Mode(depth, false, false); UncutIn(Show(n), rest, m, d) && ModeAfter(m, Show(n)) == m
  {
    var m := Mode(depth, false, false);
    match n
    case Done =>
    case Letter(c, more) =>
      NestedIsUncut(more, rest, depth, d);
      OneCharacter(c, Show(more) + rest, m, d);
      AppendPieces([c], Show(more), rest, m, d);
    case Quote(mark, text, more) =>
      NestedIsUncut(more, rest, depth, d);
      var quoting := Mode(depth, mark == '\'', mark == '"');
      OneCharacter(mark, Show(more) + rest, quoting, d);
      AppendPieces([mark], Show(more), rest, quoting, d);
      QuotedTextIsSkipped(mark, text, [mark] + Show(more) + rest, depth, d);
      AppendPieces(text, [mark] + Show(more), rest, quoting, d);
      OneCharacter(mark, text + ([mark] + Show(more)) + rest, m, d);
      AppendPieces([mark], text + ([mark] + Show(more)), rest, m, d);
    case Group(inner, more) =>
      NestedIsUncut(more, rest, depth, d);
      var deeper := Mode(depth + 1, false, false);
      OneCharacter(')', Show(more) + rest, deeper, d);
      AppendPieces(")", Show(more), rest, deeper, d);
      NestedIsUncut(inner, ")" + Show(more) + rest, depth + 1, d);
      AppendPieces(Show(inner), ")" + Show(more), rest, deeper, d);
      OneCharacter('(', Show(inner) + (")" + Show(more)) + rest, m, d);
      AppendPieces("(", Show(inner) + (")" + Show(more)), rest, m, d);
  }

  lemma AppendPieces(s: string, t: string, rest: string, m: Mode, d: string)
    requires UncutIn(s, t + rest, m, d) && UncutIn(t, rest, ModeAfter(m, s), d)
    ensures UncutIn(s + t, rest, m, d) && ModeAfter(m, s + t) == ModeAfter(ModeAfter(m, s), t)
  {
    UncutAppend(s, t, rest, m, d);
    ModeAfterAppend(m, s, t);
  }

  lemma {:induction false} LastCharacter(n: Nested, d: string)
    requires Delimiter(d) && WellFormed(n) && Undivided(n, d) && n != Done
    ensures Show(n) != "" && Show(n)[|Show(n)| - 1] != d[0]
  {
    if n.rest != Done {
      LastCharacter(n.rest, d);
    }
  }

  function Shown(parts: seq<Nested>): (r: seq<string>)
    ensures |r| == |parts| && forall k :: 0 <= k < |r| ==> r[k] == Show(parts[k])
  {
    seq(|parts|, k requires 0 <= k < |parts| => Show(parts[k]))
  }

  /** A split cuts at the delimiters outside quotes and parentheses, and nowhere else. */
  lemma SplitRespectsNesting(parts: seq<Nested>, d: string)
    requires Delimiter(d) && parts != []
    requires forall k :: 0 <= k < |parts| ==>
      parts[k] != Done && WellFormed(parts[k]) && Undivided(parts[k], d) && Trimmed(Show(parts[k]))
    ensures Split(Join(Shown(parts), d), d) == Shown(parts)
  {
    forall k | 0 <= k < |parts|
      ensures IsPart(Shown(parts)[k], d) && CanBeFollowed(Shown(parts)[k], d)
    {
      NestedIsPart(parts[k], d);
    }
    SplitOfJoin(Shown(parts), d);
  }

  lemma NestedIsPart(n: Nested, d: string)
    requires Delimiter(d) && n != Done && WellFormed(n) && Undivided(n, d) && Trimmed(Show(n))
    ensures IsPart(Show(n), d) && CanBeFollowed(Show(n), d)
  {
    LastCharacter(n, d);
    NestedIsUncut(n, "", 0, d);
    UncutAlone(Show(n), "", TOP, d);
    TrimmedIsFixed(Show(n));
    VisibleIsNotBlank(Show(n), 0);
  }

  /***** Outer white space *****/

  lemma {:induction false} SpaceJoinsTheFirstPiece(l: string, s: string, cur: string, m: Mode, d: string)
    requires Delimiter(d) && AllSpace(l)
    ensures Cut(l + s, cur, m, d) == Cut(s, cur + l, m, d)
    decreases |l|
  {
    if l == "" {
      assert l + s == s && cur + l == cur;
    } else {
      assert (l + s)[1..] == l[1..] + s && l == [l[0]] + l[1..];
      ConcatAssoc(cur, [l[0]], l[1..]);
      assert |d| <= |l + s| ==> (l + s)[..|d|][0] == l[0] != d[0];
      SpaceJoinsTheFirstPiece(l[1..], s, cur + [l[0]], m, d);
    }
  }

  lemma {:induction false} CurJoinsTheFirstPiece(s: string, pre: string, cur: string, m: Mode, d: string)
    requires Delimiter(d)
    ensures var c := Cut(s, cur, m, d); Cut(s, pre + cur, m, d) == [pre + c[0]] + c[1..]
    decreases |s|
  {
    if s != "" && !CutsHere(s, m, d) {
      assert pre + cur + [s[0]] == pre + (cur + [s[0]]);
      CurJoinsTheFirstPiece(s[1..], pre, cur + [s[0]], Step(m, s[0]), d);
    }
  }

  lemma {:induction false} SpaceJoinsTheLastPiece(s: string, r: string, cur: string, m: Mode, d: string)
    requires Delimiter(d) && AllSpace(r)
    ensures var c := Cut(s, cur, m, d); Cut(s + r, cur, m, d) == c[..|c| - 1] + [c[|c| - 1] + r]
    decreases |s|
  {
    if s == "" {
      assert s + r == r + "";
      SpaceJoinsTheFirstPiece(r, "", cur, m, d);
    } else {
      assert (s + r)[1..] == s[1..] + r;
      SpaceIsNoDelimiter(s, r, m, d);
      if CutsHere(s, m, d) {
        assert (s + r)[|d|..] == s[|d|..] + r;
        SpaceJoinsTheLastPiece(s[|d|..], r, "", TOP, d);
      } else {
        SpaceJoinsTheLastPiece(s[1..], r, cur + [s[0]], Step(m, s[0]), d);
      }
    }
  }

  lemma SpaceIsNoDelimiter(s: string, r: string, m: Mode, d: string)
    requires Delimiter(d) && AllSpace(r) && s != ""
    ensures CutsHere(s + r, m, d) <==> CutsHere(s, m, d)
  {
    assert |s| >= |d| ==> (s + r)[..|d|] == s[..|d|];
    assert |s| < |d| && |s + r| >= |d| ==> (s + r)[1] == r[0] && d[1] == '|';
  }

  lemma {:induction false} CompactByTrim(a: seq<string>, b: seq<string>)
    requires |a| == |b| && forall k :: 0 <= k < |a| ==> TrimSpace(a[k]) == TrimSpace(b[k])
    ensures Compact(a) == Compact(b)
  {
    if a != [] {
      CompactByTrim(a[1..], b[1..]);
    }
  }

  /** A split does not see outer white space. */
  lemma SplitOfTrimmed(s: string, d: string)
    requires Delimiter(d)
    ensures Split(s, d) == Split(TrimSpace(s), d)
  {
    var l, r := TrimSplits(s);
    var t := TrimSpace(s);
    TrimTwice(s);
    assert s == l + (t + r);
    SpaceBeforeThePieces(l, t + r, d);
    SpaceJoinsTheLastPiece(t, r, "", TOP, d);
    var inner, padded, outer := Cut(t, "", TOP, d), Cut(t + r, "", TOP, d), Cut(s, "", TOP, d);
    forall k | 0 <= k < |inner|
      ensures TrimSpace(outer[k]) == TrimSpace(padded[k]) == TrimSpace(inner[k])
    {
      TrimPadOneSide(l, inner[k], r);
      TrimPadOneSide(l, padded[k], r);
    }
    CompactByTrim(outer, inner);
  }

  lemma TrimPadOneSide(l: string, s: string, r: string)
    requires AllSpace(l) && AllSpace(r)
    ensures TrimSpace(l + s) == TrimSpace(s) == TrimSpace(s + r)
  {
    TrimPad("", s, r);
    assert "" + s + r == s + r;
    TrimPad(l, s, "");
    assert l + s + "" == l + s;
  }

  lemma SpaceBeforeThePieces(l: string, s: string, d: string)
    requires Delimiter(d) && AllSpace(l)
    ensures var c := Cut(s, "", TOP, d); Cut(l + s, "", TOP, d) == [l + c[0]] + c[1..]
  {
    SpaceJoinsTheFirstPiece(l, s, "", TOP, d);
    assert "" + l == l + "";
    CurJoinsTheFirstPiece(s, l, "", TOP, d);
  }

  /***** Evaluation *****/

  // The values a template can refer to, with the texts of those that are not strings, the escape
  // sequences of quoted literals, and what the generators yield.
  datatype Context = Context(
    root: Json, show: Json -> string, unescape: string -> Option<string>, random: (string, seq<string>) -> string)

  // lookupContextValue
  function Lookup(value: Json, segments: seq<string>): Option<Json>
    decreases |segments|
  {
    if segments == [] then Some(value)
    else if value.Obj? && segments[0] in value.fields then Lookup(value.fields[segments[0]], segments[1..])
    else None
  }

  predicate Leads(value: Json, segment: string, next: Json) {
    value.Obj? && segment in value.fields && value.fields[segment] == next
  }

  // The values on the way along the segments, each found in the one before.
  ghost predicate IsWay(value: Json, segments: seq<string>, way: seq<Json>) {
    && |way| == |segments| + 1 && way[0] == value
    && (forall k :: 0 <= k < |segments| ==> Leads(way[k], segments[k], way[k + 1]))
  }

  /** The value looked up is the last on such a way, and there is none without one. */
  lemma {:induction false} LookupFollowsTheWay(value: Json, segments: seq<string>)
    ensures Lookup(value, segments).Some? ==>
      exists way: seq<Json> :: IsWay(value, segments, way) && way[|segments|] == Lookup(value, segments).value
    ensures forall way: seq<Json> :: IsWay(value, segments, way) ==> Lookup(value, segments) == Some(way[|segments|])
    decreases |segments|
  {
    if segments == [] {
      assert IsWay(value, [], [value]);
    } else {
      forall way: seq<Json> | IsWay(value, segments, way)
        ensures Lookup(value, segments) == Some(way[|segments|])
      {
        WayGoesOn(value, segments, way);
        LookupFollowsTheWay(way[1], segments[1..]);
      }
      if Lookup(value, segments).Some? {
        var next := value.fields[segments[0]];
        LookupFollowsTheWay(next, segments[1..]);
        var way: seq<Json> :| IsWay(next, segments[1..], way) && way[|segments[1..]|] == Lookup(next, segments[1..]).value;
        WayStarts(value, segments, way);
      }
    }
  }

  lemma WayGoesOn(value: Json, segments: seq<string>, way: seq<Json>)
    requires segments != [] && IsWay(value, segments, way)
    ensures Leads(value, segments[0], way[1]) && IsWay(way[1], segments[1..], way[1..])
  {
    assert Leads(way[0], segments[0], way[0 + 1]);
    forall k | 0 <= k < |segments[1..]|
      ensures Leads(way[1..][k], segments[1..][k], way[1..][k + 1])
    {
      assert Leads(way[k + 1], segments[k + 1], way[(k + 1) + 1]);
    }
  }

  lemma WayStarts(value: Json, segments: seq<string>, way: seq<Json>)
    requires segments != [] && |way| > 0 && Leads(value, segments[0], way[0]) && IsWay(way[0], segments[1..], way)
    ensures IsWay(value, segments, [value] + way)
  {
    var longer := [value] + way;
    forall k | 0 <= k < |segments|
      ensures Leads(longer[k], segments[k], longer[k + 1])
    {
      if k > 0 {
        assert Leads(way[k - 1], segments[1..][k - 1], way[(k - 1) + 1]);
      }
    }
  }

  /** lookupContextValue, the walk from map to map. */
  method LookupContextValue(value: Json, segments: seq<string>) returns (r: Option<Json>)
    ensures r == Lookup(value, segments)
  {
    var current := value;
    for i := 0 to |segments|
      invariant Lookup(value, segments) == Lookup(current, segments[i..])
    {
      assert segments[i..][1..] == segments[i + 1..];
      if !current.Obj? || segments[i] !in current.fields {
        return None;
      }
      current := current.fields[segments[i]];
    }
    return Some(current);
  }

  // strings.IndexByte
  function IndexOf(s: string, c: char): (k: nat)
    ensures k <= |s| && (k < |s| ==> s[k] == c) && c !in s[..k]
  {
    if s == "" || s[0] == c then 0 else
      assert s == [s[0]] + s[1..];
      1 + IndexOf(s[1..], c)
  }

  // strings.Trim(key, `"'`)
  function TrimQuotes(s: string): string {
    if s != "" && s[0] in "\"'" then TrimQuotes(s[1..])
    else if s != "" && s[|s| - 1] in "\"'" then TrimQuotes(s[..|s| - 1])
    else s
  }

  // templatePathSegments: names between dots and slashes, and keys in brackets.
  function PathSegments(path: string): seq<string> {
    Compact(RawSegments(TrimSpace(path), ""))
  }

  function Flush(buffer: string): seq<string> {
    if buffer == "" then [] else [buffer]
  }

  function RawSegments(rest: string, buffer: string): seq<string>
    decreases |rest|
  {
    if rest == "" then Flush(buffer)
    else if rest[0] == '.' || rest[0] == '/' then Flush(buffer) + RawSegments(rest[1..], "")
    else if rest[0] == '[' then
      var end := IndexOf(rest[1..], ']');
      if end == |rest[1..]| then Flush(buffer) + RawSegments(rest[1..], "")
      else Flush(buffer) + Flush(TrimQuotes(TrimSpace(rest[1..][..end]))) + RawSegments(rest[1..][end + 1..], "")
    else RawSegments(rest[1..], buffer + [rest[0]])
  }

  predicate PlainName(s: string) {
    forall c :: c in s ==> c !in "./["
  }

  lemma {:induction false} NameIsOneSegment(name: string, rest: string, buffer: string)
    requires PlainName(name)
    ensures RawSegments(name + rest, buffer) == RawSegments(rest, buffer + name)
    decreases |name|
  {
    if name == "" {
      assert name + rest == rest && buffer + name == buffer;
    } else {
      assert name[0] in name;
      assert (name + rest)[1..] == name[1..] + rest && buffer + [name[0]] + name[1..] == buffer + name;
      NameIsOneSegment(name[1..], rest, buffer + [name[0]]);
    }
  }

  // What can follow the first name of a path: a name after a dot or a slash, or a key in brackets, which may be quoted.
  datatype Item = Dotted(name: string) | Slashed(name: string) | Bracketed(quote: string, name: string)

  function ShowItem(item: Item): string {
    match item
    case Dotted(name) => "." + name
    case Slashed(name) => "/" + name
    case Bracketed(quote, name) => "[" + (quote + name + quote) + "]"
  }

  function ShowItems(items: seq<Item>): string {
    if items == [] then "" else ShowItem(items[0]) + ShowItems(items[1..])
  }

  function Names(items: seq<Item>): (r: seq<string>)
    ensures |r| == |items| && forall k :: 0 <= k < |r| ==> r[k] == items[k].name
  {
    if items == [] then [] else [items[0].name] + Names(items[1..])
  }

  // Names have no separators, keys no closing bracket and no quotes around them; neither has outer white space.
  predicate ItemOk(item: Item) {
    && item.name != "" && Trimmed(item.name)
    && match item
       case Bracketed(quote, name) =>
         quote in ["", "'", "\""] && ']' !in name && name[0] !in "\"'" && name[|name| - 1] !in "\"'"
       case _ => PlainName(item.name)
  }

  lemma BracketedIsRead(quote: string, name: string)
    requires ItemOk(Bracketed(quote, name))
    ensures var written := quote + name + quote;
      ']' !in written && TrimQuotes(TrimSpace(written)) == name
  {
    var written := quote + name + quote;
    TrimmedIsFixed(written);
    assert TrimQuotes(name) == name;
    if quote == "" {
      assert written == name;
    } else {
      var half := name + quote;
      assert half[0] == name[0] && half[..|half| - 1] == name;
      assert TrimQuotes(half) == name;
      assert written[1..] == half;
    }
  }

  lemma {:induction false} FirstBracket(written: string, more: string)
    requires ']' !in written
    ensures IndexOf(written + "]" + more, ']') == |written|
    decreases |written|
  {
    var s := written + "]" + more;
    if written != "" {
      assert s[0] == written[0] && s[1..] == written[1..] + "]" + more;
      FirstBracket(written[1..], more);
    }
  }

  lemma {:induction false} ItemsAreSegments(items: seq<Item>, buffer: string)
    requires forall k :: 0 <= k < |items| ==> ItemOk(items[k])
    ensures RawSegments(ShowItems(items), buffer) == Flush(buffer) + Names(items)
  {
    if items != [] {
      var rest := ShowItems(items[1..]);
      ItemIsSegment(items[0], rest, buffer);
      match items[0]
      case Bracketed(_, name) =>
        ItemsAreSegments(items[1..], "");
        assert Flush("") + Names(items[1..]) == Names(items[1..]);
        ConcatAssoc(Flush(buffer), [name], Names(items[1..]));
      case _ =>
        ItemsAreSegments(items[1..], items[0].name);
        ConcatAssoc(Flush(buffer), [items[0].name], Names(items[1..]));
    }
  }

  lemma ItemIsSegment(item: Item, rest: string, buffer: string)
    requires ItemOk(item)
    ensures RawSegments(ShowItem(item) + rest, buffer) ==
      if item.Bracketed? then Flush(buffer) + [item.name] + RawSegments(rest, "")
      else Flush(buffer) + RawSegments(rest, item.name)
  {
    if item.Bracketed? {
      KeyIsSegment(item.quote, item.name, rest, buffer);
    } else {
      assert ShowItem(item) + rest == [ShowItem(item)[0]] + (item.name + rest);
      SeparatedIsSegment(ShowItem(item)[0], item.name, rest, buffer);
    }
  }

  lemma SeparatedIsSegment(c: char, name: string, rest: string, buffer: string)
    requires (c == '.' || c == '/') && PlainName(name)
    ensures RawSegments([c] + (name + rest), buffer) == Flush(buffer) + RawSegments(rest, name)
  {
    var s := [c] + (name + rest);
    assert s[1..] == name + rest && "" + name == name;
    NameIsOneSegment(name, rest, "");
  }

  lemma KeyIsSegment(quote: string, name: string, rest: string, buffer: string)
    requires ItemOk(Bracketed(quote, name))
    ensures RawSegments("[" + (quote + name + quote) + "]" + rest, buffer) == Flush(buffer) + [name] + RawSegments(rest, "")
  {
    var written := quote + name + quote;
    var s, inner := "[" + written + "]" + rest, written + "]" + rest;
    BracketedIsRead(quote, name);
    FirstBracket(written, rest);
    assert s[1..] == inner && inner[..|written|] == written && inner[|written| + 1..] == rest;
    BracketIsRead(s, inner, |written|, buffer);
  }

  lemma BracketIsRead(s: string, inner: string, end: nat, buffer: string)
    requires s != "" && s[0] == '[' && s[1..] == inner && IndexOf(inner, ']') == end < |inner|
    ensures RawSegments(s, buffer) ==
      Flush(buffer) + Flush(TrimQuotes(TrimSpace(inner[..end]))) + RawSegments(inner[end + 1..], "")
  {
  }

  /** However a path is written, its segments are its names. */
  lemma PathIsItsNames(first: string, items: seq<Item>)
    requires ItemOk(Dotted(first)) && forall k :: 0 <= k < |items| ==> ItemOk(items[k])
    ensures PathSegments(first + ShowItems(items)) == [first] + Names(items)
  {
    ItemsEndVisibly(items);
    PathStarts(first, ShowItems(items));
    ItemsAreSegments(items, first);
    NamesAreKept(first, items);
  }

  lemma PathStarts(first: string, tail: string)
    requires ItemOk(Dotted(first)) && (tail != "" ==> !IsSpace(tail[|tail| - 1]))
    ensures PathSegments(first + tail) == Compact(RawSegments(tail, first))
  {
    var path := first + tail;
    assert path[|path| - 1] == if tail == "" then first[|first| - 1] else tail[|tail| - 1];
    TrimmedIsFixed(path);
    NameIsOneSegment(first, tail, "");
    assert "" + first == first;
  }

  lemma NamesAreKept(first: string, items: seq<Item>)
    requires ItemOk(Dotted(first)) && forall k :: 0 <= k < |items| ==> ItemOk(items[k])
    ensures Compact([first] + Names(items)) == [first] + Names(items)
  {
    var names := [first] + Names(items);
    forall k | 0 <= k < |names|
      ensures !Blank(names[k]) && TrimSpace(names[k]) == names[k]
    {
      NameIsVisible(if k == 0 then Dotted(first) else items[k - 1]);
    }
    CompactKeepsParts(names);
  }

  lemma NameIsVisible(item: Item)
    requires ItemOk(item)
    ensures !Blank(item.name) && TrimSpace(item.name) == item.name
  {
    TrimmedIsFixed(item.name);
    VisibleIsNotBlank(item.name, 0);
  }

  lemma {:induction false} ItemsEndVisibly(items: seq<Item>)
    requires forall k :: 0 <= k < |items| ==> ItemOk(items[k])
    ensures var s := ShowItems(items); (s == "" <==> items == []) && (s != "" ==> !IsSpace(s[|s| - 1]))
  {
    if items != [] {
      ItemsEndVisibly(items[1..]);
      ItemEndsVisibly(items[0]);
    }
  }

  lemma ItemEndsVisibly(item: Item)
    requires ItemOk(item)
    ensures var s := ShowItem(item); s != "" && !IsSpace(s[|s| - 1])
  {
  }

  /** templatePathSegments, the loop over the bytes with its buffer. */
  method TemplatePathSegments(path: string) returns (r: seq<string>)
    ensures r == PathSegments(path)
  {
    var trimmed := TrimSpace(path);
    if trimmed == "" {
      return [];
    }
    var segments: seq<string>, buffer: string, index := [], "", 0;
    while index < |trimmed|
      invariant 0 <= index <= |trimmed|
      invariant segments + RawSegments(trimmed[index..], buffer) == RawSegments(trimmed, "")
    {
      var rest := trimmed[index..];
      var found := Flush(buffer);
      assert rest[1..] == trimmed[index + 1..];
      if rest[0] == '.' || rest[0] == '/' {
        ConcatAssoc(segments, found, RawSegments(rest[1..], ""));
        segments, buffer := segments + found, "";
      } else if rest[0] == '[' {
        var end := IndexOf(rest[1..], ']');
        if end == |rest[1..]| {
          ConcatAssoc(segments, found, RawSegments(rest[1..], ""));
          segments, buffer := segments + found, "";
        } else {
          var key := Flush(TrimQuotes(TrimSpace(rest[1..][..end])));
          assert rest[1..][end + 1..] == trimmed[index + end + 2..];
          ConcatAssoc(segments, found + key, RawSegments(rest[1..][end + 1..], ""));
          ConcatAssoc(segments, found, key);
          segments, buffer := segments + found + key, "";
          index := index + end + 1;
        }
      } else {
        buffer := buffer + [rest[0]];
      }
      index := index + 1;
    }
    segments := segments + Flush(buffer);
    return Compact(segments);
  }

  predicate Quoted(s: string) {
    |s| >= 2 && ((s[0] == '\'' && s[|s| - 1] == '\'') || (s[0] == '"' && s[|s| - 1] == '"'))
  }

  function Unquoted(s: string): string
    requires Quoted(s)
  {
    s[1..|s| - 1]
  }

  // unquoteTemplateLiteral: escape sequences are replaced if there are any and all are valid.
  function UnquoteLiteral(s: string, ctx: Context): Option<string> {
    if !Quoted(s) then None
    else if '\\' !in Unquoted(s) then Some(Unquoted(s))
    else if ctx.unescape(Unquoted(s)).Some? then ctx.unescape(Unquoted(s))
    else Some(Unquoted(s))
  }

  // An expression that is not a list of options: a literal or a path.
  function EvaluateOne(expression: string, ctx: Context): Option<string> {
    var trimmed := TrimSpace(expression);
    if trimmed == "" then None
    else if UnquoteLiteral(trimmed, ctx).Some? then UnquoteLiteral(trimmed, ctx)
    else
      var value := Lookup(ctx.root, PathSegments(trimmed));
      if value.None? then None else Some(Sprint(value.value, ctx.show))
  }

  /** A quoted expression stands for what is quoted, with its escape sequences replaced if there are any and all are
      valid; any other one for the text of the value at its path. */
  lemma ExpressionMeans(s: string, ctx: Context)
    requires TrimSpace(s) == s != ""
    ensures Quoted(s) ==> EvaluateOne(s, ctx) == Some(
      if '\\' in s[1..|s| - 1] && ctx.unescape(s[1..|s| - 1]).Some? then ctx.unescape(s[1..|s| - 1]).value else s[1..|s| - 1])
    ensures var value := Lookup(ctx.root, PathSegments(s));
      !Quoted(s) ==> EvaluateOne(s, ctx) == if value.None? then None else Some(Sprint(value.value, ctx.show))
  {
  }

  lemma {:induction false} PiecesAreShorter(rest: string, cur: string, m: Mode, d: string)
    requires Delimiter(d)
    ensures var c := Cut(rest, cur, m, d);
      forall p :: p in c ==> |p| <= |cur| + |rest| && (|c| > 1 ==> |p| < |cur| + |rest|)
    decreases |rest|
  {
    if rest != "" {
      if CutsHere(rest, m, d) {
        PiecesAreShorter(rest[|d|..], "", TOP, d);
      } else {
        PiecesAreShorter(rest[1..], cur + [rest[0]], Step(m, rest[0]), d);
      }
    }
  }

  lemma OptionsAreShorter(expression: string, d: string)
    requires Delimiter(d) && |Split(expression, d)| > 1
    ensures forall o :: o in Split(expression, d) ==> |o| < |expression|
  {
    PiecesAreShorter(expression, "", TOP, d);
    forall o | o in Split(expression, d)
      ensures |o| < |expression|
    {
      CompactElements(Cut(expression, "", TOP, d), o);
      var q :| q in Cut(expression, "", TOP, d) && o == TrimSpace(q);
      var l, r := TrimSplits(q);
    }
  }

  /** evaluateTemplateExpression: the recursion terminates because options are shorter than the expression. */
  function Evaluate(expression: string, ctx: Context): Option<string>
    decreases |expression|, 1, 0
  {
    var options := Split(expression, "||");
    if |options| > 1 then
      OptionsAreShorter(expression, "||");
      EvaluateOptions(options, ctx, |expression|)
    else EvaluateOne(expression, ctx)
  }

  function EvaluateOptions(options: seq<string>, ctx: Context, bound: nat): Option<string>
    requires forall j :: 0 <= j < |options| ==> |options[j]| < bound
    decreases bound, 0, |options|
  {
    if options == [] then None else
      var value := Evaluate(options[0], ctx);
      if value.Some? && !Blank(value.value) then value else EvaluateOptions(options[1..], ctx, bound)
  }

  /** The recursion is at most one level deep: an option is never a list of options itself. */
  lemma OptionsAreSimple(expression: string, ctx: Context, option: string)
    requires option in Split(expression, "||")
    ensures Evaluate(option, ctx) == EvaluateOne(option, ctx)
  {
    PartResplitsToItself(expression, "||", option);
  }

  predicate Usable(value: Option<string>) {
    value.Some? && !Blank(value.value)
  }

  /** Of several options, the first one with a non-blank value is the result. */
  lemma FirstUsableOptionWins(expression: string, ctx: Context, k: nat)
    requires var options := Split(expression, "||");
      && |options| > 1 && k <= |options|
      && (forall j :: 0 <= j < k ==> !Usable(EvaluateOne(options[j], ctx)))
      && (k < |options| ==> Usable(EvaluateOne(options[k], ctx)))
    ensures var options := Split(expression, "||");
      Evaluate(expression, ctx) == if k < |options| then EvaluateOne(options[k], ctx) else None
  {
    var options := Split(expression, "||");
    OptionsAreShorter(expression, "||");
    forall j | 0 <= j < |options|
      ensures Evaluate(options[j], ctx) == EvaluateOne(options[j], ctx)
    {
      OptionsAreSimple(expression, ctx, options[j]);
    }
    FirstUsable(options, ctx, |expression|, k);
  }

  lemma {:induction false} FirstUsable(options: seq<string>, ctx: Context, bound: nat, k: nat)
    requires forall j :: 0 <= j < |options| ==>
      |options[j]| < bound && Evaluate(options[j], ctx) == EvaluateOne(options[j], ctx)
    requires k <= |options| && forall j :: 0 <= j < k ==> !Usable(EvaluateOne(options[j], ctx))
    requires k < |options| ==> Usable(EvaluateOne(options[k], ctx))
    ensures EvaluateOptions(options, ctx, bound) == if k < |options| then EvaluateOne(options[k], ctx) else None
  {
    if options != [] {
      if k > 0 {
        FirstUsable(options[1..], ctx, bound, k - 1);
      }
    }
  }

  lemma TwoOptions(expression: string, ctx: Context)
    requires |Split(expression, "||")| == 2
    ensures var options := Split(expression, "||");
      var first, second := EvaluateOne(options[0], ctx), EvaluateOne(options[1], ctx);
      Evaluate(expression, ctx) == if Usable(first) then first else if Usable(second) then second else None
  {
    var options := Split(expression, "||");
    OptionsAreShorter(expression, "||");
    OptionsAreSimple(expression, ctx, options[0]);
    OptionsAreSimple(expression, ctx, options[1]);
    FirstOfTwo(options, ctx, |expression|);
  }

  lemma FirstOfTwo(options: seq<string>, ctx: Context, bound: nat)
    requires |options| == 2 && |options[0]| < bound && |options[1]| < bound
    requires Evaluate(options[0], ctx) == EvaluateOne(options[0], ctx)
    requires Evaluate(options[1], ctx) == EvaluateOne(options[1], ctx)
    ensures var first, second := EvaluateOne(options[0], ctx), EvaluateOne(options[1], ctx);
      EvaluateOptions(options, ctx, bound) == if Usable(first) then first else if Usable(second) then second else None
  {
    var rest := options[1..];
    FirstThenRest(options, EvaluateOne(options[0], ctx), ctx, bound);
    FirstThenRest(rest, EvaluateOne(options[1], ctx), ctx, bound);
    assert rest[1..] == [];
  }

  lemma FirstThenRest(options: seq<string>, first: Option<string>, ctx: Context, bound: nat)
    requires options != [] && Evaluate(options[0], ctx) == first
    requires forall j :: 0 <= j < |options| ==> |options[j]| < bound
    ensures EvaluateOptions(options, ctx, bound) == if Usable(first) then first else EvaluateOptions(options[1..], ctx, bound)
    ensures options[1..] == [] ==> EvaluateOptions(options[1..], ctx, bound) == None
  {
  }
}
