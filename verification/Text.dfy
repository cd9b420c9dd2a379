/** The string operations of the Go standard library that the modelled code relies on. */
module Text {
  datatype Option<+T> = None | Some(value: T)

  lemma ConcatAssoc<T>(a: seq<T>, b: seq<T>, c: seq<T>)
    ensures a + (b + c) == a + b + c
  {
  }

  // unicode.IsSpace
  predicate IsSpace(c: char) {
    || c in {'\t', '\n', '\U{000B}', '\U{000C}', '\r', ' ', '\U{0085}', '\U{00A0}', '\U{1680}'}
    || '\U{2000}' <= c <= '\U{200A}'
    || c in {'\U{2028}', '\U{2029}', '\U{202F}', '\U{205F}', '\U{3000}'}
  }

  lemma AsciiSpaces(c: char)
    requires c < '\U{0080}'
    ensures IsSpace(c) <==> c == ' ' || '\t' <= c <= '\r'
  {
  }

  ghost predicate AllSpace(s: string) {
    forall k :: 0 <= k < |s| ==> IsSpace(s[k])
  }

  function TrimLeft(s: string): string {
    if s != "" && IsSpace(s[0]) then TrimLeft(s[1..]) else s
  }

  function TrimRight(s: string): string {
    if s != "" && IsSpace(s[|s| - 1]) then TrimRight(s[..|s| - 1]) else s
  }

  // strings.TrimSpace
  function TrimSpace(s: string): string {
    TrimRight(TrimLeft(s))
  }

  predicate Trimmed(s: string) {
    s != "" ==> !IsSpace(s[0]) && !IsSpace(s[|s| - 1])
  }

  predicate Blank(s: string) {
    TrimSpace(s) == ""
  }

  lemma TrimmedIsFixed(s: string)
    requires Trimmed(s)
    ensures TrimSpace(s) == s
  {
  }

  lemma {:induction false} TrimLeftSplits(s: string)
    ensures var r := TrimLeft(s);
      |r| <= |s| && r == s[|s| - |r|..] && AllSpace(s[..|s| - |r|]) && (r != "" ==> !IsSpace(r[0]))
  {
    if s != "" && IsSpace(s[0]) {
      var tail := s[1..];
      TrimLeftSplits(tail);
      var n := |tail| - |TrimLeft(tail)|;
      assert s[n + 1..] == tail[n..];
      assert s[..n + 1] == [s[0]] + tail[..n];
    } else {
      assert s[0..] == s && s[..0] == "";
    }
  }

  lemma {:induction false} TrimRightSplits(s: string)
    ensures var r := TrimRight(s);
      |r| <= |s| && r == s[..|r|] && AllSpace(s[|r|..]) && (r != "" ==> !IsSpace(r[|r| - 1]))
  {
    if s != "" && IsSpace(s[|s| - 1]) {
      var r, init := TrimRight(s), s[..|s| - 1];
      TrimRightSplits(init);
      assert s[..|r|] == init[..|r|];
      assert s[|r|..] == init[|r|..] + [s[|s| - 1]];
    } else {
      assert s[..|s|] == s && s[|s|..] == "";
    }
  }

  /** A string is its trimmed part between two runs of white space. */
  lemma TrimSplits(s: string) returns (left: string, right: string)
    ensures AllSpace(left) && AllSpace(right) && s == left + TrimSpace(s) + right
    ensures Trimmed(TrimSpace(s)) && |TrimSpace(s)| <= |s|
  {
    var t := TrimLeft(s);
    var u := TrimRight(t);
    TrimLeftSplits(s);
    TrimRightSplits(t);
    left, right := s[..|s| - |t|], t[|u|..];
    assert t == u + right;
    assert s == left + (u + right) == left + u + right;
    assert u != "" ==> u[0] == t[0];
  }

  lemma TrimTwice(s: string)
    ensures TrimSpace(TrimSpace(s)) == TrimSpace(s)
  {
    var l, r := TrimSplits(s);
    TrimmedIsFixed(TrimSpace(s));
  }

  lemma {:induction false} TrimLeftPad(l: string, x: string)
    requires AllSpace(l) && (x != "" ==> !IsSpace(x[0]))
    ensures TrimLeft(l + x) == x
  {
    if l == "" {
      assert l + x == x;
    } else {
      assert (l + x)[1..] == l[1..] + x;
      TrimLeftPad(l[1..], x);
    }
  }

  lemma {:induction false} TrimRightPad(x: string, r: string)
    requires AllSpace(r) && (x != "" ==> !IsSpace(x[|x| - 1]))
    ensures TrimRight(x + r) == x
  {
    if r == "" {
      assert x + r == x;
    } else {
      assert (x + r)[..|x + r| - 1] == x + r[..|r| - 1];
      TrimRightPad(x, r[..|r| - 1]);
    }
  }

  /** Outer white space makes no difference. */
  lemma TrimPad(l: string, s: string, r: string)
    requires AllSpace(l) && AllSpace(r)
    ensures TrimSpace(l + s + r) == TrimSpace(s)
  {
    var a, b := TrimSplits(s);
    PadOfTrimmed(l + a, TrimSpace(s), b + r);
    assert l + s + r == l + a + TrimSpace(s) + (b + r);
  }

  lemma PadOfTrimmed(l: string, t: string, r: string)
    requires AllSpace(l) && AllSpace(r) && Trimmed(t)
    ensures TrimSpace(l + t + r) == t
  {
    if t == "" {
      assert l + t + r == (l + r) + "";
      TrimLeftPad(l + r, "");
    } else {
      assert l + t + r == l + (t + r);
      TrimLeftPad(l, t + r);
      TrimRightPad(t, r);
    }
  }

  lemma BlankIsSpace(s: string)
    ensures Blank(s) ==> AllSpace(s)
  {
    var left, right := TrimSplits(s);
  }

  lemma VisibleIsNotBlank(s: string, k: nat)
    requires k < |s| && !IsSpace(s[k])
    ensures !Blank(s)
  {
    BlankIsSpace(s);
  }

  predicate HasPrefix(s: string, prefix: string) {
    |prefix| <= |s| && s[..|prefix|] == prefix
  }

  // Go compares strings by their bytes; for UTF-8 text that is the order of the code points.
  predicate LexLess(a: string, b: string) {
    b != "" && (a == "" || a[0] < b[0] || (a[0] == b[0] && LexLess(a[1..], b[1..])))
  }

  // a comes before b where they first differ, or is what b starts with.
  ghost predicate Precedes(a: string, b: string) {
    exists k :: DifferAt(a, b, k)
  }

  ghost predicate DifferAt(a: string, b: string, k: int) {
    && 0 <= k <= |a| && k < |b| && a[..k] == b[..k]
    && (k == |a| || a[k] < b[k])
  }

  /** The recursion compares the first characters that differ. */
  lemma {:induction false} LexLessMeans(a: string, b: string)
    ensures LexLess(a, b) <==> Precedes(a, b)
  {
    if b == "" {
      assert forall k :: !DifferAt(a, b, k);
    } else if a == "" || a[0] < b[0] {
      assert DifferAt(a, b, 0);
    } else if a[0] > b[0] {
      forall k
        ensures !DifferAt(a, b, k)
      {
        assert 0 < k <= |a| && k <= |b| ==> a[..k][0] == a[0] && b[..k][0] == b[0];
      }
    } else {
      LexLessMeans(a[1..], b[1..]);
      DifferLater(a, b);
    }
  }

  lemma DifferLater(a: string, b: string)
    requires a != "" && b != "" && a[0] == b[0]
    ensures Precedes(a, b) <==> Precedes(a[1..], b[1..])
  {
    if k :| DifferAt(a, b, k) {
      assert k > 0;
      assert a[1..][..k - 1] == a[..k][1..] && b[1..][..k - 1] == b[..k][1..];
      assert DifferAt(a[1..], b[1..], k - 1);
    }
    if k :| DifferAt(a[1..], b[1..], k) {
      assert a[..k + 1] == [a[0]] + a[1..][..k] && b[..k + 1] == [b[0]] + b[1..][..k];
      assert DifferAt(a, b, k + 1);
    }
  }

  lemma {:induction false} LexTrichotomy(a: string, b: string)
    ensures LexLess(a, b) || LexLess(b, a) || a == b
    ensures !(LexLess(a, b) && LexLess(b, a))
  {
    if a != "" && b != "" && a[0] == b[0] {
      LexTrichotomy(a[1..], b[1..]);
      assert a == [a[0]] + a[1..] && b == [b[0]] + b[1..];
    }
  }

  lemma {:induction false} LexTransitive(a: string, b: string, c: string)
    requires !LexLess(b, a) && !LexLess(c, b)
    ensures !LexLess(c, a)
  {
    if a != "" && b != "" && c != "" && a[0] == b[0] == c[0] {
      LexTransitive(a[1..], b[1..], c[1..]);
    }
  }
}
