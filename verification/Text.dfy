/** The string operations the file formats rely on, as in Go's `strings`. */
module Text {

  /** Unicode white space, as `strings.TrimSpace` sees it. */
  predicate IsSpace(c: char) {
    c == ' ' || '\t' <= c <= '\r' || c == '\U{0085}' || c == '\U{00A0}' || c == '\U{1680}'
    || '\U{2000}' <= c <= '\U{200A}' || c == '\U{2028}' || c == '\U{2029}' || c == '\U{202F}'
    || c == '\U{205F}' || c == '\U{3000}'
  }

  function TrimLeft(s: string): string {
    if s != [] && IsSpace(s[0]) then TrimLeft(s[1..]) else s
  }

  function TrimRight(s: string): string {
    if s != [] && IsSpace(s[|s| - 1]) then TrimRight(s[..|s| - 1]) else s
  }

  function TrimSpace(s: string): string {
    TrimRight(TrimLeft(s))
  }

  /** Where c first occurs, or the length of s. */
  function IndexOf(s: string, c: char): (i: nat)
    ensures i <= |s| && c !in s[..i]
    ensures i < |s| ==> s[i] == c
    ensures i < |s| <==> c in s
  {
    if s == [] || s[0] == c then 0
    else
      var j := IndexOf(s[1..], c);
      assert s[..1 + j] == [s[0]] + s[1..][..j];
      1 + j
  }

  function Split(s: string, c: char): (parts: seq<string>)
    ensures parts != [] && forall p :: p in parts ==> c !in p
    decreases |s|
  {
    var i := IndexOf(s, c);
    if i == |s| then
      assert s[..i] == s;
      [s]
    else [s[..i]] + Split(s[i + 1..], c)
  }

  function Join(parts: seq<string>, c: char): string {
    if parts == [] then ""
    else if |parts| == 1 then parts[0]
    else parts[0] + [c] + Join(parts[1..], c)
  }

  lemma {:induction false} IndexOfIs(s: string, c: char, i: nat)
    requires i <= |s| && c !in s[..i] && (i < |s| ==> s[i] == c)
    ensures IndexOf(s, c) == i
    decreases i
  {
    if i > 0 {
      assert s[0] == s[..i][0];
      assert s[1..][..i - 1] == s[..i][1..];
      IndexOfIs(s[1..], c, i - 1);
    }
  }

  lemma {:induction false} SplitAt(s: string, c: char, i: nat)
    requires i < |s| && s[i] == c && c !in s[..i]
    ensures Split(s, c) == [s[..i]] + Split(s[i + 1..], c)
  {
    IndexOfIs(s, c, i);
  }

  lemma {:induction false} SplitCons(a: string, c: char, rest: string)
    requires c !in a
    ensures Split(a + [c] + rest, c) == [a] + Split(rest, c)
  {
    var s := a + [c] + rest;
    assert s[..|a|] == a && s[|a| + 1..] == rest;
    SplitAt(s, c, |a|);
  }

  lemma {:induction false} SplitNone(a: string, c: char)
    requires c !in a
    ensures Split(a, c) == [a]
  {
    assert a[..|a|] == a;
    IndexOfIs(a, c, |a|);
  }

  lemma {:induction false} JoinCons(a: string, parts: seq<string>, c: char)
    requires parts != []
    ensures Join([a] + parts, c) == a + [c] + Join(parts, c)
  {
    assert ([a] + parts)[1..] == parts;
  }

  /** Splitting undoes joining, as long as no part holds the separator. */
  lemma {:induction false} SplitOfJoin(parts: seq<string>, c: char)
    requires parts != [] && forall p :: p in parts ==> c !in p
    ensures Split(Join(parts, c), c) == parts
    decreases |parts|
  {
    if |parts| == 1 {
      SplitNone(parts[0], c);
      assert parts == [parts[0]];
    } else {
      var first, rest := parts[0], parts[1..];
      assert parts == [first] + rest;
      SplitOfJoin(rest, c);
      JoinCons(first, rest, c);
      SplitCons(first, c, Join(rest, c));
    }
  }

  /** Joining undoes splitting. */
  lemma {:induction false} JoinOfSplit(s: string, c: char)
    ensures Join(Split(s, c), c) == s
    decreases |s|
  {
    var i := IndexOf(s, c);
    if i < |s| {
      JoinOfSplit(s[i + 1..], c);
      SplitAt(s, c, i);
      JoinBack(s, c, i, Split(s[i + 1..], c));
    } else {
      SplitNone(s, c);
    }
  }

  lemma {:induction false} JoinBack(s: string, c: char, i: nat, parts: seq<string>)
    requires i < |s| && s[i] == c && parts != [] && Join(parts, c) == s[i + 1..]
    ensures Join([s[..i]] + parts, c) == s
  {
    JoinCons(s[..i], parts, c);
    assert s == s[..i] + [c] + s[i + 1..];
  }

  lemma {:induction false} SliceOfConcat(a: string, b: string, i: nat)
    requires i < |a|
    ensures (a + b)[..i] == a[..i] && (a + b)[i] == a[i] && (a + b)[i + 1..] == a[i + 1..] + b
  {
  }

  lemma {:induction false} SplitConcat(a: string, b: string, c: char)
    ensures Split(a + ([c] + b), c) == Split(a, c) + Split(b, c)
    decreases |a|
  {
    var i := IndexOf(a, c);
    if i == |a| {
      SplitNone(a, c);
      assert a + ([c] + b) == a + [c] + b;
      SplitCons(a, c, b);
    } else {
      SplitConcat(a[i + 1..], b, c);
      SliceOfConcat(a, [c] + b, i);
      SplitTogether(a + ([c] + b), a, b, c, i);
    }
  }

  lemma {:induction false} ConsConcat(first: string, p: seq<string>, q: seq<string>)
    ensures [first] + (p + q) == [first] + p + q
  {
  }

  lemma {:induction false} SplitTogether(s: string, a: string, b: string, c: char, i: nat)
    requires i < |s| && i < |a| && s[..i] == a[..i] && s[i] == a[i] == c && c !in a[..i]
    requires Split(s[i + 1..], c) == Split(a[i + 1..], c) + Split(b, c)
    ensures Split(s, c) == Split(a, c) + Split(b, c)
  {
    SplitAt(s, c, i);
    SplitAt(a, c, i);
    ConsConcat(a[..i], Split(a[i + 1..], c), Split(b, c));
  }

  /** Parts with the last one lengthened. */
  function Lengthened(parts: seq<string>, tail: string): seq<string>
    requires parts != []
  {
    parts[..|parts| - 1] + [parts[|parts| - 1] + tail]
  }

  lemma {:induction false} LengthenedCons(first: string, parts: seq<string>, tail: string)
    requires parts != []
    ensures Lengthened([first] + parts, tail) == [first] + Lengthened(parts, tail)
  {
  }

  /** Text without a separator only lengthens the last part. */
  lemma {:induction false} SplitExtend(a: string, c: char, tail: string)
    requires c !in tail
    ensures Split(a + tail, c) == Lengthened(Split(a, c), tail)
    decreases |a|
  {
    var i := IndexOf(a, c);
    if i == |a| {
      SplitNone(a, c);
      SplitNone(a + tail, c);
    } else {
      SplitExtend(a[i + 1..], c, tail);
      SliceOfConcat(a, tail, i);
      ExtendTogether(a + tail, a, tail, c, i);
    }
  }

  lemma {:induction false} ExtendTogether(s: string, a: string, tail: string, c: char, i: nat)
    requires i < |s| && i < |a| && s[..i] == a[..i] && s[i] == a[i] == c && c !in a[..i]
    requires Split(s[i + 1..], c) == Lengthened(Split(a[i + 1..], c), tail)
    ensures Split(s, c) == Lengthened(Split(a, c), tail)
  {
    SplitAt(s, c, i);
    SplitAt(a, c, i);
    LengthenedCons(a[..i], Split(a[i + 1..], c), tail);
  }

  // ---- trimming ----

  lemma {:induction false} TrimRightSpace(s: string, c: char)
    requires IsSpace(c)
    ensures TrimRight(s + [c]) == TrimRight(s)
  {
    assert (s + [c])[..|s|] == s;
  }

  lemma {:induction false} TrimLeftKeepsEnd(s: string, c: char)
    requires !IsSpace(c)
    ensures TrimLeft(s + [c]) == TrimLeft(s) + [c]
  {
    if s != [] && IsSpace(s[0]) {
      TrimLeftKeepsEnd(s[1..], c);
      assert (s + [c])[1..] == s[1..] + [c];
    }
  }

  /** A trailing blank never matters. */
  lemma {:induction false} TrimIgnoresTrailing(s: string, c: char)
    requires IsSpace(c)
    ensures TrimSpace(s + [c]) == TrimSpace(s)
  {
    if s == [] {
      assert [c][1..] == [] == s + [c][1..];
      assert s + [c] == [c];
    } else if IsSpace(s[0]) {
      TrimIgnoresTrailing(s[1..], c);
      assert (s + [c])[1..] == s[1..] + [c];
    } else {
      TrimRightSpace(s, c);
    }
  }

  predicate AllSpace(s: string) {
    forall i :: 0 <= i < |s| ==> IsSpace(s[i])
  }

  lemma {:induction false} TrimLeftDrops(pre: string, s: string)
    requires AllSpace(pre)
    ensures TrimLeft(pre + s) == TrimLeft(s)
  {
    if pre == [] {
      assert pre + s == s;
    } else {
      assert (pre + s)[1..] == pre[1..] + s;
      TrimLeftDrops(pre[1..], s);
    }
  }

  lemma {:induction false} TrimRightDrops(s: string, post: string)
    requires AllSpace(post)
    ensures TrimRight(s + post) == TrimRight(s)
  {
    if post == [] {
      assert s + post == s;
    } else {
      var front, c := post[..|post| - 1], post[|post| - 1];
      assert s + post == s + front + [c];
      TrimRightSpace(s + front, c);
      TrimRightDrops(s, front);
    }
  }

  /** Exactly the blanks at both ends go. */
  lemma {:induction false} TrimSpaceIs(pre: string, s: string, post: string)
    requires AllSpace(pre) && AllSpace(post) && Trimmed(s)
    ensures TrimSpace(pre + s + post) == s
  {
    assert pre + s + post == pre + (s + post);
    TrimLeftDrops(pre, s + post);
    if s == [] {
      assert s + post == post;
      TrimLeftDrops(post, []);
      assert post + [] == post;
    } else {
      TrimRightDrops(s, post);
    }
  }

  /** Neither end blank: nothing to trim. */
  predicate Trimmed(s: string) {
    s == [] || (!IsSpace(s[0]) && !IsSpace(s[|s| - 1]))
  }

  lemma {:induction false} TrimOfTrimmed(s: string)
    requires Trimmed(s)
    ensures TrimSpace(s) == s
  {
  }

  lemma {:induction false} TrimLeftStart(s: string)
    ensures var t := TrimLeft(s); |t| <= |s| && t == s[|s| - |t|..] && (t != [] ==> !IsSpace(t[0]))
  {
    if s != [] && IsSpace(s[0]) { TrimLeftStart(s[1..]); }
  }

  lemma {:induction false} TrimRightEnd(s: string)
    ensures var t := TrimRight(s); |t| <= |s| && t == s[..|t|] && (t != [] ==> !IsSpace(t[|t| - 1]))
    ensures s != [] && !IsSpace(s[0]) ==> TrimRight(s) != []
  {
    if s != [] && IsSpace(s[|s| - 1]) { TrimRightEnd(s[..|s| - 1]); }
  }
}
