/** `strings.Contains` and `strings.HasPrefix`, and what a line joined from
    words contains. */
module Substring {
  import opened Text

  predicate HasPrefix(s: string, p: string) {
    |p| <= |s| && s[..|p|] == p
  }

  predicate OccursAt(s: string, w: string, i: nat) {
    i + |w| <= |s| && s[i..i + |w|] == w
  }

  predicate Contains(s: string, w: string) {
    exists i: nat | i <= |s| :: OccursAt(s, w, i)
  }

  lemma {:induction false} ContainsMiddle(a: string, w: string, b: string)
    ensures Contains(a + w + b, w)
  {
    assert OccursAt(a + w + b, w, |a|);
  }

  lemma {:induction false} ContainsTrans(s: string, t: string, w: string)
    requires Contains(s, t) && Contains(t, w)
    ensures Contains(s, w)
  {
    var i: nat :| i <= |s| && OccursAt(s, t, i);
    var j: nat :| j <= |t| && OccursAt(t, w, j);
    SliceOfSlice(s, i, i + |t|, j, j + |w|);
    assert OccursAt(s, w, i + j);
  }

  lemma {:induction false} SliceOfSlice(s: string, a: nat, b: nat, c: nat, d: nat)
    requires a <= b <= |s| && c <= d <= b - a
    ensures s[a..b][c..d] == s[a + c..a + d]
  {
    var t := s[a..b];
    forall k: nat | k < d - c ensures t[c..d][k] == s[a + c..a + d][k] {
      assert t[c..d][k] == t[c + k];
    }
  }

  lemma {:induction false} JoinConcat(a: seq<string>, b: seq<string>, c: char)
    requires a != [] && b != []
    ensures Join(a + b, c) == Join(a, c) + [c] + Join(b, c)
    decreases |a|
  {
    if |a| == 1 {
      JoinCons(a[0], b, c);
      assert a == [a[0]];
    } else {
      JoinConcat(a[1..], b, c);
      assert a + b == [a[0]] + (a[1..] + b);
      JoinCons(a[0], a[1..] + b, c);
      assert a[0] + [c] + (Join(a[1..], c) + [c] + Join(b, c)) == a[0] + [c] + Join(a[1..], c) + [c] + Join(b, c);
    }
  }

  /** Neighbouring words appear in the line as they are, with a blank after
      them unless they are the last. */
  lemma {:induction false} JoinContains(words: seq<string>, i: nat, j: nat, c: char)
    requires i < j <= |words|
    ensures Contains(Join(words, c), Join(words[i..j], c))
    ensures j < |words| ==> Contains(Join(words, c), Join(words[i..j], c) + [c])
  {
    var mid := Join(words[i..j], c);
    if i == 0 {
      JoinStartsWith(words, j, c);
    } else {
      JoinConcat(words[..i], words[i..], c);
      assert words == words[..i] + words[i..];
      JoinStartsWith(words[i..], j - i, c);
      assert words[i..][..j - i] == words[i..j];
      SuffixContains(Join(words[..i], c) + [c], Join(words[i..], c), mid);
      if j < |words| { SuffixContains(Join(words[..i], c) + [c], Join(words[i..], c), mid + [c]); }
    }
  }

  lemma {:induction false} OneWord(words: seq<string>, i: nat)
    requires i < |words|
    ensures Contains(Join(words, ' '), words[i])
  {
    assert words[i..i + 1] == [words[i]];
    JoinContains(words, i, i + 1, ' ');
  }

  lemma {:induction false} TwoWords(words: seq<string>, i: nat)
    requires i + 1 < |words|
    ensures Contains(Join(words, ' '), words[i] + " " + words[i + 1])
    ensures i + 2 < |words| ==> Contains(Join(words, ' '), words[i] + " " + words[i + 1] + " ")
  {
    assert words[i..i + 2] == [words[i], words[i + 1]];
    JoinFew(words[i], words[i + 1], "");
    assert [' '] == " ";
    JoinContains(words, i, i + 2, ' ');
  }

  lemma {:induction false} ThreeWords(words: seq<string>, i: nat)
    requires i + 2 < |words|
    ensures Contains(Join(words, ' '), words[i] + " " + words[i + 1] + " " + words[i + 2])
  {
    assert words[i..i + 3] == [words[i], words[i + 1], words[i + 2]];
    JoinFew(words[i], words[i + 1], words[i + 2]);
    JoinContains(words, i, i + 3, ' ');
  }

  lemma {:induction false} JoinFew(a: string, b: string, c: string)
    ensures Join([a], ' ') == a && Join([a, b], ' ') == a + " " + b && Join([a, b, c], ' ') == a + " " + b + " " + c
  {
    JoinCons(a, [b], ' ');
    JoinCons(b, [c], ' ');
    JoinCons(a, [b, c], ' ');
    assert [a] + [b] == [a, b] && [b] + [c] == [b, c] && [a] + [b, c] == [a, b, c];
    assert [' '] == " ";
    assert a + " " + (b + " " + c) == a + " " + b + " " + c;
  }

  lemma {:induction false} SuffixContains(a: string, b: string, w: string)
    requires HasPrefix(b, w)
    ensures Contains(a + b, w)
  {
    assert a + b == a + w + b[|w|..];
    ContainsMiddle(a, w, b[|w|..]);
  }

  lemma {:induction false} JoinStartsWith(words: seq<string>, j: nat, c: char)
    requires 0 < j <= |words|
    ensures HasPrefix(Join(words, c), Join(words[..j], c)) && Contains(Join(words, c), Join(words[..j], c))
    ensures j < |words| ==> HasPrefix(Join(words, c), Join(words[..j], c) + [c])
                            && Contains(Join(words, c), Join(words[..j], c) + [c])
  {
    var s := Join(words, c);
    if j == |words| {
      assert words[..j] == words;
    } else {
      JoinConcat(words[..j], words[j..], c);
      assert words == words[..j] + words[j..];
    }
    assert "" + s == s;
    SuffixContains("", s, Join(words[..j], c));
    if j < |words| { SuffixContains("", s, Join(words[..j], c) + [c]); }
  }

  // ---- what a line of words does not contain ----

  predicate EndsWith(s: string, c: char) {
    s != [] && s[|s| - 1] == c
  }

  predicate StartsWith(s: string, c: char) {
    s != [] && s[0] == c
  }

  /** Two neighbouring words, the first ending in x and the second starting
      with y. */
  predicate Meets(words: seq<string>, x: char, y: char) {
    exists i: nat | i < |words| - 1 :: EndsWith(words[i], x) && StartsWith(words[i + 1], y)
  }

  /** A phrase of two words occurs inside one word, or across two. */
  lemma {:induction false} PhraseInJoin(words: seq<string>, u: string, v: string)
    requires u != [] && v != [] && ' ' !in u && ' ' !in v && Contains(Join(words, ' '), u + [' '] + v)
    ensures (exists w :: w in words && Contains(w, u + [' '] + v)) || Meets(words, u[|u| - 1], v[0])
    decreases |words|
  {
    var w := u + [' '] + v;
    if words == [] {
      assert false;
    } else if |words| == 1 {
      assert words[0] in words;
    } else {
      var rest := Join(words[1..], ' ');
      var s := words[0] + [' '] + rest;
      var i: nat :| i <= |s| && OccursAt(s, w, i);
      PhraseSplit(words[0], rest, u, v, i);
      if Contains(words[0], w) {
        assert words[0] in words;
      } else if Contains(rest, w) {
        PhraseInJoin(words[1..], u, v);
        if Meets(words[1..], u[|u| - 1], v[0]) {
          var k: nat :| k < |words[1..]| - 1 && EndsWith(words[1..][k], u[|u| - 1]) && StartsWith(words[1..][k + 1], v[0]);
          assert words[k + 1] == words[1..][k] && words[k + 2] == words[1..][k + 1];
        }
      } else {
        JoinStart(words[1..], v[0]);
        assert words[0 + 1] == words[1..][0];
      }
    }
  }

  /** Text without a blank that occurs in a line occurs in one of its words. */
  lemma {:induction false} WordInJoin(words: seq<string>, u: string)
    requires u != [] && ' ' !in u && Contains(Join(words, ' '), u)
    ensures exists w :: w in words && Contains(w, u)
    decreases |words|
  {
    if |words| <= 1 {
      assert words != [];
      assert words[0] in words;
    } else {
      var first, rest := words[0], Join(words[1..], ' ');
      var s, n := first + [' '] + rest, |words[0]|;
      var i: nat :| i <= |s| && OccursAt(s, u, i);
      assert s[n] == ' ';
      forall j | i <= j < i + |u| ensures s[j] != ' ' { assert s[j] == u[j - i] && u[j - i] in u; }
      if i + |u| <= n {
        assert first[i..i + |u|] == u;
        assert OccursAt(first, u, i) && first in words;
      } else if i > n {
        assert rest[i - n - 1..i - n - 1 + |u|] == u;
        assert OccursAt(rest, u, i - n - 1);
        WordInJoin(words[1..], u);
      }
    }
  }

  lemma {:induction false} JoinStart(words: seq<string>, c: char)
    requires words != [] && c != ' ' && StartsWith(Join(words, ' '), c)
    ensures StartsWith(words[0], c)
  {
  }

  lemma {:induction false} PhraseSplit(first: string, rest: string, u: string, v: string, i: nat)
    requires u != [] && v != [] && ' ' !in u && ' ' !in v
    requires OccursAt(first + [' '] + rest, u + [' '] + v, i)
    ensures Contains(first, u + [' '] + v) || Contains(rest, u + [' '] + v)
            || (EndsWith(first, u[|u| - 1]) && StartsWith(rest, v[0]))
  {
    var s, w := first + [' '] + rest, u + [' '] + v;
    var n := |first|;
    assert forall k :: 0 <= k < |w| ==> s[i + k] == w[k];
    assert s[n] == ' ';
    if i + |w| <= n {
      assert first[i..i + |w|] == w;
      assert OccursAt(first, w, i);
    } else if i > n {
      assert rest[i - n - 1..i - n - 1 + |w|] == w;
      assert OccursAt(rest, w, i - n - 1);
    } else {
      assert w[n - i] == ' ';
      OneBlank(u, v, n - i);
      assert n - i == |u|;
      assert s[n - 1] == w[|u| - 1] == u[|u| - 1];
      assert s[n + 1] == w[|u| + 1] == v[0];
    }
  }

  lemma {:induction false} OneBlank(u: string, v: string, k: nat)
    requires ' ' !in u && ' ' !in v && k < |u + [' '] + v|
    ensures (u + [' '] + v)[k] == ' ' <==> k == |u|
  {
    if k < |u| {
      assert (u + [' '] + v)[k] == u[k];
    } else if k > |u| {
      assert (u + [' '] + v)[k] == v[k - |u| - 1];
    }
  }
}
