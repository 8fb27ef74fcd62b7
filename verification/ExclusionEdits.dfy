/** What editing the never-route file does to the list and to the other lines. */
module ExclusionEdits {
  import Subsequence
  import opened Text
  import opened Blocks
  import opened DottedQuad
  import opened ExclusionList
  import opened ExclusionFile

  // ---- lines of an edited text ----

  lemma {:induction false} LastPart(s: string, c: char)
    ensures var parts := Split(s, c); parts[|parts| - 1] == "" <==> s == "" || s[|s| - 1] == c
    decreases |s|
  {
    var i := IndexOf(s, c);
    if i < |s| {
      var rest := s[i + 1..];
      LastPart(rest, c);
      SplitAt(s, c, i);
      LastOfCons(s[..i], Split(rest, c));
      if rest != "" { assert rest[|rest| - 1] == s[|s| - 1]; }
    } else {
      SplitNone(s, c);
      if s != "" { assert s[|s| - 1] in s; }
    }
  }

  lemma {:induction false} LastOfCons(first: string, parts: seq<string>)
    requires parts != []
    ensures var all := [first] + parts; all[|all| - 1] == parts[|parts| - 1]
  {
  }

  lemma {:induction false} RawLinesOfTerminated(t: string)
    ensures RawLines(t + ['\n']) == Split(t, '\n')
  {
    assert ['\n'] + "" == ['\n'];
    SplitNone("", '\n');
    SplitConcat(t, "", '\n');
  }

  lemma {:induction false} LineThenNewline(line: string)
    requires '\n' !in line
    ensures Split(line + ['\n'], '\n') == [line, ""]
  {
    SplitNone("", '\n');
    SplitCons(line, '\n', "");
    assert line + ['\n'] + "" == line + ['\n'];
  }

  lemma {:induction false} AppendToTerminated(t: string, line: string)
    requires '\n' !in line
    ensures RawLines(t + (['\n'] + (line + ['\n']))) == Split(t, '\n') + [line]
  {
    LineThenNewline(line);
    SplitConcat(t, line + ['\n'], '\n');
    assert Split(t, '\n') + [line, ""] == Split(t, '\n') + [line] + [""];
  }

  /** The text before its final newline, if it has one. */
  function Unterminated(text: string): string {
    if text != "" && text[|text| - 1] == '\n' then text[..|text| - 1] else text
  }

  lemma {:induction false} RawLinesOfText(text: string)
    requires text != ""
    ensures RawLines(text) == Split(Unterminated(text), '\n')
    ensures WithNewline(text) == Unterminated(text) + ['\n']
  {
    if text[|text| - 1] == '\n' {
      var t := text[..|text| - 1];
      assert text == t + ['\n'];
      RawLinesOfTerminated(t);
    } else {
      RawLinesOfOpen(text);
    }
  }

  lemma {:induction false} RawLinesOfOpen(text: string)
    requires text != "" && text[|text| - 1] != '\n'
    ensures RawLines(text) == Split(text, '\n')
  {
    LastPart(text, '\n');
  }

  lemma {:induction false} Reassociate(a: string, b: string, c: string)
    ensures a + b + c == a + (b + c)
  {
  }

  /** Appending a line leaves the lines before it alone. */
  lemma {:induction false} RawLinesAppend(text: string, line: string)
    requires '\n' !in line
    ensures RawLines(WithNewline(text) + (line + ['\n'])) == RawLines(text) + [line]
  {
    if text == "" {
      LineThenNewline(line);
      SplitNone("", '\n');
      assert "" + (line + ['\n']) == line + ['\n'];
    } else {
      var t := Unterminated(text);
      RawLinesOfText(text);
      AppendToTerminated(t, line);
      Reassociate(t, ['\n'], line + ['\n']);
    }
  }

  lemma {:induction false} JoinLong(lines: seq<string>, c: char)
    requires lines != []
    ensures Join(lines, c) == "" <==> lines == [""]
  {
  }

  /** Writing lines and reading them back, but for a single blank line. */
  lemma {:induction false} RawLinesOfJoined(lines: seq<string>)
    requires forall l :: l in lines ==> '\n' !in l
    ensures RawLines(JoinedText(lines)) == if lines == [""] then [] else lines
  {
    SplitNone("", '\n');
    if lines != [] && lines != [""] {
      JoinLong(lines, '\n');
      SplitOfJoin(lines, '\n');
      RawLinesOfTerminated(Join(lines, '\n'));
    }
  }

  /** Rewriting all lines of a text gives the text back, newline-terminated. */
  lemma {:induction false} JoinedRawLines(text: string)
    requires RawLines(text) != [""]
    ensures JoinedText(RawLines(text)) == WithNewline(text)
  {
    if text == "" {
      SplitNone("", '\n');
    } else {
      RawLinesOfText(text);
      JoinOfSplit(Unterminated(text), '\n');
      JoinLong(RawLines(text), '\n');
    }
  }

  lemma {:induction false} RawLinesUnbroken(text: string)
    ensures forall l :: l in RawLines(text) ==> '\n' !in l
  {
  }

  // ---- carriage returns ----

  predicate EndsCR(line: string) {
    line != [] && line[|line| - 1] == '\r'
  }

  lemma {:induction false} DropCRsAt(lines: seq<string>, i: nat)
    requires i < |lines|
    ensures DropCRs(lines)[i] == DropCR(lines[i])
    decreases |lines|
  {
    if i < |lines| - 1 { DropCRsAt(lines[..|lines| - 1], i); }
  }

  lemma {:induction false} DropCRSame(line: string)
    ensures DropCR(line) == line <==> !EndsCR(line)
  {
    assert EndsCR(line) ==> |DropCR(line)| < |line|;
  }

  lemma {:induction false} DropCRsSame(lines: seq<string>)
    ensures DropCRs(lines) == lines <==> forall i :: 0 <= i < |lines| ==> !EndsCR(lines[i])
  {
    forall i | 0 <= i < |lines| ensures DropCRs(lines)[i] == lines[i] <==> !EndsCR(lines[i]) {
      DropCRsAt(lines, i);
      DropCRSame(lines[i]);
    }
  }

  lemma {:induction false} DropCRsUnbroken(lines: seq<string>)
    requires forall l :: l in lines ==> '\n' !in l
    ensures forall l :: l in DropCRs(lines) ==> '\n' !in l
    decreases |lines|
  {
    if lines != [] {
      var front, last := lines[..|lines| - 1], lines[|lines| - 1];
      assert lines == front + [last] && last in lines;
      DropCRsUnbroken(front);
    }
  }

  /** Lines are read without their ends, which may be "\r\n" or "\n"; the last
      one needs none. */
  lemma {:induction false} LinesRead(lines: seq<string>, raw: seq<string>)
    requires |raw| == |lines| > 0 && forall l :: l in raw ==> '\n' !in l
    requires forall i :: 0 <= i < |lines| ==>
               raw[i] == lines[i] + ['\r'] || (raw[i] == lines[i] && !EndsCR(lines[i]))
    ensures ScanLines(Join(raw, '\n') + ['\n']) == lines
    ensures raw[|raw| - 1] != "" ==> ScanLines(Join(raw, '\n')) == lines
  {
    SplitOfJoin(raw, '\n');
    RawLinesOfTerminated(Join(raw, '\n'));
    DropCRsOf(lines, raw);
  }

  lemma {:induction false} DropCRsOf(lines: seq<string>, raw: seq<string>)
    requires |raw| == |lines|
    requires forall i :: 0 <= i < |lines| ==>
               raw[i] == lines[i] + ['\r'] || (raw[i] == lines[i] && !EndsCR(lines[i]))
    ensures DropCRs(raw) == lines
  {
    forall i | 0 <= i < |raw| ensures DropCRs(raw)[i] == lines[i] {
      DropCRsAt(raw, i);
      if raw[i] == lines[i] + ['\r'] { assert raw[i][..|raw[i]| - 1] == lines[i]; }
    }
  }

  /** A carriage return before the end of a line changes no entry. */
  lemma {:induction false} ClassifyIgnoresCR(line: string)
    ensures Classify(DropCR(line)) == Classify(line)
  {
    if EndsCR(line) {
      var n := |line| - 1;
      var i := IndexOf(line, '#');
      var front := line[..n];
      assert line == front + ['\r'];
      if i < n {
        assert front[..i] == line[..i];
        IndexOfIs(front, '#', i);
      } else {
        assert i == |line| && line[..i] == line && front[..n] == front;
        IndexOfIs(front, '#', n);
        TrimIgnoresTrailing(front, '\r');
      }
      ClassifyByTrimmed(front, line);
      assert DropCR(line) == front;
    } else {
      assert DropCR(line) == line;
    }
  }

  lemma {:induction false} ClassifyByTrimmed(a: string, b: string)
    requires TrimSpace(Bare(a)) == TrimSpace(Bare(b))
    ensures Classify(a) == Classify(b)
  {
  }

  lemma {:induction false} KindsIgnoreCRs(lines: seq<string>)
    ensures Kinds(DropCRs(lines)) == Kinds(lines)
    decreases |lines|
  {
    if lines != [] {
      var n := |lines| - 1;
      KindsIgnoreCRs(lines[..n]);
      ClassifyIgnoresCR(lines[n]);
      assert DropCRs(lines)[..n] == DropCRs(lines[..n]);
    }
  }

  // ---- adding ----

  /** A canonical entry reads as itself. */
  lemma {:induction false} CanonicalLine(b: Cidr)
    requires b.bits >= MIN_EXCLUSION_PREFIX
    ensures Classify(Canonical(b)) == Entry(b) && '\n' !in Canonical(b) && !EndsCR(Canonical(b))
  {
    var c := Canonical(b);
    CanonicalPlain(b);
    CanonicalRoundTrip(b);
    assert forall i :: 0 <= i < |c| ==> c[i] != '#' && c[i] != '\n' && c[i] != '\r';
    assert c[..|c|] == c;
    IndexOfIs(c, '#', |c|);
  }

  lemma {:induction false} KindsAppend(lines: seq<string>, line: string)
    ensures Kinds(lines + [line]) == Kinds(lines) + [Classify(line)]
    ensures DropCRs(lines + [line]) == DropCRs(lines) + [DropCR(line)]
  {
    assert (lines + [line])[..|lines|] == lines;
  }

  lemma {:induction false} EntriesAppend(kinds: seq<Kind>, k: Kind)
    ensures Entries(kinds + [k]) == if k.Entry? then Noted(Entries(kinds), k.block) else Entries(kinds)
    ensures Skipped(kinds + [k]) == Skipped(kinds) + if k.Bad? then 1 else 0
  {
    assert (kinds + [k])[..|kinds|] == kinds;
  }

  /** What `AddExclusion` writes: the list grows by exactly the entry, and every
      line that was there stays, followed by one new line. */
  lemma {:induction false} AddedList(text: string, b: Cidr)
    requires b.bits >= MIN_EXCLUSION_PREFIX && Added(text, b).Written?
    ensures var text' := Added(text, b).text;
            && Listed(text') == Listed(text) + [b]
            && Skipped(Kinds(ScanLines(text'))) == Skipped(Kinds(ScanLines(text)))
            && RawLines(text') == RawLines(text) + [Canonical(b)]
  {
    var line := Canonical(b);
    CanonicalLine(b);
    RawLinesAppend(text, line);
    DropCRSame(line);
    ScanAppend(RawLines(text), line);
    ListAppend(ScanLines(text), line, b);
  }

  lemma {:induction false} ScanAppend(raw: seq<string>, line: string)
    requires DropCR(line) == line
    ensures DropCRs(raw + [line]) == DropCRs(raw) + [line]
  {
    assert (raw + [line])[..|raw|] == raw;
  }

  lemma {:induction false} ListAppend(lines: seq<string>, line: string, b: Cidr)
    requires Classify(line) == Entry(b)
    ensures Entries(Kinds(lines + [line])) == Noted(Entries(Kinds(lines)), b)
    ensures Skipped(Kinds(lines + [line])) == Skipped(Kinds(lines))
  {
    KindsAppend(lines, line);
    EntriesAppend(Kinds(lines), Entry(b));
  }

  // ---- removing ----

  /** All different entries, without the limit. */
  function Distinct(kinds: seq<Kind>): seq<Cidr> {
    if kinds == [] then []
    else
      var front, k := Distinct(kinds[..|kinds| - 1]), kinds[|kinds| - 1];
      if k.Entry? && k.block !in front then front + [k.block] else front
  }

  /** Where a kind of line that is an entry stands for the first time. */
  ghost function FirstPlaces(kinds: seq<Kind>): set<int> {
    set i | 0 <= i < |kinds| && kinds[i].Entry? && forall j :: 0 <= j < i ==> kinds[j] != kinds[i]
  }

  lemma {:induction false} DistinctHas(kinds: seq<Kind>, b: Cidr)
    ensures b in Distinct(kinds) <==> Entry(b) in kinds
    decreases |kinds|
  {
    if kinds != [] {
      DistinctHas(kinds[..|kinds| - 1], b);
      assert kinds == kinds[..|kinds| - 1] + [kinds[|kinds| - 1]];
    }
  }

  lemma {:induction false} FirstPlacesStep(front: seq<Kind>, k: Kind)
    ensures FirstPlaces(front + [k])
         == if k.Entry? && k !in front then FirstPlaces(front) + {|front|} else FirstPlaces(front)
  {
    var kinds := front + [k];
    forall i | 0 <= i < |front| ensures i in FirstPlaces(kinds) <==> i in FirstPlaces(front) {
      assert forall j :: 0 <= j <= i ==> kinds[j] == front[j];
    }
    if k in front {
      var j :| 0 <= j < |front| && front[j] == k;
      assert kinds[j] == kinds[|front|];
    } else {
      forall j | 0 <= j < |front| ensures kinds[j] != k { assert front[j] in front; }
    }
  }

  /** The different entries, each where it stands first. */
  lemma {:induction false} DistinctPicks(kinds: seq<Kind>)
    ensures Subsequence.Picks(EntryKinds(Distinct(kinds)), kinds, FirstPlaces(kinds))
    decreases |kinds|
  {
    if kinds == [] {
      Subsequence.PicksNone<Kind>();
      assert FirstPlaces(kinds) == {};
    } else {
      var front, k := kinds[..|kinds| - 1], kinds[|kinds| - 1];
      var d := Distinct(front);
      DistinctPicks(front);
      assert kinds == front + [k];
      FirstPlacesStep(front, k);
      if k.Entry? && k !in front {
        DistinctHas(front, k.block);
        assert (d + [k.block])[..|d|] == d;
        Subsequence.PicksTake(EntryKinds(d), front, FirstPlaces(front), k);
      } else {
        if k.Entry? { DistinctHas(front, k.block); }
        Subsequence.PicksSkip(EntryKinds(d), front, FirstPlaces(front), k);
      }
    }
  }

  /** The list a file stands for: its different entries where they stand first,
      up to the 512th. */
  lemma {:induction false} ListedIs(text: string) returns (d: seq<Cidr>)
    ensures Listed(text) == if |d| <= 512 then d else d[..512]
    ensures Subsequence.Picks(EntryKinds(d), Kinds(ScanLines(text)), FirstPlaces(Kinds(ScanLines(text))))
    ensures |EntryKinds(d)| == |d| && forall i :: 0 <= i < |d| ==> EntryKinds(d)[i] == Entry(d[i])
  {
    d := Distinct(Kinds(ScanLines(text)));
    EntriesAreFirst(Kinds(ScanLines(text)));
    DistinctPicks(Kinds(ScanLines(text)));
    forall i: nat | i < |d| ensures EntryKinds(d)[i] == Entry(d[i]) { EntryKindAt(d, i); }
  }

  lemma {:induction false} EntryKindAt(bs: seq<Cidr>, i: nat)
    requires i < |bs|
    ensures EntryKinds(bs)[i] == Entry(bs[i])
    decreases |bs|
  {
    if i < |bs| - 1 { EntryKindAt(bs[..|bs| - 1], i); }
  }

  function FirstMax(s: seq<Cidr>): seq<Cidr> {
    if |s| <= MAX_EXCLUSIONS then s else s[..MAX_EXCLUSIONS]
  }

  lemma {:induction false} EntriesAreFirst(kinds: seq<Kind>)
    ensures Entries(kinds) == FirstMax(Distinct(kinds))
    decreases |kinds|
  {
    if kinds != [] { EntriesAreFirst(kinds[..|kinds| - 1]); }
  }

  function KindsWithout(kinds: seq<Kind>, b: Cidr): seq<Kind> {
    if kinds == [] then []
    else
      var front, k := KindsWithout(kinds[..|kinds| - 1], b), kinds[|kinds| - 1];
      if k == Entry(b) then front else front + [k]
  }

  lemma {:induction false} KindsOfWithout(lines: seq<string>, b: Cidr)
    ensures Kinds(Without(lines, Kinds(lines), b)) == KindsWithout(Kinds(lines), b)
    decreases |lines|
  {
    if lines != [] {
      var n := |lines| - 1;
      KindsOfWithout(lines[..n], b);
      assert Kinds(lines)[..n] == Kinds(lines[..n]);
      KindsAppend(Without(lines[..n], Kinds(lines[..n]), b), lines[n]);
    }
  }

  function Drop(s: seq<Cidr>, b: Cidr): seq<Cidr> {
    if s == [] then []
    else
      var front, x := Drop(s[..|s| - 1], b), s[|s| - 1];
      if x == b then front else front + [x]
  }

  lemma {:induction false} DropMembers(s: seq<Cidr>, b: Cidr)
    ensures forall x :: x in Drop(s, b) <==> x in s && x != b
    decreases |s|
  {
    if s != [] {
      DropMembers(s[..|s| - 1], b);
      assert s == s[..|s| - 1] + [s[|s| - 1]];
    }
  }

  lemma {:induction false} DropLast(s: seq<Cidr>, x: Cidr, b: Cidr)
    ensures Drop(s + [x], b) == if x == b then Drop(s, b) else Drop(s, b) + [x]
  {
    assert (s + [x])[..|s|] == s;
  }

  lemma {:induction false} DistinctWithout(kinds: seq<Kind>, b: Cidr)
    ensures Distinct(KindsWithout(kinds, b)) == Drop(Distinct(kinds), b)
    decreases |kinds|
  {
    if kinds != [] {
      var front, k := kinds[..|kinds| - 1], kinds[|kinds| - 1];
      DistinctWithout(front, b);
      DropMembers(Distinct(front), b);
      DistinctAppend(KindsWithout(front, b), k);
      DistinctAppend(front, k);
      assert kinds == front + [k];
      if k.Entry? { DropLast(Distinct(front), k.block, b); }
    }
  }

  lemma {:induction false} DistinctAppend(kinds: seq<Kind>, k: Kind)
    ensures Distinct(kinds + [k])
              == if k.Entry? && k.block !in Distinct(kinds) then Distinct(kinds) + [k.block] else Distinct(kinds)
  {
    assert (kinds + [k])[..|kinds|] == kinds;
  }

  lemma {:induction false} WithoutMembers(lines: seq<string>, kinds: seq<Kind>, b: Cidr)
    requires |kinds| == |lines|
    ensures forall l :: l in Without(lines, kinds, b) ==> l in lines
    decreases |lines|
  {
    if lines != [] {
      var n := |lines| - 1;
      WithoutMembers(lines[..n], kinds[..n], b);
      assert lines == lines[..n] + [lines[n]];
    }
  }

  lemma {:induction false} BlankFile()
    ensures Entries(Kinds([""])) == [] == Entries([])
  {
    assert Classify("") == Blank;
    KindsAppend([], "");
    assert [] + [""] == [""];
    EntriesAppend([], Blank);
  }

  /** What the file lists once the lines of b are gone. */
  lemma {:induction false} ListedAfterRemove(text: string, b: Cidr)
    ensures Listed(JoinedText(Remaining(text, b))) == Entries(KindsWithout(Kinds(ScanLines(text)), b))
  {
    var lines := ScanLines(text);
    var left := Remaining(text, b);
    RawLinesUnbroken(text);
    DropCRsUnbroken(RawLines(text));
    WithoutMembers(lines, Kinds(lines), b);
    RawLinesOfJoined(left);
    KindsIgnoreCRs(left);
    KindsOfWithout(lines, b);
    if left == [""] { BlankFile(); }
  }

  lemma {:induction false} DistinctNoRepeats(kinds: seq<Kind>)
    ensures Subsequence.NoRepeats(Distinct(kinds))
    decreases |kinds|
  {
    if kinds != [] { DistinctNoRepeats(kinds[..|kinds| - 1]); }
  }

  lemma {:induction false} DropConcat(s: seq<Cidr>, t: seq<Cidr>, b: Cidr)
    ensures Drop(s + t, b) == Drop(s, b) + Drop(t, b)
    decreases |t|
  {
    if t == [] {
      assert s + t == s;
    } else {
      var front, x := t[..|t| - 1], t[|t| - 1];
      DropConcat(s, front, b);
      assert s + t == s + front + [x] && t == front + [x];
      DropLast(s + front, x, b);
      DropLast(front, x, b);
      assert Drop(s, b) + (Drop(front, b) + [x]) == Drop(s, b) + Drop(front, b) + [x];
    }
  }

  lemma {:induction false} DropAbsent(s: seq<Cidr>, b: Cidr)
    requires b !in s
    ensures Drop(s, b) == s
    decreases |s|
  {
    if s != [] {
      assert s == s[..|s| - 1] + [s[|s| - 1]];
      DropAbsent(s[..|s| - 1], b);
    }
  }

  lemma {:induction false} DropPresent(s: seq<Cidr>, b: Cidr)
    requires Subsequence.NoRepeats(s) && b in s
    ensures |Drop(s, b)| == |s| - 1
    decreases |s|
  {
    var front, x := s[..|s| - 1], s[|s| - 1];
    assert s == front + [x];
    if x == b {
      assert b !in front;
      DropAbsent(front, b);
    } else {
      DropPresent(front, b);
    }
  }

  lemma {:induction false} SplitList(d: seq<Cidr>, n: nat)
    requires Subsequence.NoRepeats(d) && n < |d|
    ensures d == d[..n] + d[n..] && Subsequence.NoRepeats(d[..n]) && d[n..][0] == d[n] && d[n] !in d[..n]
    ensures forall x :: x in d[..n] ==> x !in d[n..]
  {
    forall x | x in d[..n] ensures x !in d[n..] {
      var i :| 0 <= i < n && d[..n][i] == x;
      assert forall j :: 0 <= j < |d| - n ==> d[n..][j] == d[n + j] != d[i];
    }
  }

  /** Taking an entry out of an over-long list lets the next one in. */
  lemma {:induction false} NextMovesUp(d: seq<Cidr>, b: Cidr)
    requires Subsequence.NoRepeats(d) && |d| > MAX_EXCLUSIONS && b in d[..MAX_EXCLUSIONS]
    ensures d[MAX_EXCLUSIONS] in FirstMax(Drop(d, b)) && d[MAX_EXCLUSIONS] !in FirstMax(d)
  {
    SplitList(d, MAX_EXCLUSIONS);
    var head, tail := d[..MAX_EXCLUSIONS], d[MAX_EXCLUSIONS..];
    DropConcat(head, tail, b);
    DropPresent(head, b);
    DropAbsent(tail, b);
    LastOfFirst(Drop(head, b), tail);
  }

  lemma {:induction false} LastOfFirst(head: seq<Cidr>, tail: seq<Cidr>)
    requires |head| == MAX_EXCLUSIONS - 1 && tail != []
    ensures tail[0] in FirstMax(head + tail)
  {
    assert FirstMax(head + tail)[MAX_EXCLUSIONS - 1] == tail[0];
  }

  lemma {:induction false} FirstMaxDrop(d: seq<Cidr>, b: Cidr)
    requires Subsequence.NoRepeats(d) && (b !in FirstMax(d) || |d| <= MAX_EXCLUSIONS)
    ensures forall x :: x in FirstMax(Drop(d, b)) <==> x in FirstMax(d) && x != b
  {
    if |d| <= MAX_EXCLUSIONS {
      DropMembers(d, b);
      if b in d { DropPresent(d, b); } else { DropAbsent(d, b); }
    } else {
      var head, tail := d[..MAX_EXCLUSIONS], d[MAX_EXCLUSIONS..];
      assert d == head + tail;
      DropConcat(head, tail, b);
      DropAbsent(head, b);
      assert FirstMax(Drop(d, b)) == head;
    }
  }

  /** No line of the file names the entry. */
  predicate Unnamed(text: string, b: Cidr) {
    Entry(b) !in Kinds(RawLines(text))
  }

  lemma {:induction false} WithoutUnnamed(lines: seq<string>, kinds: seq<Kind>, b: Cidr)
    requires |kinds| == |lines|
    ensures Without(lines, kinds, b) == lines <==> Entry(b) !in kinds
    decreases |lines|
  {
    if lines != [] {
      var n := |lines| - 1;
      WithoutUnnamed(lines[..n], kinds[..n], b);
      WithoutAll(lines[..n], kinds[..n], b);
      assert lines == lines[..n] + [lines[n]] && kinds == kinds[..n] + [kinds[n]];
      if kinds[n] == Entry(b) { assert |Without(lines, kinds, b)| < |lines|; }
      else if Without(lines, kinds, b) == lines { LastDropped(Without(lines[..n], kinds[..n], b), lines[..n], lines[n]); }
    }
  }

  lemma {:induction false} LastDropped(a: seq<string>, b: seq<string>, x: string)
    requires a + [x] == b + [x]
    ensures a == b
  {
    assert |a| == |b| && (a + [x])[..|a|] == a && (b + [x])[..|b|] == b;
  }

  /** A removal leaves the file alone exactly when no line names the entry. */
  lemma {:induction false} SameIffUnnamed(text: string, b: Cidr)
    ensures Removed(text, b) == Same(b) <==> Unnamed(text, b)
    ensures Unnamed(text, b) ==> After(text, Removed(text, b)) == text
    ensures !Unnamed(text, b) ==> After(text, Removed(text, b)) == JoinedText(Remaining(text, b))
  {
    KindsIgnoreCRs(RawLines(text));
    WithoutUnnamed(ScanLines(text), Kinds(ScanLines(text)), b);
  }

  /** What the file lists after a removal, whether or not it was rewritten. */
  lemma {:induction false} ListedAfter(text: string, b: Cidr)
    ensures Listed(After(text, Removed(text, b))) == Entries(KindsWithout(Kinds(ScanLines(text)), b))
  {
    ListedAfterRemove(text, b);
    SameIffUnnamed(text, b);
    if Unnamed(text, b) {
      KindsIgnoreCRs(RawLines(text));
      WithoutUnnamed(ScanLines(text), Kinds(ScanLines(text)), b);
      KindsOfWithout(ScanLines(text), b);
    }
  }

  /** `RemoveExclusion` takes exactly the entry off the list, unless the file
      held more than 512 different entries and the removal lets another in. */
  lemma {:induction false} RemovedListExactly(text: string, b: Cidr)
    ensures var text' := After(text, Removed(text, b));
            (forall x :: x in Listed(text') <==> x in Listed(text) && x != b)
            <==> (b !in Listed(text) || |Distinct(Kinds(ScanLines(text)))| <= MAX_EXCLUSIONS)
  {
    var kinds := Kinds(ScanLines(text));
    var d := Distinct(kinds);
    ListedAfter(text, b);
    EntriesAreFirst(kinds);
    EntriesAreFirst(KindsWithout(kinds, b));
    DistinctWithout(kinds, b);
    DistinctNoRepeats(kinds);
    if b !in Listed(text) || |d| <= MAX_EXCLUSIONS {
      FirstMaxDrop(d, b);
    } else {
      NextMovesUp(d, b);
    }
  }

  lemma {:induction false} WithoutDropCRs(lines: seq<string>, kinds: seq<Kind>, b: Cidr)
    requires |kinds| == |lines|
    ensures Without(DropCRs(lines), kinds, b) == DropCRs(Without(lines, kinds, b))
    decreases |lines|
  {
    if lines != [] {
      var n := |lines| - 1;
      WithoutDropCRs(lines[..n], kinds[..n], b);
      assert DropCRs(lines)[..n] == DropCRs(lines[..n]);
      KindsAppend(Without(lines[..n], kinds[..n], b), lines[n]);
    }
  }

  /** The other lines stay verbatim and in order exactly when no line names the
      entry, so that nothing is written, or when none of them ends in a carriage
      return and they are not one single blank line. */
  lemma {:induction false} RemoveKeepsOtherLines(text: string, b: Cidr)
    ensures var others := Without(RawLines(text), Kinds(RawLines(text)), b);
            (RawLines(After(text, Removed(text, b))) == others)
            <==> (Unnamed(text, b) || (others != [""] && forall i :: 0 <= i < |others| ==> !EndsCR(others[i])))
  {
    SameIffUnnamed(text, b);
    if Unnamed(text, b) {
      WithoutUnnamed(RawLines(text), Kinds(RawLines(text)), b);
    } else {
      RewriteKeepsOtherLines(text, b);
    }
  }

  lemma {:induction false} RewriteKeepsOtherLines(text: string, b: Cidr)
    ensures var others := Without(RawLines(text), Kinds(RawLines(text)), b);
            (RawLines(JoinedText(Remaining(text, b))) == others)
            <==> (others != [""] && forall i :: 0 <= i < |others| ==> !EndsCR(others[i]))
  {
    var raw := RawLines(text);
    var others := Without(raw, Kinds(raw), b);
    KindsIgnoreCRs(raw);
    WithoutDropCRs(raw, Kinds(raw), b);
    RawLinesUnbroken(text);
    DropCRsUnbroken(raw);
    WithoutMembers(ScanLines(text), Kinds(raw), b);
    RawLinesOfJoined(Remaining(text, b));
    DropCRsSame(others);
  }

  lemma {:induction false} WithoutAbsent(lines: seq<string>, kinds: seq<Kind>, b: Cidr)
    requires |kinds| == |lines| && b !in Distinct(kinds)
    ensures Without(lines, kinds, b) == lines
    decreases |lines|
  {
    if lines != [] {
      var n := |lines| - 1;
      WithoutAbsent(lines[..n], kinds[..n], b);
      assert lines == lines[..n] + [lines[n]];
    }
  }

  /** Removing an entry that was just added gives the original text back, up to
      its final newline, exactly when no line ends in a carriage return and the
      text is not a single empty line. */
  lemma {:induction false} AddThenRemove(text: string, b: Cidr)
    requires b.bits >= MIN_EXCLUSION_PREFIX && Added(text, b).Written?
    ensures var text' := Added(text, b).text;
            (After(text', Removed(text', b)) == WithNewline(text))
            <==> (text != "\n" && forall i :: 0 <= i < |RawLines(text)| ==> !EndsCR(RawLines(text)[i]))
  {
    var raw, lines := RawLines(text), ScanLines(text);
    RemainingAfterAdd(text, b);
    AddedIsNamed(text, b);
    DropCRsSame(raw);
    NewlineOnly(text);
    RawLinesOfNewline(text);
    RawLinesUnbroken(text);
    DropCRsUnbroken(raw);
    RawLinesOfJoined(lines);
    if lines == raw && raw != [""] { JoinedRawLines(text); }
  }

  lemma {:induction false} RemainingAfterAdd(text: string, b: Cidr)
    requires b.bits >= MIN_EXCLUSION_PREFIX && Added(text, b).Written?
    ensures Remaining(Added(text, b).text, b) == ScanLines(text)
  {
    var lines, line := ScanLines(text), Canonical(b);
    CanonicalLine(b);
    RawLinesAppend(text, line);
    DropCRSame(line);
    ScanAppend(RawLines(text), line);
    KindsAppend(lines, line);
    EntriesAreFirst(Kinds(lines));
    WithoutAbsent(lines, Kinds(lines), b);
    WithoutAppended(lines, line, Kinds(lines), b);
  }

  lemma {:induction false} AddedIsNamed(text: string, b: Cidr)
    requires b.bits >= MIN_EXCLUSION_PREFIX && Added(text, b).Written?
    ensures var text' := Added(text, b).text; After(text', Removed(text', b)) == JoinedText(Remaining(text', b))
  {
    CanonicalLine(b);
    RawLinesAppend(text, Canonical(b));
    KindsAppend(RawLines(text), Canonical(b));
    assert Kinds(RawLines(Added(text, b).text))[|RawLines(text)|] == Entry(b);
    SameIffUnnamed(Added(text, b).text, b);
  }

  lemma {:induction false} WithoutAppended(lines: seq<string>, line: string, kinds: seq<Kind>, b: Cidr)
    requires |kinds| == |lines|
    ensures Without(lines + [line], kinds + [Entry(b)], b) == Without(lines, kinds, b)
  {
    assert (lines + [line])[..|lines|] == lines && (kinds + [Entry(b)])[..|kinds|] == kinds;
  }

  lemma {:induction false} NewlineOnly(text: string)
    ensures RawLines(text) == [""] <==> text == "\n"
  {
    if text == "" {
      SplitNone("", '\n');
    } else {
      RawLinesOfText(text);
      JoinOfSplit(Unterminated(text), '\n');
      SplitNone("", '\n');
    }
  }

  lemma {:induction false} RawLinesOfNewline(text: string)
    ensures RawLines(WithNewline(text)) == RawLines(text)
  {
    if text != "" {
      RawLinesOfText(text);
      RawLinesOfTerminated(Unterminated(text));
    }
  }

  // ---- inputs on which the comments promise too much ----

  /** A comment line that ends in a carriage return, beside the entry. */
  lemma {:induction false} RemoveDropsReturn(b: Cidr)
    requires b.bits >= MIN_EXCLUSION_PREFIX
    ensures var text := "#\r\n" + (Canonical(b) + ['\n']);
            && RawLines(text) == ["#\r", Canonical(b)]
            && Without(RawLines(text), Kinds(RawLines(text)), b) == ["#\r"]
            && RawLines(After(text, Removed(text, b))) != ["#\r"]
  {
    var line, text := Canonical(b), "#\r\n" + (Canonical(b) + ['\n']);
    CanonicalLine(b);
    ReturnThenLine(line);
    CommentIsBlank("#\r");
    KeptReturn(text, "#\r", line, b);
  }

  lemma {:induction false} ReturnThenLine(line: string)
    requires '\n' !in line
    ensures RawLines("#\r\n" + (line + ['\n'])) == ["#\r", line]
  {
    assert "#\r" + ['\n'] == "#\r\n";
    SplitNone("#\r", '\n');
    RawLinesOfTerminated("#\r");
    RawLinesAppend("#\r\n", line);
    assert ["#\r"] + [line] == ["#\r", line];
  }

  lemma {:induction false} KeptReturn(text: string, comment: string, line: string, b: Cidr)
    requires RawLines(text) == [comment, line] && Classify(comment) == Blank && Classify(line) == Entry(b)
    requires EndsCR(comment)
    ensures Without(RawLines(text), Kinds(RawLines(text)), b) == [comment]
    ensures RawLines(After(text, Removed(text, b))) != [comment]
  {
    TwoKinds(comment, line);
    WithoutSecond(comment, line, b);
    assert [Blank, Entry(b)][1] == Entry(b);
    RemoveKeepsOtherLines(text, b);
  }

  lemma {:induction false} WithoutSecond(a: string, line: string, b: Cidr)
    ensures Without([a, line], [Blank, Entry(b)], b) == [a]
  {
    assert [a] + [line] == [a, line] && [Blank] + [Entry(b)] == [Blank, Entry(b)];
    WithoutAppended([a], line, [Blank], b);
    WithoutUnnamed([a], [Blank], b);
  }

  lemma {:induction false} TwoKinds(a: string, b: string)
    ensures Kinds([a, b]) == [Classify(a), Classify(b)]
  {
    KindsAppend([], a);
    KindsAppend([a], b);
    assert [] + [a] == [a] && [a] + [b] == [a, b];
  }

  lemma {:induction false} CommentIsBlank(line: string)
    requires line != "" && line[0] == '#'
    ensures Classify(line) == Blank
  {
    IndexOfIs(line, '#', 0);
  }

  /** A file that is one empty line: it is gone after adding and removing. */
  lemma {:induction false} EmptyLineIsLost(b: Cidr)
    requires b.bits >= MIN_EXCLUSION_PREFIX
    ensures Added("\n", b).Written?
    ensures var text' := Added("\n", b).text; After(text', Removed(text', b)) != "\n"
  {
    NewlineOnly("\n");
    assert ScanLines("\n") == [""];
    BlankFile();
    AddThenRemove("\n", b);
  }

  /** The first n addresses as blocks. */
  function Hosts(n: nat): (bs: seq<Cidr>)
    requires n <= SPACE
    ensures |bs| == n && forall i: nat :: i < n ==> bs[i] == Block(i, 32)
  {
    if n == 0 then [] else Hosts(n - 1) + [Block(n - 1, 32)]
  }

  function LinesOf(bs: seq<Cidr>): (lines: seq<string>)
    ensures |lines| == |bs|
  {
    if bs == [] then [] else LinesOf(bs[..|bs| - 1]) + [Canonical(bs[|bs| - 1])]
  }

  lemma {:induction false} CanonicalLines(bs: seq<Cidr>)
    requires forall b :: b in bs ==> b.bits >= MIN_EXCLUSION_PREFIX
    ensures forall l :: l in LinesOf(bs) ==> '\n' !in l && !EndsCR(l)
    decreases |bs|
  {
    if bs != [] {
      CanonicalLines(bs[..|bs| - 1]);
      CanonicalLine(bs[|bs| - 1]);
    }
  }

  function EntryKinds(bs: seq<Cidr>): (kinds: seq<Kind>)
    ensures |kinds| == |bs|
  {
    if bs == [] then [] else EntryKinds(bs[..|bs| - 1]) + [Entry(bs[|bs| - 1])]
  }

  lemma {:induction false} LineStep(lines: seq<string>, kinds: seq<Kind>, b: Cidr)
    requires Kinds(lines) == kinds && b.bits >= MIN_EXCLUSION_PREFIX
    ensures Kinds(lines + [Canonical(b)]) == kinds + [Entry(b)]
  {
    CanonicalLine(b);
    KindsAppend(lines, Canonical(b));
  }

  lemma {:induction false} CanonicalKinds(bs: seq<Cidr>)
    requires forall b :: b in bs ==> b.bits >= MIN_EXCLUSION_PREFIX
    ensures Kinds(LinesOf(bs)) == EntryKinds(bs)
    decreases |bs|
  {
    if bs != [] {
      var front := bs[..|bs| - 1];
      CanonicalKinds(front);
      LineStep(LinesOf(front), EntryKinds(front), bs[|bs| - 1]);
    }
  }

  lemma {:induction false} DistinctEntries(bs: seq<Cidr>)
    requires Subsequence.NoRepeats(bs)
    ensures Distinct(EntryKinds(bs)) == bs
    decreases |bs|
  {
    if bs != [] {
      var front, b := bs[..|bs| - 1], bs[|bs| - 1];
      assert bs == front + [b] && b !in front;
      DistinctEntries(front);
      DistinctAppend(EntryKinds(front), Entry(b));
    }
  }

  /** More than 512 different entries: removing the first lets the 513th in. */
  lemma {:induction false} RemovalLetsAnotherIn(n: nat)
    requires MAX_EXCLUSIONS < n <= SPACE
    ensures var text, b := JoinedText(LinesOf(Hosts(n))), Block(0, 32);
            && b in Listed(text)
            && !(forall x :: x in Listed(After(text, Removed(text, b))) <==> x in Listed(text) && x != b)
  {
    var lines, b := LinesOf(Hosts(n)), Block(0, 32);
    CanonicalLines(Hosts(n));
    CanonicalKinds(Hosts(n));
    DistinctEntries(Hosts(n));
    LongFile(lines, Hosts(n));
    RemovedListExactly(JoinedText(lines), b);
  }

  lemma {:induction false} LongFile(lines: seq<string>, bs: seq<Cidr>)
    requires |lines| > MAX_EXCLUSIONS && forall l :: l in lines ==> '\n' !in l && !EndsCR(l)
    requires Distinct(Kinds(lines)) == bs && |bs| > MAX_EXCLUSIONS
    ensures ScanLines(JoinedText(lines)) == lines && bs[0] in Listed(JoinedText(lines))
  {
    RawLinesOfJoined(lines);
    DropCRsSame(lines);
    assert RawLines(JoinedText(lines)) == lines;
    EntriesAreFirst(Kinds(lines));
    assert FirstMax(bs)[0] == bs[0];
  }
}
