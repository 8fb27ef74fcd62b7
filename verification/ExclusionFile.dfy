/** internal/adaptiveroute: reading and editing the never-route file. */
module ExclusionFile {
  import opened Wrappers
  import opened Text
  import opened Blocks
  import opened DottedQuad
  import opened ExclusionList
  import opened Subsequence

  // ---- lines ----

  function DropCR(line: string): string {
    if line != [] && line[|line| - 1] == '\r' then line[..|line| - 1] else line
  }

  function DropCRs(lines: seq<string>): (r: seq<string>)
    ensures |r| == |lines|
  {
    if lines == [] then [] else DropCRs(lines[..|lines| - 1]) + [DropCR(lines[|lines| - 1])]
  }

  /** The newline-terminated lines of a text, and an unfinished last one. */
  function RawLines(text: string): seq<string> {
    var parts := Split(text, '\n');
    if parts[|parts| - 1] == "" then parts[..|parts| - 1] else parts
  }

  /** What `bufio.ScanLines` delivers. */
  function ScanLines(text: string): seq<string> {
    DropCRs(RawLines(text))
  }

  // ---- entries ----

  /** `NormalizeExclusion`, up to the spelling `Canonical` gives the network. */
  function Normalize(s: string): Option<Cidr> {
    match ParseEntry(TrimSpace(s))
    case Some(b) => if b.bits < MIN_EXCLUSION_PREFIX then None else Some(b)
    case None => None
  }

  datatype Kind = Blank | Bad | Entry(block: Cidr)

  function Bare(line: string): string {
    line[..IndexOf(line, '#')]
  }

  function Classify(line: string): Kind {
    if TrimSpace(Bare(line)) == "" then Blank
    else
      match Normalize(Bare(line))
      case Some(b) => Entry(b)
      case None => Bad
  }

  /** A line is blanks, an entry, blanks and a comment; an entry wider than /8 is bad. */
  lemma {:induction false} ClassifyIs(line: string, pre: string, s: string, post: string, comment: string)
    requires line == pre + s + post + comment && AllSpace(pre) && Trimmed(s) && AllSpace(post)
    requires '#' !in pre + s + post && (comment == "" || comment[0] == '#')
    ensures Classify(line) == if s == "" then Blank
                              else if ParseEntry(s).Some? && ParseEntry(s).value.bits >= 8 then Entry(ParseEntry(s).value)
                              else Bad
  {
    var front := pre + s + post;
    assert line == front + comment && line[..|front|] == front;
    IndexOfIs(line, '#', |front|);
    TrimSpaceIs(pre, s, post);
    TrimOfTrimmed(s);
    ClassifyBare(line, s);
  }

  lemma {:induction false} ClassifyBare(line: string, s: string)
    requires TrimSpace(Bare(line)) == s
    ensures Classify(line) == if s == "" then Blank
                              else if ParseEntry(s).Some? && ParseEntry(s).value.bits >= 8 then Entry(ParseEntry(s).value)
                              else Bad
  {
  }

  function Kinds(lines: seq<string>): (r: seq<Kind>)
    ensures |r| == |lines|
  {
    if lines == [] then [] else Kinds(lines[..|lines| - 1]) + [Classify(lines[|lines| - 1])]
  }

  lemma {:induction false} KindAt(lines: seq<string>, i: nat)
    requires i < |lines|
    ensures Kinds(lines)[i] == Classify(lines[i])
    decreases |lines|
  {
    if i < |lines| - 1 { KindAt(lines[..|lines| - 1], i); }
  }

  /** The first 512 different entries, in file order. */
  function Entries(kinds: seq<Kind>): seq<Cidr> {
    if kinds == [] then []
    else
      var front, k := Entries(kinds[..|kinds| - 1]), kinds[|kinds| - 1];
      if k.Entry? then Noted(front, k.block) else front
  }

  function Noted(nets: seq<Cidr>, b: Cidr): seq<Cidr> {
    if b !in nets && |nets| < MAX_EXCLUSIONS then nets + [b] else nets
  }

  function Skipped(kinds: seq<Kind>): nat {
    if kinds == [] then 0 else Skipped(kinds[..|kinds| - 1]) + if kinds[|kinds| - 1].Bad? then 1 else 0
  }

  lemma {:induction false} SkippedIs(kinds: seq<Kind>)
    ensures Skipped(kinds) == |set i | 0 <= i < |kinds| && kinds[i].Bad?|
  {
    if kinds != [] {
      var front, k := kinds[..|kinds| - 1], kinds[|kinds| - 1];
      SkippedIs(front);
      assert kinds == front + [k];
      BadStep(front, k);
    }
  }

  lemma {:induction false} BadStep(kinds: seq<Kind>, k: Kind)
    ensures (set i | 0 <= i < |kinds + [k]| && (kinds + [k])[i].Bad?)
         == (set i | 0 <= i < |kinds| && kinds[i].Bad?) + if k.Bad? then {|kinds|} else {}
  {
  }

  /** The list a file stands for. */
  function Listed(text: string): seq<Cidr> {
    Entries(Kinds(ScanLines(text)))
  }

  /** The lines that are not the entry b. */
  function Without(lines: seq<string>, kinds: seq<Kind>, b: Cidr): seq<string>
    requires |kinds| == |lines|
  {
    if lines == [] then []
    else
      var n := |lines| - 1;
      var front := Without(lines[..n], kinds[..n], b);
      if kinds[n] == Entry(b) then front else front + [lines[n]]
  }

  lemma {:induction false} WithoutStep(lines: seq<string>, kinds: seq<Kind>, b: Cidr, i: nat)
    requires |kinds| == |lines| && i < |lines|
    ensures Without(lines[..i + 1], kinds[..i + 1], b)
              == if kinds[i] == Entry(b) then Without(lines[..i], kinds[..i], b)
                 else Without(lines[..i], kinds[..i], b) + [lines[i]]
  {
    assert lines[..i + 1][..i] == lines[..i] && kinds[..i + 1][..i] == kinds[..i];
  }

  /** Every line that is not the entry stays in its place. */
  lemma {:induction false} WithoutPicks(lines: seq<string>, kinds: seq<Kind>, b: Cidr)
    requires |kinds| == |lines|
    ensures Picks(Without(lines, kinds, b), lines, set i | 0 <= i < |lines| && kinds[i] != Entry(b))
  {
    var others := set i | 0 <= i < |lines| && kinds[i] != Entry(b);
    var f := (n: nat) => if n <= |lines| then Without(lines[..n], kinds[..n], b) else [];
    forall k: nat | k < |lines| ensures PickStep(f, lines, others, k) { WithoutStep(lines, kinds, b, k); }
    PicksBySteps(f, lines, others);
    assert lines[..|lines|] == lines && kinds[..|lines|] == kinds;
  }

  function Remaining(text: string, b: Cidr): seq<string> {
    Without(ScanLines(text), Kinds(ScanLines(text)), b)
  }

  /** `withMask`, and the network it denotes once parsed again. */
  function MaskedText(canon: string): string {
    if '/' in canon then canon else canon + ['/', '3', '2']
  }

  lemma {:induction false} MaskedIsWithMask(b: Cidr)
    ensures MaskedText(Canonical(b)) == WithMask(b)
  {
    if b.bits == 32 {
      QuadChars(b.base);
      ThirtyTwo();
    } else {
      assert WithMask(b)[|FormatQuad(b.base)|] == '/';
    }
  }

  lemma {:induction false} ThirtyTwo()
    ensures Decimal.Digits(32) == "32"
  {
  }

  lemma {:induction false} MaskedTextParses(b: Cidr)
    ensures ParseCIDR(MaskedText(Canonical(b))) == Some(b)
  {
    MaskedIsWithMask(b);
    CidrRoundTrip(b);
  }

  method ClassifyLine(lines: seq<string>, i: nat, ghost kinds: seq<Kind>) returns (k: Kind)
    requires i < |lines| && kinds == Kinds(lines)
    ensures k == kinds[i]
  {
    KindAt(lines, i);
    k := Classify(lines[i]);
  }

  /** The canonical text of an entry and the network that text parses to. */
  method CanonicalNet(b: Cidr) returns (canon: string, net: Cidr)
    ensures canon == Canonical(b) && net == b
  {
    canon := Canonical(b);
    MaskedTextParses(b);
    net := ParseCIDR(MaskedText(canon)).value;
  }

  ghost predicate Spelled(entries: seq<string>, nets: seq<Cidr>) {
    |entries| == |nets| && forall i :: 0 <= i < |nets| ==> entries[i] == Canonical(nets[i])
  }

  lemma {:induction false} SeenCanonical(entries: seq<string>, nets: seq<Cidr>, b: Cidr)
    requires Spelled(entries, nets)
    ensures Canonical(b) in entries <==> b in nets
  {
    if Canonical(b) in entries {
      var i :| 0 <= i < |entries| && entries[i] == Canonical(b);
      CanonicalInjective(nets[i], b);
    }
    if b in nets {
      var i :| 0 <= i < |nets| && nets[i] == b;
      assert entries[i] == Canonical(b);
    }
  }

  /** Keeps an entry unless it was seen or the list is full. */
  method NoteEntry(entries: seq<string>, nets: seq<Cidr>, b: Cidr) returns (entries': seq<string>, nets': seq<Cidr>)
    requires Spelled(entries, nets)
    ensures Spelled(entries', nets')
    ensures nets' == Noted(nets, b)
  {
    var canon, net := CanonicalNet(b);
    SeenCanonical(entries, nets, b);
    if canon in entries || |entries| >= MAX_EXCLUSIONS {
      return entries, nets;
    }
    entries', nets' := entries + [canon], nets + [net];
  }

  lemma {:induction false} KindsStep(kinds: seq<Kind>, i: nat)
    requires i < |kinds|
    ensures Skipped(kinds[..i + 1]) == Skipped(kinds[..i]) + if kinds[i].Bad? then 1 else 0
    ensures Entries(kinds[..i + 1])
              == if kinds[i].Entry? then Noted(Entries(kinds[..i]), kinds[i].block) else Entries(kinds[..i])
  {
    assert kinds[..i + 1][..i] == kinds[..i];
  }

  /** The loop over the lines. */
  method CollectEntries(lines: seq<string>, ghost kinds: seq<Kind>)
      returns (entries: seq<string>, nets: seq<Cidr>, skipped: nat)
    requires kinds == Kinds(lines)
    ensures nets == Entries(kinds) && skipped == Skipped(kinds)
    ensures Spelled(entries, nets)
  {
    entries, nets, skipped := [], [], 0;
    for i := 0 to |lines|
      invariant nets == Entries(kinds[..i]) && skipped == Skipped(kinds[..i])
      invariant Spelled(entries, nets)
    {
      KindsStep(kinds, i);
      var k := ClassifyLine(lines, i, kinds);
      if k == Blank {
        continue;
      }
      if k == Bad {
        skipped := skipped + 1;
        continue;
      }
      entries, nets := NoteEntry(entries, nets, k.block);
    }
    assert kinds[..|lines|] == kinds;
  }

  /** `parseExclusions` before it sorts the entries for display. */
  method ParseExclusions(text: string) returns (entries: seq<string>, nets: seq<Cidr>, skipped: nat)
    ensures nets == Listed(text) && skipped == Skipped(Kinds(ScanLines(text)))
    ensures Spelled(entries, nets)
  {
    var lines := ScanLines(text);
    entries, nets, skipped := CollectEntries(lines, Kinds(lines));
  }

  // ---- the two edits ----

  datatype Edit = Invalid | Full | Same(entry: Cidr) | Written(entry: Cidr, text: string)

  function Contents(file: Option<string>): string {
    if file.Some? then file.value else ""
  }

  function WithNewline(text: string): string {
    if text != "" && text[|text| - 1] != '\n' then text + ['\n'] else text
  }

  function AddedText(text: string, b: Cidr): string {
    WithNewline(text) + (Canonical(b) + ['\n'])
  }

  function JoinedText(lines: seq<string>): string {
    var text := Join(lines, '\n');
    if text != "" then text + ['\n'] else text
  }

  function Added(text: string, b: Cidr): Edit {
    if b in Listed(text) then Same(b)
    else if |Listed(text)| >= MAX_EXCLUSIONS then Full
    else Written(b, AddedText(text, b))
  }

  function Removed(text: string, b: Cidr): Edit {
    if Remaining(text, b) == ScanLines(text) then Same(b) else Written(b, JoinedText(Remaining(text, b)))
  }

  /** What AddExclusion does with an acceptable entry: it is there already, the
      list is full, or it becomes the last line, on a line of its own. */
  ghost predicate AddsLine(text: string, b: Cidr, r: Edit) {
    if b in Listed(text) then r == Same(b)
    else if |Listed(text)| >= 512 then r == Full
    else
      var open := text != "" && text[|text| - 1] != '\n';
      r == Written(b, if open then text + "\n" + Canonical(b) + "\n" else text + Canonical(b) + "\n")
  }

  lemma {:induction false} AddedIs(text: string, b: Cidr)
    ensures AddsLine(text, b, Added(text, b))
  {
    AddedTextIs(text, Canonical(b));
  }

  lemma {:induction false} AddedTextIs(text: string, line: string)
    ensures WithNewline(text) + (line + ['\n'])
         == if text != "" && text[|text| - 1] != '\n' then text + "\n" + line + "\n" else text + line + "\n"
  {
    assert ['\n'] == "\n";
  }

  /** What RemoveExclusion does: the lines that are not the entry are written
      back, and nothing is written when there is no such line. */
  ghost predicate RemovesLines(text: string, b: Cidr, r: Edit) {
    var lines := ScanLines(text);
    exists out :: && Picks(out, lines, set i | 0 <= i < |lines| && Classify(lines[i]) != Entry(b))
                  && r == if |out| == |lines| then Same(b)
                          else Written(b, if Join(out, '\n') == "" then "" else Join(out, '\n') + "\n")
  }

  lemma {:induction false} RemovedIs(text: string, b: Cidr)
    ensures RemovesLines(text, b, Removed(text, b))
  {
    var lines := ScanLines(text);
    var kinds, out := Kinds(lines), Remaining(text, b);
    WithoutPicks(lines, kinds, b);
    forall i: nat | i < |lines| ensures kinds[i] == Classify(lines[i]) { KindAt(lines, i); }
    assert (set i | 0 <= i < |lines| && kinds[i] != Entry(b)) == (set i | 0 <= i < |lines| && Classify(lines[i]) != Entry(b));
    WithoutAll(lines, kinds, b);
    assert ['\n'] == "\n";
  }

  /** The entries acceptable to both edits. */
  lemma {:induction false} NormalizeIs(entry: string, b: Cidr)
    ensures Normalize(entry) == Some(b) <==> ParseEntry(TrimSpace(entry)) == Some(b) && b.bits >= 8
  {
  }

  /** The file after an edit. */
  function After(text: string, e: Edit): string {
    if e.Written? then e.text else text
  }

  method AddNormalized(file: Option<string>, b: Cidr) returns (r: Edit)
    ensures r == Added(Contents(file), b)
  {
    var text := if file.Some? then file.value else "";
    var entries, nets, _ := ParseExclusions(text);
    var canonical := Canonical(b);
    SeenCanonical(entries, nets, b);
    if canonical in entries {
      return Same(b);
    }
    if |entries| >= MAX_EXCLUSIONS {
      return Full;
    }
    if text != "" && text[|text| - 1] != '\n' {
      text := text + ['\n'];
    }
    text := text + (canonical + ['\n']);
    r := Written(b, text);
  }

  /** `AddExclusion`; a missing file reads as an empty one. */
  method AddExclusion(file: Option<string>, entry: string) returns (r: Edit)
    ensures r == match Normalize(entry) { case None => Invalid case Some(b) => Added(Contents(file), b) }
    ensures var b := ParseEntry(TrimSpace(entry));
            if b.None? || b.value.bits < 8 then r == Invalid
            else AddsLine(if file.Some? then file.value else "", b.value, r)
  {
    var b := Normalize(entry);
    if b.None? {
      return Invalid;
    }
    r := AddNormalized(file, b.value);
    AddedIs(Contents(file), b.value);
  }

  lemma {:induction false} EmptyIsNoEntry()
    ensures ParseEntry("").None?
  {
    SplitNone("", '.');
  }

  /** The remover's own test; a blank line is not an address, so it agrees with
      the reader's. */
  method NamesEntry(lines: seq<string>, i: nat, b: Cidr, ghost kinds: seq<Kind>) returns (r: bool)
    requires i < |lines| && kinds == Kinds(lines)
    ensures r <==> kinds[i] == Entry(b)
  {
    KindAt(lines, i);
    EmptyIsNoEntry();
    r := Normalize(Bare(lines[i])) == Some(b);
  }

  lemma {:induction false} WithoutAll(lines: seq<string>, kinds: seq<Kind>, b: Cidr)
    requires |kinds| == |lines|
    ensures |Without(lines, kinds, b)| <= |lines|
    ensures |Without(lines, kinds, b)| == |lines| <==> Without(lines, kinds, b) == lines
    decreases |lines|
  {
    if lines != [] {
      var n := |lines| - 1;
      WithoutAll(lines[..n], kinds[..n], b);
      assert lines == lines[..n] + [lines[n]];
    }
  }

  method FilterLines(lines: seq<string>, b: Cidr, ghost kinds: seq<Kind>) returns (out: seq<string>, removed: bool)
    requires kinds == Kinds(lines)
    ensures out == Without(lines, kinds, b) && (removed <==> |out| < |lines|)
  {
    out, removed := [], false;
    for i := 0 to |lines|
      invariant out == Without(lines[..i], kinds[..i], b)
      invariant |out| <= i && (removed <==> |out| < i)
    {
      WithoutStep(lines, kinds, b, i);
      var named := NamesEntry(lines, i, b, kinds);
      if named {
        removed := true;
        continue;
      }
      out := out + [lines[i]];
    }
    assert lines[..|lines|] == lines && kinds[..|lines|] == kinds;
  }

  method RemoveNormalized(text: string, b: Cidr) returns (r: Edit)
    ensures r == Removed(text, b)
  {
    var lines := ScanLines(text);
    ghost var kinds := Kinds(lines);
    var out, removed := FilterLines(lines, b, kinds);
    WithoutAll(lines, kinds, b);
    if !removed {
      return Same(b);
    }
    r := Written(b, JoinedText(out));
  }

  /** `RemoveExclusion`. */
  method RemoveExclusion(file: Option<string>, entry: string) returns (r: Edit)
    ensures r == match Normalize(entry) { case None => Invalid case Some(b) => Removed(Contents(file), b) }
    ensures var b := ParseEntry(TrimSpace(entry));
            if b.None? || b.value.bits < 8 then r == Invalid
            else RemovesLines(if file.Some? then file.value else "", b.value, r)
  {
    var b := Normalize(entry);
    if b.None? {
      return Invalid;
    }
    RemovedIs(Contents(file), b.value);
    if file.None? {
      NothingToRemove(b.value);
      return Same(b.value);
    }
    r := RemoveNormalized(file.value, b.value);
  }

  lemma {:induction false} NothingToRemove(b: Cidr)
    ensures Removed("", b) == Same(b)
  {
    SplitNone("", '\n');
    assert RawLines("") == [];
  }
}
