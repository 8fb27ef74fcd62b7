/** internal/addons: rewriting a KEY="value" configuration file that a shell
    sources, one assignment per line, the last assignment of a key winning. */
module ShellConf {
  import opened Wrappers
  import opened Subsequence
  import opened Text

  // ---- what the shell reads ----

  predicate Escapable(c: char) {
    c == '\\' || c == '"' || c == '$' || c == '`'
  }

  /** The text after an opening double quote: its value and what follows the
      closing quote (section 2.2.3 of the POSIX Shell Command Language). None if
      the quote is never closed or an expansion starts inside it. */
  function ReadQuoted(s: string): Option<(string, string)> {
    if s == [] then None
    else if s[0] == '"' then Some(("", s[1..]))
    else if s[0] == '$' || s[0] == '`' then None
    else if s[0] == '\\' && |s| > 1 && (Escapable(s[1]) || s[1] == '\n') then
      match ReadQuoted(s[2..])
      case None => None
      case Some(r) => Some((if s[1] == '\n' then r.0 else [s[1]] + r.0, r.1))
    else
      match ReadQuoted(s[1..])
      case None => None
      case Some(r) => Some(([s[0]] + r.0, r.1))
  }

  predicate NameStart(c: char) {
    'a' <= c <= 'z' || 'A' <= c <= 'Z' || c == '_'
  }

  predicate ValidName(k: string) {
    k != [] && NameStart(k[0]) && forall i :: 0 <= i < |k| ==> NameStart(k[i]) || '0' <= k[i] <= '9'
  }

  predicate PlainChar(c: char) {
    !IsSpace(c) && !Escapable(c) && c !in "'#&;|<>()*?[]~!{}"
  }

  /** A value word: double-quoted, or plain characters; None for anything the
      shell would expand, split or interpret further. */
  function WordValue(w: string): Option<string> {
    if w != [] && w[0] == '"' then
      match ReadQuoted(w[1..])
      case Some((value, "")) => Some(value)
      case _ => None
    else if forall i :: 0 <= i < |w| ==> PlainChar(w[i]) then Some(w)
    else None
  }

  /** The key a line assigns, if it is an assignment. */
  function KeyOf(line: string): Option<string> {
    var i := IndexOf(line, '=');
    var k := TrimLeft(line[..i]);
    if i < |line| && ValidName(k) then Some(k) else None
  }

  /** A variable after sourcing: not set, set to a known value, or set to
      something only the shell can tell. */
  datatype Var = Unset | Known(value: string) | Unknown

  function Assigned(line: string): Var {
    var i := IndexOf(line, '=');
    if i == |line| then Unset
    else
      match WordValue(line[i + 1..])
      case Some(value) => Known(value)
      case None => Unknown
  }

  function ValueAfter(lines: seq<string>, k: string): Var {
    if lines == [] then Unset
    else if KeyOf(lines[|lines| - 1]) == Some(k) then Assigned(lines[|lines| - 1])
    else ValueAfter(lines[..|lines| - 1], k)
  }

  /** The value of k after sourcing a file. */
  function Sourced(text: string, k: string): Var {
    ValueAfter(Split(text, '\n'), k)
  }

  // ---- escaping ----

  function EscapeChar(c: char): string {
    if Escapable(c) then ['\\', c] else [c]
  }

  function Escaped(s: string): string {
    if s == [] then "" else EscapeChar(s[0]) + Escaped(s[1..])
  }

  /** `shellDoubleQuoteEscape`: a line break cannot be represented. */
  function DoubleQuoteEscape(s: string): Option<string> {
    if '\r' in s || '\n' in s then None else Some(Escaped(s))
  }

  /** Unquoting inverts escaping, and the value's quotes end where they should. */
  lemma {:induction false} UnquoteInvertsEscape(v: string, tail: string)
    requires '\n' !in v
    ensures ReadQuoted(Escaped(v) + ['"'] + tail) == Some((v, tail))
  {
    if v != [] {
      UnquoteInvertsEscape(v[1..], tail);
      var rest := Escaped(v[1..]) + ['"'] + tail;
      assert Escaped(v) + ['"'] + tail == EscapeChar(v[0]) + rest;
      assert v == [v[0]] + v[1..];
      ReadEscaped(v[0], rest, v[1..], tail);
    }
  }

  lemma {:induction false} ReadEscaped(c: char, rest: string, value: string, tail: string)
    requires c != '\n' && ReadQuoted(rest) == Some((value, tail))
    ensures ReadQuoted(EscapeChar(c) + rest) == Some(([c] + value, tail))
  {
    if Escapable(c) {
      assert (EscapeChar(c) + rest)[2..] == rest;
    } else {
      assert (EscapeChar(c) + rest)[1..] == rest;
    }
  }

  /** Different values are written differently. */
  lemma {:induction false} EscapeInjective(v: string, w: string)
    requires '\n' !in v && '\n' !in w && Escaped(v) == Escaped(w)
    ensures v == w
  {
    UnquoteInvertsEscape(v, "");
    UnquoteInvertsEscape(w, "");
  }

  lemma {:induction false} EscapedHasNoBreak(v: string)
    requires '\n' !in v
    ensures '\n' !in Escaped(v)
  {
    if v != [] { EscapedHasNoBreak(v[1..]); }
  }

  // ---- rewriting ----

  datatype Setting = Setting(key: string, value: string)

  /** A Go map of settings, listed in the key order `sort.Strings` gives. */
  ghost predicate IsMap(settings: seq<Setting>) {
    forall i, j :: 0 <= i < j < |settings| ==> settings[i].key != settings[j].key
  }

  /** A map whose keys a shell accepts as names. */
  ghost predicate ShellMap(settings: seq<Setting>) {
    IsMap(settings) && forall i :: 0 <= i < |settings| ==> ValidName(settings[i].key)
  }

  function Lookup(settings: seq<Setting>, k: string): Option<string> {
    if settings == [] then None
    else if settings[0].key == k then Some(settings[0].value)
    else Lookup(settings[1..], k)
  }

  predicate Writable(settings: seq<Setting>) {
    forall i :: 0 <= i < |settings| ==> DoubleQuoteEscape(settings[i].value).Some?
  }

  function Quoted(v: string): string {
    ['"'] + (Escaped(v) + ['"'])
  }

  function Line(k: string, v: string): string {
    k + (['='] + Quoted(v))
  }

  /** The key part of a line, trimmed on both sides as the rewriter does. */
  function RawKey(line: string): string {
    TrimSpace(line[..IndexOf(line, '=')])
  }

  function Rewritten(settings: seq<Setting>, line: string): string {
    if IndexOf(line, '=') < |line| && Lookup(settings, RawKey(line)).Some?
    then Line(RawKey(line), Lookup(settings, RawKey(line)).value)
    else line
  }

  predicate Replaces(settings: seq<Setting>, line: string, k: string) {
    IndexOf(line, '=') < |line| && RawKey(line) == k && Lookup(settings, k).Some?
  }

  lemma {:induction false} NameFacts(k: string)
    requires ValidName(k)
    ensures '=' !in k && '\n' !in k && TrimLeft(k) == k && TrimSpace(k) == k
  {
    assert forall i :: 0 <= i < |k| ==> k[i] != '=' && k[i] != '\n' && !IsSpace(k[i]);
    TrimOfTrimmed(k);
  }

  lemma {:induction false} LineParts(k: string, v: string)
    requires ValidName(k)
    ensures var line := Line(k, v);
            IndexOf(line, '=') == |k| && line[..|k|] == k && line[|k| + 1..] == Quoted(v)
  {
    NameFacts(k);
    EqualsParts(k, Quoted(v));
  }

  lemma {:induction false} EqualsParts(k: string, word: string)
    requires '=' !in k
    ensures var line := k + (['='] + word);
            IndexOf(line, '=') == |k| && line[..|k|] == k && line[|k| + 1..] == word
  {
    var line := k + (['='] + word);
    assert line[..|k|] == k;
    IndexOfIs(line, '=', |k|);
  }

  lemma {:induction false} QuotedWord(v: string)
    requires '\n' !in v
    ensures WordValue(Quoted(v)) == Some(v)
  {
    UnquoteInvertsEscape(v, "");
    var body := Escaped(v) + ['"'];
    assert body + "" == body && (['"'] + body)[1..] == body;
  }

  lemma {:induction false} AssignedWord(line: string, word: string, value: string)
    requires var i := IndexOf(line, '='); i < |line| && line[i + 1..] == word
    requires WordValue(word) == Some(value)
    ensures Assigned(line) == Known(value)
  {
  }

  /** A written line assigns its key exactly the value it was given. */
  lemma {:induction false} LineAssigns(k: string, v: string)
    requires ValidName(k) && DoubleQuoteEscape(v).Some?
    ensures KeyOf(Line(k, v)) == Some(k) && Assigned(Line(k, v)) == Known(v)
  {
    NameFacts(k);
    var line, word := Line(k, v), Quoted(v);
    assert IndexOf(line, '=') == |k| && line[..|k|] == k && line[|k| + 1..] == word by { LineParts(k, v); }
    assert WordValue(word) == Some(v) by { QuotedWord(v); }
    AssignedWord(line, word, v);
  }

  lemma {:induction false} LineUnbroken(k: string, v: string)
    requires ValidName(k) && DoubleQuoteEscape(v).Some?
    ensures '\n' !in Line(k, v)
  {
    NameFacts(k);
    EscapedHasNoBreak(v);
  }

  /** Whoever assigns k in shell syntax is recognised as k by the rewriter. */
  lemma {:induction false} ShellKeyIsRawKey(line: string, k: string)
    requires KeyOf(line) == Some(k)
    ensures RawKey(line) == k && IndexOf(line, '=') < |line|
  {
    NameFacts(k);
    assert k[|k| - 1] in k;
  }

  /** A rewritten line assigns its own key the new value, or is unchanged. */
  lemma {:induction false} RewriteEffect(settings: seq<Setting>, line: string, k: string)
    requires ShellMap(settings) && Writable(settings)
    ensures Lookup(settings, k).None? ==>
              (KeyOf(Rewritten(settings, line)) == Some(k) <==> KeyOf(line) == Some(k))
              && (KeyOf(line) == Some(k) ==> Rewritten(settings, line) == line)
    ensures Lookup(settings, k).Some? && KeyOf(Rewritten(settings, line)) == Some(k) ==>
              Assigned(Rewritten(settings, line)) == Known(Lookup(settings, k).value) && Replaces(settings, line, k)
    ensures Replaces(settings, line, k) ==> KeyOf(Rewritten(settings, line)) == Some(k)
    ensures '\n' !in line ==> '\n' !in Rewritten(settings, line)
  {
    var raw := RawKey(line);
    if IndexOf(line, '=') < |line| && Lookup(settings, raw).Some? {
      LookupValid(settings, raw);
      LineAssigns(raw, Lookup(settings, raw).value);
      LineUnbroken(raw, Lookup(settings, raw).value);
    }
    if KeyOf(line) == Some(k) { ShellKeyIsRawKey(line, k); }
  }

  lemma {:induction false} LookupValid(settings: seq<Setting>, k: string)
    requires ShellMap(settings) && Writable(settings) && Lookup(settings, k).Some?
    ensures ValidName(k) && DoubleQuoteEscape(Lookup(settings, k).value).Some?
  {
    if settings[0].key != k { LookupValid(settings[1..], k); }
  }

  function RewriteAll(settings: seq<Setting>, lines: seq<string>): (r: seq<string>)
    ensures |r| == |lines|
  {
    if lines == [] then []
    else RewriteAll(settings, lines[..|lines| - 1]) + [Rewritten(settings, lines[|lines| - 1])]
  }

  predicate Seen(settings: seq<Setting>, lines: seq<string>, k: string) {
    exists i :: 0 <= i < |lines| && Replaces(settings, lines[i], k)
  }

  /** The lines appended for the settings no line of the file had. */
  function Appended(all: seq<Setting>, settings: seq<Setting>, lines: seq<string>): seq<string> {
    if settings == [] then []
    else
      var front, s := Appended(all, settings[..|settings| - 1], lines), settings[|settings| - 1];
      if Seen(all, lines, s.key) then front else front + [Line(s.key, s.value)]
  }

  function NewLines(settings: seq<Setting>, lines: seq<string>): seq<string> {
    RewriteAll(settings, lines) + Appended(settings, settings, lines)
  }

  /** The key a line is rewritten for, if it is. */
  function KeysOf(settings: seq<Setting>, line: string): set<string> {
    if Replaces(settings, line, RawKey(line)) then {RawKey(line)} else {}
  }

  function SeenKeys(settings: seq<Setting>, lines: seq<string>): set<string> {
    if lines == [] then {} else SeenKeys(settings, lines[..|lines| - 1]) + KeysOf(settings, lines[|lines| - 1])
  }

  lemma {:induction false} SeenKeysAre(settings: seq<Setting>, lines: seq<string>, k: string)
    ensures k in SeenKeys(settings, lines) <==> Seen(settings, lines, k)
    decreases |lines|
  {
    if lines != [] {
      var front, line := lines[..|lines| - 1], lines[|lines| - 1];
      SeenKeysAre(settings, front, k);
      SeenConcat(settings, front, line, k);
      assert lines == front + [line];
    }
  }

  /** The new line, and the key it was rewritten for. */
  method RewriteLine(settings: seq<Setting>, line: string) returns (line': string, keys: set<string>)
    ensures line' == Rewritten(settings, line) && keys == KeysOf(settings, line)
  {
    var i := IndexOf(line, '=');
    if i == |line| || Lookup(settings, TrimSpace(line[..i])).None? {
      return line, {};
    }
    var k := TrimSpace(line[..i]);
    return Line(k, Lookup(settings, k).value), {k};
  }

  lemma {:induction false} UpdateAt(a: seq<string>, x: string, rest: seq<string>, y: string)
    ensures (a + ([x] + rest))[|a| := y] == a + [y] + rest
  {
  }

  /** The loop that rewrites `lines[i]` and notes the keys it has seen. */
  method RewriteLines(settings: seq<Setting>, given: seq<string>) returns (lines: seq<string>, seen: set<string>)
    ensures lines == RewriteAll(settings, given) && seen == SeenKeys(settings, given)
  {
    lines, seen := given, {};
    for i := 0 to |given|
      invariant lines == RewriteAll(settings, given[..i]) + given[i..]
      invariant seen == SeenKeys(settings, given[..i])
    {
      RewriteStep(settings, given, i);
      assert given[i..] == [given[i]] + given[i + 1..];
      var line, keys := RewriteLine(settings, given[i]);
      UpdateAt(RewriteAll(settings, given[..i]), given[i], given[i + 1..], line);
      lines := lines[i := line];
      seen := seen + keys;
    }
    assert given[..|given|] == given;
  }

  lemma {:induction false} RewriteStep(settings: seq<Setting>, lines: seq<string>, i: nat)
    requires i < |lines|
    ensures RewriteAll(settings, lines[..i + 1]) == RewriteAll(settings, lines[..i]) + [Rewritten(settings, lines[i])]
    ensures SeenKeys(settings, lines[..i + 1]) == SeenKeys(settings, lines[..i]) + KeysOf(settings, lines[i])
  {
    assert lines[..i + 1][..i] == lines[..i];
  }

  method AllWritable(settings: seq<Setting>) returns (ok: bool)
    ensures ok <==> Writable(settings)
  {
    for i := 0 to |settings|
      invariant forall j :: 0 <= j < i ==> DoubleQuoteEscape(settings[j].value).Some?
    {
      if DoubleQuoteEscape(settings[i].value).None? {
        return false;
      }
    }
    return true;
  }

  lemma {:induction false} WritableIs(settings: seq<Setting>)
    ensures !Writable(settings) <==>
              exists j :: 0 <= j < |settings| && ('\r' in settings[j].value || '\n' in settings[j].value)
  {
  }

  method ShellConfSet(text: string, settings: seq<Setting>) returns (out: Option<string>)
    requires IsMap(settings)
    ensures out == if Writable(settings) then Some(Join(NewLines(settings, Split(text, '\n')), '\n')) else None
    ensures out.None? <==> exists j :: 0 <= j < |settings| && ('\r' in settings[j].value || '\n' in settings[j].value)
    ensures out.Some? ==> SetsText(settings, text, out.value)
  {
    NewTextIs(settings, text);
    WritableIs(settings);
    var ok := AllWritable(settings);
    if !ok {
      return None;
    }
    var lines, seen := RewriteLines(settings, Split(text, '\n'));
    var missing := MissingLines(settings, seen, Split(text, '\n'));
    out := Some(Join(lines + missing, '\n'));
  }

  /** The loop over the keys, in order, that no line had. */
  method MissingLines(settings: seq<Setting>, seen: set<string>, ghost given: seq<string>) returns (missing: seq<string>)
    requires seen == SeenKeys(settings, given)
    ensures missing == Appended(settings, settings, given)
  {
    missing := [];
    for i := 0 to |settings|
      invariant missing == Appended(settings, settings[..i], given)
    {
      assert settings[..i + 1][..i] == settings[..i];
      SeenKeysAre(settings, given, settings[i].key);
      if settings[i].key !in seen {
        missing := missing + [Line(settings[i].key, settings[i].value)];
      }
    }
    assert settings[..|settings|] == settings;
  }

  lemma {:induction false} SeenConcat(settings: seq<Setting>, front: seq<string>, line: string, k: string)
    ensures Seen(settings, front + [line], k) <==> Seen(settings, front, k) || Replaces(settings, line, k)
  {
    var all := front + [line];
    assert all[|front|] == line && forall j :: 0 <= j < |front| ==> all[j] == front[j];
    if Seen(settings, front, k) {
      var j :| 0 <= j < |front| && Replaces(settings, front[j], k);
      assert Replaces(settings, all[j], k);
    }
    if Replaces(settings, line, k) { assert Replaces(settings, all[|front|], k); }
  }

  // ---- what the new file holds, line by line ----

  /** The line is written KEY=..., blanks around the key aside. */
  predicate Names(line: string, k: string) {
    var i := IndexOf(line, '=');
    i < |line| && TrimSpace(line[..i]) == k
  }

  /** A line of a requested key becomes its assignment; any other stays. */
  ghost predicate SetsLine(settings: seq<Setting>, line: string, after: string) {
    && (forall j :: 0 <= j < |settings| && Names(line, settings[j].key) ==>
          after == settings[j].key + "=\"" + Escaped(settings[j].value) + "\"")
    && ((forall j :: 0 <= j < |settings| ==> !Names(line, settings[j].key)) ==> after == line)
  }

  /** The settings no line names. */
  ghost function Missing(settings: seq<Setting>, lines: seq<string>): set<int> {
    set j | 0 <= j < |settings| && forall i :: 0 <= i < |lines| ==> !Names(lines[i], settings[j].key)
  }

  /** Every line in its place, then an assignment for each missing setting. */
  ghost predicate SetsLines(settings: seq<Setting>, lines: seq<string>, after: seq<string>) {
    exists missing: seq<Setting> ::
      && Picks(missing, settings, Missing(settings, lines))
      && |after| == |lines| + |missing|
      && (forall i :: 0 <= i < |lines| ==> SetsLine(settings, lines[i], after[i]))
      && forall j :: 0 <= j < |missing| ==>
           after[|lines|..][j] == missing[j].key + "=\"" + Escaped(missing[j].value) + "\""
  }

  ghost predicate SetsText(settings: seq<Setting>, text: string, after: string) {
    exists lines :: SetsLines(settings, Split(text, '\n'), lines) && after == Join(lines, '\n')
  }

  lemma {:induction false} NewTextIs(settings: seq<Setting>, text: string)
    requires IsMap(settings)
    ensures SetsText(settings, text, Join(NewLines(settings, Split(text, '\n')), '\n'))
  {
    NewLinesAre(settings, Split(text, '\n'));
  }

  lemma {:induction false} LineIs(k: string, v: string)
    ensures Line(k, v) == k + "=\"" + Escaped(v) + "\""
  {
    assert "=\"" == ['='] + ['"'] && ['"'] == "\"";
  }

  lemma {:induction false} LookupIs(settings: seq<Setting>, k: string, j: nat)
    requires IsMap(settings) && j < |settings| && settings[j].key == k
    ensures Lookup(settings, k) == Some(settings[j].value)
  {
    if j > 0 {
      assert settings[0].key != k;
      LookupIs(settings[1..], k, j - 1);
    }
  }

  lemma {:induction false} LookupFinds(settings: seq<Setting>, k: string)
    requires Lookup(settings, k).Some?
    ensures exists j :: 0 <= j < |settings| && settings[j].key == k
  {
    if settings[0].key != k {
      LookupFinds(settings[1..], k);
      var j :| 0 <= j < |settings[1..]| && settings[1..][j].key == k;
      assert settings[j + 1].key == k;
    }
  }

  lemma {:induction false} RewrittenIs(settings: seq<Setting>, line: string)
    requires IsMap(settings)
    ensures SetsLine(settings, line, Rewritten(settings, line))
  {
    var k := RawKey(line);
    forall j | 0 <= j < |settings| && Names(line, settings[j].key)
      ensures Rewritten(settings, line) == settings[j].key + "=\"" + Escaped(settings[j].value) + "\""
    {
      LookupIs(settings, k, j);
      LineIs(k, settings[j].value);
    }
    if (forall j :: 0 <= j < |settings| ==> !Names(line, settings[j].key)) && Lookup(settings, k).Some? {
      LookupFinds(settings, k);
    }
  }

  lemma {:induction false} RewriteAllAt(settings: seq<Setting>, lines: seq<string>, i: nat)
    requires i < |lines|
    ensures RewriteAll(settings, lines)[i] == Rewritten(settings, lines[i])
    decreases |lines|
  {
    if i < |lines| - 1 { RewriteAllAt(settings, lines[..|lines| - 1], i); }
  }

  lemma {:induction false} SeenIfNamed(settings: seq<Setting>, lines: seq<string>, j: nat)
    requires IsMap(settings) && j < |settings|
    ensures j in Missing(settings, lines) <==> !Seen(settings, lines, settings[j].key)
  {
    LookupIs(settings, settings[j].key, j);
    forall i | 0 <= i < |lines|
      ensures Replaces(settings, lines[i], settings[j].key) <==> Names(lines[i], settings[j].key) {}
  }

  ghost predicate WrittenAs(added: seq<string>, missing: seq<Setting>) {
    |added| == |missing| && forall j :: 0 <= j < |missing| ==> added[j] == Line(missing[j].key, missing[j].value)
  }

  lemma {:induction false} WrittenNext(added: seq<string>, missing: seq<Setting>, s: Setting)
    requires WrittenAs(added, missing)
    ensures WrittenAs(added + [Line(s.key, s.value)], missing + [s])
  {
  }

  /** The settings behind the appended lines. */
  lemma {:induction false} AppendedAre(all: seq<Setting>, n: nat, lines: seq<string>, gone: set<int>)
    returns (missing: seq<Setting>)
    requires n <= |all| && forall j :: 0 <= j < |all| ==> (j in gone <==> !Seen(all, lines, all[j].key))
    ensures Picks(missing, all[..n], set j | 0 <= j < n && j in gone)
    ensures WrittenAs(Appended(all, all[..n], lines), missing)
  {
    if n == 0 {
      missing := [];
      PicksNone<Setting>();
      assert (set j | 0 <= j < n && j in gone) == {};
    } else {
      var front := AppendedAre(all, n - 1, lines, gone);
      AppendedStep(all, n - 1, lines, n - 1 in gone);
      PicksNext(front, all, n - 1, gone);
      WrittenNext(Appended(all, all[..n - 1], lines), front, all[n - 1]);
      missing := if n - 1 in gone then front + [all[n - 1]] else front;
    }
  }

  lemma {:induction false} AppendedStep(all: seq<Setting>, n: nat, lines: seq<string>, gone: bool)
    requires n < |all| && (gone <==> !Seen(all, lines, all[n].key))
    ensures Appended(all, all[..n + 1], lines)
         == if gone then Appended(all, all[..n], lines) + [Line(all[n].key, all[n].value)]
            else Appended(all, all[..n], lines)
  {
    assert all[..n + 1][..n] == all[..n];
  }

  lemma {:induction false} NewLinesAre(settings: seq<Setting>, lines: seq<string>)
    requires IsMap(settings)
    ensures SetsLines(settings, lines, NewLines(settings, lines))
  {
    forall j: nat | j < |settings| ensures j in Missing(settings, lines) <==> !Seen(settings, lines, settings[j].key) {
      SeenIfNamed(settings, lines, j);
    }
    var missing := AppendedAre(settings, |settings|, lines, Missing(settings, lines));
    assert settings[..|settings|] == settings;
    assert (set j | 0 <= j < |settings| && j in Missing(settings, lines)) == Missing(settings, lines);
    var after, front := NewLines(settings, lines), RewriteAll(settings, lines);
    assert after[|lines|..] == Appended(settings, settings, lines);
    forall i: nat | i < |lines| ensures SetsLine(settings, lines[i], after[i]) {
      RewriteAllAt(settings, lines, i);
      RewrittenIs(settings, lines[i]);
    }
    forall j | 0 <= j < |missing|
      ensures after[|lines|..][j] == missing[j].key + "=\"" + Escaped(missing[j].value) + "\""
    {
      LineIs(missing[j].key, missing[j].value);
    }
  }

  // ---- what sourcing the new file gives ----

  lemma {:induction false} RewriteOthers(settings: seq<Setting>, lines: seq<string>, k: string)
    requires ShellMap(settings) && Writable(settings) && Lookup(settings, k).None?
    ensures ValueAfter(RewriteAll(settings, lines), k) == ValueAfter(lines, k)
    decreases |lines|
  {
    if lines != [] {
      RewriteOthers(settings, lines[..|lines| - 1], k);
      RewriteEffect(settings, lines[|lines| - 1], k);
    }
  }

  lemma {:induction false} RewriteOwn(settings: seq<Setting>, lines: seq<string>, k: string)
    requires ShellMap(settings) && Writable(settings) && Lookup(settings, k).Some?
    requires Seen(settings, lines, k)
    ensures ValueAfter(RewriteAll(settings, lines), k) == Known(Lookup(settings, k).value)
    decreases |lines|
  {
    var front, line := lines[..|lines| - 1], lines[|lines| - 1];
    assert lines == front + [line];
    SeenConcat(settings, front, line, k);
    RewriteEffect(settings, line, k);
    ValueAfterLast(RewriteAll(settings, front), Rewritten(settings, line), k);
    if !Replaces(settings, line, k) { RewriteOwn(settings, front, k); }
  }

  lemma {:induction false} ValueAfterLast(a: seq<string>, line: string, k: string)
    ensures ValueAfter(a + [line], k) == if KeyOf(line) == Some(k) then Assigned(line) else ValueAfter(a, k)
  {
    assert (a + [line])[..|a|] == a;
  }

  lemma {:induction false} MapPrefix(settings: seq<Setting>, n: nat)
    requires ShellMap(settings) && Writable(settings) && n < |settings|
    ensures ShellMap(settings[..n]) && Writable(settings[..n])
    ensures ValidName(settings[n].key) && DoubleQuoteEscape(settings[n].value).Some?
  {
  }

  lemma {:induction false} AppendedValue(all: seq<Setting>, settings: seq<Setting>, lines: seq<string>,
                                         before: seq<string>, k: string)
    requires ShellMap(settings) && Writable(settings)
    ensures ValueAfter(before + Appended(all, settings, lines), k)
              == if Lookup(settings, k).Some? && !Seen(all, lines, k) then Known(Lookup(settings, k).value)
                 else ValueAfter(before, k)
    decreases |settings|
  {
    if settings == [] {
      assert before + [] == before;
    } else {
      var n := |settings| - 1;
      var s := settings[n];
      MapPrefix(settings, n);
      AppendedValue(all, settings[..n], lines, before, k);
      LookupLast(settings, k);
      if !Seen(all, lines, s.key) {
        var front := Appended(all, settings[..n], lines);
        AppendedLast(before, front, s, k);
      }
    }
  }

  lemma {:induction false} AppendedLast(before: seq<string>, front: seq<string>, s: Setting, k: string)
    requires ValidName(s.key) && DoubleQuoteEscape(s.value).Some?
    ensures ValueAfter(before + (front + [Line(s.key, s.value)]), k)
              == if s.key == k then Known(s.value) else ValueAfter(before + front, k)
  {
    LineAssigns(s.key, s.value);
    ValueAfterLast(before + front, Line(s.key, s.value), k);
    assert before + (front + [Line(s.key, s.value)]) == before + front + [Line(s.key, s.value)];
  }

  lemma {:induction false} LookupLast(settings: seq<Setting>, k: string)
    requires ShellMap(settings) && settings != []
    ensures var n := |settings| - 1;
            Lookup(settings, k) == if settings[n].key == k then Some(settings[n].value) else Lookup(settings[..n], k)
    decreases |settings|
  {
    if |settings| > 1 {
      LookupLast(settings[1..], k);
      assert settings[1..][..|settings| - 2] == settings[..|settings| - 1][1..];
    }
  }

  lemma {:induction false} NewLinesUnbroken(settings: seq<Setting>, lines: seq<string>)
    requires ShellMap(settings) && Writable(settings) && forall l :: l in lines ==> '\n' !in l
    ensures forall l :: l in NewLines(settings, lines) ==> '\n' !in l
  {
    RewrittenUnbroken(settings, lines);
    AppendedUnbroken(settings, settings, lines);
  }

  lemma {:induction false} RewrittenUnbroken(settings: seq<Setting>, lines: seq<string>)
    requires ShellMap(settings) && Writable(settings) && forall l :: l in lines ==> '\n' !in l
    ensures forall l :: l in RewriteAll(settings, lines) ==> '\n' !in l
    decreases |lines|
  {
    if lines != [] {
      RewrittenUnbroken(settings, lines[..|lines| - 1]);
      RewriteEffect(settings, lines[|lines| - 1], "");
    }
  }

  lemma {:induction false} AppendedUnbroken(all: seq<Setting>, settings: seq<Setting>, lines: seq<string>)
    requires ShellMap(settings) && Writable(settings)
    ensures forall l :: l in Appended(all, settings, lines) ==> '\n' !in l
    decreases |settings|
  {
    if settings != [] {
      var s := settings[|settings| - 1];
      MapPrefix(settings, |settings| - 1);
      AppendedUnbroken(all, settings[..|settings| - 1], lines);
      LineUnbroken(s.key, s.value);
    }
  }

  /** Sourcing the new file gives every requested key exactly its value and
      every other key what the old file gave it. */
  lemma {:induction false} SourcedAfterSet(text: string, settings: seq<Setting>, k: string)
    requires ShellMap(settings) && Writable(settings)
    ensures Sourced(Join(NewLines(settings, Split(text, '\n')), '\n'), k)
              == if Lookup(settings, k).Some? then Known(Lookup(settings, k).value) else Sourced(text, k)
  {
    var lines := Split(text, '\n');
    NewLinesUnbroken(settings, lines);
    SplitOfJoin(NewLines(settings, lines), '\n');
    AppendedValue(settings, settings, lines, RewriteAll(settings, lines), k);
    if Lookup(settings, k).None? {
      RewriteOthers(settings, lines, k);
    } else if Seen(settings, lines, k) {
      RewriteOwn(settings, lines, k);
    }
  }

  /** Lines of keys that are not being set stay as they are, in place. */
  lemma {:induction false} OtherLinesVerbatim(settings: seq<Setting>, lines: seq<string>, i: nat)
    requires i < |lines|
    requires IndexOf(lines[i], '=') < |lines[i]| ==> Lookup(settings, RawKey(lines[i])).None?
    ensures NewLines(settings, lines)[i] == lines[i]
    decreases |lines|
  {
    if i < |lines| - 1 { OtherLinesVerbatim(settings, lines[..|lines| - 1], i); }
  }
}
