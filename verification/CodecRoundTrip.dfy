/** What the bot's parser makes of what the router's printer wrote. */
module CodecRoundTrip {
  import opened Folds
  import opened Wrappers
  import opened Text
  import opened Decimal
  import opened Subsequence
  import opened AdaptiveCodec

  // ---- records survive the trip through lines ----

  predicate CleanField(s: string) {
    '\t' !in s && '\n' !in s && '\r' !in s
  }

  /** Fields without separators, at least one of them not blank. */
  ghost predicate Clean(f: Record) {
    && (forall s :: s in f ==> CleanField(s))
    && (exists s, c :: s in f && c in s && !IsSpace(c))
  }

  lemma {:induction false} JoinExcludes(parts: seq<string>, c: char, x: char)
    requires x != c && forall p :: p in parts ==> x !in p
    ensures x !in Join(parts, c)
    decreases |parts|
  {
    if |parts| > 1 {
      assert parts == [parts[0]] + parts[1..];
      JoinExcludes(parts[1..], c, x);
    }
  }

  lemma {:induction false} JoinIncludes(parts: seq<string>, c: char, s: string, x: char)
    requires s in parts && x in s
    ensures x in Join(parts, c)
    decreases |parts|
  {
    if |parts| > 1 {
      assert parts == [parts[0]] + parts[1..];
      if s != parts[0] { JoinIncludes(parts[1..], c, s, x); }
    }
  }

  lemma {:induction false} TrimLeftKeeps(s: string, x: char)
    requires x in s && !IsSpace(x)
    ensures x in TrimLeft(s)
  {
    if IsSpace(s[0]) {
      assert s == [s[0]] + s[1..];
      TrimLeftKeeps(s[1..], x);
    }
  }

  lemma {:induction false} TrimKeeps(s: string, x: char)
    requires x in s && !IsSpace(x)
    ensures TrimSpace(s) != ""
  {
    TrimLeftKeeps(s, x);
    TrimLeftStart(s);
    TrimRightEnd(TrimLeft(s));
  }

  lemma {:induction false} TrimCRsNone(line: string)
    requires '\r' !in line
    ensures TrimCRs(line) == line
  {
  }

  /** A clean record reads back as its fields. */
  lemma {:induction false} ParseJoined(d: Data, f: Record)
    requires Clean(f)
    ensures ParseLine(d, Join(f, '\t')) == ParseFields(d, f)
    ensures '\n' !in Join(f, '\t')
  {
    JoinExcludes(f, '\t', '\r');
    JoinExcludes(f, '\t', '\n');
    TrimCRsNone(Join(f, '\t'));
    var s, c :| s in f && c in s && !IsSpace(c);
    JoinIncludes(f, '\t', s, c);
    TrimKeeps(Join(f, '\t'), c);
    SplitOfJoin(f, '\t');
  }

  ghost predicate AllClean(records: seq<Record>) {
    forall r :: r in records ==> Clean(r)
  }

  function Joined(r: Record): string {
    Join(r, '\t')
  }

  lemma {:induction false} SplitOfLines(records: seq<Record>)
    requires AllClean(records)
    ensures Split(Lines(records), '\n') == Map(Joined, records) + [""]
    decreases |records|
  {
    if records == [] {
      SplitNone("", '\n');
    } else {
      var front, r := records[..|records| - 1], records[|records| - 1];
      SplitOfLines(front);
      ParseJoined(NO_DATA, r);
      SplitOfLine(Lines(front), Joined(r), Map(Joined, front));
    }
  }

  lemma {:induction false} SplitOfLine(text: string, line: string, lines: seq<string>)
    requires Split(text, '\n') == lines + [""] && '\n' !in line
    ensures Split(text + (line + ['\n']), '\n') == lines + [line] + [""]
  {
    SplitExtend(text, '\n', line);
    assert (lines + [""])[..|lines|] == lines && "" + line == line;
    SplitConcat(text + line, "", '\n');
    SplitNone("", '\n');
    assert text + line + (['\n'] + "") == text + (line + ['\n']);
  }

  /** Parsing the printed lines is folding over the printed records. */
  lemma {:induction false} ParsePrinted(records: seq<Record>)
    requires AllClean(records)
    ensures ParseLines(Split(Lines(records), '\n')) == Fold(ParseFields, NO_DATA, records)
  {
    SplitOfLines(records);
    forall d, r | r in records ensures ParseLine(d, Joined(r)) == ParseFields(d, r) { ParseJoined(d, r); }
    FoldOfMap(ParseLine, ParseFields, Joined, NO_DATA, records);
    FoldAppend(ParseLine, NO_DATA, Map(Joined, records), "");
  }

  // ---- every printed record is clean ----

  lemma {:induction false} NumberIsClean(n: int)
    ensures CleanField(FormatInt(n)) && exists c :: c in FormatInt(n) && !IsSpace(c)
  {
    FormatIsPlain(n);
    assert FormatInt(n)[0] in FormatInt(n);
  }

  lemma {:induction false} TsvIsClean(s: string)
    ensures CleanField(TsvField(s))
  {
  }

  lemma {:induction false} CleanRecord(f: Record, n: int)
    requires FormatInt(n) in f && forall s :: s in f ==> CleanField(s)
    ensures Clean(f)
  {
    NumberIsClean(n);
    var c :| c in FormatInt(n) && !IsSpace(c);
  }

  lemma {:induction false} RowIsClean(e: Entry)
    ensures Clean(RowFields(e))
  {
    var n := if e.known then e.note else NO_NOTE;
    TsvIsClean(e.addr);
    TsvIsClean(Tier(e));
    TsvIsClean(n.reason);
    TsvIsClean(n.client);
    TsvIsClean(n.proto);
    TsvIsClean(n.host);
    NumberIsClean(SecondsLeft(e));
    NumberIsClean(n.dport);
    CleanRecord(RowFields(e), n.dport);
  }

  lemma {:induction false} HeaderLineIsClean(name: string, v: seq<int>)
    requires CleanField(name) && v != []
    ensures Clean(NumberFields(name, v))
  {
    var f := Map(FormatInt, v);
    forall s | s in f ensures CleanField(s) {
      MapAll(FormatInt, v, s);
      var n :| n in v && FormatInt(n) == s;
      NumberIsClean(n);
    }
    var last := v[|v| - 1];
    assert f[|v| - 1] == FormatInt(last);
    CleanRecord([name] + f, last);
  }

  lemma {:induction false} CountHeadersAreClean(st: Stats)
    ensures AllClean(CountHeaders(st))
  {
    HeaderLineIsClean("#hour", st.hour);
    HeaderLineIsClean("#day", st.day);
    HeaderLineIsClean("#total", st.total);
  }

  lemma {:induction false} OtherHeadersAreClean(st: Stats, excluded: Int64)
    ensures AllClean(OtherHeaders(st, excluded))
  {
    HeaderLineIsClean("#since", [SinceValue(st)]);
    HeaderLineIsClean("#excl", [excluded]);
  }

  lemma {:induction false} HeaderIsClean(t: Tally, st: Stats, excluded: Int64)
    ensures AllClean(HeaderFields(t, st, excluded))
  {
    HeaderLineIsClean("#n", TallyValues(t));
    CountHeadersAreClean(st);
    OtherHeadersAreClean(st, excluded);
    CleanConcat(TallyHeader(t), CountHeaders(st));
    CleanConcat(TallyHeader(t) + CountHeaders(st), OtherHeaders(st, excluded));
  }

  lemma {:induction false} CleanConcat(a: seq<Record>, b: seq<Record>)
    requires AllClean(a) && AllClean(b)
    ensures AllClean(a + b)
  {
  }

  lemma {:induction false} RowsAreClean(es: seq<Entry>)
    ensures AllClean(Map(RowFields, es))
  {
    forall r | r in Map(RowFields, es) ensures Clean(r) {
      MapAll(RowFields, es, r);
      var e :| e in es && RowFields(e) == r;
      RowIsClean(e);
    }
  }

  // ---- what the fields say ----

  /** The same text with a blank for each tab, newline and carriage return. */
  ghost predicate Blanked(t: string, s: string) {
    |t| == |s| && forall i :: 0 <= i < |s| ==> t[i] == if s[i] in {'\t', '\n', '\r'} then ' ' else s[i]
  }

  lemma {:induction false} BlankedIs(s: string)
    ensures Blanked(TsvField(s), s)
  {
  }

  /** The whole seconds of a remaining time, toward zero; -1 if it never expires. */
  ghost predicate WholeSeconds(sec: int, left: Option<int>) {
    if left.None? then sec == -1
    else if left.value >= 0 then 1_000_000_000 * sec <= left.value < 1_000_000_000 * (sec + 1)
    else 1_000_000_000 * (sec - 1) < left.value <= 1_000_000_000 * sec
  }

  lemma {:induction false} SecondsLeftAre(e: Entry)
    ensures WholeSeconds(SecondsLeft(e), e.left)
  {
  }

  // ---- what comes out ----

  /** A row as the bot sees it: separators blanked, seconds left, the port if
      an int can hold it. */
  function RowOf(e: Entry): Row {
    var n := if e.known then e.note else NO_NOTE;
    Row(TsvField(e.addr), TsvField(Tier(e)), SecondsLeft(e), TsvField(n.reason), TsvField(n.client), TsvField(n.proto),
        if IsInt64(n.dport) then n.dport else 0, TsvField(n.host))
  }

  predicate LooksLikeHeader(e: Entry) {
    e.addr != "" && e.addr[0] == '#'
  }

  lemma {:induction false} RowParses(e: Entry)
    ensures IsHeader(RowFields(e)) <==> LooksLikeHeader(e)
    ensures ParseRow(RowFields(e)) == RowOf(e)
  {
    AtoiOfFormat(SecondsLeft(e), -1);
    AtoiOfFormat(if e.known then e.note.dport else 0, 0);
  }

  function HeaderData(t: Tally, st: Stats, excluded: Int64): Data {
    Data(t.total, t.probation, t.confirmed, t.block, t.l7sni, t.unknown, st.hour, st.day, st.total,
         if SinceValue(st) > 0 then Some(SinceValue(st)) else None, excluded, [])
  }

  lemma {:induction false} NumbersParse(v: seq<int>)
    requires forall n :: n in v ==> IsInt64(n)
    ensures Map(Number, Map(FormatInt, v)) == v
  {
    forall n | n in v ensures Number(FormatInt(n)) == n { AtoiOfFormat(n, 0); }
    MapInverse(FormatInt, Number, v);
  }

  lemma {:induction false} HeaderFieldsParse(d: Data, name: string, f: seq<string>)
    requires name != [] && name[0] == '#'
    ensures ParseFields(d, [name] + f) == ParseHeader(d, name, Map(Number, f))
  {
    assert ([name] + f)[1..] == f;
  }

  /** A header line is read back as its name and numbers. */
  lemma {:induction false} HeaderLineParses(d: Data, name: string, v: seq<Int64>)
    requires name != [] && name[0] == '#'
    ensures ParseFields(d, NumberFields(name, v)) == ParseHeader(d, name, v)
  {
    NumbersParse(v);
    HeaderFieldsParse(d, name, Map(FormatInt, v));
  }

  lemma {:induction false} CountsParse(c: Counts)
    ensures ParseCounts(c) == c
  {
  }

  lemma {:induction false} FoldTwo(d: Data, a: Record, b: Record)
    ensures Fold(ParseFields, d, [a, b]) == ParseFields(ParseFields(d, a), b)
  {
    FoldAppend(ParseFields, d, [], a);
    FoldAppend(ParseFields, d, [a], b);
    assert [] + [a] == [a] && [a] + [b] == [a, b];
  }

  lemma {:induction false} FoldThree(d: Data, a: Record, b: Record, c: Record)
    ensures Fold(ParseFields, d, [a, b, c]) == ParseFields(ParseFields(ParseFields(d, a), b), c)
  {
    FoldTwo(d, a, b);
    FoldAppend(ParseFields, d, [a, b], c);
    assert [a, b] + [c] == [a, b, c];
  }

  lemma {:induction false} TallyParses(d: Data, t: Tally)
    ensures Fold(ParseFields, d, TallyHeader(t))
              == d.(total := t.total, probation := t.probation, confirmed := t.confirmed, block := t.block,
                    l7sni := t.l7sni, unknown := t.unknown)
  {
    HeaderLineParses(d, "#n", TallyValues(t));
    FoldAppend(ParseFields, d, [], NumberFields("#n", TallyValues(t)));
    assert [] + TallyHeader(t) == TallyHeader(t);
  }

  lemma {:induction false} CountersParse(d: Data, st: Stats)
    ensures Fold(ParseFields, d, CountHeaders(st)) == d.(hour := st.hour, day := st.day, all := st.total)
  {
    FoldThree(d, NumberFields("#hour", st.hour), NumberFields("#day", st.day), NumberFields("#total", st.total));
    HeaderLineParses(d, "#hour", st.hour);
    CountsParse(st.hour);
    HeaderLineParses(d.(hour := st.hour), "#day", st.day);
    CountsParse(st.day);
    HeaderLineParses(d.(hour := st.hour, day := st.day), "#total", st.total);
    CountsParse(st.total);
  }

  lemma {:induction false} SinceParses(d: Data, v: Int64)
    requires d.since == None
    ensures ParseFields(d, NumberFields("#since", [v])) == d.(since := if v > 0 then Some(v) else None)
  {
    HeaderLineParses(d, "#since", [v]);
  }

  lemma {:induction false} ExclParses(d: Data, n: Int64)
    ensures ParseFields(d, NumberFields("#excl", [n])) == d.(excluded := n)
  {
    HeaderLineParses(d, "#excl", [n]);
  }

  lemma {:induction false} OthersParse(d: Data, st: Stats, excluded: Int64)
    requires d.since == None
    ensures Fold(ParseFields, d, OtherHeaders(st, excluded))
              == d.(since := if SinceValue(st) > 0 then Some(SinceValue(st)) else None, excluded := excluded)
  {
    FoldTwo(d, NumberFields("#since", [SinceValue(st)]), NumberFields("#excl", [excluded]));
    SinceParses(d, SinceValue(st));
    ExclParses(ParseFields(d, NumberFields("#since", [SinceValue(st)])), excluded);
  }

  lemma {:induction false} HeaderParses(t: Tally, st: Stats, excluded: Int64)
    ensures Fold(ParseFields, NO_DATA, HeaderFields(t, st, excluded)) == HeaderData(t, st, excluded)
  {
    TallyParses(NO_DATA, t);
    var d := Fold(ParseFields, NO_DATA, TallyHeader(t));
    CountersParse(d, st);
    OthersParse(d.(hour := st.hour, day := st.day, all := st.total), st, excluded);
    FoldConcat(ParseFields, NO_DATA, TallyHeader(t), CountHeaders(st));
    FoldConcat(ParseFields, NO_DATA, TallyHeader(t) + CountHeaders(st), OtherHeaders(st, excluded));
  }

  // ---- the rows ----

  /** The entries the bot keeps: those not taken for header lines. */
  function Kept(es: seq<Entry>): (r: seq<Entry>)
    ensures |r| <= |es|
  {
    if es == [] then []
    else if LooksLikeHeader(es[|es| - 1]) then Kept(es[..|es| - 1])
    else Kept(es[..|es| - 1]) + [es[|es| - 1]]
  }

  lemma {:induction false} KeptStep(es: seq<Entry>, n: nat)
    requires n < |es|
    ensures Kept(es[..n + 1]) == if LooksLikeHeader(es[n]) then Kept(es[..n]) else Kept(es[..n]) + [es[n]]
  {
    assert es[..n + 1][..n] == es[..n];
  }

  /** Every entry is kept in its place unless its address starts like a header line. */
  lemma {:induction false} KeptPicks(es: seq<Entry>)
    ensures Picks(Kept(es), es, set i | 0 <= i < |es| && (es[i].addr == "" || es[i].addr[0] != '#'))
  {
    var plain := set i | 0 <= i < |es| && (es[i].addr == "" || es[i].addr[0] != '#');
    var f := (n: nat) => if n <= |es| then Kept(es[..n]) else [];
    forall k: nat | k < |es| ensures PickStep(f, es, plain, k) { KeptStep(es, k); }
    PicksBySteps(f, es, plain);
    assert es[..|es|] == es;
  }

  lemma {:induction false} KeptAll(es: seq<Entry>)
    ensures |Kept(es)| == |es| <==> forall e :: e in es ==> !LooksLikeHeader(e)
    ensures |Kept(es)| == |es| ==> Kept(es) == es
  {
    if es != [] {
      KeptAll(es[..|es| - 1]);
      assert es == es[..|es| - 1] + [es[|es| - 1]];
    }
  }

  /** What one printed entry does to what was read so far. */
  function TakeEntry(d: Data, e: Entry): Data {
    if LooksLikeHeader(e) then ParseFields(d, RowFields(e)) else d.(entries := d.entries + [RowOf(e)])
  }

  lemma {:induction false} RowReads(d: Data, e: Entry)
    ensures ParseFields(d, RowFields(e)) == TakeEntry(d, e)
    ensures LooksLikeHeader(e) ==> TakeEntry(d, e).entries == d.entries
  {
    RowParses(e);
  }

  lemma {:induction false} FoldKeeps(step: (Data, Entry) -> Data, row: Entry -> Row, start: Data, es: seq<Entry>)
    requires forall d, e :: !LooksLikeHeader(e) ==> step(d, e) == d.(entries := d.entries + [row(e)])
    requires forall d, e :: LooksLikeHeader(e) ==> step(d, e).entries == d.entries
    requires start.entries == []
    ensures Fold(step, start, es).entries == Map(row, Kept(es))
    ensures |Kept(es)| == |es| ==> Fold(step, start, es) == start.(entries := Map(row, es))
  {
    if es != [] {
      var front, e := es[..|es| - 1], es[|es| - 1];
      FoldKeeps(step, row, start, front);
      MapAppend(row, Kept(front), e);
      assert es == front + [e];
    }
  }

  lemma {:induction false} TakeEntries(d: Data, es: seq<Entry>)
    requires d.entries == []
    ensures Fold(TakeEntry, d, es).entries == Map(RowOf, Kept(es))
    ensures |Kept(es)| == |es| ==> Fold(TakeEntry, d, es) == d.(entries := Map(RowOf, es))
  {
    forall d, e | LooksLikeHeader(e) ensures TakeEntry(d, e).entries == d.entries { RowReads(d, e); }
    FoldKeeps(TakeEntry, RowOf, d, es);
  }

  /** The rows after a header: entries taken for headers are dropped, the
      others are recovered in order. */
  lemma {:induction false} RowsRead(header: seq<Record>, d: Data, es: seq<Entry>)
    requires Fold(ParseFields, NO_DATA, header) == d && d.entries == []
    ensures Fold(ParseFields, NO_DATA, header + Map(RowFields, es)).entries == Map(RowOf, Kept(es))
    ensures |Kept(es)| == |es| ==> Fold(ParseFields, NO_DATA, header + Map(RowFields, es)) == d.(entries := Map(RowOf, es))
  {
    FoldConcat(ParseFields, NO_DATA, header, Map(RowFields, es));
    forall d, e | e in es ensures ParseFields(d, RowFields(e)) == TakeEntry(d, e) { RowReads(d, e); }
    FoldOfMap(ParseFields, TakeEntry, RowFields, d, es);
    TakeEntries(d, es);
  }

  // ---- the round trip ----

  lemma {:induction false} PrintedIsClean(t: Tally, es: seq<Entry>, st: Stats, excluded: Int64)
    ensures AllClean(Records(t, es, st, excluded))
  {
    HeaderIsClean(t, st, excluded);
    RowsAreClean(FirstRows(es));
  }

  lemma {:induction false} AnswerReads(t: Tally, es: seq<Entry>, st: Stats, excluded: Int64)
    ensures var d := ParseLines(Split(Lines(Records(t, es, st, excluded)), '\n'));
            && d.entries == Map(RowOf, Kept(FirstRows(es)))
            && (|Kept(FirstRows(es))| == |FirstRows(es)|
                ==> d == HeaderData(t, st, excluded).(entries := Map(RowOf, FirstRows(es))))
  {
    PrintedIsClean(t, es, st, excluded);
    ParsePrinted(Records(t, es, st, excluded));
    HeaderParses(t, st, excluded);
    RowsRead(HeaderFields(t, st, excluded), HeaderData(t, st, excluded), FirstRows(es));
  }

  /** The bot recovers the tallies, every counter, the start time, the number
      of exclusions and the first 200 entries in order, exactly when none of
      those entries has an address that starts like a header line; otherwise
      such entries are the only ones missing. */
  lemma {:induction false} RoundTrip(es: seq<Entry>, st: Stats, excluded: Int64)
    requires IsInt64(|es|)
    ensures var d := ParseLines(Split(Lines(Records(TallyOf(es), es, st, excluded)), '\n'));
            && d.entries == Map(RowOf, Kept(FirstRows(es)))
            && (d == HeaderData(TallyOf(es), st, excluded).(entries := Map(RowOf, FirstRows(es)))
                <==> forall e :: e in FirstRows(es) ==> !LooksLikeHeader(e))
  {
    AnswerReads(TallyOf(es), es, st, excluded);
    KeptAll(FirstRows(es));
  }

  // ---- what an older bot makes of a newer router's answer ----

  /** A blank line, a header the bot does not know, or a row cut short. */
  predicate Unreadable(line: string) {
    var f := Split(line, '\t');
    || TrimSpace(line) == ""
    || (f[0] != "" && f[0][0] == '#' && f[0] !in {"#n", "#hour", "#day", "#total", "#since", "#excl"})
    || ((f[0] == "" || f[0][0] != '#') && |f| < 8)
  }

  lemma {:induction false} TrimCRsIs(line: string, ends: string)
    requires (line == "" || line[|line| - 1] != '\r') && forall i :: 0 <= i < |ends| ==> ends[i] == '\r'
    ensures TrimCRs(line + ends) == line
  {
    if ends == [] {
      assert line + ends == line;
    } else {
      assert (line + ends)[..|line + ends| - 1] == line + ends[..|ends| - 1];
      TrimCRsIs(line, ends[..|ends| - 1]);
    }
  }

  lemma {:induction false} UnreadableLine(d: Data, line: string, ends: string)
    requires Unreadable(line) && (line == "" || line[|line| - 1] != '\r')
    requires forall i :: 0 <= i < |ends| ==> ends[i] == '\r'
    ensures ParseLine(d, line + ends) == d
  {
    TrimCRsIs(line, ends);
    UnreadableFields(d, line, Split(line, '\t'));
  }

  lemma {:induction false} UnreadableFields(d: Data, line: string, f: Record)
    requires f == Split(line, '\t') && Unreadable(line)
    ensures TrimSpace(line) == "" || ParseFields(d, f) == d
  {
  }

  /** Such lines change nothing, wherever they stand and however they end. */
  lemma {:induction false} NewerRouter(before: seq<string>, line: string, ends: string, after: seq<string>)
    requires Unreadable(line) && (line == "" || line[|line| - 1] != '\r')
    requires forall i :: 0 <= i < |ends| ==> ends[i] == '\r'
    ensures ParseLines(before + [line + ends] + after) == ParseLines(before + after)
  {
    var d := ParseLines(before);
    FoldAppend(ParseLine, NO_DATA, before, line + ends);
    UnreadableLine(d, line, ends);
    FoldConcat(ParseLine, NO_DATA, before + [line + ends], after);
    FoldConcat(ParseLine, NO_DATA, before, after);
  }

  /** Fields a row has in addition are ignored. */
  lemma {:induction false} ExtraFields(d: Data, f: Record, extra: seq<string>)
    requires |f| >= 8 && (f[0] == "" || f[0][0] != '#')
    ensures ParseFields(d, f + extra) == ParseFields(d, f)
    ensures var row := ParseFields(d, f).entries[|d.entries|..];
            && |row| == 1 && row[0].addr == f[0] && row[0].tier == f[1] && row[0].reason == f[3] && row[0].client == f[4]
            && row[0].proto == f[5] && row[0].host == f[7]
  {
  }

  // ---- the text on the wire ----

  /** The line of one entry, by its tab-separated fields. */
  ghost predicate PrintsEntry(line: string, e: Entry) {
    FieldsOf(Split(line, '\t'), e)
  }

  ghost predicate FieldsOf(f: seq<string>, e: Entry) {
    var n := if e.known then e.note else Note("", "", "", "", 0, "");
    && |f| == 8 && Blanked(f[0], e.addr) && Blanked(f[1], n.tier) && Blanked(f[3], n.reason) && Blanked(f[4], n.client)
    && Blanked(f[5], n.proto) && f[6] == FormatInt(n.dport) && Blanked(f[7], n.host)
    && exists sec :: WholeSeconds(sec, e.left) && f[2] == FormatInt(sec)
  }

  lemma {:induction false} RowPrints(e: Entry)
    ensures PrintsEntry(Joined(RowFields(e)), e)
  {
    RowIsClean(e);
    RowIsFields(e);
    SplitOfJoin(RowFields(e), '\t');
  }

  lemma {:induction false} RowIsFields(e: Entry)
    ensures FieldsOf(RowFields(e), e)
  {
    SecondsLeftAre(e);
  }

  /** A name and decimal numbers, between tabs. */
  ghost predicate PrintsNumbers(line: string, name: string, v: seq<int>) {
    Split(line, '\t') == [name] + Map(FormatInt, v)
  }

  lemma {:induction false} NumbersPrint(name: string, v: seq<int>)
    requires CleanField(name) && v != []
    ensures PrintsNumbers(Joined(NumberFields(name, v)), name, v)
  {
    HeaderLineIsClean(name, v);
    SplitOfJoin(NumberFields(name, v), '\t');
  }

  /** The tally, three lines of counts, the start time, the number of exclusions. */
  function HeaderValues(t: Tally, st: Stats, excluded: Int64): seq<(string, seq<int>)> {
    [("#n", [t.total, t.probation, t.confirmed, t.block, t.l7sni, t.unknown]),
     ("#hour", st.hour), ("#day", st.day), ("#total", st.total),
     ("#since", [if st.since.Some? then st.since.value else 0]), ("#excl", [excluded])]
  }

  ghost predicate HeaderLines(lines: seq<string>, values: seq<(string, seq<int>)>) {
    |lines| == |values| && forall k :: 0 <= k < |values| ==> PrintsNumbers(lines[k], values[k].0, values[k].1)
  }

  lemma {:induction false} NamesAreClean(t: Tally, st: Stats, excluded: Int64)
    ensures var v := HeaderValues(t, st, excluded);
            forall k :: 0 <= k < |v| ==> CleanField(v[k].0) && v[k].1 != []
  {
  }

  lemma {:induction false} HeaderFieldsAre(t: Tally, st: Stats, excluded: Int64)
    ensures var h, v := HeaderFields(t, st, excluded), HeaderValues(t, st, excluded);
            |h| == |v| && forall k :: 0 <= k < |v| ==> h[k] == NumberFields(v[k].0, v[k].1)
  {
    SixAre(TallyHeader(t), CountHeaders(st), OtherHeaders(st, excluded), NumberFields, HeaderValues(t, st, excluded));
  }

  lemma {:induction false} SixAre(a: seq<Record>, b: seq<Record>, c: seq<Record>, fields: (string, seq<int>) -> Record,
                                  v: seq<(string, seq<int>)>)
    requires |v| == 6 && a == [fields(v[0].0, v[0].1)]
    requires b == [fields(v[1].0, v[1].1), fields(v[2].0, v[2].1), fields(v[3].0, v[3].1)]
    requires c == [fields(v[4].0, v[4].1), fields(v[5].0, v[5].1)]
    ensures var h := a + b + c; |h| == 6 && forall k :: 0 <= k < 6 ==> h[k] == fields(v[k].0, v[k].1)
  {
  }

  lemma {:induction false} RecordsPrint(h: seq<Record>, values: seq<(string, seq<int>)>)
    requires |h| == |values| && forall k :: 0 <= k < |h| ==> h[k] == NumberFields(values[k].0, values[k].1)
    requires forall k :: 0 <= k < |values| ==> CleanField(values[k].0) && values[k].1 != []
    ensures HeaderLines(Map(Joined, h), values)
  {
    forall k | 0 <= k < |h| ensures PrintsNumbers(Map(Joined, h)[k], values[k].0, values[k].1) {
      MapAt(Joined, h, k);
      NumbersPrint(values[k].0, values[k].1);
    }
  }

  lemma {:induction false} HeadersPrint(t: Tally, st: Stats, excluded: Int64)
    ensures HeaderLines(Map(Joined, HeaderFields(t, st, excluded)), HeaderValues(t, st, excluded))
  {
    NamesAreClean(t, st, excluded);
    HeaderFieldsAre(t, st, excluded);
    RecordsPrint(HeaderFields(t, st, excluded), HeaderValues(t, st, excluded));
  }

  lemma {:induction false} RowsPrint(es: seq<Entry>)
    ensures forall i :: 0 <= i < |es| ==> PrintsEntry(Map(Joined, Map(RowFields, es))[i], es[i])
  {
    forall i | 0 <= i < |es| ensures PrintsEntry(Map(Joined, Map(RowFields, es))[i], es[i]) {
      MapAt(Joined, Map(RowFields, es), i);
      MapAt(RowFields, es, i);
      RowPrints(es[i]);
    }
  }

  lemma {:induction false} TwoParts(header: seq<Record>, rows: seq<Record>)
    requires AllClean(header + rows)
    ensures Split(Lines(header + rows), '\n') == Map(Joined, header) + Map(Joined, rows) + [""]
  {
    SplitOfLines(header + rows);
    MapConcat(Joined, header, rows);
  }

  /** The answer, line by line: six header lines and the first 200 entries. */
  lemma {:induction false} PrintedLines(t: Tally, es: seq<Entry>, st: Stats, excluded: Int64)
    returns (header: seq<string>, rows: seq<string>)
    ensures Split(Lines(Records(t, es, st, excluded)), '\n') == header + rows + [""]
    ensures HeaderLines(header, HeaderValues(t, st, excluded))
    ensures |rows| == if |es| <= 200 then |es| else 200
    ensures forall i :: 0 <= i < |rows| ==> PrintsEntry(rows[i], es[i])
  {
    PrintedIsClean(t, es, st, excluded);
    TwoParts(HeaderFields(t, st, excluded), Map(RowFields, FirstRows(es)));
    HeadersPrint(t, st, excluded);
    header := Map(Joined, HeaderFields(t, st, excluded));
    rows := Map(Joined, Map(RowFields, FirstRows(es)));
    RowsPrint(FirstRows(es));
  }

  /** Such an entry can be written down: its row is read as a tally. */
  lemma {:induction false} HeaderLikeEntryIsLost(st: Stats, excluded: Int64)
    ensures var es := [Entry("#n", None, NO_NOTE, false)];
            var d := ParseLines(Split(Lines(Records(TallyOf(es), es, st, excluded)), '\n'));
            d.entries == [] && Map(RowOf, es) != []
  {
    var e := Entry("#n", None, NO_NOTE, false);
    assert LooksLikeHeader(e) && FirstRows([e]) == [e] && Kept([e]) == [];
    RoundTrip([e], st, excluded);
  }

  /** The row as the bot shows it. */
  ghost predicate ShowsEntry(r: Row, e: Entry) {
    var n := if e.known then e.note else Note("", "", "", "", 0, "");
    && Blanked(r.addr, e.addr) && Blanked(r.tier, n.tier) && Blanked(r.reason, n.reason) && Blanked(r.client, n.client)
    && Blanked(r.proto, n.proto) && Blanked(r.host, n.host) && WholeSeconds(r.leftSec, e.left)
    && r.dport == if n.dport <= 0x7FFF_FFFF_FFFF_FFFF then n.dport else 0
  }

  lemma {:induction false} RowShows(e: Entry)
    ensures ShowsEntry(RowOf(e), e)
  {
    var n := if e.known then e.note else Note("", "", "", "", 0, "");
    BlankedIs(e.addr);
    BlankedIs(n.tier);
    BlankedIs(n.reason);
    BlankedIs(n.client);
    BlankedIs(n.proto);
    BlankedIs(n.host);
    SecondsLeftAre(e);
  }

  lemma {:induction false} RowsShow(es: seq<Entry>)
    ensures forall i :: 0 <= i < |es| ==> ShowsEntry(Map(RowOf, es)[i], es[i])
  {
    forall i | 0 <= i < |es| ensures ShowsEntry(Map(RowOf, es)[i], es[i]) {
      MapAt(RowOf, es, i);
      RowShows(es[i]);
    }
  }

  /** What the bot shows after a router's answer reaches it. */
  method RouterToBot(es: seq<Entry>, st: Stats, excluded: Int64) returns (d: Data)
    requires IsInt64(|es|)
    ensures d.entries == Map(RowOf, Kept(FirstRows(es)))
    ensures d == HeaderData(TallyOf(es), st, excluded).(entries := Map(RowOf, FirstRows(es)))
            <==> forall e :: e in FirstRows(es) ==> !LooksLikeHeader(e)
    ensures var rows := if |es| <= 200 then |es| else 200;
            (forall i :: 0 <= i < rows ==> es[i].addr == "" || es[i].addr[0] != '#') ==>
              && IsTally(es, d.total, d.probation, d.confirmed, d.block, d.l7sni, d.unknown)
              && d.hour == st.hour && d.day == st.day && d.all == st.total && d.excluded == excluded
              && d.since == (if st.since.Some? && st.since.value > 0 then st.since else None)
              && |d.entries| == rows && forall i :: 0 <= i < rows ==> ShowsEntry(d.entries[i], es[i])
  {
    var text := FormatAdaptiveList(es, st, excluded);
    RoundTrip(es, st, excluded);
    d := ParseAdaptiveList(text);
    if d == HeaderData(TallyOf(es), st, excluded).(entries := Map(RowOf, FirstRows(es))) { Shown(es, st, excluded, d); }
  }

  lemma {:induction false} Shown(es: seq<Entry>, st: Stats, excluded: Int64, d: Data)
    requires IsInt64(|es|)
    requires d == HeaderData(TallyOf(es), st, excluded).(entries := Map(RowOf, FirstRows(es)))
    ensures var rows := if |es| <= 200 then |es| else 200;
            && IsTally(es, d.total, d.probation, d.confirmed, d.block, d.l7sni, d.unknown)
            && d.hour == st.hour && d.day == st.day && d.all == st.total && d.excluded == excluded
            && d.since == (if st.since.Some? && st.since.value > 0 then st.since else None)
            && |d.entries| == rows && forall i :: 0 <= i < rows ==> ShowsEntry(d.entries[i], es[i])
  {
    TallyOfIsTally(es);
    RowsShow(FirstRows(es));
  }
}
