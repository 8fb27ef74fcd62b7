/** internal/botcontrol: the tab-separated text in which a router tells the bot
    what is being redirected, its printer and its parser. */
module AdaptiveCodec {
  import opened Folds
  import opened Wrappers
  import opened Text
  import opened Decimal

  const MAX_ROWS: nat := 200

  /** The tab-separated fields of one line: `strings.Split` never returns none. */
  type Record = f: seq<string> | f != [] witness [""]

  /** A number as Go's int holds it. */
  type Int64 = n: int | IsInt64(n) witness 0

  /** One count per event kind. */
  type Counts = c: seq<Int64> | |c| == 6 witness [0, 0, 0, 0, 0, 0]

  const NO_COUNTS: Counts := [0, 0, 0, 0, 0, 0]

  datatype Note = Note(tier: string, reason: string, client: string, proto: string, dport: nat, host: string)

  const NO_NOTE := Note("", "", "", "", 0, "")

  /** `left` is the remaining time in nanoseconds, if the entry expires. */
  datatype Entry = Entry(addr: string, left: Option<Int64>, note: Note, known: bool)

  datatype Tally = Tally(total: Int64, probation: Int64, confirmed: Int64, block: Int64, l7sni: Int64, unknown: Int64)

  datatype Stats = Stats(since: Option<Int64>, hour: Counts, day: Counts, total: Counts)

  // ---- the printer ----

  predicate Separator(c: char) {
    c == '\t' || c == '\n' || c == '\r'
  }

  function TsvField(s: string): (t: string)
    ensures |t| == |s|
    ensures forall i :: 0 <= i < |s| ==> t[i] == if Separator(s[i]) then ' ' else s[i]
  {
    if s == [] then [] else [if Separator(s[0]) then ' ' else s[0]] + TsvField(s[1..])
  }

  function Tier(e: Entry): string {
    if e.known then e.note.tier else ""
  }

  function CountTier(es: seq<Entry>, tier: string): nat {
    if es == [] then 0
    else CountTier(es[..|es| - 1], tier) + if Tier(es[|es| - 1]) == tier then 1 else 0
  }

  /** Duration to seconds truncates toward zero. */
  function Seconds(nanos: int): int {
    if nanos >= 0 then nanos / 1_000_000_000 else -(-nanos / 1_000_000_000)
  }

  function SecondsLeft(e: Entry): (n: Int64) {
    match e.left
    case None => -1
    case Some(nanos) => Seconds(nanos)
  }

  /** A header line: a name, then numbers. */
  function NumberFields(name: string, v: seq<int>): Record {
    [name] + Map(FormatInt, v)
  }

  function TallyValues(t: Tally): Counts {
    [t.total, t.probation, t.confirmed, t.block, t.l7sni, t.unknown]
  }

  function RowFields(e: Entry): Record {
    var n := if e.known then e.note else NO_NOTE;
    [TsvField(e.addr), TsvField(Tier(e)), FormatInt(SecondsLeft(e)), TsvField(n.reason), TsvField(n.client),
     TsvField(n.proto), FormatInt(n.dport), TsvField(n.host)]
  }

  function SinceValue(st: Stats): Int64 {
    match st.since case None => 0 case Some(t) => t
  }

  function TallyHeader(t: Tally): seq<Record> {
    [NumberFields("#n", TallyValues(t))]
  }

  function CountHeaders(st: Stats): seq<Record> {
    [NumberFields("#hour", st.hour), NumberFields("#day", st.day), NumberFields("#total", st.total)]
  }

  function OtherHeaders(st: Stats, excluded: Int64): seq<Record> {
    [NumberFields("#since", [SinceValue(st)]), NumberFields("#excl", [excluded])]
  }

  function HeaderFields(t: Tally, st: Stats, excluded: Int64): seq<Record> {
    TallyHeader(t) + CountHeaders(st) + OtherHeaders(st, excluded)
  }

  /** One line: the fields joined by tabs, and a newline. */
  function AppendLine(text: string, r: Record): string {
    text + (Join(r, '\t') + ['\n'])
  }

  function Lines(records: seq<Record>): string {
    Fold(AppendLine, "", records)
  }

  function FirstRows(es: seq<Entry>): seq<Entry> {
    if |es| <= MAX_ROWS then es else es[..MAX_ROWS]
  }

  function Records(t: Tally, es: seq<Entry>, st: Stats, excluded: Int64): seq<Record> {
    HeaderFields(t, st, excluded) + Map(RowFields, FirstRows(es))
  }

  function TallyOf(es: seq<Entry>): Tally
    requires IsInt64(|es|)
  {
    TallyBounded(es);
    var p, c := CountTier(es, "probation"), CountTier(es, "confirmed");
    var b, s := CountTier(es, "block"), CountTier(es, "l7sni");
    Tally(|es|, p, c, b, s, |es| - p - c - b - s)
  }

  lemma {:induction false} TallyBounded(es: seq<Entry>)
    ensures CountTier(es, "probation") + CountTier(es, "confirmed") + CountTier(es, "block") + CountTier(es, "l7sni")
         <= |es|
  {
    if es != [] { TallyBounded(es[..|es| - 1]); }
  }

  lemma {:induction false} TierStep(es: seq<Entry>, i: nat, found: string, tier: string)
    requires i < |es| && Tier(es[i]) == found
    ensures CountTier(es[..i + 1], tier) == CountTier(es[..i], tier) + if found == tier then 1 else 0
  {
    assert es[..i + 1][..i] == es[..i];
  }

  /** The positions of the entries with a note that says this tier. */
  ghost function OfTier(es: seq<Entry>, tier: string): set<int> {
    set i | 0 <= i < |es| && es[i].known && es[i].note.tier == tier
  }

  ghost function OfNone(es: seq<Entry>, tiers: set<string>): set<int> {
    set i | 0 <= i < |es| && !(es[i].known && es[i].note.tier in tiers)
  }

  lemma {:induction false} OfTierStep(es: seq<Entry>, tier: string)
    requires es != []
    ensures var e := es[|es| - 1];
            |OfTier(es, tier)| == |OfTier(es[..|es| - 1], tier)| + if e.known && e.note.tier == tier then 1 else 0
  {
    var front, e := es[..|es| - 1], es[|es| - 1];
    var mine := e.known && e.note.tier == tier;
    assert OfTier(es, tier) == if mine then OfTier(front, tier) + {|front|} else OfTier(front, tier);
  }

  lemma {:induction false} OfNoneStep(es: seq<Entry>, tiers: set<string>)
    requires es != []
    ensures var e := es[|es| - 1];
            |OfNone(es, tiers)| == |OfNone(es[..|es| - 1], tiers)| + if e.known && e.note.tier in tiers then 0 else 1
  {
    var front, e := es[..|es| - 1], es[|es| - 1];
    var mine := !(e.known && e.note.tier in tiers);
    assert OfNone(es, tiers) == if mine then OfNone(front, tiers) + {|front|} else OfNone(front, tiers);
  }

  /** Every named tier is counted by its own number, everything else as unknown. */
  ghost predicate IsTally(es: seq<Entry>, total: int, probation: int, confirmed: int, block: int, l7sni: int,
                          unknown: int)
  {
    && total == |es|
    && probation == |OfTier(es, "probation")|
    && confirmed == |OfTier(es, "confirmed")|
    && block == |OfTier(es, "block")|
    && l7sni == |OfTier(es, "l7sni")|
    && unknown == |OfNone(es, {"probation", "confirmed", "block", "l7sni"})|
  }

  lemma {:induction false} CountTierIs(es: seq<Entry>, tier: string)
    requires tier != ""
    ensures CountTier(es, tier) == |OfTier(es, tier)|
  {
    if es != [] {
      CountTierIs(es[..|es| - 1], tier);
      OfTierStep(es, tier);
    }
  }

  lemma {:induction false} TallyOfIsTally(es: seq<Entry>)
    requires IsInt64(|es|)
    ensures var t := TallyOf(es); IsTally(es, t.total, t.probation, t.confirmed, t.block, t.l7sni, t.unknown)
  {
    CountTierIs(es, "probation");
    CountTierIs(es, "confirmed");
    CountTierIs(es, "block");
    CountTierIs(es, "l7sni");
    OthersCount(es, "probation", "confirmed", "block", "l7sni");
  }

  lemma {:induction false} OthersCount(es: seq<Entry>, p: string, c: string, b: string, s: string)
    requires p != c && p != b && p != s && c != b && c != s && b != s
    ensures |OfNone(es, {p, c, b, s})| + |OfTier(es, p)| + |OfTier(es, c)| + |OfTier(es, b)| + |OfTier(es, s)| == |es|
  {
    if es != [] {
      OthersCount(es[..|es| - 1], p, c, b, s);
      OfTierStep(es, p);
      OfTierStep(es, c);
      OfTierStep(es, b);
      OfTierStep(es, s);
      OfNoneStep(es, {p, c, b, s});
    }
  }

  method TallyEntries(es: seq<Entry>) returns (t: Tally)
    requires IsInt64(|es|)
    ensures t == TallyOf(es)
    ensures IsTally(es, t.total, t.probation, t.confirmed, t.block, t.l7sni, t.unknown)
  {
    var total, p, c, b, s, u := 0, 0, 0, 0, 0, 0;
    for i := 0 to |es|
      invariant total == i == p + c + b + s + u
      invariant p == CountTier(es[..i], "probation") && c == CountTier(es[..i], "confirmed")
      invariant b == CountTier(es[..i], "block") && s == CountTier(es[..i], "l7sni") && u >= 0
    {
      var tier := Tier(es[i]);
      TierStep(es, i, tier, "probation");
      TierStep(es, i, tier, "confirmed");
      TierStep(es, i, tier, "block");
      TierStep(es, i, tier, "l7sni");
      total := total + 1;
      match tier {
        case "probation" => p := p + 1;
        case "confirmed" => c := c + 1;
        case "block" => b := b + 1;
        case "l7sni" => s := s + 1;
        case _ => u := u + 1;
      }
    }
    assert es[..|es|] == es;
    t := Tally(total, p, c, b, s, u);
    TallyOfIsTally(es);
  }

  method HeaderText(h: seq<Record>) returns (text: string)
    ensures text == Lines(h)
  {
    text := "";
    for i := 0 to |h|
      invariant text == Lines(h[..i])
    {
      FoldAppend(AppendLine, "", h[..i], h[i]);
      assert h[..i + 1] == h[..i] + [h[i]];
      text := AppendLine(text, h[i]);
    }
    assert h[..|h|] == h;
  }

  lemma {:induction false} RowsStep(append: (string, Record) -> string, fields: Entry -> Record, header: string,
                                    es: seq<Entry>, i: nat)
    requires i < |es|
    ensures Fold(append, header, Map(fields, es[..i + 1]))
         == append(Fold(append, header, Map(fields, es[..i])), fields(es[i]))
  {
    assert es[..i + 1] == es[..i] + [es[i]];
    FoldMapAppend(append, fields, header, es[..i], es[i]);
  }

  /** The loop over the entries, which stops after 200 rows. */
  method AppendRows(header: string, es: seq<Entry>) returns (text: string)
    ensures text == Fold(AppendLine, header, Map(RowFields, FirstRows(es)))
  {
    text := header;
    for i := 0 to |es|
      invariant i <= MAX_ROWS && text == Fold(AppendLine, header, Map(RowFields, es[..i]))
    {
      if i >= MAX_ROWS {
        break;
      }
      RowsStep(AppendLine, RowFields, header, es, i);
      text := AppendLine(text, RowFields(es[i]));
    }
    assert es[..|es|] == es;
  }

  method FormatAdaptiveList(es: seq<Entry>, st: Stats, excluded: Int64) returns (text: string)
    requires IsInt64(|es|)
    ensures text == Lines(Records(TallyOf(es), es, st, excluded))
    ensures var t := TallyOf(es); IsTally(es, t.total, t.probation, t.confirmed, t.block, t.l7sni, t.unknown)
  {
    var t := TallyEntries(es);
    text := HeaderText(HeaderFields(t, st, excluded));
    text := AppendRows(text, es);
    FoldConcat(AppendLine, "", HeaderFields(t, st, excluded), Map(RowFields, FirstRows(es)));
  }

  // ---- the parser ----

  datatype Row = Row(addr: string, tier: string, leftSec: int, reason: string, client: string, proto: string,
                     dport: int, host: string)

  datatype Data = Data(
    total: int, probation: int, confirmed: int, block: int, l7sni: int, unknown: int,
    hour: seq<int>, day: seq<int>, all: seq<int>,
    since: Option<int>,
    excluded: int,
    entries: seq<Row>)

  const NO_DATA := Data(0, 0, 0, 0, 0, 0, NO_COUNTS, NO_COUNTS, NO_COUNTS, None, 0, [])

  /** A field read as a number, 0 if it is not one. */
  function Number(s: string): int {
    AtoiOr(s, 0)
  }

  function ValueAt(v: seq<int>, i: nat): int {
    if i < |v| then v[i] else 0
  }

  /** One count per event kind: missing fields are 0, extra fields ignored. */
  function ParseCounts(v: seq<int>): seq<int> {
    [ValueAt(v, 0), ValueAt(v, 1), ValueAt(v, 2), ValueAt(v, 3), ValueAt(v, 4), ValueAt(v, 5)]
  }

  function TrimCRs(line: string): string {
    if line != [] && line[|line| - 1] == '\r' then TrimCRs(line[..|line| - 1]) else line
  }

  predicate IsHeader(f: Record) {
    f[0] != [] && f[0][0] == '#'
  }

  /** The header line `name` with the numbers v; an unknown name is skipped. */
  function ParseHeader(d: Data, name: string, v: seq<int>): Data {
    if name == "#n" then
      if |v| >= 6 then
        d.(total := v[0], probation := v[1], confirmed := v[2], block := v[3], l7sni := v[4], unknown := v[5])
      else d
    else if name == "#hour" then d.(hour := ParseCounts(v))
    else if name == "#day" then d.(day := ParseCounts(v))
    else if name == "#total" then d.(all := ParseCounts(v))
    else if name == "#since" then if |v| >= 1 && v[0] > 0 then d.(since := Some(v[0])) else d
    else if name == "#excl" then if |v| >= 1 then d.(excluded := v[0]) else d
    else d
  }

  function ParseRow(f: Record): Row
    requires |f| >= 8
  {
    Row(f[0], f[1], AtoiOr(f[2], -1), f[3], f[4], f[5], AtoiOr(f[6], 0), f[7])
  }

  function ParseFields(d: Data, f: Record): Data {
    if IsHeader(f) then ParseHeader(d, f[0], Map(Number, f[1..]))
    else if |f| < 8 then d
    else d.(entries := d.entries + [ParseRow(f)])
  }

  function ParseLine(d: Data, raw: string): Data {
    var line := TrimCRs(raw);
    if TrimSpace(line) == "" then d else ParseFields(d, Split(line, '\t'))
  }

  function ParseLines(lines: seq<string>): Data {
    Fold(ParseLine, NO_DATA, lines)
  }

  method ParseAdaptiveList(out: string) returns (d: Data)
    ensures d == ParseLines(Split(out, '\n'))
  {
    d := NO_DATA;
    var lines := Split(out, '\n');
    for i := 0 to |lines|
      invariant d == ParseLines(lines[..i])
    {
      assert lines[..i + 1] == lines[..i] + [lines[i]];
      FoldAppend(ParseLine, NO_DATA, lines[..i], lines[i]);
      d := ParseOne(d, lines[i]);
    }
    assert lines[..|lines|] == lines;
  }

  method ParseOne(d: Data, raw: string) returns (d': Data)
    ensures d' == ParseLine(d, raw)
  {
    var line := TrimCRs(raw);
    if TrimSpace(line) == "" {
      return d;
    }
    var f := Split(line, '\t');
    if IsHeader(f) {
      return ParseHeader(d, f[0], Map(Number, f[1..]));
    }
    if |f| < 8 {
      return d;
    }
    d' := d.(entries := d.entries + [ParseRow(f)]);
  }
}
