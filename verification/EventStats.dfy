/** internal/adaptiveroute: counters over sliding windows, kept in ten-minute
    buckets of which the old ones are dropped. */
module EventStats {
  import opened Sets

  const NUM_EVENTS: int := 6
  const BUCKET_SECONDS: int := 600
  const KEEP_SECONDS: int := 90000
  const HOUR_BUCKETS: int := 6
  const DAY_BUCKETS: int := 144
  const MAX_BUCKETS: int := KEEP_SECONDS / BUCKET_SECONDS + 8

  /** One count per event kind. */
  type Counts = c: seq<nat> | |c| == NUM_EVENTS witness [0, 0, 0, 0, 0, 0]

  const ZERO: Counts := [0, 0, 0, 0, 0, 0]

  predicate Known(ev: int) {
    0 <= ev < NUM_EVENTS
  }

  function Inc(c: Counts, ev: int): Counts
    requires Known(ev)
  {
    c[ev := c[ev] + 1]
  }

  function Plus(a: Counts, b: Counts): Counts {
    [a[0] + b[0], a[1] + b[1], a[2] + b[2], a[3] + b[3], a[4] + b[4], a[5] + b[5]]
  }

  /** The bucket of a Unix time; the division truncates toward zero. */
  function BucketKey(t: int): int {
    if t >= 0 then t / BUCKET_SECONDS else -(-t / BUCKET_SECONDS)
  }

  /** The reference: everything that was recorded, in order. */
  datatype Entry = Entry(ev: int, at: int)

  ghost function Count(log: seq<Entry>, ev: int, keys: set<int>): nat {
    if log == [] then 0
    else
      var e := log[|log| - 1];
      Count(log[..|log| - 1], ev, keys) + if e.ev == ev && BucketKey(e.at) in keys then 1 else 0
  }

  ghost function CountAll(log: seq<Entry>, ev: int): nat {
    if log == [] then 0
    else CountAll(log[..|log| - 1], ev) + if log[|log| - 1].ev == ev then 1 else 0
  }

  /** Ten minutes a bucket; across the epoch the division truncates upwards. */
  lemma {:induction false} KeyBounds(t: int)
    ensures t >= 0 ==> 600 * BucketKey(t) <= t < 600 * BucketKey(t) + 600
    ensures t < 0 ==> 600 * BucketKey(t) - 600 < t <= 600 * BucketKey(t)
  {
  }

  /** The events of a kind, wherever they fell. */
  ghost function OfKind(log: seq<Entry>, ev: int): set<int> {
    set i | 0 <= i < |log| && log[i].ev == ev
  }

  /** The events of a kind in the last n buckets up to the one of time now. */
  ghost function InWindow(log: seq<Entry>, ev: int, now: int, n: int): set<int> {
    set i | 0 <= i < |log| && log[i].ev == ev && BucketKey(now) - n < BucketKey(log[i].at) <= BucketKey(now)
  }

  lemma {:induction false} CountAllIs(log: seq<Entry>, ev: int)
    ensures CountAll(log, ev) == |OfKind(log, ev)|
  {
    if log != [] {
      var front, n := log[..|log| - 1], |log| - 1;
      CountAllIs(front, ev);
      assert OfKind(log, ev) == if log[n].ev == ev then OfKind(front, ev) + {n} else OfKind(front, ev);
    }
  }

  lemma {:induction false} CountIs(log: seq<Entry>, ev: int, now: int, n: nat)
    ensures Count(log, ev, LastBuckets(now, n)) == |InWindow(log, ev, now, n)|
  {
    if log != [] {
      var front, e := log[..|log| - 1], log[|log| - 1];
      CountIs(front, ev, now, n);
      assert log == front + [e];
      InWindowStep(front, e, ev, now, n);
    }
  }

  lemma {:induction false} InWindowStep(log: seq<Entry>, e: Entry, ev: int, now: int, n: nat)
    ensures InWindow(log + [e], ev, now, n)
         == if e.ev == ev && BucketKey(e.at) in LastBuckets(now, n) then InWindow(log, ev, now, n) + {|log|}
            else InWindow(log, ev, now, n)
  {
    assert forall i :: 0 <= i < |log| ==> (log + [e])[i] == log[i];
  }

  /** The totals count every event of a kind, a window those in its buckets. */
  lemma {:induction false} CountsAre(log: seq<Entry>, ev: int, now: int, n: nat)
    requires 0 <= ev < 6
    ensures TotalsOf(log)[ev] == |OfKind(log, ev)|
    ensures CountsOf(log, LastBuckets(now, n))[ev] == |InWindow(log, ev, now, n)|
  {
    CountAllIs(log, ev);
    CountIs(log, ev, now, n);
  }

  /** The last n buckets up to the one of time now. */
  ghost function LastBuckets(now: int, n: nat): set<int> {
    Interval(BucketKey(now) - n + 1, BucketKey(now) + 1)
  }

  ghost function CountsOf(log: seq<Entry>, keys: set<int>): Counts {
    [Count(log, 0, keys), Count(log, 1, keys), Count(log, 2, keys),
     Count(log, 3, keys), Count(log, 4, keys), Count(log, 5, keys)]
  }

  ghost function TotalsOf(log: seq<Entry>): Counts {
    [CountAll(log, 0), CountAll(log, 1), CountAll(log, 2), CountAll(log, 3), CountAll(log, 4), CountAll(log, 5)]
  }

  lemma {:induction false} CountAppend(log: seq<Entry>, e: Entry, keys: set<int>)
    requires Known(e.ev)
    ensures CountsOf(log + [e], keys)
              == if BucketKey(e.at) in keys then Inc(CountsOf(log, keys), e.ev) else CountsOf(log, keys)
    ensures TotalsOf(log + [e]) == Inc(TotalsOf(log), e.ev)
  {
    assert (log + [e])[..|log|] == log;
  }

  lemma {:induction false} CountDisjoint(log: seq<Entry>, ev: int, a: set<int>, b: set<int>)
    requires a !! b
    ensures Count(log, ev, a + b) == Count(log, ev, a) + Count(log, ev, b)
  {
    if log != [] { CountDisjoint(log[..|log| - 1], ev, a, b); }
  }

  lemma {:induction false} CountsDisjoint(log: seq<Entry>, a: set<int>, b: set<int>)
    requires a !! b
    ensures CountsOf(log, a + b) == Plus(CountsOf(log, a), CountsOf(log, b))
  {
    CountDisjoint(log, 0, a, b);
    CountDisjoint(log, 1, a, b);
    CountDisjoint(log, 2, a, b);
    CountDisjoint(log, 3, a, b);
    CountDisjoint(log, 4, a, b);
    CountDisjoint(log, 5, a, b);
  }

  lemma {:induction false} EmptyBuckets(log: seq<Entry>, keys: set<int>)
    requires forall k :: k in keys ==> CountsOf(log, {k}) == ZERO
    ensures CountsOf(log, keys) == ZERO
    decreases keys
  {
    if keys == {} {
      NoKeys(log);
    } else {
      var k := Pick(keys);
      EmptyBuckets(log, keys - {k});
      CountsDisjoint(log, keys - {k}, {k});
      assert keys - {k} + {k} == keys;
    }
  }

  lemma {:induction false} NoKeys(log: seq<Entry>)
    ensures CountsOf(log, {}) == ZERO
  {
    if log != [] { NoKeys(log[..|log| - 1]); }
  }

  lemma {:induction false} KeyMonotone(s: int, t: int)
    requires s <= t
    ensures BucketKey(s) <= BucketKey(t)
  {
  }

  /** 25 hours are 150 buckets, one less across the epoch. */
  lemma {:induction false} KeepIs150Buckets(t: int)
    ensures BucketKey(t) - 150 <= BucketKey(t - 90000) <= BucketKey(t) - 149
  {
  }

  datatype Snapshot = Snapshot(since: int, total: Counts, hour: Counts, day: Counts)

  /** The Unix time of Go's zero time, which stands for "no event yet". */
  const ZERO_TIME: int := -62135596800

  /** When the first event was recorded. */
  ghost function Since(log: seq<Entry>): int {
    if log == [] then ZERO_TIME
    else
      var before := Since(log[..|log| - 1]);
      if before == ZERO_TIME then log[|log| - 1].at else before
  }

  lemma {:induction false} SinceAppend(log: seq<Entry>, e: Entry)
    ensures Since(log + [e]) == if Since(log) == ZERO_TIME then e.at else Since(log)
  {
    assert (log + [e])[..|log|] == log;
  }

  /** Later events do not move it. */
  lemma {:induction false} SinceIsFirst(log: seq<Entry>)
    requires log != [] && log[0].at != -62135596800
    ensures Since(log) == log[0].at
  {
    if |log| > 1 { SinceIsFirst(log[..|log| - 1]); }
  }

  predicate AtMost(a: Counts, b: Counts) {
    forall i :: 0 <= i < NUM_EVENTS ==> a[i] <= b[i]
  }

  lemma {:induction false} PlusAtMost(a: Counts, b: Counts, c: Counts, d: Counts)
    requires AtMost(a, c) && AtMost(b, d)
    ensures AtMost(Plus(a, b), Plus(c, d))
  {
  }

  lemma {:induction false} CountsMonotone(log: seq<Entry>, part: set<int>, whole: set<int>)
    requires part <= whole
    ensures AtMost(CountsOf(log, part), CountsOf(log, whole))
  {
    CountsDisjoint(log, part, whole - part);
    assert part + (whole - part) == whole;
  }

  /** No bucket holds more than was recorded for it. */
  ghost predicate NoExcess(log: seq<Entry>, buckets: map<int, Counts>) {
    forall k :: k in buckets ==> AtMost(buckets[k], CountsOf(log, {k}))
  }

  lemma {:induction false} StillNoExcess(log: seq<Entry>, buckets: map<int, Counts>, e: Entry)
    requires NoExcess(log, buckets) && Known(e.ev)
    ensures var k := BucketKey(e.at); NoExcess(log + [e], buckets[k := Inc(Bucket(buckets, k), e.ev)])
  {
    var after := buckets[BucketKey(e.at) := Inc(Bucket(buckets, BucketKey(e.at)), e.ev)];
    forall k | k in after ensures AtMost(after[k], CountsOf(log + [e], {k})) {
      CountAppend(log, e, {k});
    }
  }

  function Bucket(buckets: map<int, Counts>, k: int): Counts {
    if k in buckets then buckets[k] else ZERO
  }

  /** The clock never went back between two recorded events. */
  ghost predicate Ordered(log: seq<Entry>) {
    forall i, j :: 0 <= i < j < |log| ==> log[i].at <= log[j].at
  }

  /** The latest bucket any event fell in. */
  ghost function Newest(log: seq<Entry>): int
    requires log != []
  {
    var k := BucketKey(log[|log| - 1].at);
    if |log| == 1 then k
    else
      var before := Newest(log[..|log| - 1]);
      if k > before then k else before
  }

  /** Buckets that no pruning so far can have reached. */
  ghost predicate Tracked(log: seq<Entry>, k: int) {
    log == [] || k > Newest(log) - 150
  }

  ghost predicate Recent(log: seq<Entry>, buckets: map<int, Counts>) {
    forall k :: Tracked(log, k) ==> Bucket(buckets, k) == CountsOf(log, {k})
  }

  ghost predicate Bounded(log: seq<Entry>, buckets: map<int, Counts>) {
    && |buckets| <= MAX_BUCKETS
    && forall k :: k in buckets ==> log != [] && k <= Newest(log)
  }

  lemma {:induction false} NewestAppend(log: seq<Entry>, e: Entry)
    ensures Newest(log + [e]) >= BucketKey(e.at)
    ensures log != [] ==> Newest(log + [e]) >= Newest(log)
    ensures Ordered(log + [e]) ==> Newest(log + [e]) == BucketKey(e.at) && Ordered(log)
  {
    assert (log + [e])[..|log|] == log;
    if Ordered(log + [e]) && log != [] {
      var all := log + [e];
      assert forall i :: 0 <= i < |log| ==> log[i] == all[i];
      NewestOfOrdered(log);
      assert all[|log| - 1].at <= all[|log|].at;
      KeyMonotone(log[|log| - 1].at, e.at);
    }
  }

  lemma {:induction false} NewestOfOrdered(log: seq<Entry>)
    requires Ordered(log) && log != []
    ensures Newest(log) == BucketKey(log[|log| - 1].at)
  {
    if |log| > 1 {
      NewestOfOrdered(log[..|log| - 1]);
      KeyMonotone(log[|log| - 2].at, log[|log| - 1].at);
    }
  }

  lemma {:induction false} StillRecent(log: seq<Entry>, buckets: map<int, Counts>, e: Entry)
    requires Recent(log, buckets) && Known(e.ev)
    ensures var k := BucketKey(e.at); Recent(log + [e], buckets[k := Inc(Bucket(buckets, k), e.ev)])
    ensures TotalsOf(log + [e]) == Inc(TotalsOf(log), e.ev)
  {
    CountAppend(log, e, {});
    NewestAppend(log, e);
    var after := buckets[BucketKey(e.at) := Inc(Bucket(buckets, BucketKey(e.at)), e.ev)];
    forall k | Tracked(log + [e], k) ensures Bucket(after, k) == CountsOf(log + [e], {k}) {
      CountAppend(log, e, {k});
    }
  }

  /** Between the oldest kept bucket and the newest there is room for 151. */
  lemma {:induction false} FewKeys(keys: set<int>, newest: int)
    requires forall k :: k in keys ==> newest - 150 <= k <= newest
    ensures |keys| <= 151
  {
    SubsetSize(keys, Interval(newest - 150, newest + 1));
  }

  /** The window's buckets, as far as they are still kept. */
  ghost predicate Holds(held: set<int>, kept: set<int>, now: int, n: int) {
    forall k :: k in held <==> k in kept && BucketKey(now) - n < k <= BucketKey(now)
  }

  /** The buckets of a window that were ever counted hold its whole count. */
  lemma {:induction false} WindowCounts(log: seq<Entry>, buckets: map<int, Counts>, now: int, n: nat, held: set<int>)
    requires Recent(log, buckets) && Tracked(log, BucketKey(now) - n + 1)
    requires Holds(held, buckets.Keys, now, n)
    ensures CountsOf(log, LastBuckets(now, n)) == CountsOf(log, held)
  {
    var rest := LastBuckets(now, n) - held;
    assert held + rest == LastBuckets(now, n);
    forall k | k in rest ensures CountsOf(log, {k}) == ZERO {
      NeverCounted(log, buckets, BucketKey(now) - n + 1, k);
    }
    AddEmpty(log, held, rest);
  }

  lemma {:induction false} AddEmpty(log: seq<Entry>, held: set<int>, rest: set<int>)
    requires held !! rest && forall k :: k in rest ==> CountsOf(log, {k}) == ZERO
    ensures CountsOf(log, held + rest) == CountsOf(log, held)
  {
    EmptyBuckets(log, rest);
    CountsDisjoint(log, held, rest);
  }

  lemma {:induction false} NeverCounted(log: seq<Entry>, buckets: map<int, Counts>, from: int, k: int)
    requires Recent(log, buckets) && Tracked(log, from) && from <= k && k !in buckets
    ensures CountsOf(log, {k}) == ZERO
  {
    assert Tracked(log, k);
  }

  /** All buckets of the window are younger than any that was pruned. */
  ghost predicate Reliable(log: seq<Entry>, now: int, n: int) {
    Tracked(log, BucketKey(now) - n + 1)
  }

  /** What the query has summed up so far. */
  ghost predicate Summed(log: seq<Entry>, sum: Counts, held: set<int>, now: int, n: int) {
    AtMost(sum, CountsOf(log, held)) && (Reliable(log, now, n) ==> sum == CountsOf(log, held))
  }

  lemma {:induction false} AddBucket(log: seq<Entry>, buckets: map<int, Counts>, sum: Counts, held: set<int>,
                                     now: int, n: int, k: int)
    requires Recent(log, buckets) && NoExcess(log, buckets) && Summed(log, sum, held, now, n)
    requires k in buckets && k !in held && BucketKey(now) - n < k
    ensures Summed(log, Plus(sum, buckets[k]), held + {k}, now, n)
  {
    CountsDisjoint(log, held, {k});
    PlusAtMost(sum, buckets[k], CountsOf(log, held), CountsOf(log, {k}));
    if Reliable(log, now, n) { assert Tracked(log, k) && Bucket(buckets, k) == CountsOf(log, {k}); }
  }

  lemma {:induction false} WholeWindow(log: seq<Entry>, buckets: map<int, Counts>, sum: Counts, held: set<int>,
                                       now: int, n: nat)
    requires Recent(log, buckets) && Summed(log, sum, held, now, n) && Holds(held, buckets.Keys, now, n)
    ensures AtMost(sum, CountsOf(log, LastBuckets(now, n)))
    ensures Reliable(log, now, n) ==> sum == CountsOf(log, LastBuckets(now, n))
  {
    CountsMonotone(log, held, LastBuckets(now, n));
    if Reliable(log, now, n) { WindowCounts(log, buckets, now, n, held); }
  }

  class Stats {
    var since: int
    var total: Counts
    var buckets: map<int, Counts>
    ghost var log: seq<Entry>

    /** Recent buckets hold the log's counts; older ones may be gone. With a
        clock that never goes back the buckets stay few. */
    ghost predicate Valid()
      reads this
    {
      && since == Since(log) && total == TotalsOf(log)
      && Recent(log, buckets) && NoExcess(log, buckets)
      && (Ordered(log) ==> Bounded(log, buckets))
    }

    constructor ()
      ensures Valid() && log == []
    {
      since, total, buckets, log := ZERO_TIME, ZERO, map[], [];
    }

    method RecordEvent(ev: int, at: int)
      requires Valid()
      modifies this
      ensures Valid()
      ensures log == if 0 <= ev < 6 then old(log) + [Entry(ev, at)] else old(log)
      ensures Ordered(log) ==> |buckets| <= 158
    {
      if !Known(ev) {
        return;
      }
      SinceAppend(log, Entry(ev, at));
      if since == ZERO_TIME { since := at; }
      CountEvent(ev, at);
      if |buckets| > MAX_BUCKETS {
        KeepIs150Buckets(at);
        Prune(BucketKey(at - KEEP_SECONDS));
        if Ordered(log) { FewKeys(buckets.Keys, BucketKey(at)); }
      }
    }

    /** Adds one to the total and to the event's bucket. */
    method CountEvent(ev: int, at: int)
      requires Known(ev) && total == TotalsOf(log) && Recent(log, buckets) && NoExcess(log, buckets)
      requires Ordered(log) ==> Bounded(log, buckets)
      modifies `total, `buckets, `log
      ensures log == old(log) + [Entry(ev, at)]
      ensures total == TotalsOf(log) && Recent(log, buckets) && NoExcess(log, buckets)
      ensures Newest(log) >= BucketKey(at)
      ensures Ordered(log) ==> Newest(log) == BucketKey(at) && forall k :: k in buckets ==> k <= BucketKey(at)
    {
      StillRecent(log, buckets, Entry(ev, at));
      StillNoExcess(log, buckets, Entry(ev, at));
      NewestAppend(log, Entry(ev, at));
      var k := BucketKey(at);
      total := Inc(total, ev);
      buckets := buckets[k := Inc(Bucket(buckets, k), ev)];
      log := log + [Entry(ev, at)];
    }

    /** Deletes the buckets before `oldest`. */
    method Prune(oldest: int)
      requires log != [] && Recent(log, buckets) && NoExcess(log, buckets) && oldest <= Newest(log) - 149
      modifies `buckets
      ensures Recent(log, buckets) && NoExcess(log, buckets)
      ensures forall k :: k in buckets ==> oldest <= k && k in old(buckets)
    {
      var keys := buckets.Keys;
      while keys != {}
        invariant Recent(log, buckets) && NoExcess(log, buckets)
        invariant keys <= buckets.Keys <= old(buckets).Keys
        invariant forall k :: k in buckets && k !in keys ==> oldest <= k
        decreases keys
      {
        ghost var some := Pick(keys);
        var k :| k in keys;
        if k < oldest { buckets := buckets - {k}; }
        keys := keys - {k};
      }
    }

    /** The start and the totals are exact. A window never counts too much, and
        it is exact unless the clock went back behind the latest event: by more
        than a day for the hour, by more than an hour for the day. */
    method Query(now: int) returns (s: Snapshot)
      requires Valid()
      ensures s.since == Since(log) && s.total == TotalsOf(log)
      ensures AtMost(s.hour, CountsOf(log, LastBuckets(now, HOUR_BUCKETS)))
      ensures AtMost(s.day, CountsOf(log, LastBuckets(now, DAY_BUCKETS)))
      ensures log == [] || BucketKey(now) >= Newest(log) - 144 ==>
                s.hour == CountsOf(log, LastBuckets(now, HOUR_BUCKETS))
      ensures log == [] || BucketKey(now) >= Newest(log) - 6 ==>
                s.day == CountsOf(log, LastBuckets(now, DAY_BUCKETS))
      ensures forall ev :: 0 <= ev < 6 ==> s.total[ev] == |OfKind(log, ev)|
      ensures forall ev :: 0 <= ev < 6 && (log == [] || BucketKey(now) >= Newest(log) - 6) ==>
                             s.hour[ev] == |InWindow(log, ev, now, 6)| && s.day[ev] == |InWindow(log, ev, now, 144)|
    {
      forall ev | 0 <= ev < 6
        ensures && TotalsOf(log)[ev] == |OfKind(log, ev)|
                && CountsOf(log, LastBuckets(now, 6))[ev] == |InWindow(log, ev, now, 6)|
                && CountsOf(log, LastBuckets(now, 144))[ev] == |InWindow(log, ev, now, 144)|
      {
        CountsAre(log, ev, now, 6);
        CountsAre(log, ev, now, 144);
      }
      var hour := ZERO;
      var day := ZERO;
      var keys := buckets.Keys;
      ghost var inHour, inDay: set<int> := {}, {};
      NoKeys(log);
      while keys != {}
        invariant keys <= buckets.Keys
        invariant Holds(inHour, buckets.Keys - keys, now, HOUR_BUCKETS)
        invariant Holds(inDay, buckets.Keys - keys, now, DAY_BUCKETS)
        invariant Summed(log, hour, inHour, now, HOUR_BUCKETS)
        invariant Summed(log, day, inDay, now, DAY_BUCKETS)
        decreases keys
      {
        ghost var some := Pick(keys);
        var k :| k in keys;
        keys := keys - {k};
        var age := BucketKey(now) - k;
        if age < 0 || age >= DAY_BUCKETS {
          continue;
        }
        AddBucket(log, buckets, day, inDay, now, DAY_BUCKETS, k);
        day := Plus(day, buckets[k]);
        inDay := inDay + {k};
        if age < HOUR_BUCKETS {
          AddBucket(log, buckets, hour, inHour, now, HOUR_BUCKETS, k);
          hour := Plus(hour, buckets[k]);
          inHour := inHour + {k};
        }
      }
      assert buckets.Keys - keys == buckets.Keys;
      WholeWindow(log, buckets, hour, inHour, now, HOUR_BUCKETS);
      WholeWindow(log, buckets, day, inDay, now, DAY_BUCKETS);
      s := Snapshot(since, total, hour, day);
    }
  }

  /** A clock that never goes back satisfies the query's condition. */
  lemma {:induction false} OrderedClockIsExact(log: seq<Entry>, now: int)
    requires Ordered(log) && log != [] && log[|log| - 1].at <= now
    ensures BucketKey(now) >= Newest(log) - 6
  {
    NewestOfOrdered(log);
    KeyMonotone(log[|log| - 1].at, now);
  }
}
