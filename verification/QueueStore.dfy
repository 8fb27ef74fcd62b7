/** internal/botcontrol: the control server's store of per-router queues. It
    lives twice, in memory and in the store file; a save replaces the file as a
    whole or leaves it as it was. */
module QueueStore {
  import opened Wrappers

  type RouterId = string

  datatype Command = Command(id: nat, action: string, args: seq<string>)

  datatype Result = Result(commandId: nat, output: string, err: string)

  datatype RouterState = RouterState(
    pending: seq<Command>,
    lastResult: Option<Result>,
    recent: seq<Result>,
    lastPollAt: int,
    lastStatus: string)

  datatype RouterRecord = RouterRecord(token: string, name: string)

  datatype State = State(
    routers: map<RouterId, RouterState>,
    registry: map<RouterId, RouterRecord>,
    seeded: bool)

  /** Memory and disk. */
  datatype Db = Db(mem: State, disk: State)

  const EMPTY_ROUTER := RouterState([], None, [], 0, "")
  const EMPTY_STATE := State(map[], map[], false)
  const MAX_RECENT_RESULTS: nat := 8
  const MAX_ROUTER_ID_LEN: nat := 32

  function Router(s: State, r: RouterId): (rs: RouterState)
    ensures r in s.routers ==> rs == s.routers[r]
    ensures r !in s.routers ==> rs == RouterState([], None, [], 0, "")
  {
    if r in s.routers then s.routers[r] else EMPTY_ROUTER
  }

  function Put(s: State, r: RouterId, rs: RouterState): State {
    s.(routers := s.routers[r := rs])
  }

  function Pending(s: State, r: RouterId): seq<Command> {
    Router(s, r).pending
  }

  /** The memory takes the new state; the file follows if the save succeeds. */
  function Commit(db: Db, mem: State, saves: bool): Db {
    Db(mem, if saves then mem else db.disk)
  }

  function LastN<T>(s: seq<T>, n: nat): seq<T> {
    if |s| <= n then s else s[|s| - n..]
  }

  predicate ValidIdChar(c: char) {
    'a' <= c <= 'z' || 'A' <= c <= 'Z' || '0' <= c <= '9' || c == '_' || c == '-'
  }

  predicate ValidRouterID(r: RouterId) {
    0 < |r| <= MAX_ROUTER_ID_LEN && forall i :: 0 <= i < |r| ==> ValidIdChar(r[i])
  }

  // ---- loading ----

  /** What is found at the store's path, and what can be wrong with it. */
  datatype OnDisk = Missing | Unreadable | Unparsable | Stored(state: State)

  datatype LoadError = ReadError | ParseError

  // ---- each operation as a step of the two copies ----

  function EnqueueStep(db: Db, r: RouterId, cmd: Command, saves: bool): Db {
    var rs := Router(db.mem, r);
    Commit(db, Put(db.mem, r, rs.(pending := rs.pending + [cmd])), saves)
  }

  /** What a poll gets: the popped command if any, and whether the call succeeded. */
  datatype Dequeued = Dequeued(db: Db, cmd: Option<Command>, ok: bool)

  function DequeueStep(db: Db, r: RouterId, now: int, saves: bool): Dequeued {
    var rs := Router(db.mem, r).(lastPollAt := now);
    if rs.pending == [] then Dequeued(Commit(db, Put(db.mem, r, rs), saves), None, saves)
    else if saves then
      Dequeued(Commit(db, Put(db.mem, r, rs.(pending := rs.pending[1..])), true), Some(rs.pending[0]), true)
    else Dequeued(Commit(db, Put(db.mem, r, rs), false), None, false)
  }

  function RecordStep(db: Db, r: RouterId, result: Result, saves: bool): Db {
    var rs := Router(db.mem, r);
    Commit(db, Put(db.mem, r, rs.(lastResult := Some(result),
                                  recent := LastN(rs.recent + [result], MAX_RECENT_RESULTS))), saves)
  }

  function SetStatusStep(db: Db, r: RouterId, status: string, saves: bool): Db {
    Commit(db, Put(db.mem, r, Router(db.mem, r).(lastStatus := status)), saves)
  }

  function AddRouterStep(db: Db, r: RouterId, token: string, name: string, saves: bool): Db {
    if ValidRouterID(r) && r !in db.mem.registry && saves then
      Commit(db, db.mem.(registry := db.mem.registry[r := RouterRecord(token, name)]), true)
    else db
  }

  function RenameStep(db: Db, r: RouterId, name: string, saves: bool): Db {
    if r in db.mem.registry && saves then
      Commit(db, db.mem.(registry := db.mem.registry[r := db.mem.registry[r].(name := name)]), true)
    else db
  }

  function RemoveStep(db: Db, r: RouterId, saves: bool): Db {
    if r in db.mem.registry && saves then
      Commit(db, db.mem.(registry := db.mem.registry - {r}, routers := db.mem.routers - {r}), true)
    else db
  }

  predicate Seedable(r: RouterId, token: string) {
    ValidRouterID(r) && token != ""
  }

  function Seeded(s: State, r: RouterId, token: string, name: string): State {
    if r in s.registry then s else s.(registry := s.registry[r := RouterRecord(token, name)])
  }

  function SeedRouterStep(db: Db, r: RouterId, token: string, name: string, saves: bool): Db {
    if Seedable(r, token) && r !in db.mem.registry then Commit(db, Seeded(db.mem, r, token, name), saves)
    else db
  }

  /** Seeds the listed routers up to the first one that is not acceptable. */
  function SeedAll(s: State, routers: seq<(RouterId, string)>): State
    decreases |routers|
  {
    if routers == [] || !Seedable(routers[0].0, routers[0].1) then s
    else SeedAll(Seeded(s, routers[0].0, routers[0].1, ""), routers[1..])
  }

  predicate AllSeedable(routers: seq<(RouterId, string)>) {
    forall i :: 0 <= i < |routers| ==> ValidRouterID(routers[i].0) && routers[i].1 != ""
  }

  /** The i-th configured router and all before it are acceptable. */
  predicate Reached(routers: seq<(RouterId, string)>, i: int) {
    0 <= i < |routers| && AllSeedable(routers[..i + 1])
  }

  /** What an import does to the registry, and to nothing else: routers that are
      known keep their record, the acceptable ones up to the first that is not
      are added with a configured token and no name. */
  ghost predicate Imported(a: State, b: State, routers: seq<(RouterId, string)>) {
    && b.routers == a.routers
    && (forall q :: q in a.registry ==> q in b.registry && b.registry[q] == a.registry[q])
    && (forall i :: Reached(routers, i) ==> routers[i].0 in b.registry)
    && (forall q :: q in b.registry && q !in a.registry ==>
                      exists i :: Reached(routers, i) && routers[i].0 == q
                                  && b.registry[q] == RouterRecord(routers[i].1, ""))
  }

  lemma {:induction false} SeedAllImports(s: State, routers: seq<(RouterId, string)>)
    ensures Imported(s, SeedAll(s, routers), routers) && SeedAll(s, routers).seeded == s.seeded
    decreases |routers|
  {
    if routers != [] && Seedable(routers[0].0, routers[0].1) {
      var next, rest := Seeded(s, routers[0].0, routers[0].1, ""), routers[1..];
      SeedAllImports(next, rest);
      forall i ensures Reached(routers, i) <==> i == 0 || Reached(rest, i - 1) { ReachedRest(routers, i); }
      var t := SeedAll(s, routers);
      forall q | q in t.registry && q !in s.registry
        ensures exists i :: Reached(routers, i) && routers[i].0 == q && t.registry[q] == RouterRecord(routers[i].1, "")
      {
        if q in next.registry {
          assert Reached(routers, 0);
        } else {
          var j :| Reached(rest, j) && rest[j].0 == q && t.registry[q] == RouterRecord(rest[j].1, "");
          assert Reached(routers, j + 1) && routers[j + 1] == rest[j];
        }
      }
    } else if routers != [] {
      forall i ensures !Reached(routers, i) {
        if 0 <= i < |routers| { assert routers[..i + 1][0] == routers[0]; }
      }
    }
  }

  lemma {:induction false} ReachedRest(routers: seq<(RouterId, string)>, i: int)
    requires routers != [] && Seedable(routers[0].0, routers[0].1)
    ensures Reached(routers, i) <==> i == 0 || Reached(routers[1..], i - 1)
  {
    if 0 <= i < |routers| {
      var some, rest := routers[..i + 1], routers[1..][..i];
      assert some == [routers[0]] + rest;
      if AllSeedable(rest) {
        forall k | 0 <= k < |some| ensures ValidRouterID(some[k].0) && some[k].1 != "" {
          if k > 0 { assert some[k] == rest[k - 1]; }
        }
      }
      if AllSeedable(some) {
        forall k | 0 <= k < |rest| ensures ValidRouterID(rest[k].0) && rest[k].1 != "" { assert rest[k] == some[k + 1]; }
      }
    }
  }

  function SeedConfigStep(db: Db, routers: seq<(RouterId, string)>, saves: bool): Db {
    if db.mem.seeded then db
    else if AllSeedable(routers) then Commit(db, SeedAll(db.mem, routers).(seeded := true), saves)
    else Commit(db, SeedAll(db.mem, routers), false)
  }

  /** A restart reads the file back. */
  function CrashStep(db: Db): Db {
    Db(db.disk, db.disk)
  }

  // ---- the store as the server runs it ----

  class Store {
    var state: State
    var file: State

    constructor Load(contents: State)
      ensures Copies() == Db(contents, contents)
    {
      state, file := contents, contents;
    }

    ghost function Copies(): Db
      reads this
    {
      Db(state, file)
    }

    /** `saveLocked`: write a temporary file, then rename it into place. */
    method Save(works: bool) returns (ok: bool)
      modifies `file
      ensures ok == works && file == if works then state else old(file)
    {
      if works { file := state; }
      ok := works;
    }

    method Enqueue(r: RouterId, cmd: Command, saves: bool) returns (accepted: bool)
      modifies this
      ensures var was := Router(old(state), r);
              state == old(state).(routers := old(state.routers)[r := was.(pending := was.pending + [cmd])])
      ensures file == (if saves then state else old(file)) && accepted == saves
      ensures Copies() == EnqueueStep(old(Copies()), r, cmd, saves)
    {
      var rs := Router(state, r);
      state := Put(state, r, rs.(pending := rs.pending + [cmd]));
      accepted := Save(saves);
    }

    /** The pop is provisional: a failed save puts the command back. */
    method Dequeue(r: RouterId, now: int, saves: bool) returns (cmd: Option<Command>, ok: bool)
      modifies this
      ensures var was := Router(old(state), r).(lastPollAt := now);
              if saves && was.pending != []
              then && cmd == Some(was.pending[0])
                   && state == old(state).(routers := old(state.routers)[r := was.(pending := was.pending[1..])])
              else cmd == None && state == old(state).(routers := old(state.routers)[r := was])
      ensures file == (if saves then state else old(file)) && ok == saves
      ensures Dequeued(Copies(), cmd, ok) == DequeueStep(old(Copies()), r, now, saves)
    {
      var rs := Router(state, r).(lastPollAt := now);
      state := Put(state, r, rs);
      if rs.pending == [] {
        ok := Save(saves);
        return None, ok;
      }
      var prevPending := rs.pending;
      state := Put(state, r, rs.(pending := prevPending[1..]));
      ok := Save(saves);
      if !ok {
        state := Put(state, r, state.routers[r].(pending := prevPending));
        assert state.routers == old(state).routers[r := rs];
        return None, false;
      }
      assert state.routers == old(state).routers[r := rs.(pending := prevPending[1..])];
      return Some(prevPending[0]), true;
    }

    method RecordResult(r: RouterId, result: Result, saves: bool) returns (ok: bool)
      modifies this
      ensures var was := Router(old(state), r);
              var all := was.recent + [result];
              var window := if |all| > 8 then all[|all| - 8..] else all;
              state == old(state).(routers := old(state.routers)[r := was.(lastResult := Some(result), recent := window)])
      ensures file == (if saves then state else old(file)) && ok == saves
      ensures Copies() == RecordStep(old(Copies()), r, result, saves)
    {
      var rs := Router(state, r);
      var recent := rs.recent + [result];
      if |recent| > MAX_RECENT_RESULTS {
        recent := recent[|recent| - MAX_RECENT_RESULTS..];
      }
      state := Put(state, r, rs.(lastResult := Some(result), recent := recent));
      ok := Save(saves);
    }

    /** The latest result of a command still inside the window. */
    method ResultFor(r: RouterId, id: nat) returns (found: Option<Result>)
      ensures found.None? <==> forall i :: 0 <= i < |Router(state, r).recent| ==> Router(state, r).recent[i].commandId != id
      ensures found.Some? ==>
                exists i :: 0 <= i < |Router(state, r).recent| && Router(state, r).recent[i] == found.value
                  && found.value.commandId == id
                  && forall j :: i < j < |Router(state, r).recent| ==> Router(state, r).recent[j].commandId != id
    {
      if r !in state.routers {
        return None;
      }
      var recent := state.routers[r].recent;
      var i := |recent| - 1;
      while i >= 0
        invariant -1 <= i < |recent|
        invariant forall j :: i < j < |recent| ==> recent[j].commandId != id
      {
        if recent[i].commandId == id {
          assert Router(state, r).recent[i] == recent[i];
          return Some(recent[i]);
        }
        i := i - 1;
      }
      return None;
    }

    method SetStatus(r: RouterId, status: string, saves: bool) returns (ok: bool)
      modifies this
      ensures var was := Router(old(state), r);
              state == old(state).(routers := old(state.routers)[r := was.(lastStatus := status)])
      ensures file == (if saves then state else old(file)) && ok == saves
      ensures Copies() == SetStatusStep(old(Copies()), r, status, saves)
    {
      state := Put(state, r, Router(state, r).(lastStatus := status));
      ok := Save(saves);
    }

    method AddRouter(r: RouterId, token: string, name: string, saves: bool) returns (ok: bool)
      modifies this
      ensures Copies() == AddRouterStep(old(Copies()), r, token, name, saves)
      ensures ok == (ValidRouterID(r) && r !in old(state.registry) && saves)
      ensures ok ==> file == state == old(state).(registry := old(state.registry)[r := RouterRecord(token, name)])
      ensures !ok ==> state == old(state) && file == old(file)
    {
      if !ValidRouterID(r) || r in state.registry {
        return false;
      }
      state := state.(registry := state.registry[r := RouterRecord(token, name)]);
      ok := Save(saves);
      if !ok {
        state := state.(registry := state.registry - {r});
        assert state.registry == old(state.registry);
      }
    }

    method RenameRouter(r: RouterId, name: string, saves: bool) returns (ok: bool)
      modifies this
      ensures Copies() == RenameStep(old(Copies()), r, name, saves)
      ensures ok == (r in old(state.registry) && saves)
      ensures ok ==>
                var record := RouterRecord(old(state.registry[r]).token, name);
                file == state == old(state).(registry := old(state.registry)[r := record])
      ensures !ok ==> state == old(state) && file == old(file)
    {
      if r !in state.registry {
        return false;
      }
      var prev := state.registry[r].name;
      state := state.(registry := state.registry[r := state.registry[r].(name := name)]);
      ok := Save(saves);
      if !ok {
        state := state.(registry := state.registry[r := state.registry[r].(name := prev)]);
        assert state.registry == old(state.registry);
      }
    }

    method RemoveRouter(r: RouterId, saves: bool) returns (ok: bool)
      modifies this
      ensures Copies() == RemoveStep(old(Copies()), r, saves)
      ensures ok == (r in old(state.registry) && saves)
      ensures ok ==> r !in state.routers && r !in file.routers && r !in state.registry && r !in file.registry
      ensures ok ==> file == state && state.seeded == old(state.seeded)
      ensures ok ==> forall q :: q != r && q in old(state.routers) ==>
                                   q in state.routers && state.routers[q] == old(state.routers[q])
      ensures ok ==> forall q :: q != r && q in old(state.registry) ==>
                                   q in state.registry && state.registry[q] == old(state.registry[q])
      ensures ok ==> state.routers.Keys <= old(state.routers.Keys) && state.registry.Keys <= old(state.registry.Keys)
      ensures !ok ==> state == old(state) && file == old(file)
    {
      if r !in state.registry {
        return false;
      }
      var record := state.registry[r];
      var queue := if r in state.routers then Some(state.routers[r]) else None;
      state := state.(registry := state.registry - {r}, routers := state.routers - {r});
      ok := Save(saves);
      if !ok {
        state := state.(registry := state.registry[r := record]);
        if queue.Some? {
          state := state.(routers := state.routers[r := queue.value]);
        }
        assert state.registry == old(state.registry) && state.routers == old(state.routers);
      }
    }

    method SeedRouter(r: RouterId, token: string, name: string, saves: bool) returns (ok: bool)
      modifies this
      ensures Copies() == SeedRouterStep(old(Copies()), r, token, name, saves)
      ensures ok == (ValidRouterID(r) && token != "" && (r in old(state.registry) || saves))
      ensures if ValidRouterID(r) && token != "" && r !in old(state.registry)
              then && state == old(state).(registry := old(state.registry)[r := RouterRecord(token, name)])
                   && file == if saves then state else old(file)
              else state == old(state) && file == old(file)
    {
      if !Seedable(r, token) {
        return false;
      }
      if r in state.registry {
        return true;
      }
      state := Seeded(state, r, token, name);
      ok := Save(saves);
    }

    method SeedRoutersFromConfig(routers: seq<(RouterId, string)>, saves: bool) returns (ok: bool)
      modifies this
      ensures Copies() == SeedConfigStep(old(Copies()), routers, saves)
      ensures ok == (old(state.seeded) || (AllSeedable(routers) && saves))
      ensures old(state.seeded) ==> state == old(state) && file == old(file)
      ensures !old(state.seeded) ==> Imported(old(state), state, routers) && (state.seeded <==> AllSeedable(routers))
      ensures !old(state.seeded) ==> file == if AllSeedable(routers) && saves then state else old(file)
    {
      if state.seeded {
        return true;
      }
      SeedAllImports(state, routers);
      for i := 0 to |routers|
        invariant file == old(file)
        invariant SeedAll(state, routers[i..]) == SeedAll(old(state), routers)
        invariant forall k :: 0 <= k < i ==> Seedable(routers[k].0, routers[k].1)
      {
        assert routers[i..][1..] == routers[i + 1..];
        if !Seedable(routers[i].0, routers[i].1) {
          return false;
        }
        state := Seeded(state, routers[i].0, routers[i].1, "");
      }
      state := state.(seeded := true);
      ok := Save(saves);
    }

    method Restart()
      modifies this
      ensures state == file == old(file)
      ensures Copies() == CrashStep(old(Copies()))
    {
      state := file;
    }
  }

  // ---- the window of recent results ----

  /** `LoadStore`: a missing file is an empty store; one that cannot be read or
      parsed is an error. */
  method LoadStore(found: OnDisk) returns (store: Store?, err: Option<LoadError>)
    ensures err == if found.Unreadable? then Some(ReadError) else if found.Unparsable? then Some(ParseError) else None
    ensures store == null <==> err.Some?
    ensures store != null ==>
              fresh(store) && store.state == store.file == if found.Stored? then found.state else State(map[], map[], false)
  {
    store, err := null, None;
    if found.Unreadable? {
      err := Some(ReadError);
    } else if found.Unparsable? {
      err := Some(ParseError);
    } else {
      var contents := if found.Stored? then found.state else EMPTY_STATE;
      store := new Store.Load(contents);
    }
  }

  /** Records xs for r one after the other, whatever saves succeed. */
  function RecordAll(db: Db, r: RouterId, xs: seq<(Result, bool)>): Db {
    if xs == [] then db
    else RecordStep(RecordAll(db, r, xs[..|xs| - 1]), r, xs[|xs| - 1].0, xs[|xs| - 1].1)
  }

  function Results(xs: seq<(Result, bool)>): seq<Result> {
    seq(|xs|, i requires 0 <= i < |xs| => xs[i].0)
  }

  lemma {:induction false} LastNAppend<T>(s: seq<T>, x: T, n: nat)
    requires n > 0
    ensures LastN(LastN(s, n) + [x], n) == LastN(s + [x], n)
  {
  }

  /** The window is always the last eight of everything recorded. */
  lemma {:induction false} WindowIsLastEight(db: Db, r: RouterId, xs: seq<(Result, bool)>)
    requires |Router(db.mem, r).recent| <= 8
    ensures var all := Router(db.mem, r).recent + Results(xs);
            Router(RecordAll(db, r, xs).mem, r).recent == if |all| > 8 then all[|all| - 8..] else all
  {
    WindowIsLast(db, r, xs);
  }

  lemma {:induction false} WindowIsLast(db: Db, r: RouterId, xs: seq<(Result, bool)>)
    requires |Router(db.mem, r).recent| <= MAX_RECENT_RESULTS
    ensures Router(RecordAll(db, r, xs).mem, r).recent == LastN(Router(db.mem, r).recent + Results(xs), MAX_RECENT_RESULTS)
    decreases |xs|
  {
    var before := Router(db.mem, r).recent;
    if xs == [] {
      assert before + Results(xs) == before;
    } else {
      var front, x := xs[..|xs| - 1], xs[|xs| - 1].0;
      WindowIsLast(db, r, front);
      LastNAppend(before + Results(front), x, MAX_RECENT_RESULTS);
      assert Results(xs) == Results(front) + [x];
      assert before + Results(xs) == before + Results(front) + [x];
    }
  }

  /** A result is still found after up to seven later ones were recorded. */
  lemma {:induction false} FoundAfterSevenMore(db: Db, r: RouterId, x: Result, saves: bool, xs: seq<(Result, bool)>)
    requires |Router(db.mem, r).recent| <= 8 && |xs| <= 7
    ensures x in Router(RecordAll(RecordStep(db, r, x, saves), r, xs).mem, r).recent
  {
    var next := RecordStep(db, r, x, saves);
    var recent := Router(next.mem, r).recent;
    WindowIsLastEight(next, r, xs);
    var all := recent + Results(xs);
    assert recent[|recent| - 1] == x;
    var window := LastN(all, MAX_RECENT_RESULTS);
    assert window[|window| - 1 - |xs|] == all[|recent| - 1];
  }
}
