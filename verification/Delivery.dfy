/** Command delivery as a distributed system: the server's store, the network
    and one agent per router. The network may drop a message (never deliver
    it), delay it without bound, or deliver it more than once. */
module Delivery {
  import opened Wrappers
  import opened QueueStore
  import opened Subsequence

  datatype Message =
    | PollRequest(router: RouterId, req: nat)
    | ResultRequest(router: RouterId, req: nat, result: Result)
    | PollResponse(router: RouterId, req: nat, cmd: Option<Command>, ok: bool)
    | ResultResponse(router: RouterId, req: nat, ok: bool)

  /** Where an agent's loop stands; `unposted` is the single retry slot. */
  datatype Phase =
    | Idle(unposted: Option<Result>)
    | Polling(req: nat)
    | Executing(cmd: Command)
    | Posting(req: nat, result: Result)

  /** What has happened so far; no step reads it except to draw fresh ids. */
  datatype History = History(
    enqueued: map<RouterId, seq<Command>>,
    handed: map<RouterId, seq<Command>>,
    handled: map<RouterId, seq<Command>>,
    produced: map<RouterId, seq<Result>>,
    accepted: set<(RouterId, Command)>,
    removed: set<(RouterId, Command)>,
    recorded: set<(RouterId, Result)>,
    lost: set<(RouterId, Result)>,
    cut: set<(RouterId, Command)>,
    usedIds: set<nat>)

  datatype System = System(
    db: Db,
    net: set<Message>,
    agents: map<RouterId, Phase>,
    nextReq: nat,
    h: History)

  datatype Event =
    | Enqueue(r: RouterId, cmd: Command, saves: bool)
    | AddRouter(r: RouterId, token: string, name: string, saves: bool)
    | RenameRouter(r: RouterId, name: string, saves: bool)
    | RemoveRouter(r: RouterId, saves: bool)
    | SeedRouter(r: RouterId, token: string, name: string, saves: bool)
    | SeedConfig(routers: seq<(RouterId, string)>, saves: bool)
    | SetStatus(r: RouterId, status: string, saves: bool)
    | ServePoll(r: RouterId, req: nat, now: int, saves: bool)
    | ServeResult(r: RouterId, req: nat, result: Result, saves: bool)
    | RejectPoll(r: RouterId, req: nat)
    | RejectResult(r: RouterId, req: nat, result: Result)
    | Crash
    | Tick(r: RouterId)
    | PollAnswered(r: RouterId, answer: Option<Command>, ok: bool)
    | PollFailed(r: RouterId)
    | Finished(r: RouterId, output: string, err: string)
    | PostAnswered(r: RouterId, ok: bool)
    | PostFailed(r: RouterId)
    | AgentRestart(r: RouterId)

  function At<T>(m: map<RouterId, seq<T>>, r: RouterId): seq<T> {
    if r in m then m[r] else []
  }

  function Push<T>(m: map<RouterId, seq<T>>, r: RouterId, x: T): (p: map<RouterId, seq<T>>)
    ensures forall q :: At(p, q) == if q == r then At(m, r) + [x] else At(m, q)
  {
    m[r := At(m, r) + [x]]
  }

  function PhaseOf(s: System, r: RouterId): Phase {
    if r in s.agents then s.agents[r] else Idle(None)
  }

  /** The result an agent still owes the server. */
  function Slot(p: Phase): Option<Result> {
    match p
    case Idle(unposted) => unposted
    case Posting(_, result) => Some(result)
    case _ => None
  }

  const EMPTY_HISTORY := History(map[], map[], map[], map[], {}, {}, {}, {}, {}, {})

  function Init(db: State): System {
    System(Db(db, db), {}, map[], 0, EMPTY_HISTORY)
  }

  // ---- the server's steps ----

  function EnqueueNext(s: System, r: RouterId, cmd: Command, saves: bool): System {
    if cmd.id in s.h.usedIds then s  // newCommandID never repeats
    else s.(db := EnqueueStep(s.db, r, cmd, saves),
            h := s.h.(enqueued := Push(s.h.enqueued, r, cmd),
                      usedIds := s.h.usedIds + {cmd.id},
                      accepted := if saves then s.h.accepted + {(r, cmd)} else s.h.accepted))
  }

  function RemoveNext(s: System, r: RouterId, saves: bool): System {
    if r in s.db.mem.registry && saves then
      s.(db := RemoveStep(s.db, r, saves),
         h := s.h.(removed := s.h.removed + set c | c in Pending(s.db.mem, r) :: (r, c)))
    else s
  }

  /** `handlePoll`: a failed save answers 500 and hands out nothing. */
  function ServePollNext(s: System, r: RouterId, req: nat, now: int, saves: bool): System {
    if PollRequest(r, req) in s.net then
      var d := DequeueStep(s.db, r, now, saves);
      s.(db := d.db,
         net := s.net + {PollResponse(r, req, d.cmd, d.ok)},
         h := if d.cmd.Some? then s.h.(handed := Push(s.h.handed, r, d.cmd.value)) else s.h)
    else s
  }

  /** `handleResult`: 200 only after the record is saved. */
  function ServeResultNext(s: System, r: RouterId, req: nat, result: Result, saves: bool): System {
    if ResultRequest(r, req, result) in s.net then
      s.(db := RecordStep(s.db, r, result, saves),
         net := s.net + {ResultResponse(r, req, saves)},
         h := if saves then s.h.(recorded := s.h.recorded + {(r, result)}) else s.h)
    else s
  }

  // ---- the agent's steps ----

  function TickNext(s: System, r: RouterId): System {
    match PhaseOf(s, r)
    case Idle(None) =>
      s.(net := s.net + {PollRequest(r, s.nextReq)},
         agents := s.agents[r := Polling(s.nextReq)], nextReq := s.nextReq + 1)
    case Idle(Some(result)) =>
      s.(net := s.net + {ResultRequest(r, s.nextReq, result)},
         agents := s.agents[r := Posting(s.nextReq, result)], nextReq := s.nextReq + 1)
    case _ => s
  }

  function PollAnsweredNext(s: System, r: RouterId, cmd: Option<Command>, ok: bool): System {
    match PhaseOf(s, r)
    case Polling(req) =>
      if PollResponse(r, req, cmd, ok) !in s.net then s
      else if ok && cmd.Some? then
        s.(agents := s.agents[r := Executing(cmd.value)],
           h := s.h.(handled := Push(s.h.handled, r, cmd.value)))
      else s.(agents := s.agents[r := Idle(None)])
    case _ => s
  }

  function FinishedNext(s: System, r: RouterId, output: string, err: string): System {
    match PhaseOf(s, r)
    case Executing(cmd) =>
      var result := Result(cmd.id, output, err);
      s.(net := s.net + {ResultRequest(r, s.nextReq, result)},
         agents := s.agents[r := Posting(s.nextReq, result)], nextReq := s.nextReq + 1,
         h := s.h.(produced := Push(s.h.produced, r, result)))
    case _ => s
  }

  function PostAnsweredNext(s: System, r: RouterId, ok: bool): System {
    match PhaseOf(s, r)
    case Posting(req, result) =>
      if ResultResponse(r, req, ok) !in s.net then s
      else s.(agents := s.agents[r := Idle(if ok then None else Some(result))])
    case _ => s
  }

  function RestartNext(s: System, r: RouterId): System {
    var p := PhaseOf(s, r);
    s.(agents := s.agents[r := Idle(None)],
       h := s.h.(lost := if Slot(p).Some? then s.h.lost + {(r, Slot(p).value)} else s.h.lost,
                 cut := if p.Executing? then s.h.cut + {(r, p.cmd)} else s.h.cut))
  }

  predicate AgentEvent(e: Event) {
    e.Tick? || e.PollAnswered? || e.PollFailed? || e.Finished? || e.PostAnswered? || e.PostFailed? || e.AgentRestart?
  }

  function ServerStep(s: System, e: Event): System {
    match e
    case Enqueue(r, cmd, saves) => EnqueueNext(s, r, cmd, saves)
    case AddRouter(r, token, name, saves) => s.(db := AddRouterStep(s.db, r, token, name, saves))
    case RenameRouter(r, name, saves) => s.(db := RenameStep(s.db, r, name, saves))
    case RemoveRouter(r, saves) => RemoveNext(s, r, saves)
    case SeedRouter(r, token, name, saves) => s.(db := SeedRouterStep(s.db, r, token, name, saves))
    case SeedConfig(routers, saves) => s.(db := SeedConfigStep(s.db, routers, saves))
    case SetStatus(r, status, saves) => s.(db := SetStatusStep(s.db, r, status, saves))
    case ServePoll(r, req, now, saves) => ServePollNext(s, r, req, now, saves)
    case ServeResult(r, req, result, saves) => ServeResultNext(s, r, req, result, saves)
    case RejectPoll(r, req) =>
      if PollRequest(r, req) in s.net then s.(net := s.net + {PollResponse(r, req, None, false)}) else s
    case RejectResult(r, req, result) =>
      if ResultRequest(r, req, result) in s.net then s.(net := s.net + {ResultResponse(r, req, false)}) else s
    case Crash => s.(db := CrashStep(s.db))
    case _ => s
  }

  function AgentStep(s: System, e: Event): System {
    match e
    case Tick(r) => TickNext(s, r)
    case PollAnswered(r, cmd, ok) => PollAnsweredNext(s, r, cmd, ok)
    case PollFailed(r) => if PhaseOf(s, r).Polling? then s.(agents := s.agents[r := Idle(None)]) else s
    case Finished(r, output, err) => FinishedNext(s, r, output, err)
    case PostAnswered(r, ok) => PostAnsweredNext(s, r, ok)
    case PostFailed(r) =>
      if PhaseOf(s, r).Posting? then s.(agents := s.agents[r := Idle(Some(PhaseOf(s, r).result))]) else s
    case AgentRestart(r) => RestartNext(s, r)
    case _ => s
  }

  function Step(s: System, e: Event): System {
    if AgentEvent(e) then AgentStep(s, e) else ServerStep(s, e)
  }

  function Run(s: System, es: seq<Event>): System {
    if es == [] then s else Step(Run(s, es[..|es| - 1]), es[|es| - 1])
  }

  // ---- the queue invariant ----

  ghost predicate DistinctIds(cs: seq<Command>) {
    forall i, j :: 0 <= i < j < |cs| ==> cs[i].id != cs[j].id
  }

  /** Memory and disk each continue what was handed out, in Enqueue order. */
  ghost predicate InOrder(enqueued: seq<Command>, handed: seq<Command>, mem: seq<Command>, disk: seq<Command>) {
    DistinctIds(enqueued) && Subseq(handed + mem, enqueued) && Subseq(handed + disk, enqueued)
  }

  /** An accepted command is in both copies unless it was handed out or removed. */
  ghost predicate Kept(s: System, r: RouterId, c: Command) {
    (r, c) in s.h.accepted ==>
      c in At(s.h.handed, r) || (r, c) in s.h.removed || (c in Pending(s.db.mem, r) && c in Pending(s.db.disk, r))
  }

  ghost predicate QueueOk(s: System, r: RouterId) {
    && InOrder(At(s.h.enqueued, r), At(s.h.handed, r), Pending(s.db.mem, r), Pending(s.db.disk, r))
    && (forall c :: c in At(s.h.enqueued, r) ==> c.id in s.h.usedIds)
    && (forall c :: Kept(s, r, c))
  }

  ghost predicate QueueInv(s: System) {
    forall r :: QueueOk(s, r)
  }

  /** A store step that touches no queue: the file is the old one or the new memory. */
  ghost predicate QueuesKept(a: Db, b: Db) {
    && (forall r :: Pending(b.mem, r) == Pending(a.mem, r))
    && (b.disk == a.disk || forall r :: Pending(b.disk, r) == Pending(a.mem, r))
  }

  lemma {:induction false} SeedAllKeepsRouters(s: State, routers: seq<(RouterId, string)>)
    ensures SeedAll(s, routers).routers == s.routers
    decreases |routers|
  {
    if routers != [] && Seedable(routers[0].0, routers[0].1) {
      SeedAllKeepsRouters(Seeded(s, routers[0].0, routers[0].1, ""), routers[1..]);
    }
  }

  lemma {:induction false} QuietStep(s: System, t: System)
    requires QueueInv(s) && QueuesKept(s.db, t.db)
    requires t.h.enqueued == s.h.enqueued && t.h.handed == s.h.handed && t.h.accepted == s.h.accepted
    requires t.h.removed == s.h.removed && t.h.usedIds == s.h.usedIds
    ensures QueueInv(t)
  {
    forall r ensures QueueOk(t, r) {
      assert QueueOk(s, r);
      forall c ensures Kept(t, r, c) { assert Kept(s, r, c); }
    }
  }

  lemma {:induction false} AppendInOrder(enqueued: seq<Command>, handed: seq<Command>, mem: seq<Command>,
                                         disk: seq<Command>, cmd: Command)
    requires InOrder(enqueued, handed, mem, disk)
    requires forall c :: c in enqueued ==> c.id != cmd.id
    ensures InOrder(enqueued + [cmd], handed, mem + [cmd], disk)
    ensures InOrder(enqueued + [cmd], handed, mem + [cmd], mem + [cmd])
  {
    Grow(handed + mem, enqueued, cmd);
    Grow(handed + disk, enqueued, cmd);
    assert handed + (mem + [cmd]) == handed + mem + [cmd];
  }

  lemma {:induction false} PopInOrder(enqueued: seq<Command>, handed: seq<Command>, mem: seq<Command>, disk: seq<Command>)
    requires InOrder(enqueued, handed, mem, disk) && mem != []
    ensures InOrder(enqueued, handed + [mem[0]], mem[1..], mem[1..])
  {
    assert handed + [mem[0]] + mem[1..] == handed + mem;
  }

  lemma {:induction false} EnqueueKeepsQueues(s: System, r: RouterId, cmd: Command, saves: bool)
    requires QueueInv(s) && cmd.id !in s.h.usedIds
    ensures QueueInv(EnqueueNext(s, r, cmd, saves))
  {
    var t := EnqueueNext(s, r, cmd, saves);
    forall q ensures QueueOk(t, q) {
      assert QueueOk(s, q);
      if q == r {
        AppendInOrder(At(s.h.enqueued, r), At(s.h.handed, r), Pending(s.db.mem, r), Pending(s.db.disk, r), cmd);
      }
      forall c ensures Kept(t, q, c) { assert Kept(s, q, c); }
    }
  }

  lemma {:induction false} RemoveKeepsQueues(s: System, r: RouterId, saves: bool)
    requires QueueInv(s)
    ensures QueueInv(RemoveNext(s, r, saves))
  {
    var t := RemoveNext(s, r, saves);
    if r in s.db.mem.registry && saves {
      forall q ensures QueueOk(t, q) {
        assert QueueOk(s, q);
        if q == r {
          Prefix(At(s.h.handed, r), Pending(s.db.mem, r), At(s.h.enqueued, r));
          assert At(s.h.handed, r) + [] == At(s.h.handed, r);
        }
        forall c ensures Kept(t, q, c) { assert Kept(s, q, c); }
      }
    }
  }

  /** A router whose first command left both copies and was handed out. */
  lemma {:induction false} PopKeepsRouter(s: System, t: System, r: RouterId)
    requires QueueOk(s, r) && Pending(s.db.mem, r) != []
    requires var p := Pending(s.db.mem, r);
             && Pending(t.db.mem, r) == Pending(t.db.disk, r) == p[1..]
             && At(t.h.handed, r) == At(s.h.handed, r) + [p[0]]
    requires t.h.enqueued == s.h.enqueued && t.h.accepted == s.h.accepted
    requires t.h.removed == s.h.removed && t.h.usedIds == s.h.usedIds
    ensures QueueOk(t, r)
  {
    var p := Pending(s.db.mem, r);
    PopInOrder(At(s.h.enqueued, r), At(s.h.handed, r), p, Pending(s.db.disk, r));
    assert p == [p[0]] + p[1..];
    forall c ensures Kept(t, r, c) { assert Kept(s, r, c); }
  }

  /** A router whose queues did not change, but for the file catching up. */
  lemma {:induction false} IdleKeepsRouter(s: System, t: System, q: RouterId)
    requires QueueOk(s, q) && Pending(t.db.mem, q) == Pending(s.db.mem, q)
    requires Pending(t.db.disk, q) == Pending(s.db.disk, q) || Pending(t.db.disk, q) == Pending(s.db.mem, q)
    requires At(t.h.handed, q) == At(s.h.handed, q)
    requires t.h.enqueued == s.h.enqueued && t.h.accepted == s.h.accepted
    requires t.h.removed == s.h.removed && t.h.usedIds == s.h.usedIds
    ensures QueueOk(t, q)
  {
    forall c ensures Kept(t, q, c) { assert Kept(s, q, c); }
  }

  lemma {:induction false} ServePollKeepsQueues(s: System, r: RouterId, req: nat, now: int, saves: bool)
    requires QueueInv(s) && PollRequest(r, req) in s.net
    ensures QueueInv(ServePollNext(s, r, req, now, saves))
  {
    var t := ServePollNext(s, r, req, now, saves);
    forall q ensures QueueOk(t, q) {
      assert QueueOk(s, q);
      DequeueQueues(s.db, r, now, saves, q);
      if q == r && saves && Pending(s.db.mem, r) != [] {
        PopKeepsRouter(s, t, r);
      } else {
        IdleKeepsRouter(s, t, q);
      }
    }
  }

  /** What a dequeue for r does to the queues of q. */
  lemma {:induction false} DequeueQueues(db: Db, r: RouterId, now: int, saves: bool, q: RouterId)
    ensures var d, p := DequeueStep(db, r, now, saves), Pending(db.mem, q);
            if q == r && saves && p != []
            then d.cmd == Some(p[0]) && Pending(d.db.mem, q) == Pending(d.db.disk, q) == p[1..]
            else Pending(d.db.mem, q) == p && (Pending(d.db.disk, q) == Pending(db.disk, q) || Pending(d.db.disk, q) == p)
  {
  }

  lemma {:induction false} CrashKeepsQueues(s: System)
    requires QueueInv(s)
    ensures QueueInv(s.(db := CrashStep(s.db)))
  {
    var t := s.(db := CrashStep(s.db));
    forall r ensures QueueOk(t, r) {
      assert QueueOk(s, r);
      forall c ensures Kept(t, r, c) { assert Kept(s, r, c); }
    }
  }

  predicate QuietEvent(e: Event) {
    !e.Enqueue? && !e.RemoveRouter? && !e.ServePoll? && !e.Crash?
  }

  lemma {:induction false} QuietKeepsHistory(s: System, e: Event)
    requires QuietEvent(e)
    ensures var t := if AgentEvent(e) then AgentStep(s, e) else ServerStep(s, e);
            && t.h.enqueued == s.h.enqueued && t.h.handed == s.h.handed && t.h.accepted == s.h.accepted
            && t.h.removed == s.h.removed && t.h.usedIds == s.h.usedIds
  {
    if AgentEvent(e) { AgentKeepsQueues(s, e); }
  }

  lemma {:induction false} AgentKeepsQueues(s: System, e: Event)
    ensures var t := AgentStep(s, e);
            && t.db == s.db && t.h.enqueued == s.h.enqueued && t.h.handed == s.h.handed
            && t.h.accepted == s.h.accepted && t.h.removed == s.h.removed && t.h.usedIds == s.h.usedIds
  {
  }

  lemma {:induction false} QuietKeepsPending(s: System, e: Event)
    requires QuietEvent(e)
    ensures QueuesKept(s.db, Step(s, e).db)
  {
    if AgentEvent(e) {
      AgentKeepsQueues(s, e);
    } else if e.SeedConfig? {
      SeedAllKeepsRouters(s.db.mem, e.routers);
    }
  }

  lemma {:induction false} LoudKeepsQueues(s: System, e: Event)
    requires QueueInv(s) && !QuietEvent(e)
    ensures QueueInv(ServerStep(s, e))
  {
    var t := ServerStep(s, e);
    match e
    case Enqueue(r, cmd, saves) =>
      assert t == EnqueueNext(s, r, cmd, saves);
      if cmd.id !in s.h.usedIds { EnqueueKeepsQueues(s, r, cmd, saves); }
    case RemoveRouter(r, saves) =>
      assert t == RemoveNext(s, r, saves);
      RemoveKeepsQueues(s, r, saves);
    case ServePoll(r, req, now, saves) =>
      assert t == ServePollNext(s, r, req, now, saves);
      if PollRequest(r, req) in s.net { ServePollKeepsQueues(s, r, req, now, saves); }
    case Crash => CrashKeepsQueues(s);
  }

  lemma {:induction false} StepKeepsQueues(s: System, e: Event)
    requires QueueInv(s)
    ensures QueueInv(Step(s, e))
  {
    if QuietEvent(e) {
      QuietKeepsHistory(s, e);
      QuietKeepsPending(s, e);
      QuietStep(s, Step(s, e));
    } else {
      LoudKeepsQueues(s, e);
      assert Step(s, e) == ServerStep(s, e);
    }
  }

  // ---- the network invariant ----

  ghost predicate Answer(s: System, r: RouterId, req: nat, c: Command) {
    exists ok :: PollResponse(r, req, Some(c), ok) in s.net
  }

  /** Request numbers are fresh; a command was handed out in one answer only. */
  ghost predicate PollsOk(s: System) {
    && (forall m :: m in s.net ==> m.req < s.nextReq)
    && (forall r, q, c :: Answer(s, r, q, c) ==> c in At(s.h.handed, r))
    && (forall r, q1, q2, c :: Answer(s, r, q1, c) && Answer(s, r, q2, c) ==> q1 == q2)
  }

  /** A 200 to a posted result means that very result was recorded. */
  ghost predicate PostsOk(s: System) {
    && (forall r, q, a, b :: ResultRequest(r, q, a) in s.net && ResultRequest(r, q, b) in s.net ==> a == b)
    && (forall r, q, a :: ResultRequest(r, q, a) in s.net && ResultResponse(r, q, true) in s.net
          ==> (r, a) in s.h.recorded)
  }

  ghost predicate NetInv(s: System) {
    PollsOk(s) && PostsOk(s)
  }

  lemma {:induction false} NetFrame(s: System, t: System)
    requires NetInv(s) && t.net == s.net && t.nextReq == s.nextReq
    requires t.h.handed == s.h.handed && s.h.recorded <= t.h.recorded
    ensures NetInv(t)
  {
    forall r, q, c ensures Answer(t, r, q, c) <==> Answer(s, r, q, c) {}
  }

  lemma {:induction false} HandedFresh(s: System, r: RouterId)
    requires QueueOk(s, r) && Pending(s.db.mem, r) != []
    ensures Pending(s.db.mem, r)[0] !in At(s.h.handed, r)
  {
    var handed, p, enqueued := At(s.h.handed, r), Pending(s.db.mem, r), At(s.h.enqueued, r);
    assert NoRepeats(enqueued);
    SubseqNoRepeats(handed + p, enqueued);
    assert (handed + p)[|handed|] == p[0];
    forall i | 0 <= i < |handed| ensures handed[i] != p[0] {
      assert (handed + p)[i] == handed[i];
    }
  }

  lemma {:induction false} ServePollKeepsNet(s: System, r: RouterId, req: nat, now: int, saves: bool)
    requires QueueInv(s) && NetInv(s) && PollRequest(r, req) in s.net
    ensures NetInv(ServePollNext(s, r, req, now, saves))
  {
    var t := ServePollNext(s, r, req, now, saves);
    var d := DequeueStep(s.db, r, now, saves);
    assert QueueOk(s, r);
    if d.cmd.Some? { HandedFresh(s, r); }
    forall q, n, c
      ensures Answer(t, q, n, c) <==> Answer(s, q, n, c) || (q == r && n == req && d.cmd == Some(c))
    {
      if q == r && n == req && d.cmd == Some(c) { assert PollResponse(r, req, Some(c), d.ok) in t.net; }
    }
  }

  lemma {:induction false} ServeResultKeepsNet(s: System, r: RouterId, req: nat, result: Result, saves: bool)
    requires NetInv(s) && ResultRequest(r, req, result) in s.net
    ensures NetInv(ServeResultNext(s, r, req, result, saves))
  {
    var t := ServeResultNext(s, r, req, result, saves);
    forall q, n, c ensures Answer(t, q, n, c) <==> Answer(s, q, n, c) {}
  }

  lemma {:induction false} RejectKeepsNet(s: System, m: Message)
    requires NetInv(s) && m.req < s.nextReq
    requires (m.PollResponse? && m.cmd.None?) || (m.ResultResponse? && !m.ok)
    ensures NetInv(s.(net := s.net + {m}))
  {
    var t := s.(net := s.net + {m});
    forall q, n, c ensures Answer(t, q, n, c) <==> Answer(s, q, n, c) {}
  }

  lemma {:induction false} RequestKeepsNet(s: System, t: System, m: Message)
    requires NetInv(s) && t.net == s.net + {m} && t.nextReq == s.nextReq + 1
    requires m.req == s.nextReq && (m.PollRequest? || m.ResultRequest?)
    requires t.h.handed == s.h.handed && t.h.recorded == s.h.recorded
    ensures NetInv(t)
  {
    forall q, n, c ensures Answer(t, q, n, c) <==> Answer(s, q, n, c) {}
  }

  predicate NetEvent(e: Event) {
    e.ServePoll? || e.ServeResult? || e.RejectPoll? || e.RejectResult? || e.Tick? || e.Finished?
  }

  lemma {:induction false} OthersKeepNet(s: System, e: Event)
    requires !NetEvent(e)
    ensures var t := Step(s, e);
            t.net == s.net && t.nextReq == s.nextReq && t.h.handed == s.h.handed && s.h.recorded == t.h.recorded
  {
  }

  lemma {:induction false} ServerKeepsNet(s: System, e: Event)
    requires QueueInv(s) && NetInv(s) && NetEvent(e) && !AgentEvent(e)
    ensures NetInv(ServerStep(s, e))
  {
    match e
    case ServePoll(r, req, now, saves) =>
      if PollRequest(r, req) in s.net { ServePollKeepsNet(s, r, req, now, saves); }
    case ServeResult(r, req, result, saves) =>
      if ResultRequest(r, req, result) in s.net { ServeResultKeepsNet(s, r, req, result, saves); }
    case RejectPoll(r, req) =>
      if PollRequest(r, req) in s.net { RejectKeepsNet(s, PollResponse(r, req, None, false)); }
    case RejectResult(r, req, result) =>
      if ResultRequest(r, req, result) in s.net { RejectKeepsNet(s, ResultResponse(r, req, false)); }
  }

  lemma {:induction false} TickKeepsNet(s: System, r: RouterId)
    requires NetInv(s)
    ensures NetInv(TickNext(s, r))
  {
    match PhaseOf(s, r) {
      case Idle(None) => RequestKeepsNet(s, TickNext(s, r), PollRequest(r, s.nextReq));
      case Idle(Some(result)) => RequestKeepsNet(s, TickNext(s, r), ResultRequest(r, s.nextReq, result));
      case _ =>
    }
  }

  lemma {:induction false} FinishedKeepsNet(s: System, r: RouterId, output: string, err: string)
    requires NetInv(s)
    ensures NetInv(FinishedNext(s, r, output, err))
  {
    match PhaseOf(s, r) {
      case Executing(cmd) =>
        var m := ResultRequest(r, s.nextReq, Result(cmd.id, output, err));
        RequestKeepsNet(s, FinishedNext(s, r, output, err), m);
      case _ =>
    }
  }

  lemma {:induction false} StepKeepsNet(s: System, e: Event)
    requires QueueInv(s) && NetInv(s)
    ensures NetInv(Step(s, e))
  {
    if !NetEvent(e) {
      OthersKeepNet(s, e);
      NetFrame(s, Step(s, e));
    } else if e.Tick? {
      TickKeepsNet(s, e.r);
    } else if e.Finished? {
      FinishedKeepsNet(s, e.r, e.output, e.err);
    } else {
      ServerKeepsNet(s, e);
    }
  }

  // ---- the agents' invariant ----

  /** The answer that brought a command has been consumed for good. */
  ghost predicate Fetched(s: System, r: RouterId, c: Command) {
    exists q: nat :: Answer(s, r, q, c) && PhaseOf(s, r) != Polling(q)
  }

  ghost predicate Produced(s: System, r: RouterId, c: Command) {
    exists i :: 0 <= i < |At(s.h.produced, r)| && At(s.h.produced, r)[i].commandId == c.id
  }

  /** Where the outcome of a handled command is. */
  ghost predicate Accounted(s: System, r: RouterId, c: Command) {
    PhaseOf(s, r) == Executing(c) || (r, c) in s.h.cut || Produced(s, r, c)
  }

  ghost predicate Safe(s: System, r: RouterId, result: Result) {
    (r, result) in s.h.recorded || (r, result) in s.h.lost || Slot(PhaseOf(s, r)) == Some(result)
  }

  ghost predicate AgentOk(s: System, r: RouterId) {
    var p, handled := PhaseOf(s, r), At(s.h.handled, r);
    && (p.Polling? ==> p.req < s.nextReq)
    && (p.Posting? ==> ResultRequest(r, p.req, p.result) in s.net)
    && (p.Executing? ==> p.cmd in handled)
    && NoRepeats(handled)
    && (forall c :: c in handled ==> Fetched(s, r, c) && Accounted(s, r, c))
    && (forall x :: x in At(s.h.produced, r) ==> Safe(s, r, x))
  }

  ghost predicate AgentInv(s: System) {
    forall r :: AgentOk(s, r)
  }

  /** Nothing of agent q changed but what the others added. */
  ghost predicate Untouched(s: System, t: System, q: RouterId) {
    && PhaseOf(t, q) == PhaseOf(s, q)
    && At(t.h.handled, q) == At(s.h.handled, q) && At(t.h.produced, q) == At(s.h.produced, q)
    && s.net <= t.net && s.nextReq <= t.nextReq
    && s.h.recorded <= t.h.recorded && s.h.lost <= t.h.lost && s.h.cut <= t.h.cut
  }

  lemma {:induction false} ServerFrame(s: System, e: Event, q: RouterId)
    requires !AgentEvent(e)
    ensures Untouched(s, ServerStep(s, e), q)
  {
  }

  lemma {:induction false} RequestFrame(s: System, r: RouterId, output: string, err: string, q: RouterId)
    requires q != r
    ensures Untouched(s, TickNext(s, r), q) && Untouched(s, FinishedNext(s, r, output, err), q)
  {
  }

  lemma {:induction false} AnswerFrame(s: System, r: RouterId, cmd: Option<Command>, ok: bool, q: RouterId)
    requires q != r
    ensures Untouched(s, PollAnsweredNext(s, r, cmd, ok), q) && Untouched(s, PostAnsweredNext(s, r, ok), q)
  {
  }

  lemma {:induction false} OtherAgentFrame(s: System, e: Event, q: RouterId)
    requires AgentEvent(e) && e.r != q
    ensures Untouched(s, AgentStep(s, e), q)
  {
    match e
    case Tick(r) => RequestFrame(s, r, "", "", q);
    case Finished(r, output, err) => RequestFrame(s, r, output, err, q);
    case PollAnswered(r, cmd, ok) => AnswerFrame(s, r, cmd, ok, q);
    case PostAnswered(r, ok) => AnswerFrame(s, r, None, ok, q);
    case _ =>
  }

  lemma {:induction false} FramePart(s: System, e: Event, q: RouterId)
    requires AgentEvent(e) ==> e.r != q
    ensures Untouched(s, Step(s, e), q)
  {
    if AgentEvent(e) { OtherAgentFrame(s, e, q); } else { ServerFrame(s, e, q); }
  }

  lemma {:induction false} AgentFrame(s: System, t: System, r: RouterId)
    requires AgentOk(s, r) && Untouched(s, t, r)
    ensures AgentOk(t, r)
  {
    forall c | c in At(t.h.handled, r) ensures Fetched(t, r, c) && Accounted(t, r, c) {
      assert Fetched(s, r, c) && Accounted(s, r, c);
      var q: nat :| Answer(s, r, q, c) && PhaseOf(s, r) != Polling(q);
      assert Answer(t, r, q, c);
    }
    forall x | x in At(t.h.produced, r) ensures Safe(t, r, x) { assert Safe(s, r, x); }
  }

  /** An agent's move that neither executes nor drops anything. */
  lemma {:induction false} MoveKeepsAgent(s: System, t: System, r: RouterId)
    requires AgentOk(s, r) && NetInv(s)
    requires At(t.h.handled, r) == At(s.h.handled, r) && At(t.h.produced, r) == At(s.h.produced, r)
    requires s.net <= t.net && s.h.recorded == t.h.recorded && s.h.lost <= t.h.lost && s.h.cut <= t.h.cut
    requires var p := PhaseOf(t, r);
             && (p.Polling? ==> p.req == s.nextReq < t.nextReq)
             && (p.Posting? ==> ResultRequest(r, p.req, p.result) in t.net)
             && !p.Executing?
    requires var p := PhaseOf(s, r); p.Executing? ==> (r, p.cmd) in t.h.cut
    requires var owed := Slot(PhaseOf(s, r));
             owed.Some? ==> Slot(PhaseOf(t, r)) == owed || (r, owed.value) in t.h.recorded + t.h.lost
    ensures AgentOk(t, r)
  {
    forall c | c in At(t.h.handled, r) ensures Fetched(t, r, c) && Accounted(t, r, c) {
      assert Fetched(s, r, c) && Accounted(s, r, c);
      var q: nat :| Answer(s, r, q, c) && PhaseOf(s, r) != Polling(q);
      assert Answer(t, r, q, c);
      var ok :| PollResponse(r, q, Some(c), ok) in s.net;
      assert q < s.nextReq;
    }
    forall x | x in At(t.h.produced, r) ensures Safe(t, r, x) { assert Safe(s, r, x); }
  }

  lemma {:induction false} NotYetHandled(s: System, r: RouterId, c: Command)
    requires AgentOk(s, r) && NetInv(s) && PhaseOf(s, r).Polling?
    requires PollResponse(r, PhaseOf(s, r).req, Some(c), true) in s.net
    ensures c !in At(s.h.handled, r)
  {
    var req := PhaseOf(s, r).req;
    assert Answer(s, r, req, c);
    forall d | d in At(s.h.handled, r) ensures d != c {
      assert Fetched(s, r, d);
      var q: nat :| Answer(s, r, q, d) && PhaseOf(s, r) != Polling(q);
    }
  }

  lemma {:induction false} ExecuteKeepsAgent(s: System, r: RouterId, c: Command)
    requires AgentOk(s, r) && NetInv(s) && PhaseOf(s, r).Polling?
    requires PollResponse(r, PhaseOf(s, r).req, Some(c), true) in s.net
    ensures AgentOk(PollAnsweredNext(s, r, Some(c), true), r)
  {
    var t := PollAnsweredNext(s, r, Some(c), true);
    var req := PhaseOf(s, r).req;
    NotYetHandled(s, r, c);
    forall d | d in At(t.h.handled, r) ensures Fetched(t, r, d) && Accounted(t, r, d) {
      if d == c {
        assert Answer(t, r, req, c);
      } else {
        assert Fetched(s, r, d) && Accounted(s, r, d);
        var q: nat :| Answer(s, r, q, d) && PhaseOf(s, r) != Polling(q);
        assert Answer(t, r, q, d);
      }
    }
    forall x | x in At(t.h.produced, r) ensures Safe(t, r, x) { assert Safe(s, r, x); }
  }

  lemma {:induction false} FinishKeepsAgent(s: System, r: RouterId, output: string, err: string)
    requires AgentOk(s, r) && NetInv(s) && PhaseOf(s, r).Executing?
    ensures AgentOk(FinishedNext(s, r, output, err), r)
  {
    var t := FinishedNext(s, r, output, err);
    var cmd := PhaseOf(s, r).cmd;
    var before := At(s.h.produced, r);
    forall d | d in At(t.h.handled, r) ensures Fetched(t, r, d) && Accounted(t, r, d) {
      assert Fetched(s, r, d) && Accounted(s, r, d);
      var q: nat :| Answer(s, r, q, d) && PhaseOf(s, r) != Polling(q);
      assert Answer(t, r, q, d);
      if d == cmd {
        assert At(t.h.produced, r)[|before|].commandId == d.id;
      } else if Produced(s, r, d) {
        var i :| 0 <= i < |before| && before[i].commandId == d.id;
        assert At(t.h.produced, r)[i] == before[i];
      }
    }
    forall x | x in At(t.h.produced, r) ensures Safe(t, r, x) {
      if x in before { assert Safe(s, r, x); }
    }
  }

  /** The moves that start or end a request. */
  lemma {:induction false} RequestKeepsAgent(s: System, e: Event, r: RouterId)
    requires AgentOk(s, r) && NetInv(s)
    requires e == Tick(r) || e == PollFailed(r) || (e.PollAnswered? && e.r == r && !(e.ok && e.answer.Some?))
    ensures AgentOk(AgentStep(s, e), r)
  {
    if AgentStep(s, e) != s { MoveKeepsAgent(s, AgentStep(s, e), r); }
  }

  /** The moves that end a post, and a restart. */
  lemma {:induction false} PostKeepsAgent(s: System, e: Event, r: RouterId)
    requires AgentOk(s, r) && NetInv(s)
    requires (e.PostAnswered? && e.r == r) || e == PostFailed(r) || e == AgentRestart(r)
    ensures AgentOk(AgentStep(s, e), r)
  {
    if AgentStep(s, e) != s { MoveKeepsAgent(s, AgentStep(s, e), r); }
  }

  lemma {:induction false} OwnStepKeepsAgent(s: System, e: Event, r: RouterId)
    requires AgentEvent(e) && e.r == r && AgentOk(s, r) && NetInv(s)
    ensures AgentOk(AgentStep(s, e), r)
  {
    match e
    case Finished(_, output, err) => if PhaseOf(s, r).Executing? { FinishKeepsAgent(s, r, output, err); }
    case PollAnswered(_, answer, ok) =>
      if !ok || answer.None? {
        RequestKeepsAgent(s, e, r);
      } else if PhaseOf(s, r).Polling? && PollResponse(r, PhaseOf(s, r).req, answer, true) in s.net {
        ExecuteKeepsAgent(s, r, answer.value);
      }
    case Tick(_) => RequestKeepsAgent(s, e, r);
    case PollFailed(_) => RequestKeepsAgent(s, e, r);
    case _ => PostKeepsAgent(s, e, r);
  }

  lemma {:induction false} StepKeepsAgents(s: System, e: Event)
    requires AgentInv(s) && NetInv(s)
    ensures AgentInv(Step(s, e))
  {
    forall r ensures AgentOk(Step(s, e), r) {
      assert AgentOk(s, r);
      if AgentEvent(e) && e.r == r {
        OwnStepKeepsAgent(s, e, r);
      } else {
        FramePart(s, e, r);
        AgentFrame(s, Step(s, e), r);
      }
    }
  }

  // ---- the order of execution ----

  /** c was handed out after everything in `handled`. */
  ghost predicate HandedLater(handled: seq<Command>, handed: seq<Command>, c: Command) {
    exists k :: 0 <= k < |handed| && handed[k] == c && Subseq(handled, handed[..k])
  }

  /** What the agent executed follows the order it was handed out in, and so
      will whatever the request it is waiting for may still bring. */
  ghost predicate OrderOk(s: System, r: RouterId) {
    && Subseq(At(s.h.handled, r), At(s.h.handed, r))
    && forall c :: PhaseOf(s, r).Polling? && Answer(s, r, PhaseOf(s, r).req, c) ==>
                     HandedLater(At(s.h.handled, r), At(s.h.handed, r), c)
  }

  ghost predicate OrderInv(s: System) {
    forall r :: OrderOk(s, r)
  }

  lemma {:induction false} OrderFrame(s: System, t: System, r: RouterId)
    requires OrderOk(s, r)
    requires At(t.h.handled, r) == At(s.h.handled, r) && At(t.h.handed, r) == At(s.h.handed, r)
    requires PhaseOf(t, r).Polling? ==> PhaseOf(t, r) == PhaseOf(s, r)
    requires forall q, c :: Answer(t, r, q, c) ==> Answer(s, r, q, c)
    ensures OrderOk(t, r)
  {
  }

  /** Only the server answers a poll with a command. */
  ghost predicate NoNewAnswer(s: System, t: System) {
    t.h.handed == s.h.handed && forall m :: m in t.net && m.PollResponse? && m.cmd.Some? ==> m in s.net
  }

  lemma {:induction false} ServerAnswers(s: System, e: Event)
    requires !AgentEvent(e) && !e.ServePoll?
    ensures NoNewAnswer(s, ServerStep(s, e))
  {
  }

  lemma {:induction false} AgentAnswers(s: System, e: Event)
    ensures NoNewAnswer(s, AgentStep(s, e))
  {
  }

  lemma {:induction false} QuietOrder(s: System, t: System, r: RouterId)
    requires OrderOk(s, r) && NoNewAnswer(s, t) && At(t.h.handled, r) == At(s.h.handled, r)
    requires PhaseOf(t, r).Polling? ==> PhaseOf(t, r) == PhaseOf(s, r)
    ensures OrderOk(t, r)
  {
    forall q, c | Answer(t, r, q, c) ensures Answer(s, r, q, c) {
      var ok :| PollResponse(r, q, Some(c), ok) in t.net;
    }
    OrderFrame(s, t, r);
  }

  lemma {:induction false} ServedOrder(s: System, t: System, r: RouterId, req: nat, c: Command, ok: bool)
    requires OrderOk(s, r) && At(t.h.handled, r) == At(s.h.handled, r) && PhaseOf(t, r) == PhaseOf(s, r)
    requires At(t.h.handed, r) == At(s.h.handed, r) + [c] && t.net == s.net + {PollResponse(r, req, Some(c), ok)}
    ensures OrderOk(t, r)
  {
    var handled, handed, after := At(s.h.handled, r), At(s.h.handed, r), At(t.h.handed, r);
    Grow(handled, handed, c);
    forall d | PhaseOf(t, r).Polling? && Answer(t, r, PhaseOf(t, r).req, d) ensures HandedLater(handled, after, d) {
      if Answer(s, r, PhaseOf(t, r).req, d) {
        assert HandedLater(handled, handed, d);
        var k :| 0 <= k < |handed| && handed[k] == d && Subseq(handled, handed[..k]);
        assert after[k] == d && after[..k] == handed[..k];
      } else {
        assert after[|handed|] == d && after[..|handed|] == handed;
      }
    }
  }

  lemma {:induction false} ServePollKeepsOrder(s: System, r: RouterId, req: nat, now: int, saves: bool)
    requires OrderInv(s) && PollRequest(r, req) in s.net
    ensures OrderInv(ServePollNext(s, r, req, now, saves))
  {
    var t, d := ServePollNext(s, r, req, now, saves), DequeueStep(s.db, r, now, saves);
    forall q ensures OrderOk(t, q) {
      assert OrderOk(s, q);
      if q == r && d.cmd.Some? {
        ServedOrder(s, t, r, req, d.cmd.value, d.ok);
      } else {
        forall n, c | Answer(t, q, n, c) ensures Answer(s, q, n, c) {}
        OrderFrame(s, t, q);
      }
    }
  }

  lemma {:induction false} TickKeepsOrder(s: System, r: RouterId)
    requires OrderOk(s, r) && NetInv(s)
    ensures OrderOk(TickNext(s, r), r)
  {
    var t := TickNext(s, r);
    AgentAnswers(s, Tick(r));
    if PhaseOf(s, r) == Idle(None) {
      forall c ensures !Answer(t, r, s.nextReq, c) {
        forall ok ensures PollResponse(r, s.nextReq, Some(c), ok) !in t.net {
          if PollResponse(r, s.nextReq, Some(c), ok) in s.net { assert false; }
        }
      }
    } else {
      QuietOrder(s, t, r);
    }
  }

  lemma {:induction false} ExecuteKeepsOrder(s: System, r: RouterId, c: Command)
    requires OrderOk(s, r) && PhaseOf(s, r).Polling? && PollResponse(r, PhaseOf(s, r).req, Some(c), true) in s.net
    ensures OrderOk(PollAnsweredNext(s, r, Some(c), true), r)
  {
    assert Answer(s, r, PhaseOf(s, r).req, c);
    LaterFollows(At(s.h.handled, r), At(s.h.handed, r), c);
    var t := PollAnsweredNext(s, r, Some(c), true);
    assert At(t.h.handled, r) == At(s.h.handled, r) + [c] && At(t.h.handed, r) == At(s.h.handed, r);
  }

  lemma {:induction false} LaterFollows(handled: seq<Command>, handed: seq<Command>, c: Command)
    requires HandedLater(handled, handed, c)
    ensures Subseq(handled + [c], handed)
  {
    var k :| 0 <= k < |handed| && handed[k] == c && Subseq(handled, handed[..k]);
    Follow(handled, handed[..k], c, handed[k + 1..]);
    assert handed == handed[..k] + [c] + handed[k + 1..];
  }

  lemma {:induction false} OwnStepKeepsOrder(s: System, e: Event, r: RouterId)
    requires AgentEvent(e) && e.r == r && OrderOk(s, r) && NetInv(s)
    ensures OrderOk(AgentStep(s, e), r)
  {
    if e.Tick? {
      TickKeepsOrder(s, r);
    } else if e.PollAnswered? && PhaseOf(s, r).Polling? && e.ok && e.answer.Some?
              && PollResponse(r, PhaseOf(s, r).req, e.answer, true) in s.net {
      ExecuteKeepsOrder(s, r, e.answer.value);
    } else {
      AgentAnswers(s, e);
      QuietOrder(s, AgentStep(s, e), r);
    }
  }

  lemma {:induction false} StepKeepsOrder(s: System, e: Event)
    requires OrderInv(s) && NetInv(s)
    ensures OrderInv(Step(s, e))
  {
    if e.ServePoll? {
      if PollRequest(e.r, e.req) in s.net { ServePollKeepsOrder(s, e.r, e.req, e.now, e.saves); }
    } else {
      var t := Step(s, e);
      if AgentEvent(e) { AgentAnswers(s, e); } else { ServerAnswers(s, e); }
      forall q ensures OrderOk(t, q) {
        assert OrderOk(s, q);
        if AgentEvent(e) && e.r == q {
          OwnStepKeepsOrder(s, e, q);
        } else {
          FramePart(s, e, q);
          QuietOrder(s, t, q);
        }
      }
    }
  }

  // ---- removed commands are gone ----

  /** A removed command is in neither copy of the queue and was not handed out;
      its id is used up, so it cannot be queued again. */
  ghost predicate Gone(s: System, r: RouterId, c: Command) {
    && c.id in s.h.usedIds
    && c !in Pending(s.db.mem, r) && c !in Pending(s.db.disk, r) && c !in At(s.h.handed, r)
  }

  ghost predicate RemovedInv(s: System) {
    forall r, c :: (r, c) in s.h.removed ==> Gone(s, r, c)
  }

  lemma {:induction false} PendingFresh(s: System, r: RouterId, c: Command)
    requires QueueOk(s, r) && c in Pending(s.db.mem, r)
    ensures c.id in s.h.usedIds && c !in At(s.h.handed, r)
  {
    var handed, p, enqueued := At(s.h.handed, r), Pending(s.db.mem, r), At(s.h.enqueued, r);
    assert NoRepeats(enqueued);
    SubseqNoRepeats(handed + p, enqueued);
    SubseqMembers(handed + p, enqueued);
    var k :| 0 <= k < |p| && p[k] == c;
    assert (handed + p)[|handed| + k] == c && c in handed + p;
    forall i | 0 <= i < |handed| ensures handed[i] != c {
      assert (handed + p)[i] == handed[i];
    }
  }

  lemma {:induction false} RemoveKeepsRemoved(s: System, r: RouterId, saves: bool)
    requires QueueInv(s) && RemovedInv(s)
    ensures RemovedInv(RemoveNext(s, r, saves))
  {
    var t := RemoveNext(s, r, saves);
    assert QueueOk(s, r);
    forall q, c | (q, c) in t.h.removed ensures Gone(t, q, c) {
      if (q, c) !in s.h.removed { PendingFresh(s, r, c); } else { assert Gone(s, q, c); }
    }
  }

  lemma {:induction false} ServePollKeepsRemoved(s: System, r: RouterId, req: nat, now: int, saves: bool)
    requires RemovedInv(s) && PollRequest(r, req) in s.net
    ensures RemovedInv(ServePollNext(s, r, req, now, saves))
  {
    var t := ServePollNext(s, r, req, now, saves);
    forall q, c | (q, c) in t.h.removed ensures Gone(t, q, c) {
      assert Gone(s, q, c);
      DequeueQueues(s.db, r, now, saves, q);
    }
  }

  lemma {:induction false} StepKeepsRemoved(s: System, e: Event)
    requires QueueInv(s) && RemovedInv(s)
    ensures RemovedInv(Step(s, e))
  {
    var t := Step(s, e);
    if QuietEvent(e) {
      QuietKeepsHistory(s, e);
      QuietKeepsPending(s, e);
      forall r, c | (r, c) in t.h.removed ensures Gone(t, r, c) { assert Gone(s, r, c); }
    } else if e.RemoveRouter? {
      RemoveKeepsRemoved(s, e.r, e.saves);
    } else if e.ServePoll? {
      if PollRequest(e.r, e.req) in s.net { ServePollKeepsRemoved(s, e.r, e.req, e.now, e.saves); }
    } else {
      forall r, c | (r, c) in t.h.removed ensures Gone(t, r, c) { assert Gone(s, r, c); }
    }
  }

  // ---- what the history stands for ----

  /** An Enqueue call that gets a new id appends the command; it is accepted when
      the save worked. A removal that works removes what was queued. */
  lemma {:induction false} QueueHistory(s: System, e: Event, r: RouterId)
    ensures var h := Step(s, e).h;
            && At(h.enqueued, r) == (if e.Enqueue? && e.r == r && e.cmd.id !in s.h.usedIds
                                     then At(s.h.enqueued, r) + [e.cmd] else At(s.h.enqueued, r))
            && (forall c :: (r, c) in h.accepted <==>
                              (r, c) in s.h.accepted || (e == Enqueue(r, c, true) && c.id !in s.h.usedIds))
            && (forall c :: (r, c) in h.removed <==>
                              || (r, c) in s.h.removed
                              || (e == RemoveRouter(r, true) && r in s.db.mem.registry && c in Pending(s.db.mem, r)))
  {
    if AgentEvent(e) { AgentKeepsQueues(s, e); }
  }

  /** A poll that the server saves hands out the first queued command. */
  lemma {:induction false} HandedHistory(s: System, e: Event, r: RouterId)
    ensures var p := Pending(s.db.mem, r);
            At(Step(s, e).h.handed, r) == if && e.ServePoll? && e.r == r && e.saves && p != []
                                             && PollRequest(r, e.req) in s.net
                                          then At(s.h.handed, r) + [p[0]] else At(s.h.handed, r)
  {
    if AgentEvent(e) {
      AgentKeepsQueues(s, e);
    } else if e.ServePoll? {
      DequeueQueues(s.db, e.r, e.now, e.saves, e.r);
    }
  }

  /** The agent executes the command a 200 brings, and finishing it makes a result. */
  lemma {:induction false} AgentHistory(s: System, e: Event, r: RouterId)
    ensures var h, p := Step(s, e).h, PhaseOf(s, r);
            && At(h.handled, r) == (if && e.PollAnswered? && e.r == r && e.ok && e.answer.Some? && p.Polling?
                                       && PollResponse(r, p.req, e.answer, true) in s.net
                                    then At(s.h.handled, r) + [e.answer.value] else At(s.h.handled, r))
            && At(h.produced, r) == (if e.Finished? && e.r == r && p.Executing?
                                     then At(s.h.produced, r) + [Result(p.cmd.id, e.output, e.err)]
                                     else At(s.h.produced, r))
  {
  }

  /** A posted result is recorded when its save works. */
  lemma {:induction false} RecordHistory(s: System, e: Event, r: RouterId, x: Result)
    ensures (r, x) in Step(s, e).h.recorded <==>
              || (r, x) in s.h.recorded
              || (e.ServeResult? && e == ServeResult(r, e.req, x, true) && ResultRequest(r, e.req, x) in s.net)
  {
  }

  // ---- every run ----

  ghost predicate Inv(s: System) {
    QueueInv(s) && NetInv(s) && AgentInv(s) && OrderInv(s) && RemovedInv(s)
  }

  /** A first start: the store file holds no queued commands. */
  ghost predicate Fresh(db: State) {
    forall r :: Pending(db, r) == []
  }

  lemma {:induction false} InitInv(db: State)
    requires Fresh(db)
    ensures Inv(Init(db))
  {
  }

  lemma {:induction false} RunInv(db: State, es: seq<Event>)
    requires Fresh(db)
    ensures Inv(Run(Init(db), es))
    decreases |es|
  {
    if es == [] {
      InitInv(db);
    } else {
      var s := Run(Init(db), es[..|es| - 1]);
      RunInv(db, es[..|es| - 1]);
      StepKeepsQueues(s, es[|es| - 1]);
      StepKeepsNet(s, es[|es| - 1]);
      StepKeepsAgents(s, es[|es| - 1]);
      StepKeepsOrder(s, es[|es| - 1]);
      StepKeepsRemoved(s, es[|es| - 1]);
    }
  }

  /** What was queued when its router was removed leaves both copies of the
      queue, was never handed out and never will be, even to a router that is
      added later under the same id. */
  lemma {:induction false} RemovedIsGone(db: State, es: seq<Event>, r: RouterId, c: Command)
    requires Fresh(db)
    requires (r, c) in Run(Init(db), es).h.removed
    ensures var s := Run(Init(db), es);
            c !in Pending(s.db.mem, r) && c !in Pending(s.db.disk, r) && c !in At(s.h.handed, r)
  {
    RunInv(db, es);
    assert Gone(Run(Init(db), es), r, c);
  }

  /** Each queued command is handed out at most once, and what a router is
      handed is its Enqueue calls in order, some left out. */
  lemma {:induction false} HandedOutOnceInOrder(db: State, es: seq<Event>, r: RouterId)
    requires Fresh(db)
    ensures var h := Run(Init(db), es).h;
            NoRepeats(At(h.handed, r)) && Subseq(At(h.handed, r), At(h.enqueued, r)) && DistinctIds(At(h.enqueued, r))
  {
    RunInv(db, es);
    var s := Run(Init(db), es);
    assert QueueOk(s, r);
    Prefix(At(s.h.handed, r), Pending(s.db.mem, r), At(s.h.enqueued, r));
    SubseqNoRepeats(At(s.h.handed, r), At(s.h.enqueued, r));
  }

  /** The agent executes a command at most once, only one it was handed, in the
      order it was handed them and hence in the order of the Enqueue calls. */
  lemma {:induction false} ExecutedOnceInOrder(db: State, es: seq<Event>, r: RouterId)
    requires Fresh(db)
    ensures var h := Run(Init(db), es).h;
            && NoRepeats(At(h.handled, r)) && (forall c :: c in At(h.handled, r) ==> c in At(h.handed, r))
            && Subseq(At(h.handled, r), At(h.handed, r)) && Subseq(At(h.handled, r), At(h.enqueued, r))
  {
    RunInv(db, es);
    HandedOutOnceInOrder(db, es, r);
    var h := Run(Init(db), es).h;
    assert AgentOk(Run(Init(db), es), r) && OrderOk(Run(Init(db), es), r);
    SubseqMembers(At(h.handled, r), At(h.handed, r));
    SubseqTrans(At(h.handled, r), At(h.handed, r), At(h.enqueued, r));
  }

  /** An accepted command stays in the store file until it is handed out or its
      router is removed, whatever saves fail and however often the server restarts. */
  lemma {:induction false} AcceptedNotLost(db: State, es: seq<Event>, r: RouterId, c: Command)
    requires Fresh(db)
    requires (r, c) in Run(Init(db), es).h.accepted
    ensures var s := Run(Init(db), es);
            c in Pending(s.db.disk, r) || c in At(s.h.handed, r) || (r, c) in s.h.removed
  {
    RunInv(db, es);
    var s := Run(Init(db), es);
    assert QueueOk(s, r) && Kept(s, r, c);
  }

  lemma {:induction false} LostOnlyByRestart(db: State, es: seq<Event>, r: RouterId)
    requires forall e :: e in es ==> e != AgentRestart(r)
    ensures var h := Run(Init(db), es).h;
            (forall x :: (r, x) !in h.lost) && forall c :: (r, c) !in h.cut
    decreases |es|
  {
    if es != [] {
      var front := es[..|es| - 1];
      assert es == front + [es[|es| - 1]];
      assert es[|es| - 1] in es;
      forall e | e in front ensures e != AgentRestart(r) { assert e in es; }
      LostOnlyByRestart(db, front, r);
      LossNeedsRestart(Run(Init(db), front), es[|es| - 1], r);
    }
  }

  lemma {:induction false} LossNeedsRestart(s: System, e: Event, r: RouterId)
    requires e != AgentRestart(r)
    ensures var h := Step(s, e).h;
            (forall x :: (r, x) in h.lost ==> (r, x) in s.h.lost) && forall c :: (r, c) in h.cut ==> (r, c) in s.h.cut
  {
  }

  /** While the agent process lives, what it executed has a result, and every
      result is recorded at the server or held in the one retry slot. */
  lemma {:induction false} ResultsConserved(db: State, es: seq<Event>, r: RouterId)
    requires Fresh(db)
    requires forall e :: e in es ==> e != AgentRestart(r)
    ensures var s := Run(Init(db), es);
            forall x :: x in At(s.h.produced, r) ==> (r, x) in s.h.recorded || Slot(PhaseOf(s, r)) == Some(x)
    ensures var s := Run(Init(db), es);
            forall c :: c in At(s.h.handled, r) ==> PhaseOf(s, r) == Executing(c) || Produced(s, r, c)
  {
    RunInv(db, es);
    LostOnlyByRestart(db, es, r);
    var s := Run(Init(db), es);
    assert AgentOk(s, r);
    forall x | x in At(s.h.produced, r) ensures (r, x) in s.h.recorded || Slot(PhaseOf(s, r)) == Some(x) {
      assert Safe(s, r, x);
    }
    forall c | c in At(s.h.handled, r) ensures PhaseOf(s, r) == Executing(c) || Produced(s, r, c) {
      assert Accounted(s, r, c);
    }
  }

  /** When an agent polls or executes, every earlier result of its is recorded. */
  lemma {:induction false} NothingOwedWhileWorking(db: State, es: seq<Event>, r: RouterId)
    requires Fresh(db)
    requires forall e :: e in es ==> e != AgentRestart(r)
    requires var p := PhaseOf(Run(Init(db), es), r); p.Polling? || p.Executing?
    ensures var s := Run(Init(db), es);
            forall x :: x in At(s.h.produced, r) ==> (r, x) in s.h.recorded
  {
    ResultsConserved(db, es, r);
  }

  /** The slot is emptied only by a 200, and a 200 means the result is recorded. */
  lemma {:induction false} SlotDroppedOnlyAfterRecord(s: System, e: Event, r: RouterId, x: Result)
    requires Inv(s) && Slot(PhaseOf(s, r)) == Some(x)
    requires Slot(PhaseOf(Step(s, e), r)) != Some(x) && e != AgentRestart(r)
    ensures e == PostAnswered(r, true) && (r, x) in s.h.recorded
  {
    assert AgentOk(s, r);
    if !(AgentEvent(e) && e.r == r) { FramePart(s, e, r); }
  }

  /** While the slot is full the agent neither polls nor executes. */
  lemma {:induction false} FullSlotBlocksWork(s: System, e: Event, r: RouterId)
    requires Slot(PhaseOf(s, r)).Some?
    ensures var t := Step(s, e);
            && At(t.h.handled, r) == At(s.h.handled, r)
            && forall q :: PollRequest(r, q) in t.net ==> PollRequest(r, q) in s.net
  {
  }

  /** What `recorded` stands for: a successful save put the result in the file. */
  lemma {:induction false} RecordedIsOnDisk(s: System, r: RouterId, req: nat, x: Result, saves: bool)
    requires (r, x) !in s.h.recorded && (r, x) in ServeResultNext(s, r, req, x, saves).h.recorded
    ensures var file := Router(ServeResultNext(s, r, req, x, saves).db.disk, r);
            file.lastResult == Some(x) && x in file.recent
  {
    var recent := Router(s.db.mem, r).recent + [x];
    assert LastN(recent, MAX_RECENT_RESULTS)[|LastN(recent, MAX_RECENT_RESULTS)| - 1] == x;
  }
}
