/** The agent's loop body as the program runs it: one call of `pollOnce`,
    with the outcomes of its requests as parameters. */
module AgentLoop {
  import opened Wrappers
  import opened QueueStore
  import opened Delivery

  /** What one agent phase can meet next; a request carries its fresh number. */
  datatype Input =
    | Ticked(req: nat)
    | Answered(answer: Option<Command>)
    | Executed(output: string, err: string, req: nat)
    | Posted(ok: bool)

  function Move(p: Phase, i: Input): Phase {
    match (p, i)
    case (Idle(None), Ticked(req)) => Polling(req)
    case (Idle(Some(result)), Ticked(req)) => Posting(req, result)
    case (Polling(_), Answered(Some(cmd))) => Executing(cmd)
    case (Polling(_), Answered(None)) => Idle(None)
    case (Executing(cmd), Executed(output, err, req)) => Posting(req, Result(cmd.id, output, err))
    case (Posting(_, result), Posted(ok)) => Idle(if ok then None else Some(result))
    case _ => p
  }

  function Moves(p: Phase, inputs: seq<Input>): Phase {
    if inputs == [] then p else Move(Moves(p, inputs[..|inputs| - 1]), inputs[|inputs| - 1])
  }

  lemma {:induction false} MovesAppend(p: Phase, inputs: seq<Input>, i: Input)
    ensures Moves(p, inputs + [i]) == Move(Moves(p, inputs), i)
  {
    assert (inputs + [i])[..|inputs|] == inputs;
  }

  /** The inputs of one `pollOnce`, whose requests get the numbers req and next. */
  function Trace(unposted: Option<Result>, fetched: Option<Command>, output: string, err: string, posts: bool,
                 req: nat, next: nat): seq<Input>
  {
    if unposted.Some? then [Ticked(req)] + [Posted(posts)]
    else if fetched.None? then [Ticked(req)] + [Answered(None)]
    else [Ticked(req)] + [Answered(fetched)] + [Executed(output, err, next)] + [Posted(posts)]
  }

  /** What one `pollOnce` leaves undelivered. */
  function Owed(unposted: Option<Result>, fetched: Option<Command>, output: string, err: string, posts: bool)
    : Option<Result>
  {
    if posts then None
    else if unposted.Some? then unposted
    else if fetched.Some? then Some(Result(fetched.value.id, output, err))
    else None
  }

  lemma {:induction false} TraceMoves(unposted: Option<Result>, fetched: Option<Command>, output: string, err: string,
                                      posts: bool, req: nat, next: nat)
    ensures Moves(Idle(unposted), Trace(unposted, fetched, output, err, posts, req, next))
         == Idle(Owed(unposted, fetched, output, err, posts))
  {
    var p, first := Idle(unposted), [Ticked(req)];
    MovesAppend(p, [], Ticked(req));
    assert [] + first == first;
    if unposted.Some? {
      MovesAppend(p, first, Posted(posts));
    } else {
      MovesAppend(p, first, Answered(fetched));
      MovesAppend(p, first + [Answered(fetched)], Executed(output, err, next));
      MovesAppend(p, first + [Answered(fetched)] + [Executed(output, err, next)], Posted(posts));
    }
  }

  /** `pollOnce`: deliver what is owed, or else poll, execute and deliver. */
  method PollOnce(unposted: Option<Result>, fetched: Option<Command>, output: string, err: string,
                  posts: bool, ghost req: nat, ghost next: nat)
    returns (still: Option<Result>, executed: Option<Command>, ghost trace: seq<Input>)
    ensures executed == if unposted.None? then fetched else None
    ensures still == if posts then None
                     else if unposted.Some? then unposted
                     else if fetched.Some? then Some(Result(fetched.value.id, output, err))
                     else None
    ensures trace == Trace(unposted, fetched, output, err, posts, req, next)
    ensures Moves(Idle(unposted), trace) == Idle(still)
  {
    TraceMoves(unposted, fetched, output, err, posts, req, next);
    trace := [Ticked(req)];
    executed := None;
    if unposted.Some? {
      var stillUnposted := None;
      trace := trace + [Posted(posts)];
      if !posts {
        stillUnposted := unposted;
      }
      return stillUnposted, None, trace;
    }
    var cmd := fetched;
    trace := trace + [Answered(cmd)];
    if cmd.None? {
      return None, None, trace;
    }
    var result := Result(cmd.value.id, output, err);
    executed := cmd;
    trace := trace + [Executed(output, err, next)];
    var unpostedResult := None;
    if !posts {
      unpostedResult := Some(result);
    }
    trace := trace + [Posted(posts)];
    still := unpostedResult;
  }

  /** The event of the distributed system an input stands for. A request that
      fails or times out is an answer that never comes. */
  function EventOf(r: RouterId, i: Input): Event {
    match i
    case Ticked(_) => Tick(r)
    case Answered(Some(cmd)) => PollAnswered(r, Some(cmd), true)
    case Answered(None) => PollFailed(r)
    case Executed(output, err, _) => Finished(r, output, err)
    case Posted(ok) => if ok then PostAnswered(r, true) else PostFailed(r)
  }

  /** Whether the system can take the step now: numbers are the next fresh one,
      and an answer is on the network. */
  predicate Enabled(s: System, r: RouterId, i: Input) {
    var p := PhaseOf(s, r);
    match i
    case Ticked(req) => p.Idle? && req == s.nextReq
    case Answered(Some(cmd)) => p.Polling? && PollResponse(r, p.req, Some(cmd), true) in s.net
    case Answered(None) => p.Polling?
    case Executed(_, _, req) => p.Executing? && req == s.nextReq
    case Posted(ok) => p.Posting? && (ok ==> ResultResponse(r, p.req, true) in s.net)
  }

  /** The command an input makes the agent execute. */
  function Started(p: Phase, i: Input): seq<Command> {
    if p.Polling? && i.Answered? && i.answer.Some? then [i.answer.value] else []
  }

  /** Each move of the loop body is a step of the distributed system. */
  lemma {:induction false} MoveIsStep(s: System, r: RouterId, i: Input)
    requires Enabled(s, r, i)
    ensures var t := Step(s, EventOf(r, i));
            && PhaseOf(t, r) == Move(PhaseOf(s, r), i)
            && At(t.h.handled, r) == At(s.h.handled, r) + Started(PhaseOf(s, r), i)
  {
  }

  // ---- the whole loop body as a run ----

  /** In the run es from s the agent r makes exactly the moves `inputs`, each
      when it is enabled, whatever everyone else does in between. */
  ghost predicate Plays(s: System, r: RouterId, es: seq<Event>, inputs: seq<Input>)
    decreases |es|
  {
    if es == [] then inputs == []
    else
      var front, e := es[..|es| - 1], es[|es| - 1];
      if !AgentEvent(e) || e.r != r then Plays(s, r, front, inputs)
      else
        && inputs != []
        && var i := inputs[|inputs| - 1];
           e == EventOf(r, i) && Enabled(Run(s, front), r, i) && Plays(s, r, front, inputs[..|inputs| - 1])
  }

  function AllStarted(p: Phase, inputs: seq<Input>): seq<Command> {
    if inputs == [] then []
    else
      var front := inputs[..|inputs| - 1];
      AllStarted(p, front) + Started(Moves(p, front), inputs[|inputs| - 1])
  }

  lemma {:induction false} StartedAppend(p: Phase, inputs: seq<Input>, i: Input)
    ensures AllStarted(p, inputs + [i]) == AllStarted(p, inputs) + Started(Moves(p, inputs), i)
  {
    assert (inputs + [i])[..|inputs|] == inputs;
  }

  lemma {:induction false} MovesGrow(p: Phase, before: seq<Command>, inputs: seq<Input>, i: Input, q: Phase,
                                     handled: seq<Command>)
    requires q == Moves(p, inputs) && handled == before + AllStarted(p, inputs)
    ensures Move(q, i) == Moves(p, inputs + [i])
    ensures handled + Started(q, i) == before + AllStarted(p, inputs + [i])
  {
    MovesAppend(p, inputs, i);
    StartedAppend(p, inputs, i);
    assert before + AllStarted(p, inputs) + Started(q, i) == before + (AllStarted(p, inputs) + Started(q, i));
  }

  lemma {:induction false} PlaysMoves(s: System, r: RouterId, es: seq<Event>, inputs: seq<Input>)
    requires Plays(s, r, es, inputs)
    ensures PhaseOf(Run(s, es), r) == Moves(PhaseOf(s, r), inputs)
    ensures At(Run(s, es).h.handled, r) == At(s.h.handled, r) + AllStarted(PhaseOf(s, r), inputs)
    decreases |es|
  {
    if es != [] {
      var front, e := es[..|es| - 1], es[|es| - 1];
      if !AgentEvent(e) || e.r != r {
        PlaysMoves(s, r, front, inputs);
        FramePart(Run(s, front), e, r);
      } else {
        var first, i := inputs[..|inputs| - 1], inputs[|inputs| - 1];
        assert inputs == first + [i] && e == EventOf(r, i) && Plays(s, r, front, first);
        PlaysMoves(s, r, front, first);
        LastMove(s, Run(s, front), r, first, i);
      }
    }
  }

  lemma {:induction false} LastMove(s: System, u: System, r: RouterId, first: seq<Input>, i: Input)
    requires Enabled(u, r, i) && PhaseOf(u, r) == Moves(PhaseOf(s, r), first)
    requires At(u.h.handled, r) == At(s.h.handled, r) + AllStarted(PhaseOf(s, r), first)
    ensures PhaseOf(Step(u, EventOf(r, i)), r) == Moves(PhaseOf(s, r), first + [i])
    ensures At(Step(u, EventOf(r, i)).h.handled, r) == At(s.h.handled, r) + AllStarted(PhaseOf(s, r), first + [i])
  {
    MoveIsStep(u, r, i);
    MovesGrow(PhaseOf(s, r), At(s.h.handled, r), first, i, PhaseOf(u, r), At(u.h.handled, r));
  }

  /** A whole `pollOnce` in any run: the slot ends up as the method says, and the
      agent has executed exactly the command the method executed. */
  lemma {:induction false} OnceInRun(s: System, r: RouterId, es: seq<Event>, unposted: Option<Result>,
                                     fetched: Option<Command>, output: string, err: string, posts: bool,
                                     req: nat, next: nat)
    requires PhaseOf(s, r) == Idle(unposted)
    requires Plays(s, r, es, Trace(unposted, fetched, output, err, posts, req, next))
    ensures var t := Run(s, es);
            && PhaseOf(t, r) == Idle(Owed(unposted, fetched, output, err, posts))
            && At(t.h.handled, r)
                 == At(s.h.handled, r) + if unposted.None? && fetched.Some? then [fetched.value] else []
  {
    var inputs := Trace(unposted, fetched, output, err, posts, req, next);
    PlaysMoves(s, r, es, inputs);
    TraceMoves(unposted, fetched, output, err, posts, req, next);
    TraceStarts(unposted, fetched, output, err, posts, req, next);
  }

  lemma {:induction false} TraceStarts(unposted: Option<Result>, fetched: Option<Command>, output: string, err: string,
                                       posts: bool, req: nat, next: nat)
    ensures AllStarted(Idle(unposted), Trace(unposted, fetched, output, err, posts, req, next))
         == if unposted.None? && fetched.Some? then [fetched.value] else []
  {
    var p, first := Idle(unposted), [Ticked(req)];
    MovesAppend(p, [], Ticked(req));
    StartedAppend(p, [], Ticked(req));
    assert [] + first == first;
    if unposted.Some? {
      StartedAppend(p, first, Posted(posts));
    } else {
      MovesAppend(p, first, Answered(fetched));
      StartedAppend(p, first, Answered(fetched));
      MovesAppend(p, first + [Answered(fetched)], Executed(output, err, next));
      StartedAppend(p, first + [Answered(fetched)], Executed(output, err, next));
      StartedAppend(p, first + [Answered(fetched)] + [Executed(output, err, next)], Posted(posts));
    }
  }

  // ---- every outcome of the loop body happens ----

  lemma {:induction false} RunAppend(s: System, es: seq<Event>, e: Event)
    ensures Run(s, es + [e]) == Step(Run(s, es), e)
  {
    assert (es + [e])[..|es|] == es;
  }

  /** es leads from s to t while r makes the moves `inputs`. */
  ghost predicate Leads(s: System, r: RouterId, es: seq<Event>, inputs: seq<Input>, t: System) {
    Plays(s, r, es, inputs) && Run(s, es) == t
  }

  lemma {:induction false} PlaysOn(s: System, r: RouterId, es: seq<Event>, inputs: seq<Input>, i: Input, e: Event)
    requires Plays(s, r, es, inputs) && AgentEvent(e) && e.r == r && e == EventOf(r, i) && Enabled(Run(s, es), r, i)
    ensures Plays(s, r, es + [e], inputs + [i])
  {
    assert (es + [e])[..|es|] == es && (inputs + [i])[..|inputs|] == inputs;
  }

  lemma {:induction false} LeadsOn(s: System, r: RouterId, es: seq<Event>, inputs: seq<Input>, t: System, i: Input)
    requires Leads(s, r, es, inputs, t) && Enabled(t, r, i)
    ensures Leads(s, r, es + [EventOf(r, i)], inputs + [i], Step(t, EventOf(r, i)))
  {
    PlaysOn(s, r, es, inputs, i, EventOf(r, i));
    RunAppend(s, es, EventOf(r, i));
  }

  lemma {:induction false} LeadsByServer(s: System, r: RouterId, es: seq<Event>, inputs: seq<Input>, t: System, e: Event)
    requires Leads(s, r, es, inputs, t) && !AgentEvent(e)
    ensures Leads(s, r, es + [e], inputs, Step(t, e))
  {
    var es' := es + [e];
    RunAppend(s, es, e);
    assert es'[..|es|] == es;
  }

  // What the single steps do, on the states alone.

  lemma {:induction false} Ticks(s: System, r: RouterId)
    requires PhaseOf(s, r).Idle?
    ensures var t := Step(s, Tick(r));
            && Enabled(s, r, Ticked(s.nextReq)) && t.nextReq == s.nextReq + 1 && t.db == s.db
            && match PhaseOf(s, r).unposted
               case None => PhaseOf(t, r) == Polling(s.nextReq) && PollRequest(r, s.nextReq) in t.net
               case Some(x) => PhaseOf(t, r) == Posting(s.nextReq, x) && ResultRequest(r, s.nextReq, x) in t.net
  {
  }

  lemma {:induction false} Serves(t: System, r: RouterId)
    requires PhaseOf(t, r).Polling? && PollRequest(r, PhaseOf(t, r).req) in t.net && Pending(t.db.mem, r) != []
    ensures var u := Step(t, ServePoll(r, PhaseOf(t, r).req, 0, true));
            && PhaseOf(u, r) == PhaseOf(t, r) && u.nextReq == t.nextReq
            && Enabled(u, r, Answered(Some(Pending(t.db.mem, r)[0])))
  {
    DequeueQueues(t.db, r, 0, true, r);
  }

  lemma {:induction false} Executes(u: System, r: RouterId, cmd: Command)
    requires Enabled(u, r, Answered(Some(cmd)))
    ensures var v := Step(u, PollAnswered(r, Some(cmd), true));
            PhaseOf(v, r) == Executing(cmd) && v.nextReq == u.nextReq
  {
  }

  lemma {:induction false} Finishes(v: System, r: RouterId, output: string, err: string)
    requires PhaseOf(v, r).Executing?
    ensures var w := Step(v, Finished(r, output, err));
            var p := PhaseOf(w, r);
            && Enabled(v, r, Executed(output, err, v.nextReq))
            && p.Posting? && ResultRequest(r, p.req, p.result) in w.net
  {
  }

  lemma {:induction false} Records(t: System, r: RouterId)
    requires var p := PhaseOf(t, r); p.Posting? && ResultRequest(r, p.req, p.result) in t.net
    ensures var p := PhaseOf(t, r);
            Enabled(Step(t, ServeResult(r, p.req, p.result, true)), r, Posted(true)) && Enabled(t, r, Posted(false))
  {
  }

  /** The result is posted, and the server saves it, or the post fails. */
  lemma {:induction false} PostHappens(s: System, r: RouterId, es: seq<Event>, inputs: seq<Input>, t: System, posts: bool)
    returns (es': seq<Event>)
    requires Leads(s, r, es, inputs, t)
    requires var p := PhaseOf(t, r); p.Posting? && ResultRequest(r, p.req, p.result) in t.net
    ensures Plays(s, r, es', inputs + [Posted(posts)])
  {
    var p := PhaseOf(t, r);
    Records(t, r);
    if posts {
      var saved := ServeResult(r, p.req, p.result, true);
      LeadsByServer(s, r, es, inputs, t, saved);
      LeadsOn(s, r, es + [saved], inputs, Step(t, saved), Posted(true));
      es' := es + [saved] + [EventOf(r, Posted(true))];
    } else {
      LeadsOn(s, r, es, inputs, t, Posted(false));
      es' := es + [EventOf(r, Posted(false))];
    }
  }

  /** The server hands out the first command of the queue, and the agent gets it. */
  lemma {:induction false} FetchHappens(s: System, r: RouterId, es: seq<Event>, inputs: seq<Input>, t: System, cmd: Command)
    returns (es': seq<Event>, v: System)
    requires Leads(s, r, es, inputs, t)
    requires PhaseOf(t, r).Polling? && PollRequest(r, PhaseOf(t, r).req) in t.net
    requires Pending(t.db.mem, r) != [] && cmd == Pending(t.db.mem, r)[0]
    ensures Leads(s, r, es', inputs + [Answered(Some(cmd))], v)
    ensures PhaseOf(v, r) == Executing(cmd) && v.nextReq == t.nextReq
  {
    var served := ServePoll(r, PhaseOf(t, r).req, 0, true);
    var u := Step(t, served);
    Serves(t, r);
    Executes(u, r, cmd);
    LeadsByServer(s, r, es, inputs, t, served);
    LeadsOn(s, r, es + [served], inputs, u, Answered(Some(cmd)));
    es', v := es + [served] + [EventOf(r, Answered(Some(cmd)))], Step(u, PollAnswered(r, Some(cmd), true));
  }

  lemma {:induction false} TickHappens(s: System, r: RouterId)
    requires PhaseOf(s, r).Idle?
    ensures Leads(s, r, [Tick(r)], [Ticked(s.nextReq)], Step(s, Tick(r)))
  {
    Ticks(s, r);
    LeadsOn(s, r, [], [], s, Ticked(s.nextReq));
    assert [] + [Tick(r)] == [Tick(r)] && [] + [Ticked(s.nextReq)] == [Ticked(s.nextReq)];
  }

  /** From any state in which the agent is idle, whatever it owes, there is a run
      for each outcome of `pollOnce`; it fetches the first command of the queue. */
  lemma {:induction false} OnceHappens(s: System, r: RouterId, unposted: Option<Result>, fetched: Option<Command>,
                                       output: string, err: string, posts: bool) returns (es: seq<Event>)
    requires PhaseOf(s, r) == Idle(unposted)
    requires fetched.Some? ==> Pending(s.db.mem, r) != [] && fetched.value == Pending(s.db.mem, r)[0]
    ensures Plays(s, r, es, Trace(unposted, fetched, output, err, posts, s.nextReq, s.nextReq + 1))
  {
    var t := Step(s, Tick(r));
    Ticks(s, r);
    TickHappens(s, r);
    if unposted.Some? {
      es := PostHappens(s, r, [Tick(r)], [Ticked(s.nextReq)], t, posts);
    } else if fetched.None? {
      LeadsOn(s, r, [Tick(r)], [Ticked(s.nextReq)], t, Answered(None));
      es := [Tick(r)] + [PollFailed(r)];
    } else {
      var v;
      es, v := FetchHappens(s, r, [Tick(r)], [Ticked(s.nextReq)], t, fetched.value);
      es := WorkHappens(s, r, es, [Ticked(s.nextReq)] + [Answered(fetched)], v, output, err, posts);
    }
  }

  /** The command is carried out and its result posted. */
  lemma {:induction false} WorkHappens(s: System, r: RouterId, es: seq<Event>, inputs: seq<Input>, v: System,
                                       output: string, err: string, posts: bool) returns (es': seq<Event>)
    requires Leads(s, r, es, inputs, v) && PhaseOf(v, r).Executing?
    ensures Plays(s, r, es', inputs + [Executed(output, err, v.nextReq)] + [Posted(posts)])
  {
    var done := Executed(output, err, v.nextReq);
    Finishes(v, r, output, err);
    LeadsOn(s, r, es, inputs, v, done);
    es' := PostHappens(s, r, es + [Finished(r, output, err)], inputs + [done], Step(v, Finished(r, output, err)), posts);
  }
}
