/** cmd/keenetic-xray-control-server: the gate that keeps port 80 open only
    while the server talks to the ACME certificate authority. Every operation
    holds the gate's mutex, so it is one atomic step; timer callbacks may run at
    any later time, even after a Stop that came too late. */
module AcmeGate {
  import opened Wrappers

  /** The gate's fields, and the timer callbacks that may still run. A timer is
      named by the generation it was armed with. */
  datatype GateState = GateState(
    open: bool,
    inflight: int,
    idleStop: Option<nat>,
    gen: nat,
    closed: bool,
    timers: set<nat>)

  datatype Event =
    | Acquire(binds: bool, stops: bool)
    | Release
    | Fire(timer: nat)
    | Close(stops: bool)

  const INITIAL := GateState(false, 0, None, 0, false, {})

  /** Stop prevents the callback, or comes too late and leaves it to run. */
  function CancelIdle(g: GateState, stops: bool): GateState {
    g.(idleStop := None, gen := g.gen + 1,
       timers := if g.idleStop.Some? && stops then g.timers - {g.idleStop.value} else g.timers)
  }

  function AcquireStep(g: GateState, binds: bool, stops: bool): GateState {
    if g.closed then g
    else
      var c := CancelIdle(g, stops);
      if !c.open && !binds then c
      else c.(open := true, inflight := c.inflight + 1)
  }

  function ReleaseStep(g: GateState): GateState {
    var d := g.(inflight := g.inflight - 1);
    if d.inflight > 0 || !d.open || d.closed then d
    else d.(gen := d.gen + 1, idleStop := Some(d.gen + 1), timers := d.timers + {d.gen + 1})
  }

  function FireStep(g: GateState, timer: nat): GateState {
    var f := g.(timers := g.timers - {timer});
    if g.gen != timer || g.inflight > 0 || !g.open then f
    else f.(idleStop := None, open := false)
  }

  function CloseStep(g: GateState, stops: bool): GateState {
    CancelIdle(g.(closed := true), stops).(open := false)
  }

  /** A request is released once after it was acquired; only armed timers fire. */
  function Step(g: GateState, e: Event): GateState {
    match e
    case Acquire(binds, stops) => AcquireStep(g, binds, stops)
    case Release => if g.inflight > 0 then ReleaseStep(g) else g
    case Fire(timer) => if timer in g.timers then FireStep(g, timer) else g
    case Close(stops) => CloseStep(g, stops)
  }

  function Run(g: GateState, es: seq<Event>): GateState {
    if es == [] then g else Step(Run(g, es[..|es| - 1]), es[|es| - 1])
  }

  predicate Pending(g: GateState) {
    g.gen in g.timers
  }

  ghost predicate Inv(g: GateState) {
    && g.inflight >= 0
    && (forall t :: t in g.timers ==> t <= g.gen)
    && (g.idleStop.Some? <==> Pending(g))
    && (g.idleStop.Some? ==> g.idleStop.value == g.gen)
    && (!g.closed ==> (g.open <==> g.inflight > 0 || Pending(g)) && !(g.inflight > 0 && Pending(g)))
    && (g.closed ==> !g.open && !Pending(g))
  }

  class Gate {
    var open: bool
    var inflight: int
    var idleStop: Option<nat>
    var gen: nat
    var closed: bool
    /** The runtime's side: callbacks that may still come. */
    var timers: set<nat>

    ghost function View(): GateState
      reads this
    {
      GateState(open, inflight, idleStop, gen, closed, timers)
    }

    constructor ()
      ensures View() == INITIAL
    {
      open, inflight, idleStop, gen, closed, timers := false, 0, None, 0, false, {};
    }

    method CancelIdleLocked(stops: bool)
      modifies this
      ensures View() == CancelIdle(old(View()), stops)
      ensures idleStop == None && gen == old(gen) + 1
      ensures open == old(open) && inflight == old(inflight) && closed == old(closed)
      ensures timers == if stops && old(idleStop).Some? then old(timers) - {old(idleStop).value} else old(timers)
    {
      if idleStop.Some? {
        if stops { timers := timers - {idleStop.value}; }
        idleStop := None;
      }
      gen := gen + 1;
    }

    method Acquire(binds: bool, stops: bool) returns (ok: bool)
      requires Inv(View())
      modifies this
      ensures View() == AcquireStep(old(View()), binds, stops) && Inv(View())
      ensures ok <==> !old(closed) && (old(open) || binds)
      ensures ok ==> open && inflight == old(inflight) + 1 && !Pending(View())
      ensures !ok ==> open == old(open) && inflight == old(inflight)
      ensures closed == old(closed)
      ensures if closed then View() == old(View()) else idleStop == None && gen == old(gen) + 1
      ensures !closed ==> timers == if stops && old(idleStop).Some? then old(timers) - {old(idleStop).value} else old(timers)
    {
      if closed {
        return false;
      }
      CancelIdleLocked(stops);
      if !open {
        if !binds {
          return false;
        }
        open := true;
      }
      inflight := inflight + 1;
      ok := true;
    }

    method Release()
      requires Inv(View()) && inflight > 0
      modifies this
      ensures View() == ReleaseStep(old(View())) && Inv(View())
      ensures !closed && inflight == 0 ==> open && Pending(View())
      ensures inflight == old(inflight) - 1 && open == old(open) && closed == old(closed)
      ensures if inflight == 0 && open
              then gen == old(gen) + 1 && idleStop == Some(gen) && timers == old(timers) + {gen}
              else gen == old(gen) && idleStop == old(idleStop) && timers == old(timers)
    {
      inflight := inflight - 1;
      if inflight > 0 || !open || closed {
        return;
      }
      gen := gen + 1;
      idleStop := Some(gen);
      timers := timers + {gen};
    }

    /** The idle timer's callback. */
    method CloseIdle(timer: nat)
      requires Inv(View()) && timer in timers
      modifies this
      ensures View() == FireStep(old(View()), timer) && Inv(View())
      ensures open == (old(open) && timer != old(gen))
      ensures inflight == old(inflight) && gen == old(gen) && closed == old(closed) && timers == old(timers) - {timer}
      ensures idleStop == if timer == gen then None else old(idleStop)
    {
      timers := timers - {timer};
      if gen != timer || inflight > 0 || !open {
        return;
      }
      idleStop := None;
      open := false;
    }

    method Close(stops: bool)
      requires Inv(View())
      modifies this
      ensures View() == CloseStep(old(View()), stops) && Inv(View())
      ensures closed && !open && !Pending(View())
      ensures inflight == old(inflight) && idleStop == None && gen == old(gen) + 1
      ensures timers == if stops && old(idleStop).Some? then old(timers) - {old(idleStop).value} else old(timers)
    {
      closed := true;
      CancelIdleLocked(stops);
      if open {
        open := false;
      }
    }
  }

  lemma {:induction false} StepKeepsInv(g: GateState, e: Event)
    requires Inv(g)
    ensures Inv(Step(g, e))
  {
  }

  /** The invariant holds after every sequence of steps, callbacks in any order. */
  lemma {:induction false} RunKeepsInv(es: seq<Event>)
    ensures Inv(Run(INITIAL, es))
    decreases |es|
  {
    if es != [] {
      RunKeepsInv(es[..|es| - 1]);
      StepKeepsInv(Run(INITIAL, es[..|es| - 1]), es[|es| - 1]);
    }
  }

  /** A request is let in exactly when the gate is not closed and the port is
      open or can be bound, however many others are in flight; each admitted
      request is counted until it is released. */
  lemma {:induction false} LetInExactly(es: seq<Event>, binds: bool, stops: bool)
    ensures var g := Run(INITIAL, es); var t := Step(g, Acquire(binds, stops));
            && (t.inflight == g.inflight + 1 <==> !g.closed && (g.open || binds))
            && (t.inflight == g.inflight || t.inflight == g.inflight + 1)
            && Step(t, Release).inflight == if t.inflight > 0 then t.inflight - 1 else 0
  {
    RunKeepsInv(es);
    StepKeepsInv(Run(INITIAL, es), Acquire(binds, stops));
  }

  /** Until it is closed for good the port is open exactly while a request is
      in flight or the one current timer is pending, never both. */
  lemma {:induction false} OpenExactlyWhenNeeded(es: seq<Event>)
    ensures var g := Run(INITIAL, es);
            !g.closed ==> (g.open <==> g.inflight > 0 || Pending(g)) && !(g.inflight > 0 && Pending(g))
  {
    RunKeepsInv(es);
  }

  /** A callback changes the gate exactly when it is the current timer's, and
      then it closes the port. */
  lemma {:induction false} OnlyCurrentTimerCloses(es: seq<Event>, timer: nat)
    requires timer in Run(INITIAL, es).timers
    ensures var g := Run(INITIAL, es); var f := Step(g, Fire(timer));
            && (timer != g.gen <==> f == g.(timers := g.timers - {timer}))
            && (timer == g.gen ==> g.open && g.inflight == 0 && !f.open)
  {
    RunKeepsInv(es);
  }

  /** While a request is in flight only Close shuts the port. */
  lemma {:induction false} RequestHoldsPort(es: seq<Event>, e: Event)
    requires Run(INITIAL, es).open && Run(INITIAL, es).inflight > 0
    ensures Step(Run(INITIAL, es), e).open <==> !e.Close?
  {
    RunKeepsInv(es);
  }

  lemma {:induction false} RunConcat(g: GateState, a: seq<Event>, b: seq<Event>)
    ensures Run(g, a + b) == Run(Run(g, a), b)
    decreases |b|
  {
    if b == [] {
      assert a + b == a;
    } else {
      RunConcat(g, a, b[..|b| - 1]);
      assert (a + b)[..|a + b| - 1] == a + b[..|b| - 1];
    }
  }

  lemma {:induction false} ClosedStays(g: GateState, es: seq<Event>)
    requires Inv(g) && g.closed
    ensures Run(g, es).closed && Inv(Run(g, es))
    decreases |es|
  {
    if es != [] {
      ClosedStays(g, es[..|es| - 1]);
      StepKeepsInv(Run(g, es[..|es| - 1]), es[|es| - 1]);
    }
  }

  /** Once closed the port never opens again, whatever follows. */
  lemma {:induction false} ClosedForGood(before: seq<Event>, after: seq<Event>)
    requires Run(INITIAL, before).closed
    ensures Run(INITIAL, before + after).closed && !Run(INITIAL, before + after).open
  {
    RunKeepsInv(before);
    RunConcat(INITIAL, before, after);
    ClosedStays(Run(INITIAL, before), after);
  }
}
