/** internal/botcontrol: the two handlers an agent talks to, over the store. */
module Server {
  import opened Wrappers
  import opened QueueStore
  import opened Delivery

  const OK := 200
  const BAD_REQUEST := 400
  const UNAUTHORIZED := 401
  const INTERNAL_ERROR := 500

  /** A poll is answered 200 with the command that left the queue, in memory
      and in the file, or with none; a failed save answers 500 and gives out
      nothing. This is the server's step of the distributed system. */
  method HandlePoll(store: Store, authenticated: bool, r: RouterId, now: int, saves: bool)
      returns (status: nat, cmd: Option<Command>)
    modifies store
    ensures !authenticated ==> status == 401 && cmd == None && unchanged(store)
    ensures authenticated ==> status == if saves then 200 else 500
    ensures cmd.Some? <==> authenticated && saves && Pending(old(store.state), r) != []
    ensures cmd.Some? ==> Pending(old(store.state), r) == [cmd.value] + Pending(store.file, r) && store.state == store.file
    ensures cmd.None? && authenticated ==> Pending(store.state, r) == Pending(old(store.state), r)
    ensures authenticated ==>
              forall s: System, req: nat :: s.db == old(store.Copies()) && PollRequest(r, req) in s.net ==>
                var t := ServePollNext(s, r, req, now, saves);
                t.db == store.Copies() && t.net == s.net + {Message.PollResponse(r, req, cmd, status == OK)}
  {
    if !authenticated {
      return UNAUTHORIZED, None;
    }
    var popped, ok := store.Dequeue(r, now, saves);
    if !ok {
      return INTERNAL_ERROR, None;
    }
    return OK, popped;
  }

  /** A result is answered 200 exactly when it was well formed and is now in
      the file. */
  method HandleResult(store: Store, authenticated: bool, r: RouterId, body: Option<Result>, saves: bool)
      returns (status: nat)
    modifies store
    ensures status == if !authenticated then 401 else if body.None? then 400 else if saves then 200 else 500
    ensures status == 200 ==> body.value in Router(store.file, r).recent && Router(store.file, r).lastResult == body
    ensures !authenticated || body.None? ==> unchanged(store)
    ensures authenticated && body.Some? ==>
              forall s: System, req: nat :: s.db == old(store.Copies()) && ResultRequest(r, req, body.value) in s.net ==>
                var t := ServeResultNext(s, r, req, body.value, saves);
                t.db == store.Copies() && t.net == s.net + {ResultResponse(r, req, status == OK)}
  {
    if !authenticated {
      return UNAUTHORIZED;
    }
    if body.None? {
      return BAD_REQUEST;
    }
    var ok := store.RecordResult(r, body.value, saves);
    if !ok {
      return INTERNAL_ERROR;
    }
    assert LastN(Router(old(store.state), r).recent + [body.value], MAX_RECENT_RESULTS) == Router(store.file, r).recent;
    LastIsKept(Router(old(store.state), r).recent, body.value, MAX_RECENT_RESULTS);
    status := OK;
  }

  lemma {:induction false} LastIsKept<T>(s: seq<T>, x: T, n: nat)
    requires n > 0
    ensures x in LastN(s + [x], n)
  {
    var kept := LastN(s + [x], n);
    assert kept[|kept| - 1] == x;
  }
}
