/**
 * The coordinator of the line server (`LineServer::run`): it owns the
 * registry of running sessions, keyed by session id, and a `u16` counter for
 * the next id. Each loop iteration handles whichever comes first, a new
 * connection or a control message from a session; the race itself is left to
 * the caller, which supplies the sequence of events.
 */
module Coordinator {
  import opened Wrappers
  import opened Text
  import opened Session

  /**
   * What awaiting a session's task yields (`thread.await??`): the session
   * returned `Ok`, the session returned an error (an I/O failure), or the
   * task itself failed (a panic or a cancellation).
   */
  datatype JoinOutcome = Returned | SessionError | TaskError

  /**
   * The handle of a spawned session: the id it was started with, and what
   * awaiting it will yield.
   */
  datatype Task = Task(id: u16, outcome: JoinOutcome)

  /** What the coordinator's `select!` can wake up with. */
  datatype Event =
    | Accepted(outcome: JoinOutcome)  // a connection was accepted; its session will end with `outcome`
    | AcceptFailed                    // `listener.accept()` returned an error
    | Received(msg: Message)          // a control message arrived
    | ReceiveFailed                   // `rx.recv()` returned an error (lagged or closed channel)

  /** Why `run` returns an error. */
  datatype RunError = AcceptError | ReceiveError | JoinFailed(id: u16, outcome: JoinOutcome)

  /** How `run` returns: `Ok(())` or an error. */
  datatype Exit = Done | Failed(failure: RunError)

  /** The coordinator's state: the `threads` map and the `client_id` counter. */
  datatype Registry = Registry(threads: map<u16, Task>, clientId: u16)

  /** One iteration of the loop: it goes on with a new registry, or `run` returns. */
  datatype Step = Running(registry: Registry) | Exited(exit: Exit)

  /** A run over a finite prefix of events: still looping, or returned after `consumed` events. */
  datatype RunOutcome = StillRunning(registry: Registry) | Stopped(exit: Exit, consumed: nat)

  /** The state `run` starts its loop in. */
  const Start: Registry := Registry(map[], 0)

  /** `client_id += 1` on a `u16`, with the wrap-around of an optimised build written out. */
  function NextId(id: u16): (next: u16)
    ensures next as int == (id as int + 1) % U16_RANGE
  {
    if id as int == U16_RANGE - 1 then 0 else id + 1
  }

  /** One iteration of the coordinator's loop. */
  function Next(r: Registry, e: Event): Step
  {
    match e
    case Accepted(outcome) =>
      Running(Registry(r.threads[r.clientId := Task(r.clientId, outcome)], NextId(r.clientId)))
    case AcceptFailed => Exited(Failed(AcceptError))
    case ReceiveFailed => Exited(Failed(ReceiveError))
    case Received(Shutdown) => Exited(Done)
    case Received(Quit(id)) =>
      if id in r.threads then
        var task := r.threads[id];
        if task.outcome == Returned then Running(Registry(r.threads - {id}, r.clientId))
        else Exited(Failed(JoinFailed(id, task.outcome)))
      else Running(r)  // reported as a bug; nothing changes
  }

  /** The loop over a sequence of events, from registry `r`. */
  function RunFrom(r: Registry, events: seq<Event>): (out: RunOutcome)
    ensures out.Stopped? ==> 1 <= out.consumed <= |events|
    decreases |events|
  {
    if events == [] then StillRunning(r)
    else
      match Next(r, events[0])
      case Exited(exit) => Stopped(exit, 1)
      case Running(r') =>
        var rest := RunFrom(r', events[1..]);
        if rest.Stopped? then Stopped(rest.exit, rest.consumed + 1) else rest
  }

  /** How many connections a sequence of events accepts. */
  function Accepts(events: seq<Event>): (n: nat)
    ensures n <= |events|
    decreases |events|
  {
    if events == [] then 0 else (if events[0].Accepted? then 1 else 0) + Accepts(events[1..])
  }

  /**
   * The registry invariant after `accepted` accepts: the counter is the
   * number of accepts modulo 2^16, every task is filed under its own id and,
   * as long as the counter has not wrapped, every id in use is below it.
   */
  predicate Inv(r: Registry, accepted: nat)
  {
    && r.clientId as int == accepted % U16_RANGE
    && (forall k :: k in r.threads ==> r.threads[k].id == k)
    && (accepted < U16_RANGE ==> forall k :: k in r.threads ==> k < r.clientId)
  }

  // ---------------------------------------------------------------------
  // Properties of one iteration
  // ---------------------------------------------------------------------

  /** Every iteration that does not return keeps the invariant. */
  lemma NextKeepsInv(r: Registry, accepted: nat, e: Event)
    requires Inv(r, accepted)
    requires Next(r, e).Running?
    ensures Inv(Next(r, e).registry, accepted + (if e.Accepted? then 1 else 0))
  {
    if e.Accepted? {
      var r' := Next(r, e).registry;
      if accepted + 1 < U16_RANGE {
        assert r.clientId as int == accepted;
        forall k | k in r'.threads ensures k < r'.clientId {
          if k != r.clientId { assert k in r.threads; }
        }
      }
    }
  }

  /**
   * Accepting files the new session under the current counter and advances
   * it. Fewer than 2^16 accepts so far: the id is not in use, one entry is
   * added, and (below the last id) the counter strictly increases.
   */
  lemma AcceptFreshId(r: Registry, accepted: nat, outcome: JoinOutcome)
    requires Inv(r, accepted)
    requires accepted < U16_RANGE
    ensures r.clientId !in r.threads
    ensures Next(r, Accepted(outcome)) == Running(Registry(r.threads[r.clientId := Task(r.clientId, outcome)], NextId(r.clientId)))
    ensures |Next(r, Accepted(outcome)).registry.threads| == |r.threads| + 1
    ensures accepted + 1 < U16_RANGE ==> Next(r, Accepted(outcome)).registry.clientId > r.clientId
  {
  }

  /**
   * Without the bound the guarantee is gone: after 2^16 accepts the counter
   * is back at 0, and accepting once more while session 0 is registered
   * overwrites its handle instead of adding one.
   */
  lemma AcceptAfterWrapReusesId(r: Registry, outcome: JoinOutcome)
    requires Inv(r, U16_RANGE)
    requires 0 in r.threads
    ensures r.clientId == 0
    ensures Next(r, Accepted(outcome)).registry.threads[0] == Task(0, outcome)
    ensures |Next(r, Accepted(outcome)).registry.threads| == |r.threads|
  {
  }

  /**
   * `Quit(id)` for a registered session whose task returned removes exactly
   * that entry and leaves every other entry and the counter as they were.
   */
  lemma QuitRemovesOnlyId(r: Registry, id: u16)
    requires id in r.threads && r.threads[id].outcome == Returned
    ensures Next(r, Received(Quit(id))).Running?
    ensures var r' := Next(r, Received(Quit(id))).registry;
      && id !in r'.threads
      && r'.clientId == r.clientId
      && (forall k :: k != id ==> (k in r'.threads <==> k in r.threads))
      && (forall k :: k in r'.threads ==> r'.threads[k] == r.threads[k])
  {
  }

  /** Awaiting a removed session that failed makes `run` return that failure. */
  lemma QuitOfFailedSession(r: Registry, id: u16)
    requires id in r.threads && r.threads[id].outcome != Returned
    ensures Next(r, Received(Quit(id))) == Exited(Failed(JoinFailed(id, r.threads[id].outcome)))
  {
  }

  /** `Quit` for an id that is not registered changes nothing and the loop goes on. */
  lemma QuitUnknownId(r: Registry, id: u16)
    requires id !in r.threads
    ensures Next(r, Received(Quit(id))) == Running(r)
  {
  }

  /** Deregistration happens at most once: a repeated `Quit(id)` finds nothing to remove. */
  lemma QuitTwice(r: Registry, id: u16)
    requires Next(r, Received(Quit(id))).Running?
    ensures var r' := Next(r, Received(Quit(id))).registry;
      id !in r'.threads && Next(r', Received(Quit(id))) == Running(r')
  {
  }

  /** `Shutdown` is the only event on which `run` returns `Ok`. */
  lemma OnlyShutdownIsDone(r: Registry, e: Event)
    ensures Next(r, e) == Exited(Done) <==> e == Received(Shutdown)
  {
  }

  /** Accept failures and receive failures end `run` with an error. */
  lemma ChannelAndAcceptErrorsAreFatal(r: Registry)
    ensures Next(r, AcceptFailed) == Exited(Failed(AcceptError))
    ensures Next(r, ReceiveFailed) == Exited(Failed(ReceiveError))
  {
  }

  // ---------------------------------------------------------------------
  // Properties of whole runs
  // ---------------------------------------------------------------------

  /**
   * A run that has not returned keeps the invariant; in particular, with
   * fewer than 2^16 accepts in all, no two registered sessions ever shared an id
   * and the next id is free.
   */
  lemma {:induction false} RunKeepsInv(r: Registry, accepted: nat, events: seq<Event>)
    requires Inv(r, accepted)
    requires RunFrom(r, events).StillRunning?
    ensures Inv(RunFrom(r, events).registry, accepted + Accepts(events))
    decreases |events|
  {
    if events != [] {
      NextKeepsInv(r, accepted, events[0]);
      RunKeepsInv(Next(r, events[0]).registry, accepted + (if events[0].Accepted? then 1 else 0), events[1..]);
    }
  }

  /**
   * A run returns `Ok` exactly when the event it stopped on is `Shutdown`;
   * every event before that one kept the loop running, and none of them was
   * `Shutdown` or a failed accept or receive.
   */
  lemma {:induction false} RunReturnsOkOnlyOnShutdown(r: Registry, events: seq<Event>)
    requires RunFrom(r, events).Stopped?
    ensures var out := RunFrom(r, events);
      && (out.exit == Done <==> events[out.consumed - 1] == Received(Shutdown))
      && (forall i :: 0 <= i < out.consumed - 1 ==>
            events[i] != Received(Shutdown) && events[i] != AcceptFailed && events[i] != ReceiveFailed)
    decreases |events|
  {
    var out := RunFrom(r, events);
    OnlyShutdownIsDone(r, events[0]);
    match Next(r, events[0])
    case Exited(_) =>
    case Running(r') =>
      RunReturnsOkOnlyOnShutdown(r', events[1..]);
      var rest := RunFrom(r', events[1..]);
      assert out.consumed == rest.consumed + 1;
      forall i | 0 <= i < out.consumed - 1
        ensures events[i] != Received(Shutdown) && events[i] != AcceptFailed && events[i] != ReceiveFailed
      {
        if i > 0 { assert events[i] == events[1..][i - 1]; }
      }
  }

  /**
   * A run that has not returned has seen no `Shutdown` and no failed accept
   * or receive: each of those ends the loop at once.
   */
  lemma {:induction false} StillRunningNoShutdown(r: Registry, events: seq<Event>)
    requires RunFrom(r, events).StillRunning?
    ensures forall i :: 0 <= i < |events| ==>
      events[i] != Received(Shutdown) && events[i] != AcceptFailed && events[i] != ReceiveFailed
    decreases |events|
  {
    if events != [] {
      OnlyShutdownIsDone(r, events[0]);
      var r' := Next(r, events[0]).registry;
      StillRunningNoShutdown(r', events[1..]);
      forall i | 1 <= i < |events|
        ensures events[i] != Received(Shutdown) && events[i] != AcceptFailed && events[i] != ReceiveFailed
      {
        assert events[i] == events[1..][i - 1];
      }
    }
  }

  /**
   * A session that ends with `QUIT` sends its own id, so when that session is
   * registered, the coordinator retires exactly it. The task's outcome is
   * `Returned` because a session that has sent `Quit` returns `Ok` right
   * after the send (src/lib.rs:138-139); its failures all come before it.
   */
  lemma SessionQuitRetiresItself(replies: seq<Reply>, r: Registry, id: u16)
    requires id in r.threads && r.threads[id].outcome == Returned
    requires Serve(replies, id).sent.Some? && Serve(replies, id).sent.value != Shutdown
    ensures Next(r, Received(Serve(replies, id).sent.value)) == Running(Registry(r.threads - {id}, r.clientId))
  {
  }

  // ---------------------------------------------------------------------
  // The coordinator as a stateful object
  // ---------------------------------------------------------------------

  /** `LineServer::run`'s loop state, updated in place. */
  class LineServer {
    var threads: map<u16, Task>
    var clientId: u16
    ghost var accepted: nat

    function State(): Registry
      reads this
    {
      Registry(threads, clientId)
    }

    ghost predicate Valid()
      reads this
    {
      Inv(State(), accepted)
    }

    constructor ()
      ensures Valid() && State() == Start && accepted == 0
    {
      threads := map[];
      clientId := 0;
      accepted := 0;
    }

    /** The accept arm: file the spawned session under the current id, then advance the counter. */
    method Accept(outcome: JoinOutcome)
      requires Valid()
      modifies this
      ensures Valid() && accepted == old(accepted) + 1
      ensures threads == old(threads)[old(clientId) := Task(old(clientId), outcome)]
      ensures clientId == NextId(old(clientId))
      ensures old(accepted) < U16_RANGE ==> old(clientId) !in old(threads)
    {
      NextKeepsInv(State(), accepted, Accepted(outcome));
      threads := threads[clientId := Task(clientId, outcome)];
      clientId := NextId(clientId);
      accepted := accepted + 1;
    }

    /** The receive arm for a message that arrived. */
    method Deliver(msg: Message) returns (exit: Option<Exit>)
      requires Valid()
      modifies this
      ensures accepted == old(accepted)
      ensures match Next(old(State()), Received(msg))
        case Running(r) => exit == None && State() == r && Valid()
        case Exited(x) => exit == Some(x)
    {
      match msg
      case Shutdown =>
        return Some(Done);
      case Quit(id) =>
        if id in threads {
          var task := threads[id];
          threads := threads - {id};
          if task.outcome != Returned {
            return Some(Failed(JoinFailed(id, task.outcome)));
          }
          NextKeepsInv(old(State()), accepted, Received(msg));
        }
        return None;
    }

    /** One iteration of the loop, on whichever event won the race. */
    method Handle(e: Event) returns (exit: Option<Exit>)
      requires Valid()
      modifies this
      ensures match Next(old(State()), e)
        case Running(r) => exit == None && State() == r && Valid()
          && accepted == old(accepted) + (if e.Accepted? then 1 else 0)
        case Exited(x) => exit == Some(x)
    {
      match e
      case Accepted(outcome) =>
        Accept(outcome);
        exit := None;
      case AcceptFailed =>
        exit := Some(Failed(AcceptError));
      case Received(msg) =>
        exit := Deliver(msg);
      case ReceiveFailed =>
        exit := Some(Failed(ReceiveError));
    }
  }

  /** `run`'s loop from a fresh coordinator, over the events that the race produces in turn. */
  method Run(events: seq<Event>) returns (out: RunOutcome)
    ensures out == RunFrom(Start, events)
  {
    var server := new LineServer();
    var i := 0;
    while i < |events|
      invariant i <= |events|
      invariant server.Valid()
      invariant RunFrom(Start, events) == Shifted(RunFrom(server.State(), events[i..]), i)
    {
      assert events[i..][0] == events[i] && events[i..][1..] == events[i + 1..];
      var exit := server.Handle(events[i]);
      if exit.Some? {
        return Stopped(exit.value, i + 1);
      }
      i := i + 1;
    }
    assert events[i..] == [];
    return StillRunning(server.State());
  }

  /** A run's outcome once `count` earlier events have been consumed. */
  function Shifted(out: RunOutcome, count: nat): RunOutcome
  {
    if out.Stopped? then Stopped(out.exit, out.consumed + count) else out
  }
}
