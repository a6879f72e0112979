/**
 * A small-step reading of the refresh-and-retry protocol, written as the
 * loop a client would naturally write: send a GET; on a 401, refresh unless
 * a refresh has already happened; if the refresh succeeds, send again. The
 * nested calls of `HTTP.get` and `HTTP.retryGet` are proved to produce
 * exactly what this machine produces, and the machine is proved to halt
 * within three steps from any state it can reach.
 */
module RetryMachine {
  import opened Wrappers
  import opened Http

  datatype Phase<T> = Sending | Refreshing | Finished(result: Result<T, FuelError>)

  /** The protocol's state: phase, store, calls so far, GETs sent, and whether a refresh has happened. */
  datatype Machine<T> = Machine(phase: Phase<T>, store: Store, calls: seq<Call>, sent: nat, refreshed: bool)

  /**
   * An invariant of every state reachable from `Start`: the GET counter
   * matches the GETs in the trace, a POST appears exactly when a refresh
   * has happened, and the phase agrees with both.
   */
  predicate Valid<T>(m: Machine<T>)
  {
    && m.sent <= 2
    && m.sent == CountGets(m.calls)
    && CountPosts(m.calls) == (if m.refreshed then 1 else 0)
    && (m.phase.Sending? ==> m.sent == (if m.refreshed then 1 else 0))
    && (m.phase.Refreshing? ==> !m.refreshed && m.sent == 1)
  }

  function Start<T>(store: Store): (m: Machine<T>)
    ensures Valid(m) && m.phase.Sending? && m.calls == []
  {
    Machine(Sending, store, [], 0, false)
  }

  /** Steps still to take before the machine finishes. */
  function Remaining<T>(m: Machine<T>): nat
  {
    match m.phase
    case Finished(_) => 0
    case Refreshing => 2
    case Sending => if m.refreshed then 1 else 3
  }

  /** One step: send the next GET, or refresh, or stay finished. */
  function Step<T>(m: Machine<T>, url: string, server: Server<T>): (m': Machine<T>)
    requires Valid(m) && |server.responses| >= 2
    ensures Valid(m')
    ensures m.phase.Finished? ==> m' == m
    ensures !m.phase.Finished? ==> Remaining(m') < Remaining(m)
    ensures m'.sent <= m.sent + 1 && (m.refreshed ==> m'.refreshed)
    ensures |m.calls| <= |m'.calls| && m'.calls[..|m.calls|] == m.calls
    ensures CountGets(m'.calls) <= CountGets(m.calls) + 1
    ensures CountPosts(m'.calls) <= CountPosts(m.calls) + 1
  {
    match m.phase
    case Finished(_) => m
    case Sending =>
      var reply := server.responses[m.sent];
      CountsOfConcat(m.calls, [Request(m.store, url)]);
      var m1 := m.(calls := m.calls + [Request(m.store, url)], sent := m.sent + 1);
      if reply.statusCode == Unauthorized && !m.refreshed then m1.(phase := Refreshing)
      else m1.(phase := Finished(reply.result))
    case Refreshing =>
      var r := Refresh(m.store, server.login);
      CountsOfConcat(m.calls, r.calls);
      var next: Phase<T> := if r.ok then Sending else Finished(Failure(RefreshError));
      m.(phase := next, store := r.store, calls := m.calls + r.calls, refreshed := true)
  }

  /** `n` steps of the machine. */
  function Run<T>(m: Machine<T>, url: string, server: Server<T>, n: nat): (m': Machine<T>)
    requires Valid(m) && |server.responses| >= 2
    ensures Valid(m')
    decreases n
  {
    if n == 0 then m else Run(Step(m, url, server), url, server, n - 1)
  }

  /** Once `Remaining` steps are taken the machine has finished, and further steps change nothing. */
  lemma {:induction false} RunHalts<T>(m: Machine<T>, url: string, server: Server<T>, n: nat)
    requires Valid(m) && |server.responses| >= 2
    requires n >= Remaining(m)
    ensures Run(m, url, server, n).phase.Finished?
    ensures Run(m, url, server, n) == Run(m, url, server, Remaining(m))
    decreases n
  {
    if m.phase.Finished? {
      FinishedIsStable(m, url, server, n);
    } else {
      var m' := Step(m, url, server);
      RunHalts(m', url, server, n - 1);
      RunHalts(m', url, server, Remaining(m) - 1);
    }
  }

  /** A finished machine stays as it is. */
  lemma {:induction false} FinishedIsStable<T>(m: Machine<T>, url: string, server: Server<T>, n: nat)
    requires Valid(m) && |server.responses| >= 2 && m.phase.Finished?
    ensures Run(m, url, server, n) == m
    decreases n
  {
    if n > 0 {
      FinishedIsStable(Step(m, url, server), url, server, n - 1);
    }
  }

  /**
   * `HTTP.get` is the machine run to completion: same result, same store,
   * same calls. The machine never sends more than two GETs.
   */
  lemma GetIsMachine<T>(store: Store, url: string, server: Server<T>)
    requires |server.responses| >= 2
    ensures var m := Run(Start<T>(store), url, server, 3);
      var g := Get(store, url, server);
      && m.phase == Finished(g.result)
      && m.store == g.store
      && m.calls == g.calls
      && m.sent == CountGets(g.calls)
  {
    var m0 := Start<T>(store);
    var m1 := Step(m0, url, server);
    var g := Get(store, url, server);
    assert Run(m0, url, server, 3) == Run(m1, url, server, 2);
    if m1.phase.Finished? {
      FinishedIsStable(m1, url, server, 2);
    } else {
      var m2 := Step(m1, url, server);
      assert Run(m1, url, server, 2) == Run(m2, url, server, 1);
      assert m1.calls == [Request(store, url)];
      if m2.phase.Finished? {
        FinishedIsStable(m2, url, server, 1);
        CountsOfConcat([Request(store, url)], [LoginCall(store)]);
      } else {
        var m3 := Step(m2, url, server);
        assert Run(m2, url, server, 1) == m3;
        CountsOfConcat([Request(store, url)], [LoginCall(store)]);
        CountsOfConcat([Request(store, url), LoginCall(store)], [Request(m2.store, url)]);
      }
    }
  }
}
