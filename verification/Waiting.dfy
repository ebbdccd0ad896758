/** Waiting for a decision, as steps under the queue's lock interleaved in any order by any number of threads. */
module Waiting {
  import opened Text
  import opened Approvals

  /** A thread is free, blocked on an event it registered for, or back from `wait` with an approval. */
  datatype Thread = Free | Blocked(id: string, event: nat) | Returned(approval: Approval)

  /** `unwritten` are the approvals whose decision could not be written to the cache. */
  datatype System = System(queue: Queue, threads: map<nat, Thread>, unwritten: set<string>)

  datatype Action =
    | Enqueue(approval: Approval)
    | Decide(id: string, decision: string, subject: string, rationale: Option<string>, issuer: Option<string>,
             authMode: Option<string>, persisted: bool)
    | EnterWait(thread: nat, id: string)
    | Wake(thread: nat)

  ghost predicate Acts(s: System, act: Action, s': System) {
    match act
    case Enqueue(a) =>
      && a.state == Pending && a.id !in s.queue.items
      && s' == s.(queue := Enqueued(s.queue, a))
    case Decide(id, decision, subject, rationale, issuer, authMode, persisted) =>
      && subject != "" && id in s.queue.items && s.queue.items[id].state == Pending
      && var a := DecidedApproval(s.queue.items[id], decision, subject, rationale, issuer, authMode);
         s' == s.(queue := DecidedIn(s.queue, a, persisted),
                  unwritten := if persisted then s.unwritten else s.unwritten + {id})
    case EnterWait(t, id) =>
      && t in s.threads && s.threads[t].Free? && id in s.queue.items
      && (if s.queue.items[id].state != Pending
          then s' == s.(threads := s.threads[t := Returned(s.queue.items[id])])
          else var q := Registered(s.queue, id);
               s' == s.(queue := q, threads := s.threads[t := Blocked(id, q.waiters[id])]))
    case Wake(t) =>
      && t in s.threads && s.threads[t].Blocked? && s.threads[t].event in s.queue.fired
      && s.threads[t].id in s.queue.items
      && s' == s.(threads := s.threads[t := Returned(s.queue.items[s.threads[t].id])])
  }

  /** Any loaded queue, with no waiters yet and every thread free. */
  ghost predicate Starts(s: System) {
    && ValidQueue(s.queue) && s.queue.waiters == map[] && s.queue.fired == {} && s.unwritten == {}
    && forall t <- s.threads :: s.threads[t].Free?
  }

  ghost predicate IsRun(states: seq<System>, acts: seq<Action>) {
    && |states| == |acts| + 1
    && forall i | 0 <= i < |acts| :: Acts(states[i], acts[i], states[i + 1])
  }

  ghost predicate IsDecided(s: System, id: string) {
    id in s.queue.items && s.queue.items[id].state != Pending
  }

  /** An event is set exactly when its approval was decided and the decision was written. */
  ghost predicate WaiterOk(s: System, id: string)
    requires id in s.queue.waiters
  {
    && id in s.queue.items
    && (s.queue.waiters[id] in s.queue.fired <==> IsDecided(s, id) && id !in s.unwritten)
  }

  ghost predicate ThreadOk(s: System, thread: Thread) {
    match thread
    case Free => true
    case Blocked(id, event) => id in s.queue.waiters && s.queue.waiters[id] == event
    case Returned(a) => a.id in s.queue.items && s.queue.items[a.id] == a && a.state != Pending
  }

  ghost predicate Inv(s: System) {
    && ValidQueue(s.queue)
    && (forall id <- s.queue.waiters :: WaiterOk(s, id))
    && (forall t <- s.threads :: ThreadOk(s, s.threads[t]))
    && (forall id <- s.unwritten :: IsDecided(s, id))
  }

  lemma ActKeepsQueue(s: System, act: Action, s': System)
    requires Inv(s) && Acts(s, act, s')
    ensures ValidQueue(s'.queue)
    ensures forall id <- s'.unwritten :: IsDecided(s', id)
  {
  }

  lemma ActKeepsWaiter(s: System, act: Action, s': System, id: string)
    requires Inv(s) && Acts(s, act, s') && id in s'.queue.waiters
    ensures WaiterOk(s', id)
  {
  }

  lemma ActKeepsThread(s: System, act: Action, s': System, t: nat)
    requires Inv(s) && Acts(s, act, s') && t in s'.threads
    ensures ThreadOk(s', s'.threads[t])
  {
  }

  lemma ActKeepsInv(s: System, act: Action, s': System)
    requires Inv(s) && Acts(s, act, s')
    ensures Inv(s')
  {
    ActKeepsQueue(s, act, s');
    forall id <- s'.queue.waiters
      ensures WaiterOk(s', id)
    {
      ActKeepsWaiter(s, act, s', id);
    }
    forall t <- s'.threads
      ensures ThreadOk(s', s'.threads[t])
    {
      ActKeepsThread(s, act, s', t);
    }
  }

  lemma StartKeepsInv(s: System)
    requires Starts(s)
    ensures Inv(s)
  {
  }

  lemma {:induction false} RunKeepsInv(states: seq<System>, acts: seq<Action>)
    requires IsRun(states, acts) && Inv(states[0])
    ensures Inv(states[|acts|])
  {
    if acts != [] {
      var n := |acts| - 1;
      RunKeepsInv(states[..n + 1], acts[..n]);
      ActKeepsInv(states[n], acts[n], states[n + 1]);
    }
  }

  /** No lost wakeup, exactly: in any run, a thread blocked on a decided approval can return, if and only if the
      decision was written. */
  lemma BlockedThreadCanReturnExactly(states: seq<System>, acts: seq<Action>, t: nat)
    requires IsRun(states, acts) && Starts(states[0])
    requires var s := states[|acts|]; t in s.threads && s.threads[t].Blocked? && IsDecided(s, s.threads[t].id)
    ensures var s := states[|acts|];
            (exists s' :: Acts(s, Wake(t), s')) <==> s.threads[t].id !in s.unwritten
  {
    StartKeepsInv(states[0]);
    RunKeepsInv(states, acts);
    var s := states[|acts|];
    assert Inv(s) && ThreadOk(s, s.threads[t]) && WaiterOk(s, s.threads[t].id);
    if s.threads[t].id !in s.unwritten {
      assert Acts(s, Wake(t), s.(threads := s.threads[t := Returned(s.queue.items[s.threads[t].id])]));
    }
  }

  /** A thread comes back from `wait` only with a decision, and that decision stands. */
  lemma WaitReturnsDecisions(states: seq<System>, acts: seq<Action>, t: nat)
    requires IsRun(states, acts) && Starts(states[0])
    requires t in states[|acts|].threads && states[|acts|].threads[t].Returned?
    ensures var s, a := states[|acts|], states[|acts|].threads[t].approval;
            a.state != Pending && a.id in s.queue.items && s.queue.items[a.id] == a
  {
    StartKeepsInv(states[0]);
    RunKeepsInv(states, acts);
    assert ThreadOk(states[|acts|], states[|acts|].threads[t]);
  }

  predicate IsDecisionOn(act: Action, id: string) {
    act.Decide? && act.id == id && act.subject != ""
  }

  /** No timeout: nothing ends a hold but a decision on it that carries a subject. Until then it stays what it was,
      and after it the decision stands. */
  lemma {:induction false} OnlyADecisionEndsAHold(states: seq<System>, acts: seq<Action>, id: string)
    requires IsRun(states, acts) && Inv(states[0])
    requires id in states[0].queue.items && states[0].queue.items[id].state == Pending
    ensures var s := states[|acts|];
            && id in s.queue.items
            && (if exists act <- acts :: IsDecisionOn(act, id) then s.queue.items[id].state != Pending
                else s.queue.items[id] == states[0].queue.items[id])
  {
    if acts != [] {
      var n := |acts| - 1;
      OnlyADecisionEndsAHold(states[..n + 1], acts[..n], id);
      RunKeepsInv(states[..n + 1], acts[..n]);
      assert Acts(states[n], acts[n], states[n + 1]);
      assert acts == acts[..n] + [acts[n]];
      assert (exists act <- acts :: IsDecisionOn(act, id))
        <==> (exists act <- acts[..n] :: IsDecisionOn(act, id)) || IsDecisionOn(acts[n], id);
    }
  }

  /** Where the promise stops: a decision that could not be written leaves its waiters blocked for good. */
  lemma {:induction false} UnwrittenDecisionBlocksForGood(states: seq<System>, acts: seq<Action>, t: nat)
    requires IsRun(states, acts) && Inv(states[0])
    requires t in states[0].threads && states[0].threads[t].Blocked? && states[0].threads[t].id in states[0].unwritten
    ensures t in states[|acts|].threads && states[|acts|].threads[t] == states[0].threads[t]
    ensures states[|acts|].threads[t].id in states[|acts|].unwritten
  {
    if acts != [] {
      var n := |acts| - 1;
      UnwrittenDecisionBlocksForGood(states[..n + 1], acts[..n], t);
      RunKeepsInv(states[..n + 1], acts[..n]);
      var s := states[n];
      assert Inv(s) && ThreadOk(s, s.threads[t]) && WaiterOk(s, s.threads[t].id);
      assert Acts(s, acts[n], states[n + 1]);
    }
  }

  /** Such a state can be reached: a thread waits on a pending approval, whose decision is then not written. */
  lemma DecisionCanGoUnwritten(a: Approval) returns (states: seq<System>, acts: seq<Action>)
    requires a.state == Pending
    ensures IsRun(states, acts) && Starts(states[0])
    ensures var s := states[|acts|];
            0 in s.threads && s.threads[0] == Blocked(a.id, 0) && IsDecided(s, a.id) && a.id in s.unwritten
  {
    var s0 := System(Queue(map[a.id := a], map[], {}, 0), map[0 := Free], {});
    var s1 := s0.(queue := Registered(s0.queue, a.id), threads := map[0 := Blocked(a.id, 0)]);
    var decided := DecidedApproval(a, "approve", "ada", None, None, None);
    var s2 := s1.(queue := DecidedIn(s1.queue, decided, false), unwritten := {a.id});
    states := [s0, s1, s2];
    acts := [EnterWait(0, a.id), Decide(a.id, "approve", "ada", None, None, None, false)];
    assert Acts(s0, acts[0], s1) && Acts(s1, acts[1], s2);
  }
}
