/**
 What becomes of the goroutines at the gilt extension barrier: no extension is lost, and none arrives out of nothing.
 */
module GiltFates {
  import opened Common
  import opened GiltBarrier

  ghost predicate Served(s: State, w: Thread)
  {
    exists i :: 0 <= i < |s.log| && s.log[i].waiter == w
  }

  /** Where a goroutine started for a job can be.  An extension that was not refused is blocked on its send, pending
      under its id or received; a waiter that was not refused waits, has given up or has received one. */
  ghost predicate Fate(s: State, t: Thread, job: Job)
  {
    t in s.threads &&
    var pc := s.threads[t];
    pc == Locking(job) || pc == Holding(job) || pc == Refused ||
    match job
    case Register(id) =>
      || (pc.Sending? && pc.id == id)
      || (pc == Stored(id) && id in s.pend && s.pend[id] == t)
      || ((pc == Stored(id) || pc == Releasing || pc == Finished) && Received(s, t))
    case Wait(id) => (Listens(pc) && pc.id == id) || pc == GaveUp || (pc == Finished && Served(s, t))
    case _ => pc == Finished
  }

  /** The log only grows. */
  ghost predicate Grows(s: State, v: State)
  {
    |s.log| <= |v.log| && forall i :: 0 <= i < |s.log| ==> v.log[i] == s.log[i]
  }

  lemma GrowsKeeps(s: State, v: State, t: Thread)
    requires Grows(s, v)
    ensures Received(s, t) ==> Received(v, t)
    ensures Served(s, t) ==> Served(v, t)
  {
    if Received(s, t) {
      var i :| 0 <= i < |s.log| && s.log[i].ext == t;
      assert v.log[i].ext == t;
    }
    if Served(s, t) {
      var i :| 0 <= i < |s.log| && s.log[i].waiter == t;
      assert v.log[i].waiter == t;
    }
  }

  /** From `s` to `v` the goroutine `x` does not move, and its pending extension is not taken without being received. */
  ghost predicate Untouched(s: State, v: State, x: Thread)
  {
    && x in s.threads && x in v.threads && v.threads[x] == s.threads[x] && Grows(s, v)
    && forall id :: id in s.pend && s.pend[id] == x ==> (id in v.pend && v.pend[id] == x) || Received(v, x)
  }

  /** A goroutine that does not move keeps its fate, unless a waiter takes its pending extension, which is then
      received. */
  lemma StandsStill(s: State, v: State, t: Thread, job: Job)
    requires Fate(s, t, job) && Untouched(s, v, t)
    ensures Fate(v, t, job)
  {
    GrowsKeeps(s, v, t);
  }

  /** The critical section of a goroutine decides its fate. */
  lemma RegisterFate(s: State, t: Thread, id: Id)
    requires t in s.threads && s.threads[t] == Holding(Register(id))
    ensures Fate(Section(s, t, Register(id)), t, Register(id))
  {
  }

  lemma WaitFate(s: State, t: Thread, id: Id)
    requires t in s.threads && s.threads[t] == Holding(Wait(id))
    ensures Fate(Section(s, t, Wait(id)), t, Wait(id))
  {
    var v := Section(s, t, Wait(id));
    assert t in v.threads;
    if v.threads[t] == Finished {
      assert v.log[|s.log|].waiter == t;
      assert Served(v, t);
    }
  }

  lemma MemberFate(s: State, t: Thread, job: Job)
    requires t in s.threads && s.threads[t] == Holding(job) && (job.Join? || job.Leave? || job.Close?)
    ensures Fate(Section(s, t, job), t, job)
  {
  }

  lemma RegisterFrame(s: State, t: Thread, id: Id, x: Thread)
    requires t in s.threads && x in s.threads && x != t
    ensures Untouched(s, Section(s, t, Register(id)), x)
  {
  }

  lemma WaitFrame(s: State, t: Thread, id: Id, x: Thread)
    requires t in s.threads && x in s.threads && x != t
    ensures Untouched(s, Section(s, t, Wait(id)), x)
  {
    var v := Section(s, t, Wait(id));
    if id in s.pend && id !in v.pend {
      assert v.log[|s.log|].ext == s.pend[id];
    }
  }

  lemma MemberFrame(s: State, t: Thread, job: Job, x: Thread)
    requires t in s.threads && x in s.threads && x != t && (job.Join? || job.Leave? || job.Close?)
    ensures Untouched(s, Section(s, t, job), x)
  {
  }

  /** A critical section touches no other goroutine. */
  lemma SectionFrame(s: State, t: Thread, job: Job, x: Thread)
    requires t in s.threads && x in s.threads && x != t
    ensures Untouched(s, Section(s, t, job), x)
  {
    match job
    case Register(id) => RegisterFrame(s, t, id, x);
    case Wait(id) => WaitFrame(s, t, id, x);
    case _ => MemberFrame(s, t, job, x);
  }

  lemma SectionFate(s: State, t: Thread, x: Thread, job: Job)
    requires t in s.threads && s.threads[t].Holding? && Fate(s, x, job)
    ensures Fate(Section(s, t, s.threads[t].job), x, job)
  {
    if x != t {
      SectionFrame(s, t, s.threads[t].job, x);
      StandsStill(s, Section(s, t, s.threads[t].job), x, job);
    } else {
      assert s.threads[t] == Holding(job);
      match job
      case Register(id) => RegisterFate(s, t, id);
      case Wait(id) => WaitFate(s, t, id);
      case _ => MemberFate(s, t, job);
    }
  }

  lemma MeetFate(s: State, u: Thread, x: Thread, job: Job)
    requires Fate(s, x, job) && Step(s, Meet(u)).Some?
    ensures Fate(Step(s, Meet(u)).value, x, job)
  {
    var v, w := Step(s, Meet(u)).value, s.threads[u].to;
    assert v.log[|s.log|] == Delivery(u, w, s.threads[w].Selecting?);
    GrowsKeeps(s, v, x);
  }

  /** Nor does any other step. */
  lemma AdvanceFrame(s: State, t: Thread, x: Thread)
    requires t in s.threads && !s.threads[t].Holding? && Advance(s, t).Some? && x in s.threads && x != t
    ensures Untouched(s, Advance(s, t).value, x)
  {
  }

  lemma AdvanceOwn(s: State, t: Thread, job: Job)
    requires t in s.threads && !s.threads[t].Holding? && Advance(s, t).Some? && Fate(s, t, job)
    ensures Fate(Advance(s, t).value, t, job)
  {
    GrowsKeeps(s, Advance(s, t).value, t);
  }

  lemma AdvanceFate(s: State, t: Thread, x: Thread, job: Job)
    requires Fate(s, x, job) && t in s.threads && Advance(s, t).Some?
    ensures Fate(Advance(s, t).value, x, job)
  {
    if s.threads[t].Holding? {
      SectionFate(s, t, x, job);
    } else if x == t {
      AdvanceOwn(s, t, job);
    } else {
      AdvanceFrame(s, t, x);
      StandsStill(s, Advance(s, t).value, x, job);
    }
  }

  lemma StepFate(s: State, a: Action, x: Thread, job: Job)
    requires Fate(s, x, job) && Step(s, a).Some?
    ensures Fate(Step(s, a).value, x, job)
  {
    match a
    case Go(t) => AdvanceFate(s, t, x, job);
    case Meet(u) => MeetFate(s, u, x, job);
    case _ => GrowsKeeps(s, Step(s, a).value, x);
  }

  lemma {:induction false} RunFate(actions: seq<Action>, x: Thread, job: Job)
    requires Exec(Empty, actions).Some? && Start(x, job) in actions
    ensures Fate(Exec(Empty, actions).value, x, job)
    decreases |actions|
  {
    var init, last := actions[..|actions| - 1], actions[|actions| - 1];
    assert actions == init + [last];
    if Start(x, job) in init {
      RunFate(init, x, job);
      StepFate(Exec(Empty, init).value, last, x, job);
    }
  }

  /** No extension is lost: along every interleaving a registration that has got past the lock and was not refused is
      blocked on its send, pending under its id, or received. */
  lemma NothingIsLost(actions: seq<Action>, u: Thread, id: Id)
    requires Exec(Empty, actions).Some? && Start(u, Register(id)) in actions
    ensures var s := Exec(Empty, actions).value;
      && u in s.threads
      && var pc := s.threads[u];
      || pc == Locking(Register(id)) || pc == Holding(Register(id)) || pc == Refused
      || (pc.Sending? && pc.id == id) || (id in s.pend && s.pend[id] == u) || Received(s, u)
  {
    RunFate(actions, u, Register(id));
  }

  /** A waiter that has got past the lock and was not refused waits for its id, has given up, or has received an
      extension. */
  lemma WaitersAreServed(actions: seq<Action>, w: Thread, id: Id)
    requires Exec(Empty, actions).Some? && Start(w, Wait(id)) in actions
    ensures var s := Exec(Empty, actions).value;
      && w in s.threads
      && var pc := s.threads[w];
      || pc == Locking(Wait(id)) || pc == Holding(Wait(id)) || pc == Refused
      || (Listens(pc) && pc.id == id) || pc == GaveUp || Served(s, w)
  {
    RunFate(actions, w, Wait(id));
  }

  /** At most one goroutine waits for an id. */
  lemma OneWaiter(actions: seq<Action>, w: Thread, x: Thread)
    requires Exec(Empty, actions).Some?
    requires var s := Exec(Empty, actions).value;
      w in s.threads && x in s.threads && Listens(s.threads[w]) && Listens(s.threads[x])
        && s.threads[w].id == s.threads[x].id
    ensures w == x
  {
    EmptyIsSafe();
    RunKeeps(Empty, actions);
  }

  // ---------------------------------------------------------------- critical sections, one by one

  /** The state after a goroutine has run its critical section from a free state. */
  ghost function After(actions: seq<Action>, t: Thread, job: Job): Option<State>
  {
    Exec(Empty, actions + [Start(t, job), Go(t), Go(t)])
  }

  /** A registration is refused exactly for an id that is registered or pending, and then changes nothing; otherwise it
      goes to the waiter of its id if there is one, and is pending if not. */
  lemma Registers(actions: seq<Action>, s: State, u: Thread, id: Id)
    requires Exec(Empty, actions) == Some(s) && Free(s) && u !in s.threads
    ensures var run := After(actions, u, Register(id));
      && run.Some?
      && var v := run.value;
      && u in v.threads && v.peers == s.peers && v.log == s.log && v.quit == s.quit
      && (v.threads[u] == Refused <==> id in s.peers || id in s.pend)
      && (v.threads[u] == Refused ==> v.wait == s.wait && v.pend == s.pend && Free(v))
      && (id !in s.peers && id !in s.pend && id in s.wait ==>
            v.threads[u] == Sending(id, s.wait[id]) && v.wait == s.wait - {id} && v.pend == s.pend && v.lock == Some(u))
      && (id !in s.peers && id !in s.pend && id !in s.wait ==> v.wait == s.wait && v.pend == s.pend[id := u] && Free(v))
  {
    Runs(actions, s, u, Register(id));
  }

  /** A wait is refused exactly for an id that is registered or waited for, and then changes nothing. */
  lemma WaitsRefused(actions: seq<Action>, s: State, w: Thread, id: Id)
    requires Exec(Empty, actions) == Some(s) && Free(s) && w !in s.threads
    ensures var run := After(actions, w, Wait(id));
      && run.Some? && w in run.value.threads && Free(run.value) && run.value.quit == s.quit
      && (run.value.threads[w] == Refused <==> id in s.peers || id in s.wait)
      && (run.value.threads[w] == Refused ==>
            var v := run.value; v.peers == s.peers && v.wait == s.wait && v.pend == s.pend && v.log == s.log)
  {
    Runs(actions, s, w, Wait(id));
  }

  /** Otherwise it receives and keeps the pending extension of its id if there is one, and waits if not. */
  lemma Waits(actions: seq<Action>, s: State, w: Thread, id: Id)
    requires Exec(Empty, actions) == Some(s) && Free(s) && w !in s.threads && id !in s.peers && id !in s.wait
    ensures var run := After(actions, w, Wait(id));
      && run.Some?
      && var v := run.value;
      && w in v.threads && v.peers == s.peers
      && if id in s.pend then
           v.wait == s.wait && v.pend == s.pend - {id} && v.log == s.log + [Delivery(s.pend[id], w, true)]
         else
           v.wait == s.wait[id := w] && v.pend == s.pend && v.log == s.log && v.threads[w] == Selecting(id)
  {
    Runs(actions, s, w, Wait(id));
  }

  /** Joining adds the peer unless the set is closed or the id is taken; leaving removes a peer that is there; closing
      closes; and none of them touches the barrier. */
  lemma Members(actions: seq<Action>, s: State, t: Thread, job: Job)
    requires Exec(Empty, actions) == Some(s) && Free(s) && t !in s.threads && (job.Join? || job.Leave? || job.Close?)
    ensures var run := After(actions, t, job);
      && run.Some?
      && var v := run.value;
      && t in v.threads && v.wait == s.wait && v.pend == s.pend && v.log == s.log && Free(v)
      && match job
         case Join(id, snap) =>
           && v.quit == s.quit && (v.threads[t] == Refused <==> s.quit || id in s.peers)
           && v.peers == if s.quit || id in s.peers then s.peers else s.peers[id := snap]
         case Leave(id) =>
           v.quit == s.quit && (v.threads[t] == Refused <==> id !in s.peers) && v.peers == s.peers - {id}
         case _ => v.quit && v.peers == s.peers
  {
    Runs(actions, s, t, job);
  }

  /** An extension registered before its waiter goes straight to the next one: from any free state in which nobody knows
      the id, a registration and then a wait add exactly one delivery, which the waiter keeps. */
  lemma PendingIsDelivered(actions: seq<Action>, s: State, u: Thread, w: Thread, id: Id)
    requires Exec(Empty, actions) == Some(s) && Free(s) && u !in s.threads && w !in s.threads && u != w
    requires id !in s.peers && id !in s.wait && id !in s.pend
    ensures var run := After(actions + [Start(u, Register(id)), Go(u), Go(u)], w, Wait(id));
      run.Some? && run.value.log == s.log + [Delivery(u, w, true)] && run.value.wait == s.wait
        && run.value.pend == s.pend
  {
    Registers(actions, s, u, id);
    Runs(actions, s, u, Register(id));
    var more := actions + [Start(u, Register(id)), Go(u), Go(u)];
    var v := Exec(Empty, more).value;
    Waits(more, v, w, id);
    assert s.pend[id := u] - {id} == s.pend;
  }

  /** A waiter whose timeout finds the lock free gives up at once and takes its entry away. */
  lemma TimeoutGivesUp(actions: seq<Action>, s: State, w: Thread, id: Id)
    requires Exec(Empty, actions) == Some(s) && Free(s) && w in s.threads
    requires s.threads[w] == Selecting(id) || s.threads[w] == Retrying(id)
    ensures var run := Exec(Empty, actions + [Expire(w)] + [Go(w)] + [Go(w)]);
      && run.Some? && w in run.value.threads && run.value.threads[w] == GaveUp && Free(run.value)
      && run.value.wait == s.wait - {id} && run.value.pend == s.pend && run.value.log == s.log
  {
    var s1, s2 := Put(s, w, Trying(id)), Put(Put(s, w, Trying(id)), w, Removing(id)).(lock := Some(w));
    Then(actions, s, Expire(w), s1);
    Then(actions + [Expire(w)], s1, Go(w), s2);
    Then(actions + [Expire(w)] + [Go(w)], s2, Go(w), Leaves(s2, w, GaveUp).(wait := s2.wait - {id}));
  }

  /** So does a waiter that sees the shutdown while the lock is free. */
  lemma ShutdownGivesUp(actions: seq<Action>, s: State, w: Thread, id: Id)
    requires Exec(Empty, actions) == Some(s) && Free(s) && s.quit && w in s.threads && s.threads[w] == Selecting(id)
    ensures var run := Exec(Empty, actions + [SeeQuit(w)] + [Go(w)] + [Go(w)]);
      && run.Some? && w in run.value.threads && run.value.threads[w] == GaveUp && Free(run.value)
      && run.value.wait == s.wait - {id} && run.value.pend == s.pend && run.value.log == s.log
  {
    var s1, s2 := Put(s, w, Quitting(id)), Put(Put(s, w, Quitting(id)), w, Removing(id)).(lock := Some(w));
    Then(actions, s, SeeQuit(w), s1);
    Then(actions + [SeeQuit(w)], s1, Go(w), s2);
    Then(actions + [SeeQuit(w)] + [Go(w)], s2, Go(w), Leaves(s2, w, GaveUp).(wait := s2.wait - {id}));
  }

  /** A reader gets in exactly when no goroutine has the lock, keeps writers out while it reads, and leaves the state as
      it was. */
  lemma ReadersExclude(actions: seq<Action>, s: State, t: Thread)
    requires Exec(Empty, actions) == Some(s)
    ensures var run := Exec(Empty, actions + [ReadLock]);
      && (run.Some? <==> s.lock.None?)
      && (run.Some? ==>
            && !Free(run.value) && Exec(Empty, actions + [ReadLock] + [ReadUnlock]) == Some(s)
            && (t in s.threads && (s.threads[t].Locking? || s.threads[t].Quitting?) ==>
                  Exec(Empty, actions + [ReadLock] + [Go(t)]).None?))
  {
    assert (actions + [ReadLock])[..|actions|] == actions;
    assert (actions + [ReadLock] + [ReadUnlock])[..|actions| + 1] == actions + [ReadLock];
    assert (actions + [ReadLock] + [Go(t)])[..|actions| + 1] == actions + [ReadLock];
  }
}
