/**
 The gilt extension barrier of the peer set, as a transition system over goroutines.

 A registration hands its extension to a waiting `eth` handler over an unbuffered channel while it holds the peer set's
 lock; the handler may meanwhile run into its timeout, which only ever tries the lock, or see the shutdown, which waits
 for it. A goroutine's number stands for the extension it registers, or for the channel it waits on. Every interleaving
 is a list of actions.
 */
module GiltBarrier {
  import opened Common
  type Id = int
  type Thread = nat

  /** What a goroutine does with the lock: the critical sections of the peer set. */
  datatype Job = Register(id: Id) | Wait(id: Id) | Join(id: Id, snap: bool) | Leave(id: Id) | Close

  datatype Pc =
    | Locking(job: Job)               // blocked until it gets the lock
    | Holding(job: Job)               // has the lock
    | Sending(id: Id, to: Thread)     // has the lock, blocked on the send
    | Releasing                       // has the lock, about to return
    | Selecting(id: Id)               // receives, or times out, or sees the shutdown
    | Trying(id: Id)                  // about to try the lock
    | Retrying(id: Id)                // receives and discards, or tries again
    | Removing(id: Id)                // has the lock, about to give up waiting
    | Quitting(id: Id)                // saw the shutdown, blocked until it gets the lock
    | Stored(id: Id)                  // returned, its extension left pending
    | Refused                         // returned with an error: the id is taken
    | GaveUp                          // returned without an extension
    | Finished

  /** An extension received by a waiter, who keeps it unless it has already timed out. */
  datatype Delivery = Delivery(ext: Thread, waiter: Thread, kept: bool)

  datatype State = State(peers: map<Id, bool>, snapPeers: int, wait: map<Id, Thread>, pend: map<Id, Thread>,
                         lock: Option<Thread>, readers: nat, quit: bool, threads: map<Thread, Pc>, log: seq<Delivery>)

  datatype Action =
    | Start(t: Thread, job: Job)
    | Go(t: Thread)                   // the next step of a goroutine that has only one
    | Expire(t: Thread)
    | SeeQuit(t: Thread)
    | Meet(t: Thread)                 // a blocked sender and its receiver meet
    | ReadLock
    | ReadUnlock

  const Empty := State(map[], 0, map[], map[], None, 0, false, map[], [])

  predicate Free(s: State)
  {
    s.lock.None? && s.readers == 0
  }

  predicate Holds(pc: Pc)
  {
    pc.Holding? || pc.Sending? || pc.Releasing? || pc.Removing?
  }

  function Put(s: State, t: Thread, pc: Pc): State
  {
    s.(threads := s.threads[t := pc])
  }

  function Leaves(s: State, t: Thread, pc: Pc): State
  {
    Put(s, t, pc).(lock := None)
  }

  /** The critical section of a goroutine that holds the lock. */
  function Section(s: State, t: Thread, job: Job): State
  {
    match job
    case Register(id) =>
      if id in s.peers || id in s.pend then Leaves(s, t, Refused)
      else if id in s.wait then Put(s, t, Sending(id, s.wait[id])).(wait := s.wait - {id})
      else Leaves(s, t, Stored(id)).(pend := s.pend[id := t])
    case Wait(id) =>
      if id in s.peers || id in s.wait then Leaves(s, t, Refused)
      else if id in s.pend then
        Leaves(s, t, Finished).(pend := s.pend - {id}, log := s.log + [Delivery(s.pend[id], t, true)])
      else Leaves(s, t, Selecting(id)).(wait := s.wait[id := t])
    case Join(id, snap) =>
      if s.quit || id in s.peers then Leaves(s, t, Refused)
      else Leaves(s, t, Finished).(peers := s.peers[id := snap], snapPeers := s.snapPeers + if snap then 1 else 0)
    case Leave(id) =>
      if id !in s.peers then Leaves(s, t, Refused)
      else Leaves(s, t, Finished).(peers := s.peers - {id}, snapPeers := s.snapPeers - if s.peers[id] then 1 else 0)
    case Close => Leaves(s, t, Finished).(quit := true)
  }

  function Advance(s: State, t: Thread): Option<State>
    requires t in s.threads
  {
    match s.threads[t]
    case Locking(job) => if Free(s) then Some(Put(s, t, Holding(job)).(lock := Some(t))) else None
    case Holding(job) => Some(Section(s, t, job))
    case Releasing => Some(Leaves(s, t, Finished))
    case Trying(id) => Some(if Free(s) then Put(s, t, Removing(id)).(lock := Some(t)) else Put(s, t, Retrying(id)))
    case Removing(id) => Some(Leaves(s, t, GaveUp).(wait := s.wait - {id}))
    case Quitting(id) => if Free(s) then Some(Put(s, t, Removing(id)).(lock := Some(t))) else None
    case _ => None
  }

  /** A state's successor under an action, if the action is possible. */
  function Step(s: State, a: Action): Option<State>
  {
    match a
    case Start(t, job) => if t in s.threads then None else Some(Put(s, t, Locking(job)))
    case Go(t) => if t in s.threads then Advance(s, t) else None
    case Expire(t) =>
      if t in s.threads && (s.threads[t].Selecting? || s.threads[t].Retrying?)
        then Some(Put(s, t, Trying(s.threads[t].id))) else None
    case SeeQuit(t) =>
      if t in s.threads && s.threads[t].Selecting? && s.quit then Some(Put(s, t, Quitting(s.threads[t].id))) else None
    case Meet(u) =>
      if u in s.threads && s.threads[u].Sending? && s.threads[u].to in s.threads
         && (s.threads[s.threads[u].to].Selecting? || s.threads[s.threads[u].to].Retrying?) then
        var w := s.threads[u].to;
        Some(s.(threads := s.threads[u := Releasing][w := Finished],
          log := s.log + [Delivery(u, w, s.threads[w].Selecting?)]))
      else None
    case ReadLock => if s.lock.None? then Some(s.(readers := s.readers + 1)) else None
    case ReadUnlock => if s.readers > 0 then Some(s.(readers := s.readers - 1)) else None
  }

  function Exec(s: State, actions: seq<Action>): Option<State>
    decreases |actions|
  {
    if actions == [] then Some(s)
    else match Exec(s, actions[..|actions| - 1])
      case Some(m) => Step(m, actions[|actions| - 1])
      case None => None
  }

  // ---------------------------------------------------------------- the invariant

  /** Still waiting for an extension. */
  predicate Listens(pc: Pc)
  {
    pc.Selecting? || pc.Trying? || pc.Retrying? || pc.Removing? || pc.Quitting?
  }

  /** The goroutine holding the lock, if it is blocked on a send. */
  ghost predicate Blocked(s: State)
  {
    s.lock.Some? && s.lock.value in s.threads && s.threads[s.lock.value].Sending?
  }

  /** The lock is held by exactly the goroutine that is in a critical section. */
  ghost predicate LockInv(s: State)
  {
    && (s.lock.Some? ==> s.readers == 0 && s.lock.value in s.threads)
    && (forall t :: t in s.threads ==> (Holds(s.threads[t]) <==> s.lock == Some(t)))
    && (forall t :: t in s.threads && s.threads[t].Quitting? ==> s.quit)
  }

  /** A waiting entry belongs to a waiter of that id, and every waiter has its entry or a sender blocked on its
      channel. */
  ghost predicate WaitInv(s: State)
  {
    && s.wait.Keys !! s.pend.Keys
    && (forall id :: id in s.wait ==>
          s.wait[id] in s.threads && Listens(s.threads[s.wait[id]]) && s.threads[s.wait[id]].id == id)
    && (forall t :: t in s.threads && Listens(s.threads[t]) ==>
          || (s.threads[t].id in s.wait && s.wait[s.threads[t].id] == t)
          || (Blocked(s) && s.threads[s.lock.value].to == t))
    && (Blocked(s) ==>
          var pc := s.threads[s.lock.value];
          pc.to in s.threads && Listens(s.threads[pc.to]) && s.threads[pc.to].id == pc.id && pc.id !in s.wait)
  }

  /** Pending extensions have returned and were never delivered; delivered ones went to finished waiters, each to
      one. */
  ghost predicate LogInv(s: State)
  {
    && (forall id :: id in s.pend ==> s.pend[id] in s.threads && s.threads[s.pend[id]] == Stored(id))
    && (forall i :: 0 <= i < |s.log| ==>
          && s.log[i].waiter in s.threads && s.threads[s.log[i].waiter] == Finished
          && s.log[i].ext in s.threads && Handed(s, s.log[i].ext))
    && (forall i, j :: 0 <= i < j < |s.log| ==> s.log[i].ext != s.log[j].ext && s.log[i].waiter != s.log[j].waiter)
  }

  /** A registration that has nothing left to hand over. */
  ghost predicate Handed(s: State, e: Thread)
    requires e in s.threads
  {
    var pc := s.threads[e];
    pc.Releasing? || pc.Finished? || (pc.Stored? && !(pc.id in s.pend && s.pend[pc.id] == e))
  }

  ghost function Snaps(peers: map<Id, bool>): set<Id>
  {
    set id | id in peers && peers[id]
  }

  ghost predicate Inv(s: State)
  {
    LockInv(s) && WaitInv(s) && LogInv(s) && s.snapPeers == |Snaps(s.peers)|
  }

  // ---------------------------------------------------------------- every step keeps it

  /** A goroutine that has not handed over an extension, or is just returning, moves on. */
  lemma SameLog(s: State, v: State, t: Thread, pc: Pc)
    requires LogInv(s) && v.threads == s.threads[t := pc] && v.pend == s.pend && v.log == s.log
    requires t in s.threads ==>
      !s.threads[t].Finished? && !s.threads[t].Stored? && (s.threads[t].Releasing? ==> pc.Finished?)
    ensures LogInv(v)
  {
    forall i | 0 <= i < |v.log|
      ensures v.log[i].waiter in v.threads && v.threads[v.log[i].waiter] == Finished && v.log[i].ext in v.threads
          && Handed(v, v.log[i].ext)
    {
      assert s.log[i] == v.log[i];
    }
  }

  lemma KeepStart(s: State, t: Thread, job: Job)
    requires Inv(s) && t !in s.threads
    ensures Inv(Put(s, t, Locking(job)))
  {
    SameLog(s, Put(s, t, Locking(job)), t, Locking(job));
  }

  /** A waiter goes on waiting without touching the lock. */
  lemma KeepWaiting(s: State, t: Thread, pc: Pc)
    requires Inv(s) && t in s.threads && (s.threads[t].Selecting? || s.threads[t].Trying? || s.threads[t].Retrying?)
    requires pc == Trying(s.threads[t].id) || pc == Retrying(s.threads[t].id)
        || (s.quit && pc == Quitting(s.threads[t].id))
    ensures Inv(Put(s, t, pc))
  {
    SameLog(s, Put(s, t, pc), t, pc);
  }

  /** A goroutine gets the lock. */
  lemma KeepAcquire(s: State, t: Thread, pc: Pc)
    requires Inv(s) && t in s.threads && Free(s)
    requires match s.threads[t]
             case Locking(job) => pc == Holding(job)
             case Trying(id) => pc == Removing(id)
             case Quitting(id) => pc == Removing(id)
             case _ => false
    ensures Inv(Put(s, t, pc).(lock := Some(t)))
  {
    SameLog(s, Put(s, t, pc).(lock := Some(t)), t, pc);
  }

  /** A goroutine that waits for nothing returns, with whatever it did to the peers. */
  lemma KeepLeave(s: State, t: Thread, pc: Pc, v: State)
    requires Inv(s) && t in s.threads && (s.threads[t].Holding? || s.threads[t].Releasing?)
    requires pc.Finished? || (pc.Refused? && s.threads[t].Holding?)
    requires v == Leaves(s, t, pc).(peers := v.peers, snapPeers := v.snapPeers, quit := v.quit)
    requires v.snapPeers == |Snaps(v.peers)| && (s.quit ==> v.quit)
    ensures Inv(v)
  {
    SameLog(s, v, t, pc);
  }

  /** A waiter that gives up deletes its own entry and no other. */
  lemma KeepRemove(s: State, t: Thread)
    requires Inv(s) && t in s.threads && s.threads[t].Removing?
    ensures s.threads[t].id in s.wait && s.wait[s.threads[t].id] == t
    ensures Inv(Leaves(s, t, GaveUp).(wait := s.wait - {s.threads[t].id}))
  {
    SameLog(s, Leaves(s, t, GaveUp).(wait := s.wait - {s.threads[t].id}), t, GaveUp);
  }

  /** A registration finds its waiter and takes the entry. */
  lemma KeepSend(s: State, t: Thread, id: Id)
    requires Inv(s) && t in s.threads && s.threads[t] == Holding(Register(id)) && id in s.wait
    ensures Inv(Put(s, t, Sending(id, s.wait[id])).(wait := s.wait - {id}))
  {
    SameLog(s, Put(s, t, Sending(id, s.wait[id])).(wait := s.wait - {id}), t, Sending(id, s.wait[id]));
  }

  /** A waiter leaves its entry. */
  lemma KeepEnter(s: State, t: Thread, id: Id)
    requires Inv(s) && t in s.threads && s.threads[t] == Holding(Wait(id)) && id !in s.wait && id !in s.pend
    ensures Inv(Leaves(s, t, Selecting(id)).(wait := s.wait[id := t]))
  {
    SameLog(s, Leaves(s, t, Selecting(id)).(wait := s.wait[id := t]), t, Selecting(id));
  }

  /** A registration leaves its extension pending. */
  lemma KeepStore(s: State, t: Thread, id: Id)
    requires Inv(s) && t in s.threads && s.threads[t] == Holding(Register(id)) && id !in s.wait && id !in s.pend
    ensures Inv(Leaves(s, t, Stored(id)).(pend := s.pend[id := t]))
  {
    var v := Leaves(s, t, Stored(id)).(pend := s.pend[id := t]);
    forall i | 0 <= i < |v.log|
      ensures v.log[i].waiter in v.threads && v.threads[v.log[i].waiter] == Finished && v.log[i].ext in v.threads
          && Handed(v, v.log[i].ext)
    {
      assert s.log[i] == v.log[i];
    }
  }

  /** A waiter takes a pending extension. */
  lemma KeepTake(s: State, t: Thread, id: Id)
    requires Inv(s) && t in s.threads && s.threads[t] == Holding(Wait(id)) && id !in s.wait && id in s.pend
    ensures Inv(Leaves(s, t, Finished).(pend := s.pend - {id}, log := s.log + [Delivery(s.pend[id], t, true)]))
  {
    var v := Leaves(s, t, Finished).(pend := s.pend - {id}, log := s.log + [Delivery(s.pend[id], t, true)]);
    forall i | 0 <= i < |v.log|
      ensures v.log[i].waiter in v.threads && v.threads[v.log[i].waiter] == Finished && v.log[i].ext in v.threads
          && Handed(v, v.log[i].ext)
    {
      assert i < |s.log| ==> s.log[i] == v.log[i];
    }
  }

  lemma MeetLog(s: State, u: Thread)
    requires LogInv(s) && Step(s, Meet(u)).Some?
    ensures LogInv(Step(s, Meet(u)).value)
  {
    var v := Step(s, Meet(u)).value;
    forall i | 0 <= i < |v.log|
      ensures v.log[i].waiter in v.threads && v.threads[v.log[i].waiter] == Finished && v.log[i].ext in v.threads
          && Handed(v, v.log[i].ext)
    {
      assert i < |s.log| ==> s.log[i] == v.log[i];
    }
  }

  /** A blocked sender and its waiter meet. */
  lemma KeepMeet(s: State, u: Thread)
    requires Inv(s) && Step(s, Meet(u)).Some?
    ensures Inv(Step(s, Meet(u)).value)
  {
    MeetLog(s, u);
    var v, w := Step(s, Meet(u)).value, s.threads[u].to;
    assert LockInv(v);
    assert WaitInv(v) by {
      assert s.lock == Some(u) && s.threads[w].id !in s.wait;
    }
  }

  lemma CountSnaps(peers: map<Id, bool>, id: Id, snap: bool)
    ensures id !in peers ==> |Snaps(peers[id := snap])| == |Snaps(peers)| + if snap then 1 else 0
    ensures id in peers ==> |Snaps(peers - {id})| == |Snaps(peers)| - if peers[id] then 1 else 0
  {
    if id !in peers {
      assert Snaps(peers[id := snap]) == Snaps(peers) + if snap then {id} else {};
    } else {
      assert Snaps(peers - {id}) == Snaps(peers) - {id};
    }
  }

  lemma KeepSection(s: State, t: Thread, job: Job)
    requires Inv(s) && t in s.threads && s.threads[t] == Holding(job)
    ensures Inv(Section(s, t, job))
  {
    match job
    case Register(id) =>
      if id in s.peers || id in s.pend {
        KeepLeave(s, t, Refused, Section(s, t, job));
      } else if id in s.wait {
        KeepSend(s, t, id);
      } else {
        KeepStore(s, t, id);
      }
    case Wait(id) =>
      if id in s.peers || id in s.wait {
        KeepLeave(s, t, Refused, Section(s, t, job));
      } else if id in s.pend {
        KeepTake(s, t, id);
      } else {
        KeepEnter(s, t, id);
      }
    case Join(id, snap) =>
      CountSnaps(s.peers, id, snap);
      KeepLeave(s, t, if s.quit || id in s.peers then Refused else Finished, Section(s, t, job));
    case Leave(id) =>
      CountSnaps(s.peers, id, false);
      KeepLeave(s, t, if id in s.peers then Finished else Refused, Section(s, t, job));
    case Close =>
      KeepLeave(s, t, Finished, Section(s, t, job));
  }

  lemma KeepAdvance(s: State, t: Thread)
    requires Inv(s) && t in s.threads && Advance(s, t).Some?
    ensures Inv(Advance(s, t).value)
  {
    match s.threads[t]
    case Locking(job) => KeepAcquire(s, t, Holding(job));
    case Holding(job) => KeepSection(s, t, job);
    case Releasing => KeepLeave(s, t, Finished, Leaves(s, t, Finished));
    case Trying(id) =>
      if Free(s) {
        KeepAcquire(s, t, Removing(id));
      } else {
        KeepWaiting(s, t, Retrying(id));
      }
    case Removing(id) => KeepRemove(s, t);
    case Quitting(id) => KeepAcquire(s, t, Removing(id));
    case _ =>
  }

  lemma KeepReaders(s: State, n: nat)
    requires Inv(s) && s.lock.None?
    ensures Inv(s.(readers := n))
  {
    var v := s.(readers := n);
    assert forall e :: e in s.threads && Handed(s, e) ==> Handed(v, e);
  }

  /** The steps of a waiter that has not got the lock. */
  lemma KeepSelect(s: State, a: Action)
    requires Inv(s) && (a.Expire? || a.SeeQuit?) && Step(s, a).Some?
    ensures Inv(Step(s, a).value)
  {
    KeepWaiting(s, a.t, if a.Expire? then Trying(s.threads[a.t].id) else Quitting(s.threads[a.t].id));
  }

  lemma KeepRead(s: State, a: Action)
    requires Inv(s) && (a.ReadLock? || a.ReadUnlock?) && Step(s, a).Some?
    ensures Inv(Step(s, a).value)
  {
    var n := if a.ReadLock? then s.readers + 1 else s.readers - 1;
    assert Step(s, a).value == s.(readers := n);
    KeepReaders(s, n);
  }

  lemma KeepStep(s: State, a: Action)
    requires Inv(s) && (a.Start? || a.Go? || a.Meet?) && Step(s, a).Some?
    ensures Inv(Step(s, a).value)
  {
    match a
    case Start(t, job) => KeepStart(s, t, job);
    case Go(t) => KeepAdvance(s, t);
    case Meet(u) => KeepMeet(s, u);
  }

  lemma StepKeeps(s: State, a: Action)
    requires Inv(s) && Step(s, a).Some?
    ensures Inv(Step(s, a).value)
  {
    if a.Start? || a.Go? || a.Meet? {
      KeepStep(s, a);
    } else if a.Expire? || a.SeeQuit? {
      KeepSelect(s, a);
    } else {
      KeepRead(s, a);
    }
  }

  /** The invariant holds in every reachable state. */
  lemma {:induction false} RunKeeps(s: State, actions: seq<Action>)
    requires Inv(s) && Exec(s, actions).Some?
    ensures Inv(Exec(s, actions).value)
    decreases |actions|
  {
    if actions != [] {
      RunKeeps(s, actions[..|actions| - 1]);
      StepKeeps(Exec(s, actions[..|actions| - 1]).value, actions[|actions| - 1]);
    }
  }

  // ---------------------------------------------------------------- what it promises

  /** Along every interleaving no id is both waiting and pending, every extension is received by at most one waiter and
      every waiter receives at most one, and the snap peers are counted. */
  lemma BarrierIsSafe(actions: seq<Action>)
    requires Exec(Empty, actions).Some?
    ensures var s := Exec(Empty, actions).value;
      && (forall id :: !(id in s.wait && id in s.pend))
      && (forall i, j :: 0 <= i < j < |s.log| ==> s.log[i].ext != s.log[j].ext && s.log[i].waiter != s.log[j].waiter)
      && s.snapPeers == |Snaps(s.peers)|
  {
    EmptyIsSafe();
    RunKeeps(Empty, actions);
  }

  lemma EmptyIsSafe()
    ensures Inv(Empty)
  {
  }

  /** What frees a blocked sender: its waiter's next steps. */
  function Rescue(s: State, u: Thread): seq<Action>
    requires u in s.threads && s.threads[u].Sending? && s.threads[u].to in s.threads
  {
    var w := s.threads[u].to;
    if s.threads[w].Trying? then [Go(w), Meet(u)] else [Meet(u)]
  }

  /** A blocked sender's extension can be received, by its own waiter and within two steps, unless the waiter has taken
      the shutdown branch; the waiter keeps it exactly when it has not timed out before. */
  lemma RescueDelivers(s: State, u: Thread)
    requires Inv(s) && u in s.threads && s.threads[u].Sending?
    ensures s.threads[u].to in s.threads
    ensures !s.threads[s.threads[u].to].Quitting? ==>
      var run := Exec(s, Rescue(s, u));
      run.Some? && run.value.log == s.log + [Delivery(u, s.threads[u].to, s.threads[s.threads[u].to].Selecting?)]
  {
    var w := s.threads[u].to;
    if s.threads[w].Trying? {
      var m := Put(s, w, Retrying(s.threads[w].id));
      assert Exec(s, [Go(w)]) == Some(m) by {
        assert [Go(w)][..0] == [];
      }
      assert [Go(w), Meet(u)][..1] == [Go(w)];
    } else {
      assert [Meet(u)][..0] == [];
    }
  }

  /** Before the shutdown, whenever a registration is blocked on its send, its waiter is receiving, or about to try the
      lock without waiting for it, and the extension can be received within two steps. */
  lemma BlockedSenderIsReceived(actions: seq<Action>, u: Thread)
    requires Exec(Empty, actions).Some?
    requires var s := Exec(Empty, actions).value; !s.quit && u in s.threads && s.threads[u].Sending?
    ensures var s := Exec(Empty, actions).value;
      && s.lock == Some(u) && s.threads[u].to in s.threads
      && var pc := s.threads[s.threads[u].to];
      && (pc.Selecting? || pc.Trying? || pc.Retrying?) && pc.id == s.threads[u].id
      && var run := Exec(s, Rescue(s, u));
      && run.Some? && run.value.log == s.log + [Delivery(u, s.threads[u].to, s.threads[s.threads[u].to].Selecting?)]
  {
    EmptyIsSafe();
    RunKeeps(Empty, actions);
    RescueDelivers(Exec(Empty, actions).value, u);
  }

  // ---------------------------------------------------------------- the shutdown

  /** The waiter waits for the lock, and the sender that holds it waits for the waiter. */
  ghost predicate Stuck(s: State, u: Thread, w: Thread, id: Id)
  {
    && u in s.threads && s.threads[u] == Sending(id, w) && s.lock == Some(u)
    && w in s.threads && s.threads[w] == Quitting(id)
  }

  lemma StuckStep(s: State, a: Action, u: Thread, w: Thread, id: Id)
    requires Inv(s) && Stuck(s, u, w, id) && Step(s, a).Some?
    ensures Stuck(Step(s, a).value, u, w, id)
  {
    assert forall t :: t in s.threads && Holds(s.threads[t]) ==> t == u;
  }

  lemma {:induction false} StuckForever(s: State, actions: seq<Action>, u: Thread, w: Thread, id: Id)
    requires Inv(s) && Stuck(s, u, w, id) && Exec(s, actions).Some?
    ensures Stuck(Exec(s, actions).value, u, w, id)
    decreases |actions|
  {
    if actions != [] {
      RunKeeps(s, actions[..|actions| - 1]);
      StuckForever(s, actions[..|actions| - 1], u, w, id);
      StuckStep(Exec(s, actions[..|actions| - 1]).value, actions[|actions| - 1], u, w, id);
    }
  }

  ghost predicate Received(s: State, e: Thread)
  {
    exists i :: 0 <= i < |s.log| && s.log[i].ext == e
  }

  ghost predicate CanBeReceived(s: State, e: Thread)
  {
    exists actions :: Exec(s, actions).Some? && Received(Exec(s, actions).value, e)
  }

  /** A blocked sender can still be received if and only if its waiter has not taken the shutdown branch. */
  lemma SenderFate(s: State, u: Thread)
    requires Inv(s) && u in s.threads && s.threads[u].Sending?
    ensures s.threads[u].to in s.threads
    ensures CanBeReceived(s, u) <==> !s.threads[s.threads[u].to].Quitting?
  {
    var pc := s.threads[u];
    RescueDelivers(s, u);
    if !s.threads[pc.to].Quitting? {
      var v := Exec(s, Rescue(s, u)).value;
      assert v.log[|s.log|].ext == u;
      assert Received(v, u);
    } else {
      forall actions | Exec(s, actions).Some? ensures !Received(Exec(s, actions).value, u) {
        StuckForever(s, actions, u, pc.to, pc.id);
        RunKeeps(s, actions);
        SendersAreUnreceived(Exec(s, actions).value, u);
      }
    }
  }

  lemma SendersAreUnreceived(s: State, u: Thread)
    requires Inv(s) && u in s.threads && s.threads[u].Sending?
    ensures !Received(s, u)
  {
  }

  lemma Then(actions: seq<Action>, s: State, a: Action, v: State)
    requires Exec(Empty, actions) == Some(s) && Step(s, a) == Some(v)
    ensures Exec(Empty, actions + [a]) == Some(v)
  {
    assert (actions + [a])[..|actions|] == actions;
  }

  /** A goroutine starts, gets the free lock and runs its critical section. */
  lemma Runs(actions: seq<Action>, s: State, t: Thread, job: Job)
    requires Exec(Empty, actions) == Some(s) && Free(s) && t !in s.threads
    ensures Exec(Empty, actions + [Start(t, job), Go(t), Go(t)])
         == Some(Section(Put(s, t, Holding(job)).(lock := Some(t)), t, job))
  {
    var s1 := Put(s, t, Locking(job));
    var s2 := Put(s, t, Holding(job)).(lock := Some(t));
    Then(actions, s, Start(t, job), s1);
    assert s1.threads[t := Holding(job)] == s2.threads;
    Then(actions + [Start(t, job)], s1, Go(t), s2);
    Then(actions + [Start(t, job)] + [Go(t)], s2, Go(t), Section(s2, t, job));
    assert actions + [Start(t, job)] + [Go(t)] + [Go(t)] == actions + [Start(t, job), Go(t), Go(t)];
  }

  /** A run that leaves a waiter selecting, its entry in place and the lock free. */
  ghost predicate Exposed(actions: seq<Action>, s: State, w: Thread, id: Id)
  {
    && Exec(Empty, actions) == Some(s) && Free(s) && id !in s.peers && id !in s.pend
    && w in s.threads && s.threads[w] == Selecting(id) && id in s.wait && s.wait[id] == w
  }

  lemma ExposedByWait(w: Thread, id: Id) returns (actions: seq<Action>, s: State)
    ensures Exposed(actions, s, w, id) && s.threads.Keys == {w}
  {
    Runs([], Empty, w, Wait(id));
    actions := [] + [Start(w, Wait(id)), Go(w), Go(w)];
    s := Section(Put(Empty, w, Holding(Wait(id))).(lock := Some(w)), w, Wait(id));
  }

  lemma ExposedByClose(actions: seq<Action>, s: State, w: Thread, id: Id, c: Thread)
      returns (more: seq<Action>, v: State)
    requires Exposed(actions, s, w, id) && c !in s.threads
    ensures Exposed(more, v, w, id) && v.quit && v.threads.Keys == s.threads.Keys + {c}
  {
    Runs(actions, s, c, Close);
    more := actions + [Start(c, Close), Go(c), Go(c)];
    v := Section(Put(s, c, Holding(Close)).(lock := Some(c)), c, Close);
  }

  lemma StuckByRegister(actions: seq<Action>, s: State, w: Thread, id: Id, u: Thread) returns (more: seq<Action>)
    requires Exposed(actions, s, w, id) && s.quit && u !in s.threads
    ensures Exec(Empty, more).Some? && Stuck(Exec(Empty, more).value, u, w, id)
  {
    var v := Put(s, w, Quitting(id));
    Then(actions, s, SeeQuit(w), v);
    Runs(actions + [SeeQuit(w)], v, u, Register(id));
    more := actions + [SeeQuit(w)] + [Start(u, Register(id)), Go(u), Go(u)];
  }

  /** A deadlock is reachable for every id: a waiter sees the shutdown, and a registration gets the lock before it
      does. */
  lemma ShutdownDeadlock(w: Thread, u: Thread, id: Id)
    requires w != u
    ensures exists actions :: Exec(Empty, actions).Some? && Stuck(Exec(Empty, actions).value, u, w, id)
  {
    var waits, s := ExposedByWait(w, id);
    var closes, v := ExposedByClose(waits, s, w, id, w + u + 1);
    var all := StuckByRegister(closes, v, w, id, u);
  }
}
