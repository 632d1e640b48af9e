/**
  * Firing, registering, unregistering and polling, interleaved action by action: every atomic load, the
  * compare-exchange, and every stretch under a signal's lock is a step of its own.
  */
module WakeUps {
  import opened Signals

  /**
    * Where a `WaitForAny` stands. The index is the signal it deals with next; `RegPush` and `RegLate` hold
    * that signal's lock and have read its sequence number, as zero and as nonzero.
    */
  datatype Pc =
    | Created
    | FirstScan(i: nat)
    | RegLoad(i: nat)
    | RegLock(i: nat)
    | RegHeld(i: nat)
    | RegPush(i: nat)
    | RegLate(i: nat)
    | SecondScan(i: nat)
    | Pending
    | Unregister(i: nat)
    | Gone

  /** A waiter and the waker of its latest poll; each poll brings a new one. */
  datatype WaitForAny = WaitForAny(signals: seq<nat>, pc: Pc, waker: nat)

  datatype Firer = Numbered(signal: nat, number: nat) | Draining(signal: nat) | Finished

  datatype System = System(
    signals: map<nat, Signal>, waiters: map<nat, WaitForAny>, firers: map<nat, Firer>,
    woken: set<nat>, nextWaker: nat, nextSequence: nat)

  function Initial(ids: set<nat>): System {
    System(map s | s in ids :: SILENT, map[], map[], {}, 0, 1)
  }

  datatype Step =
    | Spawn(waiter: nat, signals: seq<nat>)
    | Poll(waiter: nat)
    | Advance(waiter: nat)
    | Drop(waiter: nat)
    | Fire(firer: nat, signal: nat)
    | Publish(firer: nat)
    | Drain(firer: nat)

  /** The signal that the next action of a waiter touches. */
  function Target(w: WaitForAny): (r: nat)
    requires w.pc.FirstScan? || w.pc.RegLoad? || w.pc.RegLock? || w.pc.RegHeld? || w.pc.RegPush? || w.pc.RegLate?
             || w.pc.SecondScan? || w.pc.Unregister?
    requires w.pc.i < |w.signals|
  {
    w.signals[w.pc.i]
  }

  predicate HoldsLock(pc: Pc) {
    pc.RegHeld? || pc.RegPush? || pc.RegLate?
  }

  predicate Indexed(pc: Pc) {
    pc.FirstScan? || pc.RegLoad? || pc.RegLock? || HoldsLock(pc) || pc.SecondScan? || pc.Unregister?
  }

  predicate Enabled(s: System, step: Step) {
    match step
    case Spawn(w, signals) => w !in s.waiters && forall i :: 0 <= i < |signals| ==> signals[i] in s.signals
    case Poll(w) => w in s.waiters && (s.waiters[w].pc.Created? || s.waiters[w].pc.Pending?)
    case Advance(w) => w in s.waiters && CanAdvance(s, s.waiters[w])
    case Drop(w) => w in s.waiters && (s.waiters[w].pc.Created? || s.waiters[w].pc.Pending? || s.waiters[w].pc.Gone?)
    case Fire(f, signal) => f !in s.firers && signal in s.signals
    case Publish(f) => f in s.firers && s.firers[f].Numbered? && s.firers[f].signal in s.signals
    case Drain(f) =>
      f in s.firers && s.firers[f].Draining? && s.firers[f].signal in s.signals
      && s.signals[s.firers[f].signal].holder.Nobody?
  }

  predicate CanAdvance(s: System, w: WaitForAny) {
    Indexed(w.pc) &&
    if w.pc.i >= |w.signals| then !HoldsLock(w.pc) && !w.pc.RegLock?
    else
      && w.signals[w.pc.i] in s.signals
      && (w.pc.RegLock? || w.pc.Unregister? ==> s.signals[w.signals[w.pc.i]].holder.Nobody?)
  }

  function At(s: System, id: nat, pc: Pc): System
    requires id in s.waiters
  {
    s.(waiters := s.waiters[id := s.waiters[id].(pc := pc)])
  }

  function Put(s: System, id: nat, signal: Signal): System {
    s.(signals := s.signals[id := signal])
  }

  /** One action of `poll`, of the registration it makes, or of `unregister`. */
  function StepAdvance(s: System, id: nat): System
    requires Enabled(s, Advance(id))
  {
    var w := s.waiters[id];
    var i := w.pc.i;
    if i >= |w.signals| then
      match w.pc
      case FirstScan(_) => At(s, id, RegLoad(0))
      case RegLoad(_) => At(s, id, SecondScan(0))
      case SecondScan(_) => At(s, id, Pending)
      case _ => At(s, id, Gone)
    else
      var sig := s.signals[Target(w)];
      match w.pc
      case FirstScan(_) => At(s, id, if sig.sequence != 0 then Unregister(0) else FirstScan(i + 1))
      case RegLoad(_) =>
        if sig.sequence != 0 then At(s, id, RegLoad(i + 1)).(woken := s.woken + {w.waker}) else At(s, id, RegLock(i))
      case RegLock(_) => Put(At(s, id, RegHeld(i)), Target(w), sig.(holder := Waiter(id)))
      case RegHeld(_) => At(s, id, if sig.sequence != 0 then RegLate(i) else RegPush(i))
      case RegPush(_) => Put(At(s, id, RegLoad(i + 1)), Target(w), sig.Push(id, w.waker).(holder := Nobody))
      case RegLate(_) =>
        Put(At(s, id, RegLoad(i + 1)), Target(w), sig.(holder := Nobody)).(woken := s.woken + {w.waker})
      case SecondScan(_) => At(s, id, if sig.sequence != 0 then Unregister(0) else SecondScan(i + 1))
      case _ => Put(At(s, id, Unregister(i + 1)), Target(w), sig.Remove(id))
  }

  function StepPublish(s: System, f: nat): System
    requires Enabled(s, Publish(f))
  {
    var firer := s.firers[f];
    var sig := s.signals[firer.signal];
    Put(s, firer.signal, sig.Publish(firer.number))
      .(firers := s.firers[f := if sig.sequence == 0 then Draining(firer.signal) else Finished])
  }

  function StepDrain(s: System, f: nat): System
    requires Enabled(s, Drain(f))
  {
    var id := s.firers[f].signal;
    Put(s, id, s.signals[id].Drain()).(firers := s.firers[f := Finished],
        woken := s.woken + s.signals[id].wakers.Values)
  }

  function Next(s: System, step: Step): System {
    if !Enabled(s, step) then s
    else match step
      case Spawn(w, signals) => s.(waiters := s.waiters[w := WaitForAny(signals, Created, 0)])
      case Poll(w) =>
        s.(waiters := s.waiters[w := s.waiters[w].(pc := FirstScan(0), waker := s.nextWaker)],
            nextWaker := s.nextWaker + 1)
      case Advance(w) => StepAdvance(s, w)
      case Drop(w) => At(s, w, Unregister(0))
      case Fire(f, signal) =>
        s.(firers := s.firers[f := Numbered(signal, s.nextSequence)], nextSequence := s.nextSequence + 1)
      case Publish(f) => StepPublish(s, f)
      case Drain(f) => StepDrain(s, f)
  }

  function Run(ids: set<nat>, steps: seq<Step>): System {
    if steps == [] then Initial(ids) else Next(Run(ids, steps[..|steps| - 1]), steps[|steps| - 1])
  }

  // What every reachable state keeps

  /** How far the registrations of the latest poll have got. */
  function Registered(w: WaitForAny): nat {
    match w.pc
    case RegLoad(i) => i
    case RegLock(i) => i
    case RegHeld(i) => i
    case RegPush(i) => i
    case RegLate(i) => i
    case SecondScan(_) => |w.signals|
    case Pending => |w.signals|
    case _ => 0
  }

  /** The waiter's current waker has been woken, or is listed at this signal before its list is emptied. */
  ghost predicate Covered(s: System, id: nat, signal: nat)
    requires id in s.waiters && signal in s.signals
  {
    || s.waiters[id].waker in s.woken
    || (!s.signals[signal].drained && id in s.signals[signal].wakers
        && s.signals[signal].wakers[id] == s.waiters[id].waker)
  }

  /** The waiter is about to leave, or has left, this many of its signals. */
  function Left(w: WaitForAny): nat {
    match w.pc
    case Unregister(i) => i
    case Gone => |w.signals|
    case _ => 0
  }

  ghost predicate WaiterOk(s: System, id: nat)
    requires id in s.waiters
  {
    var w := s.waiters[id];
    && (Indexed(w.pc) ==> w.pc.i <= |w.signals|)
    && (HoldsLock(w.pc) || w.pc.RegLock? ==> w.pc.i < |w.signals|)
    && (forall i :: 0 <= i < |w.signals| ==> w.signals[i] in s.signals)
    && (forall i :: 0 <= i < |w.signals| && i < Registered(w) ==> Covered(s, id, w.signals[i]))
    && (forall i :: 0 <= i < |w.signals| && i < Left(w) ==> id !in s.signals[w.signals[i]].wakers)
    && (HoldsLock(w.pc) ==> s.signals[Target(w)].holder == Waiter(id))
    && (w.pc.RegPush? ==> !s.signals[Target(w)].drained)
  }

  ghost predicate SignalOk(s: System, x: nat)
    requires x in s.signals
  {
    var sig := s.signals[x];
    && (sig.holder.Waiter? ==>
          && sig.holder.id in s.waiters
          && HoldsLock(s.waiters[sig.holder.id].pc)
          && s.waiters[sig.holder.id].pc.i < |s.waiters[sig.holder.id].signals|
          && Target(s.waiters[sig.holder.id]) == x)
    && (forall id :: id in sig.wakers ==> id in s.waiters && x in s.waiters[id].signals)
    && (sig.drained ==> sig.sequence != 0 && sig.wakers == map[])
    && (sig.sequence != 0 && !sig.drained ==> exists f :: f in s.firers && s.firers[f] == Draining(x))
  }

  ghost predicate FirerOk(s: System, f: nat)
    requires f in s.firers
  {
    match s.firers[f]
    case Numbered(x, number) => number > 0 && x in s.signals
    case Draining(x) =>
      && x in s.signals && s.signals[x].sequence != 0 && !s.signals[x].drained
      && (forall g :: g in s.firers && s.firers[g] == Draining(x) ==> g == f)
    case Finished => true
  }

  ghost predicate Invariant(s: System) {
    && s.nextSequence > 0
    && (forall id | id in s.waiters :: WaiterOk(s, id))
    && (forall x | x in s.signals :: SignalOk(s, x))
    && (forall f | f in s.firers :: FirerOk(s, f))
  }

  /** What a step may do to a signal, seen by a waiter that does not move: nothing, or drain it and wake the entry. */
  ghost predicate Kept(s: System, t: System, x: nat, id: nat)
    requires x in s.signals
  {
    && x in t.signals
    && (s.signals[x].holder == Waiter(id) ==>
          t.signals[x].holder == Waiter(id) && t.signals[x].drained == s.signals[x].drained)
    && if id in t.signals[x].wakers then
         id in s.signals[x].wakers && t.signals[x].wakers[id] == s.signals[x].wakers[id]
         && t.signals[x].drained == s.signals[x].drained
       else id in s.signals[x].wakers ==> s.signals[x].wakers[id] in t.woken
  }

  lemma {:induction false} StillWaiter(s: System, t: System, id: nat)
    requires id in s.waiters && WaiterOk(s, id)
    requires id in t.waiters && t.waiters[id] == s.waiters[id] && s.woken <= t.woken
    requires forall x :: x in s.signals ==> Kept(s, t, x, id)
    ensures WaiterOk(t, id)
  {
    var w := s.waiters[id];
    forall i | 0 <= i < |w.signals| && i < Registered(w) ensures Covered(t, id, w.signals[i]) {
      assert Covered(s, id, w.signals[i]) && Kept(s, t, w.signals[i], id);
    }
    forall i | 0 <= i < |w.signals| ensures w.signals[i] in t.signals {
      assert Kept(s, t, w.signals[i], id);
    }
  }

  lemma {:induction false} DrainWaiters(s: System, f: nat)
    requires Invariant(s) && Enabled(s, Drain(f))
    ensures forall id :: id in StepDrain(s, f).waiters ==> WaiterOk(StepDrain(s, f), id)
  {
    hide SignalOk, FirerOk, WaiterOk;
    forall id | id in StepDrain(s, f).waiters ensures WaiterOk(StepDrain(s, f), id) {
      StillWaiter(s, StepDrain(s, f), id);
    }
  }

  lemma {:induction false} DrainSignals(s: System, f: nat)
    requires Invariant(s) && Enabled(s, Drain(f))
    ensures forall x :: x in StepDrain(s, f).signals ==> SignalOk(StepDrain(s, f), x)
  {
    hide WaiterOk;
    var t := StepDrain(s, f);
    assert FirerOk(s, f);
    forall x | x in t.signals ensures SignalOk(t, x) {
      assert SignalOk(s, x);
      if x != s.firers[f].signal { StillDraining(s, t, x); }
    }
  }

  lemma {:induction false} DrainFirers(s: System, f: nat)
    requires Invariant(s) && Enabled(s, Drain(f))
    ensures forall g :: g in StepDrain(s, f).firers ==> FirerOk(StepDrain(s, f), g)
  {
    hide WaiterOk, SignalOk;
    assert FirerOk(s, f);
    forall g | g in StepDrain(s, f).firers ensures FirerOk(StepDrain(s, f), g) {
      assert FirerOk(s, g);
    }
  }

  lemma {:induction false} DrainKeeps(s: System, f: nat)
    requires Invariant(s) && Enabled(s, Drain(f))
    ensures Invariant(StepDrain(s, f))
  {
    hide WaiterOk, SignalOk, FirerOk;
    DrainWaiters(s, f);
    DrainSignals(s, f);
    DrainFirers(s, f);
  }

  /** A signal fired but not drained still has the firer that will drain it. */
  lemma {:induction false} StillDraining(s: System, t: System, x: nat)
    requires x in s.signals && SignalOk(s, x)
    requires forall g :: g in s.firers && s.firers[g] == Draining(x) ==> g in t.firers && t.firers[g] == Draining(x)
    ensures s.signals[x].sequence != 0 && !s.signals[x].drained ==>
        exists g :: g in t.firers && t.firers[g] == Draining(x)
  {
    if s.signals[x].sequence != 0 && !s.signals[x].drained {
      var g :| g in s.firers && s.firers[g] == Draining(x);
      assert t.firers[g] == Draining(x);
    }
  }

  lemma {:induction false} PublishWaiters(s: System, f: nat)
    requires Invariant(s) && Enabled(s, Publish(f))
    ensures forall id :: id in StepPublish(s, f).waiters ==> WaiterOk(StepPublish(s, f), id)
  {
    hide SignalOk, FirerOk, WaiterOk;
    forall id | id in StepPublish(s, f).waiters ensures WaiterOk(StepPublish(s, f), id) {
      StillWaiter(s, StepPublish(s, f), id);
    }
  }

  lemma {:induction false} PublishSignals(s: System, f: nat)
    requires Invariant(s) && Enabled(s, Publish(f))
    ensures forall x :: x in StepPublish(s, f).signals ==> SignalOk(StepPublish(s, f), x)
  {
    hide WaiterOk;
    var t := StepPublish(s, f);
    var d := s.firers[f].signal;
    assert FirerOk(s, f) && SignalOk(s, d);
    forall x | x in t.signals ensures SignalOk(t, x) {
      assert SignalOk(s, x);
      StillDraining(s, t, x);
      if x == d && s.signals[d].sequence == 0 { assert t.firers[f] == Draining(x); }
    }
  }

  lemma {:induction false} PublishFirers(s: System, f: nat)
    requires Invariant(s) && Enabled(s, Publish(f))
    ensures forall g :: g in StepPublish(s, f).firers ==> FirerOk(StepPublish(s, f), g)
  {
    hide WaiterOk;
    assert FirerOk(s, f) && SignalOk(s, s.firers[f].signal);
    forall g | g in StepPublish(s, f).firers ensures FirerOk(StepPublish(s, f), g) {
      assert FirerOk(s, g);
    }
  }

  lemma {:induction false} PublishKeeps(s: System, f: nat)
    requires Invariant(s) && Enabled(s, Publish(f))
    ensures Invariant(StepPublish(s, f))
  {
    hide WaiterOk, SignalOk, FirerOk;
    PublishWaiters(s, f);
    PublishSignals(s, f);
    PublishFirers(s, f);
  }

  /** What a step of waiter `id` may do to a signal. */
  ghost predicate SignalMoved(s: System, t: System, x: nat, id: nat)
    requires x in s.signals && id in t.waiters
  {
    && x in t.signals
    && t.signals[x].sequence == s.signals[x].sequence && t.signals[x].drained == s.signals[x].drained
    && (forall j :: j != id ==>
          && (j in t.signals[x].wakers <==> j in s.signals[x].wakers)
          && (j in s.signals[x].wakers ==> t.signals[x].wakers[j] == s.signals[x].wakers[j]))
    && (id in t.signals[x].wakers ==> !t.signals[x].drained && x in t.waiters[id].signals)
    && (s.signals[x].holder.Waiter? && s.signals[x].holder.id != id ==> t.signals[x].holder == s.signals[x].holder)
    && (t.signals[x].holder.Waiter? && t.signals[x].holder != s.signals[x].holder ==> t.signals[x].holder.id == id)
    && (t.signals[x].holder == Waiter(id) ==>
          HoldsLock(t.waiters[id].pc) && t.waiters[id].pc.i < |t.waiters[id].signals| && Target(t.waiters[id]) == x)
  }

  lemma {:induction false} MoveSignals(s: System, t: System, id: nat)
    requires Invariant(s) && id in s.waiters && id in t.waiters
    requires t.firers == s.firers && t.nextSequence == s.nextSequence && s.woken <= t.woken
    requires t.waiters == s.waiters[id := t.waiters[id]] && t.waiters[id].signals == s.waiters[id].signals
    requires t.signals.Keys == s.signals.Keys && forall x :: x in s.signals ==> SignalMoved(s, t, x, id)
    ensures forall x :: x in t.signals ==> SignalOk(t, x)
  {
    hide WaiterOk, FirerOk;
    hide SignalOk, SignalMoved;
    forall x | x in t.signals ensures SignalOk(t, x) {
      assert SignalOk(s, x) && SignalMoved(s, t, x, id);
      MovedSignal(s, t, x, id);
    }
  }

  lemma {:induction false} MovedSignal(s: System, t: System, x: nat, id: nat)
    requires x in s.signals && SignalOk(s, x) && id in s.waiters && id in t.waiters && SignalMoved(s, t, x, id)
    requires t.firers == s.firers
    requires t.waiters == s.waiters[id := t.waiters[id]] && t.waiters[id].signals == s.waiters[id].signals
    ensures SignalOk(t, x)
  {
    StillDraining(s, t, x);
    if t.signals[x].drained { assert t.signals[x].wakers.Keys == {}; }
  }

  lemma {:induction false} MoveFirers(s: System, t: System, id: nat)
    requires Invariant(s) && id in s.waiters && id in t.waiters
    requires t.firers == s.firers && t.nextSequence == s.nextSequence && s.woken <= t.woken
    requires t.waiters == s.waiters[id := t.waiters[id]] && t.waiters[id].signals == s.waiters[id].signals
    requires t.signals.Keys == s.signals.Keys && forall x :: x in s.signals ==> SignalMoved(s, t, x, id)
    ensures forall g :: g in t.firers ==> FirerOk(t, g)
  {
    hide WaiterOk, SignalOk;
    forall g | g in t.firers ensures FirerOk(t, g) {
      assert FirerOk(s, g);
      if !s.firers[g].Finished? { assert SignalMoved(s, t, s.firers[g].signal, id); }
    }
  }

  /** A step of one waiter keeps the rest, once that waiter and the signals it touched are in order. */
  lemma {:induction false} MoveKeeps(s: System, t: System, id: nat)
    requires Invariant(s) && id in s.waiters && id in t.waiters
    requires t.firers == s.firers && t.nextSequence == s.nextSequence && s.woken <= t.woken
    requires t.waiters == s.waiters[id := t.waiters[id]] && t.waiters[id].signals == s.waiters[id].signals
    requires t.signals.Keys == s.signals.Keys && forall x :: x in s.signals ==> SignalMoved(s, t, x, id)
    requires WaiterOk(t, id)
    ensures Invariant(t)
  {
    hide WaiterOk, SignalOk, FirerOk, SignalMoved;
    forall j | j in t.waiters ensures WaiterOk(t, j) {
      if j != id { OtherWaiter(s, t, id, j); }
    }
    MoveSignals(s, t, id);
    MoveFirers(s, t, id);
  }

  lemma {:induction false} OtherWaiter(s: System, t: System, id: nat, j: nat)
    requires j in s.waiters && WaiterOk(s, j) && id in t.waiters && j != id
    requires j in t.waiters && t.waiters[j] == s.waiters[j] && s.woken <= t.woken
    requires forall x :: x in s.signals ==> SignalMoved(s, t, x, id)
    ensures WaiterOk(t, j)
  {
    forall x | x in s.signals ensures Kept(s, t, x, j) {
      assert SignalMoved(s, t, x, id);
    }
    StillWaiter(s, t, j);
  }

  /** Moving on and touching one signal. */
  lemma {:induction false} OneSignalMove(s: System, t: System, id: nat, d: nat)
    requires Invariant(s) && id in s.waiters && id in t.waiters && d in s.signals && d in t.signals
    requires t.firers == s.firers && t.nextSequence == s.nextSequence && s.woken <= t.woken
    requires t.signals == s.signals[d := t.signals[d]]
    requires t.waiters == s.waiters[id := t.waiters[id]] && t.waiters[id].signals == s.waiters[id].signals
    requires HoldsLock(s.waiters[id].pc) ==> s.waiters[id].pc.i < |s.waiters[id].signals| && Target(s.waiters[id]) == d
    requires SignalMoved(s, t, d, id) && WaiterOk(t, id)
    ensures Invariant(t)
  {
    forall x | x in s.signals ensures SignalMoved(s, t, x, id) {
      assert SignalOk(s, x);
    }
    MoveKeeps(s, t, id);
  }

  /** Moving on without touching a signal. */
  lemma {:induction false} QuietMove(s: System, t: System, id: nat)
    requires Invariant(s) && id in s.waiters && id in t.waiters
    requires t.firers == s.firers && t.nextSequence == s.nextSequence && s.woken <= t.woken && t.signals == s.signals
    requires t.waiters == s.waiters[id := t.waiters[id]] && t.waiters[id].signals == s.waiters[id].signals
    requires HoldsLock(s.waiters[id].pc) ==> HoldsLock(t.waiters[id].pc) && t.waiters[id].pc.i == s.waiters[id].pc.i
    requires WaiterOk(t, id)
    ensures Invariant(t)
  {
    forall x | x in s.signals ensures SignalMoved(s, t, x, id) {
      assert SignalOk(s, x);
    }
    MoveKeeps(s, t, id);
  }

  lemma {:induction false} AdvanceKeeps(s: System, id: nat)
    requires Invariant(s) && Enabled(s, Advance(id))
    ensures Invariant(StepAdvance(s, id))
  {
    var w := s.waiters[id];
    if w.pc.i >= |w.signals| {
      TurnKeeps(s, id);
    } else if w.pc.FirstScan? || w.pc.SecondScan? {
      ScanKeeps(s, id);
    } else if w.pc.RegHeld? {
      HeldKeeps(s, id);
    } else if w.pc.RegLoad? {
      FirstLoadKeeps(s, id);
    } else if w.pc.RegPush? {
      PushKeeps(s, id);
    } else if w.pc.RegLate? {
      LateKeeps(s, id);
    } else if w.pc.RegLock? {
      LockKeeps(s, id);
    } else {
      RemoveKeeps(s, id);
    }
  }

  lemma {:induction false} TurnMover(s: System, id: nat)
    requires Invariant(s) && Enabled(s, Advance(id)) && s.waiters[id].pc.i >= |s.waiters[id].signals|
    ensures WaiterOk(StepAdvance(s, id), id)
  {
    hide SignalOk, FirerOk;
    assert WaiterOk(s, id);
    TurnCovered(s, id);
  }

  lemma {:induction false} TurnKeeps(s: System, id: nat)
    requires Invariant(s) && Enabled(s, Advance(id)) && s.waiters[id].pc.i >= |s.waiters[id].signals|
    ensures Invariant(StepAdvance(s, id))
  {
    TurnMover(s, id);
    hide SignalOk, FirerOk, Covered;
    assert WaiterOk(s, id);
    QuietMove(s, StepAdvance(s, id), id);
  }

  lemma {:induction false} TurnCovered(s: System, id: nat)
    requires Invariant(s) && Enabled(s, Advance(id)) && s.waiters[id].pc.i >= |s.waiters[id].signals|
    ensures var w := s.waiters[id];
            forall i :: 0 <= i < |w.signals| && i < Registered(StepAdvance(s, id).waiters[id]) ==>
              Covered(StepAdvance(s, id), id, w.signals[i])
  {
    assert WaiterOk(s, id);
    var w := s.waiters[id];
    forall i | 0 <= i < |w.signals| && i < Registered(StepAdvance(s, id).waiters[id])
      ensures Covered(StepAdvance(s, id), id, w.signals[i])
    {
      assert Covered(s, id, w.signals[i]);
    }
  }

  lemma {:induction false} ScanMover(s: System, id: nat)
    requires Invariant(s) && Enabled(s, Advance(id)) && s.waiters[id].pc.i < |s.waiters[id].signals|
    requires s.waiters[id].pc.FirstScan? || s.waiters[id].pc.SecondScan?
    ensures WaiterOk(StepAdvance(s, id), id)
  {
    hide SignalOk, FirerOk;
    var t := StepAdvance(s, id);
    var w := s.waiters[id];
    assert WaiterOk(s, id);
    forall i | 0 <= i < |w.signals| && i < Registered(t.waiters[id]) ensures Covered(t, id, w.signals[i]) {
      assert Covered(s, id, w.signals[i]);
    }
  }

  lemma {:induction false} ScanKeeps(s: System, id: nat)
    requires Invariant(s) && Enabled(s, Advance(id)) && s.waiters[id].pc.i < |s.waiters[id].signals|
    requires s.waiters[id].pc.FirstScan? || s.waiters[id].pc.SecondScan?
    ensures Invariant(StepAdvance(s, id))
  {
    hide WaiterOk, SignalOk, FirerOk;
    ScanMover(s, id);
    QuietMove(s, StepAdvance(s, id), id);
  }

  lemma {:induction false} HeldMover(s: System, id: nat)
    requires Invariant(s) && Enabled(s, Advance(id)) && s.waiters[id].pc.i < |s.waiters[id].signals|
    requires s.waiters[id].pc.RegHeld?
    ensures WaiterOk(StepAdvance(s, id), id)
  {
    hide FirerOk;
    var t := StepAdvance(s, id);
    var w := s.waiters[id];
    assert WaiterOk(s, id) && SignalOk(s, Target(w));
    forall i | 0 <= i < |w.signals| && i < Registered(t.waiters[id]) ensures Covered(t, id, w.signals[i]) {
      assert Covered(s, id, w.signals[i]);
    }
  }

  lemma {:induction false} HeldKeeps(s: System, id: nat)
    requires Invariant(s) && Enabled(s, Advance(id)) && s.waiters[id].pc.i < |s.waiters[id].signals|
    requires s.waiters[id].pc.RegHeld?
    ensures Invariant(StepAdvance(s, id))
  {
    hide WaiterOk, SignalOk, FirerOk;
    HeldMover(s, id);
    QuietMove(s, StepAdvance(s, id), id);
  }

  lemma {:induction false} LoadMover(s: System, id: nat)
    requires Invariant(s) && Enabled(s, Advance(id)) && s.waiters[id].pc.i < |s.waiters[id].signals|
    requires s.waiters[id].pc.RegLoad?
    ensures WaiterOk(StepAdvance(s, id), id)
  {
    hide SignalOk, FirerOk;
    var t := StepAdvance(s, id);
    var w := s.waiters[id];
    assert WaiterOk(s, id);
    forall i | 0 <= i < |w.signals| && i < Registered(t.waiters[id]) ensures Covered(t, id, w.signals[i]) {
      assert i < Registered(w) ==> Covered(s, id, w.signals[i]);
    }
  }

  lemma {:induction false} FirstLoadKeeps(s: System, id: nat)
    requires Invariant(s) && Enabled(s, Advance(id)) && s.waiters[id].pc.i < |s.waiters[id].signals|
    requires s.waiters[id].pc.RegLoad?
    ensures Invariant(StepAdvance(s, id))
  {
    hide WaiterOk, SignalOk, FirerOk;
    LoadMover(s, id);
    QuietMove(s, StepAdvance(s, id), id);
  }

  /** The mover's own registrations, after an action on one signal that removes none of its entries. */
  lemma {:induction false} MoverCovered(s: System, t: System, id: nat)
    requires id in s.waiters && WaiterOk(s, id) && id in t.waiters && s.woken <= t.woken
    requires t.waiters[id].signals == s.waiters[id].signals && t.waiters[id].waker == s.waiters[id].waker
    requires Registered(t.waiters[id]) <= Registered(s.waiters[id]) + 1
    requires t.signals.Keys == s.signals.Keys
    requires forall x :: x in s.signals && Covered(s, id, x) ==> Covered(t, id, x)
    requires var next := Registered(s.waiters[id]);
             next < |s.waiters[id].signals| && Registered(t.waiters[id]) > next ==>
               Covered(t, id, s.waiters[id].signals[next])
    ensures forall i :: 0 <= i < |t.waiters[id].signals| && i < Registered(t.waiters[id]) ==>
              Covered(t, id, t.waiters[id].signals[i])
  {
  }

  lemma {:induction false} LockMover(s: System, id: nat)
    requires Invariant(s) && Enabled(s, Advance(id)) && s.waiters[id].pc.i < |s.waiters[id].signals|
    requires s.waiters[id].pc.RegLock?
    ensures WaiterOk(StepAdvance(s, id), id)
  {
    hide FirerOk;
    var t := StepAdvance(s, id);
    assert WaiterOk(s, id) && SignalOk(s, Target(s.waiters[id]));
    MoverCovered(s, t, id);
  }

  lemma {:induction false} LockSignal(s: System, id: nat)
    requires Invariant(s) && Enabled(s, Advance(id)) && s.waiters[id].pc.i < |s.waiters[id].signals|
    requires s.waiters[id].pc.RegLock?
    ensures SignalMoved(s, StepAdvance(s, id), Target(s.waiters[id]), id)
  {
    hide FirerOk, Covered;
    assert WaiterOk(s, id) && SignalOk(s, Target(s.waiters[id]));
  }

  lemma {:induction false} LockKeeps(s: System, id: nat)
    requires Invariant(s) && Enabled(s, Advance(id)) && s.waiters[id].pc.i < |s.waiters[id].signals|
    requires s.waiters[id].pc.RegLock?
    ensures Invariant(StepAdvance(s, id))
  {
    hide WaiterOk, SignalOk, FirerOk, SignalMoved;
    LockMover(s, id);
    LockSignal(s, id);
    OneSignalMove(s, StepAdvance(s, id), id, Target(s.waiters[id]));
  }

  lemma {:induction false} PushMover(s: System, id: nat)
    requires Invariant(s) && Enabled(s, Advance(id)) && s.waiters[id].pc.i < |s.waiters[id].signals|
    requires s.waiters[id].pc.RegPush?
    ensures WaiterOk(StepAdvance(s, id), id)
  {
    hide FirerOk;
    var t := StepAdvance(s, id);
    assert WaiterOk(s, id) && SignalOk(s, Target(s.waiters[id]));
    MoverCovered(s, t, id);
  }

  lemma {:induction false} PushSignal(s: System, id: nat)
    requires Invariant(s) && Enabled(s, Advance(id)) && s.waiters[id].pc.i < |s.waiters[id].signals|
    requires s.waiters[id].pc.RegPush?
    ensures SignalMoved(s, StepAdvance(s, id), Target(s.waiters[id]), id)
  {
    hide FirerOk, Covered;
    assert WaiterOk(s, id) && SignalOk(s, Target(s.waiters[id]));
  }

  lemma {:induction false} PushKeeps(s: System, id: nat)
    requires Invariant(s) && Enabled(s, Advance(id)) && s.waiters[id].pc.i < |s.waiters[id].signals|
    requires s.waiters[id].pc.RegPush?
    ensures Invariant(StepAdvance(s, id))
  {
    hide WaiterOk, SignalOk, FirerOk, SignalMoved;
    PushMover(s, id);
    PushSignal(s, id);
    OneSignalMove(s, StepAdvance(s, id), id, Target(s.waiters[id]));
  }

  lemma {:induction false} LateMover(s: System, id: nat)
    requires Invariant(s) && Enabled(s, Advance(id)) && s.waiters[id].pc.i < |s.waiters[id].signals|
    requires s.waiters[id].pc.RegLate?
    ensures WaiterOk(StepAdvance(s, id), id)
  {
    hide FirerOk;
    var t := StepAdvance(s, id);
    assert WaiterOk(s, id) && SignalOk(s, Target(s.waiters[id]));
    MoverCovered(s, t, id);
  }

  lemma {:induction false} LateSignal(s: System, id: nat)
    requires Invariant(s) && Enabled(s, Advance(id)) && s.waiters[id].pc.i < |s.waiters[id].signals|
    requires s.waiters[id].pc.RegLate?
    ensures SignalMoved(s, StepAdvance(s, id), Target(s.waiters[id]), id)
  {
    hide FirerOk, Covered;
    assert WaiterOk(s, id) && SignalOk(s, Target(s.waiters[id]));
  }

  lemma {:induction false} LateKeeps(s: System, id: nat)
    requires Invariant(s) && Enabled(s, Advance(id)) && s.waiters[id].pc.i < |s.waiters[id].signals|
    requires s.waiters[id].pc.RegLate?
    ensures Invariant(StepAdvance(s, id))
  {
    hide WaiterOk, SignalOk, FirerOk, SignalMoved;
    LateMover(s, id);
    LateSignal(s, id);
    OneSignalMove(s, StepAdvance(s, id), id, Target(s.waiters[id]));
  }

  lemma {:induction false} RemoveMover(s: System, id: nat)
    requires Invariant(s) && Enabled(s, Advance(id)) && s.waiters[id].pc.i < |s.waiters[id].signals|
    requires s.waiters[id].pc.Unregister?
    ensures WaiterOk(StepAdvance(s, id), id)
  {
    hide SignalOk, FirerOk, Covered;
    var t := StepAdvance(s, id);
    var w := s.waiters[id];
    assert WaiterOk(s, id) && t.waiters[id].pc == Unregister(w.pc.i + 1);
    assert t.signals == s.signals[Target(w) := s.signals[Target(w)].Remove(id)];
    forall i | 0 <= i < |w.signals| && i <= w.pc.i ensures id !in t.signals[w.signals[i]].wakers {
    }
  }

  lemma {:induction false} RemoveSignal(s: System, id: nat)
    requires Invariant(s) && Enabled(s, Advance(id)) && s.waiters[id].pc.i < |s.waiters[id].signals|
    requires s.waiters[id].pc.Unregister?
    ensures SignalMoved(s, StepAdvance(s, id), Target(s.waiters[id]), id)
  {
    assert SignalOk(s, Target(s.waiters[id]));
  }

  lemma {:induction false} RemoveKeeps(s: System, id: nat)
    requires Invariant(s) && Enabled(s, Advance(id)) && s.waiters[id].pc.i < |s.waiters[id].signals|
    requires s.waiters[id].pc.Unregister?
    ensures Invariant(StepAdvance(s, id))
  {
    hide WaiterOk, SignalOk, FirerOk, SignalMoved;
    RemoveMover(s, id);
    RemoveSignal(s, id);
    OneSignalMove(s, StepAdvance(s, id), id, Target(s.waiters[id]));
  }

  lemma {:induction false} RestartMover(s: System, step: Step)
    requires Invariant(s) && Enabled(s, step) && (step.Poll? || step.Drop?)
    ensures WaiterOk(Next(s, step), step.waiter)
  {
    hide SignalOk, FirerOk;
    assert WaiterOk(s, step.waiter);
  }

  lemma {:induction false} RestartKeeps(s: System, step: Step)
    requires Invariant(s) && Enabled(s, step) && (step.Poll? || step.Drop?)
    ensures Invariant(Next(s, step))
  {
    hide WaiterOk, SignalOk, FirerOk;
    RestartMover(s, step);
    QuietMove(s, Next(s, step), step.waiter);
  }

  lemma {:induction false} SpawnWaiters(s: System, w: nat, signals: seq<nat>)
    requires Invariant(s) && Enabled(s, Spawn(w, signals))
    ensures forall j :: j in Next(s, Spawn(w, signals)).waiters ==> WaiterOk(Next(s, Spawn(w, signals)), j)
  {
    hide SignalOk, FirerOk;
    var t := Next(s, Spawn(w, signals));
    forall j | j in t.waiters ensures WaiterOk(t, j) {
      if j != w { StillWaiter(s, t, j); }
    }
  }

  lemma {:induction false} SpawnSignals(s: System, w: nat, signals: seq<nat>)
    requires Invariant(s) && Enabled(s, Spawn(w, signals))
    ensures forall x :: x in Next(s, Spawn(w, signals)).signals ==> SignalOk(Next(s, Spawn(w, signals)), x)
  {
    hide WaiterOk, FirerOk;
    var t := Next(s, Spawn(w, signals));
    forall x | x in t.signals ensures SignalOk(t, x) {
      assert SignalOk(s, x);
    }
  }

  lemma {:induction false} SpawnKeeps(s: System, w: nat, signals: seq<nat>)
    requires Invariant(s) && Enabled(s, Spawn(w, signals))
    ensures Invariant(Next(s, Spawn(w, signals)))
  {
    hide WaiterOk, SignalOk, FirerOk;
    var t := Next(s, Spawn(w, signals));
    SpawnWaiters(s, w, signals);
    SpawnSignals(s, w, signals);
    forall g | g in t.firers ensures FirerOk(t, g) {
      SameFirer(s, t, g);
    }
  }

  lemma {:induction false} SameFirer(s: System, t: System, g: nat)
    requires g in s.firers && FirerOk(s, g) && t.firers == s.firers && t.signals == s.signals
    ensures FirerOk(t, g)
  {
  }

  lemma {:induction false} FireKeeps(s: System, f: nat, signal: nat)
    requires Invariant(s) && Enabled(s, Fire(f, signal))
    ensures Invariant(Next(s, Fire(f, signal)))
  {
    var t := Next(s, Fire(f, signal));
    forall j | j in t.waiters ensures WaiterOk(t, j) {
      StillWaiter(s, t, j);
    }
    forall x | x in t.signals ensures SignalOk(t, x) {
      assert SignalOk(s, x);
      StillDraining(s, t, x);
    }
    forall g | g in t.firers ensures FirerOk(t, g) {
      if g != f { assert FirerOk(s, g); }
    }
  }

  lemma {:induction false} StepKeeps(s: System, step: Step)
    requires Invariant(s)
    ensures Invariant(Next(s, step))
  {
    if Enabled(s, step) {
      match step
      case Spawn(w, signals) => SpawnKeeps(s, w, signals);
      case Poll(_) => RestartKeeps(s, step);
      case Advance(w) => AdvanceKeeps(s, w);
      case Drop(_) => RestartKeeps(s, step);
      case Fire(f, signal) => FireKeeps(s, f, signal);
      case Publish(f) => PublishKeeps(s, f);
      case Drain(f) => DrainKeeps(s, f);
    }
  }

  lemma {:induction false} ReachableInvariant(ids: set<nat>, steps: seq<Step>)
    ensures Invariant(Run(ids, steps))
  {
    if steps != [] {
      ReachableInvariant(ids, steps[..|steps| - 1]);
      StepKeeps(Run(ids, steps[..|steps| - 1]), steps[|steps| - 1]);
    }
  }

  // Results over whole runs

  /** A waiter whose poll answered pending is woken by the time any of its signals has finished firing. */
  lemma {:induction false} NoLostWakeUp(ids: set<nat>, steps: seq<Step>, id: nat, i: nat)
    requires var s := Run(ids, steps);
             id in s.waiters && s.waiters[id].pc.Pending? && i < |s.waiters[id].signals|
             && s.waiters[id].signals[i] in s.signals && s.signals[s.waiters[id].signals[i]].drained
    ensures Run(ids, steps).waiters[id].waker in Run(ids, steps).woken
  {
    ReachableInvariant(ids, steps);
    var s := Run(ids, steps);
    assert WaiterOk(s, id);
    assert Covered(s, id, s.waiters[id].signals[i]);
  }

  /** A signal that was fired is drained, or some firer is about to drain it and waits at most for a lock. */
  lemma {:induction false} FiredIsDrained(ids: set<nat>, steps: seq<Step>, x: nat)
    requires x in Run(ids, steps).signals && Run(ids, steps).signals[x].sequence != 0
    ensures var s := Run(ids, steps);
            || s.signals[x].drained
            || exists f :: f in s.firers && s.firers[f] == Draining(x) && (s.signals[x].holder.Nobody? ==>
                Enabled(s, Drain(f)))
  {
    ReachableInvariant(ids, steps);
    var s := Run(ids, steps);
    assert SignalOk(s, x);
    if !s.signals[x].drained {
      var f :| f in s.firers && s.firers[f] == Draining(x);
      assert s.signals[x].holder.Nobody? ==> Enabled(s, Drain(f));
    }
  }

  /** Whoever holds a lock can move on without any other lock, so it is given back. */
  lemma {:induction false} HolderCanMove(ids: set<nat>, steps: seq<Step>, x: nat)
    requires x in Run(ids, steps).signals && Run(ids, steps).signals[x].holder.Waiter?
    ensures Enabled(Run(ids, steps), Advance(Run(ids, steps).signals[x].holder.id))
  {
    ReachableInvariant(ids, steps);
    assert SignalOk(Run(ids, steps), x);
  }

  /** A waiter that finished or was dropped has no entry left in any signal. */
  lemma {:induction false} GoneLeavesNoEntry(ids: set<nat>, steps: seq<Step>, id: nat, x: nat)
    requires var s := Run(ids, steps); id in s.waiters && s.waiters[id].pc.Gone? && x in s.signals
    ensures id !in Run(ids, steps).signals[x].wakers
  {
    ReachableInvariant(ids, steps);
    var s := Run(ids, steps);
    assert WaiterOk(s, id) && SignalOk(s, x);
    if x in s.waiters[id].signals {
      var i :| 0 <= i < |s.waiters[id].signals| && s.waiters[id].signals[i] == x;
    }
  }

  lemma {:induction false} StepKeepsNumber(s: System, step: Step, x: nat)
    requires x in s.signals && s.signals[x].sequence != 0
    ensures x in Next(s, step).signals && Next(s, step).signals[x].sequence == s.signals[x].sequence
  {
  }

  /** The first number published stays, so whoever has seen a signal fired never sees it otherwise. */
  lemma {:induction false} FirstNumberStays(ids: set<nat>, before: seq<Step>, after: seq<Step>, x: nat)
    requires x in Run(ids, before).signals && Run(ids, before).signals[x].sequence != 0
    ensures var s, t := Run(ids, before), Run(ids, before + after);
            x in t.signals && t.signals[x].sequence == s.signals[x].sequence
  {
    hide Next;
    if after == [] {
      assert before + after == before;
    } else {
      var all := before + after;
      assert all[..|all| - 1] == before + after[..|after| - 1];
      FirstNumberStays(ids, before, after[..|after| - 1], x);
      StepKeepsNumber(Run(ids, before + after[..|after| - 1]), after[|after| - 1], x);
    }
  }
}
