/** Polls come to an end, and to the right one. */
module PollProgress {
  import opened Signals
  import opened WakeUps
  import opened PollAnswers

  /** A bound for the actions that a waiter has still to take until it sleeps or is gone. */
  function ActionsLeft(w: WaitForAny): nat {
    var n := |w.signals|;
    match w.pc
    case FirstScan(i) => 7 * n + 5 + Rest(n, i)
    case RegLoad(i) => 2 * n + 4 + 4 * Rest(n, i)
    case RegLock(i) => 2 * n + 3 + 4 * Rest(n, i)
    case RegHeld(i) => 2 * n + 2 + 4 * Rest(n, i)
    case RegPush(i) => 2 * n + 1 + 4 * Rest(n, i)
    case RegLate(i) => 2 * n + 1 + 4 * Rest(n, i)
    case SecondScan(i) => n + 3 + Rest(n, i)
    case Unregister(i) => 1 + Rest(n, i)
    case _ => 0
  }

  function Rest(n: nat, i: nat): nat {
    if i <= n then n - i else 0
  }

  lemma {:induction false} OwnActionsCount(s: System, id: nat)
    requires Enabled(s, Advance(id)) && WaiterOk(s, id)
    ensures id in Next(s, Advance(id)).waiters
    ensures ActionsLeft(Next(s, Advance(id)).waiters[id]) < ActionsLeft(s.waiters[id])
  {
    var w := s.waiters[id];
    NextPc(s, id);
    hide Next;
    var v := Next(s, Advance(id)).waiters[id];
    CountsDown(w, v);
  }

  /** Where one action leads. */
  predicate Follows(w: WaitForAny, pc: Pc) {
    var n := |w.signals|;
    match w.pc
    case FirstScan(i) => pc == Unregister(0) || pc == if i < n then FirstScan(i + 1) else RegLoad(0)
    case RegLoad(i) => if i < n then pc == RegLoad(i + 1) || pc == RegLock(i) else pc == SecondScan(0)
    case RegLock(i) => pc == RegHeld(i)
    case RegHeld(i) => pc == RegPush(i) || pc == RegLate(i)
    case RegPush(i) => pc == RegLoad(i + 1)
    case RegLate(i) => pc == RegLoad(i + 1)
    case SecondScan(i) => pc == Unregister(0) || pc == if i < n then SecondScan(i + 1) else Pending
    case Unregister(i) => pc == if i < n then Unregister(i + 1) else Gone
    case _ => false
  }

  lemma {:induction false} NextPc(s: System, id: nat)
    requires Enabled(s, Advance(id)) && WaiterOk(s, id)
    ensures id in Next(s, Advance(id)).waiters
    ensures Next(s, Advance(id)).waiters[id].signals == s.waiters[id].signals
    ensures Follows(s.waiters[id], Next(s, Advance(id)).waiters[id].pc)
  {
    hide WaiterOk;
  }

  lemma {:induction false} CountsDown(w: WaitForAny, v: WaitForAny)
    requires v.signals == w.signals && Follows(w, v.pc) && (Indexed(w.pc) ==> w.pc.i <= |w.signals|)
    requires HoldsLock(w.pc) || w.pc.RegLock? ==> w.pc.i < |w.signals|
    ensures ActionsLeft(v) < ActionsLeft(w)
  {
  }

  lemma {:induction false} OthersDoNotMove(s: System, id: nat, other: nat)
    requires other in s.waiters && id != other
    ensures other in Next(s, Advance(id)).waiters && Next(s, Advance(id)).waiters[other] == s.waiters[other]
  {
  }

  /** Polls fire nothing. */
  lemma {:induction false} NumbersStay(s: System, id: nat, x: nat)
    requires x in s.signals
    ensures x in Next(s, Advance(id)).signals
    ensures Next(s, Advance(id)).signals[x].sequence == s.signals[x].sequence
  {
  }

  /** The waiter that holds the lock which this one needs. */
  predicate BlockedBy(s: System, id: nat, holder: nat) {
    && id in s.waiters && (s.waiters[id].pc.RegLock? || s.waiters[id].pc.Unregister?)
    && s.waiters[id].pc.i < |s.waiters[id].signals| && Target(s.waiters[id]) in s.signals
    && s.signals[Target(s.waiters[id])].holder == Waiter(holder)
  }

  /** Whoever is under way can move, or else the holder of the lock it waits for can. */
  lemma {:induction false} SomebodyMoves(s: System, id: nat) returns (mover: nat)
    requires Invariant(s) && id in s.waiters && Indexed(s.waiters[id].pc)
    ensures Enabled(s, Advance(mover)) && (mover == id || BlockedBy(s, id, mover))
  {
    var w := s.waiters[id];
    assert WaiterOk(s, id);
    mover := id;
    if (w.pc.RegLock? || w.pc.Unregister?) && w.pc.i < |w.signals| && s.signals[Target(w)].holder.Waiter? {
      mover := s.signals[Target(w)].holder.id;
      assert SignalOk(s, Target(w)) && WaiterOk(s, mover);
    }
  }

  /** A bound for the actions of whoever blocks the waiter. */
  function BlockLeft(s: System, id: nat): nat {
    if id in s.waiters && (s.waiters[id].pc.RegLock? || s.waiters[id].pc.Unregister?)
       && s.waiters[id].pc.i < |s.waiters[id].signals| && Target(s.waiters[id]) in s.signals
       && s.signals[Target(s.waiters[id])].holder.Waiter?
       && s.signals[Target(s.waiters[id])].holder.id in s.waiters
    then 1 + ActionsLeft(s.waiters[s.signals[Target(s.waiters[id])].holder.id])
    else 0
  }

  lemma {:induction false} BlockShrinks(s: System, id: nat, holder: nat)
    requires Invariant(s) && BlockedBy(s, id, holder) && Enabled(s, Advance(holder)) && holder != id
    ensures BlockLeft(Next(s, Advance(holder)), id) < BlockLeft(s, id)
  {
    assert WaiterOk(s, holder) && SignalOk(s, Target(s.waiters[id]));
    OwnActionsCount(s, holder);
    OthersDoNotMove(s, holder, id);
  }

  predicate OnlyAdvances(steps: seq<Step>) {
    forall i :: 0 <= i < |steps| ==> steps[i].Advance?
  }

  /** One action of whoever can move brings the waiter, or the one that blocks it, closer to the end. */
  lemma {:induction false} OneAction(s: System, id: nat) returns (mover: nat)
    requires Invariant(s) && id in s.waiters && Indexed(s.waiters[id].pc)
    ensures var t := Next(s, Advance(mover));
            && id in t.waiters
            && (Indexed(t.waiters[id].pc) || t.waiters[id].pc.Pending? || t.waiters[id].pc.Gone?)
            && (|| ActionsLeft(t.waiters[id]) < ActionsLeft(s.waiters[id])
                || (t.waiters[id] == s.waiters[id] && BlockLeft(t, id) < BlockLeft(s, id)))
  {
    mover := SomebodyMoves(s, id);
    EndOfAction(s, id, mover);
    if mover == id {
      assert WaiterOk(s, id);
      hide Invariant, Next, ActionsLeft, BlockLeft, Enabled;
      OwnActionsCount(s, id);
    } else {
      hide Invariant, Next, ActionsLeft, BlockLeft, BlockedBy, Enabled;
      OthersDoNotMove(s, mover, id);
      BlockShrinks(s, id, mover);
    }
  }

  /** Every poll and every clean-up comes to its end by actions of waiters alone. */
  lemma {:induction false} PollEnds(ids: set<nat>, steps: seq<Step>, id: nat) returns (after: seq<Step>)
    requires id in Run(ids, steps).waiters && Indexed(Run(ids, steps).waiters[id].pc)
    ensures OnlyAdvances(after)
    ensures var t := Run(ids, steps + after);
            id in t.waiters && (t.waiters[id].pc.Pending? || t.waiters[id].pc.Gone?)
    decreases ActionsLeft(Run(ids, steps).waiters[id]), BlockLeft(Run(ids, steps), id)
  {
    hide Invariant, Next, ActionsLeft, BlockLeft;
    ReachableInvariant(ids, steps);
    var mover := OneAction(Run(ids, steps), id);
    var next := steps + [Advance(mover)];
    assert next[..|steps|] == steps;
    if Indexed(Run(ids, next).waiters[id].pc) {
      var rest := PollEnds(ids, next, id);
      after := [Advance(mover)] + rest;
      assert steps + after == next + rest;
    } else {
      after := [Advance(mover)];
    }
  }

  lemma {:induction false} EndOfAction(s: System, id: nat, mover: nat)
    requires id in s.waiters && Indexed(s.waiters[id].pc)
    ensures var t := Next(s, Advance(mover));
            id in t.waiters && (Indexed(t.waiters[id].pc) || t.waiters[id].pc.Pending? || t.waiters[id].pc.Gone?)
  {
  }

  lemma {:induction false} AdvancesFireNothing(ids: set<nat>, before: seq<Step>, after: seq<Step>, x: nat)
    requires OnlyAdvances(after) && x in Run(ids, before).signals
    ensures x in Run(ids, before + after).signals
    ensures Run(ids, before + after).signals[x].sequence == Run(ids, before).signals[x].sequence
  {
    if after == [] {
      assert before + after == before;
    } else {
      var n := |after| - 1;
      AdvancesFireNothing(ids, before, after[..n], x);
      assert (before + after)[..|before + after| - 1] == before + after[..n];
      hide Next;
      NumbersStay(Run(ids, before + after[..n]), after[n].waiter, x);
    }
  }

  lemma {:induction false} StillUnfired(
      ids: set<nat>, before: seq<Step>, after: seq<Step>, w: WaitForAny, v: WaitForAny)
    requires OnlyAdvances(after) && w.signals == v.signals && HasFired(Run(ids, before + after), v)
    requires forall i :: 0 <= i < |w.signals| ==> w.signals[i] in Run(ids, before).signals
    ensures HasFired(Run(ids, before), w)
  {
    hide Run;
    var s, t := Run(ids, before), Run(ids, before + after);
    var i :| 0 <= i < |v.signals| && v.signals[i] in t.signals && t.signals[v.signals[i]].sequence != 0;
    AdvancesFireNothing(ids, before, after, v.signals[i]);
  }

  lemma {:induction false} WaiterRemains(ids: set<nat>, before: seq<Step>, after: seq<Step>, id: nat)
    requires id in Run(ids, before).waiters
    ensures id in Run(ids, before + after).waiters
    ensures Run(ids, before + after).waiters[id].signals == Run(ids, before).waiters[id].signals
  {
    if after == [] {
      assert before + after == before;
    } else {
      var n := |after| - 1;
      WaiterRemains(ids, before, after[..n], id);
      assert (before + after)[..|before + after| - 1] == before + after[..n];
      hide Next;
      WaiterStays(Run(ids, before + after[..n]), after[n], id);
    }
  }

  /**
    * What a poll comes to when nothing more is fired: it is ready, and its waiter gone, exactly if a signal was fired
    * before, and otherwise it is pending.
    */
  lemma {:induction false} PollAnswersRight(ids: set<nat>, before: seq<Step>, id: nat) returns (after: seq<Step>)
    requires Enabled(Run(ids, before), Poll(id))
    ensures OnlyAdvances(after)
    ensures var t := Run(ids, before + [Poll(id)] + after);
            && id in t.waiters
            && t.waiters[id].pc == if HasFired(Run(ids, before), Run(ids, before).waiters[id]) then Gone else Pending
  {
    var s, polled := Run(ids, before), before + [Poll(id)];
    var w := s.waiters[id];
    assert polled[..|before|] == before;
    assert Run(ids, polled).signals == s.signals;
    after := PollEnds(ids, polled, id);
    WaiterRemains(ids, polled, after, id);
    ReachableInvariant(ids, before);
    assert WaiterOk(s, id);
    hide Next, Enabled, WaiterOk, Invariant;
    if HasFired(s, w) {
      var i :| 0 <= i < |w.signals| && w.signals[i] in s.signals && s.signals[w.signals[i]].sequence != 0;
      PolledAfterFireAnswers(ids, before, after, id, i);
    } else {
      if Run(ids, polled + after).waiters[id].pc.Gone? {
        ReadySinceMeansFired(ids, polled, after, id);
        StillUnfired(ids, polled, after, w, Run(ids, polled + after).waiters[id]);
      }
    }
  }

  /** So a new waiter that is polled at once is ready exactly if one of the signals that it was made for has fired. */
  lemma {:induction false} FirstPoll(ids: set<nat>, before: seq<Step>, id: nat, signals: seq<nat>)
    returns (after: seq<Step>)
    requires id !in Run(ids, before).waiters
    requires forall i :: 0 <= i < |signals| ==> signals[i] in Run(ids, before).signals
    ensures OnlyAdvances(after)
    ensures var s, t := Run(ids, before), Run(ids, before + [Spawn(id, signals), Poll(id)] + after);
            && id in t.waiters && (t.waiters[id].pc.Gone? || t.waiters[id].pc.Pending?)
            && (t.waiters[id].pc.Gone? <==> exists i :: 0 <= i < |signals| && s.signals[signals[i]].sequence != 0)
  {
    var s, spawned := Run(ids, before), before + [Spawn(id, signals)];
    assert spawned[..|before|] == before;
    assert Run(ids, spawned) == s.(waiters := s.waiters[id := WaitForAny(signals, Created, 0)]);
    hide Run, Next;
    after := PollAnswersRight(ids, spawned, id);
    assert spawned + [Poll(id)] == before + [Spawn(id, signals), Poll(id)];
  }
}
