/** What the polls of a `WaitForAny` answer, over every interleaving. */
module PollAnswers {
  import opened Signals
  import opened WakeUps

  /** Some signal of the waiter has been fired. */
  predicate HasFired(s: System, w: WaitForAny) {
    exists i :: 0 <= i < |w.signals| && w.signals[i] in s.signals && s.signals[w.signals[i]].sequence != 0
  }

  /** The poll has answered that a signal was fired, and cleans up or is done. */
  predicate Answered(pc: Pc) {
    pc.Unregister? || pc.Gone?
  }

  lemma {:induction false} FiredStays(s: System, step: Step, id: nat)
    requires id in s.waiters && id in Next(s, step).waiters && HasFired(s, s.waiters[id])
    requires Next(s, step).waiters[id].signals == s.waiters[id].signals
    ensures HasFired(Next(s, step), Next(s, step).waiters[id])
  {
    hide Next;
    var w := s.waiters[id];
    var i :| 0 <= i < |w.signals| && w.signals[i] in s.signals && s.signals[w.signals[i]].sequence != 0;
    StepKeepsNumber(s, step, w.signals[i]);
  }

  lemma {:induction false} WaiterStays(s: System, step: Step, id: nat)
    requires id in s.waiters
    ensures id in Next(s, step).waiters && Next(s, step).waiters[id].signals == s.waiters[id].signals
  {
  }

  /** One step takes a waiter to its answer only by a drop or by the load of a fired signal. */
  lemma {:induction false} AnswerHasCause(s: System, step: Step, id: nat)
    requires id in Next(s, step).waiters && Answered(Next(s, step).waiters[id].pc) && step != Drop(id)
    ensures id in s.waiters && (Answered(s.waiters[id].pc) || HasFired(s, s.waiters[id]))
  {
    if step == Advance(id) && Enabled(s, step) && !Answered(s.waiters[id].pc) {
      var w := s.waiters[id];
      assert w.signals[w.pc.i] in s.signals && s.signals[w.signals[w.pc.i]].sequence != 0;
    }
  }

  /** A waiter that was never dropped answers that a signal was fired only if one of its signals was. */
  lemma {:induction false} ReadyMeansFired(ids: set<nat>, steps: seq<Step>, id: nat)
    requires id in Run(ids, steps).waiters && Answered(Run(ids, steps).waiters[id].pc) && Drop(id) !in steps
    ensures HasFired(Run(ids, steps), Run(ids, steps).waiters[id])
  {
    if steps != [] {
      var n := |steps| - 1;
      var front := steps[..n];
      assert steps[n] in steps;
      AnswerHasCause(Run(ids, front), steps[n], id);
      hide Next;
      WaiterStays(Run(ids, front), steps[n], id);
      if Answered(Run(ids, front).waiters[id].pc) { ReadyMeansFired(ids, front, id); }
      FiredStays(Run(ids, front), steps[n], id);
    }
  }

  lemma {:induction false} NothingAfter(before: seq<Step>, after: seq<Step>)
    requires after == []
    ensures before + after == before
  {
  }

  /** The same from any state on in which it had not answered. */
  lemma {:induction false} ReadySinceMeansFired(ids: set<nat>, before: seq<Step>, after: seq<Step>, id: nat)
    requires id in Run(ids, before).waiters && !Answered(Run(ids, before).waiters[id].pc) && Drop(id) !in after
    requires id in Run(ids, before + after).waiters && Answered(Run(ids, before + after).waiters[id].pc)
    ensures HasFired(Run(ids, before + after), Run(ids, before + after).waiters[id])
  {
    hide Next, HasFired;
    if after == [] {
      NothingAfter(before, after);
    } else {
      var n := |after| - 1;
      var front := before + after[..n];
      assert (before + after)[..|before + after| - 1] == front && after[n] in after;
      AnswerHasCause(Run(ids, front), after[n], id);
      WaiterStays(Run(ids, front), after[n], id);
      if Answered(Run(ids, front).waiters[id].pc) { ReadySinceMeansFired(ids, before, after[..n], id); }
      FiredStays(Run(ids, front), after[n], id);
    }
  }

  /** Signal `i` was fired, and the poll under way has still to look at it, or has seen a fired one. */
  predicate WillAnswer(s: System, id: nat, i: nat)
    requires id in s.waiters && i < |s.waiters[id].signals|
  {
    var w := s.waiters[id];
    && w.signals[i] in s.signals && s.signals[w.signals[i]].sequence != 0
    && !w.pc.Created? && !w.pc.Pending? && (w.pc.SecondScan? ==> w.pc.i <= i)
  }

  lemma {:induction false} StillAnswers(s: System, step: Step, id: nat, i: nat)
    requires id in s.waiters && i < |s.waiters[id].signals| && WillAnswer(s, id, i) && step != Poll(id)
    ensures WaiterStaysIn(s, step, id) && WillAnswer(Next(s, step), id, i)
  {
    WaiterStays(s, step, id);
    StepKeepsNumber(s, step, s.waiters[id].signals[i]);
  }

  predicate WaiterStaysIn(s: System, step: Step, id: nat)
    requires id in s.waiters
  {
    id in Next(s, step).waiters && Next(s, step).waiters[id].signals == s.waiters[id].signals
  }

  /** So a signal that is fired at any time before the last look makes the poll answer, whatever happens. */
  lemma {:induction false} AnswersUnlessPolled(ids: set<nat>, before: seq<Step>, after: seq<Step>, id: nat, i: nat)
    requires id in Run(ids, before).waiters && i < |Run(ids, before).waiters[id].signals|
    requires WillAnswer(Run(ids, before), id, i) && Poll(id) !in after
    ensures var t := Run(ids, before + after);
            && id in t.waiters && t.waiters[id].signals == Run(ids, before).waiters[id].signals && WillAnswer(t, id, i)
            && !t.waiters[id].pc.Pending?
  {
    hide Next;
    if after == [] {
      assert before + after == before;
    } else {
      var n := |after| - 1;
      var front := before + after[..n];
      assert after[n] in after;
      AnswersUnlessPolled(ids, before, after[..n], id, i);
      assert (before + after)[..|before + after| - 1] == front;
      hide WillAnswer;
      StillAnswers(Run(ids, front), after[n], id, i);
    }
  }

  /** A waiter that is polled after one of its signals was fired does not pend until it is polled again. */
  lemma {:induction false} PolledAfterFireAnswers(ids: set<nat>, before: seq<Step>, after: seq<Step>, id: nat, i: nat)
    requires Enabled(Run(ids, before), Poll(id)) && i < |Run(ids, before).waiters[id].signals|
    requires var x := Run(ids, before).waiters[id].signals[i];
             x in Run(ids, before).signals && Run(ids, before).signals[x].sequence != 0
    requires Poll(id) !in after
    ensures var t := Run(ids, before + [Poll(id)] + after);
            && id in t.waiters && t.waiters[id].signals == Run(ids, before).waiters[id].signals
            && WillAnswer(t, id, i) && !t.waiters[id].pc.Pending?
  {
    var polled := before + [Poll(id)];
    assert polled[..|before|] == before;
    assert WillAnswer(Run(ids, polled), id, i);
    AnswersUnlessPolled(ids, polled, after, id, i);
  }

  // Every poll brings a waker of its own

  predicate InPoll(pc: Pc) {
    !pc.Created? && !pc.Unregister? && !pc.Gone?
  }

  /** Every waker in use was handed out by an earlier poll. */
  ghost predicate WakersHandedOut(s: System) {
    && (forall k :: k in s.woken ==> k < s.nextWaker)
    && (forall id :: id in s.waiters && InPoll(s.waiters[id].pc) ==> s.waiters[id].waker < s.nextWaker)
    && (forall x, id :: x in s.signals && id in s.signals[x].wakers ==> s.signals[x].wakers[id] < s.nextWaker)
  }

  /** A poll under way goes on with its waker, and a new one brings the next. */
  lemma {:induction false} WaitersChange(s: System, step: Step)
    ensures Next(s, step).nextWaker >= s.nextWaker
    ensures forall k :: k in Next(s, step).waiters && InPoll(Next(s, step).waiters[k].pc) ==>
              || (k in s.waiters && InPoll(s.waiters[k].pc) && Next(s, step).waiters[k].waker == s.waiters[k].waker)
              || (step == Poll(k) && Next(s, step).waiters[k].waker == s.nextWaker < Next(s, step).nextWaker)
  {
  }

  /** Polls under way list themselves, with their waker, and nobody else is listed. */
  lemma {:induction false} EntryChange(s: System, step: Step, x: nat, j: nat)
    requires x in Next(s, step).signals && j in Next(s, step).signals[x].wakers
    ensures var waker := Next(s, step).signals[x].wakers[j];
            || (x in s.signals && j in s.signals[x].wakers && waker == s.signals[x].wakers[j])
            || (j in s.waiters && InPoll(s.waiters[j].pc) && waker == s.waiters[j].waker)
  {
  }

  /** Whoever is woken was listed, or under way. */
  lemma {:induction false} WokenChange(s: System, step: Step)
    ensures step.Poll? ==> Next(s, step).woken == s.woken
    ensures forall k :: k in Next(s, step).woken && k !in s.woken ==>
              || (exists x, j :: x in s.signals && j in s.signals[x].wakers && s.signals[x].wakers[j] == k)
              || (exists j :: j in s.waiters && InPoll(s.waiters[j].pc) && s.waiters[j].waker == k)
  {
    forall k | k in Next(s, step).woken && k !in s.woken
      ensures || (exists x, j :: x in s.signals && j in s.signals[x].wakers && s.signals[x].wakers[j] == k)
              || (exists j :: j in s.waiters && InPoll(s.waiters[j].pc) && s.waiters[j].waker == k)
    {
      if step.Drain? {
        var x := s.firers[step.firer].signal;
        var j :| j in s.signals[x].wakers && s.signals[x].wakers[j] == k;
      } else {
        assert s.waiters[step.waiter].waker == k;
      }
    }
  }

  lemma {:induction false} HandedOutKept(s: System, step: Step)
    requires WakersHandedOut(s)
    ensures WakersHandedOut(Next(s, step))
  {
    hide Next;
    var t := Next(s, step);
    WaitersChange(s, step);
    WokenChange(s, step);
    forall x, id | x in t.signals && id in t.signals[x].wakers ensures t.signals[x].wakers[id] < t.nextWaker {
      EntryChange(s, step, x, id);
    }
  }

  lemma {:induction false} ReachableHandedOut(ids: set<nat>, steps: seq<Step>)
    ensures WakersHandedOut(Run(ids, steps))
  {
    if steps != [] {
      ReachableHandedOut(ids, steps[..|steps| - 1]);
      hide Next, WakersHandedOut;
      HandedOutKept(Run(ids, steps[..|steps| - 1]), steps[|steps| - 1]);
    }
  }

  /** So a wake-up is one of this poll: its waker has not been woken before, is listed nowhere, and is nobody else's. */
  lemma {:induction false} PollBringsNewWaker(ids: set<nat>, steps: seq<Step>, id: nat)
    requires Enabled(Run(ids, steps), Poll(id))
    ensures var s, t := Run(ids, steps), Next(Run(ids, steps), Poll(id));
            var waker := t.waiters[id].waker;
            && t.waiters[id].pc == FirstScan(0) && waker !in t.woken
            && (forall j :: j in t.waiters && j != id && InPoll(t.waiters[j].pc) ==> t.waiters[j].waker != waker)
            && (forall x, j :: x in t.signals && j in t.signals[x].wakers ==> t.signals[x].wakers[j] != waker)
  {
    ReachableHandedOut(ids, steps);
    hide Run;
  }

  // Every wake-up has its reason

  /** The wakers of polls under way are their own. */
  ghost predicate OwnWakers(s: System) {
    forall j, k :: j in s.waiters && k in s.waiters && InPoll(s.waiters[j].pc) && InPoll(s.waiters[k].pc) ==>
        s.waiters[j].waker == s.waiters[k].waker ==> j == k
  }

  /** Nobody is listed with the waker of somebody else's poll. */
  ghost predicate OwnEntries(s: System) {
    forall x, j, k :: x in s.signals && j in s.signals[x].wakers && k in s.waiters && InPoll(s.waiters[k].pc) ==>
        s.signals[x].wakers[j] == s.waiters[k].waker ==> j == k
  }

  ghost predicate WakesHaveReasons(s: System) {
    forall k :: k in s.waiters && InPoll(s.waiters[k].pc) && s.waiters[k].waker in s.woken ==> HasFired(s, s.waiters[k])
  }

  lemma {:induction false} OwnersKept(s: System, step: Step)
    requires WakersHandedOut(s) && OwnWakers(s) && OwnEntries(s)
    ensures OwnWakers(Next(s, step))
  {
    hide Next;
    WaitersChange(s, step);
  }

  lemma {:induction false} EntriesKept(s: System, step: Step)
    requires WakersHandedOut(s) && OwnWakers(s) && OwnEntries(s)
    ensures OwnEntries(Next(s, step))
  {
    hide Next;
    var t := Next(s, step);
    WaitersChange(s, step);
    forall x, j, k | x in t.signals && j in t.signals[x].wakers && k in t.waiters && InPoll(t.waiters[k].pc)
      ensures t.signals[x].wakers[j] == t.waiters[k].waker ==> j == k
    {
      EntryChange(s, step, x, j);
    }
  }

  lemma {:induction false} DrainHasReason(s: System, f: nat, id: nat)
    requires Invariant(s) && OwnEntries(s) && Enabled(s, Drain(f)) && id in s.waiters && InPoll(s.waiters[id].pc)
    requires s.waiters[id].waker in s.signals[s.firers[f].signal].wakers.Values
    ensures HasFired(s, s.waiters[id])
  {
    hide WaiterOk;
    var x := s.firers[f].signal;
    var j :| j in s.signals[x].wakers && s.signals[x].wakers[j] == s.waiters[id].waker;
    assert j == id && SignalOk(s, x) && FirerOk(s, f);
    var i :| 0 <= i < |s.waiters[id].signals| && s.waiters[id].signals[i] == x;
  }

  /** A registration that comes too late has seen its signal fired. */
  ghost predicate LateIsFired(s: System) {
    forall id :: id in s.waiters && s.waiters[id].pc.RegLate? && s.waiters[id].pc.i < |s.waiters[id].signals| ==>
        Target(s.waiters[id]) in s.signals ==> s.signals[Target(s.waiters[id])].sequence != 0
  }

  lemma {:induction false} LateKept(s: System, step: Step)
    requires LateIsFired(s) && forall f :: f in s.firers ==> FirerOk(s, f)
    ensures LateIsFired(Next(s, step))
  {
  }

  lemma {:induction false} ReachableLate(ids: set<nat>, steps: seq<Step>)
    ensures LateIsFired(Run(ids, steps))
  {
    if steps != [] {
      ReachableLate(ids, steps[..|steps| - 1]);
      ReachableInvariant(ids, steps[..|steps| - 1]);
      hide Next, LateIsFired, WaiterOk, SignalOk, FirerOk;
      LateKept(Run(ids, steps[..|steps| - 1]), steps[|steps| - 1]);
    }
  }

  lemma {:induction false} LoadHasReason(s: System, other: nat, id: nat)
    requires LateIsFired(s) && OwnWakers(s)
    requires id in s.waiters && InPoll(s.waiters[id].pc) && s.waiters[id].waker !in s.woken
    requires s.waiters[id].waker in Next(s, Advance(other)).woken
    ensures HasFired(s, s.waiters[id])
  {
    assert Enabled(s, Advance(other));
    var w := s.waiters[other];
    assert w.waker == s.waiters[id].waker && other == id;
    assert w.signals[w.pc.i] in s.signals && s.signals[w.signals[w.pc.i]].sequence != 0;
  }

  lemma {:induction false} OnlyTheseWake(s: System, step: Step)
    ensures Next(s, step).woken != s.woken ==> Enabled(s, step) && (step.Drain? || step.Advance?)
    ensures step.Drain? && Enabled(s, step) ==>
              Next(s, step).woken == s.woken + s.signals[s.firers[step.firer].signal].wakers.Values
  {
  }

  /** A step wakes the waker of a poll only if a signal of that waiter has fired. */
  lemma {:induction false} WakeHasReason(s: System, step: Step, id: nat)
    requires Invariant(s) && LateIsFired(s) && OwnWakers(s) && OwnEntries(s)
    requires id in s.waiters && InPoll(s.waiters[id].pc) && s.waiters[id].waker !in s.woken
    requires s.waiters[id].waker in Next(s, step).woken
    ensures HasFired(s, s.waiters[id])
  {
    hide Next, Invariant, LateIsFired, OwnWakers, OwnEntries, HasFired, Enabled;
    OnlyTheseWake(s, step);
    if step.Drain? { DrainHasReason(s, step.firer, id); } else { LoadHasReason(s, step.waiter, id); }
  }

  lemma {:induction false} PollsBefore(s: System, step: Step, id: nat)
    requires WakersHandedOut(s) && id in Next(s, step).waiters && InPoll(Next(s, step).waiters[id].pc)
    requires Next(s, step).waiters[id].waker in Next(s, step).woken
    ensures id in s.waiters && InPoll(s.waiters[id].pc) && s.waiters[id].waker == Next(s, step).waiters[id].waker
  {
    hide Next;
    WaitersChange(s, step);
    WokenChange(s, step);
  }

  /** Over every run, a poll is woken only after one of its waiter's signals has fired. */
  lemma {:induction false} WokenMeansFired(ids: set<nat>, steps: seq<Step>)
    ensures WakersHandedOut(Run(ids, steps)) && OwnWakers(Run(ids, steps)) && OwnEntries(Run(ids, steps))
    ensures WakesHaveReasons(Run(ids, steps))
  {
    ReachableHandedOut(ids, steps);
    if steps != [] {
      var front, step := steps[..|steps| - 1], steps[|steps| - 1];
      var s := Run(ids, front);
      WokenMeansFired(ids, front);
      ReachableInvariant(ids, front);
      ReachableLate(ids, front);
      OwnersKept(s, step);
      EntriesKept(s, step);
      hide Next, Invariant, LateIsFired, OwnWakers, OwnEntries, WakersHandedOut, HasFired;
      forall k | k in Next(s, step).waiters && InPoll(Next(s, step).waiters[k].pc)
                 && Next(s, step).waiters[k].waker in Next(s, step).woken
        ensures HasFired(Next(s, step), Next(s, step).waiters[k])
      {
        PollsBefore(s, step, k);
        WaiterStays(s, step, k);
        if s.waiters[k].waker !in s.woken { WakeHasReason(s, step, k); }
        FiredStays(s, step, k);
      }
    }
  }
}
