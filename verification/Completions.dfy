/** Handing one outcome from completing threads to a polled future: two locks, taken one after the other. */
module Completions {
  import opened Wrappers

  datatype Completer = Storing(outcome: nat) | Waking | Finished

  /** The polling side; a pending poll keeps the waker it left, and each poll brings a new one. */
  datatype Poller =
    | Resting
    | FirstTake(waker: nat)
    | SetWaker(waker: nat)
    | SecondTake(waker: nat)
    | Pending(waker: nat)
    | Ready(outcome: nat)

  datatype System = System(
    output: Option<nat>, waker: Option<nat>, completers: map<nat, Completer>, poller: Poller, woken: set<nat>,
    nextWaker: nat)

  const INITIAL := System(None, None, map[], Resting, {}, 0)

  datatype Step = Complete(thread: nat, outcome: nat) | Store(thread: nat) | Wake(thread: nat) | Poll | Advance

  predicate Enabled(s: System, step: Step) {
    match step
    case Complete(c, _) => c !in s.completers
    case Store(c) => c in s.completers && s.completers[c].Storing?
    case Wake(c) => c in s.completers && s.completers[c].Waking?
    case Poll => s.poller.Resting? || s.poller.Pending?
    case Advance => s.poller.FirstTake? || s.poller.SetWaker? || s.poller.SecondTake?
  }

  function StepAdvance(s: System): System
    requires Enabled(s, Advance)
  {
    match s.poller
    case FirstTake(k) =>
      if s.output.Some? then s.(output := None, poller := Ready(s.output.value)) else s.(poller := SetWaker(k))
    case SetWaker(k) => s.(waker := Some(k), poller := SecondTake(k))
    case SecondTake(k) =>
      if s.output.Some? then s.(output := None, poller := Ready(s.output.value)) else s.(poller := Pending(k))
  }

  function Next(s: System, step: Step): System {
    if !Enabled(s, step) then s
    else match step
      case Complete(c, outcome) => s.(completers := s.completers[c := Storing(outcome)])
      case Store(c) =>
        if s.output.Some? then s.(completers := s.completers[c := Finished])
        else s.(output := Some(s.completers[c].outcome), completers := s.completers[c := Waking])
      case Wake(c) =>
        s.(waker := None, woken := if s.waker.Some? then s.woken + {s.waker.value} else s.woken,
           completers := s.completers[c := Finished])
      case Poll => s.(poller := FirstTake(s.nextWaker), nextWaker := s.nextWaker + 1)
      case Advance => StepAdvance(s)
  }

  function Run(steps: seq<Step>): System {
    if steps == [] then INITIAL else Next(Run(steps[..|steps| - 1]), steps[|steps| - 1])
  }

  ghost predicate Invariant(s: System) {
    && (s.poller.SecondTake? ==> s.poller.waker in s.woken || s.waker == Some(s.poller.waker))
    && (s.poller.Pending? ==>
          || s.poller.waker in s.woken
          || (s.waker == Some(s.poller.waker)
              && (s.output.Some? ==> exists c :: c in s.completers && s.completers[c].Waking?)))
  }

  lemma {:induction false} StepKeeps(s: System, step: Step)
    requires Invariant(s)
    ensures Invariant(Next(s, step))
  {
    var t := Next(s, step);
    if Enabled(s, step) && t.poller.Pending? && t.poller.waker !in t.woken && t.output.Some? {
      if step.Store? && s.output.None? {
        assert t.completers[step.thread].Waking?;
      } else {
        var c :| c in s.completers && s.completers[c].Waking?;
        assert t.completers[c].Waking?;
      }
    }
  }

  lemma {:induction false} ReachableInvariant(steps: seq<Step>)
    ensures Invariant(Run(steps))
  {
    if steps != [] {
      ReachableInvariant(steps[..|steps| - 1]);
      StepKeeps(Run(steps[..|steps| - 1]), steps[|steps| - 1]);
    }
  }

  /** A pending poll never sleeps on a stored outcome once whoever stored it has returned from `complete`. */
  lemma {:induction false} NoLostOutcome(steps: seq<Step>)
    requires var s := Run(steps);
             && s.poller.Pending? && s.output.Some?
             && forall c :: c in s.completers ==> !s.completers[c].Waking?
    ensures Run(steps).poller.waker in Run(steps).woken
  {
    ReachableInvariant(steps);
  }

  // Which outcome is handed over

  /** The outcome of the first store of a run. */
  function FirstStored(steps: seq<Step>): Option<nat> {
    if steps == [] then None
    else
      var front, step := steps[..|steps| - 1], steps[|steps| - 1];
      if FirstStored(front).None? && step.Store? && Enabled(Run(front), step) then
        Some(Run(front).completers[step.thread].outcome)
      else FirstStored(front)
  }

  /** The future answers with the outcome stored first, and until then that outcome waits for it unchanged. */
  lemma {:induction false} FirstOutcomeWins(steps: seq<Step>)
    ensures var s := Run(steps);
            if s.poller.Ready? then FirstStored(steps) == Some(s.poller.outcome) else s.output == FirstStored(steps)
  {
    if steps != [] {
      FirstOutcomeWins(steps[..|steps| - 1]);
    }
  }

  ghost predicate WakersHandedOut(s: System) {
    && (forall k :: k in s.woken ==> k < s.nextWaker)
    && (s.waker.Some? ==> s.waker.value < s.nextWaker)
    && (!s.poller.Resting? && !s.poller.Ready? ==> s.poller.waker < s.nextWaker)
  }

  lemma {:induction false} ReachableHandedOut(steps: seq<Step>)
    ensures WakersHandedOut(Run(steps))
  {
    if steps != [] {
      ReachableHandedOut(steps[..|steps| - 1]);
    }
  }

  /**
    * A poll that nothing disturbs answers exactly if an outcome was stored. Otherwise it leaves a waker of its own,
    * one that nobody has woken.
    */
  lemma {:induction false} PollByItself(steps: seq<Step>)
    requires Run(steps).poller.Resting? || Run(steps).poller.Pending?
    ensures var s := Run(steps + [Poll, Advance, Advance, Advance]);
            match FirstStored(steps)
            case Some(outcome) => s.poller == Ready(outcome) && s.output.None?
            case None => s.poller.Pending? && s.waker == Some(s.poller.waker) && s.poller.waker !in s.woken
  {
    FirstOutcomeWins(steps);
    ReachableHandedOut(steps);
    var s := Run(steps);
    var polled, taken := steps + [Poll], steps + [Poll, Advance];
    var listed := steps + [Poll, Advance, Advance];
    assert polled[..|steps|] == steps && taken[..|polled|] == polled && listed[..|taken|] == taken;
    assert (steps + [Poll, Advance, Advance, Advance])[..|listed|] == listed;
    assert Run(polled) == Next(s, Poll) && Run(taken) == Next(Run(polled), Advance);
    assert Run(listed) == Next(Run(taken), Advance);
    assert Run(steps + [Poll, Advance, Advance, Advance]) == Next(Run(listed), Advance);
  }

  /**
    * A completing thread comes to its end whatever was stored before. If nothing was, its outcome is stored, and a
    * poll that sleeps is woken.
    */
  lemma {:induction false} CompletionByItself(steps: seq<Step>, thread: nat, outcome: nat)
    requires thread !in Run(steps).completers
    ensures var s, t := Run(steps), Run(steps + [Complete(thread, outcome), Store(thread), Wake(thread)]);
            && t.completers == s.completers[thread := Finished] && t.poller == s.poller
            && t.output == (if s.output.None? then Some(outcome) else s.output)
            && (s.output.Some? ==> t.waker == s.waker && t.woken == s.woken)
            && (s.output.None? ==> t.waker.None?)
            && (s.output.None? && s.poller.Pending? ==> s.poller.waker in t.woken)
  {
    ReachableInvariant(steps);
    var s, started := Run(steps), steps + [Complete(thread, outcome)];
    var stored := steps + [Complete(thread, outcome), Store(thread)];
    assert started[..|steps|] == steps && stored[..|started|] == started;
    assert (steps + [Complete(thread, outcome), Store(thread), Wake(thread)])[..|stored|] == stored;
    assert Run(started) == Next(s, Complete(thread, outcome)) && Run(stored) == Next(Run(started), Store(thread));
    assert Run(steps + [Complete(thread, outcome), Store(thread), Wake(thread)]) == Next(Run(stored), Wake(thread));
  }

  /** Nobody is woken before an outcome is stored. */
  lemma {:induction false} WokenMeansStored(steps: seq<Step>)
    ensures Run(steps).woken != {} ==> FirstStored(steps).Some?
    ensures forall c :: c in Run(steps).completers && Run(steps).completers[c].Waking? ==> FirstStored(steps).Some?
  {
    if steps != [] {
      WokenMeansStored(steps[..|steps| - 1]);
      FirstOutcomeWins(steps[..|steps| - 1]);
    }
  }
}
