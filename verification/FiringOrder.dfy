/** The numbers that firing takes, over every interleaving. */
module FiringOrder {
  import opened Signals
  import opened WakeUps

  ghost predicate TakenOnce(s: System) {
    && (forall f, g :: f in s.firers && g in s.firers && s.firers[f].Numbered? && s.firers[g].Numbered? ==>
          s.firers[f].number == s.firers[g].number ==> f == g)
    && (forall f :: f in s.firers && s.firers[f].Numbered? ==> 0 < s.firers[f].number < s.nextSequence)
  }

  ghost predicate PublishedOnce(s: System) {
    && (forall x :: x in s.signals ==> s.signals[x].sequence < s.nextSequence)
    && (forall x, f :: x in s.signals && f in s.firers && s.firers[f].Numbered? ==>
          s.signals[x].sequence != s.firers[f].number)
    && (forall x, y :: x in s.signals && y in s.signals && s.signals[x].sequence == s.signals[y].sequence != 0 ==>
          x == y)
  }

  /** Only the compare-exchange publishes a number, and only the start of a firing takes one. */
  lemma {:induction false} NumbersChange(s: System, step: Step)
    ensures s.nextSequence <= Next(s, step).nextSequence && Next(s, step).signals.Keys == s.signals.Keys
    ensures !step.Publish? ==>
              forall x :: x in s.signals ==> Next(s, step).signals[x].sequence == s.signals[x].sequence
    ensures forall f :: f in Next(s, step).firers && Next(s, step).firers[f].Numbered? ==>
              || (f in s.firers && s.firers[f] == Next(s, step).firers[f])
              || (step.Fire? && f == step.firer
                  && Next(s, step).firers[f].number == s.nextSequence < Next(s, step).nextSequence)
  {
  }

  lemma {:induction false} TakenKept(s: System, step: Step)
    requires s.nextSequence > 0 && TakenOnce(s)
    ensures Next(s, step).nextSequence > 0 && TakenOnce(Next(s, step))
  {
    hide Next;
    NumbersChange(s, step);
  }

  lemma {:induction false} PublishedKept(s: System, step: Step)
    requires s.nextSequence > 0 && TakenOnce(s) && PublishedOnce(s)
    ensures PublishedOnce(Next(s, step))
  {
    if step.Publish? {
      if Enabled(s, step) { PublishKept(s, step.firer); }
    } else {
      NumbersChange(s, step);
      hide Next;
    }
  }

  lemma {:induction false} PublishKept(s: System, f: nat)
    requires TakenOnce(s) && PublishedOnce(s) && Enabled(s, Publish(f))
    ensures PublishedOnce(StepPublish(s, f))
  {
  }

  /** No number is taken twice, and no two signals publish the same. */
  lemma {:induction false} NumbersAreUnique(ids: set<nat>, steps: seq<Step>)
    ensures var s := Run(ids, steps); s.nextSequence > 0 && TakenOnce(s) && PublishedOnce(s)
  {
    if steps != [] {
      NumbersAreUnique(ids, steps[..|steps| - 1]);
      TakenKept(Run(ids, steps[..|steps| - 1]), steps[|steps| - 1]);
      PublishedKept(Run(ids, steps[..|steps| - 1]), steps[|steps| - 1]);
      hide Next, TakenOnce, PublishedOnce;
    }
  }

  /**
    * Firing a silent signal publishes a number above all that were published or taken before, so signals come in the
    * order in which their firing began; firing again changes nothing.
    */
  lemma {:induction false} FiringPublishes(ids: set<nat>, steps: seq<Step>, f: nat, x: nat)
    requires Enabled(Run(ids, steps), Fire(f, x))
    ensures var s, t := Run(ids, steps), Run(ids, steps + [Fire(f, x), Publish(f)]);
            && x in t.signals && t.signals[x].sequence != 0
            && (s.signals[x].sequence != 0 ==> t.signals[x].sequence == s.signals[x].sequence)
            && (s.signals[x].sequence == 0 ==>
                  && (forall y :: y in s.signals ==> s.signals[y].sequence < t.signals[x].sequence)
                  && (forall g :: g in s.firers && s.firers[g].Numbered? ==>
                        s.firers[g].number < t.signals[x].sequence))
            && (forall y :: y in s.signals && y != x ==> y in t.signals && t.signals[y] == s.signals[y])
  {
    NumbersAreUnique(ids, steps);
    assert (steps + [Fire(f, x)])[..|steps|] == steps;
    assert (steps + [Fire(f, x), Publish(f)])[..|steps| + 1] == steps + [Fire(f, x)];
    assert Run(ids, steps + [Fire(f, x)]) == Next(Run(ids, steps), Fire(f, x));
  }

  /** Then its lists are emptied, as soon as the lock is free, and everybody listed is woken. */
  lemma {:induction false} FiringWakes(ids: set<nat>, steps: seq<Step>, f: nat, x: nat)
    requires Enabled(Run(ids, steps), Fire(f, x))
    requires Run(ids, steps).signals[x].sequence == 0 && Run(ids, steps).signals[x].holder.Nobody?
    ensures var s, t := Run(ids, steps), Run(ids, steps + [Fire(f, x), Publish(f), Drain(f)]);
            && x in t.signals && t.signals[x].wakers == map[] && t.woken == s.woken + s.signals[x].wakers.Values
  {
    hide Next;
    assert (steps + [Fire(f, x)])[..|steps|] == steps;
    assert (steps + [Fire(f, x), Publish(f)])[..|steps| + 1] == steps + [Fire(f, x)];
    assert (steps + [Fire(f, x), Publish(f), Drain(f)])[..|steps| + 2] == steps + [Fire(f, x), Publish(f)];
    assert Run(ids, steps + [Fire(f, x)]) == Next(Run(ids, steps), Fire(f, x));
    assert Run(ids, steps + [Fire(f, x), Publish(f)]) == Next(Run(ids, steps + [Fire(f, x)]), Publish(f));
    hide Run;
    FiringDrains(Run(ids, steps), f, x);
  }

  lemma {:induction false} FiringDrains(s: System, f: nat, x: nat)
    requires Enabled(s, Fire(f, x)) && s.signals[x].sequence == 0 && s.signals[x].holder.Nobody?
    ensures var t := Next(Next(Next(s, Fire(f, x)), Publish(f)), Drain(f));
            && x in t.signals && t.signals[x].wakers == map[] && t.woken == s.woken + s.signals[x].wakers.Values
  {
    var fired := Next(s, Fire(f, x));
    assert fired.firers[f].signal == x && Enabled(fired, Publish(f));
    var published := StepPublish(fired, f);
    assert published.firers[f] == Draining(x) && published.signals[x].wakers == s.signals[x].wakers;
    assert Enabled(published, Drain(f));
  }
}
