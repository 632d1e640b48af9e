/** What the spinner's driver, views and worker come to, each of them left alone, and what a report is due to. */
module AdmissionOutcomes {
  import opened Wrappers
  import opened Admission

  /** The state after the same step was taken `n` times. */
  function Repeat(s: System, step: Step, n: nat): System
    decreases n
  {
    if n == 0 then s else Repeat(Next(s, step), step, n - 1)
  }

  lemma {:induction false} RunRepeats(steps: seq<Step>, step: Step, n: nat)
    ensures Run(steps + seq(n, _ => step)) == Repeat(Run(steps), step, n)
    decreases n
  {
    if n == 0 {
      assert steps + seq(0, _ => step) == steps;
    } else {
      var next := steps + [step];
      assert next[..|steps|] == steps;
      RunRepeats(next, step, n - 1);
      assert next + seq(n - 1, _ => step) == steps + seq(n, _ => step);
    }
  }

  lemma {:induction false} RepeatMore(s: System, step: Step, m: nat, n: nat)
    ensures Repeat(Repeat(s, step, m), step, n) == Repeat(s, step, m + n)
    decreases m
  {
    hide Next;
    if m > 0 { RepeatMore(Next(s, step), step, m - 1, n); }
  }

  // Reports are due

  /** The signal that came first among the racing ones. */
  predicate CameFirst(n: Numbers, kind: Kind) {
    FirstSignal(n).Some? && FirstSignal(n).value.1 == kind
  }

  predicate Announces(s: System, outcome: Outcome) {
    s.driver == Dropping(outcome) || s.driver == Reporting(outcome)
  }

  /**
    * A panic is reported only after one, an I/O error only for a failed setup or before the action could start, and
    * both only after the spinner was dropped, so that the action is not left behind; nothing is reported only if a
    * drop came first; and a reported result was taken.
    */
  ghost predicate ReportIsDue(s: System, panicked: bool) {
    && (s.reported.Some? ==> s.driver.Done?)
    && (s.driver.Done? && s.reported.None? ==> CameFirst(s.numbers, Dropped))
    && (s.driver == Reporting(ActionResult) || s.reported == Some(ActionResult) ==> !s.result)
    && (s.driver == Reporting(IoError) || s.driver == Reporting(PanicError) ==> s.numbers.dropped != 0)
    && (s.reported == Some(IoError) || s.reported == Some(PanicError) ==> s.numbers.dropped != 0)
    && (Announces(s, PanicError) || s.reported == Some(PanicError) ==> panicked)
    && (Announces(s, IoError) ==> CameFirst(s.numbers, Setup) || s.numbers.start == 0)
    && (s.reported == Some(IoError) ==> CameFirst(s.numbers, Setup) || s.failedEarly)
  }

  lemma {:induction false} FiringKeepsDue(s: System, t: System, kind: Kind, panicked: bool)
    requires Invariant(s) && ReportIsDue(s, panicked) && kind != Start
    requires t.numbers == Fire(s, kind).numbers && t.driver == s.driver && t.reported == s.reported
    requires t.failedEarly == s.failedEarly && t.result == s.result
    ensures ReportIsDue(t, panicked)
  {
    hide FirstSignal;
    FireKeeps(s, kind);
  }

  lemma {:induction false} DriverStepDue(s: System, panicked: bool)
    requires Invariant(s) && ReportIsDue(s, panicked)
    ensures ReportIsDue(StepDriver(s), panicked)
  {
    hide FirstSignal, Settle;
    if s.driver.Racing? && s.driver.next == |RACERS| && s.driver.purpose.Decide? {
      ReadsComplete(s);
      SettleDue(s, panicked);
    } else {
      if s.driver.Dropping? { FireKeeps(s, Dropped); }
    }
  }

  lemma {:induction false} SettleDue(s: System, panicked: bool)
    requires ReportIsDue(s, panicked) && s.driver.Racing? && s.driver.best == FirstSignal(s.numbers)
    requires s.driver.best.Some? && s.driver.best.value.1 != Start && (s.driver.best.value.1 == Action ==> s.result)
    ensures ReportIsDue(Settle(s, s.driver.best), panicked)
  {
    hide FirstSignal;
  }

  lemma {:induction false} ViewStepDue(s: System, ready: bool, panicked: bool)
    requires Invariant(s) && ReportIsDue(s, panicked) && s.driver.Viewing?
    ensures ReportIsDue(StepView(s, ready), panicked)
  {
    hide FirstSignal;
  }

  lemma {:induction false} WorkerStepDue(s: System, panicked: bool)
    requires Invariant(s) && ReportIsDue(s, panicked)
    ensures ReportIsDue(StepWorker(s), panicked)
  {
    FirstSignalIsLeast(s.numbers);
    assert CameFirst(s.numbers, Action) ==> s.numbers.Of(Action) != 0;
    hide FirstSignal;
    if s.worker.Stored? { FiringKeepsDue(s, StepWorker(s), Action, panicked); }
  }

  lemma {:induction false} StepKeepsDue(s: System, step: Step, panicked: bool)
    requires Invariant(s) && ReportIsDue(s, panicked)
    ensures ReportIsDue(Next(s, step), panicked || step.DriverPanic?)
  {
    hide FirstSignal, Invariant;
    match step
    case FireCancel => FiringKeepsDue(s, Next(s, step), Cancel, panicked);
    case FireDropped => FiringKeepsDue(s, Next(s, step), Dropped, panicked);
    case FireInterrupt => if s.driver.Viewing? { FiringKeepsDue(s, Next(s, step), Interrupt, panicked); }
    case WorkerStep => WorkerStepDue(s, panicked);
    case DriverStep => DriverStepDue(s, panicked);
    case ViewStep(ready) => if s.driver.Viewing? { ViewStepDue(s, ready, panicked); }
    case DriverSpawn(_) => EarlyDue(s, step, panicked);
    case ClockStart(_) => EarlyDue(s, step, panicked);
    case _ =>
  }

  lemma {:induction false} EarlyDue(s: System, step: Step, panicked: bool)
    requires Invariant(s) && ReportIsDue(s, panicked) && (step.DriverSpawn? || step.ClockStart?)
    ensures ReportIsDue(Next(s, step), panicked)
  {
    hide FirstSignal;
  }

  /**
    * Over every run: a driver panic is reported only if there was one, an I/O error only if the terminal's setup
    * failed first or the failure came before the action could start, and nothing only after a drop came first.
    */
  lemma {:induction false} ReportsAreDue(steps: seq<Step>)
    ensures ReportIsDue(Run(steps), DriverPanic in steps)
  {
    if steps != [] {
      var front := steps[..|steps| - 1];
      ReportsAreDue(front);
      ReachableInvariant(front);
      assert steps == front + [steps[|steps| - 1]];
      hide Next, Invariant;
      StepKeepsDue(Run(front), steps[|steps| - 1], DriverPanic in front);
    }
  }

  // The driver alone

  /** What is reported when this signal came first; after a drop, nothing. */
  function Report(kind: Kind): Option<Outcome> {
    match kind
    case Action => Some(ActionResult)
    case Cancel => Some(CancelledError)
    case Interrupt => Some(InterruptedError)
    case Setup => Some(IoError)
    case _ => None
  }

  /** The reads of a race that nothing disturbs find the first signal. */
  lemma {:induction false} RaceReads(s: System, n: nat)
    requires s.driver.Racing? && s.driver.next + n <= |RACERS| && s.driver.best == BestOf(s.numbers, s.driver.next)
    ensures Repeat(s, DriverStep, n)
            == s.(driver := Racing(s.driver.next + n, BestOf(s.numbers, s.driver.next + n), s.driver.purpose))
    decreases n
  {
    if n > 0 { RaceReads(Next(s, DriverStep), n - 1); }
  }

  lemma {:induction false} WholeRace(s: System, purpose: Purpose)
    requires s.driver == Racing(0, None, purpose)
    ensures Repeat(s, DriverStep, 5) == s.(driver := Racing(5, FirstSignal(s.numbers), purpose))
  {
    RaceReads(s, 5);
  }

  /** A driver that has read all signals to decide reports what the first calls for, and nothing after a drop. */
  lemma {:induction false} DecisionIsReported(steps: seq<Step>)
    requires var s := Run(steps); s.driver.Racing? && s.driver.next == |RACERS| && s.driver.purpose.Decide?
    ensures FirstSignal(Run(steps).numbers).Some?
    ensures var t := Run(steps + seq(3, _ => DriverStep));
            t.driver.Done? && t.reported == Report(FirstSignal(Run(steps).numbers).value.1)
  {
    ReachableInvariant(steps);
    ReportsAreDue(steps);
    ReadsComplete(Run(steps));
    RunRepeats(steps, DriverStep, 3);
    hide Run;
    DecisionRuns(Run(steps));
  }

  lemma {:induction false} DecisionRuns(s: System)
    requires s.driver.Racing? && s.driver.next == |RACERS| && s.driver.purpose.Decide? && s.reported.None?
    requires s.driver.best == FirstSignal(s.numbers) && s.driver.best.Some? && s.driver.best.value.1 != Start
    requires s.driver.best.value.1 == Action ==> s.result
    ensures var t := Repeat(s, DriverStep, 3);
            t.driver.Done? && t.reported == Report(FirstSignal(s.numbers).value.1)
  {
    hide FirstSignal;
    var s1 := StepDriver(s);
    var s2 := StepDriver(s1);
    var s3 := StepDriver(s2);
    assert Repeat(s, DriverStep, 3) == Repeat(s1, DriverStep, 2) == Repeat(s2, DriverStep, 1)
        == Repeat(s3, DriverStep, 0);
  }

  // From the start of the driver to its end

  /** The driver can panic at any time between its start and its report. */
  predicate CanPanic(driver: Driver) {
    driver.Starting? || driver.Viewing? || driver.Rendered? || driver.SilentFailed? || driver.Racing?
    || driver.AwaitingOutcome?
  }

  /**
    * A driver thread or a frame clock that cannot be started and a driver that panics are reported, and the spinner
    * counts as dropped.
    */
  lemma {:induction false} BreakdownIsReported(steps: seq<Step>, step: Step)
    requires match step
             case DriverSpawn(succeeds) => !succeeds && Run(steps).driver.Unspawned?
             case ClockStart(succeeds) => !succeeds && Run(steps).driver.Starting?
             case DriverPanic => CanPanic(Run(steps).driver)
             case _ => false
    ensures var t := Run(steps + [step] + seq(2, _ => DriverStep));
            && t.driver.Done? && t.reported == Some(if step.DriverPanic? then PanicError else IoError)
            && t.numbers.dropped != 0 && (t.failedEarly <==> t.numbers.start == 0)
  {
    ReachableInvariant(steps);
    ReportsAreDue(steps);
    assert (steps + [step])[..|steps|] == steps;
    RunRepeats(steps + [step], DriverStep, 2);
    var s := Run(steps);
    assert s.numbers.Of(Dropped) < s.clock;
    var s1 := s.(driver := Dropping(if step.DriverPanic? then PanicError else IoError));
    assert Run(steps + [step]) == s1;
    hide Run, FirstSignal;
    var s2 := StepDriver(s1);
    assert Repeat(s1, DriverStep, 2) == Repeat(s2, DriverStep, 1) == Repeat(StepDriver(s2), DriverStep, 0);
  }

  /** Otherwise the first view comes up. */
  lemma {:induction false} ViewComesUp(steps: seq<Step>)
    requires Run(steps).driver.Unspawned?
    ensures Run(steps + [DriverSpawn(true), ClockStart(true)]) == Run(steps).(driver := Viewing(false, NotAsked))
  {
    assert (steps + [DriverSpawn(true)])[..|steps|] == steps;
    assert (steps + [DriverSpawn(true), ClockStart(true)])[..|steps| + 1] == steps + [DriverSpawn(true)];
  }

  /** A view ends in success only after a signal, and then the driver reports what the first one calls for. */
  lemma {:induction false} EndedViewIsReported(steps: seq<Step>)
    requires Run(steps).driver.Viewing?
    ensures var s, t := Run(steps), Run(steps + [ViewEnd(true)] + seq(8, _ => DriverStep));
            if FirstSignal(s.numbers).None? then Run(steps + [ViewEnd(true)]) == s
            else t.driver.Done? && t.reported == Report(FirstSignal(s.numbers).value.1)
  {
    assert (steps + [ViewEnd(true)])[..|steps|] == steps;
    if FirstSignal(Run(steps).numbers).Some? {
      hide FirstSignal, Report;
      RaceIsReported(steps + [ViewEnd(true)]);
    }
  }

  /**
    * A view that fails before the action may run is reported at once. Later, a signal that has fired is reported;
    * and without one a first view is replaced by a silent one, and behind a silent one the driver awaits the outcome.
    */
  lemma {:induction false} FailedView(steps: seq<Step>)
    requires Run(steps).driver.Viewing?
    ensures var s := Run(steps);
            var t := Run(steps + [ViewEnd(false)] + seq(3, _ => DriverStep));
            var u := Run(steps + [ViewEnd(false)] + seq(7, _ => DriverStep));
            if s.numbers.start == 0 && !s.driver.silent then
              t.driver.Done? && t.reported == Some(IoError) && t.failedEarly && t.numbers.dropped != 0
            else
              s.numbers.start != 0 ==>
              && u.numbers == s.numbers
              && u.driver == if FirstSignal(s.numbers).Some? then Racing(0, None, Decide)
                             else if s.driver.silent then AwaitingOutcome else Viewing(true, NotAsked)
  {
    var s, ended := Run(steps), steps + [ViewEnd(false)];
    assert ended[..|steps|] == steps;
    assert Run(ended) == s.(driver := if s.driver.silent then SilentFailed else Rendered);
    hide FirstSignal, Run, Next;
    if s.numbers.start != 0 {
      FailedViewGoesOn(ended);
    } else if !s.driver.silent {
      EarlyFailureIsReported(ended);
    }
  }

  /** A view that failed, or its silent replacement, once the action may run: what the driver then does by itself. */
  lemma {:induction false} FailedViewGoesOn(steps: seq<Step>)
    requires var s := Run(steps); (s.driver.Rendered? || s.driver.SilentFailed?) && s.numbers.start != 0
    ensures var s := Run(steps);
            var t := Run(steps + seq(7, _ => DriverStep));
            && t.numbers == s.numbers
            && (FirstSignal(s.numbers).Some? ==> t.driver == Racing(0, None, Decide))
            && (FirstSignal(s.numbers).None? ==>
                  t.driver == if s.driver.Rendered? then Viewing(true, NotAsked) else AwaitingOutcome)
  {
    RunRepeats(steps, DriverStep, 7);
    hide Run;
    var s := Run(steps);
    var s1 := StepDriver(s);
    WholeRace(s1, s1.driver.purpose);
    var s6 := Repeat(s1, DriverStep, 5);
    RepeatMore(s1, DriverStep, 5, 1);
    hide FirstSignal;
    assert Repeat(s, DriverStep, 7) == Repeat(s1, DriverStep, 6);
    assert Repeat(s6, DriverStep, 1) == Repeat(StepDriver(s6), DriverStep, 0) == StepDriver(s6);
  }

  /** The same before the action may run: the failure is reported and the spinner counts as dropped. */
  lemma {:induction false} EarlyFailureIsReported(steps: seq<Step>)
    requires var s := Run(steps); s.driver.Rendered? && s.numbers.start == 0
    ensures var t := Run(steps + seq(3, _ => DriverStep));
            t.driver.Done? && t.reported == Some(IoError) && t.failedEarly && t.numbers.dropped != 0
  {
    ReachableInvariant(steps);
    ReportsAreDue(steps);
    RunRepeats(steps, DriverStep, 3);
    hide Run, FirstSignal;
    var s := Run(steps);
    assert s.numbers.Of(Dropped) < s.clock;
    var s1 := StepDriver(s);
    var s2 := StepDriver(s1);
    var s3 := StepDriver(s2);
    assert Repeat(s, DriverStep, 3) == Repeat(s1, DriverStep, 2) == Repeat(s2, DriverStep, 1)
        == Repeat(s3, DriverStep, 0);
  }

  /** From the start of its last race the driver finishes with the report that the first signal calls for. */
  lemma {:induction false} RaceIsReported(steps: seq<Step>)
    requires Run(steps).driver == Racing(0, None, Decide)
    ensures FirstSignal(Run(steps).numbers).Some?
    ensures var t := Run(steps + seq(8, _ => DriverStep));
            t.driver.Done? && t.reported == Report(FirstSignal(Run(steps).numbers).value.1)
  {
    ReachableInvariant(steps);
    RunRepeats(steps, DriverStep, 5);
    WholeRace(Run(steps), Decide);
    var raced := steps + seq(5, _ => DriverStep);
    DecisionIsReported(raced);
    assert raced + seq(3, _ => DriverStep) == steps + seq(8, _ => DriverStep);
  }

  // The view alone

  /**
    * A view that nothing disturbs starts the action exactly if it was not started before, the terminal is ready and
    * neither cancellation nor drop has come; an unready terminal counts as a failed setup instead.
    */
  lemma {:induction false} ViewAsks(steps: seq<Step>, ready: bool)
    requires var s := Run(steps); s.driver.Viewing? && s.driver.asking.NotAsked? && s.numbers.start == 0
    ensures var s, t := Run(steps), Run(steps + seq(3, _ => ViewStep(ready)));
            && (t.numbers.start != 0 <==> ready && s.numbers.cancel == 0 && s.numbers.dropped == 0)
            && (t.numbers.start != 0 ==> Admitted(t))
            && (!ready ==> t.numbers.setup != 0) && (ready ==> t.numbers.setup == s.numbers.setup)
            && t.driver == s.driver.(asking := Asked)
  {
    ReachableInvariant(steps);
    RunRepeats(steps, ViewStep(ready), 3);
    hide Run, FirstSignal;
    var s := Run(steps);
    var s1 := Next(s, ViewStep(ready));
    var s2 := Next(s1, ViewStep(ready));
    var s3 := Next(s2, ViewStep(ready));
    assert Repeat(s, ViewStep(ready), 3) == Repeat(s1, ViewStep(ready), 2) == Repeat(s2, ViewStep(ready), 1)
        == Repeat(s3, ViewStep(ready), 0);
  }

  // The worker alone

  /** A blocked worker runs the action exactly if start came before cancellation and drop, as far as any has come. */
  lemma {:induction false} WorkerDecides(steps: seq<Step>)
    requires Run(steps).worker.Blocked?
    ensures var s, t := Run(steps), Run(steps + seq(3, _ => WorkerStep));
            if !AdmissionDecided(s) then t == s
            else t == s.(worker := if Admitted(s) then Running else Quit)
  {
    RunRepeats(steps, WorkerStep, 3);
    hide Run;
    var s := Run(steps);
    var s1 := StepWorker(s);
    var s2 := StepWorker(s1);
    var s3 := StepWorker(s2);
    assert Repeat(s, WorkerStep, 3) == Repeat(s1, WorkerStep, 2) == Repeat(s2, WorkerStep, 1)
        == Repeat(s3, WorkerStep, 0);
  }

  /** A running action stores its result before it fires its signal. */
  lemma {:induction false} ActionAnnounces(steps: seq<Step>)
    requires Run(steps).worker.Running?
    ensures var s, stored, t := Run(steps), Run(steps + [WorkerStep]), Run(steps + [WorkerStep, WorkerStep]);
            && stored.result && stored.numbers == s.numbers
            && t.worker.Announced? && t.result && t.numbers.action == s.clock != 0
  {
    ReachableInvariant(steps);
    assert (steps + [WorkerStep])[..|steps|] == steps;
    assert (steps + [WorkerStep, WorkerStep])[..|steps| + 1] == steps + [WorkerStep];
  }

  // No spinner is stuck

  /** A view is done asking only if the action may run or something else has come. */
  predicate AskedMeans(s: System) {
    s.driver.Viewing? && s.driver.asking.Asked? && s.numbers.start == 0 ==>
      s.numbers.cancel != 0 || s.numbers.dropped != 0 || s.numbers.setup != 0
  }

  lemma {:induction false} ReachableAsked(steps: seq<Step>)
    ensures AskedMeans(Run(steps))
  {
    if steps != [] {
      var front := steps[..|steps| - 1];
      ReachableAsked(front);
      ReachableInvariant(front);
      AskedKept(Run(front), steps[|steps| - 1]);
    }
  }

  lemma {:induction false} AskedKept(s: System, step: Step)
    requires Invariant(s) && AskedMeans(s)
    ensures AskedMeans(Next(s, step))
  {
    hide FirstSignal, DriverAgrees, WorkerAgrees;
  }

  /** Who moves next when nobody interferes: the view asks, the worker works, the driver goes on. */
  function Move(s: System): Step {
    match s.driver
    case Unspawned => DriverSpawn(true)
    case Starting => ClockStart(true)
    case Viewing(_, asking) =>
      if FirstSignal(s.numbers).Some? then ViewEnd(true) else if asking.Asked? then WorkerStep else ViewStep(true)
    case AwaitingOutcome => if FirstSignal(s.numbers).Some? then DriverStep else WorkerStep
    case _ => DriverStep
  }

  /** The driver waits for a signal. */
  predicate Waits(driver: Driver) {
    driver.AwaitingOutcome? || (driver.Viewing? && driver.asking.Asked?)
  }

  function AsksLeft(asking: Asking): nat {
    match asking
    case NotAsked => 3
    case SawNoCancel => 2
    case SawNoDrop => 1
    case Asked => 0
  }

  /** An upper bound for the moves to the end. */
  function MovesLeft(s: System): (n: nat)
    ensures n <= 48
  {
    match s.driver
    case Done => 0
    case Reporting(_) => 1
    case Dropping(_) => 2
    case Racing(next, _, purpose) =>
      (match purpose case Decide => 3 case NeedWait => 15 case NeedSilent => 31)
      + if next <= |RACERS| then |RACERS| - next else 0
    case AwaitingOutcome => 9 + StepsLeft(s.worker)
    case SilentFailed => 21
    case Viewing(silent, asking) => (if silent then 22 else 38) + AsksLeft(asking) + StepsLeft(s.worker)
    case Rendered => 37
    case Starting => 47
    case Unspawned => 48
  }

  lemma {:induction false} MoveMoves(s: System)
    requires Invariant(s) && AskedMeans(s) && !s.driver.Done?
    ensures MovesLeft(Next(s, Move(s))) < MovesLeft(s)
  {
    if Waits(s.driver) {
      FirstSignalIsLeast(s.numbers);
      assert FirstSignal(s.numbers).None? ==>
          s.numbers.Of(Cancel) == 0 && s.numbers.Of(Dropped) == 0 && s.numbers.Of(Setup) == 0;
      if FirstSignal(s.numbers).None? { WorkerMoves(s); }
    }
    hide FirstSignal, Invariant, StepWorker;
    OtherMoves(s);
  }

  lemma {:induction false} OtherMoves(s: System)
    requires !s.driver.Done? && StepsLeft(s.worker) <= 5
    requires FirstSignal(s.numbers).None? && Waits(s.driver) ==>
               StepsLeft(StepWorker(s).worker) < StepsLeft(s.worker) && StepWorker(s).driver == s.driver
    ensures MovesLeft(Next(s, Move(s))) < MovesLeft(s)
  {
    hide FirstSignal, StepWorker, StepsLeft;
    if s.driver.Racing? || s.driver.Rendered? || s.driver.SilentFailed? || s.driver.Dropping? || s.driver.Reporting? {
      DriverMoves(s);
    }
  }

  lemma {:induction false} DriverMoves(s: System)
    requires s.driver.Racing? || s.driver.Rendered? || s.driver.SilentFailed?
             || s.driver.Dropping? || s.driver.Reporting?
    requires StepsLeft(s.worker) <= 5
    ensures MovesLeft(StepDriver(s)) < MovesLeft(s)
  {
    hide FirstSignal, StepsLeft;
  }

  lemma {:induction false} OneMove(steps: seq<Step>)
    requires !Run(steps).driver.Done?
    ensures MovesLeft(Run(steps + [Move(Run(steps))])) < MovesLeft(Run(steps))
  {
    ReachableInvariant(steps);
    ReachableAsked(steps);
    MoveMoves(Run(steps));
    hide Next, Move, MovesLeft, Invariant, AskedMeans;
    assert (steps + [Move(Run(steps))])[..|steps|] == steps;
  }

  /** Every step is the next move of the spinner. */
  predicate OwnMoves(steps: seq<Step>, after: seq<Step>) {
    forall i :: 0 <= i < |after| ==> after[i] == Move(Run(steps + after[..i]))
  }

  lemma {:induction false} FirstMove(steps: seq<Step>, after: seq<Step>)
    requires OwnMoves(steps + [Move(Run(steps))], after)
    ensures OwnMoves(steps, [Move(Run(steps))] + after)
  {
    hide Run, Move;
    var first := Move(Run(steps));
    forall i | 0 <= i < |after| + 1 ensures ([first] + after)[i] == Move(Run(steps + ([first] + after)[..i])) {
      if i == 0 {
        assert steps + ([first] + after)[..0] == steps;
      } else {
        assert steps + ([first] + after)[..i] == steps + [first] + after[..i - 1];
      }
    }
  }

  /**
    * From every reachable state, whatever was fired or failed before, the spinner comes to its end by moves of its
    * own, at most 48 of them.
    */
  lemma {:induction false} NeverStuck(steps: seq<Step>) returns (after: seq<Step>)
    ensures Run(steps + after).driver.Done? && |after| <= MovesLeft(Run(steps)) && OwnMoves(steps, after)
    decreases MovesLeft(Run(steps))
  {
    hide Run, Move, MovesLeft;
    if Run(steps).driver.Done? {
      after := [];
      assert steps + after == steps;
    } else {
      OneMove(steps);
      var first := Move(Run(steps));
      var rest := NeverStuck(steps + [first]);
      FirstMove(steps, rest);
      after := [first] + rest;
      assert steps + after == steps + [first] + rest;
    }
  }
}
