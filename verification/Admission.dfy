/**
  * The spinner's threads, interleaved: the worker that may run the action, the driver that renders and reports,
  * and whoever cancels, interrupts or drops. Taking a number and publishing it count as one step of `fire`;
  * every load of a sequence number is a step of its own.
  */
module Admission {
  import opened Wrappers

  datatype Kind = Start | Action | Cancel | Interrupt | Setup | Dropped

  /** The published sequence number of each signal, 0 until it fires. */
  datatype Numbers = Numbers(start: nat, action: nat, cancel: nat, interrupt: nat, setup: nat, dropped: nat) {

    function Of(kind: Kind): nat {
      match kind
      case Start => start
      case Action => action
      case Cancel => cancel
      case Interrupt => interrupt
      case Setup => setup
      case Dropped => dropped
    }

    function With(kind: Kind, number: nat): Numbers {
      match kind
      case Start => this.(start := number)
      case Action => this.(action := number)
      case Cancel => this.(cancel := number)
      case Interrupt => this.(interrupt := number)
      case Setup => this.(setup := number)
      case Dropped => this.(dropped := number)
    }
  }

  /** `action_is_admitted`, on the three numbers it reads. */
  predicate ActionIsAdmitted(start: nat, cancel: nat, dropped: nat) {
    start != 0 && (cancel == 0 || start < cancel) && (dropped == 0 || start < dropped)
  }

  const RACERS: seq<Kind> := [Action, Cancel, Interrupt, Setup, Dropped]

  /** The best of the winner so far and one more number. */
  function Better(best: Option<(nat, Kind)>, number: nat, kind: Kind): Option<(nat, Kind)> {
    if number == 0 then best
    else if best.Some? && best.value.0 <= number then best
    else Some((number, kind))
  }

  /** The best of the first `count` racing signals, reading all numbers at one instant. */
  function BestOf(n: Numbers, count: nat): Option<(nat, Kind)>
    requires count <= |RACERS|
  {
    if count == 0 then None else Better(BestOf(n, count - 1), n.Of(RACERS[count - 1]), RACERS[count - 1])
  }

  /** `first_signal`. */
  function FirstSignal(n: Numbers): Option<(nat, Kind)> {
    BestOf(n, |RACERS|)
  }

  datatype Worker =
    | Blocked
    | ReadStart(start: nat)
    | ReadCancel(start: nat, cancel: nat)
    | Running
    | Stored
    | Announced
    | Quit

  /** How far a view has got with its single attempt to start the action. */
  datatype Asking = NotAsked | SawNoCancel | SawNoDrop | Asked

  datatype Outcome = ActionResult | CancelledError | InterruptedError | IoError | PanicError

  /**
    * `Viewing` is the render loop, which only ends in success after one of the racing signals has fired,
    * and then its silent replacement; `Racing` is the reads of `first_signal`, with what the answer is for;
    * `Reporting` holds the outcome about to be completed.
    */
  datatype Driver =
    | Unspawned
    | Starting
    | Viewing(silent: bool, asking: Asking)
    | Rendered
    | SilentFailed
    | Racing(next: nat, best: Option<(nat, Kind)>, purpose: Purpose)
    | AwaitingOutcome
    | Dropping(outcome: Outcome)
    | Reporting(outcome: Outcome)
    | Done

  datatype Purpose = NeedSilent | NeedWait | Decide

  /** `failedEarly` records that a failure was reported while the start signal had not fired. */
  datatype System = System(
    numbers: Numbers, clock: nat, worker: Worker, result: bool, driver: Driver, reported: Option<Outcome>,
    failedEarly: bool)

  const INITIAL := System(Numbers(0, 0, 0, 0, 0, 0), 1, Blocked, false, Unspawned, None, false)

  datatype Step =
    | FireCancel
    | FireDropped
    | FireInterrupt
    | WorkerStep
    | DriverSpawn(succeeds: bool)
    | ClockStart(succeeds: bool)
    | ViewStep(ready: bool)
    | ViewEnd(succeeds: bool)
    | DriverStep
    | DriverPanic

  /** `fire`: a number is taken in any case, and published if it is the signal's first. */
  function Fire(s: System, kind: Kind): System {
    s.(numbers := if s.numbers.Of(kind) == 0 then s.numbers.With(kind, s.clock) else s.numbers, clock := s.clock + 1)
  }

  /** The worker leaves its wait, reads the three numbers, and runs, stores and announces if admitted. */
  function StepWorker(s: System): System {
    match s.worker
    case Blocked =>
      if s.numbers.start == 0 && s.numbers.cancel == 0 && s.numbers.dropped == 0 then s
      else if s.numbers.start == 0 then s.(worker := Quit)
      else s.(worker := ReadStart(s.numbers.start))
    case ReadStart(start) => s.(worker := ReadCancel(start, s.numbers.cancel))
    case ReadCancel(start, cancel) =>
      s.(worker := if ActionIsAdmitted(start, cancel, s.numbers.dropped) then Running else Quit)
    case Running => s.(worker := Stored, result := true)
    case Stored => Fire(s, Action).(worker := Announced)
    case Announced => s
    case Quit => s
  }

  /** A view asks once: a terminal that is not ready fires setup failure, a ready one starts unless too late. */
  function StepView(s: System, ready: bool): System
    requires s.driver.Viewing?
  {
    match s.driver.asking
    case NotAsked =>
      if s.numbers.start != 0 then s.(driver := s.driver.(asking := Asked))
      else if !ready then Fire(s, Setup).(driver := s.driver.(asking := Asked))
      else s.(driver := s.driver.(asking := if s.numbers.cancel == 0 then SawNoCancel else Asked))
    case SawNoCancel => s.(driver := s.driver.(asking := if s.numbers.dropped == 0 then SawNoDrop else Asked))
    case SawNoDrop => Fire(s, Start).(driver := s.driver.(asking := Asked))
    case Asked => s
  }

  function StepDriver(s: System): System {
    match s.driver
    case Rendered =>
      if s.numbers.start == 0 then s.(driver := Dropping(IoError)) else s.(driver := Racing(0, None, NeedSilent))
    case SilentFailed => s.(driver := Racing(0, None, NeedWait))
    case Racing(next, best, purpose) =>
      if next < |RACERS| then
        s.(driver := Racing(next + 1, Better(best, s.numbers.Of(RACERS[next]), RACERS[next]), purpose))
      else (match purpose
        case NeedSilent => s.(driver := if best.None? then Viewing(true, NotAsked) else Racing(0, None, Decide))
        case NeedWait =>
          if best.Some? then s.(driver := Racing(0, None, Decide))
          else if s.numbers.start == 0 then s.(driver := Dropping(IoError))
          else s.(driver := AwaitingOutcome)
        case Decide => Settle(s, best))
    case AwaitingOutcome =>
      if FirstSignal(s.numbers).None? then s else s.(driver := Racing(0, None, Decide))
    case Dropping(outcome) => Fire(s, Dropped).(driver := Reporting(outcome))
    case Reporting(outcome) =>
      s.(driver := Done, reported := if s.reported.None? then Some(outcome) else s.reported,
         failedEarly := s.failedEarly || (s.numbers.start == 0 && outcome != ActionResult))
    case _ => s
  }

  /** What the driver does with the winner: a drop reports nothing, an action takes the stored result. */
  function Settle(s: System, best: Option<(nat, Kind)>): System {
    if best.None? then s.(driver := Reporting(PanicError))
    else match best.value.1
      case Action => s.(driver := Reporting(if s.result then ActionResult else PanicError), result := false)
      case Cancel => s.(driver := Reporting(CancelledError))
      case Interrupt => s.(driver := Reporting(InterruptedError))
      case Setup => s.(driver := Dropping(IoError))
      case _ => s.(driver := Done)
  }

  function Next(s: System, step: Step): System {
    match step
    case FireCancel => Fire(s, Cancel)
    case FireDropped => Fire(s, Dropped)
    case FireInterrupt => if s.driver.Viewing? then Fire(s, Interrupt) else s
    case WorkerStep => StepWorker(s)
    case DriverSpawn(succeeds) =>
      if !s.driver.Unspawned? then s else s.(driver := if succeeds then Starting else Dropping(IoError))
    case ClockStart(succeeds) =>
      if !s.driver.Starting? then s else s.(driver := if succeeds then Viewing(false, NotAsked) else Dropping(IoError))
    case ViewStep(ready) => if s.driver.Viewing? then StepView(s, ready) else s
    case ViewEnd(succeeds) =>
      if !s.driver.Viewing? || (succeeds && FirstSignal(s.numbers).None?) then s
      else s.(driver := if succeeds then Racing(0, None, Decide) else if s.driver.silent then SilentFailed
          else Rendered)
    case DriverStep => StepDriver(s)
    case DriverPanic =>
      if s.driver.Unspawned? || s.driver.Done? || s.driver.Dropping? || s.driver.Reporting? then s
      else s.(driver := Dropping(PanicError))
  }

  function Run(steps: seq<Step>): System {
    if steps == [] then INITIAL else Next(Run(steps[..|steps| - 1]), steps[|steps| - 1])
  }

  // What every reachable state keeps

  /** Numbers are handed out in order and never twice. */
  ghost predicate NumbersAgree(s: System) {
    && s.clock > 0
    && (forall k: Kind :: s.numbers.Of(k) < s.clock)
    && (forall j: Kind, k: Kind :: j != k && s.numbers.Of(j) != 0 ==> s.numbers.Of(j) != s.numbers.Of(k))
  }

  predicate Admitted(s: System) {
    ActionIsAdmitted(s.numbers.start, s.numbers.cancel, s.numbers.dropped)
  }

  predicate RanAction(w: Worker) {
    w.Running? || w.Stored? || w.Announced?
  }

  ghost predicate WorkerAgrees(s: System) {
    && (s.worker.ReadStart? ==> s.worker.start == s.numbers.start != 0)
    && (s.worker.ReadCancel? ==>
          && s.worker.start == s.numbers.start != 0
          && (s.worker.cancel == s.numbers.cancel || (s.worker.cancel == 0 && s.numbers.start < s.numbers.cancel)))
    && (RanAction(s.worker) ==> Admitted(s))
    && (s.worker.Quit? ==> !Admitted(s) && (s.numbers.cancel != 0 || s.numbers.dropped != 0))
    && (s.numbers.action != 0 <==> s.worker.Announced?)
    && (s.worker.Stored? ==> s.result && s.numbers.action == 0)
  }

  /** The reads so far have found the first signal, or found nothing that beats it. */
  ghost predicate ReadsAgree(n: Numbers, next: nat, best: Option<(nat, Kind)>) {
    && FirstSignal(n).Some?
    && if FirstSignal(n).value.1 in RACERS[..if next <= |RACERS| then next else |RACERS|] then best == FirstSignal(n)
       else best.None? || best.value.0 > FirstSignal(n).value.0
  }

  /** An outcome that names a signal names the first one. */
  predicate Deserved(n: Numbers, outcome: Outcome) {
    match outcome
    case ActionResult => FirstSignal(n).Some? && FirstSignal(n).value.1 == Action
    case CancelledError => FirstSignal(n).Some? && FirstSignal(n).value.1 == Cancel
    case InterruptedError => FirstSignal(n).Some? && FirstSignal(n).value.1 == Interrupt
    case _ => true
  }

  ghost predicate DriverAgrees(s: System) {
    && (s.driver.Unspawned? || s.driver.Starting? ==> s.numbers.start == 0)
    && (s.driver.AwaitingOutcome? ==> s.numbers.start != 0)
    && (s.driver.Racing? ==>
          && s.driver.next <= |RACERS|
          && (s.driver.best.Some? ==>
                s.driver.best.value.1 != Start && s.driver.best.value.0 == s.numbers.Of(s.driver.best.value.1) != 0)
          && (s.driver.purpose.Decide? ==> ReadsAgree(s.numbers, s.driver.next, s.driver.best)))
    && (s.driver.Dropping? ==> s.driver.outcome.IoError? || s.driver.outcome.PanicError?)
    && (s.driver.Reporting? ==> Deserved(s.numbers, s.driver.outcome))
    && (s.reported.Some? ==> Deserved(s.numbers, s.reported.value))
    && (s.numbers.action != 0 && !s.driver.Reporting? && !s.driver.Done? ==> s.result)
    && (s.failedEarly ==> s.driver.Done? && s.numbers.start == 0)
  }

  ghost predicate Invariant(s: System) {
    NumbersAgree(s) && WorkerAgrees(s) && DriverAgrees(s)
  }

  lemma {:induction false} BestOfIsLeast(n: Numbers, count: nat)
    requires count <= |RACERS|
    ensures BestOf(n, count).None? <==> forall i :: 0 <= i < count ==> n.Of(RACERS[i]) == 0
    ensures BestOf(n, count).Some? ==>
              var (m, k) := BestOf(n, count).value;
              k in RACERS && m == n.Of(k) != 0 && forall i :: 0 <= i < count && n.Of(RACERS[i]) != 0 ==>
                  m <= n.Of(RACERS[i])
  {
    if count > 0 { BestOfIsLeast(n, count - 1); }
  }

  lemma {:induction false} RacerIndex(k: Kind) returns (i: nat)
    requires k != Start
    ensures i < |RACERS| && RACERS[i] == k
  {
    i := if k == Action then 0 else if k == Cancel then 1 else if k == Interrupt then 2
        else if k == Setup then 3 else 4;
  }

  /** `first_signal` finds the least published number among the racing signals. */
  lemma {:induction false} FirstSignalIsLeast(n: Numbers)
    ensures FirstSignal(n).None? <==> forall k: Kind :: k != Start ==> n.Of(k) == 0
    ensures FirstSignal(n).Some? ==>
              var (m, k) := FirstSignal(n).value;
              k != Start && m == n.Of(k) != 0 && forall j: Kind :: j != Start && n.Of(j) != 0 ==> m <= n.Of(j)
  {
    BestOfIsLeast(n, |RACERS|);
    forall k: Kind | k != Start
      ensures FirstSignal(n).None? ==> n.Of(k) == 0
      ensures FirstSignal(n).Some? && n.Of(k) != 0 ==> FirstSignal(n).value.0 <= n.Of(k)
    {
      var i := RacerIndex(k);
    }
  }

  /** A later number changes neither answer that was already decided. */
  lemma {:induction false} FireKeeps(s: System, kind: Kind)
    requires NumbersAgree(s)
    ensures NumbersAgree(Fire(s, kind))
    ensures s.numbers.start != 0 || s.numbers.cancel != 0 || s.numbers.dropped != 0 ==>
              (Admitted(Fire(s, kind)) <==> Admitted(s))
    ensures FirstSignal(s.numbers).Some? ==> FirstSignal(Fire(s, kind).numbers) == FirstSignal(s.numbers)
    ensures s.numbers.start != 0 && kind == Cancel && s.numbers.cancel == 0 ==>
        s.numbers.start < Fire(s, kind).numbers.cancel
  {
    assert s.numbers.start == s.numbers.Of(Start) < s.clock;
    assert s.numbers.cancel == s.numbers.Of(Cancel) < s.clock && s.numbers.dropped == s.numbers.Of(Dropped) < s.clock;
    FireNumbers(s, kind);
    FirstKept(s.numbers, Fire(s, kind).numbers, kind, s.clock);
  }

  lemma {:induction false} FireNumbers(s: System, kind: Kind)
    requires NumbersAgree(s)
    ensures NumbersAgree(Fire(s, kind))
    ensures forall k: Kind ::
              Fire(s, kind).numbers.Of(k) == if k == kind && s.numbers.Of(k) == 0 then s.clock else s.numbers.Of(k)
  {
    var t := Fire(s, kind);
    forall k: Kind ensures t.numbers.Of(k) == if k == kind && s.numbers.Of(k) == 0 then s.clock else s.numbers.Of(k) {
    }
  }

  lemma {:induction false} FirstKept(n: Numbers, t: Numbers, kind: Kind, clock: nat)
    requires forall k: Kind :: n.Of(k) < clock
    requires forall k: Kind :: t.Of(k) == if k == kind && n.Of(k) == 0 then clock else n.Of(k)
    requires forall j: Kind, k: Kind :: j != k && t.Of(j) != 0 ==> t.Of(j) != t.Of(k)
    ensures FirstSignal(n).Some? ==> FirstSignal(t) == FirstSignal(n)
  {
    FirstSignalIsLeast(n);
    FirstSignalIsLeast(t);
    if FirstSignal(n).Some? {
      var (m, k) := FirstSignal(n).value;
      assert t.Of(k) == m;
      var (m', k') := FirstSignal(t).value;
      assert m' <= m && t.Of(k') == m';
      assert n.Of(k') != 0 ==> m <= n.Of(k');
    }
  }

  lemma {:induction false} OutsideKeeps(s: System, kind: Kind)
    requires Invariant(s) && (kind.Cancel? || kind.Dropped? || kind.Interrupt?)
    ensures Invariant(Fire(s, kind))
  {
    FireKeeps(s, kind);
    BestKept(s, kind);
  }

  lemma {:induction false} BestKept(s: System, kind: Kind)
    requires Invariant(s)
    ensures s.driver.Racing? && s.driver.best.Some? ==>
              Fire(s, kind).numbers.Of(s.driver.best.value.1) == s.numbers.Of(s.driver.best.value.1)
  {
  }

  lemma {:induction false} WorkerKeeps(s: System)
    requires Invariant(s)
    ensures Invariant(StepWorker(s))
  {
    if s.worker.Stored? {
      AnnounceKeeps(s);
    } else {
      WorkerAdvances(s);
      hide WorkerAgrees;
      QuietWorker(s, StepWorker(s).worker, StepWorker(s).result);
    }
  }

  lemma {:induction false} WorkerAdvances(s: System)
    requires WorkerAgrees(s) && !s.worker.Stored?
    ensures WorkerAgrees(StepWorker(s))
  {
  }

  lemma {:induction false} QuietWorker(s: System, worker: Worker, result: bool)
    requires Invariant(s) && (s.result ==> result) && WorkerAgrees(s.(worker := worker, result := result))
    ensures Invariant(s.(worker := worker, result := result))
  {
    hide FirstSignal, WorkerAgrees;
  }

  lemma {:induction false} AnnounceKeeps(s: System)
    requires Invariant(s) && s.worker.Stored?
    ensures Invariant(StepWorker(s))
  {
    hide FirstSignal;
    FireKeeps(s, Action);
    BestKept(s, Action);
  }

  lemma {:induction false} ViewKeeps(s: System, ready: bool)
    requires Invariant(s) && s.driver.Viewing?
    ensures Invariant(StepView(s, ready))
  {
    if s.driver.asking.SawNoDrop? {
      ViewFires(s, Start);
    } else if s.driver.asking.NotAsked? && s.numbers.start == 0 && !ready {
      ViewFires(s, Setup);
    } else {
      QuietView(s, StepView(s, ready).driver);
    }
  }

  lemma {:induction false} ViewFires(s: System, kind: Kind)
    requires Invariant(s) && s.driver.Viewing? && (kind.Setup? || kind.Start?)
    ensures Invariant(Fire(s, kind).(driver := s.driver.(asking := Asked)))
  {
    hide FirstSignal;
    FireKeeps(s, kind);
  }

  lemma {:induction false} QuietView(s: System, driver: Driver)
    requires Invariant(s) && s.driver.Viewing? && driver.Viewing?
    ensures Invariant(s.(driver := driver))
  {
    hide FirstSignal;
  }

  lemma {:induction false} RacingKeeps(s: System)
    requires Invariant(s) && s.driver.Racing? && s.driver.next < |RACERS|
    ensures Invariant(StepDriver(s))
  {
    var next, kind := s.driver.next, RACERS[s.driver.next];
    assert StepDriver(s).driver == Racing(next + 1, Better(s.driver.best, s.numbers.Of(kind), kind), s.driver.purpose);
    assert RACERS[..next + 1] == RACERS[..next] + [kind];
    FirstSignalIsLeast(s.numbers);
  }

  /** When all reads are done the answer is the first signal, as if read at one instant. */
  lemma {:induction false} ReadsComplete(s: System)
    requires Invariant(s) && s.driver.Racing? && s.driver.next == |RACERS| && s.driver.purpose.Decide?
    ensures s.driver.best == FirstSignal(s.numbers) && s.driver.best.Some?
    ensures s.driver.best.value.1 == Action ==> s.result
  {
    FirstSignalIsLeast(s.numbers);
    assert RACERS[..|RACERS|] == RACERS;
    var k := FirstSignal(s.numbers).value.1;
    assert RACERS[0] == Action && RACERS[1] == Cancel && RACERS[2] == Interrupt && RACERS[3] == Setup &&
        RACERS[4] == Dropped;
    assert k in RACERS;
  }

  lemma {:induction false} DecideKeeps(s: System)
    requires Invariant(s) && s.driver.Racing? && s.driver.next == |RACERS| && s.driver.purpose.Decide?
    ensures Invariant(StepDriver(s))
  {
    ReadsComplete(s);
  }

  /** Before any read the reads agree with whatever came first. */
  lemma {:induction false} NothingRead(n: Numbers)
    requires FirstSignal(n).Some?
    ensures ReadsAgree(n, 0, None)
  {
    assert RACERS[..0] == [];
  }

  lemma {:induction false} CheckedKeeps(s: System)
    requires Invariant(s) && s.driver.Racing? && s.driver.next == |RACERS| && !s.driver.purpose.Decide?
    ensures Invariant(StepDriver(s))
  {
    if s.driver.best.Some? {
      FirstSignalIsLeast(s.numbers);
      NothingRead(s.numbers);
    }
  }

  lemma {:induction false} DroppingKeeps(s: System)
    requires Invariant(s) && s.driver.Dropping?
    ensures Invariant(StepDriver(s))
  {
    FireKeeps(s, Dropped);
  }

  lemma {:induction false} DriverKeeps(s: System)
    requires Invariant(s)
    ensures Invariant(StepDriver(s))
  {
    hide FirstSignal, Settle, Better;
    if s.driver.Racing? {
      if s.driver.next < |RACERS| { RacingKeeps(s); }
      else if s.driver.purpose.Decide? { DecideKeeps(s); }
      else { CheckedKeeps(s); }
    } else if s.driver.Dropping? {
      DroppingKeeps(s);
    } else if s.driver.AwaitingOutcome? && FirstSignal(s.numbers).Some? {
      NothingRead(s.numbers);
    }
  }

  lemma {:induction false} StepKeeps(s: System, step: Step)
    requires Invariant(s)
    ensures Invariant(Next(s, step))
  {
    match step
    case FireCancel => OutsideKeeps(s, Cancel);
    case FireDropped => OutsideKeeps(s, Dropped);
    case FireInterrupt => OutsideKeeps(s, Interrupt);
    case WorkerStep => WorkerKeeps(s);
    case ViewStep(ready) => if s.driver.Viewing? { ViewKeeps(s, ready); }
    case DriverStep => DriverKeeps(s);
    case ViewEnd(_) => if FirstSignal(s.numbers).Some? { NothingRead(s.numbers); }
    case _ =>
  }

  lemma {:induction false} ReachableInvariant(steps: seq<Step>)
    ensures Invariant(Run(steps))
  {
    if steps != [] {
      ReachableInvariant(steps[..|steps| - 1]);
      StepKeeps(Run(steps[..|steps| - 1]), steps[|steps| - 1]);
    }
  }

  // Results over whole runs

  lemma {:induction false} RunLast(before: seq<Step>, after: seq<Step>)
    requires after != []
    ensures Run(before + after) == Next(Run(before + after[..|after| - 1]), after[|after| - 1])
  {
    var all := before + after;
    assert all[..|all| - 1] == before + after[..|after| - 1];
  }

  /** One step fires at most one signal. */
  lemma {:induction false} StepFires(s: System, step: Step)
    ensures Next(s, step).numbers == s.numbers || exists k: Kind :: Next(s, step).numbers == Fire(s, k).numbers
  {
    if step.WorkerStep? && s.worker.Stored? { assert Next(s, step).numbers == Fire(s, Action).numbers; }
    else if step.FireCancel? { assert Next(s, step).numbers == Fire(s, Cancel).numbers; }
    else if step.FireDropped? || (step.DriverStep? && s.driver.Dropping?) {
      assert Fire(s, Dropped).numbers == Next(s, step).numbers;
    }
    else if step.FireInterrupt? && s.driver.Viewing? { assert Next(s, step).numbers == Fire(s, Interrupt).numbers; }
    else if step.ViewStep? && s.driver.Viewing? && s.driver.asking.SawNoDrop? {
      assert Next(s, step).numbers == Fire(s, Start).numbers;
    }
    else if step.ViewStep? && s.driver.Viewing? && s.driver.asking.NotAsked? && s.numbers.start == 0 && !step.ready {
      assert Next(s, step).numbers == Fire(s, Setup).numbers;
    }
  }

  predicate AdmissionDecided(s: System) {
    s.numbers.start != 0 || s.numbers.cancel != 0 || s.numbers.dropped != 0
  }

  lemma {:induction false} StepKeepsAnswers(s: System, step: Step)
    requires NumbersAgree(s)
    ensures AdmissionDecided(s) ==> AdmissionDecided(Next(s, step)) && (Admitted(Next(s, step)) <==> Admitted(s))
    ensures FirstSignal(s.numbers).Some? ==> FirstSignal(Next(s, step).numbers) == FirstSignal(s.numbers)
  {
    StepFires(s, step);
    if Next(s, step).numbers != s.numbers {
      var k: Kind :| Next(s, step).numbers == Fire(s, k).numbers;
      FireKeeps(s, k);
    }
  }

  /** Once decided, the admission and the winner keep for the rest of the run. */
  lemma {:induction false} AnswersNeverChange(before: seq<Step>, after: seq<Step>)
    ensures var s, t := Run(before), Run(before + after);
            && (AdmissionDecided(s) ==> AdmissionDecided(t) && (Admitted(t) <==> Admitted(s)))
            && (FirstSignal(s.numbers).Some? ==> FirstSignal(t.numbers) == FirstSignal(s.numbers))
  {
    if after == [] {
      assert before + after == before;
    } else {
      AnswersNeverChange(before, after[..|after| - 1]);
      RunLast(before, after);
      ReachableInvariant(before + after[..|after| - 1]);
      StepKeepsAnswers(Run(before + after[..|after| - 1]), after[|after| - 1]);
    }
  }

  /** The action runs exactly for a worker that found start before both cancellation and drop; the order is final. */
  lemma {:induction false} ActionRunsOnlyWhenFirst(before: seq<Step>, after: seq<Step>)
    ensures RanAction(Run(before).worker) ==> Admitted(Run(before + after))
    ensures Run(before).worker.Quit? ==> !Admitted(Run(before + after))
  {
    ReachableInvariant(before);
    AnswersNeverChange(before, after);
  }

  /** Whatever the driver reports names the signal that truly came first, and a winning action has its result. */
  lemma {:induction false} ReportNamesFirst(before: seq<Step>, after: seq<Step>)
    ensures var s := Run(before);
            s.reported.Some? ==>
              Deserved(s.numbers, s.reported.value) && Deserved(Run(before + after).numbers, s.reported.value)
    ensures var s := Run(before);
            s.driver.Racing? && s.driver.next == |RACERS| && s.driver.purpose.Decide? ==>
              s.driver.best == FirstSignal(s.numbers) && s.driver.best.Some? &&
                  (s.driver.best.value.1 == Action ==> s.result)
  {
    ReachableInvariant(before);
    AnswersNeverChange(before, after);
    var s := Run(before);
    if s.driver.Racing? && s.driver.next == |RACERS| && s.driver.purpose.Decide? { ReadsComplete(s); }
  }

  /** A failure reported while start had not fired means that the action never runs. */
  lemma {:induction false} EarlyFailureNeverRuns(before: seq<Step>, after: seq<Step>)
    ensures Run(before).failedEarly ==>
              && Run(before + after).failedEarly && Run(before + after).numbers.start == 0
              && !RanAction(Run(before + after).worker)
  {
    ReachableInvariant(before + after);
    if after == [] {
      assert before + after == before;
    } else {
      EarlyFailureNeverRuns(before, after[..|after| - 1]);
      RunLast(before, after);
      ReachableInvariant(before + after[..|after| - 1]);
    }
  }

  // The awaited outcome comes

  /** How many steps a worker still has to take. */
  function StepsLeft(w: Worker): nat {
    match w
    case Blocked => 5
    case ReadStart(_) => 4
    case ReadCancel(_, _) => 3
    case Running => 2
    case Stored => 1
    case _ => 0
  }

  lemma {:induction false} WorkerMoves(s: System)
    requires Invariant(s) && s.numbers.start != 0 && FirstSignal(s.numbers).None?
    ensures StepsLeft(s.worker) > 0 && StepsLeft(StepWorker(s).worker) == StepsLeft(s.worker) - 1
    ensures StepWorker(s).driver == s.driver
  {
    FirstSignalIsLeast(s.numbers);
    assert s.numbers.Of(Action) == 0 && s.numbers.Of(Cancel) == 0 && s.numbers.Of(Dropped) == 0;
  }

  /**
    * A driver that waits for an outcome does not wait in vain: as long as no racing signal has fired the worker can
    * move, and at most five of its steps fire one.
    */
  lemma {:induction false} OutcomeArrives(steps: seq<Step>) returns (after: seq<Step>)
    ensures |after| <= StepsLeft(Run(steps).worker) <= 5 && forall i :: 0 <= i < |after| ==> after[i] == WorkerStep
    ensures Run(steps).driver.AwaitingOutcome? ==>
              FirstSignal(Run(steps + after).numbers).Some? && Run(steps + after).driver.AwaitingOutcome?
    decreases StepsLeft(Run(steps).worker)
  {
    ReachableInvariant(steps);
    if !Run(steps).driver.AwaitingOutcome? || FirstSignal(Run(steps).numbers).Some? {
      after := [];
      assert steps + after == steps;
    } else {
      WorkerMoves(Run(steps));
      assert (steps + [WorkerStep])[..|steps|] == steps;
      assert Run(steps + [WorkerStep]) == StepWorker(Run(steps));
      var rest := OutcomeArrives(steps + [WorkerStep]);
      after := [WorkerStep] + rest;
      assert steps + after == steps + [WorkerStep] + rest;
    }
  }
}
