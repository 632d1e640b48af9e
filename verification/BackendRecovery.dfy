/**
  * Whether a backend can still come to serve a live channel: exactly when it has not kept a dead one, which it then
  * keeps until it is closed.
  */
module BackendRecovery {
  import opened Wrappers
  import opened BackendConnection
  import opened BackendProtocol

  // Continuations of a state

  function Continue(s: System, after: seq<Step>): System
    decreases |after|
  {
    if after == [] then s else Continue(Next(s, after[0]), after[1..])
  }

  lemma {:induction false} RunContinues(before: seq<Step>, after: seq<Step>)
    ensures Run(before + after) == Continue(Run(before), after)
    decreases |after|
  {
    hide Run, Next;
    if after == [] {
      assert before + after == before;
    } else {
      RunStep(before, after[0]);
      RunContinues(before + [after[0]], after[1..]);
      assert before + [after[0]] + after[1..] == before + after;
    }
  }

  // A dead channel stays

  /** A channel is installed whose stream is open. */
  predicate Live(s: System) {
    s.conn.channel.Some? && IsOpen(s, s.conn.channel.value)
  }

  /** A channel is installed whose stream is gone. */
  predicate Dead(s: System) {
    s.conn.channel.Some? && !IsOpen(s, s.conn.channel.value)
  }

  /** Nothing was dialed or opened under a later attempt than the installed channel's own. */
  ghost predicate NothingNewer(s: System) {
    s.conn.channel.Some? && s.conn.channel.value in s.streams ==>
      && (forall id | id in s.streams :: s.streams[id].attempt <= s.streams[s.conn.channel.value].attempt)
      && (forall a | a in s.permits :: a <= s.streams[s.conn.channel.value].attempt)
  }

  lemma {:induction false} NothingNewerKept(s: System, step: Step)
    requires Invariant(s) && NothingNewer(s)
    ensures NothingNewer(Next(s, step))
  {
    hide CallersAgree, TasksAgree, NobodyForgotten;
    if Enabled(s, step) {
      match step
      case Succeed(caller, stream) => InstalledIsNewest(s, StepSucceed(s, caller, stream), stream);
      case TaskSucceed(task, stream) => InstalledIsNewest(s, StepTaskSucceed(s, task, stream), stream);
      case _ =>
    }
  }

  lemma {:induction false} InstalledIsNewest(s: System, t: System, stream: nat)
    requires StreamsAgree(s) && NothingNewer(s) && stream in s.streams
    requires t.streams == s.streams && t.permits == s.permits
    requires t.conn.channel == s.conn.channel
             || (t.conn.channel == Some(stream) && s.streams[stream].attempt == s.conn.generation)
    ensures NothingNewer(t)
  {
  }

  lemma {:induction false} ReachableNothingNewer(steps: seq<Step>)
    ensures NothingNewer(Run(steps))
  {
    if steps != [] {
      var front := steps[..|steps| - 1];
      ReachableNothingNewer(front);
      ReachableInvariant(front);
      hide Invariant, NothingNewer, Next;
      NothingNewerKept(Run(front), steps[|steps| - 1]);
    }
  }

  /** The generation has left the installed channel, and everything dialed or opened, behind. */
  ghost predicate Stuck(s: System, channel: nat) {
    && s.conn.channel == Some(channel) && channel in s.streams && !s.conn.closed && s.conn.phase == Idle
    && (forall id | id in s.streams :: s.streams[id].attempt < s.conn.generation)
    && (forall a | a in s.permits :: a < s.conn.generation)
  }

  /** Only a close gets out of it: the connector dials only without a channel, and older streams do not matter. */
  lemma {:induction false} StuckStays(s: System, step: Step, channel: nat)
    requires Stuck(s, channel) && step != Close
    ensures Stuck(Next(s, step), channel) && (!IsOpen(s, channel) ==> !IsOpen(Next(s, step), channel))
  {
  }

  lemma {:induction false} StuckForGood(s: System, after: seq<Step>, channel: nat)
    requires Stuck(s, channel) && Close !in after
    ensures Stuck(Continue(s, after), channel) && (!IsOpen(s, channel) ==> !IsOpen(Continue(s, after), channel))
    decreases |after|
  {
    hide Stuck, Next;
    if after != [] {
      StuckStays(s, after[0], channel);
      StuckForGood(Next(s, after[0]), after[1..], channel);
    }
  }

  /** In every run a dead channel is stuck. */
  lemma {:induction false} DeadIsStuck(steps: seq<Step>)
    requires Dead(Run(steps))
    ensures Stuck(Run(steps), Run(steps).conn.channel.value)
  {
    ReachableInvariant(steps);
    ReachableNothingNewer(steps);
    hide Run, CallersAgree, TasksAgree, NobodyForgotten;
  }

  /** A dead channel is what every caller gets, for as long as the backend is not closed. */
  lemma {:induction false} DeadForGood(before: seq<Step>, after: seq<Step>)
    requires Dead(Run(before)) && Close !in after
    ensures Dead(Run(before + after)) && Run(before + after).conn.channel == Run(before).conn.channel
    ensures Run(before + after).conn.Admit().1 == Ready(Run(before).conn.channel.value)
  {
    DeadIsStuck(before);
    RunContinues(before, after);
    hide Run;
    StuckForGood(Run(before), after, Run(before).conn.channel.value);
  }

  /**
    * From every late registration, the task's turn and the loss of the channel's stream leave the channel installed,
    * dead, and for good: whatever follows, short of a close, callers are handed a channel without a stream.
    */
  lemma {:induction false} LateRegistrationStrands(steps: seq<Step>, task: nat, after: seq<Step>)
    requires AsDesigned(Run(steps)) && LateRegistration(Run(steps), Register(task)) && Close !in after
    ensures var channel := Run(steps).conn.channel.value;
            var s := Run(steps + [Register(task), TaskTurn(task), Lose(channel)] + after);
            s.conn.channel == Some(channel) && Dead(s) && s.conn.Admit().1 == Ready(channel)
  {
    var channel := Run(steps).conn.channel.value;
    var three := [Register(task), TaskTurn(task), Lose(channel)];
    RunContinues(steps, three);
    LateTaskTurns(Run(steps), task);
    ThreeSteps(Run(steps), Register(task), TaskTurn(task), Lose(channel));
    hide Run;
    LossOfOlder(Next(Next(Run(steps), Register(task)), TaskTurn(task)), channel);
    DeadForGood(steps + three, after);
  }

  lemma {:induction false} ThreeSteps(s: System, a: Step, b: Step, c: Step)
    ensures Continue(s, [a, b, c]) == Next(Next(Next(s, a), b), c)
  {
    hide Next;
    assert [a, b, c][1..] == [b, c] && [b, c][1..] == [c] && [c][1..] == [];
    assert Continue(Next(Next(s, a), b), [c]) == Next(Next(Next(s, a), b), c);
  }

  lemma {:induction false} LossOfOlder(s: System, channel: nat)
    requires s.conn.channel == Some(channel) && IsOpen(s, channel) && s.streams[channel].attempt != s.conn.generation
    ensures var t := Next(s, Lose(channel)); t.conn == s.conn && Dead(t)
  {
    assert Next(s, Lose(channel)) == StepLose(s, channel);
  }

  // Everything else recovers

  /** Some continuation without a close installs a channel whose stream is open. */
  ghost predicate CanRecover(s: System) {
    exists after :: Close !in after && Live(Continue(s, after))
  }

  lemma {:induction false} LiveRecovers(s: System)
    requires Live(s)
    ensures CanRecover(s)
  {
    var none: seq<Step> := [];
    assert Continue(s, none) == s && Close !in none;
  }

  lemma {:induction false} StepRecovers(s: System, step: Step)
    requires step != Close && CanRecover(Next(s, step))
    ensures CanRecover(s)
  {
    hide Next, Live;
    var after :| Close !in after && Live(Continue(Next(s, step), after));
    var all := [step] + after;
    assert all[1..] == after && Continue(s, all) == Continue(Next(s, step), after);
  }

  lemma {:induction false} AboveAll(ids: set<nat>) returns (n: nat)
    ensures forall i :: i in ids ==> i < n
  {
    n := 0;
    if ids != {} {
      var i :| i in ids;
      var rest := AboveAll(ids - {i});
      n := if rest <= i then i + 1 else rest;
      assert forall j :: j in ids ==> j == i || j in ids - {i};
    }
  }

  /** An open backend without a channel. */
  predicate Waiting(s: System) {
    !s.conn.closed && s.conn.channel.None?
  }

  /** Whoever connects under the current attempt gets to dial and to open a stream. */
  lemma {:induction false} StreamOpens(s: System, attempt: nat) returns (stream: nat, t: System)
    requires Waiting(s) && attempt == s.conn.generation && HasConnector(s, attempt)
    ensures stream !in s.streams
    ensures t == s.(permits := s.permits + {attempt}, streams := s.streams[stream := Stream(attempt, true)])
    ensures CanRecover(t) ==> CanRecover(s)
  {
    stream := AboveAll(s.streams.Keys);
    var dialed := s.(permits := s.permits + {attempt});
    assert Next(s, Dial(attempt)) == dialed;
    t := dialed.(streams := s.streams[stream := Stream(attempt, true)]);
    assert Next(dialed, Open(stream, attempt)) == t;
    if CanRecover(t) {
      hide Next;
      StepRecovers(dialed, Open(stream, attempt));
      StepRecovers(s, Dial(attempt));
    }
  }

  lemma {:induction false} TaskDials(s: System, task: nat)
    requires Waiting(s) && task in s.tasks && s.tasks[task] == Dialing(s.conn.generation)
    ensures CanRecover(s)
  {
    hide CanRecover;
    var stream, t := StreamOpens(s, s.conn.generation);
    assert Live(Next(t, TaskSucceed(task, stream)));
    LiveRecovers(Next(t, TaskSucceed(task, stream)));
    StepRecovers(t, TaskSucceed(task, stream));
  }

  lemma {:induction false} TaskWakes(s: System, task: nat)
    requires Waiting(s) && task in s.tasks && s.tasks[task].Sleeping?
    ensures CanRecover(s)
  {
    hide CanRecover;
    TaskDials(Next(s, TaskTurn(task)), task);
    StepRecovers(s, TaskTurn(task));
  }

  lemma {:induction false} TaskRecovers(s: System, task: nat)
    requires Waiting(s) && Running(s, task)
    ensures CanRecover(s)
  {
    hide CanRecover;
    if s.tasks[task].Dialing? {
      TaskWakes(Next(s, TaskFail(task)), task);
      StepRecovers(s, TaskFail(task));
    } else {
      TaskWakes(s, task);
    }
  }

  lemma {:induction false} RegistrationRecovers(s: System)
    requires Waiting(s) && s.conn.reconnectTask.None? && s.registrations > 0
    ensures CanRecover(s)
  {
    hide CanRecover;
    var task := AboveAll(s.tasks.Keys);
    TaskRecovers(Next(s, Register(task)), task);
    StepRecovers(s, Register(task));
  }

  lemma {:induction false} HandOffRecovers(s: System)
    requires Waiting(s) && s.conn.reconnectTask.None? && s.handoffs > 0
    ensures CanRecover(s)
  {
    hide CanRecover;
    RegistrationRecovers(Next(s, HandOff));
    StepRecovers(s, HandOff);
  }

  lemma {:induction false} CallerRecovers(s: System, caller: nat)
    requires Waiting(s) && s.conn.phase == InitialConnect
    requires caller in s.callers && s.callers[caller] == Connecting(s.conn.generation)
    ensures CanRecover(s)
  {
    hide CanRecover;
    var stream, t := StreamOpens(s, s.conn.generation);
    assert Live(Next(t, Succeed(caller, stream)));
    LiveRecovers(Next(t, Succeed(caller, stream)));
    StepRecovers(t, Succeed(caller, stream));
  }

  lemma {:induction false} IdleRecovers(s: System)
    requires Waiting(s) && s.conn.phase == Idle
    ensures CanRecover(s)
  {
    hide CanRecover;
    var caller := AboveAll(s.callers.Keys);
    var arrived := s.(callers := s.callers[caller := Checking(s.notices)]);
    assert Next(s, Arrive(caller)) == arrived;
    CallerRecovers(Next(arrived, Check(caller)), caller);
    StepRecovers(arrived, Check(caller));
    StepRecovers(s, Arrive(caller));
  }

  lemma {:induction false} WaitingRecovers(s: System)
    requires Invariant(s) && Waiting(s)
    ensures CanRecover(s)
  {
    hide CanRecover;
    match s.conn.phase
    case Idle => IdleRecovers(s);
    case InitialConnect =>
      var caller := InFlight(s);
      CallerRecovers(s, caller);
    case Backoff =>
      if s.conn.reconnectTask.Some? { TaskRecovers(s, s.conn.reconnectTask.value); }
      else if s.handoffs > 0 { HandOffRecovers(s); }
      else { RegistrationRecovers(s); }
  }

  /**
    * The backend never gets stuck, with one exception: from an open state a live channel can still be installed
    * without a close if and only if no dead one is.
    */
  lemma {:induction false} RecoversIff(steps: seq<Step>)
    requires !Run(steps).conn.closed
    ensures CanRecover(Run(steps)) <==> !Dead(Run(steps))
  {
    ReachableInvariant(steps);
    if Dead(Run(steps)) {
      DeadIsStuck(steps);
      hide Run;
      if CanRecover(Run(steps)) {
        var after :| Close !in after && Live(Continue(Run(steps), after));
        StuckForGood(Run(steps), after, Run(steps).conn.channel.value);
      }
    } else {
      hide Run, Invariant;
      if Live(Run(steps)) { LiveRecovers(Run(steps)); } else { WaitingRecovers(Run(steps)); }
    }
  }

  // When it cannot come to that

  /** The attempt of an initial connect that fails in this step and turns the backend to `Backoff`. */
  function NewlyFailed(s: System, step: Step): set<nat> {
    if step.Fail? && Enabled(s, step) && s.conn.FailConnect(s.callers[step.caller].attempt).1
    then {s.callers[step.caller].attempt} else {}
  }

  function FailedAttempts(steps: seq<Step>): set<nat> {
    if steps == [] then {}
    else
      var front := steps[..|steps| - 1];
      FailedAttempts(front) + NewlyFailed(Run(front), steps[|steps| - 1])
  }

  /** The step loses a stream that was opened under a failed attempt. */
  predicate LossOfFailed(s: System, step: Step, failed: set<nat>) {
    step.Lose? && Enabled(s, step) && s.streams[step.stream].attempt in failed
  }

  /** In the run every stream of an initial connect that fails is gone before the failure is stored. */
  ghost predicate NoLossAfterFailure(steps: seq<Step>) {
    forall k :: 0 <= k < |steps| ==> !LossOfFailed(Run(steps[..k]), steps[k], FailedAttempts(steps[..k]))
  }

  /** Nothing was dialed, opened or begun under the current generation. */
  ghost predicate Untouched(s: System) {
    && (forall id | id in s.streams :: s.streams[id].attempt < s.conn.generation)
    && (forall a | a in s.permits :: a < s.conn.generation)
    && (forall i | i in s.callers :: s.callers[i].Connecting? ==> s.callers[i].attempt < s.conn.generation)
  }

  /** At most one registration is owed, and only in a backoff without a task that nobody else can leave or enter. */
  ghost predicate OneOwed(s: System, failed: set<nat>) {
    && s.handoffs + s.registrations <= 1
    && (s.handoffs + s.registrations == 1 && !s.conn.closed ==>
          && s.conn.phase == Backoff && s.conn.reconnectTask.None?
          && (s.conn.generation in failed || Untouched(s)))
  }

  lemma {:induction false} OneOwedKept(s: System, step: Step, failed: set<nat>)
    requires Invariant(s) && OneOwed(s, failed) && !LossOfFailed(s, step, failed)
    ensures OneOwed(Next(s, step), failed + NewlyFailed(s, step))
  {
    hide NobodyForgotten;
    if Enabled(s, step) {
      match step
      case Lose(stream) => LossOwesOne(s, stream, failed);
      case Fail(caller) => FailureOwesOne(s, caller, failed);
      case _ =>
    }
  }

  lemma {:induction false} LossOwesOne(s: System, stream: nat, failed: set<nat>)
    requires Invariant(s) && OneOwed(s, failed) && Enabled(s, Lose(stream)) && s.streams[stream].attempt !in failed
    ensures OneOwed(StepLose(s, stream), failed)
  {
    hide NobodyForgotten;
  }

  lemma {:induction false} FailureOwesOne(s: System, caller: nat, failed: set<nat>)
    requires Invariant(s) && OneOwed(s, failed) && Enabled(s, Fail(caller))
    ensures OneOwed(StepFail(s, caller), failed + NewlyFailed(s, Fail(caller)))
  {
    hide NobodyForgotten;
  }

  lemma {:induction false} OneOwedInRun(steps: seq<Step>)
    requires NoLossAfterFailure(steps)
    ensures OneOwed(Run(steps), FailedAttempts(steps))
  {
    if steps != [] {
      var n := |steps| - 1;
      var front := steps[..n];
      forall k | 0 <= k < n ensures !LossOfFailed(Run(front[..k]), front[k], FailedAttempts(front[..k])) {
        assert front[..k] == steps[..k] && front[k] == steps[k];
      }
      OneOwedInRun(front);
      ReachableInvariant(front);
      hide Next, OneOwed, Invariant, LossOfFailed, NewlyFailed;
      assert !LossOfFailed(Run(steps[..n]), steps[n], FailedAttempts(steps[..n]));
      OneOwedKept(Run(front), steps[n], FailedAttempts(front));
    }
  }

  /**
    * A run that loses no stream of a failed connect owes at most one registration at any time, is as the design wants
    * throughout, and can recover from every open state.
    */
  lemma {:induction false} SafeWithoutLateLoss(steps: seq<Step>)
    requires NoLossAfterFailure(steps)
    ensures Run(steps).handoffs + Run(steps).registrations <= 1
    ensures AlwaysAsDesigned(steps)
    ensures !Run(steps).conn.closed ==> CanRecover(Run(steps))
  {
    OneOwedInRun(steps);
    forall k | 0 <= k < |steps| ensures !LateRegistration(Run(steps[..k]), steps[k]) {
      PrefixWithoutLateLoss(steps, k);
      OneOwedInRun(steps[..k]);
      ReachableInvariant(steps[..k]);
      hide Run;
      NoMeeting(Run(steps[..k]), steps[k], FailedAttempts(steps[..k]));
    }
    AsDesignedIff(steps);
    assert steps[..|steps|] == steps && AsDesigned(Run(steps));
    if !Run(steps).conn.closed {
      hide Run;
      RecoversIff(steps);
    }
  }

  lemma {:induction false} PrefixWithoutLateLoss(steps: seq<Step>, n: nat)
    requires NoLossAfterFailure(steps) && n <= |steps|
    ensures NoLossAfterFailure(steps[..n])
  {
    hide Run, FailedAttempts, LossOfFailed;
    forall k | 0 <= k < n
      ensures !LossOfFailed(Run(steps[..n][..k]), steps[..n][k], FailedAttempts(steps[..n][..k]))
    {
      assert steps[..n][..k] == steps[..k] && steps[..n][k] == steps[k];
    }
  }

  lemma {:induction false} NoMeeting(s: System, step: Step, failed: set<nat>)
    requires Invariant(s) && OneOwed(s, failed)
    ensures !LateRegistration(s, step)
  {
  }
}
