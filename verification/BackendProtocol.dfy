/**
  * Callers, reconnect tasks, streams and close, interleaved at the boundaries of the critical sections. A section
  * that stores `Backoff` and must start a task goes on to notify, and then to register the task in a section of
  * its own; anything may happen in between.
  */
module BackendProtocol {
  import opened Wrappers
  import opened BackendConnection

  /** A caller of `channel()`: its ticket is the number of notifications sent when its wait was created. */
  datatype Caller =
    | Checking(ticket: nat)
    | Waiting(ticket: nat)
    | Connecting(attempt: nat)
    | Unwinding
    | Served(stream: nat)
    | Failed

  datatype Task = Sleeping | Dialing(attempt: nat) | Stopped

  datatype Stream = Stream(attempt: nat, open: bool)

  /**
    * `permits` are the attempts whose connector check passed, and `notices` counts notifications sent. `owed`
    * finished sections have yet to notify, `handoffs` have yet to notify and then to register a task, and
    * `registrations` have notified and have yet to register. `settled` records that the backend has once been in
    * `Backoff` or had a channel.
    */
  datatype System = System(
    conn: Connection, callers: map<nat, Caller>, tasks: map<nat, Task>, streams: map<nat, Stream>,
    permits: set<nat>, notices: nat, owed: nat, handoffs: nat, registrations: nat, settled: bool)

  const INITIAL := System(FRESH, map[], map[], map[], {}, 0, 0, 0, 0, false)

  datatype Step =
    | Arrive(caller: nat)
    | Check(caller: nat)
    | Wake(caller: nat)
    | Succeed(caller: nat, stream: nat)
    | Fail(caller: nat)
    | Cancel(caller: nat)
    | Dial(attempt: nat)
    | Open(stream: nat, attempt: nat)
    | Lose(stream: nat)
    | TaskTurn(task: nat)
    | TaskSucceed(task: nat, stream: nat)
    | TaskFail(task: nat)
    | TaskStop(task: nat)
    | Notify
    | HandOff
    | Register(task: nat)
    | Close

  predicate IsConnecting(s: System, caller: nat) {
    caller in s.callers && s.callers[caller].Connecting?
  }

  predicate IsDialing(s: System, task: nat) {
    task in s.tasks && s.tasks[task].Dialing?
  }

  predicate IsOpen(s: System, stream: nat) {
    stream in s.streams && s.streams[stream].open
  }

  /** Somebody is connecting under this attempt; only then is the connector asked to dial for it. */
  predicate HasConnector(s: System, attempt: nat) {
    || (exists i :: i in s.callers && s.callers[i] == Connecting(attempt))
    || (exists t :: t in s.tasks && s.tasks[t] == Dialing(attempt))
  }

  predicate Enabled(s: System, step: Step) {
    match step
    case Arrive(caller) => caller !in s.callers
    case Check(caller) => caller in s.callers && s.callers[caller].Checking?
    case Wake(caller) => caller in s.callers && s.callers[caller].Waiting? && s.callers[caller].ticket < s.notices
    case Succeed(caller, stream) =>
      IsConnecting(s, caller) && stream in s.streams && s.streams[stream].attempt == s.callers[caller].attempt
    case Fail(caller) => IsConnecting(s, caller)
    case Cancel(caller) => caller in s.callers && !s.callers[caller].Served? && !s.callers[caller].Failed?
    case Dial(attempt) => s.conn.MayDial(attempt) && HasConnector(s, attempt)
    case Open(stream, attempt) => stream !in s.streams && attempt in s.permits
    case Lose(stream) => IsOpen(s, stream)
    case TaskTurn(task) => task in s.tasks && s.tasks[task].Sleeping?
    case TaskSucceed(task, stream) =>
      IsDialing(s, task) && stream in s.streams && s.streams[stream].attempt == s.tasks[task].attempt
    case TaskFail(task) => IsDialing(s, task)
    case TaskStop(task) => task in s.tasks && s.conn.closed
    case Notify => s.owed > 0
    case HandOff => s.handoffs > 0
    case Register(task) => s.registrations > 0 && task !in s.tasks
    case Close => true
  }

  function Move(s: System, caller: nat, to: Caller): System {
    s.(callers := s.callers[caller := to])
  }

  function StepCheck(s: System, caller: nat): System
    requires Enabled(s, Check(caller))
  {
    var (conn, answer) := s.conn.Admit();
    var to := match answer
      case Ready(stream) => Served(stream)
      case Refused => Failed
      case StartConnect(attempt) => Connecting(attempt)
      case WaitForChange => Waiting(s.callers[caller].ticket)
      case Reconnecting => Failed;
    Move(s, caller, to).(conn := conn)
  }

  /** Installing notifies while the lock is held; otherwise the armed guard has yet to be released. */
  function StepSucceed(s: System, caller: nat, stream: nat): System
    requires Enabled(s, Succeed(caller, stream))
  {
    var (conn, answer) := s.conn.FinishConnect(s.callers[caller].attempt, stream);
    if answer.Installed? then
      Move(s, caller, Served(stream)).(conn := conn, notices := s.notices + 1, settled := true)
    else Move(s, caller, Unwinding)
  }

  function StepFail(s: System, caller: nat): System
    requires Enabled(s, Fail(caller))
  {
    var (conn, again) := s.conn.FailConnect(s.callers[caller].attempt);
    Move(s, caller, Failed).(conn := conn, handoffs := if again then s.handoffs + 1 else s.handoffs,
                             settled := s.settled || again)
  }

  /** The drop of a tracked stream. */
  function StepLose(s: System, stream: nat): System
    requires Enabled(s, Lose(stream))
  {
    var (conn, mattered, again) := s.conn.LoseStream(s.streams[stream].attempt);
    s.(conn := conn, streams := s.streams[stream := s.streams[stream].(open := false)],
       owed := if mattered && !again then s.owed + 1 else s.owed,
       handoffs := if again then s.handoffs + 1 else s.handoffs, settled := s.settled || mattered)
  }

  /** The section in `start_reconnecting`: a task that may not run is aborted before it does anything. */
  function StepRegister(s: System, task: nat): System
    requires Enabled(s, Register(task))
  {
    var (conn, runs) := s.conn.Register(task);
    s.(conn := conn, tasks := s.tasks[task := if runs then Sleeping else Stopped], registrations := s.registrations - 1)
  }

  function StepCancel(s: System, caller: nat): System
    requires Enabled(s, Cancel(caller))
  {
    var left := Move(s, caller, Failed);
    if !Armed(s.callers[caller]) then left
    else
      var (conn, notify) := s.conn.ReleaseGuard();
      left.(conn := conn, owed := if notify then s.owed + 1 else s.owed)
  }

  function StepTaskTurn(s: System, task: nat): System
    requires Enabled(s, TaskTurn(task))
  {
    var (conn, attempt) := s.conn.NextAttempt();
    s.(conn := conn, tasks := s.tasks[task := if attempt.Some? then Dialing(attempt.value) else Stopped])
  }

  function StepTaskSucceed(s: System, task: nat, stream: nat): System
    requires Enabled(s, TaskSucceed(task, stream))
  {
    var (conn, installed) := s.conn.InstallReconnected(s.tasks[task].attempt, stream);
    if installed then
      s.(conn := conn, tasks := s.tasks[task := Stopped], notices := s.notices + 1, settled := true)
    else s.(conn := conn, tasks := s.tasks[task := Sleeping])
  }

  function Next(s: System, step: Step): System {
    if !Enabled(s, step) then s
    else match step
      case Arrive(caller) => Move(s, caller, Checking(s.notices))
      case Check(caller) => StepCheck(s, caller)
      case Wake(caller) => Move(s, caller, Checking(s.notices))
      case Succeed(caller, stream) => StepSucceed(s, caller, stream)
      case Fail(caller) => StepFail(s, caller)
      case Cancel(caller) => StepCancel(s, caller)
      case Dial(attempt) => s.(permits := s.permits + {attempt})
      case Open(stream, attempt) => s.(streams := s.streams[stream := Stream(attempt, true)])
      case Lose(stream) => StepLose(s, stream)
      case TaskTurn(task) => StepTaskTurn(s, task)
      case TaskSucceed(task, stream) => StepTaskSucceed(s, task, stream)
      case TaskFail(task) => s.(tasks := s.tasks[task := Sleeping])
      case TaskStop(task) => s.(tasks := s.tasks[task := Stopped])
      case Notify => s.(notices := s.notices + 1, owed := s.owed - 1)
      case HandOff =>
        s.(notices := s.notices + 1, handoffs := s.handoffs - 1, registrations := s.registrations + 1)
      case Register(task) => StepRegister(s, task)
      case Close => s.(conn := s.conn.Shut(), notices := s.notices + 1)
  }

  function Run(steps: seq<Step>): System {
    if steps == [] then INITIAL else Next(Run(steps[..|steps| - 1]), steps[|steps| - 1])
  }

  /** A caller that still holds an armed guard. */
  predicate Armed(c: Caller) {
    c.Connecting? || c.Unwinding?
  }

  // What every reachable state keeps

  ghost predicate StreamsAgree(s: System) {
    && (forall id | id in s.streams :: s.streams[id].attempt <= s.conn.generation)
    && (forall id | id in s.streams ::
          !s.conn.closed && !s.streams[id].open ==> s.streams[id].attempt < s.conn.generation)
    && (forall a | a in s.permits :: a <= s.conn.generation)
  }

  ghost predicate CallersAgree(s: System) {
    && (forall i | i in s.callers :: s.callers[i].Connecting? ==> s.callers[i].attempt <= s.conn.generation)
    && (forall i | i in s.callers :: s.callers[i].Unwinding? ==> s.settled || s.conn.closed)
    && (forall i, j | i in s.callers && j in s.callers && Armed(s.callers[i]) && Armed(s.callers[j]) :: i == j)
    && (s.conn.phase == InitialConnect ==>
          exists i :: i in s.callers && s.callers[i] == Connecting(s.conn.generation))
    && (!s.conn.closed && s.conn.phase == Idle && s.conn.channel.None? ==>
          forall i | i in s.callers :: !Armed(s.callers[i]))
  }

  predicate Running(s: System, task: nat) {
    task in s.tasks && !s.tasks[task].Stopped?
  }

  /** While the backend is open, only the registered task runs; in backoff it exists or is about to be registered. */
  ghost predicate TasksAgree(s: System) {
    && (forall t | t in s.tasks :: !s.conn.closed && Running(s, t) ==> s.conn.reconnectTask == Some(t))
    && (s.conn.reconnectTask.Some? ==> Running(s, s.conn.reconnectTask.value) && s.settled)
    && (s.conn.phase == Backoff && s.conn.reconnectTask.None? ==> s.handoffs + s.registrations > 0)
    && (s.handoffs + s.registrations > 0 ==> s.settled)
  }

  ghost predicate PhasesAgree(s: System) {
    && s.conn.Valid()
    && (s.conn.phase == InitialConnect ==> !s.settled)
    && (s.conn.phase == Backoff ==> s.settled)
    && (s.conn.phase == Idle && !s.conn.closed && s.conn.channel.None? ==> !s.settled)
    && (s.conn.channel.Some? ==>
          && s.settled
          && s.conn.channel.value in s.streams
          && (s.conn.reconnectTask.None? ==> s.streams[s.conn.channel.value] == Stream(s.conn.generation, true)))
  }

  /** A waiting caller has been notified, or a notification is owed, or the connect it waits for is in flight. */
  ghost predicate NobodyForgotten(s: System) {
    && (forall i | i in s.callers ::
          s.callers[i].Waiting? ==>
            s.callers[i].ticket < s.notices || s.owed + s.handoffs > 0 || s.conn.phase == InitialConnect)
    && (forall i | i in s.callers ::
          s.callers[i].Waiting? || s.callers[i].Checking? ==> s.callers[i].ticket <= s.notices)
  }

  ghost predicate Invariant(s: System) {
    StreamsAgree(s) && CallersAgree(s) && TasksAgree(s) && PhasesAgree(s) && NobodyForgotten(s)
  }

  lemma {:induction false} StepKeeps(s: System, step: Step)
    requires Invariant(s)
    ensures Invariant(Next(s, step))
  {
    hide Invariant;
    if Enabled(s, step) {
      match step
      case Check(caller) => CheckKeeps(s, caller);
      case Succeed(caller, stream) => SucceedKeeps(s, caller, stream);
      case Fail(caller) => FailKeeps(s, caller);
      case Cancel(caller) => if Armed(s.callers[caller]) { ReleaseKeeps(s, caller); } else { CancelKeeps(s, caller); }
      case Close => CloseKeeps(s);
      case Arrive(caller) => QuietKeeps(s, caller);
      case Wake(caller) => QuietKeeps(s, caller);
      case Lose(stream) => LoseKeeps(s, stream);
      case Register(task) => RegisterKeeps(s, task);
      case TaskTurn(task) => TaskTurnKeeps(s, task);
      case TaskSucceed(task, stream) => TaskSucceedKeeps(s, task, stream);
      case TaskFail(_) => TaskRestKeeps(s, step);
      case TaskStop(_) => TaskRestKeeps(s, step);
      case _ => RestKeeps(s, step);
    }
  }

  /** The caller whose initial connect is in flight. */
  lemma InFlight(s: System) returns (i: nat)
    requires Invariant(s) && s.conn.phase == InitialConnect
    ensures i in s.callers && s.callers[i] == Connecting(s.conn.generation)
  {
    i :| i in s.callers && s.callers[i] == Connecting(s.conn.generation);
  }

  lemma {:induction false} QuietKeeps(s: System, caller: nat)
    requires Invariant(s)
    requires caller in s.callers ==> s.callers[caller].Waiting?
    ensures Invariant(Move(s, caller, Checking(s.notices)))
  {
    if s.conn.phase == InitialConnect {
      var i := InFlight(s);
      assert Move(s, caller, Checking(s.notices)).callers[i] == Connecting(s.conn.generation);
    }
  }

  lemma {:induction false} CheckKeeps(s: System, caller: nat)
    requires Invariant(s) && Enabled(s, Check(caller))
    ensures Invariant(StepCheck(s, caller))
  {
    var t := StepCheck(s, caller);
    if s.conn.phase == InitialConnect {
      var i := InFlight(s);
      assert t.callers[i] == Connecting(s.conn.generation);
    } else if t.conn.phase == InitialConnect {
      assert t.callers[caller] == Connecting(t.conn.generation);
    }
  }

  lemma {:induction false} SucceedKeeps(s: System, caller: nat, stream: nat)
    requires Invariant(s) && Enabled(s, Succeed(caller, stream))
    ensures Invariant(StepSucceed(s, caller, stream))
  {
    if s.conn.phase == InitialConnect {
      var i := InFlight(s);
    }
  }

  lemma {:induction false} FailKeeps(s: System, caller: nat)
    requires Invariant(s) && Enabled(s, Fail(caller))
    ensures Invariant(StepFail(s, caller))
  {
    if s.conn.phase == InitialConnect {
      var i := InFlight(s);
    }
  }

  lemma {:induction false} CancelKeeps(s: System, caller: nat)
    requires Invariant(s) && Enabled(s, Cancel(caller)) && !Armed(s.callers[caller])
    ensures Invariant(StepCancel(s, caller))
  {
    if s.conn.phase == InitialConnect {
      var i := InFlight(s);
      assert StepCancel(s, caller).callers[i] == Connecting(s.conn.generation);
    }
  }

  lemma {:induction false} ReleaseKeeps(s: System, caller: nat)
    requires Invariant(s) && Enabled(s, Cancel(caller)) && Armed(s.callers[caller])
    ensures Invariant(StepCancel(s, caller))
  {
  }

  lemma {:induction false} CloseKeeps(s: System)
    requires Invariant(s)
    ensures Invariant(Next(s, Close))
  {
  }

  lemma {:induction false} LoseKeeps(s: System, stream: nat)
    requires Invariant(s) && Enabled(s, Lose(stream))
    ensures Invariant(StepLose(s, stream))
  {
    if s.conn.phase == InitialConnect {
      var i := InFlight(s);
    }
  }

  lemma {:induction false} TaskTurnKeeps(s: System, task: nat)
    requires Invariant(s) && Enabled(s, TaskTurn(task))
    ensures Invariant(StepTaskTurn(s, task))
  {
  }

  lemma {:induction false} TaskSucceedKeeps(s: System, task: nat, stream: nat)
    requires Invariant(s) && Enabled(s, TaskSucceed(task, stream))
    ensures Invariant(StepTaskSucceed(s, task, stream))
  {
  }

  lemma {:induction false} RegisterKeeps(s: System, task: nat)
    requires Invariant(s) && Enabled(s, Register(task))
    ensures Invariant(StepRegister(s, task))
  {
  }

  lemma {:induction false} RestKeeps(s: System, step: Step)
    requires Invariant(s) && Enabled(s, step)
    requires step.Dial? || step.Open? || step.Notify? || step.HandOff?
    ensures Invariant(Next(s, step))
  {
    if s.conn.phase == InitialConnect {
      var i := InFlight(s);
      assert Next(s, step).callers[i] == Connecting(s.conn.generation);
    }
  }

  lemma {:induction false} TaskRestKeeps(s: System, step: Step)
    requires Invariant(s) && Enabled(s, step) && (step.TaskFail? || step.TaskStop?)
    ensures Invariant(Next(s, step))
  {
  }

  // Results over whole runs

  lemma {:induction false} ReachableInvariant(steps: seq<Step>)
    ensures Invariant(Run(steps))
  {
    if steps != [] {
      ReachableInvariant(steps[..|steps| - 1]);
      StepKeeps(Run(steps[..|steps| - 1]), steps[|steps| - 1]);
    }
  }

  /** In every run: an installed channel is live, of the current generation, unless a task is registered beside it. */
  lemma {:induction false} ChannelIsLive(steps: seq<Step>)
    ensures var s := Run(steps);
            s.conn.channel.Some? ==>
              && !s.conn.closed && s.conn.phase == Idle && s.conn.channel.value in s.streams
              && (s.conn.reconnectTask.None? ==> s.streams[s.conn.channel.value] == Stream(s.conn.generation, true))
  {
    ReachableInvariant(steps);
  }

  /**
    * Losing a stream of the current generation removes the channel in that very step, and unless a task is
    * registered one is about to be; losing an older stream, or any stream after close, touches nothing else.
    */
  lemma {:induction false} LossIsExact(steps: seq<Step>, stream: nat)
    requires Enabled(Run(steps), Lose(stream))
    ensures var s, t := Run(steps), Next(Run(steps), Lose(stream));
            if !s.conn.closed && s.streams[stream].attempt == s.conn.generation then
              && t.conn.channel.None? && t.conn.phase == Backoff && t.conn.generation == s.conn.generation + 1
              && t.conn.reconnectTask == s.conn.reconnectTask
              && t.handoffs == s.handoffs + (if s.conn.reconnectTask.None? then 1 else 0)
              && t.owed == s.owed + (if s.conn.reconnectTask.None? then 0 else 1) && !t.streams[stream].open
            else
              t == s.(streams := s.streams[stream := s.streams[stream].(open := false)])
    ensures var s := Run(steps);
            s.conn.channel == Some(stream) && s.conn.reconnectTask.None? ==>
              !s.conn.closed && s.streams[stream].attempt == s.conn.generation
  {
    ReachableInvariant(steps);
  }

  /** At most one caller holds an armed guard, so at most one initial connect is in flight. */
  lemma {:induction false} OneInitialConnect(steps: seq<Step>)
    ensures var s := Run(steps);
            && (forall i, j | i in s.callers && j in s.callers && Armed(s.callers[i]) && Armed(s.callers[j]) :: i == j)
            && (s.conn.phase == InitialConnect <==>
                  && !s.conn.closed && !s.settled
                  && exists i :: IsConnecting(s, i) && s.callers[i].attempt == s.conn.generation)
  {
    ReachableInvariant(steps);
    var s := Run(steps);
    if s.conn.phase == InitialConnect {
      var i := InFlight(s);
      assert IsConnecting(s, i);
    }
  }

  /** In an open backend the tasks that run are the registered one; in backoff there is one, or one is on its way. */
  lemma {:induction false} BackoffHasOneTask(steps: seq<Step>)
    ensures var s := Run(steps);
            && (!s.conn.closed ==> forall t: nat :: Running(s, t) <==> s.conn.reconnectTask == Some(t))
            && (s.conn.phase == Backoff ==>
                  !s.conn.closed && (s.conn.reconnectTask.Some? || s.handoffs + s.registrations > 0))
  {
    ReachableInvariant(steps);
  }

  /** A task on its way arrives: it registers and runs, unless another is registered already. */
  lemma {:induction false} RegistrationStartsTask(steps: seq<Step>, task: nat)
    requires !Run(steps).conn.closed && Run(steps).registrations > 0 && task !in Run(steps).tasks
    ensures var s, t := Run(steps), Next(Run(steps), Register(task));
            && t.conn.reconnectTask == (if s.conn.reconnectTask.Some? then s.conn.reconnectTask else Some(task))
            && Running(t, t.conn.reconnectTask.value)
  {
    ReachableInvariant(steps);
  }

  /** Whoever still waits, un-notified, waits for a connect in flight or for a notification already owed. */
  lemma {:induction false} WaitersAreWoken(steps: seq<Step>, caller: nat)
    ensures var s := Run(steps);
            && caller in s.callers && s.callers[caller].Waiting?
            && s.owed + s.handoffs == 0 && s.conn.phase != InitialConnect
            ==> Enabled(s, Wake(caller))
  {
    ReachableInvariant(steps);
  }

  /** Once in backoff or connected, the backend never runs an initial connect again. */
  lemma {:induction false} InitialConnectNeverRecurs(before: seq<Step>, after: seq<Step>)
    requires Run(before).conn.phase == Backoff || Run(before).conn.channel.Some?
    ensures Run(before + after).conn.phase != InitialConnect
  {
    ReachableInvariant(before);
    SettledStays(before, after);
    ReachableInvariant(before + after);
  }

  lemma {:induction false} SettledStays(before: seq<Step>, after: seq<Step>)
    requires Run(before).settled
    ensures Run(before + after).settled
  {
    if after == [] {
      assert before + after == before;
    } else {
      var front := before + after[..|after| - 1];
      SettledStays(before, after[..|after| - 1]);
      assert before + after == front + [after[|after| - 1]];
      RunStep(front, after[|after| - 1]);
      hide Run;
      StepStaysSettled(Run(front), after[|after| - 1]);
    }
  }

  lemma {:induction false} StepStaysSettled(s: System, step: Step)
    requires s.settled
    ensures Next(s, step).settled
  {
  }

  /** After close no channel is installed and no caller is served that was not served before. */
  lemma {:induction false} ClosedServesNobody(before: seq<Step>, after: seq<Step>, caller: nat)
    requires Run(before).conn.closed
    ensures var s, t := Run(before), Run(before + after);
            && t.conn.closed && t.conn.channel.None? && t.conn.phase == Idle && t.conn.reconnectTask.None?
            && (caller in t.callers && t.callers[caller].Served? ==>
                  caller in s.callers && s.callers[caller] == t.callers[caller])
  {
    if after == [] {
      ReachableInvariant(before);
      assert before + after == before;
    } else {
      var front := before + after[..|after| - 1];
      ClosedServesNobody(before, after[..|after| - 1], caller);
      ReachableInvariant(front);
      assert before + after == front + [after[|after| - 1]];
      RunStep(front, after[|after| - 1]);
      hide Run, Next;
      StepAfterClose(Run(front), after[|after| - 1], caller);
    }
  }

  lemma {:induction false} StepAfterClose(s: System, step: Step, caller: nat)
    requires Invariant(s) && s.conn.closed
    ensures var t := Next(s, step);
            && t.conn == s.conn
            && (caller in t.callers && t.callers[caller].Served? ==>
                  caller in s.callers && s.callers[caller] == t.callers[caller])
  {
    hide StreamsAgree, CallersAgree, TasksAgree, NobodyForgotten;
  }

  // When no task is registered beside an installed channel

  /** What the design wants of a channel: open, idle, no reconnect task, and a live stream of the current generation. */
  predicate AsDesigned(s: System) {
    s.conn.channel.Some? ==>
      && !s.conn.closed && s.conn.phase == Idle && s.conn.reconnectTask.None?
      && s.conn.channel.value in s.streams
      && s.streams[s.conn.channel.value] == Stream(s.conn.generation, true)
  }

  /** A registration that comes so late that a channel is installed already. */
  predicate LateRegistration(s: System, step: Step) {
    step.Register? && Enabled(s, step) && s.conn.channel.Some?
  }

  lemma {:induction false} StepAsDesignedIff(s: System, step: Step)
    requires Invariant(s) && AsDesigned(s)
    ensures AsDesigned(Next(s, step)) <==> !LateRegistration(s, step)
  {
    StepKeeps(s, step);
    hide StreamsAgree, CallersAgree, NobodyForgotten;
    var t := Next(s, step);
    if t.conn.channel.Some? && !LateRegistration(s, step) {
      NoTaskBesideChannel(s, step);
    }
  }

  lemma {:induction false} NoTaskBesideChannel(s: System, step: Step)
    requires Invariant(s) && AsDesigned(s) && !LateRegistration(s, step) && Next(s, step).conn.channel.Some?
    ensures Next(s, step).conn.reconnectTask.None?
  {
    hide StreamsAgree, CallersAgree, NobodyForgotten;
  }

  ghost predicate NoLateRegistration(steps: seq<Step>) {
    forall k :: 0 <= k < |steps| ==> !LateRegistration(Run(steps[..k]), steps[k])
  }

  ghost predicate AlwaysAsDesigned(steps: seq<Step>) {
    forall k :: 0 <= k <= |steps| ==> AsDesigned(Run(steps[..k]))
  }

  /** Every state of a run is as the design wants if and only if no registration in it meets an installed channel. */
  lemma {:induction false} AsDesignedIff(steps: seq<Step>)
    ensures AlwaysAsDesigned(steps) <==> NoLateRegistration(steps)
  {
    hide AsDesigned, LateRegistration, Next, Invariant;
    if steps == [] {
      assert steps[..0] == [];
      assert AsDesigned(INITIAL) by { FreshIsAsDesigned(); }
    } else {
      var n := |steps| - 1;
      var front := steps[..n];
      assert forall k :: 0 <= k <= n ==> front[..k] == steps[..k];
      assert steps[..n + 1] == steps;
      AsDesignedIff(front);
      ReachableInvariant(front);
      if AlwaysAsDesigned(front) {
        assert front[..n] == front && AsDesigned(Run(front));
        StepAsDesignedIff(Run(front), steps[n]);
      } else {
        var k :| 0 <= k <= n && !AsDesigned(Run(front[..k]));
        assert !AsDesigned(Run(steps[..k]));
        var j :| 0 <= j < n && LateRegistration(Run(front[..j]), front[j]);
        assert LateRegistration(Run(steps[..j]), steps[j]);
      }
    }
  }

  lemma {:induction false} FreshIsAsDesigned()
    ensures AsDesigned(INITIAL)
  {
  }

  lemma {:induction false} RunStep(steps: seq<Step>, step: Step)
    ensures Run(steps + [step]) == Next(Run(steps), step)
  {
    assert (steps + [step])[..|steps|] == steps;
  }

  /** The late task registers, takes a turn, and so moves the generation past the channel's stream. */
  lemma {:induction false} LateTaskTurns(s: System, task: nat)
    requires AsDesigned(s) && LateRegistration(s, Register(task))
    ensures var t := Next(Next(s, Register(task)), TaskTurn(task));
            && t.conn == s.conn.(reconnectTask := Some(task), generation := s.conn.generation + 1)
            && t.streams == s.streams
  {
    var s1 := s.(conn := s.conn.(reconnectTask := Some(task)), tasks := s.tasks[task := Sleeping],
                 registrations := s.registrations - 1);
    assert Next(s, Register(task)) == s1;
    assert Next(s1, TaskTurn(task)) == StepTaskTurn(s1, task);
  }

  // Such a meeting happens

  /**
    * A failed connect and the loss of its stream both have to register; the first task connects before the second
    * does.
    */
  function Race(caller: nat, early: nat, late: nat, first: nat): seq<Step> {
    [Arrive(caller), Check(caller), Dial(1), Open(early, 1), Fail(caller), HandOff, Lose(early), HandOff,
     Register(first), TaskTurn(first), Dial(3), Open(late, 3), TaskSucceed(first, late)]
  }

  lemma {:induction false} RunPrefix(steps: seq<Step>, k: nat, s: System)
    requires k < |steps| && Run(steps[..k]) == s
    ensures Run(steps[..k + 1]) == Next(s, steps[k])
  {
    assert steps[..k + 1][..k] == steps[..k];
  }

  // The states that the race passes through

  function Admitted(caller: nat): System {
    INITIAL.(callers := map[caller := Connecting(1)], conn := FRESH.(phase := InitialConnect, generation := 1))
  }

  /** The initial connect has opened a stream. */
  function Opened(caller: nat, early: nat): System {
    Admitted(caller).(permits := {1}, streams := map[early := Stream(1, true)])
  }

  /** The connect has failed and notified. */
  function FailedOnce(caller: nat, early: nat): System {
    System(Connection(None, Backoff, None, false, 1), map[caller := Failed], map[], map[early := Stream(1, true)],
           {1}, 1, 0, 0, 1, true)
  }

  /** Both sections have stored `Backoff` and notified, and neither has registered its task. */
  function Stored(caller: nat, early: nat): System {
    System(Connection(None, Backoff, None, false, 2), map[caller := Failed], map[], map[early := Stream(1, false)],
           {1}, 2, 0, 0, 2, true)
  }

  function Registered(caller: nat, early: nat, first: nat): System {
    System(Connection(None, Backoff, Some(first), false, 2), map[caller := Failed], map[first := Sleeping],
           map[early := Stream(1, false)], {1}, 2, 0, 0, 1, true)
  }

  /** The first task has taken its turn and may dial. */
  function Retrying(caller: nat, early: nat, first: nat): System {
    System(Connection(None, Backoff, Some(first), false, 3), map[caller := Failed], map[first := Dialing(3)],
           map[early := Stream(1, false)], {1, 3}, 2, 0, 0, 1, true)
  }

  /** The first task has connected. */
  function Connected(caller: nat, early: nat, late: nat, first: nat): System {
    System(Connection(Some(late), Idle, None, false, 3), map[caller := Failed], map[first := Stopped],
           map[early := Stream(1, false), late := Stream(3, true)], {1, 3}, 3, 0, 0, 1, true)
  }

  lemma {:induction false} RaceAdmits(caller: nat, steps: seq<Step>)
    requires |steps| >= 2 && steps[0] == Arrive(caller) && steps[1] == Check(caller)
    ensures Run(steps[..2]) == Admitted(caller)
  {
    var s1 := INITIAL.(callers := map[caller := Checking(0)]);
    assert steps[..0] == [] && Run([]) == INITIAL;
    hide Run;
    RunPrefix(steps, 0, INITIAL);
    RunPrefix(steps, 1, s1);
  }

  lemma {:induction false} RaceOpens(caller: nat, early: nat, steps: seq<Step>)
    requires |steps| >= 4 && Run(steps[..2]) == Admitted(caller) && steps[2] == Dial(1) && steps[3] == Open(early, 1)
    ensures Run(steps[..4]) == Opened(caller, early)
  {
    hide Run;
    assert Admitted(caller).callers[caller] == Connecting(1);
    RunPrefix(steps, 2, Admitted(caller));
    RunPrefix(steps, 3, Admitted(caller).(permits := {1}));
  }

  lemma {:induction false} RaceFails(caller: nat, early: nat, steps: seq<Step>)
    requires |steps| >= 6 && Run(steps[..4]) == Opened(caller, early) && steps[4] == Fail(caller) && steps[5] == HandOff
    ensures Run(steps[..6]) == FailedOnce(caller, early)
  {
    hide Run;
    var s0 := Opened(caller, early);
    var s1 := s0.(callers := map[caller := Failed], conn := s0.conn.(phase := Backoff), handoffs := 1, settled := true);
    RunPrefix(steps, 4, s0);
    RunPrefix(steps, 5, s1);
  }

  lemma {:induction false} RaceLoses(caller: nat, early: nat, steps: seq<Step>)
    requires |steps| >= 8 && Run(steps[..6]) == FailedOnce(caller, early) && steps[6] == Lose(early) &&
        steps[7] == HandOff
    ensures Run(steps[..8]) == Stored(caller, early)
  {
    hide Run;
    var s0 := FailedOnce(caller, early);
    var s1 := s0.(conn := Connection(None, Backoff, None, false, 2), streams := map[early := Stream(1, false)],
                  handoffs := 1);
    RunPrefix(steps, 6, s0);
    RunPrefix(steps, 7, s1);
  }

  lemma {:induction false} RaceRegisters(caller: nat, early: nat, first: nat, steps: seq<Step>)
    requires |steps| >= 9 && Run(steps[..8]) == Stored(caller, early) && steps[8] == Register(first)
    ensures Run(steps[..9]) == Registered(caller, early, first)
  {
    hide Run;
    RunPrefix(steps, 8, Stored(caller, early));
  }

  lemma {:induction false} RaceRetries(caller: nat, early: nat, first: nat, steps: seq<Step>)
    requires |steps| >= 11 && Run(steps[..9]) == Registered(caller, early, first)
    requires steps[9] == TaskTurn(first) && steps[10] == Dial(3)
    ensures Run(steps[..11]) == Retrying(caller, early, first)
  {
    hide Run;
    var s0 := Registered(caller, early, first);
    var s1 := s0.(tasks := map[first := Dialing(3)], conn := s0.conn.(generation := 3));
    assert s1.tasks[first] == Dialing(3);
    RunPrefix(steps, 9, s0);
    RunPrefix(steps, 10, s1);
  }

  lemma {:induction false} RaceConnects(caller: nat, early: nat, late: nat, first: nat, steps: seq<Step>)
    requires early != late && |steps| >= 13 && Run(steps[..11]) == Retrying(caller, early, first)
    requires steps[11] == Open(late, 3) && steps[12] == TaskSucceed(first, late)
    ensures Run(steps[..13]) == Connected(caller, early, late, first)
  {
    hide Run;
    var s0 := Retrying(caller, early, first);
    var s1 := s0.(streams := map[early := Stream(1, false), late := Stream(3, true)]);
    RunPrefix(steps, 11, s0);
    RunPrefix(steps, 12, s1);
  }

  lemma {:induction false} RaceRuns(caller: nat, early: nat, late: nat, first: nat, steps: seq<Step>)
    requires early != late && |steps| == 13
    requires steps[0] == Arrive(caller) && steps[1] == Check(caller) && steps[2] == Dial(1) &&
        steps[3] == Open(early, 1)
    requires steps[4] == Fail(caller) && steps[5] == HandOff && steps[6] == Lose(early) && steps[7] == HandOff
    requires steps[8] == Register(first) && steps[9] == TaskTurn(first) && steps[10] == Dial(3)
    requires steps[11] == Open(late, 3) && steps[12] == TaskSucceed(first, late)
    ensures Run(steps) == Connected(caller, early, late, first)
  {
    hide Run, Admitted, Opened, FailedOnce, Stored, Registered, Retrying, Connected;
    RaceAdmits(caller, steps);
    RaceOpens(caller, early, steps);
    RaceFails(caller, early, steps);
    RaceLoses(caller, early, steps);
    RaceRegisters(caller, early, first, steps);
    RaceRetries(caller, early, first, steps);
    RaceConnects(caller, early, late, first, steps);
    assert steps[..13] == steps;
  }

  /** The race reaches a good state in which the second registration is still to come and meets the channel. */
  lemma {:induction false} LateRegistrationHappens(caller: nat, early: nat, late: nat, first: nat, second: nat)
    requires early != late && first != second
    ensures var s := Run(Race(caller, early, late, first)); AsDesigned(s) && LateRegistration(s, Register(second))
  {
    hide Run, Connected, AsDesigned, LateRegistration;
    RaceRuns(caller, early, late, first, Race(caller, early, late, first));
    MeetsConnected(caller, early, late, first, second);
  }

  lemma {:induction false} MeetsConnected(caller: nat, early: nat, late: nat, first: nat, second: nat)
    requires early != late && first != second
    ensures var s := Connected(caller, early, late, first); AsDesigned(s) && LateRegistration(s, Register(second))
  {
  }
}
