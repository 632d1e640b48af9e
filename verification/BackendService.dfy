/** What callers of a backend get, over every interleaving. */
module BackendService {
  import opened Wrappers
  import opened BackendConnection
  import opened BackendProtocol
  import opened BackendRecovery

  /**
    * A caller that looks is handed the installed channel if there is one. Without one it fails exactly if the backend
    * is closed or reconnecting, waits exactly if a connect is in flight, and otherwise connects, alone, under a new
    * generation. Nobody else is touched.
    */
  lemma {:induction false} CheckAnswers(steps: seq<Step>, caller: nat)
    requires Enabled(Run(steps), Check(caller))
    ensures var s, t := Run(steps), Next(Run(steps), Check(caller));
            var got := t.callers[caller];
            && (forall x: nat :: got == Served(x) <==> s.conn.channel == Some(x))
            && (got == Failed <==> s.conn.channel.None? && (s.conn.closed || s.conn.phase == Backoff))
            && (got.Waiting? <==> s.conn.channel.None? && s.conn.phase == InitialConnect)
            && (got.Waiting? ==> got.ticket == s.callers[caller].ticket)
            && (Enabled(t, Wake(caller)) <==> got.Waiting? && s.callers[caller].ticket != s.notices)
            && (got.Connecting? <==> s.conn.channel.None? && !s.conn.closed && s.conn.phase == Idle)
            && (got.Connecting? ==> got.attempt == t.conn.generation == s.conn.generation + 1)
            && t.callers == s.callers[caller := got] && t.tasks == s.tasks && t.streams == s.streams
  {
    ReachableInvariant(steps);
    hide Run, StreamsAgree, CallersAgree, TasksAgree;
    assert Next(Run(steps), Check(caller)) == StepCheck(Run(steps), caller);
  }

  /**
    * A caller whose connect came back is served its own stream exactly if its attempt is still the one in flight, and
    * then the stream is installed for everybody; otherwise it has only to give its guard back.
    */
  lemma {:induction false} SuccessAnswers(steps: seq<Step>, caller: nat, stream: nat)
    requires Enabled(Run(steps), Succeed(caller, stream))
    ensures var s, t := Run(steps), Next(Run(steps), Succeed(caller, stream));
            if !s.conn.closed && s.conn.phase == InitialConnect && s.conn.generation == s.callers[caller].attempt then
              t.callers[caller] == Served(stream) && t.conn.channel == Some(stream) && t.notices == s.notices + 1
            else
              t.callers[caller] == Unwinding && t.conn == s.conn
  {
    hide Run;
    assert Next(Run(steps), Succeed(caller, stream)) == StepSucceed(Run(steps), caller, stream);
  }

  /** Whoever is served was served a channel that was installed at the time. */
  lemma {:induction false} ServedWasInstalled(steps: seq<Step>, caller: nat) returns (k: nat)
    requires caller in Run(steps).callers && Run(steps).callers[caller].Served?
    ensures k <= |steps| && Run(steps[..k]).conn.channel == Some(Run(steps).callers[caller].stream)
  {
    var n := |steps| - 1;
    var front := steps[..n];
    if caller in Run(front).callers && Run(front).callers[caller] == Run(steps).callers[caller] {
      k := ServedWasInstalled(front, caller);
      assert front[..k] == steps[..k];
    } else {
      ReachableInvariant(front);
      NewlyServed(Run(front), steps[n], caller);
      k := if steps[n].Check? then n else n + 1;
      assert steps[..n + 1] == steps;
    }
  }

  lemma {:induction false} NewlyServed(s: System, step: Step, caller: nat)
    requires caller in Next(s, step).callers && Next(s, step).callers[caller].Served?
    requires !(caller in s.callers && s.callers[caller] == Next(s, step).callers[caller])
    ensures step.Check? ==> s.conn.channel == Some(Next(s, step).callers[caller].stream)
    ensures !step.Check? ==> Next(s, step).conn.channel == Some(Next(s, step).callers[caller].stream)
  {
  }

  /** An answer is final: whoever was served keeps its channel, and whoever failed has failed. */
  lemma {:induction false} AnswersAreFinal(before: seq<Step>, after: seq<Step>, caller: nat)
    requires caller in Run(before).callers
    requires Run(before).callers[caller].Served? || Run(before).callers[caller].Failed?
    ensures caller in Run(before + after).callers && Run(before + after).callers[caller] == Run(before).callers[caller]
  {
    if after == [] {
      assert before + after == before;
    } else {
      var front := before + after[..|after| - 1];
      AnswersAreFinal(before, after[..|after| - 1], caller);
      assert before + after == front + [after[|after| - 1]];
      RunStep(front, after[|after| - 1]);
      hide Run;
      AnswerStays(Run(front), after[|after| - 1], caller);
    }
  }

  lemma {:induction false} AnswerStays(s: System, step: Step, caller: nat)
    requires caller in s.callers && (s.callers[caller].Served? || s.callers[caller].Failed?)
    ensures caller in Next(s, step).callers && Next(s, step).callers[caller] == s.callers[caller]
  {
  }

  /** A caller that gives up fails, and if it was connecting, the connect is over. */
  lemma {:induction false} CancelEnds(steps: seq<Step>, caller: nat)
    requires Enabled(Run(steps), Cancel(caller))
    ensures var s, t := Run(steps), Next(Run(steps), Cancel(caller));
            && t.callers == s.callers[caller := Failed]
            && (Armed(s.callers[caller]) ==> t.conn.phase != InitialConnect)
            && (t.conn != s.conn ==>
                  Armed(s.callers[caller]) && t.conn == s.conn.(phase := Idle) && t.owed == s.owed + 1)
  {
    hide Run;
    assert Next(Run(steps), Cancel(caller)) == StepCancel(Run(steps), caller);
  }

  /** A caller whose connect failed fails, and starts the reconnecting exactly if its attempt was still in flight. */
  lemma {:induction false} FailureAnswers(steps: seq<Step>, caller: nat)
    requires Enabled(Run(steps), Fail(caller))
    ensures var s, t := Run(steps), Next(Run(steps), Fail(caller));
            && t.callers == s.callers[caller := Failed]
            && if !s.conn.closed && s.conn.phase == InitialConnect
                  && s.conn.generation == s.callers[caller].attempt then
                 t.conn == s.conn.(phase := Backoff) && t.handoffs == s.handoffs + 1
               else t.conn == s.conn && t.handoffs == s.handoffs
  {
    hide Run;
    assert Next(Run(steps), Fail(caller)) == StepFail(Run(steps), caller);
  }

  /**
    * A reconnect task dials under a new generation until the backend is closed. It installs its stream, and ends,
    * exactly if no later attempt was made in an open backend; otherwise, and after a failure, it goes back to sleep.
    */
  lemma {:induction false} TaskAnswers(steps: seq<Step>, task: nat, stream: nat)
    requires task in Run(steps).tasks
    ensures var s := Run(steps);
            var turned, lost := Next(s, TaskTurn(task)), Next(s, TaskFail(task));
            var won := Next(s, TaskSucceed(task, stream));
            && (s.conn.closed ==> Next(s, TaskStop(task)).tasks == s.tasks[task := Stopped])
            && match s.tasks[task]
            case Sleeping =>
              if s.conn.closed then turned.tasks[task] == Stopped && turned.conn == s.conn
              else turned.tasks[task] == Dialing(s.conn.generation + 1)
                   && turned.conn == s.conn.(generation := s.conn.generation + 1)
            case Dialing(attempt) =>
              && lost == s.(tasks := s.tasks[task := Sleeping])
              && (stream in s.streams && s.streams[stream].attempt == attempt ==>
                    if !s.conn.closed && s.conn.generation == attempt then
                      && won.tasks[task] == Stopped && won.conn.channel == Some(stream) && won.conn.phase == Idle
                      && won.conn.reconnectTask.None? && won.notices == s.notices + 1
                    else won.tasks[task] == Sleeping && won.conn.channel == s.conn.channel && won.notices == s.notices)
            case Stopped => turned == won == lost == s
  {
    hide Run;
  }

  // Every caller is answered

  predicate HasAnswer(s: System, caller: nat) {
    caller in s.callers && (s.callers[caller].Served? || s.callers[caller].Failed?)
  }

  /** Steps without a close, and in which only a caller whose connect is over gives its guard back. */
  predicate Ordinary(s: System, after: seq<Step>)
    decreases |after|
  {
    after == [] || (
      && after[0] != Close
      && (after[0].Cancel? ==> after[0].caller in s.callers && s.callers[after[0].caller].Unwinding?)
      && Ordinary(Next(s, after[0]), after[1..]))
  }

  /** Ordinary steps lead from this state to an answer for the caller. */
  ghost predicate Answerable(s: System, caller: nat) {
    exists after :: Ordinary(s, after) && HasAnswer(Continue(s, after), caller)
  }

  lemma {:induction false} AnsweredNow(s: System, caller: nat)
    requires HasAnswer(s, caller)
    ensures Answerable(s, caller)
  {
    var none: seq<Step> := [];
    assert Ordinary(s, none) && Continue(s, none) == s;
  }

  lemma {:induction false} AnsweredAfter(s: System, step: Step, caller: nat)
    requires step != Close && (step.Cancel? ==> step.caller in s.callers && s.callers[step.caller].Unwinding?)
    requires Answerable(Next(s, step), caller)
    ensures Answerable(s, caller)
  {
    hide Next, HasAnswer;
    var after :| Ordinary(Next(s, step), after) && HasAnswer(Continue(Next(s, step), after), caller);
    var all := [step] + after;
    assert all[1..] == after && all[0] == step;
    assert Ordinary(s, all) && Continue(s, all) == Continue(Next(s, step), after);
  }

  lemma {:induction false} ConnectingIsAnswered(s: System, caller: nat)
    requires caller in s.callers && Armed(s.callers[caller])
    ensures Answerable(s, caller)
  {
    var step := if s.callers[caller].Unwinding? then Cancel(caller) else Fail(caller);
    assert HasAnswer(Next(s, step), caller);
    hide Next;
    AnsweredNow(Next(s, step), caller);
    AnsweredAfter(s, step, caller);
  }

  /** A caller that looks while no connect is in flight is answered, or connects itself. */
  lemma {:induction false} LookingIsAnswered(s: System, caller: nat)
    requires caller in s.callers && s.callers[caller].Checking? && s.conn.phase != InitialConnect
    ensures Answerable(s, caller)
  {
    var t := Next(s, Check(caller));
    assert HasAnswer(t, caller) || (caller in t.callers && Armed(t.callers[caller]));
    hide Next;
    if HasAnswer(t, caller) { AnsweredNow(t, caller); } else { ConnectingIsAnswered(t, caller); }
    AnsweredAfter(s, Check(caller), caller);
  }

  lemma {:induction false} NotifiedIsAnswered(s: System, caller: nat)
    requires caller in s.callers && s.callers[caller].Waiting? && s.callers[caller].ticket < s.notices
    requires s.conn.phase != InitialConnect
    ensures Answerable(s, caller)
  {
    var t := Next(s, Wake(caller));
    assert caller in t.callers && t.callers[caller].Checking? && t.conn == s.conn;
    hide Next;
    LookingIsAnswered(t, caller);
    AnsweredAfter(s, Wake(caller), caller);
  }

  lemma {:induction false} WaitingIsAnswered(s: System, caller: nat)
    requires NobodyForgotten(s) && caller in s.callers && s.callers[caller].Waiting? && s.conn.phase != InitialConnect
    ensures Answerable(s, caller)
  {
    if s.callers[caller].ticket < s.notices {
      NotifiedIsAnswered(s, caller);
    } else {
      var step := if s.owed > 0 then Notify else HandOff;
      var t := Next(s, step);
      assert t.callers == s.callers && t.conn == s.conn && t.notices == s.notices + 1;
      hide Next;
      NotifiedIsAnswered(t, caller);
      AnsweredAfter(s, step, caller);
    }
  }

  /** In every run every caller can still be answered, without a close, by what the others do anyway. */
  lemma {:induction false} CallersAreAnswered(steps: seq<Step>, caller: nat)
    requires caller in Run(steps).callers
    ensures Answerable(Run(steps), caller)
  {
    var s := Run(steps);
    ReachableInvariant(steps);
    hide Answerable;
    if HasAnswer(s, caller) {
      AnsweredNow(s, caller);
    } else if Armed(s.callers[caller]) {
      ConnectingIsAnswered(s, caller);
    } else if s.conn.phase != InitialConnect {
      if s.callers[caller].Checking? { LookingIsAnswered(s, caller); } else { WaitingIsAnswered(s, caller); }
    } else {
      var i := InFlight(s);
      RunStep(steps, Fail(i));
      ReachableInvariant(steps + [Fail(i)]);
      FailureAnswers(steps, i);
      var t := Next(s, Fail(i));
      hide Next, Run;
      assert t.conn.phase == Backoff && t.callers[caller] == s.callers[caller];
      if s.callers[caller].Checking? { LookingIsAnswered(t, caller); } else { WaitingIsAnswered(t, caller); }
      AnsweredAfter(s, Fail(i), caller);
    }
  }

  /** Every debt is paid once: that many notifications, or hand-offs, and none is left. */
  lemma {:induction false} NotificationsArePaid(s: System)
    ensures Continue(s, seq(s.owed, _ => Notify)) == s.(notices := s.notices + s.owed, owed := 0)
    decreases s.owed
  {
    if s.owed > 0 {
      var t := s.(notices := s.notices + 1, owed := s.owed - 1);
      assert Next(s, Notify) == t;
      hide Next;
      NotificationsArePaid(t);
      assert seq(s.owed, _ => Notify)[1..] == seq(t.owed, _ => Notify);
    }
  }

  lemma {:induction false} HandOffsArePaid(s: System)
    ensures Continue(s, seq(s.handoffs, _ => HandOff))
            == s.(notices := s.notices + s.handoffs, handoffs := 0, registrations := s.registrations + s.handoffs)
    decreases s.handoffs
  {
    if s.handoffs > 0 {
      var t :=
        s.(notices := s.notices + 1, handoffs := s.handoffs - 1, registrations := s.registrations + 1);
      assert Next(s, HandOff) == t;
      hide Next;
      HandOffsArePaid(t);
      assert seq(s.handoffs, _ => HandOff)[1..] == seq(t.handoffs, _ => HandOff);
    }
  }

  /** Close takes effect at once and for good: nothing is installed, and everybody who waits is notified. */
  lemma {:induction false} CloseCloses(before: seq<Step>, after: seq<Step>)
    ensures var s := Run(before + [Close] + after);
            s.conn.closed && s.conn.channel.None? && s.conn.reconnectTask.None? && s.notices > Run(before).notices
    decreases |after|
  {
    hide Invariant;
    if after == [] {
      RunStep(before, Close);
      assert before + [Close] + after == before + [Close];
      CloseNow(Run(before));
    } else {
      var front, last := before + [Close] + after[..|after| - 1], after[|after| - 1];
      CloseCloses(before, after[..|after| - 1]);
      RunStep(front, last);
      assert before + [Close] + after == front + [last];
      ReachableInvariant(front + [last]);
      hide Run;
      ClosedStays(Run(front), last);
    }
  }

  lemma {:induction false} CloseNow(s: System)
    ensures var t := Next(s, Close);
            t.conn.closed && t.conn.channel.None? && t.conn.reconnectTask.None? && t.notices == s.notices + 1
  {
  }

  lemma {:induction false} ClosedStays(s: System, step: Step)
    requires s.conn.closed && Invariant(Next(s, step))
    ensures var t := Next(s, step);
            t.conn.closed && t.conn.channel.None? && t.conn.reconnectTask.None? && t.notices >= s.notices
  {
    hide StreamsAgree, CallersAgree, TasksAgree, NobodyForgotten;
  }
}
