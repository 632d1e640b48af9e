/** The connection state of one remote backend: each critical section as a value and as an update in place. */
module BackendConnection {
  import opened Wrappers

  datatype Phase = Idle | InitialConnect | Backoff

  datatype Admission = Ready(channel: nat) | Refused | StartConnect(generation: nat) | WaitForChange | Reconnecting

  datatype Finish = Installed | ClosedMeanwhile | Superseded

  /** What the connection lock guards. A channel is named by the stream that carries it. */
  datatype Connection = Connection(
    channel: Option<nat>, phase: Phase, reconnectTask: Option<nat>, closed: bool, generation: nat) {

    /** What every critical section keeps on its own: a channel means idle, and a closed backend holds nothing. */
    predicate Valid() {
      && (channel.Some? ==> phase == Idle)
      && (closed ==> channel.None? && phase == Idle && reconnectTask.None?)
    }

    /** A caller looks at the state, and opens the initial connect if nobody has. */
    function Admit(): (Connection, Admission) {
      if channel.Some? then (this, Ready(channel.value))
      else if closed then (this, Refused)
      else match phase
        case Idle => (this.(phase := InitialConnect, generation := generation + 1), StartConnect(generation + 1))
        case InitialConnect => (this, WaitForChange)
        case Backoff => (this, Reconnecting)
    }

    /** Whether the connector may still dial for this attempt. */
    predicate MayDial(attempt: nat) {
      generation == attempt && channel.None? && !closed
    }

    /** The initial connect came back with a channel. */
    function FinishConnect(attempt: nat, stream: nat): (Connection, Finish) {
      if closed then (this, ClosedMeanwhile)
      else if generation != attempt || phase != InitialConnect then (this, Superseded)
      else (this.(phase := Idle, channel := Some(stream)), Installed)
    }

    /** The initial connect failed; the answer tells whether the caller must start reconnecting. */
    function FailConnect(attempt: nat): (Connection, bool) {
      if !closed && generation == attempt && phase == InitialConnect then (this.(phase := Backoff), true)
      else (this, false)
    }

    /** The guard of an initial connect that did not run to its end; the answer tells whether to notify. */
    function ReleaseGuard(): (Connection, bool) {
      if phase == InitialConnect then (this.(phase := Idle), true) else (this, false)
    }

    /** Registering a freshly spawned reconnect task; the answer tells whether it may run. */
    function Register(task: nat): (Connection, bool) {
      if closed then (this.(phase := Idle), false)
      else if reconnectTask.None? then (this.(reconnectTask := Some(task)), true)
      else (this, false)
    }

    /** The reconnect task takes a new generation, unless the backend was closed. */
    function NextAttempt(): (Connection, Option<nat>) {
      if closed then (this, None) else (this.(generation := generation + 1), Some(generation + 1))
    }

    /** The reconnect task came back with a channel; the answer tells whether it installed it and ends. */
    function InstallReconnected(attempt: nat, stream: nat): (Connection, bool) {
      if closed then (this.(reconnectTask := None), false)
      else if generation == attempt then
        (this.(channel := Some(stream), phase := Idle, reconnectTask := None), true)
      else (this, false)
    }

    /** A stream of this attempt went away; the answers tell whether it mattered and whether a task must start. */
    function LoseStream(attempt: nat): (Connection, bool, bool) {
      if closed || generation != attempt then (this, false, false)
      else (this.(generation := generation + 1, phase := Backoff, channel := None), true, reconnectTask.None?)
    }

    function Shut(): Connection {
      this.(closed := true, channel := None, phase := Idle, reconnectTask := None)
    }
  }

  const FRESH := Connection(None, Idle, None, false, 0)

  /** The lock-guarded fields as the program holds them. */
  class ConnectionState {
    var channel: Option<nat>
    var phase: Phase
    var reconnectTask: Option<nat>
    var closed: bool
    var generation: nat

    ghost function View(): Connection
      reads this
    {
      Connection(channel, phase, reconnectTask, closed, generation)
    }

    constructor ()
      ensures View() == FRESH && View().Valid()
    {
      channel, phase, reconnectTask, closed, generation := None, Idle, None, false, 0;
    }

    /**
      * Who is served gets the installed channel; who starts the initial connect does so alone, since everyone
      * after it waits, and under a generation that no earlier attempt has; all others leave the state alone.
      */
    method Admit() returns (answer: Admission)
      requires View().Valid()
      modifies `phase, `generation
      ensures View().Valid()
      ensures answer.Ready? ==> channel == Some(answer.channel)
      ensures answer == Refused <==> closed
      ensures answer.StartConnect? ==>
                && answer.generation == generation > old(generation) && phase == InitialConnect
                && View().Admit().1 == WaitForChange && View().MayDial(generation)
      ensures !answer.StartConnect? ==> unchanged(this)
      ensures (View(), answer) == old(View()).Admit()
      ensures View() == Apply(old(View()), Admitting)
    {
      if channel.Some? {
        return Ready(channel.value);
      }
      if closed {
        return Refused;
      }
      match phase {
        case Idle =>
          phase := InitialConnect;
          generation := generation + 1;
          answer := StartConnect(generation);
        case InitialConnect =>
          answer := WaitForChange;
        case Backoff =>
          answer := Reconnecting;
      }
    }

    /** An installed channel is what the next caller gets; a closed or superseded attempt leaves no trace. */
    method FinishConnect(attempt: nat, stream: nat) returns (answer: Finish)
      requires View().Valid()
      modifies `phase, `channel
      ensures View().Valid()
      ensures answer == Installed <==> !closed && generation == attempt && old(phase) == InitialConnect
      ensures answer == Installed ==> View().Admit().1 == Ready(stream) && !View().MayDial(attempt)
      ensures answer != Installed ==> unchanged(this)
      ensures (View(), answer) == old(View()).FinishConnect(attempt, stream)
      ensures View() == Apply(old(View()), Finishing(attempt, stream))
    {
      if closed {
        return ClosedMeanwhile;
      }
      if generation != attempt || phase != InitialConnect {
        return Superseded;
      }
      phase := Idle;
      channel := Some(stream);
      answer := Installed;
    }

    /** A failed attempt that is still current sends callers away until a task reconnects; any other changes nothing. */
    method FailConnect(attempt: nat) returns (shouldReconnect: bool)
      requires View().Valid()
      modifies `phase
      ensures View().Valid()
      ensures shouldReconnect ==> generation == attempt && View().Admit().1 == Reconnecting
      ensures !shouldReconnect ==> unchanged(this)
      ensures (View(), shouldReconnect) == old(View()).FailConnect(attempt)
      ensures View() == Apply(old(View()), Failing(attempt))
    {
      shouldReconnect := !closed && generation == attempt && phase == InitialConnect;
      if shouldReconnect {
        phase := Backoff;
      }
    }

    /** After the release nobody is left waiting for this connect: the next caller starts one of its own. */
    method ReleaseGuard() returns (notify: bool)
      requires View().Valid()
      modifies `phase
      ensures View().Valid() && phase != InitialConnect
      ensures notify ==> View().Admit().1 == StartConnect(generation + 1)
      ensures !notify ==> unchanged(this)
      ensures (View(), notify) == old(View()).ReleaseGuard()
      ensures View() == Apply(old(View()), Releasing)
    {
      notify := phase == InitialConnect;
      if notify {
        phase := Idle;
      }
    }

    /** A task runs exactly if it becomes the one registered; a registered task is never replaced. */
    method Register(task: nat) returns (runs: bool)
      requires View().Valid()
      modifies `phase, `reconnectTask
      ensures View().Valid()
      ensures old(reconnectTask).Some? ==> !runs && reconnectTask == old(reconnectTask)
      ensures old(reconnectTask).None? ==> (runs <==> reconnectTask == Some(task)) && (runs <==> !closed)
      ensures phase == old(phase)
      ensures (View(), runs) == old(View()).Register(task)
      ensures View() == Apply(old(View()), Registering(task))
    {
      runs := false;
      if closed {
        phase := Idle;
      } else if reconnectTask.None? {
        reconnectTask := Some(task);
        runs := true;
      }
    }

    /** The new attempt supersedes all earlier ones: none of them can change the state any more. */
    method NextAttempt() returns (attempt: Option<nat>)
      requires View().Valid()
      modifies `generation
      ensures View().Valid() && (attempt.None? <==> closed)
      ensures attempt.Some? ==> attempt.value == generation > old(generation)
      ensures attempt.None? ==> unchanged(this)
      ensures (View(), attempt) == old(View()).NextAttempt()
      ensures View() == Apply(old(View()), Attempting)
    {
      if closed {
        return None;
      }
      generation := generation + 1;
      attempt := Some(generation);
    }

    /** Only the current attempt of an open backend installs; then no task is registered and callers are served. */
    method InstallReconnected(attempt: nat, stream: nat) returns (installed: bool)
      requires View().Valid()
      modifies `channel, `phase, `reconnectTask
      ensures View().Valid()
      ensures installed <==> !closed && generation == attempt
      ensures installed ==> reconnectTask.None? && View().Admit().1 == Ready(stream)
      ensures !installed ==> unchanged(this)
      ensures (View(), installed) == old(View()).InstallReconnected(attempt, stream)
      ensures View() == Apply(old(View()), Installing(attempt, stream))
    {
      installed := false;
      if closed {
        reconnectTask := None;
      } else if generation == attempt {
        channel := Some(stream);
        phase := Idle;
        reconnectTask := None;
        installed := true;
      }
    }

    /** A loss that matters takes the channel away and supersedes its own attempt, so a second one does not matter. */
    method LoseStream(attempt: nat) returns (mattered: bool, shouldReconnect: bool)
      requires View().Valid()
      modifies `generation, `phase, `channel
      ensures View().Valid()
      ensures mattered <==> !closed && old(generation) == attempt
      ensures mattered ==>
                && channel.None? && generation > attempt && !View().LoseStream(attempt).1
                && View().Admit().1 == Reconnecting && (shouldReconnect <==> reconnectTask.None?)
      ensures !mattered ==> !shouldReconnect && unchanged(this)
      ensures (View(), mattered, shouldReconnect) == old(View()).LoseStream(attempt)
      ensures View() == Apply(old(View()), Losing(attempt))
    {
      if closed || generation != attempt {
        return false, false;
      }
      generation := generation + 1;
      phase := Backoff;
      channel := None;
      mattered, shouldReconnect := true, reconnectTask.None?;
    }

    /** Afterwards callers are refused, and no section changes the state again. */
    method Shut()
      requires View().Valid()
      modifies `closed, `channel, `phase, `reconnectTask
      ensures View().Valid() && closed && View().Admit().1 == Refused
      ensures forall section: Section :: Apply(View(), section) == View()
      ensures View() == old(View()).Shut()
      ensures View() == Apply(old(View()), Shutting)
    {
      closed := true;
      channel := None;
      phase := Idle;
      reconnectTask := None;
      forall section: Section ensures Apply(View(), section) == View() { ClosedIsFinal(View(), section); }
    }
  }

  // All sections at once

  datatype Section =
    | Admitting
    | Finishing(attempt: nat, stream: nat)
    | Failing(attempt: nat)
    | Releasing
    | Registering(task: nat)
    | Attempting
    | Installing(attempt: nat, stream: nat)
    | Losing(attempt: nat)
    | Shutting

  function Apply(c: Connection, section: Section): Connection {
    match section
    case Admitting => c.Admit().0
    case Finishing(attempt, stream) => c.FinishConnect(attempt, stream).0
    case Failing(attempt) => c.FailConnect(attempt).0
    case Releasing => c.ReleaseGuard().0
    case Registering(task) => c.Register(task).0
    case Attempting => c.NextAttempt().0
    case Installing(attempt, stream) => c.InstallReconnected(attempt, stream).0
    case Losing(attempt) => c.LoseStream(attempt).0
    case Shutting => c.Shut()
  }

  function ApplyAll(c: Connection, sections: seq<Section>): Connection {
    if sections == [] then c else Apply(ApplyAll(c, sections[..|sections| - 1]), sections[|sections| - 1])
  }

  lemma {:induction false} ClosedIsFinal(c: Connection, section: Section)
    requires c.Valid() && c.closed
    ensures Apply(c, section) == c
  {
  }

  lemma {:induction false} SectionKeeps(c: Connection, section: Section)
    requires c.Valid()
    ensures Apply(c, section).Valid() && Apply(c, section).generation >= c.generation
    ensures c.closed ==> Apply(c, section).closed
  {
  }

  /** In any order, the sections keep the state consistent, never take a generation back, and never reopen. */
  lemma {:induction false} SectionsKeep(c: Connection, sections: seq<Section>)
    requires c.Valid()
    ensures var d := ApplyAll(c, sections);
            d.Valid() && d.generation >= c.generation && (c.closed ==> d == c)
  {
    if sections != [] {
      SectionsKeep(c, sections[..|sections| - 1]);
      SectionKeeps(ApplyAll(c, sections[..|sections| - 1]), sections[|sections| - 1]);
      if c.closed { ClosedIsFinal(c, sections[|sections| - 1]); }
    }
  }

  /**
    * Supersession: once a newer attempt or a loss has moved the generation on, whatever else happens, the older
    * attempt can neither dial, install, fail into backoff nor take a channel away.
    */
  lemma {:induction false} SupersededForGood(c: Connection, sections: seq<Section>, attempt: nat, stream: nat)
    requires c.Valid() && attempt < c.generation
    ensures var d := ApplyAll(c, sections);
            && !d.MayDial(attempt) && d.FinishConnect(attempt, stream).0 == d && d.FailConnect(attempt) == (d, false)
            && d.InstallReconnected(attempt, stream) == (d, false) && d.LoseStream(attempt) == (d, false, false)
  {
    SectionsKeep(c, sections);
  }
}
