/** Fanning one request out to many backends and merging what they answer. */
module Broadcast {
  import opened Wrappers
  import opened ByteStrings
  import opened Payload

  type Metadata = seq<nat>

  /** Who a backend answers for: its metadata bytes and those of an error, unless they cannot be encoded. */
  datatype Machine = Anonymous | Known(metadata: Bytes, errorMetadata: Bytes) | Unencodable

  datatype Ending = Completed(trailers: Option<Metadata>) | Broken

  /** How the exchange with one backend goes: no response at all, or messages and an ending. */
  datatype Conversation = Refused | Streamed(metadata: Metadata, messages: seq<Bytes>, ending: Ending)

  datatype BackendEvent =
    | InitialMetadata(metadata: Metadata)
    | Chunk(payload: Bytes)
    | Trailers(metadata: Metadata)
    | Fatal
    | Finished

  function AppendInfo(machine: Machine, message: Bytes): Result<Bytes, PayloadError> {
    match machine
    case Anonymous => Ok(message)
    case Known(metadata, _) => Rewritten(metadata, message)
    case Unencodable => Err(InvalidMetadata)
  }

  /** A failing backend adds one error envelope, if it can be built, and is fatal otherwise. */
  function FailureEvents(machine: Machine): seq<BackendEvent> {
    match machine
    case Known(_, errorMetadata) => [Chunk(Envelope(errorMetadata)), Finished]
    case _ => [Fatal, Finished]
  }

  function MessageEvents(machine: Machine, messages: seq<Bytes>, ending: Ending): seq<BackendEvent> {
    if messages == [] then
      match ending
      case Completed(trailers) => (if trailers.Some? then [Trailers(trailers.value)] else []) + [Finished]
      case Broken => FailureEvents(machine)
    else
      match AppendInfo(machine, messages[0])
      case Err(_) => [Fatal, Finished]
      case Ok(payload) => [Chunk(payload)] + MessageEvents(machine, messages[1..], ending)
  }

  /** Everything that one backend sends to the event loop, in order. */
  function BackendEvents(machine: Machine, conversation: Conversation): seq<BackendEvent> {
    match conversation
    case Refused => FailureEvents(machine)
    case Streamed(metadata, messages, ending) =>
      (if messages == [] then [] else [InitialMetadata(metadata)]) + MessageEvents(machine, messages, ending)
  }

  method AppendBackendInfo(machine: Machine, message: Bytes) returns (r: Result<Bytes, PayloadError>)
    ensures r == AppendInfo(machine, message)
  {
    match machine
    case Anonymous => r := Ok(message);
    case Known(metadata, _) => r := AppendMachineInfo(Some(metadata), false, message);
    case Unencodable => r := Err(InvalidMetadata);
  }

  /** Sending event `e` after `sent` leaves one event less to send. */
  lemma {:induction false} Sent(sent: seq<BackendEvent>, e: BackendEvent, rest: seq<BackendEvent>)
    ensures sent + ([e] + rest) == (sent + [e]) + rest
  {
  }

  method RunBroadcastBackend(machine: Machine, conversation: Conversation) returns (events: seq<BackendEvent>)
    ensures events == BackendEvents(machine, conversation)
  {
    hide AppendInfo, FailureEvents;
    events := [];
    if conversation.Refused? {
      return FailureEvents(machine);
    }
    var messages, ending := conversation.messages, conversation.ending;
    if messages != [] {
      events := [InitialMetadata(conversation.metadata)];
    }
    while messages != []
      invariant BackendEvents(machine, conversation) == events + MessageEvents(machine, messages, ending)
    {
      var payload := AppendBackendInfo(machine, messages[0]);
      if payload.Err? {
        return events + [Fatal, Finished];
      }
      Sent(events, Chunk(payload.value), MessageEvents(machine, messages[1..], ending));
      events := events + [Chunk(payload.value)];
      messages := messages[1..];
    }
    if ending.Broken? {
      return events + FailureEvents(machine);
    }
    if ending.trailers.Some? {
      return events + [Trailers(ending.trailers.value), Finished];
    }
    return events + [Finished];
  }

  // The event loop

  /** What reaches the loop: a backend's next event, the request pump's result, or the deadline. */
  datatype Item = From(backend: nat, event: BackendEvent) | RequestDone(ok: bool) | DeadlineHit

  datatype Reason = NoBackends | RequestFailed | DeadlineExceeded | BackendsFailed(count: nat) | StoppedEarly

  datatype Outcome =
    | Merged(payload: Bytes, metadata: Metadata, trailers: Metadata)
    | Failure(reason: Reason, metadata: Metadata, trailers: Metadata)

  datatype Progress = Progress(merged: Bytes, metadata: Metadata, trailers: Metadata, failures: nat, finished: nat)

  function Absorb(p: Progress, event: BackendEvent): Progress {
    match event
    case InitialMetadata(metadata) => p.(metadata := p.metadata + metadata)
    case Chunk(payload) => p.(merged := p.merged + payload)
    case Trailers(metadata) => p.(trailers := p.trailers + metadata)
    case Fatal => p.(failures := p.failures + 1)
    case Finished => p.(finished := p.finished + 1)
  }

  const NOTHING := Progress([], [], [], 0, 0)

  function AbsorbAll(items: seq<Item>): Progress {
    if items == [] then NOTHING
    else
      var p := AbsorbAll(items[..|items| - 1]);
      var last := items[|items| - 1];
      if last.From? then Absorb(p, last.event) else p
  }

  predicate Harmless(item: Item) {
    item.From? || item == RequestDone(true)
  }

  /** Where the loop stops reading, from position `k`: enough backends finished, or something went wrong. */
  function Stop(items: seq<Item>, n: nat, k: nat): (stop: nat)
    requires k <= |items|
    ensures k <= stop <= |items|
    decreases |items| - k
  {
    if AbsorbAll(items[..k]).finished >= n || k == |items| || !Harmless(items[k]) then k else Stop(items, n, k + 1)
  }

  /** What the loop makes of the items up to `k`, where it stopped, and of the pump's result if that came late. */
  function Verdict(items: seq<Item>, n: nat, k: nat, late: Option<bool>): Outcome
    requires k <= |items|
  {
    var p := AbsorbAll(items[..k]);
    if n == 0 then Failure(NoBackends, [], [])
    else if p.finished < n then
      if k == |items| then Failure(StoppedEarly, [], [])
      else Failure(if items[k].DeadlineHit? then DeadlineExceeded else RequestFailed, p.metadata, p.trailers)
    else if RequestDone(true) !in items[..k] && late == Some(false) then Failure(RequestFailed, p.metadata, p.trailers)
    else if p.failures != 0 then Failure(BackendsFailed(p.failures), p.metadata, p.trailers)
    else Merged(p.merged, p.metadata, p.trailers)
  }

  method OneToMany(items: seq<Item>, n: nat, late: Option<bool>) returns (outcome: Outcome)
    ensures outcome == Verdict(items, n, Stop(items, n, 0), late)
  {
    if n == 0 {
      return Failure(NoBackends, [], []);
    }
    var merged: Bytes, metadata: Metadata, trailers: Metadata := [], [], [];
    var failures, finished := 0, 0;
    var requestFinished := false;
    var read := 0;
    while finished < n
      invariant 0 <= read <= |items| && finished <= n && Stop(items, n, 0) == Stop(items, n, read)
      invariant AbsorbAll(items[..read]) == Progress(merged, metadata, trailers, failures, finished)
      invariant requestFinished <==> RequestDone(true) in items[..read]
      decreases |items| - read
    {
      if read == |items| {
        return Failure(StoppedEarly, [], []);
      }
      var item := items[read];
      assert items[..read + 1][..read] == items[..read];
      read := read + 1;
      match item {
        case DeadlineHit =>
          return Failure(DeadlineExceeded, metadata, trailers);
        case RequestDone(ok) =>
          if !ok {
            return Failure(RequestFailed, metadata, trailers);
          }
          requestFinished := true;
        case From(_, event) =>
          match event {
            case InitialMetadata(more) => metadata := metadata + more;
            case Chunk(payload) => merged := merged + payload;
            case Trailers(more) => trailers := trailers + more;
            case Fatal => failures := failures + 1;
            case Finished => finished := finished + 1;
          }
      }
    }
    if !requestFinished && late == Some(false) {
      return Failure(RequestFailed, metadata, trailers);
    }
    if failures != 0 {
      return Failure(BackendsFailed(failures), metadata, trailers);
    }
    outcome := Merged(merged, metadata, trailers);
  }

  // The request pump

  /** The number of messages that reach a destination which takes at most `accepts` of them. */
  function Taken(accepts: nat, sent: nat): nat {
    if accepts <= sent then accepts else sent
  }

  /** One message to every destination still there: those that take it stay. */
  method SendToAll(
      incoming: seq<Bytes>, sent: nat, destinations: set<nat>, accepts: seq<nat>, had: seq<seq<Bytes>>)
    returns (received: seq<seq<Bytes>>, live: set<nat>)
    requires sent < |incoming| && |had| == |accepts|
    requires forall i: nat :: i in destinations <==> i < |accepts| && accepts[i] >= sent
    requires forall i :: 0 <= i < |accepts| ==> had[i] == incoming[..Taken(accepts[i], sent)]
    ensures |received| == |accepts|
    ensures forall i: nat :: i in live <==> i < |accepts| && accepts[i] >= sent + 1
    ensures forall i :: 0 <= i < |accepts| ==> received[i] == incoming[..Taken(accepts[i], sent + 1)]
  {
    received, live := had, {};
    for i := 0 to |accepts|
      invariant |received| == |accepts|
      invariant forall j: nat :: j in live <==> j < i && accepts[j] > sent
      invariant forall j :: 0 <= j < |accepts| ==>
                  received[j] == incoming[..Taken(accepts[j], if j < i then sent + 1 else sent)]
    {
      if i in destinations && accepts[i] > sent {
        assert incoming[..sent + 1] == incoming[..sent] + [incoming[sent]];
        received := received[i := received[i] + [incoming[sent]]];
        live := live + {i};
      }
    }
  }

  /**
    * Fanning requests out: destination `i` takes `accepts[i]` messages before its receiver goes away, and the
    * incoming stream ends or `breaks`. Each destination receives a prefix of the incoming messages, all of them
    * if it stays, and the pump fails exactly if the stream breaks while somebody still listens.
    */
  method PumpRequestMany(incoming: seq<Bytes>, breaks: bool, accepts: seq<nat>)
    returns (received: seq<seq<Bytes>>, ok: bool)
    ensures |received| == |accepts|
    ensures forall i :: 0 <= i < |accepts| ==> received[i] == incoming[..Taken(accepts[i], |incoming|)]
    ensures ok <==> !breaks || (incoming != [] && forall i :: 0 <= i < |accepts| ==> accepts[i] < |incoming|)
  {
    received := seq(|accepts|, _ => []);
    var destinations: set<nat> := set i: nat | i < |received| && received[i] == [];
    var sent := 0;
    while sent < |incoming|
      invariant 0 <= sent <= |incoming| && |received| == |accepts|
      invariant forall i: nat :: i in destinations <==> i < |accepts| && accepts[i] >= sent
      invariant forall i :: 0 <= i < |accepts| ==> received[i] == incoming[..Taken(accepts[i], sent)]
      invariant sent > 0 ==> destinations != {}
    {
      received, destinations := SendToAll(incoming, sent, destinations, accepts, received);
      sent := sent + 1;
      if destinations == {} {
        assert forall i: nat :: i < |accepts| ==> i !in destinations;
        return received, true;
      }
    }
    ok := !breaks;
    if incoming != [] {
      var i :| i in destinations;
      assert accepts[i] >= |incoming|;
    }
  }
}
