/** Query rows and the change stream of a subscription, fed by decoded events. */
module Changes {
  import opened Wrappers

  const U64: nat := 0x1_0000_0000_0000_0000

  type Id = n: int | 0 <= n < U64

  /** A change and, abstractly, the rest of what it says. */
  datatype Change = Change(id: Id, body: nat)

  /** A row by its number of values and, abstractly, the values themselves. */
  datatype RowData = RowData(width: nat, values: nat)

  /** What an event may carry; an end of query by its change ID. */
  datatype QueryEvent = QueryEvent(
    columns: Option<nat>, row: Option<RowData>, end: Option<Option<Id>>, change: Option<Change>, error: bool)

  /** The next value of a response: an event, or a read or decoding error. The list's end is the response's end. */
  datatype Raw = Event(event: QueryEvent) | Malformed

  type Decoder = seq<Raw>

  datatype RowAnswer = Row(row: RowData) | NoRow | RowError

  /** The rows of one response. */
  datatype RowsState = RowsState(
    columns: nat, decoder: Option<Decoder>, end: Option<Option<Id>>, closeOnEnd: bool, failed: bool) {

    function Fail(): RowsState {
      this.(failed := true, decoder := None)
    }

    function Next(): (RowsState, RowAnswer) {
      if failed || end.Some? || decoder.None? then (this, NoRow)
      else if decoder.value == [] || decoder.value[0].Malformed? then (Fail(), RowError)
      else
        var event, rest := decoder.value[0].event, this.(decoder := Some(decoder.value[1..]));
        if event.error then (Fail(), RowError)
        else if event.row.Some? then
          if event.row.value.width != columns then (Fail(), RowError) else (rest, Row(event.row.value))
        else if event.end.Some? then
          ((if closeOnEnd then rest.(decoder := None) else rest).(end := event.end), NoRow)
        else (Fail(), RowError)
    }
  }

  /** The first event of a response names the columns. */
  function OpenRows(events: Decoder, closeOnEnd: bool): Option<RowsState> {
    if events == [] || events[0].Malformed? || events[0].event.columns.None? then None
    else Some(RowsState(events[0].event.columns.value, Some(events[1..]), None, closeOnEnd, false))
  }

  /** Reading rows to their end and handing back what follows them. */
  function DrainRows(rows: RowsState): Option<Decoder>
    decreases if rows.decoder.Some? then |rows.decoder.value| else 0
  {
    match rows.Next()
    case (next, Row(_)) => DrainRows(next)
    case (next, NoRow) => next.decoder
    case (_, RowError) => None
  }

  class Rows {
    var columns: nat
    var decoder: Option<Decoder>
    var end: Option<Option<Id>>
    var closeOnEnd: bool
    var failed: bool

    ghost function View(): RowsState
      reads this
    {
      RowsState(columns, decoder, end, closeOnEnd, failed)
    }

    constructor (state: RowsState)
      ensures View() == state
    {
      columns, decoder, end, closeOnEnd, failed := state.columns, state.decoder, state.end, state.closeOnEnd,
          state.failed;
    }

    /** Whether no further row can come. */
    predicate Over()
      reads this
    {
      failed || end.Some? || decoder.None?
    }

    /** A row has the declared width and uses up one event; an error and an end are final. */
    method Next() returns (answer: RowAnswer)
      modifies `decoder, `end, `failed
      ensures old(Over()) ==> answer == NoRow && unchanged(this)
      ensures answer.Row? ==>
                && !old(Over()) && !Over() && answer.row.width == columns
                && |old(decoder).value| > 0 && decoder == Some(old(decoder).value[1..])
                && old(decoder).value[0].Event? && old(decoder).value[0].event.row == Some(answer.row)
      ensures answer.RowError? ==> !old(Over()) && failed && decoder.None? && end.None?
      ensures answer.NoRow? && !old(Over()) ==> end.Some? && !failed && (closeOnEnd ==> decoder.None?)
      ensures (View(), answer) == old(View()).Next()
    {
      if failed || end.Some? || decoder.None? {
        return NoRow;
      }
      if decoder.value == [] || decoder.value[0].Malformed? {
        failed, decoder := true, None;
        return RowError;
      }
      var event := decoder.value[0].event;
      decoder := Some(decoder.value[1..]);
      if event.error {
        failed, decoder := true, None;
        return RowError;
      }
      if event.row.Some? {
        if event.row.value.width != columns {
          failed, decoder := true, None;
          return RowError;
        }
        return Row(event.row.value);
      }
      if event.end.Some? {
        end := event.end;
        if closeOnEnd {
          decoder := None;
        }
        return NoRow;
      }
      failed, decoder := true, None;
      answer := RowError;
    }
  }

  // Resubscribing

  datatype Response = Unreachable | NotFound | BadStatus | Success(events: Decoder)

  datatype ResubscribeError = SubscriptionNotFound | Other

  /** One request for the changes after `from`; from 0 the server sends a snapshot first, which is drained. */
  function ResubscribeOnce(from: Id, response: Response): Result<Decoder, ResubscribeError> {
    match response
    case Unreachable => Err(Other)
    case NotFound => Err(SubscriptionNotFound)
    case BadStatus => Err(Other)
    case Success(events) =>
      if from != 0 then Ok(events)
      else
        match OpenRows(events, false)
        case None => Err(Other)
        case Some(rows) => (match DrainRows(rows) case Some(rest) => Ok(rest) case None => Err(Other))
  }

  method RequestOnce(from: Id, response: Response) returns (r: Result<Decoder, ResubscribeError>)
    ensures r == ResubscribeOnce(from, response)
  {
    match response
    case Unreachable => r := Err(Other);
    case NotFound => r := Err(SubscriptionNotFound);
    case BadStatus => r := Err(Other);
    case Success(events) =>
      if from != 0 {
        return Ok(events);
      }
      var reply := OpenRows(events, false);
      if reply.None? {
        return Err(Other);
      }
      var rows := new Rows(reply.value);
      var answer := rows.Next();
      while answer.Row?
        invariant DrainRows(reply.value) ==
                  match answer
                  case Row(_) => DrainRows(rows.View())
                  case NoRow => rows.View().decoder
                  case RowError => None
        decreases answer.Row?, if rows.decoder.Some? then |rows.decoder.value| else 0
      {
        answer := rows.Next();
      }
      if answer.RowError? || rows.decoder.None? {
        return Err(Other);
      }
      r := Ok(rows.decoder.value);
  }

  /** An answer of the server to whatever ID is asked for, and whether the backoff then allows another try. */
  datatype Attempt = Attempt(answer: Id -> Response, mayRetry: bool)

  datatype Answer = Delivered(change: Change) | Failed | Ended | Cancelled

  function ExpectedChangeId(last: Id): Option<Id> {
    if last == 0 then None else Some((last + 1) % U64)
  }

  /** The change that an event delivers after `last`, if it is one that may be delivered. */
  function Judge(last: Id, raw: Raw): Option<Change> {
    if raw.Malformed? || raw.event.error || raw.event.change.None? then None
    else
      var expected := ExpectedChangeId(last);
      if expected.Some? && raw.event.change.value.id != expected.value then None else raw.event.change
  }

  /** A change stream together with the answers its server has yet to give. */
  datatype StreamState = StreamState(
    decoder: Option<Decoder>, last: Id, needsResubscribe: bool, finished: bool, resubscribes: bool,
    attempts: seq<Attempt>) {

    ghost predicate Valid() {
      && (!finished && !needsResubscribe ==> decoder.Some?)
      && (needsResubscribe ==> resubscribes)
    }

    function Finish(): StreamState {
      this.(finished := true, decoder := None)
    }

    /** `next`, dropped by its caller once `budget` of its waits have completed. */
    function Next(budget: nat): (StreamState, Answer)
      requires Valid()
    {
      if finished then (this, Ended) else Work(budget)
    }

    function Work(budget: nat): (StreamState, Answer)
      requires Valid() && !finished
      decreases budget
    {
      if budget == 0 then (this, Cancelled)
      else if needsResubscribe then
        if attempts == [] then (this, Cancelled)
        else
          var rest := this.(attempts := attempts[1..]);
          match ResubscribeOnce(last, attempts[0].answer(last))
          case Ok(events) => rest.(decoder := Some(events), needsResubscribe := false).Work(budget - 1)
          case Err(error) =>
            if error.Other? && attempts[0].mayRetry then rest.Work(budget - 1) else (rest.Finish(), Failed)
      else
        var change := if decoder.value == [] then None else Judge(last, decoder.value[0]);
        if change.Some? then
          (this.(decoder := Some(decoder.value[1..]), last := change.value.id), Delivered(change.value))
        else if !resubscribes then (Finish(), Failed)
        else this.(decoder := None, needsResubscribe := true).Work(budget - 1)
    }
  }

  class ChangeStream {
    var decoder: Option<Decoder>
    var last: Id
    var needsResubscribe: bool
    var finished: bool
    var resubscribes: bool
    var attempts: seq<Attempt>

    ghost function View(): StreamState
      reads this
    {
      StreamState(decoder, last, needsResubscribe, finished, resubscribes, attempts)
    }

    constructor (events: Decoder, last: Id, resubscribes: bool, attempts: seq<Attempt>)
      ensures View() == StreamState(Some(events), last, false, false, resubscribes, attempts) && View().Valid()
    {
      this.decoder, this.last, this.needsResubscribe := Some(events), last, false;
      this.finished, this.resubscribes, this.attempts := false, resubscribes, attempts;
    }

    method Next(budget: nat) returns (answer: Answer)
      requires View().Valid()
      modifies this
      ensures View().Valid() && (View(), answer) == old(View()).Next(budget)
    {
      if finished {
        return Ended;
      }
      var left := budget;
      while left > 0
        invariant View().Valid() && !finished
        invariant old(View()).Next(budget) == View().Work(left)
      {
        left := left - 1;
        if needsResubscribe {
          if attempts == [] {
            return Cancelled;
          }
          var attempt := attempts[0];
          attempts := attempts[1..];
          var reply := RequestOnce(last, attempt.answer(last));
          if reply.Ok? {
            decoder := Some(reply.value);
            needsResubscribe := false;
          } else if !(reply.error.Other? && attempt.mayRetry) {
            finished, decoder := true, None;
            return Failed;
          }
        } else {
          var change := if decoder.value == [] then None else Judge(last, decoder.value[0]);
          if change.Some? {
            decoder := Some(decoder.value[1..]);
            last := change.value.id;
            return Delivered(change.value);
          }
          if !resubscribes {
            finished, decoder := true, None;
            return Failed;
          }
          decoder := None;
          needsResubscribe := true;
        }
      }
      answer := Cancelled;
    }
  }
}
