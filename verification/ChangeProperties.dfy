/** What a change stream delivers, against any server and against one that serves a log faithfully. */
module ChangeProperties {
  import opened Wrappers
  import opened Changes

  // Runs: a caller calls `next` again and again, dropping some of the calls

  function Run(s: StreamState, budgets: seq<nat>): (StreamState, seq<Answer>)
    requires s.Valid()
    ensures Run(s, budgets).0.Valid()
  {
    if budgets == [] then (s, [])
    else
      var (before, answers) := Run(s, budgets[..|budgets| - 1]);
      WorkKeepsValid(before, budgets[|budgets| - 1]);
      var (after, answer) := before.Next(budgets[|budgets| - 1]);
      (after, answers + [answer])
  }

  lemma {:induction false} WorkKeepsValid(s: StreamState, budget: nat)
    requires s.Valid()
    ensures s.Next(budget).0.Valid()
    decreases budget
  {
    if s.finished || budget == 0 {
    } else if s.needsResubscribe {
      if s.attempts != [] {
        var rest := s.(attempts := s.attempts[1..]);
        match ResubscribeOnce(s.last, s.attempts[0].answer(s.last))
        case Ok(events) => WorkKeepsValid(rest.(decoder := Some(events), needsResubscribe := false), budget - 1);
        case Err(_) => WorkKeepsValid(rest, budget - 1);
      }
    } else {
      if s.resubscribes { WorkKeepsValid(s.(decoder := None, needsResubscribe := true), budget - 1); }
    }
  }

  /** The changes among some answers. */
  function DeliveredIn(answers: seq<Answer>): seq<Change> {
    if answers == [] then []
    else
      var last := answers[|answers| - 1];
      DeliveredIn(answers[..|answers| - 1]) + if last.Delivered? then [last.change] else []
  }

  // Any server

  /** What one call can do: deliver the change expected after the last one, end in an error, or change no ID. */
  ghost predicate OneCall(s: StreamState, t: StreamState, answer: Answer) {
    match answer
    case Delivered(change) => t.last == change.id && !t.finished && (s.last != 0 ==> change.id == (s.last + 1) % U64)
    case Failed => t.finished && t.last == s.last
    case Ended => t == s && s.finished
    case Cancelled => !t.finished && t.last == s.last
  }

  lemma {:induction false} EveryCall(s: StreamState, budget: nat)
    requires s.Valid()
    ensures var (t, answer) := s.Next(budget);
            OneCall(s, t, answer) && (s.finished ==> answer == Ended) && (answer == Ended ==> s.finished)
    decreases budget
  {
    if s.finished || budget == 0 {
    } else if s.needsResubscribe {
      if s.attempts != [] {
        var rest := s.(attempts := s.attempts[1..]);
        match ResubscribeOnce(s.last, s.attempts[0].answer(s.last))
        case Ok(events) => EveryCall(rest.(decoder := Some(events), needsResubscribe := false), budget - 1);
        case Err(_) => EveryCall(rest, budget - 1);
      }
    } else {
      if s.resubscribes { EveryCall(s.(decoder := None, needsResubscribe := true), budget - 1); }
    }
  }

  predicate Follows(previous: Id, id: Id) {
    previous != 0 ==> id == (previous + 1) % U64
  }

  /** Each ID is the one before it, starting from `start`, plus one modulo 2^64, unless that one is zero. */
  ghost predicate Consecutive(start: Id, changes: seq<Change>) {
    && (|changes| > 0 ==> Follows(start, changes[0].id))
    && (forall i :: 0 < i < |changes| ==> Follows(changes[i - 1].id, changes[i].id))
  }

  /** Against any server at all, across any number of resubscribes and dropped calls, IDs are consecutive. */
  lemma {:induction false} ConsecutiveAgainstAnyServer(s: StreamState, budgets: seq<nat>)
    requires s.Valid()
    ensures var (t, answers) := Run(s, budgets);
            && Consecutive(s.last, DeliveredIn(answers))
            && t.last == (if DeliveredIn(answers) == [] then s.last
                else DeliveredIn(answers)[|DeliveredIn(answers)| - 1].id)
  {
    if budgets != [] {
      var front := budgets[..|budgets| - 1];
      ConsecutiveAgainstAnyServer(s, front);
      var (before, answers) := Run(s, front);
      EveryCall(before, budgets[|budgets| - 1]);
      var answer := before.Next(budgets[|budgets| - 1]).1;
      assert (answers + [answer])[..|answers|] == answers;
      ConsecutiveExtends(s.last, DeliveredIn(answers), before.last, answer);
    }
  }

  lemma {:induction false} ConsecutiveExtends(start: Id, changes: seq<Change>, last: Id, answer: Answer)
    requires Consecutive(start, changes)
    requires last == if changes == [] then start else changes[|changes| - 1].id
    requires answer.Delivered? && last != 0 ==> answer.change.id == (last + 1) % U64
    ensures Consecutive(start, changes + if answer.Delivered? then [answer.change] else [])
  {
    if answer.Delivered? {
      var all := changes + [answer.change];
      assert forall i :: 0 <= i < |changes| ==> all[i] == changes[i];
      assert all[|changes|] == answer.change;
    }
  }

  /** At most one error is ever returned, and after it every call answers that the stream has ended. */
  lemma {:induction false} OneErrorThenNothing(s: StreamState, budgets: seq<nat>)
    requires s.Valid() && !s.finished
    ensures var (t, answers) := Run(s, budgets);
            && (t.finished <==> Failed in answers)
            && (forall i, j :: 0 <= i < j < |answers| && answers[i] == Failed ==> answers[j] == Ended)
            && (forall j :: 0 <= j < |answers| && answers[j] == Ended ==>
                exists i :: 0 <= i < j && answers[i] == Failed)
  {
    if budgets != [] {
      var front := budgets[..|budgets| - 1];
      OneErrorThenNothing(s, front);
      var (before, answers) := Run(s, front);
      EveryCall(before, budgets[|budgets| - 1]);
      var (after, answer) := before.Next(budgets[|budgets| - 1]);
      var all := answers + [answer];
      assert all[|answers|] == answer && forall i :: 0 <= i < |answers| ==> all[i] == answers[i];
      assert Failed in all <==> Failed in answers || answer == Failed;
      if answer == Ended {
        var i :| 0 <= i < |answers| && answers[i] == Failed;
        assert all[i] == Failed;
      }
    }
  }

  // What a response carries

  predicate IsRow(raw: Raw, columns: nat) {
    raw.Event? && !raw.event.error && raw.event.row.Some? && raw.event.row.value.width == columns
  }

  predicate IsEnd(raw: Raw) {
    raw.Event? && !raw.event.error && raw.event.row.None? && raw.event.end.Some?
  }

  /** How many rows of the declared width a response starts with. */
  function LeadingRows(events: Decoder, columns: nat): (k: nat)
    ensures k <= |events| && (forall i :: 0 <= i < k ==> IsRow(events[i], columns))
    ensures k < |events| ==> !IsRow(events[k], columns)
  {
    if events == [] || !IsRow(events[0], columns) then 0 else 1 + LeadingRows(events[1..], columns)
  }

  /** A header, any number of rows of its width, and at `k` the end of the query. */
  predicate QueryEnds(events: Decoder, k: nat) {
    && 0 < k < |events| && events[0].Event? && events[0].event.columns.Some? && IsEnd(events[k])
    && forall i :: 0 < i < k ==> IsRow(events[i], events[0].event.columns.value)
  }

  /** The events behind which changes follow: all of a response, but behind the snapshot if the request was from 0. */
  ghost predicate Carries(from: Id, response: Response, rest: Decoder) {
    && response.Success?
    && if from != 0 then rest == response.events
       else exists k: nat :: QueryEnds(response.events, k) && rest == response.events[k + 1..]
  }

  lemma {:induction false} DrainIs(rows: RowsState, events: Decoder)
    requires !rows.failed && rows.end.None? && rows.decoder == Some(events) && !rows.closeOnEnd
    ensures var k := LeadingRows(events, rows.columns);
            DrainRows(rows) == if k < |events| && IsEnd(events[k]) then Some(events[k + 1..]) else None
    decreases |events|
  {
    if events != [] && IsRow(events[0], rows.columns) {
      DrainIs(rows.Next().0, events[1..]);
      var k := LeadingRows(events[1..], rows.columns);
      assert k < |events[1..]| ==> events[1..][k] == events[k + 1] && events[1..][k + 1..] == events[k + 2..];
    }
  }

  lemma {:induction false} QueryEndsAtLeadingRows(events: Decoder, k: nat)
    requires events != [] && events[0].Event? && events[0].event.columns.Some?
    ensures QueryEnds(events, k)
            <==> && 0 < k < |events| && k - 1 == LeadingRows(events[1..], events[0].event.columns.value)
                 && IsEnd(events[k])
  {
    var columns := events[0].event.columns.value;
    var n := LeadingRows(events[1..], columns);
    assert forall i :: 0 < i < |events| ==> events[i] == events[1..][i - 1];
  }

  /** A resubscribe succeeds with exactly what the response carries, and is given up for lost exactly at a 404. */
  lemma {:induction false} ResubscribeIff(from: Id, response: Response, rest: Decoder)
    ensures ResubscribeOnce(from, response) == Ok(rest) <==> Carries(from, response, rest)
    ensures ResubscribeOnce(from, response) == Err(SubscriptionNotFound) <==> response == NotFound
  {
    hide DrainRows, QueryEnds;
    if response.Success? && from == 0 { DrainedIff(response.events, rest); }
  }

  lemma {:induction false} DrainedIff(events: Decoder, rest: Decoder)
    ensures ResubscribeOnce(0, Success(events)) == Ok(rest)
            <==> exists k: nat :: QueryEnds(events, k) && rest == events[k + 1..]
  {
    hide DrainRows, QueryEnds, LeadingRows;
    if OpenRows(events, false).Some? {
      var k := 1 + LeadingRows(events[1..], events[0].event.columns.value);
      DrainIs(OpenRows(events, false).value, events[1..]);
      forall j: nat ensures QueryEnds(events, j) <==> j == k < |events| && IsEnd(events[k]) {
        QueryEndsAtLeadingRows(events, j);
      }
      if k < |events| {
        assert events[1..][k - 1] == events[k] && events[1..][k..] == events[k + 1..];
        if IsEnd(events[k]) { assert QueryEnds(events, k); }
      }
    } else {
      NoHeader(events);
    }
  }

  lemma {:induction false} NoHeader(events: Decoder)
    requires events == [] || events[0].Malformed? || events[0].event.columns.None?
    ensures forall k: nat :: !QueryEnds(events, k)
  {
  }

  // A faithful server

  /** The whole log: its `i`-th change, counting from 0, has ID `i + 1`, and no ID wraps around. */
  predicate IsLog(log: seq<Change>) {
    |log| < U64 && forall i :: 0 <= i < |log| ==> log[i].id == i + 1
  }

  predicate IsChange(raw: Raw) {
    raw.Event? && !raw.event.error && raw.event.change.Some?
  }

  /** The changes a response sends before its first event that is no change. */
  function CleanPrefix(events: Decoder): seq<Change> {
    if events == [] || !IsChange(events[0]) then [] else [events[0].event.change.value] + CleanPrefix(events[1..])
  }

  /** Until it breaks, a response sends the log after its first `from` changes, in order. */
  predicate ServesFrom(events: Decoder, log: seq<Change>, from: nat) {
    from <= |log| && CleanPrefix(events) <= log[from..]
  }

  /** What a stream may still read: the log after its last change, or, from 0, after some snapshot. */
  ghost predicate Continues(events: Decoder, log: seq<Change>, last: Id) {
    if last == 0 then exists from: nat :: ServesFrom(events, log, from) else ServesFrom(events, log, last)
  }

  ghost predicate FaithfulAnswer(attempt: Attempt, log: seq<Change>) {
    forall from: Id, rest: Decoder ::
      from <= |log| && Carries(from, attempt.answer(from), rest) ==> Continues(rest, log, from)
  }

  ghost predicate FaithfulServer(s: StreamState, log: seq<Change>) {
    && (s.decoder.Some? ==> Continues(s.decoder.value, log, s.last))
    && (forall k :: 0 <= k < |s.attempts| ==> FaithfulAnswer(s.attempts[k], log))
  }

  /** A stream that stands in the log and reads from a faithful server. */
  ghost predicate InLog(s: StreamState, log: seq<Change>) {
    s.Valid() && s.last <= |log| && FaithfulServer(s, log)
  }

  /** What a call may do then: deliver a change of the log, the very next one unless the stream stood at 0. */
  ghost predicate FaithfulStep(s: StreamState, t: StreamState, answer: Answer, log: seq<Change>) {
    && InLog(t, log)
    && (!answer.Delivered? ==> t.last == s.last)
    && (answer.Delivered? ==>
          && 0 < t.last && answer.change == log[t.last - 1]
          && (s.last != 0 ==> t.last == s.last + 1))
  }

  lemma {:induction false} ServesNext(events: Decoder, log: seq<Change>, from: nat)
    requires IsLog(log) && ServesFrom(events, log, from) && events != [] && IsChange(events[0])
    ensures from < |log| && events[0].event.change.value == log[from] && ServesFrom(events[1..], log, from + 1)
  {
    var rest := log[from..];
    assert CleanPrefix(events)[0] == rest[0] && CleanPrefix(events)[1..] == CleanPrefix(events[1..]);
    assert rest[1..] == log[from + 1..];
  }

  /** Taking a change from the response at hand. */
  lemma {:induction false} FaithfulDelivery(s: StreamState, log: seq<Change>)
    requires InLog(s, log) && IsLog(log) && s.decoder.Some? && s.decoder.value != []
    requires Judge(s.last, s.decoder.value[0]).Some?
    ensures var change := Judge(s.last, s.decoder.value[0]).value;
            FaithfulStep(s, s.(decoder := Some(s.decoder.value[1..]), last := change.id), Delivered(change), log)
  {
    hide CleanPrefix, ServesFrom, FaithfulAnswer;
    var events := s.decoder.value;
    var from: nat := s.last;
    if s.last == 0 {
      var j: nat :| ServesFrom(events, log, j);
      from := j;
    }
    ServesNext(events, log, from);
  }

  lemma {:induction false} FewerAttempts(s: StreamState, log: seq<Change>)
    requires InLog(s, log) && s.attempts != []
    ensures FaithfulServer(s.(attempts := s.attempts[1..]), log) && FaithfulAnswer(s.attempts[0], log)
  {
    hide FaithfulAnswer, Continues;
    assert forall k :: 0 <= k < |s.attempts[1..]| ==> s.attempts[1..][k] == s.attempts[k + 1];
  }

  /** A resubscribe that the server answers leaves a response that continues the log. */
  lemma {:induction false} FaithfulResubscribe(s: StreamState, log: seq<Change>)
    requires InLog(s, log) && s.needsResubscribe && s.attempts != []
    requires ResubscribeOnce(s.last, s.attempts[0].answer(s.last)).Ok?
    ensures var events := ResubscribeOnce(s.last, s.attempts[0].answer(s.last)).value;
            InLog(s.(attempts := s.attempts[1..], decoder := Some(events), needsResubscribe := false), log)
  {
    hide Continues, ResubscribeOnce, Carries;
    FewerAttempts(s, log);
    hide FaithfulServer;
    var events := ResubscribeOnce(s.last, s.attempts[0].answer(s.last)).value;
    ResubscribeIff(s.last, s.attempts[0].answer(s.last), events);
    assert Continues(events, log, s.last);
    Rebuilt(s.(attempts := s.attempts[1..]), events, log);
  }

  lemma {:induction false} Rebuilt(s: StreamState, events: Decoder, log: seq<Change>)
    requires FaithfulServer(s, log) && Continues(events, log, s.last)
    ensures FaithfulServer(s.(decoder := Some(events), needsResubscribe := false), log)
  {
    hide Continues, FaithfulAnswer;
  }

  /** One call against a faithful server delivers the very next change of the log, or none. */
  lemma {:induction false} FaithfulCall(s: StreamState, budget: nat, log: seq<Change>)
    requires InLog(s, log) && IsLog(log)
    ensures FaithfulStep(s, s.Next(budget).0, s.Next(budget).1, log)
    decreases budget
  {
    hide Judge, ResubscribeOnce, Continues, FaithfulAnswer, IsLog;
    if s.finished || budget == 0 {
    } else if s.needsResubscribe {
      if s.attempts != [] {
        FewerAttempts(s, log);
        var rest := s.(attempts := s.attempts[1..]);
        match ResubscribeOnce(s.last, s.attempts[0].answer(s.last))
        case Ok(events) =>
          FaithfulResubscribe(s, log);
          FaithfulCall(rest.(decoder := Some(events), needsResubscribe := false), budget - 1, log);
        case Err(_) => FaithfulCall(rest, budget - 1, log);
      }
    } else if s.decoder.value != [] && Judge(s.last, s.decoder.value[0]).Some? {
      FaithfulDelivery(s, log);
    } else if s.resubscribes {
      FaithfulCall(s.(decoder := None, needsResubscribe := true), budget - 1, log);
    }
  }

  /** What a run has delivered so far: one contiguous segment of the log, which ends where the stream stands. */
  ghost predicate IsSegment(start: Id, changes: seq<Change>, last: Id, log: seq<Change>) {
    && |changes| <= last <= |log| && changes == log[last - |changes|..last]
    && (changes == [] ==> last == start)
    && (changes != [] && start != 0 ==> last == start + |changes|)
  }

  lemma {:induction false} SegmentGrows(start: Id, changes: seq<Change>, before: Id, after: Id, log: seq<Change>)
    requires IsSegment(start, changes, before, log) && 0 < after <= |log| && (before != 0 ==> after == before + 1)
    ensures IsSegment(start, changes + [log[after - 1]], after, log)
  {
    assert log[after - 1..after] == [log[after - 1]];
  }

  /**
    * Exactly once, in order: against a faithful server, whatever connections are cut, events garbled,
    * resubscribes retried and calls dropped, the changes delivered are one contiguous segment of the log.
    */
  lemma {:induction false} DeliversSegment(s: StreamState, budgets: seq<nat>, log: seq<Change>)
    requires InLog(s, log) && IsLog(log)
    ensures var (t, answers) := Run(s, budgets);
            InLog(t, log) && IsSegment(s.last, DeliveredIn(answers), t.last, log)
  {
    hide IsLog, FaithfulServer;
    if budgets != [] {
      var front := budgets[..|budgets| - 1];
      DeliversSegment(s, front, log);
      var (before, answers) := Run(s, front);
      FaithfulCall(before, budgets[|budgets| - 1], log);
      var (after, answer) := before.Next(budgets[|budgets| - 1]);
      assert (answers + [answer])[..|answers|] == answers;
      if answer.Delivered? {
        hide IsSegment;
        SegmentGrows(s.last, DeliveredIn(answers), before.last, after.last, log);
      }
    }
  }

  /** From a nonzero snapshot ID the segment is a prefix of the log after the snapshot: nothing is lost. */
  lemma {:induction false} DeliversLogPrefix(s: StreamState, budgets: seq<nat>, log: seq<Change>)
    requires InLog(s, log) && IsLog(log) && s.last != 0
    ensures var (t, answers) := Run(s, budgets);
            DeliveredIn(answers) <= log[s.last..] && t.last == s.last + |DeliveredIn(answers)|
  {
    hide FaithfulServer;
    DeliversSegment(s, budgets, log);
  }

  /**
    * Progress: calls that are not dropped deliver the response at hand change by change, up to where it breaks.
    */
  lemma {:induction false} DeliversResponse(s: StreamState, budgets: seq<nat>, log: seq<Change>)
    requires InLog(s, log) && IsLog(log) && !s.finished && !s.needsResubscribe
    requires |budgets| <= |CleanPrefix(s.decoder.value)| && forall i :: 0 <= i < |budgets| ==> budgets[i] > 0
    ensures var (t, answers) := Run(s, budgets);
            && DeliveredIn(answers) == CleanPrefix(s.decoder.value)[..|budgets|]
            && InLog(t, log) && !t.finished && !t.needsResubscribe
            && CleanPrefix(t.decoder.value) == CleanPrefix(s.decoder.value)[|budgets|..]
  {
    hide IsLog, FaithfulServer;
    if budgets != [] {
      var n := |budgets| - 1;
      DeliversResponse(s, budgets[..n], log);
      var (before, answers) := Run(s, budgets[..n]);
      var clean := CleanPrefix(s.decoder.value);
      assert CleanPrefix(before.decoder.value)[0] == clean[n] && clean[n..][1..] == clean[n + 1..];
      DeliversNext(before, budgets[n], log);
      var answer := before.Next(budgets[n]).1;
      assert (answers + [answer])[..|answers|] == answers;
      assert clean[..n + 1] == clean[..n] + [clean[n]];
    }
  }

  /** One call that is not dropped delivers the next change of the response. */
  lemma {:induction false} DeliversNext(s: StreamState, budget: nat, log: seq<Change>)
    requires InLog(s, log) && IsLog(log) && !s.finished && !s.needsResubscribe && budget > 0
    requires CleanPrefix(s.decoder.value) != []
    ensures var (t, answer) := s.Next(budget);
            && answer == Delivered(CleanPrefix(s.decoder.value)[0])
            && InLog(t, log) && !t.finished && !t.needsResubscribe
            && CleanPrefix(t.decoder.value) == CleanPrefix(s.decoder.value)[1..]
  {
    var events := s.decoder.value;
    var from: nat := s.last;
    if s.last == 0 {
      var j: nat :| ServesFrom(events, log, j);
      from := j;
    }
    ServesNext(events, log, from);
    FaithfulDelivery(s, log);
  }

  /** An attempt that fails in a way that is tried again. */
  predicate TriedAgain(attempt: Attempt, from: Id) {
    attempt.mayRetry && (attempt.answer(from).Unreachable? || attempt.answer(from).BadStatus?)
  }

  /** An attempt after which the stream gives up: the subscription is gone, or no retry is left. */
  predicate GivenUp(attempt: Attempt, from: Id) {
    || attempt.answer(from).NotFound?
    || (!attempt.mayRetry && (attempt.answer(from).Unreachable? || attempt.answer(from).BadStatus?))
  }

  /** A stream that lost its response and is about to ask for the rest; its first `m` requests fail and are repeated. */
  ghost predicate Asking(s: StreamState, m: nat) {
    && s.Valid() && !s.finished && s.needsResubscribe && m < |s.attempts|
    && forall i :: 0 <= i < m ==> TriedAgain(s.attempts[i], s.last)
  }

  lemma {:induction false} AskAgain(s: StreamState, m: nat, budget: nat)
    requires Asking(s, m) && m > 0 && budget > 0
    ensures var t := s.(attempts := s.attempts[1..]);
            && Asking(t, m - 1) && s.Next(budget) == t.Next(budget - 1)
            && t.attempts[m - 1] == s.attempts[m]
  {
    assert TriedAgain(s.attempts[0], s.last);
    var t := s.(attempts := s.attempts[1..]);
    assert forall i :: 0 <= i < |t.attempts| ==> t.attempts[i] == s.attempts[i + 1];
  }

  /** A resubscribe that is answered in the end delivers the first change of what the answer carries. */
  lemma {:induction false} ResubscribeDelivers(s: StreamState, m: nat, rest: Decoder, budget: nat, log: seq<Change>)
    requires InLog(s, log) && IsLog(log) && Asking(s, m) && Carries(s.last, s.attempts[m].answer(s.last), rest)
    requires CleanPrefix(rest) != [] && budget >= m + 2
    ensures var (t, answer) := s.Next(budget);
            && answer == Delivered(CleanPrefix(rest)[0])
            && (s.last != 0 ==> s.last < |log| && answer.change == log[s.last])
            && InLog(t, log) && !t.finished && !t.needsResubscribe
            && CleanPrefix(t.decoder.value) == CleanPrefix(rest)[1..]
    decreases m
  {
    if m > 0 {
      AskAgain(s, m, budget);
      FewerAttempts(s, log);
      ResubscribeDelivers(s.(attempts := s.attempts[1..]), m - 1, rest, budget - 1, log);
    } else {
      ResubscribeIff(s.last, s.attempts[0].answer(s.last), rest);
      FaithfulResubscribe(s, log);
      var t := s.(attempts := s.attempts[1..], decoder := Some(rest), needsResubscribe := false);
      AnsweredGoesOn(s, rest, budget);
      hide InLog, Carries, Asking;
      DeliversNext(t, budget - 1, log);
      if s.last != 0 { FirstIsNext(t, log); }
    }
  }

  lemma {:induction false} AnsweredGoesOn(s: StreamState, rest: Decoder, budget: nat)
    requires s.Valid() && !s.finished && s.needsResubscribe && s.attempts != [] && budget > 0
    requires ResubscribeOnce(s.last, s.attempts[0].answer(s.last)) == Ok(rest)
    ensures s.Next(budget)
            == s.(attempts := s.attempts[1..], decoder := Some(rest), needsResubscribe := false).Next(budget - 1)
  {
    hide ResubscribeOnce;
  }

  lemma {:induction false} FirstIsNext(s: StreamState, log: seq<Change>)
    requires InLog(s, log) && s.last != 0 && s.decoder.Some? && CleanPrefix(s.decoder.value) != []
    ensures s.last < |log| && CleanPrefix(s.decoder.value)[0] == log[s.last]
  {
    assert ServesFrom(s.decoder.value, log, s.last);
    assert log[s.last..][0] == CleanPrefix(s.decoder.value)[0];
  }

  /**
    * Progress across a break: once the server answers, undropped calls deliver, one by one, all the changes that its
    * answer carries up to where it breaks again; from a nonzero ID the first of them is the very next of the log.
    */
  lemma {:induction false} ResubscribeDeliversAll(
      s: StreamState, m: nat, rest: Decoder, budgets: seq<nat>, log: seq<Change>)
    requires InLog(s, log) && IsLog(log) && Asking(s, m) && Carries(s.last, s.attempts[m].answer(s.last), rest)
    requires 0 < |budgets| <= |CleanPrefix(rest)| && budgets[0] >= m + 2
    requires forall i :: 0 <= i < |budgets| ==> budgets[i] > 0
    ensures var (t, answers) := Run(s, budgets);
            && DeliveredIn(answers) == CleanPrefix(rest)[..|budgets|]
            && (s.last != 0 ==> s.last < |log| && CleanPrefix(rest)[0] == log[s.last])
            && InLog(t, log) && !t.finished && !t.needsResubscribe
            && CleanPrefix(t.decoder.value) == CleanPrefix(rest)[|budgets|..]
  {
    var n := |budgets| - 1;
    var clean := CleanPrefix(rest);
    if n == 0 {
      ResubscribeDelivers(s, m, rest, budgets[0], log);
      assert budgets == [budgets[0]];
      OneBudget(s, budgets[0]);
      assert clean[..1] == [clean[0]];
    } else {
      ResubscribeDeliversAll(s, m, rest, budgets[..n], log);
      hide FaithfulServer, Asking, Carries, IsLog;
      var (before, answers) := Run(s, budgets[..n]);
      assert CleanPrefix(before.decoder.value)[0] == clean[n] && clean[n..][1..] == clean[n + 1..];
      DeliversNext(before, budgets[n], log);
      var answer := before.Next(budgets[n]).1;
      assert (answers + [answer])[..|answers|] == answers;
      assert clean[..n + 1] == clean[..n] + [clean[n]];
    }
  }

  /** A resubscribe that is refused for good ends the stream with its one error. */
  lemma {:induction false} ResubscribeGivesUp(s: StreamState, m: nat, budget: nat)
    requires Asking(s, m) && GivenUp(s.attempts[m], s.last) && budget > m
    ensures s.Next(budget).1 == Failed && s.Next(budget).0.finished
    decreases m
  {
    if m > 0 {
      AskAgain(s, m, budget);
      ResubscribeGivesUp(s.(attempts := s.attempts[1..]), m - 1, budget - 1);
    }
  }

  /** An event that is no change, or not the expected one, or the end: the stream fails, or asks again if it may. */
  lemma {:induction false} BreakIsNoticed(s: StreamState, budget: nat)
    requires s.Valid() && !s.finished && !s.needsResubscribe && budget > 0
    requires var events := s.decoder.value;
             events == [] || !IsChange(events[0]) || !Follows(s.last, events[0].event.change.value.id)
    ensures s.Next(budget) == if s.resubscribes then s.(decoder := None, needsResubscribe := true).Next(budget - 1)
                              else (s.(finished := true, decoder := None), Failed)
  {
  }

  // Starting from zero

  function ChangeEvent(change: Change): Raw {
    Event(QueryEvent(None, None, None, Some(change), false))
  }

  /**
    * A response to a request from 0: a snapshot without rows that covers the first `snapshot` changes, and one
    * change.
    */
  function SnapshotThen(snapshot: Id, change: Change): Decoder {
    [Event(QueryEvent(Some(1), None, None, None, false)),
     Event(QueryEvent(None, None, Some(Some(snapshot)), None, false)),
     ChangeEvent(change)]
  }

  /** A server that answers a request from 0 with a snapshot after `snapshot` changes, and other requests not at all. */
  function SnapshotServer(snapshot: Id, change: Change): Attempt {
    Attempt((from: Id) => if from == 0 then Success(SnapshotThen(snapshot, change)) else Unreachable, true)
  }

  lemma {:induction false} SnapshotDrained(snapshot: Id, change: Change)
    ensures ResubscribeOnce(0, Success(SnapshotThen(snapshot, change))) == Ok([ChangeEvent(change)])
  {
    var events := SnapshotThen(snapshot, change);
    var rows := RowsState(1, Some(events[1..]), None, false, false);
    assert events[1..][1..] == [ChangeEvent(change)];
    assert OpenRows(events, false) == Some(rows);
    assert rows.Next() == (rows.(decoder := Some([ChangeEvent(change)]), end := Some(Some(snapshot))), NoRow);
  }

  lemma {:induction false} SnapshotServerIsFaithful(snapshot: Id, log: seq<Change>)
    requires IsLog(log) && snapshot < |log|
    ensures FaithfulAnswer(SnapshotServer(snapshot, log[snapshot]), log)
  {
    var attempt := SnapshotServer(snapshot, log[snapshot]);
    var events := [ChangeEvent(log[snapshot])];
    assert events[1..] == [] && CleanPrefix(events) == [log[snapshot]];
    assert ServesFrom(events, log, snapshot);
    forall from: Id, rest: Decoder | from <= |log| && Carries(from, attempt.answer(from), rest)
      ensures Continues(rest, log, from)
    {
      SnapshotDrained(snapshot, log[snapshot]);
      ResubscribeIff(0, Success(SnapshotThen(snapshot, log[snapshot])), rest);
    }
  }

  /**
    * From ID 0 the segment may start anywhere. The response is cut before its first change; the resubscribe from
    * 0 drains a snapshot that covers any number of changes, and these are never delivered.
    */
  lemma {:induction false} ZeroStartSkipsSnapshot(snapshot: Id, log: seq<Change>)
    requires IsLog(log) && snapshot < |log|
    ensures var s := StreamState(Some([]), 0, false, false, true, [SnapshotServer(snapshot, log[snapshot])]);
            InLog(s, log) && DeliveredIn(Run(s, [3]).1) == [log[snapshot]]
  {
    var attempt := SnapshotServer(snapshot, log[snapshot]);
    var s0 := StreamState(Some([]), 0, false, false, true, [attempt]);
    SnapshotServerIsFaithful(snapshot, log);
    assert ServesFrom([], log, 0);
    SnapshotDrained(snapshot, log[snapshot]);
    hide ResubscribeOnce, FaithfulAnswer, IsLog;
    var s1 := s0.(decoder := None, needsResubscribe := true);
    var s2 := s1.(decoder := Some([ChangeEvent(log[snapshot])]), needsResubscribe := false, attempts := []);
    assert [attempt][1..] == [];
    assert s0.Work(3) == s1.Work(2) == s2.Work(1);
    assert s2.Work(1).1 == Delivered(log[snapshot]);
    OneBudget(s0, 3);
  }

  lemma {:induction false} OneBudget(s: StreamState, budget: nat)
    requires s.Valid()
    ensures Run(s, [budget]).1 == [s.Next(budget).1]
    ensures DeliveredIn([s.Next(budget).1]) == if s.Next(budget).1.Delivered? then [s.Next(budget).1.change] else []
  {
    assert [budget][..0] == [] && Run(s, []) == (s, []);
    var answer := s.Next(budget).1;
    assert [answer][..0] == [] && [] + [answer] == [answer];
  }

  // Rows

  /** What the first `n` calls on some rows answer. */
  function RowAnswers(rows: RowsState, n: nat): (answers: seq<RowAnswer>)
    ensures |answers| == n
    decreases n
  {
    if n == 0 then [] else [rows.Next().1] + RowAnswers(rows.Next().0, n - 1)
  }

  /** The answer that the `i`-th call must give. */
  function RowAnswerAt(events: Decoder, columns: nat, i: nat): RowAnswer {
    var k := LeadingRows(events, columns);
    if i < k then assert IsRow(events[i], columns); Row(events[i].event.row.value)
    else if i == k && !(k < |events| && IsEnd(events[k])) then RowError
    else NoRow
  }

  lemma {:induction false} NoMoreRows(rows: RowsState, n: nat)
    requires rows.failed || rows.end.Some? || rows.decoder.None?
    ensures forall i :: 0 <= i < n ==> RowAnswers(rows, n)[i] == NoRow
  {
    if n > 0 { NoMoreRows(rows, n - 1); }
  }

  /** Calls answer the leading rows in order, then one error unless a clean end follows, and then nothing for ever. */
  lemma {:induction false} RowsInOrder(rows: RowsState, events: Decoder, n: nat)
    requires !rows.failed && rows.end.None? && rows.decoder == Some(events)
    ensures forall i :: 0 <= i < n ==> RowAnswers(rows, n)[i] == RowAnswerAt(events, rows.columns, i)
    decreases n
  {
    if n > 0 {
      var (next, answer) := rows.Next();
      if answer.Row? {
        RowsInOrder(next, events[1..], n - 1);
        forall i | 0 < i < n ensures RowAnswerAt(events, rows.columns, i) == RowAnswerAt(events[1..], rows.columns,
            i - 1) {
        }
      } else {
        NoMoreRows(next, n - 1);
      }
    }
  }

  // Where a stream starts

  /** `into_changes`: rows must have been read to their end, and the end must name the snapshot's change ID. */
  function IntoChanges(rows: Option<RowsState>, decoder: Option<Decoder>): Option<(Decoder, Id)> {
    if rows.Some? then
      if rows.value.end.Some? && rows.value.end.value.Some? && rows.value.decoder.Some?
      then Some((rows.value.decoder.value, rows.value.end.value.value)) else None
    else if decoder.Some? then Some((decoder.value, 0)) else None
  }

  /** The rows after `next` was called until it gave no row. */
  function Exhaust(rows: RowsState): RowsState
    decreases if rows.decoder.Some? then |rows.decoder.value| else 0
  {
    match rows.Next()
    case (next, Row(_)) => Exhaust(next)
    case (next, _) => next
  }

  predicate HasRow(raw: Raw, columns: nat) {
    raw.Event? && raw.event.row.Some? && raw.event.row.value.width == columns
  }

  /** The first event that is no row, at `k`, ends the query at change `id`. */
  predicate EndsAt(events: Decoder, columns: nat, k: nat, id: Id) {
    && k < |events| && events[k].Event? && events[k].event.row.None? && events[k].event.end == Some(Some(id))
    && forall i :: 0 <= i < k ==> HasRow(events[i], columns)
  }

  lemma {:induction false} EndsLater(events: Decoder, columns: nat, k: nat, id: Id)
    requires events != [] && HasRow(events[0], columns)
    requires EndsAt(events[1..], columns, k, id)
    ensures EndsAt(events, columns, k + 1, id) && events[1..][k + 1..] == events[k + 2..]
  {
    forall i | 0 < i < k + 1 ensures HasRow(events[i], columns) {
      assert events[i] == events[1..][i - 1];
    }
  }

  /**
    * A stream made from rows that were read to their end starts exactly after the response's first
    * end-of-query event, at the change ID which that event names; only rows of the right width came before.
    */
  lemma {:induction false} StartsAfterSnapshot(rows: RowsState, events: Decoder) returns (k: nat)
    requires !rows.failed && rows.end.None? && rows.decoder == Some(events) && !rows.closeOnEnd
    requires IntoChanges(Some(Exhaust(rows)), None).Some?
    ensures var (left, id) := IntoChanges(Some(Exhaust(rows)), None).value;
            EndsAt(events, rows.columns, k, id) && left == events[k + 1..]
    decreases |events|
  {
    hide EndsAt;
    var (next, answer) := rows.Next();
    if answer.Row? {
      k := StartsAfterSnapshot(next, events[1..]);
      EndsLater(events, rows.columns, k, IntoChanges(Some(Exhaust(next)), None).value.1);
      k := k + 1;
    } else {
      k := 0;
      EndsNow(events, rows.columns, next.end.value.value);
    }
  }

  lemma {:induction false} EndsNow(events: Decoder, columns: nat, id: Id)
    requires events != [] && events[0].Event? && events[0].event.row.None? && events[0].event.end == Some(Some(id))
    ensures EndsAt(events, columns, 0, id)
  {
  }
}
