/** What the broadcast loop returns, for every interleaving of what the backends send. */
module BroadcastProperties {
  import opened Wrappers
  import opened Bits
  import opened ByteStrings
  import opened Payload
  import opened Broadcast

  // Interleavings

  /** What one backend contributed to the items, in order. */
  function Project(items: seq<Item>, i: nat): seq<BackendEvent> {
    if items == [] then []
    else
      var last := items[|items| - 1];
      Project(items[..|items| - 1], i) + if last.From? && last.backend == i then [last.event] else []
  }

  function AllEvents(machines: seq<Machine>, conversations: seq<Conversation>): seq<seq<BackendEvent>>
    requires |machines| == |conversations|
  {
    seq(|machines|, i requires 0 <= i < |machines| => BackendEvents(machines[i], conversations[i]))
  }

  /** Items that may have arrived so far when neither the request nor the deadline has failed. */
  predicate Arrivals(items: seq<Item>, lists: seq<seq<BackendEvent>>) {
    && (forall k :: 0 <= k < |items| ==> Harmless(items[k]) && (items[k].From? ==> items[k].backend < |lists|))
    && (forall i :: 0 <= i < |lists| ==> Project(items, i) <= lists[i])
  }

  predicate Complete(items: seq<Item>, lists: seq<seq<BackendEvent>>) {
    forall i :: 0 <= i < |lists| ==> Project(items, i) == lists[i]
  }

  lemma {:induction false} ProjectPrefix(items: seq<Item>, k: nat, i: nat)
    requires k <= |items|
    ensures Project(items[..k], i) <= Project(items, i)
  {
    if k < |items| {
      ProjectPrefix(items[..|items| - 1], k, i);
      assert items[..|items| - 1][..k] == items[..k];
    } else {
      assert items[..k] == items;
    }
  }

  lemma {:induction false} ArrivalsPrefix(items: seq<Item>, k: nat, lists: seq<seq<BackendEvent>>)
    requires k <= |items| && Arrivals(items, lists)
    ensures Arrivals(items[..k], lists)
  {
    forall i | 0 <= i < |lists| ensures Project(items[..k], i) <= lists[i] {
      ProjectPrefix(items, k, i);
    }
  }

  // Each backend finishes exactly once, last

  predicate EndsOnce(list: seq<BackendEvent>) {
    list != [] && list[|list| - 1] == Finished && Finished !in list[..|list| - 1]
  }

  lemma {:induction false} EndsOnceAfter(first: BackendEvent, rest: seq<BackendEvent>)
    requires EndsOnce(rest) && first != Finished
    ensures EndsOnce([first] + rest)
    ensures first != Fatal ==> multiset([first] + rest)[Fatal] == multiset(rest)[Fatal]
  {
    assert ([first] + rest)[..|rest|] == [first] + rest[..|rest| - 1];
  }

  lemma {:induction false} EndsOnceAlone()
    ensures EndsOnce([Finished]) && multiset([Finished])[Fatal] == 0
  {
  }

  lemma {:induction false} EndingEndsOnce(machine: Machine, ending: Ending)
    ensures EndsOnce(MessageEvents(machine, [], ending))
    ensures multiset(MessageEvents(machine, [], ending))[Fatal] <= 1
  {
    hide Envelope, EndsOnce;
    EndsOnceAlone();
    EndsOnceAfter(Fatal, [Finished]);
    assert [Fatal] + [Finished] == [Fatal, Finished];
    if ending.Broken? {
      if machine.Known? {
        EndsOnceAfter(Chunk(Envelope(machine.errorMetadata)), [Finished]);
        assert FailureEvents(machine) == [Chunk(Envelope(machine.errorMetadata))] + [Finished];
      }
    } else if ending.trailers.Some? {
      EndsOnceAfter(Trailers(ending.trailers.value), [Finished]);
    } else {
      assert MessageEvents(machine, [], ending) == [Finished];
    }
  }

  lemma {:induction false} MessagesEndOnce(machine: Machine, messages: seq<Bytes>, ending: Ending)
    ensures EndsOnce(MessageEvents(machine, messages, ending))
    ensures multiset(MessageEvents(machine, messages, ending))[Fatal] <= 1
  {
    hide AppendInfo, FailureEvents, EndsOnce;
    if messages == [] {
      EndingEndsOnce(machine, ending);
    } else if AppendInfo(machine, messages[0]).Ok? {
      MessagesEndOnce(machine, messages[1..], ending);
      EndsOnceAfter(Chunk(AppendInfo(machine, messages[0]).value), MessageEvents(machine, messages[1..], ending));
    } else {
      EndsOnceAlone();
      EndsOnceAfter(Fatal, [Finished]);
      assert [Fatal] + [Finished] == [Fatal, Finished];
    }
  }

  /** Every backend ends with its only `Finished`, and is fatal at most once. */
  lemma {:induction false} FinishesOnce(machine: Machine, conversation: Conversation)
    ensures EndsOnce(BackendEvents(machine, conversation))
    ensures multiset(BackendEvents(machine, conversation))[Fatal] <= 1
  {
    if conversation.Refused? {
      MessagesEndOnce(machine, [], Broken);
      BrokenEvents(machine);
    } else {
      hide MessageEvents;
      var rest := MessageEvents(machine, conversation.messages, conversation.ending);
      MessagesEndOnce(machine, conversation.messages, conversation.ending);
      if conversation.messages != [] { EndsOnceAfter(InitialMetadata(conversation.metadata), rest); }
      else { assert [] + rest == rest; }
    }
  }

  lemma {:induction false} PrefixFinishes(part: seq<BackendEvent>, list: seq<BackendEvent>)
    requires part <= list && EndsOnce(list)
    ensures multiset(part)[Finished] == if part == list then 1 else 0
  {
    var body := list[..|list| - 1];
    assert list == body + [Finished];
    assert multiset(body)[Finished] == 0;
    if part != list {
      assert body == part + body[|part|..];
    }
  }

  // The loop counts exactly the backends that are done

  /** How often the first `n` backends sent event `e`. */
  function Total(items: seq<Item>, n: nat, e: BackendEvent): nat {
    if n == 0 then 0 else Total(items, n - 1, e) + multiset(Project(items, n - 1))[e]
  }

  lemma {:induction false} TotalOfNone(n: nat, e: BackendEvent)
    ensures Total([], n, e) == 0
  {
    if n > 0 { TotalOfNone(n - 1, e); }
  }

  lemma {:induction false} ProjectStep(items: seq<Item>, i: nat, e: BackendEvent)
    requires items != []
    ensures var last := items[|items| - 1];
            multiset(Project(items, i))[e] == multiset(Project(items[..|items| - 1], i))[e]
                                              + if last.From? && last.backend == i && last.event == e then 1 else 0
  {
    var front := Project(items[..|items| - 1], i);
    assert front + [] == front;
  }

  lemma {:induction false} TotalStep(items: seq<Item>, n: nat, e: BackendEvent)
    requires items != []
    ensures var last := items[|items| - 1];
            Total(items, n, e) == Total(items[..|items| - 1], n, e)
                                  + if last.From? && last.backend < n && last.event == e then 1 else 0
  {
    hide Project;
    if n > 0 {
      TotalStep(items, n - 1, e);
      ProjectStep(items, n - 1, e);
    }
  }

  lemma {:induction false} LoopCounts(items: seq<Item>, n: nat)
    requires forall k :: 0 <= k < |items| ==> items[k].From? ==> items[k].backend < n
    ensures AbsorbAll(items).finished == Total(items, n, Finished)
    ensures AbsorbAll(items).failures == Total(items, n, Fatal)
  {
    if items == [] {
      TotalOfNone(n, Finished);
      TotalOfNone(n, Fatal);
    } else {
      LoopCounts(items[..|items| - 1], n);
      TotalStep(items, n, Finished);
      TotalStep(items, n, Fatal);
    }
  }

  lemma {:induction false} TotalFinished(items: seq<Item>, lists: seq<seq<BackendEvent>>, m: nat)
    requires m <= |lists| && forall i :: 0 <= i < m ==> Project(items, i) <= lists[i] && EndsOnce(lists[i])
    ensures Total(items, m, Finished) <= m
    ensures Total(items, m, Finished) == m <==> forall i :: 0 <= i < m ==> Project(items, i) == lists[i]
  {
    hide Project, EndsOnce;
    if m > 0 {
      TotalFinished(items, lists, m - 1);
      PrefixFinishes(Project(items, m - 1), lists[m - 1]);
    }
  }

  /** The loop has counted one `Finished` per backend exactly when it has read everything they all sent. */
  lemma {:induction false} FinishedMeansComplete(items: seq<Item>, lists: seq<seq<BackendEvent>>)
    requires Arrivals(items, lists) && forall i :: 0 <= i < |lists| ==> EndsOnce(lists[i])
    ensures AbsorbAll(items).finished >= |lists| <==> Complete(items, lists)
    ensures AbsorbAll(items).finished <= |lists|
  {
    LoopCounts(items, |lists|);
    TotalFinished(items, lists, |lists|);
  }

  /** The loop stops at the first moment that enough backends finished, or at the first item that does harm. */
  lemma {:induction false} StopIsFirst(items: seq<Item>, n: nat, k: nat)
    requires k <= |items|
    ensures var s := Stop(items, n, k);
            && k <= s <= |items| && (s < |items| ==> AbsorbAll(items[..s]).finished >= n || !Harmless(items[s]))
            && (forall j :: k <= j < s ==> AbsorbAll(items[..j]).finished < n && Harmless(items[j]))
    decreases |items| - k
  {
    if AbsorbAll(items[..k]).finished < n && k < |items| && Harmless(items[k]) { StopIsFirst(items, n, k + 1); }
  }

  /**
    * However the backends' events interleave, the loop goes on while any of them has not finished, and stops as
    * soon as all have, with every event of every backend taken in.
    */
  lemma {:induction false} StopsWhenAllFinished(
      machines: seq<Machine>, conversations: seq<Conversation>, items: seq<Item>)
    requires |machines| == |conversations| && Arrivals(items, AllEvents(machines, conversations))
    ensures var k := Stop(items, |machines|, 0);
            && k <= |items|
            && (Complete(items, AllEvents(machines, conversations)) ==>
                  Complete(items[..k], AllEvents(machines, conversations)))
            && (!Complete(items, AllEvents(machines, conversations)) ==> k == |items|)
            && (forall j :: 0 <= j < k ==> !Complete(items[..j], AllEvents(machines, conversations)))
  {
    var lists, n := AllEvents(machines, conversations), |machines|;
    var k := Stop(items, n, 0);
    forall i | 0 <= i < |lists| ensures EndsOnce(lists[i]) { FinishesOnce(machines[i], conversations[i]); }
    StopIsFirst(items, n, 0);
    forall j | 0 <= j <= |items|
      ensures AbsorbAll(items[..j]).finished >= n <==> Complete(items[..j], lists)
    {
      ArrivalsPrefix(items, j, lists);
      FinishedMeansComplete(items[..j], lists);
    }
    assert items[..|items|] == items;
    if k < |items| { CompleteStays(items, k, lists); }
  }

  lemma {:induction false} CompleteStays(items: seq<Item>, k: nat, lists: seq<seq<BackendEvent>>)
    requires k <= |items| && Arrivals(items, lists) && Complete(items[..k], lists)
    ensures Complete(items, lists)
  {
    forall i | 0 <= i < |lists| ensures Project(items, i) == lists[i] {
      ProjectPrefix(items, k, i);
    }
  }

  // What comes out

  /** How many backends could not even report their failure. */
  function FatalBackends(lists: seq<seq<BackendEvent>>): nat {
    if lists == [] then 0
    else FatalBackends(lists[..|lists| - 1]) + if Fatal in lists[|lists| - 1] then 1 else 0
  }

  lemma {:induction false} TotalFatal(items: seq<Item>, lists: seq<seq<BackendEvent>>, m: nat)
    requires m <= |lists| && Complete(items, lists)
    requires forall i :: 0 <= i < |lists| ==> multiset(lists[i])[Fatal] <= 1
    ensures Total(items, m, Fatal) == FatalBackends(lists[..m])
  {
    if m > 0 {
      TotalFatal(items, lists, m - 1);
      assert lists[..m][..m - 1] == lists[..m - 1];
      assert Fatal in lists[m - 1] <==> Fatal in multiset(lists[m - 1]);
    }
  }

  lemma {:induction false} NoFatalBackends(lists: seq<seq<BackendEvent>>)
    ensures FatalBackends(lists) == 0 <==> forall i :: 0 <= i < |lists| ==> Fatal !in lists[i]
  {
    if lists != [] {
      var front := lists[..|lists| - 1];
      NoFatalBackends(front);
      assert forall i :: 0 <= i < |front| ==> front[i] == lists[i];
    }
  }

  /** The payloads among the items, in arrival order, and whose they are. */
  function Parts(items: seq<Item>): seq<Bytes> {
    if items == [] then []
    else
      var last := items[|items| - 1];
      Parts(items[..|items| - 1]) + if last.From? && last.event.Chunk? then [last.event.payload] else []
  }

  function Owners(items: seq<Item>): (owners: seq<nat>)
    ensures |owners| == |Parts(items)|
  {
    if items == [] then []
    else
      var last := items[|items| - 1];
      Owners(items[..|items| - 1]) + if last.From? && last.event.Chunk? then [last.backend] else []
  }

  lemma {:induction false} ConcatSnoc(parts: seq<Bytes>, last: Bytes)
    ensures Concat(parts + [last]) == Concat(parts) + last
  {
    if parts == [] {
      assert [last][1..] == [] && [] + [last] == [last];
    } else {
      ConcatSnoc(parts[1..], last);
      assert (parts + [last])[1..] == parts[1..] + [last];
    }
  }

  /** The header and trailer entries among the items, in arrival order. */
  function Headers(items: seq<Item>): Metadata {
    if items == [] then []
    else
      var last := items[|items| - 1];
      Headers(items[..|items| - 1]) + if last.From? && last.event.InitialMetadata? then last.event.metadata else []
  }

  function Footers(items: seq<Item>): Metadata {
    if items == [] then []
    else
      var last := items[|items| - 1];
      Footers(items[..|items| - 1]) + if last.From? && last.event.Trailers? then last.event.metadata else []
  }

  lemma {:induction false} MetadataInOrder(items: seq<Item>)
    ensures AbsorbAll(items).metadata == Headers(items) && AbsorbAll(items).trailers == Footers(items)
  {
    if items != [] {
      MetadataInOrder(items[..|items| - 1]);
      assert Headers(items[..|items| - 1]) + [] == Headers(items[..|items| - 1]);
      assert Footers(items[..|items| - 1]) + [] == Footers(items[..|items| - 1]);
    }
  }

  lemma {:induction false} MergedIsConcat(items: seq<Item>)
    ensures AbsorbAll(items).merged == Concat(Parts(items))
  {
    if items != [] {
      var front, last := items[..|items| - 1], items[|items| - 1];
      MergedIsConcat(front);
      if last.From? && last.event.Chunk? { ConcatSnoc(Parts(front), last.event.payload); }
      else { assert Parts(front) + [] == Parts(front); }
    }
  }

  /**
    * Once every backend has sent everything and neither the request nor the deadline failed, the loop returns
    * the payloads in arrival order if no backend was fatal, and otherwise fails with the number that were.
    */
  lemma {:induction false} BroadcastOutcome(
      machines: seq<Machine>, conversations: seq<Conversation>, items: seq<Item>, late: Option<bool>)
    requires |machines| == |conversations| && late != Some(false)
    requires Arrivals(items, AllEvents(machines, conversations)) && Complete(items, AllEvents(machines, conversations))
    ensures var lists := AllEvents(machines, conversations);
            var k := Stop(items, |machines|, 0);
            var outcome := Verdict(items, |machines|, k, late);
            if machines == [] then outcome == Failure(NoBackends, [], [])
            else
              && (outcome.Merged? <==> forall i :: 0 <= i < |lists| ==> Fatal !in lists[i])
              && (outcome.Merged? ==> outcome.payload == Concat(Parts(items[..k])))
              && (outcome.Failure? ==> outcome.reason == BackendsFailed(FatalBackends(lists)))
              && outcome.metadata == Headers(items[..k]) && outcome.trailers == Footers(items[..k])
  {
    var lists, n := AllEvents(machines, conversations), |machines|;
    var k := Stop(items, n, 0);
    StopsWhenAllFinished(machines, conversations, items);
    ArrivalsPrefix(items, k, lists);
    forall i | 0 <= i < |lists| ensures EndsOnce(lists[i]) && multiset(lists[i])[Fatal] <= 1 {
      FinishesOnce(machines[i], conversations[i]);
    }
    FinishedMeansComplete(items[..k], lists);
    LoopCounts(items[..k], n);
    TotalFatal(items[..k], lists, n);
    assert lists[..n] == lists;
    NoFatalBackends(lists);
    MergedIsConcat(items[..k]);
    MetadataInOrder(items[..k]);
  }

  /** At `k` the loop, with nothing bad before, reads this item while some backend is unfinished. */
  predicate Reads(items: seq<Item>, n: nat, k: nat, item: Item) {
    && k < |items| && items[k] == item && AbsorbAll(items[..k]).finished < n
    && forall j :: 0 <= j < k ==> Harmless(items[j])
  }

  /** All backends finish at `k`, with nothing bad before. */
  predicate AllFinishAt(items: seq<Item>, n: nat, k: nat) {
    && k <= |items| && AbsorbAll(items[..k]).finished >= n
    && (forall j :: 0 <= j < k ==> Harmless(items[j]) && AbsorbAll(items[..j]).finished < n)
  }

  /**
    * Why the loop fails: the deadline or a failed request was read before all backends finished; or the request
    * pump, which had not succeeded by then, failed late; or so many backends were fatal; or everybody left.
    */
  lemma {:induction false} FailureReasons(items: seq<Item>, n: nat, late: Option<bool>) returns (k: nat)
    requires n > 0
    ensures k == Stop(items, n, 0)
    ensures var outcome := Verdict(items, n, k, late);
            && (outcome.Failure? && outcome.reason == DeadlineExceeded <==> Reads(items, n, k, DeadlineHit))
            && (outcome.Failure? && outcome.reason == RequestFailed
                <==> || Reads(items, n, k, RequestDone(false))
                     || (AllFinishAt(items, n, k) && RequestDone(true) !in items[..k] && late == Some(false)))
            && (outcome.Failure? && outcome.reason.BackendsFailed? ==>
                  AllFinishAt(items, n, k) && outcome.reason.count == AbsorbAll(items[..k]).failures > 0)
            && (outcome == Failure(StoppedEarly, [], [])
                <==> k == |items| && AbsorbAll(items).finished < n && forall j :: 0 <= j < k ==> Harmless(items[j]))
            && (outcome.Merged? ==> AllFinishAt(items, n, k) && AbsorbAll(items[..k]).failures == 0)
            && (outcome != Failure(StoppedEarly, [], []) ==>
                  outcome.metadata == Headers(items[..k]) && outcome.trailers == Footers(items[..k]))
            && (outcome.Failure? ==> outcome.reason != NoBackends)
  {
    hide AbsorbAll, Stop;
    k := Stop(items, n, 0);
    StopIsFirst(items, n, 0);
    MetadataInOrder(items[..k]);
    assert items[..|items|] == items;
  }

  /** Every message can be passed on. */
  predicate Passable(machine: Machine, messages: seq<Bytes>) {
    forall i :: 0 <= i < |messages| ==> AppendInfo(machine, messages[i]).Ok?
  }

  lemma {:induction false} PassableFirst(machine: Machine, messages: seq<Bytes>)
    requires messages != []
    ensures Passable(machine, messages) <==> AppendInfo(machine, messages[0]).Ok? && Passable(machine, messages[1..])
  {
    hide AppendInfo;
    assert forall j :: 1 <= j < |messages| ==> messages[j] == messages[1..][j - 1];
  }

  /** The event at `i` tells what an exchange with these messages and this ending must tell there. */
  predicate TellsTrailers(events: seq<BackendEvent>, i: nat, passable: bool, ending: Ending)
    requires i < |events|
  {
    && !events[i].InitialMetadata?
    && (events[i].Trailers? <==> ending.Completed? && ending.trailers.Some? && i == |events| - 2 && passable)
    && (events[i].Trailers? ==> events[i].metadata == ending.trailers.value)
  }

  lemma {:induction false} EndingTrailers(machine: Machine, ending: Ending, i: nat)
    requires i < |MessageEvents(machine, [], ending)|
    ensures TellsTrailers(MessageEvents(machine, [], ending), i, true, ending)
  {
  }

  /** Trailers are sent by an exchange that completes with some, last before the end, and by no other. */
  lemma {:induction false} MessageTrailers(machine: Machine, messages: seq<Bytes>, ending: Ending, i: nat)
    requires i < |MessageEvents(machine, messages, ending)|
    ensures TellsTrailers(MessageEvents(machine, messages, ending), i, Passable(machine, messages), ending)
  {
    hide AppendInfo, Passable, MessageEvents, TellsTrailers;
    if messages == [] {
      EndingTrailers(machine, ending, i);
      NothingToPass(machine, messages);
    } else {
      PassableFirst(machine, messages);
      FirstMessage(machine, messages, ending);
      if AppendInfo(machine, messages[0]).Ok? {
        var rest := MessageEvents(machine, messages[1..], ending);
        if i > 0 { MessageTrailers(machine, messages[1..], ending, i - 1); }
        TellsBehind(Chunk(AppendInfo(machine, messages[0]).value), rest, i, Passable(machine, messages), ending);
      } else {
        FatalTells(i, ending);
      }
    }
  }

  lemma {:induction false} FirstMessage(machine: Machine, messages: seq<Bytes>, ending: Ending)
    requires messages != []
    ensures var first, rest := AppendInfo(machine, messages[0]), MessageEvents(machine, messages[1..], ending);
            && rest != [] && (|rest| == 1 ==> ending.Completed? && ending.trailers.None?)
            && MessageEvents(machine, messages, ending)
               == if first.Ok? then [Chunk(first.value)] + rest else [Fatal, Finished]
  {
    hide AppendInfo;
    MessagesEndOnce(machine, messages[1..], ending);
    if |messages| > 1 { MessagesAreTold(machine, messages[1..], ending); }
  }

  lemma {:induction false} TellsBehind(
      first: BackendEvent, rest: seq<BackendEvent>, i: nat, passable: bool, ending: Ending)
    requires first.Chunk? && rest != [] && i <= |rest|
    requires i > 0 ==> TellsTrailers(rest, i - 1, passable, ending)
    requires i == 0 && |rest| == 1 ==> !(ending.Completed? && ending.trailers.Some? && passable)
    ensures TellsTrailers([first] + rest, i, passable, ending)
  {
  }

  lemma {:induction false} FatalTells(i: nat, ending: Ending)
    requires i < 2
    ensures TellsTrailers([Fatal, Finished], i, false, ending)
  {
  }

  lemma {:induction false} NothingToPass(machine: Machine, messages: seq<Bytes>)
    requires messages == []
    ensures Passable(machine, messages)
  {
  }

  lemma {:induction false} MessagesAreTold(machine: Machine, messages: seq<Bytes>, ending: Ending)
    requires messages != []
    ensures |MessageEvents(machine, messages, ending)| >= 2
  {
    hide AppendInfo;
    MessagesEndOnce(machine, messages[1..], ending);
  }

  /**
    * What a backend tells about its exchange: the headers, first, exactly if there is a message, and the trailers,
    * last before the end, exactly if it completes with some and every message could be passed on.
    */
  lemma {:induction false} BackendMetadata(machine: Machine, conversation: Conversation, i: nat)
    requires i < |BackendEvents(machine, conversation)|
    ensures var events := BackendEvents(machine, conversation);
            && (events[i].InitialMetadata? <==> i == 0 && conversation.Streamed? && conversation.messages != [])
            && (events[i].InitialMetadata? ==> events[i].metadata == conversation.metadata)
            && (events[i].Trailers?
                <==> && conversation.Streamed? && conversation.ending.Completed? && i == |events| - 2
                     && conversation.ending.trailers.Some? && Passable(machine, conversation.messages))
            && (events[i].Trailers? ==> events[i].metadata == conversation.ending.trailers.value)
  {
    hide AppendInfo, MessageEvents;
    if conversation.Streamed? {
      var first := if conversation.messages == [] then 0 else 1;
      if conversation.messages != [] { MessagesAreTold(machine, conversation.messages, conversation.ending); }
      if i >= first {
        MessageTrailers(machine, conversation.messages, conversation.ending, i - first);
      }
    }
  }

  // What the merged payload decodes to

  /** The elements that belong to `i`. */
  function Pick(parts: seq<Bytes>, owners: seq<nat>, i: nat): seq<Bytes>
    requires |parts| == |owners|
  {
    if parts == [] then []
    else
      Pick(parts[..|parts| - 1], owners[..|owners| - 1], i)
      + if owners[|owners| - 1] == i then [parts[|parts| - 1]] else []
  }

  function Chunks(events: seq<BackendEvent>): seq<Bytes> {
    if events == [] then []
    else Chunks(events[..|events| - 1]) + if events[|events| - 1].Chunk? then [events[|events| - 1].payload] else []
  }

  lemma {:induction false} PickSnoc(parts: seq<Bytes>, owners: seq<nat>, part: Bytes, owner: nat, i: nat)
    requires |parts| == |owners|
    ensures Pick(parts + [part], owners + [owner], i) == Pick(parts, owners, i) + if owner == i then [part] else []
  {
    assert (parts + [part])[..|parts|] == parts && (owners + [owner])[..|owners|] == owners;
  }

  lemma {:induction false} ChunksSnoc(events: seq<BackendEvent>, e: BackendEvent)
    ensures Chunks(events + [e]) == Chunks(events) + if e.Chunk? then [e.payload] else []
  {
    assert (events + [e])[..|events|] == events;
  }

  lemma {:induction false} PickProject(items: seq<Item>, i: nat)
    ensures Pick(Parts(items), Owners(items), i) == Chunks(Project(items, i))
  {
    hide Pick, Chunks;
    if items == [] {
      assert Pick([], [], i) == [] == Chunks([]) by { NothingPicked(i); }
    } else {
      var front, last := items[..|items| - 1], items[|items| - 1];
      PickProject(front, i);
      if last.From? {
        ChunksSnoc(Project(front, i), last.event);
        if last.event.Chunk? { PickSnoc(Parts(front), Owners(front), last.event.payload, last.backend, i); }
      }
      assert Project(front, i) + [] == Project(front, i);
      assert Parts(front) + [] == Parts(front) && Owners(front) + [] == Owners(front);
    }
  }

  lemma {:induction false} NothingPicked(i: nat)
    ensures Pick([], [], i) == [] == Chunks([])
  {
  }

  /** What a machine contributes to the merged response: its messages, labelled, then its error if it failed. */
  function Answers(machine: Machine, conversation: Conversation): seq<Bytes>
    requires machine.Known?
  {
    match conversation
    case Refused => [machine.errorMetadata]
    case Streamed(_, messages, ending) =>
      Labelled(machine.metadata, messages) + if ending.Broken? then [machine.errorMetadata] else []
  }

  function Labelled(metadata: Bytes, messages: seq<Bytes>): seq<Bytes> {
    if messages == [] then []
    else [Content(messages[0]) + metadata] + Labelled(metadata, messages[1..])
  }

  /** Everything behind the first header of an encoded response. */
  function Content(response: Bytes): Bytes {
    if Header(response).Ok? && Header(response).value.2 <= |response| then response[Header(response).value.2..] else []
  }

  lemma {:induction false} ChunksAppend(a: seq<BackendEvent>, b: seq<BackendEvent>)
    ensures Chunks(a + b) == Chunks(a) + Chunks(b)
  {
    if b == [] {
      assert a + b == a;
    } else {
      ChunksAppend(a, b[..|b| - 1]);
      assert (a + b)[..|a + b| - 1] == a + b[..|b| - 1];
    }
  }

  lemma {:induction false} ChunksOfOne(e: BackendEvent)
    ensures Chunks([e]) == if e.Chunk? then [e.payload] else []
  {
    assert [e][..0] == [];
  }

  lemma {:induction false} EndingChunks(machine: Machine, ending: Ending)
    requires machine.Known?
    ensures Chunks(MessageEvents(machine, [], ending))
            == if ending.Broken? then [Envelope(machine.errorMetadata)] else []
  {
    hide Envelope;
    ChunksOfOne(Finished);
    if ending.Broken? {
      ChunksOfOne(Chunk(Envelope(machine.errorMetadata)));
      ChunksAppend([Chunk(Envelope(machine.errorMetadata))], [Finished]);
      assert FailureEvents(machine) == [Chunk(Envelope(machine.errorMetadata))] + [Finished];
    } else if ending.trailers.Some? {
      ChunksOfOne(Trailers(ending.trailers.value));
      ChunksAppend([Trailers(ending.trailers.value)], [Finished]);
    } else {
      assert MessageEvents(machine, [], ending) == [Finished];
    }
  }

  lemma {:induction false} AppendIsEnvelope(machine: Machine, message: Bytes)
    requires machine.Known? && AppendInfo(machine, message).Ok?
    ensures AppendInfo(machine, message).value == Envelope(Content(message) + machine.metadata)
  {
    hide Envelope, Header;
  }

  lemma {:induction false} EnvelopesAppend(first: Bytes, rest: seq<Bytes>)
    ensures Envelopes([first] + rest) == [Envelope(first)] + Envelopes(rest)
  {
    hide Envelope;
  }

  lemma {:induction false} MessageChunks(machine: Machine, messages: seq<Bytes>, ending: Ending)
    requires machine.Known? && Fatal !in MessageEvents(machine, messages, ending)
    ensures Chunks(MessageEvents(machine, messages, ending))
            == Envelopes(Labelled(machine.metadata, messages) + if ending.Broken? then [machine.errorMetadata] else [])
  {
    hide Envelope, AppendInfo, Content, Chunks, Envelopes;
    var tail := if ending.Broken? then [machine.errorMetadata] else [];
    if messages == [] {
      EndingChunks(machine, ending);
      assert [] + tail == tail;
      EnvelopesOfAtMostOne(tail);
    } else {
      var chunk := Chunk(AppendInfo(machine, messages[0]).value);
      var rest := MessageEvents(machine, messages[1..], ending);
      assert MessageEvents(machine, messages, ending) == [chunk] + rest;
      MessageChunks(machine, messages[1..], ending);
      ChunksOfOne(chunk);
      ChunksAppend([chunk], rest);
      AppendIsEnvelope(machine, messages[0]);
      var body := Content(messages[0]) + machine.metadata;
      EnvelopesAppend(body, Labelled(machine.metadata, messages[1..]) + tail);
      assert [body] + Labelled(machine.metadata, messages[1..]) + tail
          == [body] + (Labelled(machine.metadata, messages[1..]) + tail);
    }
  }

  lemma {:induction false} EnvelopesOfAtMostOne(bodies: seq<Bytes>)
    requires |bodies| <= 1
    ensures Envelopes(bodies) == if bodies == [] then [] else [Envelope(bodies[0])]
  {
    hide Envelope;
  }

  lemma {:induction false} ChunksAreAnswers(machine: Machine, conversation: Conversation)
    requires machine.Known? && Fatal !in BackendEvents(machine, conversation)
    ensures Chunks(BackendEvents(machine, conversation)) == Envelopes(Answers(machine, conversation))
  {
    hide Envelope, MessageEvents, Labelled;
    match conversation
    case Refused =>
      EndingChunks(machine, Broken);
      assert MessageEvents(machine, [], Broken) == FailureEvents(machine) by { BrokenEvents(machine); }
    case Streamed(metadata, messages, ending) =>
      var rest := MessageEvents(machine, messages, ending);
      MessageChunks(machine, messages, ending);
      if messages != [] {
        ChunksOfOne(InitialMetadata(metadata));
        ChunksAppend([InitialMetadata(metadata)], rest);
      } else {
        assert [] + rest == rest;
      }
  }

  lemma {:induction false} BrokenEvents(machine: Machine)
    ensures MessageEvents(machine, [], Broken) == FailureEvents(machine)
  {
  }

  function Contents(parts: seq<Bytes>): seq<Bytes> {
    seq(|parts|, i requires 0 <= i < |parts| => Content(parts[i]))
  }

  lemma {:induction false} PickContents(parts: seq<Bytes>, owners: seq<nat>, i: nat)
    requires |parts| == |owners|
    ensures Pick(Contents(parts), owners, i) == Contents(Pick(parts, owners, i))
  {
    hide Content;
    if parts != [] {
      PickContents(parts[..|parts| - 1], owners[..|owners| - 1], i);
      assert Contents(parts)[..|parts| - 1] == Contents(parts[..|parts| - 1]);
    }
  }

  lemma {:induction false} Picked(parts: seq<Bytes>, owners: seq<nat>, j: nat)
    requires |parts| == |owners| && j < |parts|
    ensures parts[j] in Pick(parts, owners, owners[j])
  {
    if j < |parts| - 1 {
      var front, those := parts[..|parts| - 1], owners[..|owners| - 1];
      Picked(front, those, j);
      assert front[j] == parts[j] && those[j] == owners[j];
    }
  }

  lemma {:induction false} ContentOfEnvelope(body: Bytes)
    requires |body| < Pow2(U64_BITS)
    ensures Content(Envelope(body)) == body
  {
    hide Pow2, Header, Envelope;
    EnvelopeHeader(body, []);
    assert Envelope(body) + [] == Envelope(body);
    var h := Header(Envelope(body)).value.2;
    assert Envelope(body)[h + |body|..] == [];
    assert Envelope(body)[h..] == Envelope(body)[h..h + |body|] + Envelope(body)[h + |body|..];
  }

  lemma {:induction false} ContentsOfEnvelopes(bodies: seq<Bytes>)
    requires forall i :: 0 <= i < |bodies| ==> |bodies[i]| < Pow2(U64_BITS)
    ensures Contents(Envelopes(bodies)) == bodies
  {
    hide Pow2, Content, Envelope;
    forall i | 0 <= i < |bodies| ensures Content(Envelope(bodies[i])) == bodies[i] { ContentOfEnvelope(bodies[i]); }
  }

  predicate Encodable(body: Bytes) {
    |body| < Pow2(U64_BITS)
  }

  /**
    * Every machine known and none fatal: the merged response decodes to a list of messages in which each
    * machine's share, in order, is its labelled messages, followed by exactly one error message if it failed.
    */
  lemma {:induction false} MergedDecodes(
      machines: seq<Machine>, conversations: seq<Conversation>, items: seq<Item>, late: Option<bool>)
    requires |machines| == |conversations| && late != Some(false)
    requires Arrivals(items, AllEvents(machines, conversations)) && Complete(items, AllEvents(machines, conversations))
    requires forall i :: 0 <= i < |machines| ==>
               && machines[i].Known? && Fatal !in BackendEvents(machines[i], conversations[i])
               && forall body :: body in Answers(machines[i], conversations[i]) ==> Encodable(body)
    ensures var k := Stop(items, |machines|, 0);
            var outcome := Verdict(items, |machines|, k, late);
            && (outcome.Merged? <==> machines != [])
            && (outcome.Merged? ==>
                  && Decode(outcome.payload).Some?
                  && var messages := Decode(outcome.payload).value;
                  && |messages| == |Owners(items[..k])|
                  && (forall j :: 0 <= j < |messages| ==> Owners(items[..k])[j] < |machines|)
                  && (forall i :: 0 <= i < |machines| ==>
                        Pick(messages, Owners(items[..k]), i) == Answers(machines[i], conversations[i])))
  {
    hide Stop, Verdict, Pick, Parts, Owners, Answers, BackendEvents, Encodable, Content;
    var k := Stop(items, |machines|, 0);
    var lists := AllEvents(machines, conversations);
    StopsWhenAllFinished(machines, conversations, items);
    BroadcastOutcome(machines, conversations, items, late);
    ArrivalsPrefix(items, k, lists);
    var parts, owners := Parts(items[..k]), Owners(items[..k]);
    OwnersInRange(items[..k], |machines|);
    forall i | 0 <= i < |machines|
      ensures Pick(parts, owners, i) == Envelopes(Answers(machines[i], conversations[i]))
    {
      PickProject(items[..k], i);
      ChunksAreAnswers(machines[i], conversations[i]);
    }
    forall j | 0 <= j < |parts| ensures Envelope(Content(parts[j])) == parts[j] && Encodable(Content(parts[j])) {
      Picked(parts, owners, j);
      OneOfEnvelopes(parts[j], Answers(machines[owners[j]], conversations[owners[j]]));
    }
    DecodesContents(parts);
    forall i | 0 <= i < |machines| ensures Pick(Contents(parts), owners, i) == Answers(machines[i], conversations[i]) {
      PickContents(parts, owners, i);
      EncodableContents(Answers(machines[i], conversations[i]));
    }
  }

  lemma {:induction false} OwnersInRange(items: seq<Item>, n: nat)
    requires forall k :: 0 <= k < |items| ==> items[k].From? ==> items[k].backend < n
    ensures forall j :: 0 <= j < |Owners(items)| ==> Owners(items)[j] < n
  {
    if items != [] { OwnersInRange(items[..|items| - 1], n); }
  }

  lemma {:induction false} OneOfEnvelopes(part: Bytes, bodies: seq<Bytes>)
    requires part in Envelopes(bodies) && forall body :: body in bodies ==> Encodable(body)
    ensures Envelope(Content(part)) == part && Encodable(Content(part))
  {
    hide Content, Envelope, Pow2;
    var j :| 0 <= j < |bodies| && part == Envelopes(bodies)[j];
    assert Encodable(bodies[j]);
    ContentOfEnvelope(bodies[j]);
  }

  lemma {:induction false} EncodableContents(bodies: seq<Bytes>)
    requires forall body :: body in bodies ==> Encodable(body)
    ensures Contents(Envelopes(bodies)) == bodies
  {
    hide Contents, Envelopes, Pow2;
    forall i | 0 <= i < |bodies| ensures |bodies[i]| < Pow2(U64_BITS) { assert Encodable(bodies[i]); }
    ContentsOfEnvelopes(bodies);
  }

  lemma {:induction false} DecodesContents(parts: seq<Bytes>)
    requires forall j :: 0 <= j < |parts| ==> Envelope(Content(parts[j])) == parts[j] && Encodable(Content(parts[j]))
    ensures Decode(Concat(parts)) == Some(Contents(parts))
  {
    hide Content, Envelope, Pow2, Decode;
    ConcatenationDecodes(Contents(parts));
    assert Envelopes(Contents(parts)) == parts;
  }
}
