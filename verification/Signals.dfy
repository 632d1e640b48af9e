/** One-shot signals: the atomic and locked actions of a signal, as values and as updates in place. */
module Signals {

  /** The published sequence number (0 until fired), the registered wakers by waiter, and the lock's holder. */
  datatype Signal = Signal(sequence: nat, wakers: map<nat, nat>, holder: Holder, drained: bool) {

    /** The compare-exchange of `fire`: only the first number is published. */
    function Publish(number: nat): Signal {
      if sequence == 0 then this.(sequence := number) else this
    }

    /** `fire` empties the list while it holds the lock, waking every entry. */
    function Drain(): Signal {
      this.(wakers := map[], drained := true)
    }

    function Push(waiter: nat, waker: nat): Signal {
      this.(wakers := wakers[waiter := waker])
    }

    function Remove(waiter: nat): Signal {
      this.(wakers := wakers - {waiter})
    }
  }

  datatype Holder = Nobody | Waiter(id: nat)

  const SILENT := Signal(0, map[], Nobody, false)

  datatype Entry = Entry(waiter: nat, waker: nat)

  /** The waker list as the program keeps it: pairs, at most one to a waiter. */
  class WakerList {
    var entries: seq<Entry>

    ghost predicate Valid()
      reads this
    {
      forall i, j :: 0 <= i < j < |entries| ==> entries[i].waiter != entries[j].waiter
    }

    ghost function View(): map<nat, nat>
      reads this
    {
      AsMap(entries)
    }

    constructor ()
      ensures Valid() && View() == map[]
    {
      entries := [];
    }

    /** Replaces the waker of a waiter already listed, or adds the pair at the end. */
    method Push(waiter: nat, waker: nat)
      requires Valid()
      modifies this
      ensures Valid() && View() == old(View())[waiter := waker]
    {
      for i := 0 to |entries|
        invariant entries == old(entries)
        invariant forall j :: 0 <= j < i ==> entries[j].waiter != waiter
      {
        if entries[i].waiter == waiter {
          AsMapReplaced(entries, i, waker);
          entries := entries[i := Entry(waiter, waker)];
          return;
        }
      }
      assert (entries + [Entry(waiter, waker)])[..|entries|] == entries;
      entries := entries + [Entry(waiter, waker)];
    }

    method Remove(waiter: nat)
      requires Valid()
      modifies this
      ensures Valid() && View() == old(View()) - {waiter}
    {
      var kept: seq<Entry> := [];
      for i := 0 to |entries|
        invariant entries == old(entries)
        invariant kept == Others(entries[..i], waiter)
      {
        assert entries[..i + 1][..i] == entries[..i];
        if entries[i].waiter != waiter {
          kept := kept + [entries[i]];
        }
      }
      assert entries[..|entries|] == entries;
      AsMapRemoved(entries, waiter);
      entries := kept;
    }

    /** Takes every entry out; the wakers returned are exactly those that were listed. */
    method Drain() returns (woken: seq<nat>)
      requires Valid()
      modifies this
      ensures Valid() && View() == map[]
      ensures forall k :: k in woken <==> k in old(View()).Values
    {
      woken := [];
      for i := 0 to |entries|
        invariant entries == old(entries)
        invariant forall k :: k in woken <==> exists j :: 0 <= j < i && entries[j].waker == k
      {
        woken := woken + [entries[i].waker];
      }
      AsMapAt(entries);
      assert forall j :: 0 <= j < |entries| ==>
                           entries[j].waiter in View() && View()[entries[j].waiter] == entries[j].waker;
      entries := [];
    }
  }

  function AsMap(entries: seq<Entry>): map<nat, nat> {
    if entries == [] then map[]
    else
      var last := entries[|entries| - 1];
      AsMap(entries[..|entries| - 1])[last.waiter := last.waker]
  }

  /** With one entry to a waiter, looking up the map is finding the entry. */
  lemma {:induction false} AsMapAt(entries: seq<Entry>)
    requires forall i, j :: 0 <= i < j < |entries| ==> entries[i].waiter != entries[j].waiter
    ensures forall w :: w in AsMap(entries) <==> exists i :: 0 <= i < |entries| && entries[i].waiter == w
    ensures forall i :: 0 <= i < |entries| ==>
              entries[i].waiter in AsMap(entries) && AsMap(entries)[entries[i].waiter] == entries[i].waker
  {
    if entries != [] { AsMapAt(entries[..|entries| - 1]); }
  }

  lemma {:induction false} AsMapReplaced(entries: seq<Entry>, i: nat, waker: nat)
    requires forall i, j :: 0 <= i < j < |entries| ==> entries[i].waiter != entries[j].waiter
    requires i < |entries|
    ensures AsMap(entries[i := entries[i].(waker := waker)]) == AsMap(entries)[entries[i].waiter := waker]
  {
    var front := entries[..|entries| - 1];
    var replaced := entries[i := entries[i].(waker := waker)];
    if i < |front| {
      AsMapReplaced(front, i, waker);
      assert replaced[..|replaced| - 1] == front[i := entries[i].(waker := waker)];
    } else {
      assert replaced[..|replaced| - 1] == front;
    }
  }

  function Others(entries: seq<Entry>, waiter: nat): (r: seq<Entry>)
    ensures forall e :: e in r <==> e in entries && e.waiter != waiter
    ensures (forall i, j :: 0 <= i < j < |entries| ==> entries[i].waiter != entries[j].waiter) ==>
              forall i, j :: 0 <= i < j < |r| ==> r[i].waiter != r[j].waiter
  {
    if entries == [] then []
    else
      var front, last := entries[..|entries| - 1], entries[|entries| - 1];
      assert entries == front + [last];
      if last.waiter == waiter then Others(front, waiter) else Others(front, waiter) + [last]
  }

  lemma {:induction false} AsMapRemoved(entries: seq<Entry>, waiter: nat)
    ensures AsMap(Others(entries, waiter)) == AsMap(entries) - {waiter}
  {
    if entries != [] {
      var front, last := entries[..|entries| - 1], entries[|entries| - 1];
      AsMapRemoved(front, waiter);
      UpdateThenRemove(AsMap(front), last.waiter, last.waker, waiter);
      assert (Others(front, waiter) + [last])[..|Others(front, waiter)|] == Others(front, waiter);
    }
  }

  lemma UpdateThenRemove(m: map<nat, nat>, k: nat, v: nat, w: nat)
    ensures m[k := v] - {w} == if k == w then m - {w} else (m - {w})[k := v]
  {
  }
}
