/** The delete-queue sweeper, and its sweeps as runs of the history machine
    (crates/epoch-meta/src/deleter.rs). */
module DeleteQueue {
  import opened Bytes
  import opened Scans
  import opened DeleteEvents
  import opened DeleteHistory

  // ---------------------------------------------------------------- what a sweep may do

  ghost predicate EntryOf(row: Row, f: Filter, e: Entry) {
    row.key == e.key && f.decode(row.value) == Some(e.pending)
  }

  ghost predicate Queued(rows: seq<Row>, f: Filter, e: Entry) {
    exists row :: row in rows && EntryOf(row, f, e)
  }

  /** A due entry of the queue that holds the blob. */
  ghost predicate DueHolder(rows: seq<Row>, f: Filter, e: Entry, id: nat) {
    Queued(rows, f, e) && e.pending.enqueueTs <= f.expireBefore && id in e.pending.Ids()
  }

  /** The row holds the entry, which is due, and whose event is not backing off. */
  ghost predicate Eligible(row: Row, f: Filter, e: Entry) {
    && EntryOf(row, f, e) && e.pending.enqueueTs <= f.expireBefore
    && !(|row.key| >= 21 && row.key[..|row.key| - 4] in f.blocked)
  }

  /** A sweep takes every entry that is due and not backing off, and no other. */
  lemma {:induction false} ChosenIff(rows: seq<Row>, f: Filter, e: Entry)
    ensures e in Chosen(rows, f) <==> exists row :: row in rows && Eligible(row, f, e)
    decreases |rows|
  {
    if rows != [] {
      var init, last := rows[..|rows| - 1], rows[|rows| - 1];
      ChosenIff(init, f, e);
      assert forall row :: row in rows <==> row in init || row == last;
      assert Eligible(last, f, e) <==> Takes(last, f) && e == Entry(last.key, f.decode(last.value).value);
    }
  }

  lemma ChosenAreQueued(rows: seq<Row>, f: Filter, e: Entry)
    requires e in Chosen(rows, f)
    ensures Queued(rows, f, e) && e.pending.enqueueTs <= f.expireBefore
  {
    hide Chosen;
    ChosenIff(rows, f, e);
  }

  /** What a sweep did: every key it removed held only acknowledged blobs, and every blob it
      acknowledged was due. */
  ghost predicate Swept(rows: seq<Row>, f: Filter, removed: seq<Entry>, acked: set<nat>) {
    && (forall e | e in removed :: Queued(rows, f, e) && e.pending.Ids() <= acked)
    && (forall id | id in acked :: exists e :: DueHolder(rows, f, e, id))
  }

  ghost predicate AllDue(rows: seq<Row>, f: Filter, entries: seq<Entry>) {
    forall e | e in entries :: Queued(rows, f, e) && e.pending.enqueueTs <= f.expireBefore
  }

  lemma EventIsDue(rows: seq<Row>, start: Bytes, end: Bytes, visited: seq<Row>, f: Filter, events: seq<Event>, i: nat)
    requires visited <= InRange(rows, start, end) && Flatten(events) == Chosen(visited, f) && i < |events|
    ensures AllDue(rows, f, events[i].entries)
  {
    hide InRange, Flatten, Chosen;
    forall e | e in events[i].entries ensures Queued(rows, f, e) && e.pending.enqueueTs <= f.expireBefore {
      EventEntriesAreFlat(events, i, e);
      ChosenAreQueued(visited, f, e);
      var row :| row in visited && EntryOf(row, f, e);
      assert row in InRange(rows, start, end);
      InRangeHolds(rows, start, end, row);
    }
  }

  lemma SweptGrows(rows: seq<Row>, f: Filter, removed: seq<Entry>, acked: set<nat>,
                   entries: seq<Entry>, gone: seq<Entry>, some: set<nat>)
    requires Swept(rows, f, removed, acked) && AllDue(rows, f, entries)
    requires some <= IdsOf(SlicesOf(entries))
    requires gone == [] || (gone == entries && some == IdsOf(SlicesOf(entries)))
    ensures Swept(rows, f, removed + gone, acked + some)
  {
    hide IdsOf, Queued;
    forall e | e in removed + gone ensures Queued(rows, f, e) && e.pending.Ids() <= acked + some {
      if e !in removed {
        forall id | id in e.pending.Ids() ensures id in some {
          IdsOfEntries(entries, id);
        }
      }
    }
    forall id | id in acked + some ensures exists e :: DueHolder(rows, f, e, id) {
      if id !in acked {
        IdsOfEntries(entries, id);
        var e :| e in entries && id in e.pending.Ids();
        assert DueHolder(rows, f, e, id);
      }
    }
  }

  // ---------------------------------------------------------------- a sweep as a run

  ghost function EventSteps(node: nat, sink: Sink, event: Event, proposed: bool): seq<Step> {
    if !EventOk(sink, event) then [Tombstone(node, sink)]
    else if proposed then [Tombstone(node, sink), Submit(node), ApplyDelete(event.entries), Answer(node, true)]
    else [Tombstone(node, sink), Submit(node), Answer(node, false)]
  }

  /** The books after some events: what is left of the queue and what has been acknowledged. */
  ghost predicate Books(w: World, v: World, removed: seq<Entry>, acked: set<nat>) {
    v.queue == w.queue - KeysOf(removed) && v.acked == w.acked + acked && v.log == w.log && v.clock == w.clock
  }

  ghost predicate Reaches(w: World, delay: nat, steps: seq<Step>, v: World) {
    Runs(w, delay, steps) && Finally(w, delay, steps) == v
  }

  lemma {:induction false} RunsConcat(w: World, delay: nat, a: seq<Step>, v: World, b: seq<Step>, x: World)
    requires Reaches(w, delay, a, v) && Reaches(v, delay, b, x)
    ensures Reaches(w, delay, a + b, x)
    decreases |a|
  {
    hide Enabled, Next;
    if a == [] {
      assert a + b == b;
    } else {
      RunsConcat(Next(w, delay, a[0]), delay, a[1..], v, b, x);
      assert (a + b)[0] == a[0] && (a + b)[1..] == a[1..] + b;
    }
  }

  lemma OneStep(w: World, delay: nat, step: Step)
    requires Enabled(w, delay, step)
    ensures Reaches(w, delay, [step], Next(w, delay, step))
  {
    hide Enabled, Next;
    var one, v := [step], Next(w, delay, step);
    assert one[0] == step && one[1..] == [];
    assert Runs(v, delay, one[1..]) && Finally(v, delay, one[1..]) == v;
  }

  lemma StepOn(w: World, delay: nat, steps: seq<Step>, v: World, step: Step)
    requires Reaches(w, delay, steps, v) && Enabled(v, delay, step)
    ensures Reaches(w, delay, steps + [step], Next(v, delay, step))
  {
    hide Enabled, Next, Reaches;
    OneStep(v, delay, step);
    RunsConcat(w, delay, steps, v, [step], Next(v, delay, step));
  }

  /** One turn of the sweep loop is these steps of the machine. Other nodes' steps may come between
      any two of them. */
  lemma EventIsRun(w: World, delay: nat, node: nat, sink: Sink, proposed: bool) returns (v: World)
    requires InPhase(w, node, Working)
    ensures var s := w.sweeps[node]; var ok := EventOk(sink, s.events[0]);
            && Reaches(w, delay, EventSteps(node, sink, s.events[0], proposed), v)
            && Books(w, v, if ok && proposed then s.events[0].entries else [], EventAcks(sink, s.events[0]))
            && ((ok && !proposed) || (node in v.sweeps && v.sweeps[node] == Sweep(s.f, s.events[1..], Working)))
  {
    hide EventOk, EventAcks, Reaches, KeysOf;
    var s := w.sweeps[node];
    var path := [Tombstone(node, sink)];
    v := Next(w, delay, Tombstone(node, sink));
    OneStep(w, delay, Tombstone(node, sink));
    NoKeys(w.queue);
    if EventOk(sink, s.events[0]) {
      StepOn(w, delay, path, v, Submit(node));
      path, v := path + [Submit(node)], Next(v, delay, Submit(node));
      if proposed {
        StepOn(w, delay, path, v, ApplyDelete(s.events[0].entries));
        path, v := path + [ApplyDelete(s.events[0].entries)], Next(v, delay, ApplyDelete(s.events[0].entries));
      }
      StepOn(w, delay, path, v, Answer(node, proposed));
      path, v := path + [Answer(node, proposed)], Next(v, delay, Answer(node, proposed));
    }
    assert path == EventSteps(node, sink, s.events[0], proposed);
  }

  lemma NoKeys(queue: map<Bytes, Pending>)
    ensures queue - KeysOf([]) == queue
  {
  }

  lemma BooksAddUp(w: World, v: World, x: World, removed: seq<Entry>, acked: set<nat>, gone: seq<Entry>, some: set<nat>)
    requires Books(w, v, removed, acked) && Books(v, x, gone, some)
    ensures Books(w, x, removed + gone, acked + some)
  {
    assert KeysOf(removed + gone) == KeysOf(removed) + KeysOf(gone);
    assert w.queue - KeysOf(removed) - KeysOf(gone) == w.queue - (KeysOf(removed) + KeysOf(gone));
  }

  /** Beginning and reading what was visited puts the collected events in the node's hands. */
  lemma CollectIsRun(w: World, delay: nat, node: nat, f: Filter, visited: seq<Row>, events: seq<Event>)
    returns (v: World)
    requires f.expireBefore == w.clock - delay && Stored(visited, f, w.queue) && Flatten(events) == Chosen(visited, f)
    ensures Reaches(w, delay, [Begin(node, f), ReadPage(node, visited, events), Work(node)], v)
    ensures Books(w, v, [], {}) && node in v.sweeps && v.sweeps[node] == Sweep(f, events, Working)
  {
    hide Reaches, Chosen, Stored, KeysOf;
    var path := [Begin(node, f)];
    v := Next(w, delay, Begin(node, f));
    OneStep(w, delay, Begin(node, f));
    assert Flatten([]) == [] && [] + Chosen(visited, f) == Chosen(visited, f);
    StepOn(w, delay, path, v, ReadPage(node, visited, events));
    path, v := path + [ReadPage(node, visited, events)], Next(v, delay, ReadPage(node, visited, events));
    StepOn(w, delay, path, v, Work(node));
    path, v := path + [Work(node)], Next(v, delay, Work(node));
    assert path == [Begin(node, f), ReadPage(node, visited, events), Work(node)];
    NoKeys(w.queue);
  }

  // ---------------------------------------------------------------- the deleter

  function Recorded(backoff: map<Bytes, Backoff>, prefix: Bytes): Option<Backoff> {
    if prefix in backoff then Some(backoff[prefix]) else None
  }

  class Deleter {
    const safetyDelay: nat
    var backoff: map<Bytes, Backoff>

    constructor (delay: nat)
      ensures safetyDelay == delay && backoff == map[]
    {
      safetyDelay := delay;
      backoff := map[];
    }

    function Blocked(now: nat): set<Bytes>
      reads this
    {
      set p | p in backoff && backoff[p].next > now
    }

    method RegisterBackoff(prefix: Bytes, now: nat)
      modifies this
      ensures backoff == old(backoff)[prefix := BackedOff(Recorded(old(backoff), prefix), now)]
    {
      backoff := backoff[prefix := BackedOff(Recorded(backoff, prefix), now)];
    }

    method ClearBackoff(prefix: Bytes)
      modifies this
      ensures backoff == old(backoff) - {prefix}
    {
      backoff := backoff - {prefix};
    }

    /** One event: tombstone every reference, then dequeue its entries in one proposal. */
    method SweepEvent(event: Event, sink: Sink, proposed: bool, now: nat)
      returns (removed: seq<Entry>, acked: set<nat>, stop: bool)
      modifies this
      ensures acked == EventAcks(sink, event)
      ensures removed == if EventOk(sink, event) && proposed then event.entries else []
      ensures stop <==> EventOk(sink, event) && !proposed
      ensures EventOk(sink, event) ==> backoff == old(backoff) - {event.prefix}
      ensures !EventOk(sink, event) ==>
                backoff == old(backoff)[event.prefix := BackedOff(Recorded(old(backoff), event.prefix), now)]
      ensures !EventOk(sink, event) ==> event.prefix in backoff && backoff[event.prefix].next > now
    {
      hide EventAcks, EventOk;
      var failed, some := TombstoneEvent(event, sink);
      removed, acked, stop := [], some, false;
      if failed == 0 {
        ClearBackoff(event.prefix);
        if proposed {
          removed := event.entries;
        } else {
          stop := true;
        }
      } else {
        RegisterBackoff(event.prefix, now);
      }
    }

    /** Whatever the sink refuses and whichever proposals are lost, a sweep removes an entry only
        after all its blobs were acknowledged and touches only entries past the safety delay. It
        removes exactly the events that were tombstoned in full up to the first lost proposal: a
        refused blob holds up its own event only. Run by `node` over the stored rows of `w`, the
        sweep is `steps` of the history machine. */
    method Sweep(rows: seq<Row>, start: Bytes, end: Bytes, decode: Bytes -> Option<Pending>, isLeader: bool,
                 nowMillis: int, now: nat, sinks: nat -> Sink, proposals: nat -> bool, pageSize: nat,
                 ghost w: World, ghost node: nat)
      returns (r: Result<nat, SweepError>, removed: seq<Entry>, acked: set<nat>, ghost visited: seq<Row>,
               ghost events: seq<Event>, ghost steps: seq<Step>)
      requires pageSize > 0 && Ascending(Keys(rows))
      modifies this
      ensures var waiting := set p | p in old(backoff) && old(backoff)[p].next > now;
              Swept(rows, Filter(decode, nowMillis - safetyDelay, waiting), removed, acked)
      ensures !isLeader || r.Failure? ==> removed == [] && acked == {}
      ensures !isLeader ==> r == Success(0)
      ensures r.Failure? ==>
        var f := Filter(decode, nowMillis - safetyDelay, set p | p in old(backoff) && old(backoff)[p].next > now);
        exists i :: 0 <= i < |InRange(rows, start, end)| && Unusable(InRange(rows, start, end)[i], f)
      ensures r.Success? ==> r.value == |removed|
      ensures isLeader && r.Success? ==>
        var waiting := set p | p in old(backoff) && old(backoff)[p].next > now;
        && WellGrouped(events) && Flatten(events) == Chosen(visited, Filter(decode, nowMillis - safetyDelay, waiting))
        && (visited == InRange(rows, start, end) || |events| >= pageSize)
        && Removes(events, sinks, proposals, |events|, removed)
      ensures visited <= InRange(rows, start, end)
      ensures isLeader && r.Success? && NothingFails(sinks, proposals) ==>
        var waiting := set p | p in old(backoff) && old(backoff)[p].next > now;
        && removed == Chosen(visited, Filter(decode, nowMillis - safetyDelay, waiting))
        && (visited == InRange(rows, start, end) || |removed| >= pageSize)
      ensures Stored(rows, Filter(decode, 0, {}), w.queue) && w.clock == nowMillis ==>
        Runs(w, safetyDelay, steps) && Books(w, Finally(w, safetyDelay, steps), removed, acked)
    {
      hide Ascending, Keys, InRange, IdsOf, DueHolder, Queued, Chosen, Flatten, EventOk, EventAcks, SlicesOf,
        Stored, Books, Reaches, Runs, Unusable, WellGrouped, Removes, NoneLost;
      removed, acked, visited, events, steps := [], {}, [], [], [];
      var f := Filter(decode, nowMillis - safetyDelay, Blocked(now));
      ghost var tied := Stored(rows, Filter(decode, 0, {}), w.queue) && w.clock == nowMillis;
      NothingDone(w, safetyDelay);
      if !isLeader {
        return Success(0), removed, acked, visited, events, steps;
      }
      var collected;
      collected, visited := Collect(rows, start, end, f, pageSize);
      if collected.Failure? {
        return Failure(collected.error), removed, acked, visited, events, steps;
      }
      var found := collected.value;
      events := found;
      FlattenIsWide(events);
      NothingRemoved(events, sinks, proposals);
      NoEvents(f);
      assert events[..0] == [] && events[0..] == events;
      ghost var v := w;
      if tied {
        VisitedIsStored(rows, start, end, visited, f, w.queue);
        v := CollectIsRun(w, safetyDelay, node, f, visited, events);
        steps := [Begin(node, f), ReadPage(node, visited, events), Work(node)];
      }
      for i := 0 to |found|
        invariant events == found && Swept(rows, f, removed, acked)
        invariant Removes(events, sinks, proposals, i, removed) && NoneLost(events, sinks, proposals, i)
        invariant NothingFails(sinks, proposals) ==> removed == Flatten(events[..i])
        invariant tied ==> Reaches(w, safetyDelay, steps, v) && Books(w, v, removed, acked)
        invariant tied ==> node in v.sweeps && v.sweeps[node] == DeleteHistory.Sweep(f, events[i..], Working)
      {
        FlattenStep(events, i);
        assert events[i..][0] == events[i] && events[i..][1..] == events[i + 1..];
        var gone, some, stop := SweepEvent(found[i], sinks(i), proposals(i), now);
        RemovesStep(events, sinks, proposals, i, removed, gone);
        EventIsDue(rows, start, end, visited, f, events, i);
        EventAcksAreIds(sinks(i), events[i]);
        SweptGrows(rows, f, removed, acked, events[i].entries, gone, some);
        if tied {
          ghost var x := EventIsRun(v, safetyDelay, node, sinks(i), proposals(i));
          RunsConcat(w, safetyDelay, steps, v, EventSteps(node, sinks(i), events[i], proposals(i)), x);
          BooksAddUp(w, v, x, removed, acked, gone, some);
          v, steps := x, steps + EventSteps(node, sinks(i), events[i], proposals(i));
        }
        if NothingFails(sinks, proposals) {
          NothingFailsHere(sinks, proposals, i, events[i]);
        }
        removed, acked := removed + gone, acked + some;
        if stop {
          LostEndsSweep(events, sinks, proposals, i, removed);
          break;
        }
      }
      assert events[..|events|] == events;
      if tied {
        ReachesRuns(w, safetyDelay, steps, v);
      }
      r := Success(|removed|);
    }
  }

  /** Event `i` was tombstoned in full, and no such event up to it had its proposal lost. */
  ghost predicate DequeuedAt(events: seq<Event>, sinks: nat -> Sink, proposals: nat -> bool, i: nat) {
    && i < |events| && EventOk(sinks(i), events[i])
    && forall j: nat | j <= i && EventOk(sinks(j), events[j]) :: proposals(j)
  }

  /** Of the first `n` events exactly the entries of those dequeued are removed. */
  ghost predicate Removes(events: seq<Event>, sinks: nat -> Sink, proposals: nat -> bool, n: nat,
                          removed: seq<Entry>)
  {
    forall e :: e in removed <==>
      exists i: nat :: i < n && DequeuedAt(events, sinks, proposals, i) && e in events[i].entries
  }

  ghost predicate NoneLost(events: seq<Event>, sinks: nat -> Sink, proposals: nat -> bool, n: nat)
    requires n <= |events|
  {
    forall j: nat | j < n && EventOk(sinks(j), events[j]) :: proposals(j)
  }

  lemma NothingRemoved(events: seq<Event>, sinks: nat -> Sink, proposals: nat -> bool)
    ensures Removes(events, sinks, proposals, 0, []) && NoneLost(events, sinks, proposals, 0)
  {
  }

  lemma RemovesStep(events: seq<Event>, sinks: nat -> Sink, proposals: nat -> bool, i: nat, removed: seq<Entry>,
                    gone: seq<Entry>)
    requires i < |events| && Removes(events, sinks, proposals, i, removed) && NoneLost(events, sinks, proposals, i)
    requires gone == if EventOk(sinks(i), events[i]) && proposals(i) then events[i].entries else []
    ensures Removes(events, sinks, proposals, i + 1, removed + gone)
    ensures EventOk(sinks(i), events[i]) ==> proposals(i) ==> NoneLost(events, sinks, proposals, i + 1)
    ensures !EventOk(sinks(i), events[i]) ==> NoneLost(events, sinks, proposals, i + 1)
  {
    hide EventOk;
    assert DequeuedAt(events, sinks, proposals, i) <==> EventOk(sinks(i), events[i]) && proposals(i);
    forall e
      ensures e in removed + gone <==>
        exists k: nat :: k < i + 1 && DequeuedAt(events, sinks, proposals, k) && e in events[k].entries
    {
      assert e in removed + gone <==> e in removed || e in gone;
    }
  }

  lemma LostEndsSweep(events: seq<Event>, sinks: nat -> Sink, proposals: nat -> bool, i: nat, removed: seq<Entry>)
    requires i < |events| && Removes(events, sinks, proposals, i + 1, removed)
    requires EventOk(sinks(i), events[i]) && !proposals(i)
    ensures Removes(events, sinks, proposals, |events|, removed)
  {
    hide EventOk;
  }

  lemma NothingDone(w: World, delay: nat)
    ensures Runs(w, delay, []) && Books(w, Finally(w, delay, []), [], {})
  {
    NoKeys(w.queue);
  }

  lemma ReachesRuns(w: World, delay: nat, steps: seq<Step>, v: World)
    requires Reaches(w, delay, steps, v)
    ensures Runs(w, delay, steps) && Finally(w, delay, steps) == v
  {
  }

  lemma VisitedIsStored(rows: seq<Row>, start: Bytes, end: Bytes, visited: seq<Row>, f: Filter,
                        queue: map<Bytes, Pending>)
    requires visited <= InRange(rows, start, end) && Stored(rows, Filter(f.decode, 0, {}), queue)
    ensures Stored(visited, f, queue)
  {
    hide InRange;
    forall row | row in visited ensures row.key in queue && f.decode(row.value) == Some(queue[row.key]) {
      assert row in InRange(rows, start, end);
      InRangeHolds(rows, start, end, row);
    }
  }

  ghost predicate NothingFails(sinks: nat -> Sink, proposals: nat -> bool) {
    forall i: nat :: proposals(i) && forall a: nat, b: nat :: sinks(i)(a, b)
  }

  lemma NothingFailsHere(sinks: nat -> Sink, proposals: nat -> bool, i: nat, event: Event)
    requires NothingFails(sinks, proposals)
    ensures proposals(i) && EventOk(sinks(i), event)
  {
    hide SlicesOf;
  }

  lemma FlattenStep(events: seq<Event>, i: nat)
    requires i < |events|
    ensures Flatten(events[..i + 1]) == Flatten(events[..i]) + events[i].entries
  {
    assert events[..i + 1][..i] == events[..i];
  }

  lemma {:induction false} FlattenIsWide(events: seq<Event>)
    requires WellGrouped(events)
    ensures |Flatten(events)| >= |events|
    decreases |events|
  {
    hide OfPrefix;
    if events != [] {
      FlattenIsWide(events[..|events| - 1]);
      assert events[|events| - 1].entries != [];
    }
  }
}
