/** What a delete-queue sweep is made of: collecting due events page by page, tombstoning one event,
    backing off (crates/epoch-meta/src/deleter.rs). */
module DeleteEvents {
  import opened Bytes
  import opened Scans

  // ---------------------------------------------------------------- entries and events

  /** What one queue entry asks to tombstone, and when it was enqueued. */
  datatype Pending = Pending(slices: seq<Slice>, enqueueTs: int) {
    function Ids(): set<nat> {
      IdsOf(slices)
    }
  }

  datatype Entry = Entry(key: Bytes, pending: Pending)

  datatype Event = Event(prefix: Bytes, entries: seq<Entry>)

  datatype SweepError = MalformedEntry | KeyTooShort

  /** `q | bucket | routing | seq`: the key without its 4-byte segment number. */
  function EventPrefix(key: Bytes): Option<Bytes> {
    if |key| < 21 then None else Some(key[..|key| - 4])
  }

  function Grown(events: seq<Event>, e: Entry, prefix: Bytes): seq<Event> {
    var n := |events| - 1;
    if events != [] && events[n].prefix == prefix then events[..n] + [Event(prefix, events[n].entries + [e])]
    else events + [Event(prefix, [e])]
  }

  function Flatten(events: seq<Event>): seq<Entry> {
    if events == [] then [] else Flatten(events[..|events| - 1]) + events[|events| - 1].entries
  }

  lemma GrownFlattens(events: seq<Event>, e: Entry, prefix: Bytes)
    ensures Flatten(Grown(events, e, prefix)) == Flatten(events) + [e]
  {
    var n, after := |events| - 1, Grown(events, e, prefix);
    if events != [] && events[n].prefix == prefix {
      assert after[..|after| - 1] == events[..n];
    } else {
      assert after[..|after| - 1] == events;
    }
  }

  /** What a sweep looks for: how values decode, the latest due timestamp, and the events backing off. */
  datatype Filter = Filter(decode: Bytes -> Option<Pending>, expireBefore: int, blocked: set<Bytes>)

  /** The entries a sweep takes from a scan: decoded, old enough, and not backing off. */
  function Chosen(rows: seq<Row>, f: Filter): seq<Entry> {
    if rows == [] then []
    else
      var before, last := Chosen(rows[..|rows| - 1], f), rows[|rows| - 1];
      if Takes(last, f) then before + [Entry(last.key, f.decode(last.value).value)] else before
  }

  predicate Takes(row: Row, f: Filter) {
    && f.decode(row.value).Some? && f.decode(row.value).value.enqueueTs <= f.expireBefore
    && !(EventPrefix(row.key).Some? && EventPrefix(row.key).value in f.blocked)
  }

  /** Every event is non-empty and holds entries of its own prefix, and no run of entries with one
      prefix is cut in two. */
  ghost predicate WellGrouped(events: seq<Event>) {
    && (forall i | 0 <= i < |events| :: events[i].entries != [] && OfPrefix(events[i]))
    && (forall i | 0 < i < |events| :: events[i - 1].prefix != events[i].prefix)
  }

  ghost predicate OfPrefix(event: Event) {
    forall j | 0 <= j < |event.entries| :: EventPrefix(event.entries[j].key) == Some(event.prefix)
  }

  lemma GrownStaysGrouped(events: seq<Event>, e: Entry, prefix: Bytes)
    requires WellGrouped(events) && EventPrefix(e.key) == Some(prefix)
    ensures WellGrouped(Grown(events, e, prefix))
  {
    hide EventPrefix;
  }

  lemma GrownByOne(events: seq<Event>, e: Entry, prefix: Bytes)
    ensures |Grown(events, e, prefix)| <= |events| + 1
  {
  }

  /** One row of the scan loop. */
  method TakeRow(row: Row, events: seq<Event>, f: Filter)
    returns (r: Result<seq<Event>, SweepError>)
    requires WellGrouped(events)
    ensures r.Failure? && r.error == MalformedEntry <==> f.decode(row.value).None?
    ensures r == Failure(KeyTooShort) <==> Takes(row, f) && |row.key| < 21
    ensures r.Failure? <==> Unusable(row, f)
    ensures r.Success? ==> WellGrouped(r.value) && |r.value| <= |events| + 1
    ensures r.Success? ==>
      Flatten(r.value) ==
      Flatten(events) + if Takes(row, f) then [Entry(row.key, f.decode(row.value).value)] else []
  {
    hide WellGrouped, Grown, Flatten;
    var pending := f.decode(row.value);
    if pending.None? {
      return Failure(MalformedEntry);
    }
    if !Takes(row, f) {
      return Success(events);
    }
    var prefix := EventPrefix(row.key);
    if prefix.None? {
      return Failure(KeyTooShort);
    }
    var e := Entry(row.key, pending.value);
    GrownFlattens(events, e, prefix.value);
    GrownStaysGrouped(events, e, prefix.value);
    GrownByOne(events, e, prefix.value);
    r := Success(Grown(events, e, prefix.value));
  }

  method TakePage(page: seq<Row>, events: seq<Event>, ghost visited: seq<Row>, f: Filter)
    returns (r: Result<seq<Event>, SweepError>)
    requires WellGrouped(events) && Flatten(events) == Chosen(visited, f)
    ensures r.Success? ==> WellGrouped(r.value) && Flatten(r.value) == Chosen(visited + page, f)
    ensures r.Success? ==> |r.value| <= |events| + |page|
    ensures r.Failure? <==> exists i :: 0 <= i < |page| && Unusable(page[i], f)
  {
    hide WellGrouped, Flatten, Takes, Unusable, Chosen;
    var out := events;
    assert visited + page[..0] == visited;
    for i := 0 to |page|
      invariant WellGrouped(out) && Flatten(out) == Chosen(visited + page[..i], f)
      invariant |out| <= |events| + i && forall k | 0 <= k < i :: !Unusable(page[k], f)
    {
      var step := TakeRow(page[i], out, f);
      if step.Failure? {
        return Failure(step.error);
      }
      out := step.value;
      ChosenStep(visited, page, i, f);
    }
    assert page[..|page|] == page;
    r := Success(out);
  }

  lemma ChosenStep(visited: seq<Row>, page: seq<Row>, i: nat, f: Filter)
    requires i < |page|
    ensures Chosen(visited + page[..i + 1], f) ==
              Chosen(visited + page[..i], f)
              + if Takes(page[i], f) then [Entry(page[i].key, f.decode(page[i].value).value)] else []
  {
    hide Takes;
    assert (visited + page[..i + 1])[..|visited| + i] == visited + page[..i];
  }

  /** A row that ends the sweep before anything is tombstoned. */
  predicate Unusable(row: Row, f: Filter) {
    f.decode(row.value).None? || (Takes(row, f) && |row.key| < 21)
  }

  /** Collects events in key order, page by page, until the range ends or a page's worth of events
      is in hand, and no further. */
  method Collect(rows: seq<Row>, start: Bytes, end: Bytes, f: Filter, pageSize: nat)
    returns (r: Result<seq<Event>, SweepError>, ghost visited: seq<Row>)
    requires pageSize > 0 && Ascending(Keys(rows))
    ensures visited <= InRange(rows, start, end)
    ensures r.Success? ==> WellGrouped(r.value) && Flatten(r.value) == Chosen(visited, f)
    ensures r.Success? ==> visited == InRange(rows, start, end) || |r.value| >= pageSize
    ensures r.Success? ==> |r.value| < 2 * pageSize
    ensures r.Success? ==> forall i | 0 <= i < |visited| :: !Unusable(visited[i], f)
    ensures r.Failure? ==>
      exists i :: 0 <= i < |InRange(rows, start, end)| && Unusable(InRange(rows, start, end)[i], f)
  {
    hide InRange, Ascending, Less, AtMost, Keys, WellGrouped, Flatten, Unusable, Chosen;
    var events: seq<Event> := [];
    visited := [];
    var cursor := start;
    NoEvents(f);
    while true
      invariant visited + InRange(rows, cursor, end) == InRange(rows, start, end)
      invariant WellGrouped(events) && Flatten(events) == Chosen(visited, f) && |events| < pageSize
      invariant forall i | 0 <= i < |visited| :: !Unusable(visited[i], f)
      decreases |InRange(rows, cursor, end)|
    {
      var page := Scan(rows, cursor, end, pageSize);
      if page == [] {
        break;
      }
      PageStep(rows, cursor, end, pageSize, visited);
      cursor := page[|page| - 1].key + [0];
      var step := TakePage(page, events, visited, f);
      if step.Failure? {
        ghost var i :| 0 <= i < |page| && Unusable(page[i], f);
        assert InRange(rows, start, end)[|visited| + i] == page[i];
        return Failure(step.error), visited;
      }
      events := step.value;
      visited := visited + page;
      if |events| >= pageSize {
        break;
      }
    }
    r := Success(events);
  }

  lemma NoEvents(f: Filter)
    ensures WellGrouped([]) && Flatten([]) == [] && Chosen([], f) == []
  {
  }

  // ---------------------------------------------------------------- tombstoning one event

  function SlicesOf(entries: seq<Entry>): seq<Slice> {
    if entries == [] then [] else SlicesOf(entries[..|entries| - 1]) + entries[|entries| - 1].pending.slices
  }

  /** The sink's answer for each blob of each slice of the event. */
  type Sink = (nat, nat) -> bool

  predicate SliceOk(sink: Sink, i: nat, slice: Slice) {
    forall j | 0 <= j < |slice.blobIds| :: sink(i, j)
  }

  /** The blobs from position `j` on that come before the first refusal. */
  function SliceAcks(sink: Sink, i: nat, ids: seq<nat>, j: nat): set<nat>
    requires j <= |ids|
    decreases |ids| - j
  {
    if j == |ids| || !sink(i, j) then {} else {ids[j]} + SliceAcks(sink, i, ids, j + 1)
  }

  /** The blobs of the first `n` slices that the data nodes acknowledged. */
  function AcksUpTo(sink: Sink, slices: seq<Slice>, n: nat): set<nat>
    requires n <= |slices|
  {
    if n == 0 then {} else AcksUpTo(sink, slices, n - 1) + SliceAcks(sink, n - 1, slices[n - 1].blobIds, 0)
  }

  function EventAcks(sink: Sink, event: Event): set<nat> {
    AcksUpTo(sink, SlicesOf(event.entries), |SlicesOf(event.entries)|)
  }

  /** One slice's task: its blobs in order, up to the first refusal. */
  method TombstoneSlice(i: nat, slice: Slice, sink: Sink) returns (ok: bool, acked: set<nat>)
    ensures ok <==> SliceOk(sink, i, slice)
    ensures acked == SliceAcks(sink, i, slice.blobIds, 0)
  {
    var ids := slice.blobIds;
    acked := {};
    for j := 0 to |ids|
      invariant forall x | 0 <= x < j :: sink(i, x)
      invariant acked + SliceAcks(sink, i, ids, j) == SliceAcks(sink, i, ids, 0)
    {
      if !sink(i, j) {
        return false, acked;
      }
      acked := acked + {ids[j]};
    }
    ok := true;
  }

  lemma IdIsListed(slices: seq<Slice>, i: nat, j: nat)
    requires i < |slices| && j < |slices[i].blobIds|
    ensures slices[i].blobIds[j] in IdsOf(slices)
  {
  }

  lemma IdsOfSplits(a: seq<Slice>, b: seq<Slice>)
    ensures IdsOf(a + b) == IdsOf(a) + IdsOf(b)
  {
    forall id | id in IdsOf(a + b) ensures id in IdsOf(a) + IdsOf(b) {
      var i, k :| 0 <= i < |a + b| && 0 <= k < |(a + b)[i].blobIds| && (a + b)[i].blobIds[k] == id;
      if i < |a| {
        IdIsListed(a, i, k);
      } else {
        IdIsListed(b, i - |a|, k);
      }
    }
    forall id | id in IdsOf(a) ensures id in IdsOf(a + b) {
      var i, k :| 0 <= i < |a| && 0 <= k < |a[i].blobIds| && a[i].blobIds[k] == id;
      assert (a + b)[i] == a[i];
      IdIsListed(a + b, i, k);
    }
    forall id | id in IdsOf(b) ensures id in IdsOf(a + b) {
      var i, k :| 0 <= i < |b| && 0 <= k < |b[i].blobIds| && b[i].blobIds[k] == id;
      assert (a + b)[|a| + i] == b[i];
      IdIsListed(a + b, |a| + i, k);
    }
  }

  predicate EventOk(sink: Sink, event: Event) {
    forall i | 0 <= i < |SlicesOf(event.entries)| :: SliceOk(sink, i, SlicesOf(event.entries)[i])
  }

  /** Every reference of the event is tried; it succeeds only when none was refused. */
  method TombstoneEvent(event: Event, sink: Sink) returns (failed: nat, acked: set<nat>)
    ensures failed == 0 <==> EventOk(sink, event)
    ensures acked == EventAcks(sink, event)
  {
    hide SliceOk;
    var slices := SlicesOf(event.entries);
    failed, acked := 0, {};
    for i := 0 to |slices|
      invariant failed == 0 <==> forall x | 0 <= x < i :: SliceOk(sink, x, slices[x])
      invariant acked == AcksUpTo(sink, slices, i)
    {
      var ok, some := TombstoneSlice(i, slices[i], sink);
      acked := acked + some;
      if !ok {
        failed := failed + 1;
      }
    }
  }

  lemma {:induction false} SliceAcksAreIds(sink: Sink, i: nat, slice: Slice, j: nat)
    requires j <= |slice.blobIds|
    ensures SliceAcks(sink, i, slice.blobIds, j) <= IdsOf([slice])
    ensures SliceOk(sink, i, slice) ==>
      forall k | j <= k < |slice.blobIds| :: slice.blobIds[k] in SliceAcks(sink, i, slice.blobIds, j)
    decreases |slice.blobIds| - j
  {
    hide IdsOf;
    if j < |slice.blobIds| {
      SliceAcksAreIds(sink, i, slice, j + 1);
      IdIsListed([slice], 0, j);
    }
  }

  lemma SliceAcksComplete(sink: Sink, i: nat, slice: Slice)
    ensures SliceAcks(sink, i, slice.blobIds, 0) <= IdsOf([slice])
    ensures SliceOk(sink, i, slice) ==> SliceAcks(sink, i, slice.blobIds, 0) == IdsOf([slice])
  {
    hide SliceAcks;
    SliceAcksAreIds(sink, i, slice, 0);
  }

  lemma {:induction false} AcksAreIds(sink: Sink, slices: seq<Slice>, n: nat)
    requires n <= |slices|
    ensures AcksUpTo(sink, slices, n) <= IdsOf(slices[..n])
    ensures (forall i | 0 <= i < n :: SliceOk(sink, i, slices[i])) ==> AcksUpTo(sink, slices, n) == IdsOf(slices[..n])
    decreases n
  {
    hide IdsOf, SliceOk, SliceAcks;
    if n == 0 {
      NoIds(slices);
    } else {
      AcksAreIds(sink, slices, n - 1);
      assert slices[..n] == slices[..n - 1] + [slices[n - 1]];
      IdsOfSplits(slices[..n - 1], [slices[n - 1]]);
      SliceAcksComplete(sink, n - 1, slices[n - 1]);
    }
  }

  /** Blob `id` stands in slice `i` at a place the data nodes were asked for and reached. */
  ghost predicate AckedAt(sink: Sink, slices: seq<Slice>, id: nat, i: nat, j: nat) {
    && i < |slices| && j < |slices[i].blobIds| && slices[i].blobIds[j] == id
    && forall k: nat | k <= j :: sink(i, k)
  }

  lemma {:induction false} SliceAckedIff(sink: Sink, slices: seq<Slice>, i: nat, from: nat, id: nat)
    requires i < |slices| && from <= |slices[i].blobIds| && forall k: nat | k < from :: sink(i, k)
    ensures id in SliceAcks(sink, i, slices[i].blobIds, from) <==>
              exists j: nat :: from <= j && AckedAt(sink, slices, id, i, j)
    decreases |slices[i].blobIds| - from
  {
    var ids := slices[i].blobIds;
    if from < |ids| && sink(i, from) {
      SliceAckedIff(sink, slices, i, from + 1, id);
      assert ids[from] == id ==> AckedAt(sink, slices, id, i, from);
    }
  }

  /** Every slice of an event is tried, each blob by blob up to its own first refusal: that is exactly
      what is acknowledged. */
  lemma {:induction false} AckedIff(sink: Sink, slices: seq<Slice>, n: nat, id: nat)
    requires n <= |slices|
    ensures id in AcksUpTo(sink, slices, n) <==> exists i: nat, j: nat :: i < n && AckedAt(sink, slices, id, i, j)
  {
    hide AckedAt;
    if n > 0 {
      AckedIff(sink, slices, n - 1, id);
      SliceAckedIff(sink, slices, n - 1, 0, id);
    }
  }

  /** A sweep only ever tombstones blobs of the event, and all of them when none is refused. */
  lemma EventAcksAreIds(sink: Sink, event: Event)
    ensures EventAcks(sink, event) <= EventIds(event)
    ensures EventOk(sink, event) ==> EventAcks(sink, event) == EventIds(event)
  {
    hide IdsOf, AcksUpTo, SliceOk;
    var slices := SlicesOf(event.entries);
    assert slices[..|slices|] == slices;
    AcksAreIds(sink, slices, |slices|);
  }

  function EventIds(event: Event): set<nat> {
    IdsOf(SlicesOf(event.entries))
  }

  lemma NoIds(slices: seq<Slice>)
    ensures IdsOf(slices[..0]) == {}
  {
  }

  lemma {:induction false} IdsOfEntries(entries: seq<Entry>, id: nat)
    ensures id in IdsOf(SlicesOf(entries)) <==> exists e :: e in entries && id in e.pending.Ids()
    decreases |entries|
  {
    hide IdsOf;
    if entries == [] {
      assert SlicesOf(entries) == SlicesOf(entries)[..0];
      NoIds(SlicesOf(entries));
    } else {
      var init, last := entries[..|entries| - 1], entries[|entries| - 1];
      IdsOfEntries(init, id);
      IdsOfSplits(SlicesOf(init), last.pending.slices);
      assert forall e :: e in entries <==> e in init || e == last;
    }
  }

  lemma {:induction false} EventEntriesAreFlat(events: seq<Event>, i: nat, e: Entry)
    requires i < |events| && e in events[i].entries
    ensures e in Flatten(events)
    decreases |events|
  {
    if i < |events| - 1 {
      EventEntriesAreFlat(events[..|events| - 1], i, e);
    }
  }

  // ---------------------------------------------------------------- backing off

  function Pow2(n: nat): (p: nat)
    ensures p >= 1
  {
    if n == 0 then 1 else 2 * Pow2(n - 1)
  }

  /** Consecutive failures so far and the instant the event becomes eligible again. */
  datatype Backoff = Backoff(failures: nat, next: nat)

  function BackedOff(was: Option<Backoff>, now: nat): Backoff {
    var failures := Min((if was.Some? then was.value.failures else 0) + 1, 9);
    Backoff(failures, now + Min(Pow2(failures), 300))
  }

  /** After `n` failures in a row. */
  function AfterFailures(n: nat, now: nat): Option<Backoff> {
    if n == 0 then None else Some(BackedOff(AfterFailures(n - 1, now), now))
  }

  /** The wait doubles from two seconds and never exceeds five minutes. */
  lemma {:induction false} BackoffDoublesToCap(n: nat, now: nat)
    requires n > 0
    ensures AfterFailures(n, now) == Some(Backoff(Min(n, 9), now + if n <= 8 then Pow2(n) else 300))
    decreases n
  {
    if n > 1 {
      BackoffDoublesToCap(n - 1, now);
    }
    assert Pow2(9) == 512 && Pow2(8) == 256 by { assert Pow2(4) == 16; assert Pow2(6) == 64; }
    if n <= 8 {
      PowMonotone(n, 8);
    }
  }

  lemma {:induction false} PowMonotone(a: nat, b: nat)
    requires a <= b
    ensures Pow2(a) <= Pow2(b)
    decreases b
  {
    if a < b {
      PowMonotone(a, b - 1);
    }
  }
}
