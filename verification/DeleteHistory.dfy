/** The delete queue over every history: operations and splits that number its entries, any number
    of sweeping nodes, refused blobs, and proposals that are lost or land late
    (crates/epoch-meta/src/deleter.rs, crates/epoch-meta/src/raft/state_machine.rs). */
module DeleteHistory {
  import opened Bytes
  import opened Scans
  import opened DeleteEvents

  // ---------------------------------------------------------------- keys

  /** Big-endian, `width` bytes. */
  function BigEndian(n: nat, width: nat): (b: Bytes)
    ensures |b| == width
  {
    if width == 0 then [] else BigEndian(n / 256, width - 1) + [n % 256]
  }

  function FromBigEndian(b: Bytes): nat {
    if b == [] then 0 else FromBigEndian(b[..|b| - 1]) * 256 + b[|b| - 1]
  }

  function Pow256(n: nat): nat {
    if n == 0 then 1 else 256 * Pow256(n - 1)
  }

  lemma {:induction false} BigEndianInverts(n: nat, width: nat)
    requires n < Pow256(width)
    ensures FromBigEndian(BigEndian(n, width)) == n
    decreases width
  {
    if width > 0 {
      BigEndianInverts(n / 256, width - 1);
      var b := BigEndian(n, width);
      assert b[..|b| - 1] == BigEndian(n / 256, width - 1);
    }
  }

  const SEQS := 0x1_0000_0000_0000_0000

  const SEGS := 0x1_0000_0000

  lemma Widths()
    ensures Pow256(4) == SEGS && Pow256(8) == SEQS
  {
    assert Pow256(2) == 0x1_0000;
    assert Pow256(4) == SEGS;
    assert Pow256(6) == 0x1_0000_0000_0000;
  }

  /** `q | routing | seq | seg`; the routing key starts with its bucket. */
  function DelqKey(routing: Bytes, seqno: nat, seg: nat): Bytes {
    [113] + routing + BigEndian(seqno, 8) + BigEndian(seg, 4)
  }

  function KeyRouting(key: Bytes): Bytes {
    if |key| < 13 then [] else key[1..|key| - 12]
  }

  function KeySeq(key: Bytes): nat {
    if |key| < 13 then 0 else FromBigEndian(key[|key| - 12..|key| - 4])
  }

  function KeySeg(key: Bytes): nat {
    if |key| < 13 then 0 else FromBigEndian(key[|key| - 4..])
  }

  /** Every part of a queue key can be read back, so entries share a key only when they share
      routing key, event number and segment. */
  lemma DelqKeyReadsBack(routing: Bytes, seqno: nat, seg: nat)
    requires seqno < SEQS && seg < SEGS
    ensures var k := DelqKey(routing, seqno, seg);
            KeyRouting(k) == routing && KeySeq(k) == seqno && KeySeg(k) == seg
  {
    hide BigEndian, FromBigEndian, Pow256;
    Widths();
    BigEndianInverts(seqno, 8);
    BigEndianInverts(seg, 4);
    var k := DelqKey(routing, seqno, seg);
    assert k[1..|k| - 12] == routing;
    assert k[|k| - 12..|k| - 4] == BigEndian(seqno, 8);
    assert k[|k| - 4..] == BigEndian(seg, 4);
  }

  /** Dropping the segment number leaves the event: two keys have one prefix exactly when they share
      routing key and event number. */
  lemma EventPrefixNamesEvent(r: Bytes, s: nat, g: nat, r': Bytes, s': nat, g': nat)
    requires s < SEQS && g < SEGS && s' < SEQS && g' < SEGS && |r| >= 8 && |r'| >= 8
    ensures EventPrefix(DelqKey(r, s, g)).Some?
    ensures EventPrefix(DelqKey(r, s, g)) == EventPrefix(DelqKey(r', s', g')) <==> r == r' && s == s'
  {
    hide BigEndian, FromBigEndian, Pow256;
    DelqKeyReadsBack(r, s, g);
    DelqKeyReadsBack(r', s', g');
    var a, b := [113] + r + BigEndian(s, 8), [113] + r' + BigEndian(s', 8);
    assert DelqKey(r, s, g) == a + BigEndian(g, 4) && DelqKey(r', s', g') == b + BigEndian(g', 4);
    assert EventPrefix(DelqKey(r, s, g)) == Some(a) && EventPrefix(DelqKey(r', s', g')) == Some(b);
    if a == b {
      var k, k' := DelqKey(r, s, g), DelqKey(r', s', g');
      assert k[1..|k| - 12] == a[1..|a| - 8] && k'[1..|k'| - 12] == b[1..|b| - 8];
      assert k[|k| - 12..|k| - 4] == a[|a| - 8..] && k'[|k'| - 12..|k'| - 4] == b[|b| - 8..];
    }
  }

  // ---------------------------------------------------------------- numbering

  /** Per-partition event counters and the partition of each routing key. An operation numbers its
      entries with its partition's counter; a split starts the child at zero. */
  datatype Numbering = Numbering(owner: map<Bytes, nat>, next: map<nat, nat>)

  function SeqOf(n: Numbering, routing: Bytes): Option<nat> {
    if routing in n.owner && n.owner[routing] in n.next then Some(n.next[n.owner[routing]]) else None
  }

  function AfterOp(n: Numbering, routing: Bytes): Numbering
    requires SeqOf(n, routing).Some?
  {
    n.(next := n.next[n.owner[routing] := n.next[n.owner[routing]] + 1])
  }

  function AfterSplit(n: Numbering, moved: set<Bytes>, child: nat): Numbering {
    Numbering(map r | r in n.owner :: if r in moved then child else n.owner[r], n.next[child := 0])
  }

  /** Every number handed out so far for a routing key is below its partition's counter. */
  ghost predicate Ahead(n: Numbering, used: set<(Bytes, nat)>) {
    forall p | p in used :: SeqOf(n, p.0).Some? && p.1 < SeqOf(n, p.0).value
  }

  /** Within a partition the counter never repeats a number for a routing key. */
  lemma OpsKeepAhead(n: Numbering, used: set<(Bytes, nat)>, routing: Bytes)
    requires Ahead(n, used) && SeqOf(n, routing).Some?
    ensures (routing, SeqOf(n, routing).value) !in used
    ensures Ahead(AfterOp(n, routing), used + {(routing, SeqOf(n, routing).value)})
  {
  }

  /** Some operation of the sequence is numbered as an earlier one on its routing key was. */
  ghost predicate Reuses(n: Numbering, used: set<(Bytes, nat)>, ops: seq<Bytes>)
    decreases |ops|
  {
    && ops != [] && SeqOf(n, ops[0]).Some?
    && var p := (ops[0], SeqOf(n, ops[0]).value);
    p in used || Reuses(AfterOp(n, ops[0]), used + {p}, ops[1..])
  }

  ghost predicate CanReuse(n: Numbering, used: set<(Bytes, nat)>) {
    exists ops :: Reuses(n, used, ops)
  }

  lemma {:induction false} AheadNeverReuses(n: Numbering, used: set<(Bytes, nat)>, ops: seq<Bytes>)
    requires Ahead(n, used)
    ensures !Reuses(n, used, ops)
    decreases |ops|
  {
    if ops != [] && SeqOf(n, ops[0]).Some? {
      OpsKeepAhead(n, used, ops[0]);
      AheadNeverReuses(AfterOp(n, ops[0]), used + {(ops[0], SeqOf(n, ops[0]).value)}, ops[1..]);
    }
  }

  lemma {:induction false} CountingUpReuses(n: Numbering, used: set<(Bytes, nat)>, r: Bytes, target: nat)
    requires SeqOf(n, r).Some? && SeqOf(n, r).value <= target && (r, target) in used
    ensures CanReuse(n, used)
    decreases target - SeqOf(n, r).value
  {
    var p := (r, SeqOf(n, r).value);
    if p in used {
      assert Reuses(n, used, [r]);
    } else {
      CountingUpReuses(AfterOp(n, r), used + {p}, r, target);
      var ops :| Reuses(AfterOp(n, r), used + {p}, ops);
      assert ([r] + ops)[1..] == ops;
      assert Reuses(n, used, [r] + ops);
    }
  }

  /** After a split some run of operations reuses a number if and only if one was ever handed out in
      the moved range: the child counts from zero again. */
  lemma SplitCanReuseIff(n: Numbering, used: set<(Bytes, nat)>, moved: set<Bytes>, child: nat)
    requires Ahead(n, used) && child !in n.next
    ensures CanReuse(AfterSplit(n, moved, child), used) <==> exists p :: p in used && p.0 in moved
  {
    var after := AfterSplit(n, moved, child);
    if p :| p in used && p.0 in moved {
      assert SeqOf(after, p.0) == Some(0);
      CountingUpReuses(after, used, p.0, p.1);
    } else {
      forall ops ensures !Reuses(after, used, ops) {
        AheadNeverReuses(after, used, ops);
      }
    }
  }

  // ---------------------------------------------------------------- the machine

  /** Where a node's sweep stands between two shared steps. */
  datatype Phase = Scanning | Working | Proposing | Waiting

  datatype Sweep = Sweep(f: Filter, events: seq<Event>, phase: Phase)

  /** Numbers, the replicated queue, every entry ever enqueued, the blobs the data nodes
      acknowledged, the clock, each node's sweep, and the deletions handed to raft. */
  datatype World = World(
    names: Numbering,
    used: set<(Bytes, nat)>,
    queue: map<Bytes, Pending>,
    log: set<Entry>,
    acked: set<nat>,
    clock: int,
    sweeps: map<nat, Sweep>,
    proposed: set<seq<Entry>>)

  datatype Step =
    | Tick(to: int)
    | Split(moved: set<Bytes>, child: nat)
    | Op(routing: Bytes, pendings: seq<Pending>)
    | Begin(node: nat, f: Filter)
    | ReadPage(node: nat, page: seq<Row>, events: seq<Event>)
    | Work(node: nat)
    | Tombstone(node: nat, sink: Sink)
    | Submit(node: nat)
    | ApplyDelete(entries: seq<Entry>)
    | Answer(node: nat, ok: bool)
    | Drop(node: nat)

  /** The entries of one operation: one key per segment. */
  function EntriesOf(routing: Bytes, seqno: nat, pendings: seq<Pending>): map<Bytes, Pending> {
    if pendings == [] then map[]
    else
      var n := |pendings| - 1;
      EntriesOf(routing, seqno, pendings[..n])[DelqKey(routing, seqno, n) := pendings[n]]
  }

  function AsEntries(m: map<Bytes, Pending>): set<Entry> {
    set k | k in m :: Entry(k, m[k])
  }

  function KeysOf(entries: seq<Entry>): set<Bytes> {
    set e | e in entries :: e.key
  }

  /** The rows are in the store now. */
  ghost predicate Stored(page: seq<Row>, f: Filter, queue: map<Bytes, Pending>) {
    forall row | row in page :: row.key in queue && f.decode(row.value) == Some(queue[row.key])
  }

  predicate InPhase(w: World, node: nat, phase: Phase) {
    node in w.sweeps && w.sweeps[node].phase == phase && (phase == Scanning || w.sweeps[node].events != [])
  }

  /** Guards say where in its code a node is and what it reads there; nothing about what that
      achieves. Any number of nodes may believe they lead, and a page is read from the queue of
      the moment. */
  ghost predicate Enabled(w: World, delay: nat, step: Step) {
    match step
    case Tick(to) => w.clock <= to
    case Split(moved, child) => child !in w.names.next
    case Op(r, pendings) =>
      SeqOf(w.names, r).Some? && SeqOf(w.names, r).value < SEQS && |pendings| <= SEGS
    case Begin(node, f) => f.expireBefore == w.clock - delay
    case ReadPage(node, page, events) =>
      && InPhase(w, node, Scanning) && Stored(page, w.sweeps[node].f, w.queue)
      && Flatten(events) == Flatten(w.sweeps[node].events) + Chosen(page, w.sweeps[node].f)
    case Work(node) => InPhase(w, node, Scanning)
    case Tombstone(node, sink) => InPhase(w, node, Working)
    case Submit(node) => InPhase(w, node, Proposing)
    case ApplyDelete(entries) => entries in w.proposed
    case Answer(node, ok) => InPhase(w, node, Waiting)
    case Drop(node) => true
  }

  function At(w: World, node: nat, s: Sweep): World {
    w.(sweeps := w.sweeps[node := s])
  }

  ghost function Next(w: World, delay: nat, step: Step): World
    requires Enabled(w, delay, step)
  {
    match step
    case Tick(to) => w.(clock := to)
    case Split(moved, child) => w.(names := AfterSplit(w.names, moved, child))
    case Op(r, pendings) =>
      var n := SeqOf(w.names, r).value;
      var m := EntriesOf(r, n, pendings);
      w.(names := AfterOp(w.names, r), used := w.used + {(r, n)}, queue := w.queue + m,
         log := w.log + AsEntries(m))
    case Begin(node, f) => At(w, node, Sweep(f, [], Scanning))
    case ReadPage(node, page, events) => At(w, node, w.sweeps[node].(events := events))
    case Work(node) => At(w, node, w.sweeps[node].(phase := Working))
    case Tombstone(node, sink) =>
      var s := w.sweeps[node];
      At(w.(acked := w.acked + EventAcks(sink, s.events[0])), node,
         if EventOk(sink, s.events[0]) then s.(phase := Proposing) else s.(events := s.events[1..]))
    case Submit(node) =>
      At(w.(proposed := w.proposed + {w.sweeps[node].events[0].entries}), node, w.sweeps[node].(phase := Waiting))
    case ApplyDelete(entries) => w.(queue := w.queue - KeysOf(entries))
    case Answer(node, ok) =>
      if ok then At(w, node, Sweep(w.sweeps[node].f, w.sweeps[node].events[1..], Working))
      else w.(sweeps := w.sweeps - {node})
    case Drop(node) => w.(sweeps := w.sweeps - {node})
  }

  /** A sweep begun now asks for what is older than the delay by the clock of this moment, which is
      what the last tick made it. */
  lemma BeginLooksAtClock(w: World, delay: nat, to: int, node: nat, f: Filter)
    requires w.clock <= to
    ensures Enabled(Next(w, delay, Tick(to)), delay, Begin(node, f)) <==> f.expireBefore == to - delay
  {
  }

  /** A node that dropped out, or whose proposal was refused, does nothing more until it begins again. */
  lemma DroppedNodeIsOut(w: World, delay: nat, step: Step, node: nat, phase: Phase)
    requires Enabled(w, delay, step) && (step == Drop(node) || step == Answer(node, false))
    ensures !InPhase(Next(w, delay, step), node, phase)
  {
  }

  // ---------------------------------------------------------------- what every step keeps

  /** Every acknowledged blob was enqueued at least the safety delay ago. */
  ghost predicate NotEarly(w: World, delay: nat) {
    forall id | id in w.acked :: exists e :: Ripe(w, delay, e, id)
  }

  ghost predicate Ripe(w: World, delay: nat, e: Entry, id: nat) {
    e in w.log && id in e.pending.Ids() && e.pending.enqueueTs + delay <= w.clock
  }

  ghost predicate Logged(w: World) {
    forall k | k in w.queue :: Entry(k, w.queue[k]) in w.log
  }

  /** Entries a sweep holds were enqueued and are due by its filter. */
  ghost predicate Due(w: World, expireBefore: int, event: Event) {
    forall e | e in event.entries :: e in w.log && e.pending.enqueueTs <= expireBefore
  }

  ghost predicate Settled(w: World, entries: seq<Entry>) {
    forall e | e in entries :: e in w.log && e.pending.Ids() <= w.acked
  }

  ghost predicate SweepOk(w: World, delay: nat, s: Sweep) {
    && s.f.expireBefore + delay <= w.clock
    && (forall i | 0 <= i < |s.events| :: Due(w, s.f.expireBefore, s.events[i]))
    && (s.phase in {Proposing, Waiting} && s.events != [] ==> Settled(w, s.events[0].entries))
  }

  ghost predicate Inv(w: World, delay: nat) {
    && Logged(w)
    && (forall n | n in w.sweeps :: SweepOk(w, delay, w.sweeps[n]))
    && (forall p | p in w.proposed :: Settled(w, p))
    && NotEarly(w, delay)
  }

  /** Entries, acknowledgements and time only ever grow. */
  predicate Grows(w: World, t: World) {
    w.log <= t.log && w.acked <= t.acked && w.clock <= t.clock
  }

  lemma GrowthKeepsSweep(w: World, t: World, delay: nat, s: Sweep)
    requires Grows(w, t) && SweepOk(w, delay, s)
    ensures SweepOk(t, delay, s)
  {
    hide Pending.Ids;
    forall i | 0 <= i < |s.events| ensures Due(t, s.f.expireBefore, s.events[i]) {
      assert Due(w, s.f.expireBefore, s.events[i]);
    }
  }

  lemma GrowthKeepsRipe(w: World, t: World, delay: nat)
    requires Grows(w, t) && NotEarly(w, delay)
    requires forall id | id in t.acked && id !in w.acked :: exists e :: Ripe(t, delay, e, id)
    ensures NotEarly(t, delay)
  {
    forall id | id in t.acked ensures exists e :: Ripe(t, delay, e, id) {
      if id in w.acked {
        var e :| Ripe(w, delay, e, id);
        assert Ripe(t, delay, e, id);
      }
    }
  }

  /** A step that acknowledges nothing and leaves every other node's sweep alone. */
  lemma QuietKeepsInv(w: World, t: World, delay: nat, node: nat)
    requires Inv(w, delay) && Grows(w, t) && t.acked == w.acked && Logged(t)
    requires forall n | n in t.sweeps && n != node :: n in w.sweeps && t.sweeps[n] == w.sweeps[n]
    requires node in t.sweeps ==> SweepOk(t, delay, t.sweeps[node])
    requires forall p | p in t.proposed :: p in w.proposed || Settled(t, p)
    ensures Inv(t, delay)
  {
    hide Pending.Ids, Due;
    GrowthKeepsRipe(w, t, delay);
    forall n | n in t.sweeps ensures SweepOk(t, delay, t.sweeps[n]) {
      if n != node {
        GrowthKeepsSweep(w, t, delay, w.sweeps[n]);
      }
    }
    forall p | p in t.proposed ensures Settled(t, p) {
      if p in w.proposed {
        assert Settled(w, p);
      }
    }
  }

  lemma {:induction false} FlatIsInEvent(events: seq<Event>, e: Entry)
    requires e in Flatten(events)
    ensures exists i :: 0 <= i < |events| && e in events[i].entries
    decreases |events|
  {
    var n := |events| - 1;
    if e in events[n].entries {
    } else {
      FlatIsInEvent(events[..n], e);
      var i :| 0 <= i < n && e in events[..n][i].entries;
      assert e in events[i].entries;
    }
  }

  lemma {:induction false} ChosenAreDue(page: seq<Row>, f: Filter, queue: map<Bytes, Pending>, e: Entry)
    requires Stored(page, f, queue) && e in Chosen(page, f)
    ensures e.key in queue && queue[e.key] == e.pending && e.pending.enqueueTs <= f.expireBefore
    decreases |page|
  {
    var n := |page| - 1;
    assert page[n] in page;
    if e in Chosen(page[..n], f) {
      assert forall row | row in page[..n] :: row in page;
      ChosenAreDue(page[..n], f, queue, e);
    }
  }

  /** Reading a page adds only entries that are queued now and due. */
  lemma ReadPageIsDue(w: World, delay: nat, node: nat, page: seq<Row>, events: seq<Event>)
    requires Inv(w, delay) && Enabled(w, delay, ReadPage(node, page, events))
    ensures SweepOk(Next(w, delay, ReadPage(node, page, events)), delay, w.sweeps[node].(events := events))
  {
    hide Pending.Ids, Flatten, Chosen, Stored;
    var s := w.sweeps[node];
    forall i, e | 0 <= i < |events| && e in events[i].entries
      ensures e in w.log && e.pending.enqueueTs <= s.f.expireBefore
    {
      EventEntriesAreFlat(events, i, e);
      if e in Flatten(s.events) {
        FlatIsInEvent(s.events, e);
        var j :| 0 <= j < |s.events| && e in s.events[j].entries;
        assert Due(w, s.f.expireBefore, s.events[j]);
      } else {
        ChosenAreDue(page, s.f, w.queue, e);
      }
    }
  }

  lemma TombstoneKeepsInv(w: World, delay: nat, node: nat, sink: Sink)
    requires Inv(w, delay) && Enabled(w, delay, Tombstone(node, sink))
    ensures Inv(Next(w, delay, Tombstone(node, sink)), delay)
  {
    hide Pending.Ids, EventAcks, EventOk, EventIds, Stored, Chosen, Flatten, EntriesOf;
    var t, s := Next(w, delay, Tombstone(node, sink)), w.sweeps[node];
    var event := s.events[0];
    assert SweepOk(w, delay, s) && Due(w, s.f.expireBefore, event);
    EventAcksAreIds(sink, event);
    forall id | id in t.acked && id !in w.acked ensures exists e :: Ripe(t, delay, e, id) {
      EventIdIsHeld(event, id);
      var e :| e in event.entries && id in e.pending.Ids();
      assert Ripe(t, delay, e, id);
    }
    GrowthKeepsRipe(w, t, delay);
    GrowthKeepsSweep(w, t, delay, s);
    if EventOk(sink, event) {
      forall e | e in event.entries ensures e.pending.Ids() <= t.acked {
        EntryIdsAreEvents(event, e);
      }
    }
    forall n | n in t.sweeps && n != node ensures SweepOk(t, delay, t.sweeps[n]) {
      GrowthKeepsSweep(w, t, delay, w.sweeps[n]);
    }
    forall p | p in t.proposed ensures Settled(t, p) {
      assert Settled(w, p);
    }
  }

  lemma EventIdIsHeld(event: Event, id: nat)
    requires id in EventIds(event)
    ensures exists e :: e in event.entries && id in e.pending.Ids()
  {
    hide IdsOf, SlicesOf;
    IdsOfEntries(event.entries, id);
  }

  lemma EntryIdsAreEvents(event: Event, e: Entry)
    requires e in event.entries
    ensures e.pending.Ids() <= EventIds(event)
  {
    hide IdsOf, SlicesOf;
    forall id | id in e.pending.Ids() ensures id in EventIds(event) {
      IdsOfEntries(event.entries, id);
    }
  }

  lemma LaterIsOk(w: World, t: World, delay: nat, s: Sweep)
    requires SweepOk(w, delay, s) && Grows(w, t)
    ensures SweepOk(t, delay, s.(phase := Working))
    ensures s.events != [] ==> SweepOk(t, delay, Sweep(s.f, s.events[1..], Working))
  {
    hide Due, Settled;
    GrowthKeepsSweep(w, t, delay, s);
  }

  /** The steps of one node's sweep other than tombstoning and submitting. */
  lemma SweepStepKeepsInv(w: World, delay: nat, step: Step)
    requires Inv(w, delay) && Enabled(w, delay, step)
    requires step.Begin? || step.ReadPage? || step.Work? || step.Answer? || step.Drop?
    ensures Inv(Next(w, delay, step), delay)
  {
    hide Pending.Ids, EntriesOf, Flatten, Chosen, Stored, Due, Settled, Ripe;
    var t, node := Next(w, delay, step), step.node;
    if step.ReadPage? {
      ReadPageIsDue(w, delay, node, step.page, step.events);
    } else if step.Work? || step.Answer? {
      LaterIsOk(w, t, delay, w.sweeps[node]);
    }
    QuietKeepsInv(w, t, delay, node);
  }

  lemma StepKeepsInv(w: World, delay: nat, step: Step)
    requires Inv(w, delay) && Enabled(w, delay, step)
    ensures Inv(Next(w, delay, step), delay)
  {
    hide Pending.Ids, EntriesOf, Flatten, Chosen, Stored, Due, Settled, Ripe, KeysOf, EventAcks, EventOk, SweepOk;
    match step {
      case Tick(to) => OthersKeepInv(w, Next(w, delay, step), delay);
      case Split(moved, child) => OthersKeepInv(w, Next(w, delay, step), delay);
      case Op(r, pendings) => OthersKeepInv(w, Next(w, delay, step), delay);
      case ApplyDelete(entries) => OthersKeepInv(w, Next(w, delay, step), delay);
      case Tombstone(node, sink) => TombstoneKeepsInv(w, delay, node, sink);
      case Submit(node) => SubmitKeepsInv(w, delay, node);
      case _ => SweepStepKeepsInv(w, delay, step);
    }
  }

  lemma OthersKeepInv(w: World, t: World, delay: nat)
    requires Inv(w, delay) && Grows(w, t) && t.acked == w.acked && Logged(t)
    requires t.sweeps == w.sweeps && t.proposed == w.proposed
    ensures Inv(t, delay)
  {
    hide Pending.Ids, Due, Settled, Ripe;
    if 0 in w.sweeps {
      GrowthKeepsSweep(w, t, delay, w.sweeps[0]);
    }
    QuietKeepsInv(w, t, delay, 0);
  }

  lemma SubmitKeepsInv(w: World, delay: nat, node: nat)
    requires Inv(w, delay) && Enabled(w, delay, Submit(node))
    ensures Inv(Next(w, delay, Submit(node)), delay)
  {
    hide Pending.Ids, Due;
    var t := Next(w, delay, Submit(node));
    assert SweepOk(w, delay, w.sweeps[node]);
    GrowthKeepsSweep(w, t, delay, w.sweeps[node]);
    QuietKeepsInv(w, t, delay, node);
  }

  // ---------------------------------------------------------------- leaks

  ghost predicate Held(queue: map<Bytes, Pending>, id: nat) {
    exists k :: k in queue && id in queue[k].Ids()
  }

  ghost predicate HeldElsewhere(queue: map<Bytes, Pending>, keys: set<Bytes>, id: nat) {
    exists k :: k in queue && k !in keys && id in queue[k].Ids()
  }

  /** Every blob ever enqueued is acknowledged or still held by some entry. */
  ghost predicate NoLeak(w: World) {
    forall e, id | e in w.log && id in e.pending.Ids() :: id in w.acked || Held(w.queue, id)
  }

  /** The blobs of the entries about to go are acknowledged, held elsewhere, or carried by what
      takes their place. */
  ghost predicate Dispensable(w: World, keys: set<Bytes>, instead: map<Bytes, Pending>) {
    forall k, id | k in keys && k in w.queue && id in w.queue[k].Ids() ::
      id in w.acked || HeldElsewhere(w.queue, keys, id) || Held(instead, id)
  }

  /** What a step must meet, in the state before it: an operation writing over queued entries, and
      a deletion removing them. */
  ghost predicate Harmless(w: World, step: Step) {
    match step
    case Op(r, pendings) =>
      SeqOf(w.names, r).Some? ==>
        var m := EntriesOf(r, SeqOf(w.names, r).value, pendings);
        Dispensable(w, m.Keys, m)
    case ApplyDelete(entries) => Dispensable(w, KeysOf(entries), map[])
    case _ => true
  }

  lemma OverwriteLeaksIff(w: World, m: map<Bytes, Pending>)
    requires Logged(w) && NoLeak(w)
    ensures var t := w.(queue := w.queue + m, log := w.log + AsEntries(m));
            NoLeak(t) <==> Dispensable(w, m.Keys, m)
  {
    hide Pending.Ids;
    var t := w.(queue := w.queue + m, log := w.log + AsEntries(m));
    if Dispensable(w, m.Keys, m) {
      forall e, id | e in t.log && id in e.pending.Ids() ensures id in t.acked || Held(t.queue, id) {
        if e !in w.log {
          assert t.queue[e.key] == e.pending;
        } else if id !in w.acked {
          var k :| k in w.queue && id in w.queue[k].Ids();
          if k in m {
            if x :| x in m && id in m[x].Ids() {
              assert t.queue[x] == m[x];
            } else {
              var x :| x in w.queue && x !in m.Keys && id in w.queue[x].Ids();
              assert t.queue[x] == w.queue[x];
            }
          } else {
            assert t.queue[k] == w.queue[k];
          }
        }
      }
    }
    if NoLeak(t) {
      forall k, id | k in m.Keys && k in w.queue && id in w.queue[k].Ids()
        ensures id in w.acked || HeldElsewhere(w.queue, m.Keys, id) || Held(m, id)
      {
        assert Entry(k, w.queue[k]) in t.log;
        if id !in w.acked {
          var x :| x in t.queue && id in t.queue[x].Ids();
          assert if x in m then m[x] == t.queue[x] else w.queue[x] == t.queue[x];
        }
      }
    }
  }

  lemma DeleteLeaksIff(w: World, keys: set<Bytes>)
    requires Logged(w) && NoLeak(w)
    ensures NoLeak(w.(queue := w.queue - keys)) <==> Dispensable(w, keys, map[])
  {
    hide Pending.Ids;
    var t := w.(queue := w.queue - keys);
    if Dispensable(w, keys, map[]) {
      forall e, id | e in t.log && id in e.pending.Ids() ensures id in t.acked || Held(t.queue, id) {
        if id !in w.acked {
          var k :| k in w.queue && id in w.queue[k].Ids();
          if k in keys {
            assert !Held(map[], id);
            var x :| x in w.queue && x !in keys && id in w.queue[x].Ids();
            assert t.queue[x] == w.queue[x];
          } else {
            assert t.queue[k] == w.queue[k];
          }
        }
      }
    }
    if NoLeak(t) {
      forall k, id | k in keys && k in w.queue && id in w.queue[k].Ids()
        ensures id in w.acked || HeldElsewhere(w.queue, keys, id) || Held(map[], id)
      {
        assert Entry(k, w.queue[k]) in t.log;
        if id !in w.acked {
          var x :| x in t.queue && id in t.queue[x].Ids();
          assert w.queue[x] == t.queue[x];
        }
      }
    }
  }

  lemma QuietNeverLeaks(w: World, t: World)
    requires NoLeak(w) && t.queue == w.queue && t.log == w.log && w.acked <= t.acked
    ensures NoLeak(t)
  {
    hide Pending.Ids, Held;
  }

  /** A step forgets a blob if and only if it writes over or removes an entry that alone still held
      it. Every other step keeps what is owed. */
  lemma StepLeaksIff(w: World, delay: nat, step: Step)
    requires Inv(w, delay) && NoLeak(w) && Enabled(w, delay, step)
    ensures NoLeak(Next(w, delay, step)) <==> Harmless(w, step)
  {
    hide Pending.Ids, NoLeak, Dispensable, EntriesOf, KeysOf, EventAcks, EventOk, Stored, Chosen, Flatten, SweepOk;
    var t := Next(w, delay, step);
    match step {
      case Op(r, pendings) =>
        var m := EntriesOf(r, SeqOf(w.names, r).value, pendings);
        var u := w.(queue := w.queue + m, log := w.log + AsEntries(m));
        OverwriteLeaksIff(w, m);
        SameBooksSameLeaks(u, t);
      case ApplyDelete(entries) => DeleteLeaksIff(w, KeysOf(entries));
      case _ => QuietNeverLeaks(w, t);
    }
  }

  lemma SameBooksSameLeaks(w: World, t: World)
    requires t.queue == w.queue && t.log == w.log && t.acked == w.acked
    ensures NoLeak(t) <==> NoLeak(w)
  {
    hide Pending.Ids, Held;
  }

  // ---------------------------------------------------------------- every history

  ghost predicate Runs(w: World, delay: nat, steps: seq<Step>)
    decreases |steps|
  {
    steps == [] || (Enabled(w, delay, steps[0]) && Runs(Next(w, delay, steps[0]), delay, steps[1..]))
  }

  ghost function Finally(w: World, delay: nat, steps: seq<Step>): World
    requires Runs(w, delay, steps)
    decreases |steps|
  {
    if steps == [] then w else Finally(Next(w, delay, steps[0]), delay, steps[1..])
  }

  /** Nothing is forgotten in any state of the run. */
  ghost predicate NeverLeaks(w: World, delay: nat, steps: seq<Step>)
    requires Runs(w, delay, steps)
    decreases |steps|
  {
    NoLeak(w) && (steps != [] ==> NeverLeaks(Next(w, delay, steps[0]), delay, steps[1..]))
  }

  ghost predicate HarmlessRun(w: World, delay: nat, steps: seq<Step>)
    requires Runs(w, delay, steps)
    decreases |steps|
  {
    steps != [] ==> Harmless(w, steps[0]) && HarmlessRun(Next(w, delay, steps[0]), delay, steps[1..])
  }

  /** A run forgets nothing at any time if and only if each of its operations and deletions is
      harmless where it happens. */
  lemma {:induction false} RunLeaksNothingIff(w: World, delay: nat, steps: seq<Step>)
    requires Inv(w, delay) && NoLeak(w) && Runs(w, delay, steps)
    ensures NeverLeaks(w, delay, steps) <==> HarmlessRun(w, delay, steps)
    decreases |steps|
  {
    hide Inv, NoLeak, Enabled, Next, Harmless;
    if steps != [] {
      var t := Next(w, delay, steps[0]);
      StepLeaksIff(w, delay, steps[0]);
      StepKeepsInv(w, delay, steps[0]);
      if NoLeak(t) {
        RunLeaksNothingIff(t, delay, steps[1..]);
      }
    }
  }

  lemma {:induction false} RunKeepsInv(w: World, delay: nat, steps: seq<Step>)
    requires Inv(w, delay) && Runs(w, delay, steps)
    ensures Inv(Finally(w, delay, steps), delay)
    decreases |steps|
  {
    hide Inv, Enabled, Next;
    if steps != [] {
      StepKeepsInv(w, delay, steps[0]);
      RunKeepsInv(Next(w, delay, steps[0]), delay, steps[1..]);
    }
  }

  // ---------------------------------------------------------------- runs whose splits are clean

  /** Numbers are ahead of every use, entries carry handed-out numbers, and no key was used twice. */
  ghost predicate Steady(w: World) {
    && Ahead(w.names, w.used)
    && (forall e | e in w.log :: (KeyRouting(e.key), KeySeq(e.key)) in w.used)
    && (forall e, x | e in w.log && x in w.log && e.key == x.key :: e == x)
  }

  /** The split moves no routing key that was ever numbered. */
  ghost predicate CleanSplit(w: World, step: Step) {
    step.Split? ==> forall p | p in w.used :: p.0 !in step.moved
  }

  lemma {:induction false} EntriesAreNumbered(r: Bytes, n: nat, pendings: seq<Pending>, k: Bytes)
    requires n < SEQS && |pendings| <= SEGS && k in EntriesOf(r, n, pendings)
    ensures KeyRouting(k) == r && KeySeq(k) == n
    decreases |pendings|
  {
    hide KeyRouting, KeySeq, DelqKey;
    var m := |pendings| - 1;
    DelqKeyReadsBack(r, n, m);
    if k != DelqKey(r, n, m) {
      EntriesAreNumbered(r, n, pendings[..m], k);
    }
  }

  lemma OpKeepsSteady(w: World, delay: nat, r: Bytes, pendings: seq<Pending>)
    requires Steady(w) && Enabled(w, delay, Op(r, pendings))
    ensures Steady(Next(w, delay, Op(r, pendings)))
    ensures forall e | e in w.log :: e.key !in EntriesOf(r, SeqOf(w.names, r).value, pendings)
  {
    hide KeyRouting, KeySeq, EntriesOf;
    var n, t := SeqOf(w.names, r).value, Next(w, delay, Op(r, pendings));
    var m := EntriesOf(r, n, pendings);
    OpsKeepAhead(w.names, w.used, r);
    forall k | k in m ensures (KeyRouting(k), KeySeq(k)) == (r, n) {
      EntriesAreNumbered(r, n, pendings, k);
    }
  }

  lemma StepKeepsSteady(w: World, delay: nat, step: Step)
    requires Steady(w) && Enabled(w, delay, step) && CleanSplit(w, step)
    ensures Steady(Next(w, delay, step))
  {
    hide KeyRouting, KeySeq, EntriesOf, Stored, Chosen, Flatten, EventAcks, EventOk, KeysOf;
    if step.Op? {
      OpKeepsSteady(w, delay, step.routing, step.pendings);
    }
  }

  /** With keys used once, an operation writes over nothing, and a deletion that lands however late
      finds only the entry it was proposed for. */
  lemma SteadyIsHarmless(w: World, delay: nat, step: Step)
    requires Inv(w, delay) && Steady(w) && Enabled(w, delay, step)
    ensures Harmless(w, step)
  {
    hide Pending.Ids, EntriesOf, Ahead, KeyRouting, KeySeq, SweepOk, Stored, Chosen, Flatten;
    if step.Op? {
      OpKeepsSteady(w, delay, step.routing, step.pendings);
    } else if step.ApplyDelete? {
      var keys := KeysOf(step.entries);
      assert Settled(w, step.entries);
      forall k, id | k in keys && k in w.queue && id in w.queue[k].Ids() ensures id in w.acked {
        var e :| e in step.entries && e.key == k;
        assert e == Entry(k, w.queue[k]);
      }
    }
  }

  ghost predicate CleanSplits(w: World, delay: nat, steps: seq<Step>)
    requires Runs(w, delay, steps)
    decreases |steps|
  {
    steps != [] ==> CleanSplit(w, steps[0]) && CleanSplits(Next(w, delay, steps[0]), delay, steps[1..])
  }

  lemma {:induction false} CleanRunIsHarmless(w: World, delay: nat, steps: seq<Step>)
    requires Inv(w, delay) && Steady(w) && Runs(w, delay, steps) && CleanSplits(w, delay, steps)
    ensures HarmlessRun(w, delay, steps)
    decreases |steps|
  {
    hide Inv, Steady, Enabled, Next, Harmless, CleanSplit;
    if steps != [] {
      SteadyIsHarmless(w, delay, steps[0]);
      StepKeepsInv(w, delay, steps[0]);
      StepKeepsSteady(w, delay, steps[0]);
      CleanRunIsHarmless(Next(w, delay, steps[0]), delay, steps[1..]);
    }
  }

  /** An empty queue over any numbering. */
  function Start(names: Numbering): World {
    World(names, {}, map[], {}, {}, 0, map[], {})
  }

  /** Over every history of operations, splits and sweeps by any number of nodes, with any blobs
      refused and deletions lost or late: nothing is tombstoned before its delay is over, and when
      splits move only unnumbered keys nothing enqueued is ever forgotten. */
  lemma QueueNeverLeaksOrActsEarly(names: Numbering, delay: nat, steps: seq<Step>)
    requires Runs(Start(names), delay, steps)
    ensures NotEarly(Finally(Start(names), delay, steps), delay)
    ensures CleanSplits(Start(names), delay, steps) ==> NeverLeaks(Start(names), delay, steps)
  {
    hide Enabled, Next, CleanSplits, HarmlessRun, NeverLeaks;
    RunKeepsInv(Start(names), delay, steps);
    if CleanSplits(Start(names), delay, steps) {
      CleanRunIsHarmless(Start(names), delay, steps);
      RunLeaksNothingIff(Start(names), delay, steps);
    }
  }

  /** A delete queued before a split and the first one after it share a key: whatever the second
      entry does not carry is forgotten. */
  lemma SplitCanLeak(r: Bytes, first: Pending, second: Pending, delay: nat, id: nat)
    requires id in first.Ids() && id !in second.Ids()
    ensures var w := Start(Numbering(map[r := 1], map[1 := 0]));
            var steps := [Op(r, [first]), Split({r}, 2), Op(r, [second])];
            Runs(w, delay, steps) && !NoLeak(Finally(w, delay, steps))
  {
    hide Pending.Ids, DelqKey, EntriesOf, AsEntries;
    var w := Start(Numbering(map[r := 1], map[1 := 0]));
    var steps := [Op(r, [first]), Split({r}, 2), Op(r, [second])];
    OneEntry(r, first);
    OneEntry(r, second);
    var a := Next(w, delay, steps[0]);
    var b := Next(a, delay, steps[1]);
    assert SeqOf(b.names, r) == Some(0);
    var c := Next(b, delay, steps[2]);
    ThreeSteps(w, delay, steps);
    var k := DelqKey(r, 0, 0);
    assert c.queue == map[k := second] && Entry(k, first) in c.log;
    assert !Held(c.queue, id);
  }

  lemma OneEntry(r: Bytes, p: Pending)
    ensures EntriesOf(r, 0, [p]) == map[DelqKey(r, 0, 0) := p]
    ensures AsEntries(EntriesOf(r, 0, [p])) == {Entry(DelqKey(r, 0, 0), p)}
  {
    hide DelqKey;
    var k := DelqKey(r, 0, 0);
    assert [p][..0] == [] && EntriesOf(r, 0, []) == map[];
    assert EntriesOf(r, 0, [p]) == map[][k := p];
    assert map[][k := p] == map[k := p];
    assert k in EntriesOf(r, 0, [p]);
  }

  lemma ThreeSteps(w: World, delay: nat, steps: seq<Step>)
    requires |steps| == 3 && Enabled(w, delay, steps[0])
    requires var a := Next(w, delay, steps[0]); Enabled(a, delay, steps[1])
    requires var b := Next(Next(w, delay, steps[0]), delay, steps[1]); Enabled(b, delay, steps[2])
    ensures Runs(w, delay, steps)
    ensures Finally(w, delay, steps) ==
      Next(Next(Next(w, delay, steps[0]), delay, steps[1]), delay, steps[2])
  {
    hide Enabled, Next;
    var a := Next(w, delay, steps[0]);
    var b := Next(a, delay, steps[1]);
    var c := Next(b, delay, steps[2]);
    var last, two := steps[2..], steps[1..];
    assert two[1..] == last && last[1..] == [] && last[0] == steps[2] && two[0] == steps[1];
    assert Runs(c, delay, []) && Finally(c, delay, []) == c;
    assert Runs(b, delay, last) && Finally(b, delay, last) == c;
    assert Runs(a, delay, two) && Finally(a, delay, two) == c;
  }
}
