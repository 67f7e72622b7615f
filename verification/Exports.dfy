/** The keep-set of a GC round as it is really assembled: the placement driver's partition list, then
    one export per listed partition, each from its own node at its own moment, while PUTs, deletes and
    splits go on (crates/epoch-node/src/roles/gc.rs, crates/epoch-meta/src/service.rs). A node exports
    the range it registered the partition with, which is the placement driver's at that time; a split
    is announced there first and narrows the parent's log later, but no node's registered range. */
module Exports {
  import opened Bytes
  import opened Writer
  import opened Collector

  /** Writers and references, the key each reference was committed under, the partition that holds
      each key, the keys each partition holds or has held, the placement driver's range of each
      partition, and the range each node registered it with. */
  datatype World = World(
    sys: System,
    home: map<BlobId, nat>,
    owner: map<nat, nat>,
    past: map<nat, set<nat>>,
    table: map<nat, set<nat>>,
    span: map<(nat, nat), set<nat>>)

  datatype Event =
    | Do(step: Step)
    | Put(ids: set<BlobId>, key: nat)
    | Create(part: nat, keys: set<nat>)
    | Announce(child: nat, from: nat, moved: set<nat>)
    | Enroll(part: nat, node: nat)
    | Split(child: nat, from: nat, moved: set<nat>)

  const START := World(EMPTY, map[], map[], map[], map[], map[])

  predicate Holds(w: World, c: nat, p: nat) {
    c in w.owner && w.owner[c] == p
  }

  function Past(w: World, p: nat): set<nat> {
    if p in w.past then w.past[p] else {}
  }

  /** A metadata commit lands under a key; every other writer step is as in `Collector`. */
  ghost predicate Can(w: World, e: Event) {
    match e
    case Do(step) => !step.Commit? && Enabled(w.sys, step)
    case Put(ids, c) => ids <= w.sys.open && c in w.owner
    case Create(p, keys) => p !in w.table && keys !! w.owner.Keys
    case Announce(q, p, moved) => q !in w.table && p in w.table && moved <= w.table[p]
    case Enroll(p, a) => p in w.table
    case Split(q, p, moved) => q in w.table && p in w.table && forall c | c in moved :: Holds(w, c, p)
  }

  ghost function Then(w: World, e: Event): World
    requires Can(w, e)
  {
    match e
    case Do(step) => w.(sys := Apply(w.sys, step))
    case Put(ids, c) => w.(sys := Apply(w.sys, Commit(ids)), home := w.home + map id | id in ids :: c)
    case Create(p, keys) =>
      w.(owner := w.owner + map c | c in keys :: p, past := w.past[p := Past(w, p) + keys], table := w.table[p := keys])
    case Announce(q, p, moved) => w.(table := w.table[p := w.table[p] - moved][q := moved])
    case Enroll(p, a) => w.(span := w.span[(p, a) := w.table[p]])
    case Split(q, p, moved) =>
      w.(owner := w.owner + map c | c in moved :: q, past := w.past[q := Past(w, q) + moved])
  }

  /** What each event does to keys: a commit lands under its key, a creation and a split hand the keys
      named, and no others, to the partition named, an announcement moves them in the placement
      driver's ranges alone, and a registration copies the range of the moment. */
  lemma EventsPlaceKeys(w: World, e: Event, c: nat)
    requires Can(w, e)
    ensures var v := Then(w, e);
            && (forall p :: Holds(v, c, p) <==>
                  if (e.Create? && c in e.keys) || (e.Split? && c in e.moved)
                  then p == (if e.Create? then e.part else e.child)
                  else Holds(w, c, p))
            && (!e.Create? && !e.Announce? ==> v.table == w.table)
            && (e.Create? ==> v.table == w.table[e.part := e.keys])
            && (e.Announce? ==>
                  && v.table.Keys == w.table.Keys + {e.child} && v.table[e.child] == e.moved
                  && v.table[e.from] == w.table[e.from] - e.moved
                  && (forall p | p in w.table && p != e.from :: v.table[p] == w.table[p]))
            && v.span == (if e.Enroll? then w.span[(e.part, e.node) := w.table[e.part]] else w.span)
            && (e.Put? ==> forall id | id in e.ids :: id in v.home && v.home[id] == e.key)
  {
    hide Enabled, Apply;
  }

  ghost predicate History(states: seq<World>, events: seq<Event>) {
    && |states| == |events| + 1 && states[0] == START
    && forall i | 0 <= i < |events| :: Can(states[i], events[i]) && states[i + 1] == Then(states[i], events[i])
  }

  // ---------------------------------------------------------------- what every event keeps

  /** Every key is its owner's, and owners are listed. */
  ghost predicate Placed(w: World) {
    && (forall c | c in w.owner :: w.owner[c] in w.table && c in Past(w, w.owner[c]))
    && (forall id | id in w.home :: w.home[id] in w.owner)
  }

  ghost predicate Inv(w: World) {
    Invariant(w.sys) && w.home.Keys == w.sys.committed && Placed(w)
  }

  /** What never changes back: references come only from open PUTs and keep their key, listed
      partitions stay listed, and a key once held stays in the partition's past. */
  ghost predicate Later(w: World, v: World) {
    && Forward(w.sys, v.sys)
    && (forall id | id in w.home :: id in v.home && v.home[id] == w.home[id])
    && w.table.Keys <= v.table.Keys
    && (forall p :: Past(w, p) <= Past(v, p))
  }

  lemma PlacesStay(w: World, e: Event)
    requires Placed(w) && Can(w, e)
    ensures Placed(Then(w, e))
  {
    hide Enabled, Apply;
  }

  lemma CommittedAfter(s: System, step: Step)
    requires Enabled(s, step) && !step.Commit?
    ensures Apply(s, step).committed == s.committed
  {
  }

  lemma SysKeeps(w: World, e: Event)
    requires Inv(w) && Can(w, e)
    ensures Invariant(Then(w, e).sys) && Forward(w.sys, Then(w, e).sys)
  {
    hide Invariant, Apply, Forward, Placed;
    match e
    case Do(step) => StepKeepsInvariant(w.sys, step);
    case Put(ids, c) =>
      assert Enabled(w.sys, Commit(ids));
      StepKeepsInvariant(w.sys, Commit(ids));
    case _ => ForwardIsReflexive(w.sys);
  }

  lemma ForwardIsReflexive(s: System)
    ensures Forward(s, s)
  {
  }

  lemma HomesStay(w: World, e: Event)
    requires Inv(w) && Can(w, e)
    ensures Then(w, e).home.Keys == Then(w, e).sys.committed
    ensures forall id | id in w.home :: id in Then(w, e).home && Then(w, e).home[id] == w.home[id]
  {
    hide TokensOk, SessionOk, Settled, Placed;
    if e.Do? {
      CommittedAfter(w.sys, e.step);
    }
    hide Apply, Enabled;
    if e.Put? {
      PutCommits(w.sys, e.ids);
      assert (map id | id in e.ids :: e.key).Keys == e.ids;
    }
  }

  lemma PutCommits(s: System, ids: set<BlobId>)
    requires ids <= s.open
    ensures Enabled(s, Commit(ids)) && Apply(s, Commit(ids)).committed == s.committed + ids
  {
  }

  lemma EventKeepsInv(w: World, e: Event)
    requires Inv(w) && Can(w, e)
    ensures Inv(Then(w, e)) && Later(w, Then(w, e))
  {
    PlacesStay(w, e);
    SysKeeps(w, e);
    HomesStay(w, e);
    PastGrows(w, e);
    hide Invariant, Forward, Placed, Past, Can, Then;
  }

  lemma PastGrows(w: World, e: Event)
    requires Can(w, e)
    ensures w.table.Keys <= Then(w, e).table.Keys
    ensures forall p :: Past(w, p) <= Past(Then(w, e), p)
  {
    hide Enabled, Apply;
  }

  lemma LaterIsTransitive(a: World, b: World, c: World)
    requires Later(a, b) && Later(b, c)
    ensures Later(a, c)
  {
  }

  lemma StartIsInv()
    ensures Inv(START)
  {
    EmptyIsInvariant();
    hide Invariant;
  }

  lemma {:induction false} HistoryKeepsInv(states: seq<World>, events: seq<Event>, i: nat)
    requires History(states, events) && i < |states|
    ensures Inv(states[i])
  {
    hide Can, Then, Inv, Later;
    if i == 0 {
      StartIsInv();
    } else {
      HistoryKeepsInv(states, events, i - 1);
      EventKeepsInv(states[i - 1], events[i - 1]);
    }
  }

  lemma LaterIsReflexive(w: World)
    ensures Later(w, w)
  {
  }

  lemma {:induction false} HistoryGoesOn(states: seq<World>, events: seq<Event>, i: nat, j: nat)
    requires History(states, events) && i <= j < |states|
    ensures Later(states[i], states[j])
    decreases j
  {
    hide Can, Then, Inv, Later;
    if i == j {
      LaterIsReflexive(states[i]);
    } else {
      HistoryGoesOn(states, events, i, j - 1);
      HistoryKeepsInv(states, events, j - 1);
      EventKeepsInv(states[j - 1], events[j - 1]);
      LaterIsTransitive(states[i], states[j - 1], states[j]);
    }
  }

  // ---------------------------------------------------------------- the keep-set

  /** The references a node is sure to export for a partition: those under keys of its registered
      range that the partition holds or has held. Of other keys in that range it may lag behind. */
  ghost function Exported(w: World, p: nat, a: nat): set<BlobId>
    requires (p, a) in w.span
  {
    set id | id in w.sys.refs && id in w.home && w.home[id] in w.span[(p, a)] && w.home[id] in Past(w, p)
  }

  /** One export: of `part`, from `node`, at the moment `at`. */
  datatype Export = Export(part: nat, node: nat, at: nat)

  /** The list is read at `l` and every listed partition is exported by `k`, from a node that has
      registered it: any other answer ends the round. */
  ghost predicate Round(states: seq<World>, l: nat, exports: seq<Export>, k: nat) {
    && l <= k < |states|
    && (forall x | x in exports :: l <= x.at <= k && (x.part, x.node) in states[x.at].span)
    && (forall p | p in states[l].table :: Asked(exports, p))
  }

  ghost predicate Asked(exports: seq<Export>, p: nat) {
    exists x :: x in exports && x.part == p
  }

  /** The export takes the key in: it is in the node's range, and the partition has held it. */
  ghost predicate Takes(states: seq<World>, x: Export, c: nat) {
    && x.at < |states| && (x.part, x.node) in states[x.at].span
    && c in states[x.at].span[(x.part, x.node)] && c in Past(states[x.at], x.part)
  }

  ghost predicate Seen(states: seq<World>, exports: seq<Export>, c: nat) {
    exists x :: x in exports && Takes(states, x, c)
  }

  ghost predicate Gives(states: seq<World>, x: Export, id: BlobId) {
    x.at < |states| && (x.part, x.node) in states[x.at].span && id in Exported(states[x.at], x.part, x.node)
  }

  ghost predicate Kept(states: seq<World>, exports: seq<Export>, id: BlobId) {
    exists x :: x in exports && Gives(states, x, id)
  }

  /** A reference that stands throughout the round is sure to be in the union of the exports exactly
      when some export took its key in. */
  lemma KeptIffSeen(states: seq<World>, events: seq<Event>, l: nat, exports: seq<Export>, k: nat, id: BlobId)
    requires History(states, events) && Round(states, l, exports, k)
    requires forall j | l <= j <= k :: id in states[j].sys.refs
    ensures id in states[l].home
    ensures Kept(states, exports, id) <==> Seen(states, exports, states[l].home[id])
  {
    hide History, Forward, Past;
    HistoryKeepsInv(states, events, l);
    assert id in states[l].home by { ReferencedHasHome(states[l], id); }
    forall x | x in exports ensures Gives(states, x, id) <==> Takes(states, x, states[l].home[id]) {
      HistoryGoesOn(states, events, l, x.at);
    }
  }

  lemma ReferencedHasHome(w: World, id: BlobId)
    requires Inv(w) && id in w.sys.refs
    ensures id in w.home
  {
    hide TokensOk, SessionOk, Settled, Placed;
  }

  // ---------------------------------------------------------------- ranges

  /** The partition that held the key when the list was read is exported from a node whose range
      still has the key. */
  ghost predicate Ranged(states: seq<World>, l: nat, exports: seq<Export>, c: nat)
    requires l < |states| && c in states[l].owner
  {
    exists x :: x in exports && x.part == states[l].owner[c] && x.at < |states|
                && (x.part, x.node) in states[x.at].span && c in states[x.at].span[(x.part, x.node)]
  }

  /** Then it is taken in, whatever was split off in the meantime. */
  lemma RangedIsSeen(states: seq<World>, events: seq<Event>, l: nat, exports: seq<Export>, k: nat, c: nat)
    requires History(states, events) && Round(states, l, exports, k) && c in states[l].owner
    requires Ranged(states, l, exports, c)
    ensures Seen(states, exports, c)
  {
    hide History, Forward;
    var x :| x in exports && x.part == states[l].owner[c] && x.at < |states|
             && (x.part, x.node) in states[x.at].span && c in states[x.at].span[(x.part, x.node)];
    HistoryKeepsInv(states, events, l);
    HistoryGoesOn(states, events, l, x.at);
    assert c in Past(states[l], x.part) by { OwnerHasPast(states[l], c); }
    assert Past(states[l], x.part) <= Past(states[x.at], x.part);
    assert Takes(states, x, c);
  }

  lemma OwnerHasPast(w: World, c: nat)
    requires Inv(w) && c in w.owner
    ensures c in Past(w, w.owner[c])
  {
    hide Invariant;
  }

  /** A node's range is the placement driver's at the time of its latest registration. */
  ghost predicate RegisteredAt(events: seq<Event>, p: nat, a: nat, r: nat, j: nat) {
    && r < j <= |events| && events[r] == Enroll(p, a)
    && forall i | r < i < j :: events[i] != Enroll(p, a)
  }

  lemma {:induction false} RangeIsOfRegistration(states: seq<World>, events: seq<Event>, p: nat, a: nat, r: nat, j: nat)
    requires History(states, events) && RegisteredAt(events, p, a, r, j)
    ensures p in states[r].table && (p, a) in states[j].span && states[j].span[(p, a)] == states[r].table[p]
    decreases j
  {
    hide Can, Then;
    if r + 1 < j {
      RangeIsOfRegistration(states, events, p, a, r, j - 1);
      SpanStays(states[j - 1], events[j - 1], p, a);
    } else {
      SpanIsSet(states[r], p, a);
    }
  }

  lemma SpanIsSet(w: World, p: nat, a: nat)
    requires Can(w, Enroll(p, a))
    ensures var t := Then(w, Enroll(p, a));
            p in w.table && (p, a) in t.span && t.span[(p, a)] == w.table[p]
  {
  }

  lemma SpanStays(w: World, e: Event, p: nat, a: nat)
    requires Can(w, e) && e != Enroll(p, a) && (p, a) in w.span
    ensures (p, a) in Then(w, e).span && Then(w, e).span[(p, a)] == w.span[(p, a)]
  {
    hide Enabled, Apply;
  }

  /** A key leaves the placement driver's range of a partition only by an announced split. */
  lemma {:induction false} LeavesByAnnouncement(states: seq<World>, events: seq<Event>, p: nat, c: nat, i: nat, r: nat)
    requires History(states, events) && i <= r < |states|
    requires p in states[i].table && c in states[i].table[p]
    requires forall j | i <= j < r :: !(events[j].Announce? && events[j].from == p && c in events[j].moved)
    ensures p in states[r].table && c in states[r].table[p]
    decreases r
  {
    hide Can, Then;
    if i < r {
      LeavesByAnnouncement(states, events, p, c, i, r - 1);
      StaysInTable(states[r - 1], events[r - 1], p, c);
    }
  }

  lemma StaysInTable(w: World, e: Event, p: nat, c: nat)
    requires Can(w, e) && p in w.table && c in w.table[p]
    requires !(e.Announce? && e.from == p && c in e.moved)
    ensures p in Then(w, e).table && c in Then(w, e).table[p]
  {
    hide Enabled, Apply;
  }

  /** Registered before any split of its key was announced, the owner's node covers the key for good,
      however many splits are announced or carried out before the export. */
  lemma EarlyNodeIsRanged(states: seq<World>, events: seq<Event>, l: nat, exports: seq<Export>, k: nat, c: nat,
                          x: Export, i: nat, r: nat)
    requires History(states, events) && Round(states, l, exports, k) && c in states[l].owner
    requires x in exports && x.part == states[l].owner[c] && x.at < |states|
    requires RegisteredAt(events, x.part, x.node, r, x.at)
    requires i <= r && x.part in states[i].table && c in states[i].table[x.part]
    requires forall j | i <= j < r :: !(events[j].Announce? && events[j].from == x.part && c in events[j].moved)
    ensures Ranged(states, l, exports, c)
  {
    hide History;
    LeavesByAnnouncement(states, events, x.part, c, i, r);
    RangeIsOfRegistration(states, events, x.part, x.node, r, x.at);
  }

  // ---------------------------------------------------------------- the whole round

  /** From a token that is over nothing more is minted. */
  lemma OverMintsNothing(w: World, e: Event, t: nat)
    requires Inv(w) && Can(w, e) && Over(w.sys, t)
    ensures Over(Then(w, e).sys, t)
    ensures forall id | id in Then(w, e).sys.minted && id.token == t :: id in w.sys.minted
  {
    match e
    case Do(step) =>
      StepKeepsOver(w.sys, step, t);
      StepMintsNothing(w.sys, step, t);
    case Put(ids, c) =>
      assert Enabled(w.sys, Commit(ids));
      StepKeepsOver(w.sys, Commit(ids), t);
    case _ =>
  }

  lemma StepMintsNothing(s: System, step: Step, t: nat)
    requires Invariant(s) && Enabled(s, step) && Over(s, t)
    ensures forall id | id in Apply(s, step).minted && id.token == t :: id in s.minted
  {
    hide Invariant;
  }

  lemma {:induction false} OverStays(states: seq<World>, events: seq<Event>, i: nat, j: nat, t: nat)
    requires History(states, events) && i <= j < |states| && Over(states[i].sys, t)
    ensures Over(states[j].sys, t)
    ensures forall id | id in states[j].sys.minted && id.token == t :: id in states[i].sys.minted
    decreases j
  {
    hide Can, Then, Inv, Over;
    if i < j {
      OverStays(states, events, i, j - 1, t);
      HistoryKeepsInv(states, events, j - 1);
      OverMintsNothing(states[j - 1], events[j - 1], t);
    }
  }

  /** An orphan of a listed or finished token was minted when the table was read, and its PUT is over. */
  lemma OrphanIsSettled(states: seq<World>, events: seq<Event>, i: nat, k: nat, live: map<nat, int>, id: BlobId)
    requires History(states, events) && i <= k < |states| && LiveTable(states[i].sys, live)
    requires if id.token in live then id.seqno <= live[id.token] else Over(states[i].sys, id.token)
    requires id in states[k].sys.minted
    ensures id in states[i].sys.minted && id !in states[i].sys.open
  {
    hide History, Can, Then;
    HistoryKeepsInv(states, events, i);
    if id.token in live {
      var w := live[id.token];
      assert (id.token, w) in states[i].sys.reports;
      assert Settled(states[i].sys, id.token, w);
    } else {
      OverStays(states, events, i, k, id.token);
    }
  }

  /** A blob whose PUT was over and that is live at `k` was referenced all the time in between. */
  lemma LiveWasHeld(states: seq<World>, events: seq<Event>, i: nat, k: nat, id: BlobId)
    requires History(states, events) && i <= k < |states|
    requires id in states[i].sys.minted && id !in states[i].sys.open && id in states[k].sys.refs
    ensures forall j | i <= j <= k :: id in states[j].sys.refs
  {
    hide History;
    forall j | i <= j <= k ensures id in states[j].sys.refs {
      HistoryGoesOn(states, events, i, j);
      HistoryGoesOn(states, events, j, k);
    }
  }

  /** Table at `i`, list at `l`, one export per listed partition from its own node at its own moment,
      and PUTs, deletes, announcements and splits as they come: an orphan of a token that is in the
      table or over can be live at the end only if no export took its key in. */
  lemma RoundLosesOnlyUnseen(states: seq<World>, events: seq<Event>, i: nat, l: nat, exports: seq<Export>, k: nat,
                             live: map<nat, int>, id: BlobId)
    requires History(states, events) && i <= l && Round(states, l, exports, k) && LiveTable(states[i].sys, live)
    requires if id.token in live then id.seqno <= live[id.token] else Over(states[i].sys, id.token)
    requires !Kept(states, exports, id) && id in states[k].sys.refs
    ensures id in states[l].home && !Seen(states, exports, states[l].home[id])
  {
    hide History, Kept, Seen, LiveTable, Over;
    HistoryKeepsInv(states, events, k);
    assert id in states[k].sys.minted by { ReferencedIsMinted(states[k], id); }
    OrphanIsSettled(states, events, i, k, live, id);
    LiveWasHeld(states, events, i, k, id);
    KeptIffSeen(states, events, l, exports, k, id);
  }

  lemma ReferencedIsMinted(w: World, id: BlobId)
    requires Inv(w) && id in w.sys.refs
    ensures id in w.sys.minted
  {
    hide Placed, TokensOk, SessionOk, Settled;
  }

  /** When every key is exported from a node whose range has it, the round is safe: every orphan of a
      token that is in the table or over is dead for good, whatever happens after the round. */
  lemma RangedRoundIsSafe(states: seq<World>, events: seq<Event>, i: nat, l: nat, exports: seq<Export>, end: nat,
                          k: nat, live: map<nat, int>, id: BlobId)
    requires History(states, events) && i <= l && Round(states, l, exports, end) && end <= k < |states|
    requires LiveTable(states[i].sys, live)
    requires if id.token in live then id.seqno <= live[id.token] else Over(states[i].sys, id.token)
    requires forall c | c in states[l].owner :: Ranged(states, l, exports, c)
    requires !Kept(states, exports, id)
    ensures id !in states[k].sys.refs
  {
    if id in states[k].sys.refs {
      hide History, Kept, LiveTable, Over, Ranged;
      HistoryKeepsInv(states, events, k);
      ReferencedIsMinted(states[k], id);
      OrphanIsSettled(states, events, i, k, live, id);
      LiveWasHeld(states, events, i, k, id);
      RoundLosesOnlyUnseen(states, events, i, l, exports, end, live, id);
      HistoryKeepsInv(states, events, l);
      assert states[l].home[id] in states[l].owner by { HomeIsOwned(states[l], id); }
      RangedIsSeen(states, events, l, exports, end, states[l].home[id]);
    }
  }

  lemma HomeIsOwned(w: World, id: BlobId)
    requires Inv(w) && id in w.home
    ensures w.home[id] in w.owner
  {
    hide Invariant;
  }

  lemma OneMore(states: seq<World>, events: seq<Event>, e: Event) returns (after: seq<World>, so: seq<Event>)
    requires History(states, events) && Can(states[|events|], e)
    ensures so == events + [e] && after == states + [Then(states[|events|], e)] && History(after, so)
    ensures |after| == |so| + 1 && states == after[..|so|] && after[|so|] == Then(states[|events|], e)
  {
    hide Can, Then;
    after, so := states + [Then(states[|events|], e)], events + [e];
    forall i | 0 <= i < |so| ensures Can(after[i], so[i]) && after[i + 1] == Then(after[i], so[i]) {
      assert i < |events| ==> after[i] == states[i] && after[i + 1] == states[i + 1] && so[i] == events[i];
    }
  }

  const ID := BlobId(1, 0)

  /** One gateway, 7, with token 1, that has minted one blob. */
  function Sys(inFlight: set<nat>, open: set<BlobId>, done: set<BlobId>, reports: set<(nat, int)>): System {
    System(map[7 := Session(1, 1, false, inFlight)], 2, {}, {}, {1}, {}, {ID}, open, done, done, reports)
  }

  lemma Minting()
    ensures Enabled(EMPTY, Register(1))
    ensures Enabled(Apply(EMPTY, Register(1)), Establish(7, 1))
    ensures Apply(Apply(EMPTY, Register(1)), Establish(7, 1))
            == System(map[7 := Fresh(1)], 2, {}, {}, {1}, {}, {}, {}, {}, {}, {})
  {
    assert Apply(EMPTY, Register(1)) == System(map[], 2, {}, {1}, {}, {}, {}, {}, {}, {}, {});
  }

  lemma MintsOne()
    ensures var s := System(map[7 := Fresh(1)], 2, {}, {}, {1}, {}, {}, {}, {}, {}, {});
            Enabled(s, Mint(7)) && Apply(s, Mint(7)) == Sys({0}, {ID}, {}, {})
  {
    assert Minted(Fresh(1)) == Session(1, 1, false, {0});
  }

  lemma CommitsOne()
    ensures Enabled(Sys({0}, {ID}, {}, {}), Commit({ID}))
    ensures Apply(Sys({0}, {ID}, {}, {}), Commit({ID})) == Sys({0}, {}, {ID}, {})
  {
  }

  lemma ResolvesOne()
    ensures Enabled(Sys({0}, {}, {ID}, {}), Resolve(7, ID))
    ensures Apply(Sys({0}, {}, {ID}, {}), Resolve(7, ID)) == Sys({}, {}, {ID}, {})
  {
    assert Resolved(Session(1, 1, false, {0}), ID) == Session(1, 1, false, {});
  }

  lemma ReportsOne()
    ensures Enabled(Sys({}, {}, {ID}, {}), Heartbeat(7))
    ensures Apply(Sys({}, {}, {ID}, {}), Heartbeat(7)) == Sys({}, {}, {ID}, {(1, 0)})
  {
  }

  /** One partition with key 4, and one blob minted. */
  lemma OneMinted() returns (states: seq<World>, events: seq<Event>)
    ensures History(states, events) && |events| == 4 && |states| == 5
    ensures states[4] == World(Sys({0}, {ID}, {}, {}), map[], map[4 := 1], map[1 := {4}], map[1 := {4}], map[])
  {
    hide History, Enabled, Apply, Sys;
    Minting();
    MintsOne();
    states, events := [START], [];
    assert History(states, events) by { JustStarted(); }
    states, events := OneMore(states, events, Create(1, {4}));
    assert Past(START, 1) + {4} == {4};
    assert states[1].owner == map[4 := 1] && states[1].past == map[1 := {4}];
    states, events := OneMore(states, events, Do(Register(1)));
    states, events := OneMore(states, events, Do(Establish(7, 1)));
    states, events := OneMore(states, events, Do(Mint(7)));
  }

  lemma JustStarted()
    ensures History([START], [])
  {
  }

  lemma OneIsOpen()
    ensures Sys({0}, {ID}, {}, {}).open == {ID}
  {
  }

  /** Then committed under that key, resolved and reported. */
  lemma OneBlob() returns (states: seq<World>, events: seq<Event>)
    ensures History(states, events) && |events| == 7 && |states| == 8
    ensures states[7] == World(Sys({}, {}, {ID}, {(1, 0)}), map[ID := 4], map[4 := 1], map[1 := {4}], map[1 := {4}],
                               map[])
  {
    hide History, Enabled, Apply, Sys;
    CommitsOne();
    OneIsOpen();
    ResolvesOne();
    ReportsOne();
    states, events := OneMinted();
    states, events := OneMore(states, events, Put({ID}, 4));
    assert states[5].home == map[ID := 4];
    states, events := OneMore(states, events, Do(Resolve(7, ID)));
    states, events := OneMore(states, events, Do(Heartbeat(7)));
  }

  /** The split of key 4 is announced, and only then do nodes 8 and 9 register the two halves; the
      parent has not carried the split out. */
  lemma LateNodes() returns (states: seq<World>, events: seq<Event>)
    ensures History(states, events) && |events| == 10 && |states| == 11
    ensures states[7].sys == Sys({}, {}, {ID}, {(1, 0)})
    ensures states[10] == World(Sys({}, {}, {ID}, {(1, 0)}), map[ID := 4], map[4 := 1], map[1 := {4}],
                                map[1 := {}, 2 := {4}], map[(1, 8) := {}, (2, 9) := {4}])
  {
    hide History, Sys;
    states, events := OneBlob();
    states, events := OneMore(states, events, Announce(2, 1, {4}));
    assert states[8].table[1] == {4} - {4} == {};
    assert states[8].table == map[1 := {}, 2 := {4}];
    states, events := OneMore(states, events, Enroll(1, 8));
    states, events := OneMore(states, events, Enroll(2, 9));
    assert states[10].span == map[(1, 8) := {}, (2, 9) := {4}];
  }

  lemma TableOfOne()
    ensures LiveTable(Sys({}, {}, {ID}, {(1, 0)}), map[1 := 0]) && ID in Sys({}, {}, {ID}, {(1, 0)}).refs
  {
  }

  /** Nodes that register between the announcement of a split and its execution: the parent's no
      longer has the key in its range and the child has never held it, so a blob that is live all
      along is sure to be in neither export. */
  lemma LateNodesCanLoseLiveData()
    ensures exists states: seq<World>, events, live, exports: seq<Export>, id: BlobId ::
              && History(states, events) && Round(states, 10, exports, 10)
              && LiveTable(states[10].sys, live)
              && id.token in live && id.seqno <= live[id.token]
              && !Kept(states, exports, id) && id in states[10].sys.refs
  {
    hide History, LiveTable, Sys;
    var states, events := LateNodes();
    var live: map<nat, int>, exports := map[1 := 0], [Export(1, 8, 10), Export(2, 9, 10)];
    assert exports[0] in exports && exports[1] in exports;
    assert Asked(exports, 1) && Asked(exports, 2);
    assert forall x | x in exports :: x == exports[0] || x == exports[1];
    assert Round(states, 10, exports, 10);
    TableOfOne();
    assert !Gives(states, exports[0], ID) && !Gives(states, exports[1], ID);
    assert !Kept(states, exports, ID);
  }
}
