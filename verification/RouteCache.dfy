/** The metadata client's route cache against a table that keeps splitting and migrating
    (crates/epoch-client/src/meta.rs). */
module RouteCache {
  import opened Bytes
  import opened Routes

  /** A cached partition view and the address its leader was last seen at. */
  datatype Route = Route(view: MetaPartition, leader: string) {
    predicate Covers(ns: NsMode, c: Coord) {
      view.ns == ns && view.Contains(c)
    }
  }

  ghost predicate Apart(r: Route, s: Route) {
    forall ns, c :: !(r.Covers(ns, c) && s.Covers(ns, c))
  }

  /** No coordinate is covered by two entries. */
  ghost predicate OneRoute(routes: seq<Route>) {
    routes == [] || ((forall r | r in routes[1..] :: Apart(routes[0], r)) && OneRoute(routes[1..]))
  }

  /** The entries of other partitions, in order. */
  function Retain(routes: seq<Route>, id: nat): (kept: seq<Route>)
    ensures forall r :: r in kept <==> r in routes && r.view.id != id
  {
    if routes == [] then []
    else (if routes[0].view.id == id then [] else [routes[0]]) + Retain(routes[1..], id)
  }

  lemma {:induction false} RetainKeepsOneRoute(routes: seq<Route>, id: nat)
    requires OneRoute(routes)
    ensures OneRoute(Retain(routes, id))
  {
    hide Apart;
    if routes != [] {
      RetainKeepsOneRoute(routes[1..], id);
      var kept := Retain(routes[1..], id);
      assert ([routes[0]] + kept)[1..] == kept && [] + kept == kept;
    }
  }

  lemma {:induction false} PushKeepsOneRoute(routes: seq<Route>, r: Route)
    requires OneRoute(routes)
    ensures OneRoute(routes + [r]) <==> forall s | s in routes :: Apart(s, r)
  {
    hide Apart;
    if routes == [] {
      assert (routes + [r])[1..] == [];
    } else {
      PushKeepsOneRoute(routes[1..], r);
      assert (routes + [r])[1..] == routes[1..] + [r];
      assert r in routes[1..] + [r];
    }
  }

  lemma {:induction false} CoverIsUnique(routes: seq<Route>, r: Route, s: Route, ns: NsMode, c: Coord)
    requires OneRoute(routes) && r in routes && s in routes && r.Covers(ns, c) && s.Covers(ns, c)
    ensures r == s
  {
    hide Route.Covers;
    assert forall x | x in routes :: x == routes[0] || x in routes[1..];
    if r != routes[0] && s != routes[0] {
      CoverIsUnique(routes[1..], r, s, ns, c);
    }
  }

  function CachedAfter(routes: seq<Route>, r: Route): seq<Route> {
    Retain(routes, r.view.id) + [r]
  }

  /** Caching a view evicts only its own id, so one route per coordinate survives exactly when
      no entry of another partition overlaps it. */
  lemma CachingKeepsOneRoute(routes: seq<Route>, r: Route)
    requires OneRoute(routes)
    ensures OneRoute(CachedAfter(routes, r)) <==> forall s | s in routes && s.view.id != r.view.id :: Apart(s, r)
  {
    hide Apart, OneRoute;
    RetainKeepsOneRoute(routes, r.view.id);
    PushKeepsOneRoute(Retain(routes, r.view.id), r);
  }

  // ---------------------------------------------------------------- stale views

  /** `v` was a partition of this namespace at some earlier time: its whole interval is still
      owned, and every partition reaching into it lies inside it. */
  ghost predicate Ancestral(v: MetaPartition, ix: Index) {
    && (forall c | v.Contains(c) :: Covered(ix, v.ns, c))
    && (forall id, c | Owns(ix, v.ns, c, id) && v.Contains(c) :: Within(ix, v, id))
  }

  ghost predicate Within(ix: Index, v: MetaPartition, id: nat) {
    forall d | Owns(ix, v.ns, d, id) :: v.Contains(d)
  }

  lemma PartitionIsAncestral(ix: Index, id: nat)
    requires Valid(ix) && id in ix.partitions
    ensures Ancestral(ix.partitions[id], ix)
  {
    hide Before, AtOrBefore, Indexed, AllNonEmpty, MetaPartition.Contains;
    var v := ix.partitions[id];
    forall c | v.Contains(c) ensures Covered(ix, v.ns, c) {
      assert Owns(ix, v.ns, c, id);
    }
    forall j, c | Owns(ix, v.ns, c, j) && v.Contains(c) ensures Within(ix, v, j) {
      assert j == id;
    }
  }

  /** Commands that keep the table a partition of the key space. */
  ghost predicate Keeps(ix: Index, cmd: Command) {
    Valid(After(ix, cmd))
  }

  lemma CreatedOwnsOnlyNew(ix: Index, cmd: CreateCmd, ns: NsMode, c: Coord, id: nat)
    requires Valid(ix) && Valid(AfterCreate(ix, cmd)) && Owns(AfterCreate(ix, cmd), ns, c, id)
    ensures Owns(ix, ns, c, id) || !Covered(ix, ns, c)
  {
    hide Before, AtOrBefore, Indexed, AllNonEmpty, MetaPartition.Contains, Known;
    var after := AfterCreate(ix, cmd);
    if j :| Owns(ix, ns, c, j) {
      assert Owns(after, ns, c, j);
    }
  }

  lemma CreateKeepsAncestral(ix: Index, cmd: CreateCmd, v: MetaPartition)
    requires Valid(ix) && Valid(AfterCreate(ix, cmd)) && Ancestral(v, ix)
    ensures Ancestral(v, AfterCreate(ix, cmd))
  {
    hide AfterCreate, Valid, Owns, MetaPartition.Contains;
    var after := AfterCreate(ix, cmd);
    forall c | v.Contains(c) ensures Covered(after, v.ns, c) {
      assert IdsOk(ix.partitions, ix.nextId) by { ValidHasIds(ix); }
      StepKeepsCoverage(ix, Create(cmd), v.ns, c);
    }
    forall id, c | Owns(after, v.ns, c, id) && v.Contains(c) ensures Within(after, v, id) {
      CreatedOwnsOnlyNew(ix, cmd, v.ns, c, id);
      forall d | Owns(after, v.ns, d, id) ensures v.Contains(d) {
        CreateKeepsOld(ix, cmd, v.ns, d, id);
        OldIsIn(ix, v.ns, c, id);
        assert Within(ix, v, id);
      }
    }
  }

  lemma ValidHasIds(ix: Index)
    requires Valid(ix)
    ensures IdsOk(ix.partitions, ix.nextId)
  {
  }

  lemma OldIsIn(ix: Index, ns: NsMode, c: Coord, id: nat)
    requires Owns(ix, ns, c, id)
    ensures id in ix.partitions
  {
  }

  lemma CreateKeepsOld(ix: Index, cmd: CreateCmd, ns: NsMode, d: Coord, id: nat)
    requires Valid(ix)
    ensures id in ix.partitions && Owns(AfterCreate(ix, cmd), ns, d, id) ==> Owns(ix, ns, d, id)
  {
    hide Disjoint, Indexed, AllNonEmpty, MetaPartition.Contains, Known;
  }

  lemma SplitKeepsAncestral(ix: Index, parent: nat, at: Bound, v: MetaPartition)
    requires Valid(ix) && Ancestral(v, ix)
    ensures Ancestral(v, AfterSplit(ix, parent, at))
  {
    hide AfterSplit, Splitting, Valid, Owns, MetaPartition.Contains;
    var after := AfterSplit(ix, parent, at);
    ValidHasIds(ix);
    forall c | v.Contains(c) ensures Covered(after, v.ns, c) {
      StepKeepsCoverage(ix, Split(parent, at), v.ns, c);
    }
    forall id, c | Owns(after, v.ns, c, id) && v.Contains(c) ensures Within(after, v, id) {
      var from := SplitSource(ix, parent, at, v.ns, c, id);
      assert Within(ix, v, from);
      forall d | Owns(after, v.ns, d, id) ensures v.Contains(d) {
        var again := SplitSource(ix, parent, at, v.ns, d, id);
      }
    }
  }

  /** Whatever a partition owns after a split, one fixed partition owned before. */
  lemma SplitSource(ix: Index, parent: nat, at: Bound, ns: NsMode, c: Coord, id: nat) returns (from: nat)
    requires IdsOk(ix.partitions, ix.nextId) && Owns(AfterSplit(ix, parent, at), ns, c, id)
    ensures from == (if Splitting(ix, parent, at).SplitDone? && id == ix.nextId then parent else id)
    ensures Owns(ix, ns, c, from)
  {
    hide Before, AtOrBefore;
    from := if Splitting(ix, parent, at).SplitDone? && id == ix.nextId then parent else id;
    if Splitting(ix, parent, at).SplitDone? {
      SplitMovesUpperHalf(ix, parent, at, ns, c, id);
    }
  }

  lemma MigrateKeepsAncestral(ix: Index, id: nat, from: nat, to: nat, v: MetaPartition)
    requires Ancestral(v, ix)
    ensures Ancestral(v, AfterMigrate(ix, id, from, to))
  {
    hide AfterMigrate, Owns, MetaPartition.Contains;
    var after := AfterMigrate(ix, id, from, to);
    MigrateKeepsOwners(ix, id, from, to);
    forall c | v.Contains(c) ensures Covered(after, v.ns, c) {
      var i :| Owns(ix, v.ns, c, i);
      assert Owns(after, v.ns, c, i);
    }
    forall i, c | Owns(after, v.ns, c, i) && v.Contains(c) ensures Within(after, v, i) {
      assert Owns(ix, v.ns, c, i) && Within(ix, v, i);
    }
  }

  /** Old views stay ancestral under every command that keeps the table valid. */
  lemma StepKeepsAncestral(ix: Index, cmd: Command, v: MetaPartition)
    requires Valid(ix) && Keeps(ix, cmd) && Ancestral(v, ix)
    ensures Ancestral(v, After(ix, cmd))
  {
    hide Valid, Ancestral, AfterSplit, AfterCreate, AfterMigrate;
    match cmd {
      case Create(c) => CreateKeepsAncestral(ix, c, v);
      case Split(parent, at) => SplitKeepsAncestral(ix, parent, at, v);
      case Migrate(id, from, to) => MigrateKeepsAncestral(ix, id, from, to, v);
    }
  }

  lemma ReachesAll(ix: Index, v: MetaPartition, c: Coord, d: Coord, id: nat)
    requires Ancestral(v, ix) && Owns(ix, v.ns, d, id) && v.Contains(d) && Owns(ix, v.ns, c, id)
    ensures v.Contains(c)
  {
    hide Owns, MetaPartition.Contains;
    assert Within(ix, v, id);
  }

  /** A miss fetches a partition that no cached ancestral view overlaps. */
  lemma FetchedIsApart(ix: Index, v: Route, p: Route, ns: NsMode, c: Coord)
    requires Ancestral(v.view, ix) && !v.Covers(ns, c)
    requires p.view.id in ix.partitions && ix.partitions[p.view.id] == p.view && p.Covers(ns, c)
    ensures Apart(v, p)
  {
    hide MetaPartition.Contains, Ancestral;
    forall n, d ensures !(v.Covers(n, d) && p.Covers(n, d)) {
      if v.Covers(n, d) && p.Covers(n, d) {
        ReachesAll(ix, v.view, c, d, p.view.id);
      }
    }
  }

  // ---------------------------------------------------------------- every run of one client task

  /** The partition table, the cache, and the route a resolution has fetched but not yet cached. */
  datatype World = World(ix: Index, routes: seq<Route>, pending: Option<Route>)

  datatype Event =
    | Table(cmd: Command)
    | Fetch(ns: NsMode, c: Coord, f: Option<StartKey>, leader: string)
    | Store
    | Evict(id: nat)
    | UpdateLeader(id: nat, leader: string)

  ghost predicate Missed(routes: seq<Route>, ns: NsMode, c: Coord) {
    forall r | r in routes :: !r.Covers(ns, c)
  }

  /** A fetch follows a miss and returns whatever the lookup answers, stray or not; the table may
      move at any time. */
  ghost predicate Enabled(w: World, e: Event) {
    match e
    case Table(cmd) => Keeps(w.ix, cmd)
    case Fetch(ns, c, f, leader) =>
      && w.pending.None? && Missed(w.routes, ns, c)
      && IsFloor(w.ix.byStart.Keys, StartKey(NsTag(ns), c), f) && RouteAt(w.ix, f, c).Some?
    case Store => w.pending.Some?
    case Evict(_) => true
    case UpdateLeader(_, _) => true
  }

  /** The cache misses the coordinate in the answer's own namespace too, but for old views of the
      very partition answered. */
  ghost predicate Safe(routes: seq<Route>, p: MetaPartition, c: Coord) {
    forall r | r in routes && r.view.id != p.id :: !r.Covers(p.ns, c)
  }

  /** Every fetch of the event is safe. */
  ghost predicate SafeEvent(w: World, e: Event)
    requires Enabled(w, e)
  {
    e.Fetch? ==> Safe(w.routes, RouteAt(w.ix, e.f, e.c).value, e.c)
  }

  function Redirected(routes: seq<Route>, id: nat, leader: string): (r: seq<Route>)
    ensures |r| == |routes|
    ensures forall i | 0 <= i < |r| ::
              r[i] == if routes[i].view.id == id then routes[i].(leader := leader) else routes[i]
  {
    seq(|routes|, i requires 0 <= i < |routes| =>
      if routes[i].view.id == id then routes[i].(leader := leader) else routes[i])
  }

  ghost function Next(w: World, e: Event): World
    requires Enabled(w, e)
  {
    match e
    case Table(cmd) => w.(ix := After(w.ix, cmd))
    case Fetch(ns, c, f, leader) => w.(pending := Some(Route(RouteAt(w.ix, f, c).value, leader)))
    case Store => w.(routes := CachedAfter(w.routes, w.pending.value), pending := None)
    case Evict(id) => w.(routes := Retain(w.routes, id))
    case UpdateLeader(id, leader) => if leader == "" then w else w.(routes := Redirected(w.routes, id, leader))
  }

  /** What each event does to the table and the cache, in the client's own terms: a command moves the
      table alone, a fetch keeps the answer and its leader aside, storing replaces the partition's
      entries, evicting drops them, and a new leader, unless empty, is written into them. */
  lemma EventsAreClientCalls(w: World, e: Event)
    requires Enabled(w, e)
    ensures var v := Next(w, e);
            && v.ix == (if e.Table? then After(w.ix, e.cmd) else w.ix)
            && (e.Store? <==> w.pending.Some? && v.pending == None)
            && (e.Fetch? ==> v.pending == Some(Route(RouteAt(w.ix, e.f, e.c).value, e.leader)))
            && (!e.Fetch? && !e.Store? ==> v.pending == w.pending)
            && (e.Table? || e.Fetch? ==> v.routes == w.routes)
            && (e.Store? ==> v.routes == Retain(w.routes, w.pending.value.view.id) + [w.pending.value])
            && (e.Evict? ==> forall r :: r in v.routes <==> r in w.routes && r.view.id != e.id)
            && (e.UpdateLeader? ==> |v.routes| == |w.routes| && forall i | 0 <= i < |w.routes| ::
                  v.routes[i] == if e.leader != "" && w.routes[i].view.id == e.id
                                 then Route(w.routes[i].view, e.leader) else w.routes[i])
  {
    hide After, RouteAt, Retain, Redirected;
  }

  ghost predicate Runs(w: World, events: seq<Event>)
    decreases |events|
  {
    events == [] || (Enabled(w, events[0]) && Runs(Next(w, events[0]), events[1..]))
  }

  ghost function Finally(w: World, events: seq<Event>): World
    requires Runs(w, events)
    decreases |events|
  {
    if events == [] then w else Finally(Next(w, events[0]), events[1..])
  }

  /** A view some client fetched earlier, seen from the present table. */
  ghost predicate Outdated(v: MetaPartition, ix: Index) {
    Ancestral(v, ix) && v.id in ix.partitions && Succeeds(v, ix.partitions[v.id])
  }

  ghost predicate Tracked(routes: seq<Route>, ix: Index) {
    forall r | r in routes :: Outdated(r.view, ix)
  }

  /** The fetched view overlaps no entry but those its storing will drop. */
  ghost predicate Clear(routes: seq<Route>, pending: Option<Route>) {
    pending.Some? ==> forall r | r in routes && r.view.id != pending.value.view.id :: Apart(r, pending.value)
  }

  /** What every event keeps. */
  ghost predicate Sound(w: World) {
    && Valid(w.ix)
    && Tracked(w.routes, w.ix)
    && (w.pending.Some? ==> Outdated(w.pending.value.view, w.ix))
  }

  /** What every event with safe fetches keeps. */
  ghost predicate Inv(w: World) {
    Sound(w) && OneRoute(w.routes) && Clear(w.routes, w.pending)
  }

  lemma StepKeepsOutdated(ix: Index, cmd: Command, v: MetaPartition)
    requires Valid(ix) && Keeps(ix, cmd) && Outdated(v, ix)
    ensures Outdated(v, After(ix, cmd))
  {
    hide Ancestral, After, Disjoint, Indexed, AllNonEmpty;
    StepKeepsAncestral(ix, cmd, v);
    StepAdvances(ix, cmd);
  }

  lemma TableKeepsInv(w: World, cmd: Command)
    requires Inv(w) && Keeps(w.ix, cmd)
    ensures Inv(Next(w, Table(cmd)))
  {
    hide Outdated, Valid, OneRoute, Apart, After;
    forall v | Outdated(v, w.ix) ensures Outdated(v, After(w.ix, cmd)) {
      StepKeepsOutdated(w.ix, cmd, v);
    }
  }

  /** The partition a lookup answers with contains the coordinate, whatever its namespace. */
  lemma AnswerContains(ix: Index, f: Option<StartKey>, c: Coord)
    requires Valid(ix) && RouteAt(ix, f, c).Some?
    ensures var p := RouteAt(ix, f, c).value;
            p.id in ix.partitions && ix.partitions[p.id] == p && p.Contains(c)
  {
    hide Disjoint, Indexed, AllNonEmpty;
  }

  /** Among old views, the answer stands alone exactly when the fetch is safe. */
  lemma AloneIffSafe(ix: Index, routes: seq<Route>, p: Route, c: Coord)
    requires Tracked(routes, ix)
    requires p.view.id in ix.partitions && ix.partitions[p.view.id] == p.view && p.view.Contains(c)
    ensures (forall r | r in routes && r.view.id != p.view.id :: Apart(r, p)) <==> Safe(routes, p.view, c)
  {
    hide MetaPartition.Contains, Ancestral;
    assert p.Covers(p.view.ns, c);
    if Safe(routes, p.view, c) {
      forall r | r in routes && r.view.id != p.view.id ensures Apart(r, p) {
        FetchedIsApart(ix, r, p, p.view.ns, c);
      }
    }
  }

  lemma FetchKeepsSound(w: World, ns: NsMode, c: Coord, f: Option<StartKey>, leader: string)
    requires Sound(w) && Enabled(w, Fetch(ns, c, f, leader))
    ensures Sound(Next(w, Fetch(ns, c, f, leader)))
  {
    hide Indexed, Disjoint, AllNonEmpty, MetaPartition.Contains, Ancestral, RouteAt;
    AnswerContains(w.ix, f, c);
    PartitionIsAncestral(w.ix, RouteAt(w.ix, f, c).value.id);
  }

  lemma FetchKeepsInv(w: World, ns: NsMode, c: Coord, f: Option<StartKey>, leader: string)
    requires Inv(w) && Enabled(w, Fetch(ns, c, f, leader)) && SafeEvent(w, Fetch(ns, c, f, leader))
    ensures Inv(Next(w, Fetch(ns, c, f, leader)))
  {
    hide OneRoute, Apart, Valid, MetaPartition.Contains, Outdated, RouteAt, Safe;
    FetchKeepsSound(w, ns, c, f, leader);
    AnswerContains(w.ix, f, c);
    AloneIffSafe(w.ix, w.routes, Route(RouteAt(w.ix, f, c).value, leader), c);
  }

  /** Fetching on a miss and storing keeps one route per coordinate exactly when the fetch is safe. */
  lemma FetchIsUnambiguousIffSafe(w: World, ns: NsMode, c: Coord, f: Option<StartKey>, leader: string)
    requires Inv(w) && Enabled(w, Fetch(ns, c, f, leader))
    ensures var fetched := Next(w, Fetch(ns, c, f, leader));
            OneRoute(Next(fetched, Store).routes) <==> Safe(w.routes, RouteAt(w.ix, f, c).value, c)
  {
    hide OneRoute, Apart, Valid, MetaPartition.Contains, Outdated, RouteAt, Safe;
    var p := Route(RouteAt(w.ix, f, c).value, leader);
    AnswerContains(w.ix, f, c);
    AloneIffSafe(w.ix, w.routes, p, c);
    CachingKeepsOneRoute(w.routes, p);
  }

  /** A lookup that does not stray is always safe. */
  lemma OwnerIsSafe(w: World, ns: NsMode, c: Coord, f: Option<StartKey>, leader: string)
    requires Sound(w) && Enabled(w, Fetch(ns, c, f, leader)) && !Strays(w.ix, ns, c)
    ensures SafeEvent(w, Fetch(ns, c, f, leader))
  {
    hide Valid, Strays, RouteAt, IsFloor, Outdated, MetaPartition.Contains;
    RouteIsOwner(w.ix, ns, c, f);
    assert RouteAt(w.ix, f, c).value.ns == ns;
  }

  lemma StoreKeepsInv(w: World)
    requires Inv(w) && w.pending.Some?
    ensures Inv(Next(w, Store))
  {
    hide Outdated, Valid, OneRoute, Apart;
    CachingKeepsOneRoute(w.routes, w.pending.value);
    assert Tracked(CachedAfter(w.routes, w.pending.value), w.ix);
  }

  lemma EvictKeepsInv(w: World, id: nat)
    requires Inv(w)
    ensures Inv(Next(w, Evict(id)))
  {
    hide Outdated, Valid, OneRoute, Apart;
    RetainKeepsOneRoute(w.routes, id);
  }

  lemma ApartIgnoresLeader(r: Route, s: Route, a: string, b: string)
    requires Apart(r, s)
    ensures Apart(r.(leader := a), s.(leader := b))
  {
    forall ns, c ensures !(r.(leader := a).Covers(ns, c) && s.(leader := b).Covers(ns, c)) {
      assert !(r.Covers(ns, c) && s.Covers(ns, c));
    }
  }

  lemma {:induction false} RedirectKeepsOneRoute(routes: seq<Route>, id: nat, leader: string)
    requires OneRoute(routes)
    ensures OneRoute(Redirected(routes, id, leader))
  {
    hide Apart;
    if routes != [] {
      var after := Redirected(routes, id, leader);
      RedirectKeepsOneRoute(routes[1..], id, leader);
      assert after[1..] == Redirected(routes[1..], id, leader);
      forall i | 1 <= i < |after| ensures Apart(after[0], after[i]) {
        assert routes[i] in routes[1..];
        ApartIgnoresLeader(routes[0], routes[i], after[0].leader, after[i].leader);
      }
    }
  }

  lemma RedirectKeepsInv(w: World, id: nat, leader: string)
    requires Inv(w)
    ensures Inv(Next(w, UpdateLeader(id, leader)))
  {
    hide Outdated, Valid, OneRoute, Apart;
    var after := Redirected(w.routes, id, leader);
    RedirectKeepsOneRoute(w.routes, id, leader);
    forall i | 0 <= i < |after| ensures Outdated(after[i].view, w.ix) {
      assert w.routes[i] in w.routes;
    }
    if w.pending.Some? {
      forall i | 0 <= i < |after| && after[i].view.id != w.pending.value.view.id
        ensures Apart(after[i], w.pending.value)
      {
        ApartIgnoresLeader(w.routes[i], w.pending.value, after[i].leader, w.pending.value.leader);
      }
    }
  }

  lemma StepKeepsInv(w: World, e: Event)
    requires Inv(w) && Enabled(w, e) && SafeEvent(w, e)
    ensures Inv(Next(w, e))
  {
    hide Inv;
    match e {
      case Table(cmd) => TableKeepsInv(w, cmd);
      case Fetch(ns, c, f, leader) => FetchKeepsInv(w, ns, c, f, leader);
      case Store => StoreKeepsInv(w);
      case Evict(id) => EvictKeepsInv(w, id);
      case UpdateLeader(id, leader) => RedirectKeepsInv(w, id, leader);
    }
  }

  ghost predicate SafeRun(w: World, events: seq<Event>)
    requires Runs(w, events)
    decreases |events|
  {
    events == [] || (SafeEvent(w, events[0]) && SafeRun(Next(w, events[0]), events[1..]))
  }

  lemma {:induction false} RunKeepsInv(w: World, events: seq<Event>)
    requires Inv(w) && Runs(w, events) && SafeRun(w, events)
    ensures Inv(Finally(w, events))
    decreases |events|
  {
    hide Inv, Next, Enabled, SafeEvent;
    if events != [] {
      StepKeepsInv(w, events[0]);
      RunKeepsInv(Next(w, events[0]), events[1..]);
    }
  }

  const FRESH := World(EMPTY, [], None)

  /** One task's cache never covers a coordinate twice, whatever splits, creations, migrations,
      evictions and redirects happen between its steps, as long as its fetches are safe; and an
      entry whose epoch is current is the partition's current record. */
  lemma CacheStaysUnambiguous(events: seq<Event>, r: Route, s: Route, ns: NsMode, c: Coord)
    requires Runs(FRESH, events) && SafeRun(FRESH, events)
    requires r in Finally(FRESH, events).routes && s in Finally(FRESH, events).routes
    requires r.Covers(ns, c) && s.Covers(ns, c)
    ensures r == s
    ensures var ix := Finally(FRESH, events).ix;
            && r.view.id in ix.partitions && r.view.epoch <= ix.partitions[r.view.id].epoch
            && (r.view.epoch == ix.partitions[r.view.id].epoch ==> Owns(ix, ns, c, r.view.id))
  {
    hide OneRoute, Valid, Ancestral, Route.Covers;
    var w := Finally(FRESH, events);
    assert Inv(FRESH) by { EmptyIsValid(); OneRouteOfNone(); }
    RunKeepsInv(FRESH, events);
    CoverIsUnique(w.routes, r, s, ns, c);
    assert Outdated(r.view, w.ix);
    CurrentCovers(w.ix, r, ns, c);
  }

  lemma CurrentCovers(ix: Index, r: Route, ns: NsMode, c: Coord)
    requires r.view.id in ix.partitions && r.Covers(ns, c)
    ensures ix.partitions[r.view.id] == r.view ==> Owns(ix, ns, c, r.view.id)
  {
  }

  lemma EmptyIsValid()
    ensures Valid(EMPTY)
  {
  }

  lemma OneRouteOfNone()
    ensures OneRoute([])
  {
  }

  /** Two tasks can fetch before either stores. A split between the fetches leaves the cache with
      the old parent and its child, both covering the child's keys. */
  lemma RacingResolutions()
    ensures var whole := MetaPartition(1, Flat, Bound(0, [], true), Bound(0, [], true), [1], 1);
            var before := Index(map[1 := whole], map[whole.Key() := 1], 2, 1);
            var after := AfterSplit(before, 1, Bound(5, [], false));
            var a, b := Route(whole, "n1"), Route(after.partitions[2], "n1");
            && Owns(before, Flat, Coord(3, []), 1) && Owns(after, Flat, Coord(7, []), 2)
            && Missed([], Flat, Coord(3, [])) && Missed([], Flat, Coord(7, []))
            && !OneRoute(CachedAfter(CachedAfter([], b), a))
  {
    var whole := MetaPartition(1, Flat, Bound(0, [], true), Bound(0, [], true), [1], 1);
    var before := Index(map[1 := whole], map[whole.Key() := 1], 2, 1);
    var after := AfterSplit(before, 1, Bound(5, [], false));
    assert after.partitions[2] == Child(whole, Bound(5, [], false), 2);
    var a, b := Route(whole, "n1"), Route(after.partitions[2], "n1");
    assert a.Covers(Flat, Coord(7, [])) && b.Covers(Flat, Coord(7, []));
    assert CachedAfter([], b) == [b];
    assert OneRoute([b]);
    CachingKeepsOneRoute([b], a);
    assert b in [b];
  }

  /** A lookup for a hierarchical bucket strays to a flat partition that was split off after its
      parent was cached: the cache then holds the stale parent and the child side by side. */
  lemma StrayCanShadow()
    ensures var whole := MetaPartition(1, Flat, Bound(0, [], true), Bound(0, [], true), [1], 1);
            var before := Index(map[1 := whole], map[whole.Key() := 1], 2, 1);
            var after := AfterSplit(before, 1, Bound(5, [], false));
            var stale, child, c := Route(whole, "n1"), after.partitions[2], Coord(HIER_BUCKET_BIT + 7, []);
            && Strays(after, Hier, c) && LastFlat(after, 2) && child.Contains(c) && Missed([stale], Hier, c)
            && !Safe([stale], child, c) && !OneRoute(CachedAfter([stale], Route(child, "n2")))
  {
    var whole := MetaPartition(1, Flat, Bound(0, [], true), Bound(0, [], true), [1], 1);
    var before := Index(map[1 := whole], map[whole.Key() := 1], 2, 1);
    var at := Bound(5, [], false);
    var after := AfterSplit(before, 1, at);
    var stale, child, c := Route(whole, "n1"), after.partitions[2], Coord(HIER_BUCKET_BIT + 7, []);
    assert after.partitions == map[1 := Narrowed(whole, at), 2 := Child(whole, at, 2)];
    assert LastFlat(after, 2) && child.Contains(c);
    assert stale in [stale] && stale.Covers(Flat, c) && Route(child, "n2").Covers(Flat, c);
    assert OneRoute([stale]);
    CachingKeepsOneRoute([stale], Route(child, "n2"));
  }

  // ---------------------------------------------------------------- the client

  const MAX_ROUTE_ATTEMPTS := 4

  /** What the cluster answers with while the table holds still: the true leader of each partition,
      the leader the placement driver has had reported, the partition a node's own registry picks
      for a coordinate, and the leader a follower believes in. */
  datatype Cluster = Cluster(
    ix: Index,
    leader: nat -> string,
    reported: nat -> string,
    hosts: string -> set<nat>,
    pick: (string, Coord) -> Option<nat>,
    hint: (string, nat) -> string)

  /** A node picks among the partitions it hosts, by coordinate alone. */
  ghost predicate NodesOk(k: Cluster) {
    forall a: string, c: Coord ::
      match k.pick(a, c)
      case Some(id) => id in k.hosts(a) && id in k.ix.partitions && k.ix.partitions[id].Contains(c)
      case None => forall id | id in k.hosts(a) && id in k.ix.partitions :: !k.ix.partitions[id].Contains(c)
  }

  datatype Answer = Served(id: nat) | NotLeader(hint: string) | Moved

  function Ask(k: Cluster, a: string, c: Coord): Answer {
    match k.pick(a, c)
    case None => Moved
    case Some(id) => if k.leader(id) == a then Served(id) else NotLeader(k.hint(a, id))
  }

  /** No partition of the other namespace contains the coordinate. */
  ghost predicate Separate(ix: Index, ns: NsMode, c: Coord) {
    forall id | id in ix.partitions && ix.partitions[id].Contains(c) :: ix.partitions[id].ns == ns
  }

  /** A follower's belief is right, empty, or a node that does not host the partition. */
  ghost predicate HintsOk(k: Cluster, c: Coord) {
    forall a: string :: Ask(k, a, c).NotLeader? ==>
      var h := Ask(k, a, c).hint;
      h == "" || !Ask(k, h, c).NotLeader?
  }

  /** The node serves the coordinate or knows who does. */
  predicate Leads(k: Cluster, c: Coord, a: string) {
    && a != ""
    && match Ask(k, a, c)
       case Served(_) => true
       case NotLeader(h) => h != "" && Ask(k, h, c).Served?
       case Moved => false
  }

  /** The leader reported for the looked-up partition serves it or knows who does. */
  predicate FetchLeads(k: Cluster, c: Coord, answer: Option<MetaPartition>) {
    answer.Some? && Leads(k, c, k.reported(answer.value.id))
  }

  /** Attempts a fetched route takes; a fetch that does not lead takes more than there are. */
  function FetchCost(k: Cluster, c: Coord, answer: Option<MetaPartition>): nat {
    if !FetchLeads(k, c, answer) then MAX_ROUTE_ATTEMPTS + 1
    else if Ask(k, k.reported(answer.value.id), c).Served? then 1
    else 2
  }

  /** Attempts a route at this address takes. */
  function AddrCost(k: Cluster, c: Coord, answer: Option<MetaPartition>, a: string): nat {
    var again := 1 + FetchCost(k, c, answer);
    if a == "" then again
    else
      match Ask(k, a, c)
      case Served(_) => 1
      case Moved => again
      case NotLeader(h) => if h == "" then again else if Ask(k, h, c).Served? then 2 else 1 + again
  }

  ghost predicate Affords(k: Cluster, ns: NsMode, c: Coord, answer: Option<MetaPartition>, routes: seq<Route>, n: int) {
    && (Missed(routes, ns, c) ==> FetchCost(k, c, answer) <= n)
    && (forall r | r in routes && r.Covers(ns, c) :: AddrCost(k, c, answer, r.leader) <= n)
  }

  /** Neither a fetch nor any covering entry leads to the partition. */
  ghost predicate Lost(k: Cluster, ns: NsMode, c: Coord, answer: Option<MetaPartition>, routes: seq<Route>) {
    && !FetchLeads(k, c, answer)
    && (forall r | r in routes && r.Covers(ns, c) :: !Leads(k, c, r.leader))
  }

  class MetaClient {
    var routes: seq<Route>

    /** Every entry is an old view of the table. */
    ghost predicate Consistent(ix: Index)
      reads this
    {
      Sound(World(ix, routes, None))
    }

    method Cached(ns: NsMode, c: Coord) returns (r: Option<Route>)
      ensures r.Some? ==> r.value in routes && r.value.Covers(ns, c)
      ensures r.None? <==> Missed(routes, ns, c)
    {
      for i := 0 to |routes|
        invariant forall j | 0 <= j < i :: !routes[j].Covers(ns, c)
      {
        if routes[i].Covers(ns, c) {
          return Some(routes[i]);
        }
      }
      r := None;
    }

    method CacheRoute(r: Route)
      modifies this
      ensures routes == CachedAfter(old(routes), r)
    {
      routes := Retain(routes, r.view.id);
      routes := routes + [r];
    }

    method EvictRoute(id: nat)
      modifies this
      ensures routes == Retain(old(routes), id)
    {
      routes := Retain(routes, id);
    }

    method RedirectTo(id: nat, leader: string)
      modifies this
      ensures routes == if leader == "" then old(routes) else Redirected(old(routes), id, leader)
    {
      if leader == "" {
        return;
      }
      ghost var before := routes;
      for i := 0 to |routes|
        invariant |routes| == |before|
        invariant forall j | 0 <= j < |routes| ::
          routes[j] == if j < i && before[j].view.id == id then before[j].(leader := leader) else before[j]
      {
        if routes[i].view.id == id {
          routes := routes[i := routes[i].(leader := leader)];
        }
      }
      assert routes == Redirected(before, id, leader);
    }

    /** The cached covering route, else whatever the placement driver's lookup answers. A cache with
        one route per coordinate stays so exactly when the answer is safe. */
    method Resolve(ns: NsMode, c: Coord, k: Cluster, ghost f: Option<StartKey>, answer: Option<MetaPartition>)
      returns (r: Option<Route>)
      requires Consistent(k.ix) && IsFloor(k.ix.byStart.Keys, StartKey(NsTag(ns), c), f)
      requires answer == RouteAt(k.ix, f, c)
      modifies this
      ensures Consistent(k.ix)
      ensures !Missed(old(routes), ns, c) ==>
                routes == old(routes) && r.Some? && r.value in routes && r.value.Covers(ns, c)
      ensures Missed(old(routes), ns, c) && answer.None? ==> r == None && routes == old(routes)
      ensures Missed(old(routes), ns, c) && answer.Some? ==>
                && r == Some(Route(answer.value, k.reported(answer.value.id)))
                && routes == CachedAfter(old(routes), r.value)
                && (OneRoute(old(routes)) ==> (OneRoute(routes) <==> Safe(old(routes), answer.value, c)))
    {
      hide Sound, RouteAt, OneRoute, IsFloor, Safe;
      r := Cached(ns, c);
      if r.Some? || answer.None? {
        return;
      }
      ghost var w := World(k.ix, routes, None);
      var route := Route(answer.value, k.reported(answer.value.id));
      CacheRoute(route);
      FetchKeepsSound(w, ns, c, f, route.leader);
      StoreKeepsSound(Next(w, Fetch(ns, c, f, route.leader)));
      if OneRoute(w.routes) {
        FetchIsUnambiguousIffSafe(w, ns, c, f, route.leader);
      }
      r := Some(route);
    }

    /** While the table holds still, the operation is served where some hosted partition contains the
        coordinate, and by its owner when the namespaces are separate there. Then, with followers
        whose beliefs are not wrong twice, four attempts reach the owner exactly when the reported
        leader, or the leader of the cached covering route, serves it or knows who does. */
    method RouteOp(ns: NsMode, c: Coord, k: Cluster, ghost f: Option<StartKey>, answer: Option<MetaPartition>)
      returns (served: Option<nat>, asked: nat)
      requires Consistent(k.ix) && NodesOk(k) && IsFloor(k.ix.byStart.Keys, StartKey(NsTag(ns), c), f)
      requires answer == RouteAt(k.ix, f, c)
      modifies this
      ensures Consistent(k.ix)
      ensures Separate(k.ix, ns, c) && OneRoute(old(routes)) ==> OneRoute(routes)
      ensures asked <= 4 && (served.Some? ==> asked > 0)
      ensures served.Some? ==> k.pick(k.leader(served.value), c) == served
      ensures served.Some? ==> served.value in k.ix.partitions && k.ix.partitions[served.value].Contains(c)
      ensures served.Some? && Separate(k.ix, ns, c) ==> Owns(k.ix, ns, c, served.value)
      ensures Separate(k.ix, ns, c) && HintsOk(k, c) && OneRoute(old(routes)) ==>
                (served.Some? <==> !Lost(k, ns, c, answer, old(routes)))
    {
      hide Sound, RouteAt, OneRoute, IsFloor, Ask, Affords, Lost, Missed, HintsOk;
      hide Retain, Redirected, MetaPartition.Contains, Separate, Owns, NodesOk, Route.Covers, CachedAfter, Safe,
        FetchCost, AddrCost, FetchLeads, Leads;
      ghost var separate := Separate(k.ix, ns, c) && OneRoute(routes);
      ghost var calm := separate && HintsOk(k, c);
      ghost var lost := Lost(k, ns, c, answer, routes);
      if calm && !lost {
        StartIsAffordable(k, ns, c, answer, routes);
      }
      asked := 0;
      for attempt := 0 to MAX_ROUTE_ATTEMPTS
        invariant Consistent(k.ix) && asked <= attempt
        invariant separate ==> OneRoute(routes)
        invariant calm && lost ==> Lost(k, ns, c, answer, routes)
        invariant calm && !lost ==> Affords(k, ns, c, answer, routes, MAX_ROUTE_ATTEMPTS - attempt)
      {
        ghost var before := routes;
        ghost var left := MAX_ROUTE_ATTEMPTS - attempt;
        var r := Resolve(ns, c, k, f, answer);
        if r.None? {
          if calm && !lost { NothingIsLost(k, ns, c, before, left); }
          return None, asked;
        }
        var route, id := r.value, r.value.view.id;
        if separate { ResolvedCovers(k, ns, c, f, before, routes, route, answer); }
        if calm { ResolvedStays(k, ns, c, answer, before, routes, route, left); }
        ghost var w := World(k.ix, routes, None);
        if route.leader == "" {
          EvictRoute(id);
          EvictKeeps(w, id);
          if calm { DroppedStays(k, ns, c, answer, w.routes, route, left); }
        } else {
          var reply := Ask(k, route.leader, c);
          asked := asked + 1;
          match reply {
            case Served(found) =>
              ServedContains(k, route.leader, c);
              if calm && lost { LostIsNotServed(k, ns, c, answer, routes, route); }
              return Some(found), asked;
            case Moved =>
              EvictRoute(id);
              EvictKeeps(w, id);
              if calm { DroppedStays(k, ns, c, answer, w.routes, route, left); }
            case NotLeader(hint) =>
              RedirectTo(id, hint);
              if hint == "" {
                EvictRoute(id);
                EvictKeeps(w, id);
                if calm { DroppedStays(k, ns, c, answer, w.routes, route, left); }
              } else {
                RedirectKeeps(w, id, hint);
                if calm { RedirectedStays(k, ns, c, answer, w.routes, route, left); }
              }
          }
        }
      }
      if calm && !lost {
        NothingIsFree(k, ns, c, answer, routes);
      }
      served := None;
    }
  }

  lemma StoreKeepsSound(w: World)
    requires Sound(w) && w.pending.Some?
    ensures Sound(Next(w, Store))
  {
    hide Outdated, Valid;
  }

  lemma EvictKeeps(w: World, id: nat)
    requires Sound(w)
    ensures Sound(w.(routes := Retain(w.routes, id)))
    ensures OneRoute(w.routes) ==> OneRoute(Retain(w.routes, id))
  {
    hide Outdated, Valid, OneRoute;
    if OneRoute(w.routes) { RetainKeepsOneRoute(w.routes, id); }
  }

  lemma RedirectKeeps(w: World, id: nat, leader: string)
    requires Sound(w)
    ensures Sound(w.(routes := Redirected(w.routes, id, leader)))
    ensures OneRoute(w.routes) ==> OneRoute(Redirected(w.routes, id, leader))
  {
    hide Outdated, Valid, OneRoute;
    var after := Redirected(w.routes, id, leader);
    forall i | 0 <= i < |after| ensures Outdated(after[i].view, w.ix) {
      assert w.routes[i] in w.routes;
    }
    if OneRoute(w.routes) { RedirectKeepsOneRoute(w.routes, id, leader); }
  }

  lemma ServedContains(k: Cluster, a: string, c: Coord)
    requires NodesOk(k) && Ask(k, a, c).Served?
    ensures k.leader(Ask(k, a, c).id) == a && k.pick(a, c) == Some(Ask(k, a, c).id)
    ensures Ask(k, a, c).id in k.ix.partitions && k.ix.partitions[Ask(k, a, c).id].Contains(c)
    ensures forall ns :: Separate(k.ix, ns, c) ==> Owns(k.ix, ns, c, Ask(k, a, c).id)
  {
    hide MetaPartition.Contains;
  }

  lemma StartIsAffordable(k: Cluster, ns: NsMode, c: Coord, answer: Option<MetaPartition>, routes: seq<Route>)
    requires OneRoute(routes) && HintsOk(k, c) && !Lost(k, ns, c, answer, routes)
    ensures Affords(k, ns, c, answer, routes, MAX_ROUTE_ATTEMPTS)
  {
    hide OneRoute, Route.Covers, Ask;
    if !FetchLeads(k, c, answer) {
      var r :| r in routes && r.Covers(ns, c) && Leads(k, c, r.leader);
      forall s | s in routes && s.Covers(ns, c) ensures s == r { CoverIsUnique(routes, r, s, ns, c); }
    }
  }

  /** Under separate namespaces the route resolved covers the coordinate and the cache stays
      unambiguous. */
  lemma ResolvedCovers(k: Cluster, ns: NsMode, c: Coord, f: Option<StartKey>, before: seq<Route>,
                       routes: seq<Route>, r: Route, answer: Option<MetaPartition>)
    requires Sound(World(k.ix, routes, None)) && Separate(k.ix, ns, c) && OneRoute(before)
    requires answer == RouteAt(k.ix, f, c)
    requires if Missed(before, ns, c)
             then answer.Some? && r == Route(answer.value, k.reported(answer.value.id))
                  && routes == CachedAfter(before, r)
                  && (OneRoute(routes) <==> Safe(before, answer.value, c))
             else routes == before && r in routes && r.Covers(ns, c)
    ensures OneRoute(routes) && r in routes && r.Covers(ns, c)
  {
    hide OneRoute, RouteAt, Valid, MetaPartition.Contains, Retain;
    if Missed(before, ns, c) {
      AnswerContains(k.ix, f, c);
      assert answer.value.ns == ns;
    }
  }

  lemma ResolvedStays(k: Cluster, ns: NsMode, c: Coord, answer: Option<MetaPartition>, before: seq<Route>,
                      routes: seq<Route>, r: Route, left: nat)
    requires OneRoute(routes) && r in routes && r.Covers(ns, c) && left <= MAX_ROUTE_ATTEMPTS
    requires if Missed(before, ns, c) then answer.Some? && r.leader == k.reported(answer.value.id)
             else routes == before
    ensures Affords(k, ns, c, answer, before, left) ==> Affords(k, ns, c, answer, routes, left)
    ensures Lost(k, ns, c, answer, before) ==> Lost(k, ns, c, answer, routes)
  {
    hide OneRoute, Route.Covers, Ask;
    forall s | s in routes && s.Covers(ns, c) ensures s == r { CoverIsUnique(routes, r, s, ns, c); }
  }

  lemma NothingIsLost(k: Cluster, ns: NsMode, c: Coord, routes: seq<Route>, left: nat)
    requires Missed(routes, ns, c) && left <= MAX_ROUTE_ATTEMPTS
    ensures !Affords(k, ns, c, None, routes, left)
  {
  }

  lemma NothingIsFree(k: Cluster, ns: NsMode, c: Coord, answer: Option<MetaPartition>, routes: seq<Route>)
    ensures !Affords(k, ns, c, answer, routes, 0)
  {
    hide Route.Covers, Ask;
    if r :| r in routes && r.Covers(ns, c) {
      assert AddrCost(k, c, answer, r.leader) >= 1;
    }
  }

  lemma LostIsNotServed(k: Cluster, ns: NsMode, c: Coord, answer: Option<MetaPartition>, routes: seq<Route>, r: Route)
    requires r in routes && r.Covers(ns, c) && r.leader != "" && Ask(k, r.leader, c).Served?
    ensures !Lost(k, ns, c, answer, routes)
  {
    hide Ask, Route.Covers;
    assert Leads(k, c, r.leader);
  }

  lemma DroppedStays(k: Cluster, ns: NsMode, c: Coord, answer: Option<MetaPartition>, routes: seq<Route>, r: Route,
                     left: nat)
    requires OneRoute(routes) && r in routes && r.Covers(ns, c)
    requires r.leader == "" || Ask(k, r.leader, c).Moved? || Ask(k, r.leader, c) == NotLeader("")
    ensures Affords(k, ns, c, answer, routes, left) ==> Affords(k, ns, c, answer, Retain(routes, r.view.id), left - 1)
    ensures Lost(k, ns, c, answer, routes) ==> Lost(k, ns, c, answer, Retain(routes, r.view.id))
  {
    hide OneRoute, Route.Covers, Ask, FetchCost, FetchLeads;
    forall s | s in routes && s.Covers(ns, c) ensures s == r { CoverIsUnique(routes, r, s, ns, c); }
  }

  lemma RedirectedStays(k: Cluster, ns: NsMode, c: Coord, answer: Option<MetaPartition>, routes: seq<Route>, r: Route,
                        left: nat)
    requires OneRoute(routes) && HintsOk(k, c) && r in routes && r.Covers(ns, c) && r.leader != ""
    requires Ask(k, r.leader, c).NotLeader? && Ask(k, r.leader, c).hint != ""
    ensures var after := Redirected(routes, r.view.id, Ask(k, r.leader, c).hint);
            && (Affords(k, ns, c, answer, routes, left) ==> Affords(k, ns, c, answer, after, left - 1))
            && (Lost(k, ns, c, answer, routes) ==> Lost(k, ns, c, answer, after))
  {
    hide OneRoute, Ask, FetchCost, FetchLeads, MetaPartition.Contains;
    var h := Ask(k, r.leader, c).hint;
    var after := Redirected(routes, r.view.id, h);
    forall s | s in routes && s.Covers(ns, c) ensures s == r { CoverIsUnique(routes, r, s, ns, c); }
    forall i | 0 <= i < |after| && after[i].Covers(ns, c) ensures after[i].leader == h {
      assert routes[i] in routes && routes[i].Covers(ns, c);
    }
    var i :| 0 <= i < |routes| && routes[i] == r;
    assert after[i] in after && after[i].Covers(ns, c);
    assert AddrCost(k, c, answer, h) == AddrCost(k, c, answer, r.leader) - 1;
    assert Leads(k, c, h) ==> Leads(k, c, r.leader);
  }
}
