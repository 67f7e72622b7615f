/** The placement driver's partition table: creation, split, migration, restart, snapshot
    and the ordered-index route lookup (crates/epoch-pd/src/meta_mgr.rs). */
module Routes {
  import opened Bytes

  datatype NsMode = Flat | Hier

  function NsTag(ns: NsMode): nat {
    if ns == Flat then 0 else 1
  }

  // ---------------------------------------------------------------- coordinates

  /** A routing coordinate, ordered by bucket and then by key. */
  datatype Coord = Coord(bucket: nat, key: Bytes)

  predicate Before(a: Coord, b: Coord) {
    a.bucket < b.bucket || (a.bucket == b.bucket && Less(a.key, b.key))
  }

  predicate AtOrBefore(a: Coord, b: Coord) {
    a == b || Before(a, b)
  }

  /** `Before` is a strict total order whose least element is `(0, "")`. */
  lemma BeforeIsOrder()
    ensures forall a: Coord :: !Before(a, a)
    ensures forall a: Coord, b: Coord, c: Coord :: Before(a, b) && Before(b, c) ==> Before(a, c)
    ensures forall a: Coord, b: Coord :: a == b || Before(a, b) || Before(b, a)
    ensures forall a: Coord :: AtOrBefore(Coord(0, []), a)
  {
    LessIsOrder();
    hide Less;
    forall a: Coord ensures AtOrBefore(Coord(0, []), a) {
      EmptyIsLeast(a.key);
    }
  }

  lemma EmptyIsLeast(k: Bytes)
    ensures k == [] || Less([], k)
  {
  }

  datatype Bound = Bound(bucket: nat, key: Bytes, unbounded: bool) {
    function At(): Coord {
      Coord(bucket, key)
    }
  }

  datatype MetaPartition = MetaPartition(id: nat, ns: NsMode, start: Bound, end: Bound, peers: seq<nat>, epoch: nat) {
    /** Start-inclusive, end-exclusive. */
    predicate Contains(c: Coord) {
      && (start.unbounded || AtOrBefore(start.At(), c))
      && (end.unbounded || Before(c, end.At()))
    }

    /** The least coordinate the start bound admits: an unbounded start sorts first. */
    function Lowest(): Coord {
      if start.unbounded then Coord(0, []) else start.At()
    }

    /** The interval holds some coordinate. */
    predicate NonEmpty() {
      end.unbounded || Before(Lowest(), end.At())
    }

    function Key(): StartKey {
      StartKey(NsTag(ns), Lowest())
    }
  }

  lemma NonEmptyHoldsLowest(p: MetaPartition)
    ensures p.NonEmpty() <==> p.Contains(p.Lowest())
    ensures p.NonEmpty() <==> exists c :: p.Contains(c)
    ensures forall c | p.Contains(c) :: AtOrBefore(p.Lowest(), c)
  {
    BeforeIsOrder();
    hide Before;
    if c :| p.Contains(c) {
      assert AtOrBefore(p.Lowest(), c);
    }
  }

  /** The interval test of `find_overlap`. */
  predicate Overlaps(p: MetaPartition, q: MetaPartition) {
    && (q.end.unbounded || p.start.unbounded || Before(p.start.At(), q.end.At()))
    && (p.end.unbounded || q.start.unbounded || Before(q.start.At(), p.end.At()))
  }

  ghost predicate Shares(p: MetaPartition, q: MetaPartition) {
    exists c :: p.Contains(c) && q.Contains(c)
  }

  /** On intervals that hold anything, the endpoint test finds exactly a shared coordinate. */
  lemma OverlapIsSharing(p: MetaPartition, q: MetaPartition)
    requires p.NonEmpty() && q.NonEmpty()
    ensures Overlaps(p, q) <==> Shares(p, q)
  {
    BeforeIsOrder();
    hide Before;
    assert AtOrBefore(Coord(0, []), p.Lowest()) && AtOrBefore(Coord(0, []), q.Lowest());
    if Overlaps(p, q) {
      var c := if AtOrBefore(p.Lowest(), q.Lowest()) then q.Lowest() else p.Lowest();
      assert p.Contains(c) && q.Contains(c);
    }
  }

  // ---------------------------------------------------------------- the table

  /** Key of the ordered route index. */
  datatype StartKey = StartKey(tag: nat, at: Coord)

  predicate KeyAtMost(a: StartKey, b: StartKey) {
    a.tag < b.tag || (a.tag == b.tag && AtOrBefore(a.at, b.at))
  }

  datatype Index = Index(partitions: map<nat, MetaPartition>, byStart: map<StartKey, nat>, nextId: nat, nextTag: nat)

  const EMPTY := Index(map[], map[], 1, 1)

  ghost predicate IdsOk(partitions: map<nat, MetaPartition>, nextId: nat) {
    forall id | id in partitions :: partitions[id].id == id && id < nextId
  }

  ghost predicate AllNonEmpty(partitions: map<nat, MetaPartition>) {
    forall id | id in partitions :: partitions[id].NonEmpty()
  }

  /** No coordinate has two owners. */
  ghost predicate Disjoint(partitions: map<nat, MetaPartition>) {
    forall i, j, c | i in partitions && j in partitions && partitions[i].ns == partitions[j].ns
                     && partitions[i].Contains(c) && partitions[j].Contains(c) :: i == j
  }

  /** The route index lists every partition under its own start, and nothing else. */
  ghost predicate Indexed(partitions: map<nat, MetaPartition>, byStart: map<StartKey, nat>) {
    && (forall id | id in partitions :: partitions[id].Key() in byStart && byStart[partitions[id].Key()] == id)
    && (forall k | k in byStart :: byStart[k] in partitions && partitions[byStart[k]].Key() == k)
  }

  ghost predicate Valid(ix: Index) {
    && IdsOk(ix.partitions, ix.nextId)
    && AllNonEmpty(ix.partitions)
    && Disjoint(ix.partitions)
    && Indexed(ix.partitions, ix.byStart)
  }

  ghost predicate Owns(ix: Index, ns: NsMode, c: Coord, id: nat) {
    id in ix.partitions && ix.partitions[id].ns == ns && ix.partitions[id].Contains(c)
  }

  /** What a lookup should answer: the partition of the namespace that contains the coordinate. */
  ghost function Owner(ix: Index, ns: NsMode, c: Coord): (r: Option<MetaPartition>)
    ensures r.Some? ==> exists id :: Owns(ix, ns, c, id) && r.value == ix.partitions[id]
    ensures r.None? ==> forall id :: !Owns(ix, ns, c, id)
  {
    if id :| Owns(ix, ns, c, id) then Some(ix.partitions[id]) else None
  }

  // ---------------------------------------------------------------- lookup

  ghost predicate IsFloor(keys: set<StartKey>, k: StartKey, f: Option<StartKey>) {
    match f
    case None => forall x | x in keys :: !KeyAtMost(x, k)
    case Some(y) => y in keys && KeyAtMost(y, k) && forall x | x in keys && KeyAtMost(x, k) :: KeyAtMost(x, y)
  }

  /** Greatest key at or below `k`: `range(..=k).next_back()`. */
  method Floor(keys: set<StartKey>, k: StartKey) returns (f: Option<StartKey>)
    ensures IsFloor(keys, k, f)
  {
    BeforeIsOrder();
    hide Before;
    f := None;
    var todo := keys;
    while todo != {}
      invariant todo <= keys && IsFloor(keys - todo, k, f)
    {
      var x :| x in todo;
      if KeyAtMost(x, k) && (f.None? || KeyAtMost(f.value, x)) {
        f := Some(x);
      }
      todo := todo - {x};
    }
    assert keys - todo == keys;
  }

  /** The answer of `route` for a given floor of the query's key. */
  function RouteAt(ix: Index, f: Option<StartKey>, c: Coord): Option<MetaPartition> {
    if f.None? || f.value !in ix.byStart || ix.byStart[f.value] !in ix.partitions then None
    else
      var p := ix.partitions[ix.byStart[f.value]];
      if p.Contains(c) then Some(p) else None
  }

  /** The lookup leaves the namespace of the query: no hierarchical partition starts at or below
      the coordinate, and the last flat partition contains it. */
  ghost predicate Strays(ix: Index, ns: NsMode, c: Coord) {
    && ns == Hier
    && (forall id | id in ix.partitions && ix.partitions[id].ns == Hier :: !AtOrBefore(ix.partitions[id].Lowest(), c))
    && exists id :: LastFlat(ix, id) && ix.partitions[id].Contains(c)
  }

  ghost predicate LastFlat(ix: Index, id: nat) {
    && id in ix.partitions && ix.partitions[id].ns == Flat
    && forall j | j in ix.partitions && ix.partitions[j].ns == Flat ::
        AtOrBefore(ix.partitions[j].Lowest(), ix.partitions[id].Lowest())
  }

  /** An owner always sits under the floor of the query's key. */
  lemma FloorFindsOwner(ix: Index, ns: NsMode, c: Coord, f: Option<StartKey>, id: nat)
    requires Valid(ix) && IsFloor(ix.byStart.Keys, StartKey(NsTag(ns), c), f) && Owns(ix, ns, c, id)
    ensures RouteAt(ix, f, c) == Some(ix.partitions[id]) && !Strays(ix, ns, c)
  {
    BeforeIsOrder();
    hide Before;
    var p := ix.partitions[id];
    NonEmptyHoldsLowest(p);
    assert KeyAtMost(p.Key(), StartKey(NsTag(ns), c));
    var q := ix.partitions[ix.byStart[f.value]];
    assert KeyAtMost(p.Key(), q.Key()) && KeyAtMost(q.Key(), StartKey(NsTag(ns), c));
    NonEmptyHoldsLowest(q);
    assert p.Contains(q.Lowest());
  }

  lemma FloorOffers(ix: Index, k: StartKey, f: Option<StartKey>, id: nat)
    requires Valid(ix) && IsFloor(ix.byStart.Keys, k, f) && id in ix.partitions && KeyAtMost(ix.partitions[id].Key(), k)
    ensures f.Some? && f.value in ix.byStart && ix.byStart[f.value] in ix.partitions
    ensures ix.partitions[ix.byStart[f.value]].Key() == f.value && KeyAtMost(f.value, k)
    ensures KeyAtMost(ix.partitions[id].Key(), f.value)
  {
    hide AtOrBefore, Disjoint, AllNonEmpty, KeyAtMost;
    assert ix.partitions[id].Key() in ix.byStart.Keys;
  }

  lemma StrayIsRouted(ix: Index, c: Coord, f: Option<StartKey>, id: nat)
    requires Valid(ix) && IsFloor(ix.byStart.Keys, StartKey(1, c), f)
    requires Strays(ix, Hier, c) && LastFlat(ix, id) && ix.partitions[id].Contains(c)
    ensures RouteAt(ix, f, c) != None
  {
    BeforeIsOrder();
    hide Before, Disjoint, AllNonEmpty, Indexed, MetaPartition.Contains;
    FloorOffers(ix, StartKey(1, c), f, id);
    var q := ix.partitions[ix.byStart[f.value]];
    assert q.ns == Flat && q.Key() == ix.partitions[id].Key();
    SameKeySameId(ix, ix.byStart[f.value], id);
  }

  lemma SameKeySameId(ix: Index, i: nat, j: nat)
    requires Valid(ix) && i in ix.partitions && j in ix.partitions && ix.partitions[i].Key() == ix.partitions[j].Key()
    ensures i == j
  {
    hide Disjoint, AllNonEmpty, MetaPartition.Key;
  }

  lemma RoutedIsStray(ix: Index, ns: NsMode, c: Coord, f: Option<StartKey>)
    requires Valid(ix) && IsFloor(ix.byStart.Keys, StartKey(NsTag(ns), c), f) && RouteAt(ix, f, c) != None
    requires !Owns(ix, ns, c, ix.byStart[f.value])
    ensures Strays(ix, ns, c)
  {
    BeforeIsOrder();
    hide Before, Disjoint, AllNonEmpty, MetaPartition.Contains;
    var id := ix.byStart[f.value];
    assert ix.partitions[id].Key() == f.value && ns == Hier && ix.partitions[id].ns == Flat;
    forall j | j in ix.partitions ensures ix.partitions[j].Key() in ix.byStart.Keys {}
    assert LastFlat(ix, id);
  }

  lemma FloorElsewhere(ix: Index, ns: NsMode, c: Coord, f: Option<StartKey>)
    requires Valid(ix) && IsFloor(ix.byStart.Keys, StartKey(NsTag(ns), c), f) && Owner(ix, ns, c) == None
    ensures RouteAt(ix, f, c) != None <==> Strays(ix, ns, c)
  {
    hide Valid, Owns, IsFloor;
    if RouteAt(ix, f, c) != None {
      RoutedIsStray(ix, ns, c, f);
    }
    if Strays(ix, ns, c) {
      var id :| LastFlat(ix, id) && ix.partitions[id].Contains(c);
      StrayIsRouted(ix, c, f, id);
    }
  }

  /** On a valid table the index lookup is the linear search, except exactly where it strays
      into the other namespace. */
  lemma RouteIsOwner(ix: Index, ns: NsMode, c: Coord, f: Option<StartKey>)
    requires Valid(ix) && IsFloor(ix.byStart.Keys, StartKey(NsTag(ns), c), f)
    ensures RouteAt(ix, f, c) == Owner(ix, ns, c) <==> !Strays(ix, ns, c)
  {
    hide Valid, Strays;
    if Owner(ix, ns, c).Some? {
      var id :| Owns(ix, ns, c, id) && Owner(ix, ns, c).value == ix.partitions[id];
      FloorFindsOwner(ix, ns, c, f, id);
    } else {
      FloorElsewhere(ix, ns, c, f);
    }
  }

  // ---------------------------------------------------------------- creation

  const MAX_U64 := 0xFFFF_FFFF_FFFF_FFFF

  /** Tags are 16 bits wide. */
  const TAGS := 0x1_0000

  datatype CreateCmd = CreateCmd(ns: NsMode, start: Bound, end: Bound, peers: seq<nat>) {
    function Fresh(id: nat): MetaPartition {
      MetaPartition(id, ns, start, end, peers, 1)
    }

    predicate SameRange(p: MetaPartition) {
      p.ns == ns && p.start == start && p.end == end
    }
  }

  ghost predicate Known(ix: Index, cmd: CreateCmd) {
    exists id :: id in ix.partitions && cmd.SameRange(ix.partitions[id])
  }

  predicate ConflictsWith(ix: Index, cmd: CreateCmd, id: nat) {
    id in ix.partitions && ix.partitions[id].ns == cmd.ns && Overlaps(cmd.Fresh(0), ix.partitions[id])
  }

  /** The service's `find_overlap` pre-check. */
  method FindOverlap(ix: Index, cmd: CreateCmd) returns (r: Option<nat>)
    ensures r.Some? ==> ConflictsWith(ix, cmd, r.value)
    ensures r.None? ==> forall id :: !ConflictsWith(ix, cmd, id)
  {
    hide Before;
    var todo := ix.partitions.Keys;
    while todo != {}
      invariant forall id :: ConflictsWith(ix, cmd, id) ==> id in todo
    {
      var id :| id in todo;
      if ConflictsWith(ix, cmd, id) {
        return Some(id);
      }
      todo := todo - {id};
    }
    r := None;
  }

  function Inserted(ix: Index, p: MetaPartition): Index {
    ix.(partitions := ix.partitions[p.id := p], byStart := ix.byStart[p.Key() := p.id])
  }

  ghost function AfterCreate(ix: Index, cmd: CreateCmd): Index {
    if Known(ix, cmd) || ix.nextId == MAX_U64 then ix
    else Inserted(ix, cmd.Fresh(ix.nextId)).(nextId := ix.nextId + 1)
  }

  lemma InsertedIsDisjoint(ix: Index, p: MetaPartition)
    requires Valid(ix) && p.id !in ix.partitions && p.NonEmpty()
    ensures Disjoint(Inserted(ix, p).partitions)
            <==> forall id | id in ix.partitions && ix.partitions[id].ns == p.ns :: !Overlaps(p, ix.partitions[id])
  {
    hide Before, AtOrBefore, Indexed, Overlaps, MetaPartition.Contains, MetaPartition.NonEmpty;
    var after := Inserted(ix, p).partitions;
    forall id | id in ix.partitions ensures Overlaps(p, ix.partitions[id]) <==> Shares(p, ix.partitions[id]) {
      OverlapIsSharing(p, ix.partitions[id]);
    }
    if Disjoint(after) {
      forall id | id in ix.partitions && ix.partitions[id].ns == p.ns ensures !Shares(p, ix.partitions[id]) {
        assert after[id] == ix.partitions[id] && after[p.id] == p;
      }
    }
  }

  lemma InsertedIsIndexed(ix: Index, p: MetaPartition)
    requires Valid(ix) && p.id !in ix.partitions && p.NonEmpty() && Disjoint(Inserted(ix, p).partitions)
    ensures Indexed(Inserted(ix, p).partitions, Inserted(ix, p).byStart)
  {
    hide Before, AtOrBefore, MetaPartition.Contains, MetaPartition.NonEmpty;
    var after := Inserted(ix, p).partitions;
    forall id | id in ix.partitions ensures ix.partitions[id].Key() != p.Key() {
      NonEmptyHoldsLowest(p);
      NonEmptyHoldsLowest(ix.partitions[id]);
      assert after[id] == ix.partitions[id] && after[p.id] == p;
    }
  }

  /** Creation keeps the table a partition of the key space exactly when the interval holds
      something and the overlap test is still clear when the command is applied. */
  lemma CreateKeepsValid(ix: Index, cmd: CreateCmd)
    requires Valid(ix) && !Known(ix, cmd) && ix.nextId != MAX_U64
    ensures Valid(AfterCreate(ix, cmd))
            <==> cmd.Fresh(0).NonEmpty() && forall id :: !ConflictsWith(ix, cmd, id)
  {
    hide Before, AtOrBefore, MetaPartition.Contains, Overlaps, Indexed, Disjoint, Known;
    var p := cmd.Fresh(ix.nextId);
    assert p.NonEmpty() <==> cmd.Fresh(0).NonEmpty();
    forall id | id in ix.partitions && ix.partitions[id].ns == p.ns
      ensures ConflictsWith(ix, cmd, id) <==> Overlaps(p, ix.partitions[id])
    {
      OverlapIgnoresId(cmd, ix.nextId, ix.partitions[id]);
    }
    if p.NonEmpty() {
      InsertedIsDisjoint(ix, p);
      if Disjoint(Inserted(ix, p).partitions) {
        InsertedIsIndexed(ix, p);
      }
    } else {
      assert Inserted(ix, p).partitions[p.id] == p;
    }
  }

  /** A retried creation is answered with the partition that exists: it happens once. */
  lemma CreateOnce(ix: Index, cmd: CreateCmd)
    ensures AfterCreate(AfterCreate(ix, cmd), cmd) == AfterCreate(ix, cmd)
  {
    var after := AfterCreate(ix, cmd);
    if !Known(ix, cmd) && ix.nextId != MAX_U64 {
      assert cmd.SameRange(after.partitions[ix.nextId]);
    }
  }

  /** A creation hands its own interval to the next id, under the voters asked for and at epoch 1,
      and moves no coordinate of any other partition. */
  lemma CreateHandsOutRange(ix: Index, cmd: CreateCmd, ns: NsMode, c: Coord, id: nat)
    requires IdsOk(ix.partitions, ix.nextId) && !Known(ix, cmd) && ix.nextId < MAX_U64
    ensures Owns(AfterCreate(ix, cmd), ns, c, id) <==>
            if id != ix.nextId then Owns(ix, ns, c, id)
            else
              && ns == cmd.ns
              && (cmd.start.unbounded || !Before(c, cmd.start.At())) && (cmd.end.unbounded || Before(c, cmd.end.At()))
    ensures var p := AfterCreate(ix, cmd).partitions[ix.nextId]; p.peers == cmd.peers && p.epoch == 1
  {
    BeforeIsOrder();
    hide Before;
  }

  lemma OverlapIgnoresId(cmd: CreateCmd, id: nat, q: MetaPartition)
    ensures Overlaps(cmd.Fresh(id), q) <==> Overlaps(cmd.Fresh(0), q)
  {
  }

  /** The pre-check runs before the command is ordered: two creations that each pass it can
      still leave one coordinate with two owners. */
  lemma RacingCreates()
    ensures var a := CreateCmd(Flat, Bound(0, [], true), Bound(0, [], true), [1]);
            var b := CreateCmd(Flat, Bound(5, [], false), Bound(0, [], true), [1]);
            && (forall id :: !ConflictsWith(EMPTY, a, id) && !ConflictsWith(EMPTY, b, id))
            && a.Fresh(0).NonEmpty() && b.Fresh(0).NonEmpty()
            && !Valid(AfterCreate(AfterCreate(EMPTY, a), b))
  {
    var a := CreateCmd(Flat, Bound(0, [], true), Bound(0, [], true), [1]);
    var b := CreateCmd(Flat, Bound(5, [], false), Bound(0, [], true), [1]);
    var ix := AfterCreate(EMPTY, a);
    assert ix.partitions == map[1 := a.Fresh(1)] && ix.nextId == 2;
    assert ConflictsWith(ix, b, 1) && !Known(ix, b);
    var after := AfterCreate(ix, b).partitions;
    assert after[1].Contains(Coord(5, [])) && after[2].Contains(Coord(5, []));
  }

  /** A lookup in a hierarchical bucket, before any hierarchical partition exists there, is
      answered with an admitted flat partition. */
  lemma LookupCanStray()
    ensures var flat := CreateCmd(Flat, Bound(0, [], true), Bound(0, [], true), [1]);
            && BoundsAllowed(flat.ns, flat.start, flat.end)
            && Strays(AfterCreate(EMPTY, flat), Hier, Coord(HIER_BUCKET_BIT + 7, []))
  {
    var flat := CreateCmd(Flat, Bound(0, [], true), Bound(0, [], true), [1]);
    var ix := AfterCreate(EMPTY, flat);
    assert ix.partitions == map[1 := flat.Fresh(1)];
    assert LastFlat(ix, 1) && ix.partitions[1].Contains(Coord(HIER_BUCKET_BIT + 7, []));
  }

  // ---------------------------------------------------------------- split

  datatype SplitOutcome = NotInside | SplitDone(child: nat, tag: nat) | Exhausted

  /** The boundary is after the start and before the end. */
  predicate Inside(p: MetaPartition, at: Bound) {
    && !at.unbounded
    && (p.start.unbounded || Before(p.start.At(), at.At()))
    && (p.end.unbounded || Before(at.At(), p.end.At()))
  }

  function Splitting(ix: Index, parent: nat, at: Bound): SplitOutcome {
    if parent !in ix.partitions || !Inside(ix.partitions[parent], at) then NotInside
    else if ix.nextId == MAX_U64 || ix.nextTag + 1 >= TAGS then Exhausted
    else SplitDone(ix.nextId, ix.nextTag)
  }

  function Narrowed(p: MetaPartition, at: Bound): MetaPartition {
    p.(end := at, epoch := p.epoch + 1)
  }

  function Child(p: MetaPartition, at: Bound, id: nat): MetaPartition {
    MetaPartition(id, p.ns, at, p.end, p.peers, 1)
  }

  /** Running out of tags is noticed after the id counter has moved. */
  function AfterSplit(ix: Index, parent: nat, at: Bound): Index {
    match Splitting(ix, parent, at)
    case NotInside => ix
    case Exhausted => if ix.nextId == MAX_U64 then ix else ix.(nextId := ix.nextId + 1)
    case SplitDone(child, tag) =>
      var p := ix.partitions[parent];
      Inserted(ix.(partitions := ix.partitions[parent := Narrowed(p, at)]), Child(p, at, child))
        .(nextId := ix.nextId + 1, nextTag := tag + 1)
  }

  /** When a split happens: the boundary is a coordinate of the parent other than its first bound, and
      neither counter is spent. Running out of tags costs an id. */
  lemma SplitHappensIff(ix: Index, parent: nat, at: Bound)
    ensures var fits := && parent in ix.partitions && !at.unbounded && ix.partitions[parent].Contains(at.At())
                        && (ix.partitions[parent].start.unbounded || ix.partitions[parent].start.At() != at.At());
            var spent := ix.nextId == MAX_U64 || ix.nextTag >= 0xFFFF;
            && (Splitting(ix, parent, at) == SplitDone(ix.nextId, ix.nextTag) <==> fits && !spent)
            && (Splitting(ix, parent, at) == Exhausted <==> fits && spent)
            && (Splitting(ix, parent, at) == NotInside <==> !fits)
            && (fits && spent ==>
                  AfterSplit(ix, parent, at) == ix.(nextId := ix.nextId + if ix.nextId == MAX_U64 then 0 else 1))
            && (!fits ==> AfterSplit(ix, parent, at) == ix)
  {
    BeforeIsOrder();
    hide Before;
  }

  /** The child starts at the boundary with the parent's voters and epoch 1; the parent keeps its own
      and is one epoch on; both counters move. */
  lemma SplitInherits(ix: Index, parent: nat, at: Bound)
    requires IdsOk(ix.partitions, ix.nextId) && Splitting(ix, parent, at).SplitDone?
    ensures var p, t := ix.partitions[parent], AfterSplit(ix, parent, at);
            && t.partitions.Keys == ix.partitions.Keys + {ix.nextId}
            && t.partitions[ix.nextId].peers == t.partitions[parent].peers == p.peers
            && t.partitions[ix.nextId].start == at && t.partitions[ix.nextId].epoch == 1
            && t.partitions[parent].epoch == p.epoch + 1
            && t.nextId == ix.nextId + 1 && t.nextTag == ix.nextTag + 1
  {
    hide Before, MetaPartition.Key;
  }

  /** A split hands exactly the coordinates from the boundary up to the child, and moves no
      coordinate of any other partition. */
  lemma SplitMovesUpperHalf(ix: Index, parent: nat, at: Bound, ns: NsMode, c: Coord, id: nat)
    requires IdsOk(ix.partitions, ix.nextId) && Splitting(ix, parent, at).SplitDone?
    ensures Owns(AfterSplit(ix, parent, at), ns, c, id) <==>
            if id == parent then Owns(ix, ns, c, parent) && Before(c, at.At())
            else if id == ix.nextId then Owns(ix, ns, c, parent) && !Before(c, at.At())
            else Owns(ix, ns, c, id)
  {
    BeforeIsOrder();
    hide Before;
    var p := ix.partitions[parent];
    assert Owns(ix, ns, c, parent) ==> p.Contains(c);
  }

  lemma SplitIsDisjoint(ix: Index, parent: nat, at: Bound)
    requires IdsOk(ix.partitions, ix.nextId) && Disjoint(ix.partitions) && Splitting(ix, parent, at).SplitDone?
    ensures Disjoint(AfterSplit(ix, parent, at).partitions)
  {
    var after := AfterSplit(ix, parent, at);
    forall i, j, c | i in after.partitions && j in after.partitions && after.partitions[i].ns == after.partitions[j].ns
                     && after.partitions[i].Contains(c) && after.partitions[j].Contains(c)
      ensures i == j
    {
      SplitOwners(ix, parent, at, after.partitions[i].ns, c, i, j);
    }
  }

  lemma SplitOwners(ix: Index, parent: nat, at: Bound, ns: NsMode, c: Coord, i: nat, j: nat)
    requires IdsOk(ix.partitions, ix.nextId) && Disjoint(ix.partitions) && Splitting(ix, parent, at).SplitDone?
    requires Owns(AfterSplit(ix, parent, at), ns, c, i) && Owns(AfterSplit(ix, parent, at), ns, c, j)
    ensures i == j
  {
    hide Splitting, AfterSplit, Before, MetaPartition.Contains;
    SplitMovesUpperHalf(ix, parent, at, ns, c, i);
    SplitMovesUpperHalf(ix, parent, at, ns, c, j);
    assert parent in ix.partitions && parent != ix.nextId by { ParentExists(ix, parent, at); }
  }

  lemma ParentExists(ix: Index, parent: nat, at: Bound)
    requires IdsOk(ix.partitions, ix.nextId) && Splitting(ix, parent, at).SplitDone?
    ensures parent in ix.partitions && parent != ix.nextId
  {
  }

  /** A split keeps the table valid exactly when the boundary leaves the parent something: the
      boundary test admits `(0, "")` inside a partition with an unbounded start. */
  lemma SplitKeepsValid(ix: Index, parent: nat, at: Bound)
    requires Valid(ix) && Splitting(ix, parent, at).SplitDone?
    ensures Valid(AfterSplit(ix, parent, at)) <==> Before(ix.partitions[parent].Lowest(), at.At())
  {
    hide Before, AtOrBefore, Disjoint, MetaPartition.Contains, Indexed;
    var p, after := ix.partitions[parent], AfterSplit(ix, parent, at);
    SplitIsDisjoint(ix, parent, at);
    assert after.partitions[parent] == Narrowed(p, at);
    if Before(p.Lowest(), at.At()) {
      SplitIsIndexed(ix, parent, at);
      assert AllNonEmpty(after.partitions);
    } else {
      assert !after.partitions[parent].NonEmpty();
    }
  }

  /** Split at `(0, "")`, a partition with an unbounded start is left with nothing. */
  lemma SplitCanEmptyParent()
    ensures var whole := MetaPartition(1, Flat, Bound(0, [], true), Bound(0, [], true), [1], 1);
            var ix := Index(map[1 := whole], map[whole.Key() := 1], 2, 1);
            && Valid(ix) && Splitting(ix, 1, Bound(0, [], false)).SplitDone?
            && !AfterSplit(ix, 1, Bound(0, [], false)).partitions[1].NonEmpty()
  {
    BeforeIsOrder();
  }

  lemma SplitIsIndexed(ix: Index, parent: nat, at: Bound)
    requires Valid(ix) && Splitting(ix, parent, at).SplitDone? && Before(ix.partitions[parent].Lowest(), at.At())
    ensures Indexed(AfterSplit(ix, parent, at).partitions, AfterSplit(ix, parent, at).byStart)
  {
    BeforeIsOrder();
    hide Before;
    var p, after := ix.partitions[parent], AfterSplit(ix, parent, at);
    var child := Child(p, at, ix.nextId);
    assert Narrowed(p, at).Key() == p.Key();
    assert p.Contains(at.At());
    forall id | id in ix.partitions ensures ix.partitions[id].Key() != child.Key() {
      NonEmptyHoldsLowest(ix.partitions[id]);
    }
  }

  // ---------------------------------------------------------------- migration

  function Without(peers: seq<nat>, from: nat): (r: seq<nat>)
    ensures forall x :: x in r <==> x in peers && x != from
  {
    if peers == [] then []
    else (if peers[0] == from then [] else [peers[0]]) + Without(peers[1..], from)
  }

  /** The voter set after swapping `from` for `to`, unless there is nothing to do. */
  function Migrating(ix: Index, id: nat, from: nat, to: nat): Option<seq<nat>> {
    if id !in ix.partitions then None
    else
      var peers := ix.partitions[id].peers;
      var next := Without(peers, from) + if to in peers then [] else [to];
      if (to in peers && from !in peers) || next == [] then None else Some(next)
  }

  function AfterMigrate(ix: Index, id: nat, from: nat, to: nat): Index {
    match Migrating(ix, id, from, to)
    case None => ix
    case Some(peers) =>
      ix.(partitions := ix.partitions[id := ix.partitions[id].(peers := peers, epoch := ix.partitions[id].epoch + 1)])
  }

  /** The new voters are the old ones with `from` replaced by `to`, except when a present voter
      is swapped for itself: it is dropped. */
  lemma MigrateSwaps(ix: Index, id: nat, from: nat, to: nat)
    requires Migrating(ix, id, from, to).Some?
    ensures (forall x :: x in Migrating(ix, id, from, to).value <==>
              x == to || (x in ix.partitions[id].peers && x != from))
            <==> from != to || from !in ix.partitions[id].peers
  {
    var peers, next := ix.partitions[id].peers, Migrating(ix, id, from, to).value;
    forall x ensures x in next <==> (x in peers && x != from) || (x == to && to !in peers) {}
  }

  /** When a migration is refused: the partition is unknown, the swap is already done, or it would
      leave no voter. Otherwise the others keep their place and `to` joins at the end if it is new. */
  lemma MigrateHappensIff(ix: Index, id: nat, from: nat, to: nat)
    ensures Migrating(ix, id, from, to) == None <==>
              || id !in ix.partitions
              || (to in ix.partitions[id].peers
                  && (from !in ix.partitions[id].peers || forall x | x in ix.partitions[id].peers :: x == from))
    ensures Migrating(ix, id, from, to).Some? ==>
              var peers, next := ix.partitions[id].peers, Migrating(ix, id, from, to).value;
              forall x :: multiset(next)[x] ==
                (if x == from then 0 else multiset(peers)[x]) + if x == to && to !in peers then 1 else 0
  {
    if id in ix.partitions {
      forall x { WithoutDropsAll(ix.partitions[id].peers, from, x); }
      var others := Without(ix.partitions[id].peers, from);
      assert others != [] ==> others[0] in others;
    }
  }

  lemma {:induction false} WithoutDropsAll(peers: seq<nat>, from: nat, x: nat)
    ensures multiset(Without(peers, from))[x] == if x == from then 0 else multiset(peers)[x]
    ensures Without(peers, from) == [] ==> x in peers ==> x == from
  {
    if peers != [] {
      WithoutDropsAll(peers[1..], from, x);
      assert peers == [peers[0]] + peers[1..];
    }
  }

  lemma MigrateCanDropVoter()
    ensures var p := MetaPartition(1, Flat, Bound(0, [], true), Bound(0, [], true), [4, 5], 1);
            Migrating(Index(map[1 := p], map[p.Key() := 1], 2, 1), 1, 4, 4) == Some([5])
  {
    assert [4, 5][1..] == [5] && [5][1..] == [];
    assert Without([5], 4) == [5] && Without([4, 5], 4) == [5];
  }

  /** A replayed migration is refused, so its epoch bump happens once. */
  lemma MigrateOnce(ix: Index, id: nat, from: nat, to: nat)
    requires from != to
    ensures AfterMigrate(AfterMigrate(ix, id, from, to), id, from, to) == AfterMigrate(ix, id, from, to)
  {
  }

  lemma MigrateKeepsOwners(ix: Index, id: nat, from: nat, to: nat)
    ensures forall ns, c, i :: Owns(AfterMigrate(ix, id, from, to), ns, c, i) <==> Owns(ix, ns, c, i)
    ensures Valid(ix) ==> Valid(AfterMigrate(ix, id, from, to))
  {
    hide Without, MetaPartition.Contains;
    var after := AfterMigrate(ix, id, from, to);
    assert after.partitions.Keys == ix.partitions.Keys;
    forall i | i in ix.partitions ensures SameInterval(after.partitions[i], ix.partitions[i]) {}
    SameIntervalsKeepOwners(ix, after);
  }

  predicate SameInterval(p: MetaPartition, q: MetaPartition) {
    p.id == q.id && p.ns == q.ns && p.start == q.start && p.end == q.end
  }

  lemma SameIntervalsKeepOwners(ix: Index, after: Index)
    requires after.partitions.Keys == ix.partitions.Keys && after.byStart == ix.byStart && after.nextId == ix.nextId
    requires forall i | i in ix.partitions :: SameInterval(after.partitions[i], ix.partitions[i])
    ensures forall ns, c, i :: Owns(after, ns, c, i) <==> Owns(ix, ns, c, i)
    ensures Valid(ix) ==> Valid(after)
  {
    hide Before, AtOrBefore;
    forall i, c | i in ix.partitions ensures after.partitions[i].Contains(c) == ix.partitions[i].Contains(c) {}
    forall i | i in ix.partitions
      ensures after.partitions[i].Key() == ix.partitions[i].Key()
      ensures after.partitions[i].NonEmpty() == ix.partitions[i].NonEmpty()
    {}
  }

  // ---------------------------------------------------------------- rebuilding the index

  lemma IndexIsUnique(partitions: map<nat, MetaPartition>, a: map<StartKey, nat>, b: map<StartKey, nat>)
    requires Indexed(partitions, a) && Indexed(partitions, b)
    ensures a == b
  {
    hide MetaPartition.Key;
    forall k | k in a ensures k in b && a[k] == b[k] {
      assert partitions[a[k]].Key() == k;
    }
    forall k | k in b ensures k in a {
      assert partitions[b[k]].Key() == k;
    }
  }

  ghost predicate Lists(done: set<MetaPartition>, k: StartKey, id: nat) {
    exists p :: p in done && p.Key() == k && p.id == id
  }

  /** Collects records into the id map and the start index, in any order. */
  method Rebuild(parts: set<MetaPartition>) returns (partitions: map<nat, MetaPartition>, byStart: map<StartKey, nat>)
    ensures forall ix | Valid(ix) && ix.partitions.Values == parts ::
              partitions == ix.partitions && byStart == ix.byStart
    ensures forall id | id in partitions :: partitions[id] in parts && partitions[id].id == id
    ensures forall p | p in parts :: p.id in partitions
  {
    hide MetaPartition.Key, Valid;
    partitions, byStart := map[], map[];
    var todo := parts;
    while todo != {}
      invariant todo <= parts
      invariant forall id | id in partitions :: partitions[id] in parts - todo && partitions[id].id == id
      invariant forall p | p in parts - todo :: p.id in partitions && p.Key() in byStart
      invariant forall k | k in byStart :: Lists(parts, k, byStart[k])
    {
      var p :| p in todo;
      assert Lists(parts, p.Key(), p.id);
      partitions := partitions[p.id := p];
      byStart := byStart[p.Key() := p.id];
      todo := todo - {p};
    }
    forall ix | Valid(ix) && ix.partitions.Values == parts
      ensures partitions == ix.partitions && byStart == ix.byStart
    {
      RebuiltIsIndex(ix, partitions, byStart);
    }
  }

  lemma RebuiltIsIndex(ix: Index, partitions: map<nat, MetaPartition>, byStart: map<StartKey, nat>)
    requires Valid(ix)
    requires forall id | id in partitions :: partitions[id] in ix.partitions.Values && partitions[id].id == id
    requires forall p | p in ix.partitions.Values :: p.id in partitions && p.Key() in byStart
    requires forall k | k in byStart :: Lists(ix.partitions.Values, k, byStart[k])
    ensures partitions == ix.partitions && byStart == ix.byStart
  {
    hide MetaPartition.Key, Disjoint, AllNonEmpty;
    forall p | p in ix.partitions.Values ensures p.id in ix.partitions && ix.partitions[p.id] == p {}
    forall id | id in ix.partitions ensures id in partitions {
      assert ix.partitions[id] in ix.partitions.Values;
    }
    assert partitions == ix.partitions;
    assert Indexed(partitions, byStart) by {
      forall id | id in partitions ensures partitions[id].Key() in byStart && byStart[partitions[id].Key()] == id {
        var k := partitions[id].Key();
        var p :| p in ix.partitions.Values && p.Key() == k && p.id == byStart[k];
        assert ix.byStart[k] == p.id;
      }
    }
    IndexIsUnique(partitions, byStart, ix.byStart);
  }

  // ---------------------------------------------------------------- the manager

  /** The durable column family: one record per partition and the two counters. */
  datatype ColumnFamily = ColumnFamily(records: map<nat, MetaPartition>, counter: Option<nat>, tagCounter: Option<nat>)

  function OrOne(n: Option<nat>): nat {
    if n.Some? then n.value else 1
  }

  class MetaPartitionManager {
    var partitions: map<nat, MetaPartition>
    var byStart: map<StartKey, nat>
    var nextId: nat
    var nextTag: nat
    var cf: ColumnFamily

    function View(): Index
      reads this
    {
      Index(partitions, byStart, nextId, nextTag)
    }

    /** The disk holds this table; only the id counter may be ahead of its record. */
    ghost predicate Durable(ix: Index)
      reads this
    {
      && IdsOk(ix.partitions, OrOne(cf.counter)) && OrOne(cf.counter) <= ix.nextId
      && cf.records == ix.partitions && OrOne(cf.tagCounter) == ix.nextTag
    }

    /** Memory and disk agree. */
    ghost predicate Sound()
      reads this
    {
      Durable(View())
    }

    constructor ()
      ensures Sound() && View() == EMPTY && cf == ColumnFamily(map[], None, None)
    {
      partitions, byStart, nextId, nextTag := map[], map[], 1, 1;
      cf := ColumnFamily(map[], None, None);
    }

    method FindSameRange(cmd: CreateCmd) returns (r: Option<nat>)
      ensures r.Some? ==> r.value in partitions && cmd.SameRange(partitions[r.value])
      ensures r.None? <==> !Known(View(), cmd)
    {
      var todo := partitions.Keys;
      while todo != {}
        invariant forall id | id in partitions && id !in todo :: !cmd.SameRange(partitions[id])
      {
        var id :| id in todo;
        if id in partitions && cmd.SameRange(partitions[id]) {
          return Some(id);
        }
        todo := todo - {id};
      }
      r := None;
    }

    /** An exact-range retry returns the partition that exists; otherwise the next id is taken. */
    method ApplyCreate(cmd: CreateCmd) returns (r: Option<nat>)
      requires Sound()
      modifies this
      ensures Sound() && View() == AfterCreate(old(View()), cmd)
      ensures r.None? <==> !Known(old(View()), cmd) && old(nextId) == MAX_U64
      ensures r.Some? ==> r.value in partitions && cmd.SameRange(partitions[r.value])
    {
      hide MetaPartition.Key;
      var existing := FindSameRange(cmd);
      if existing.Some? {
        return existing;
      }
      if nextId == MAX_U64 {
        return None;
      }
      var p := cmd.Fresh(nextId);
      nextId := nextId + 1;
      byStart := byStart[p.Key() := p.id];
      partitions := partitions[p.id := p];
      cf := cf.(records := cf.records[p.id := p], counter := Some(nextId));
      r := Some(p.id);
    }

    method ApplySplit(parent: nat, at: Bound) returns (r: SplitOutcome)
      requires Sound()
      modifies this
      ensures Sound() && View() == AfterSplit(old(View()), parent, at)
      ensures r == Splitting(old(View()), parent, at)
      ensures !r.SplitDone? ==> cf == old(cf)
    {
      hide MetaPartition.Key, Before;
      if parent !in partitions || !Inside(partitions[parent], at) {
        return NotInside;
      }
      var p := partitions[parent];
      var child := Child(p, at, nextId);
      var tag := nextTag;
      if nextId == MAX_U64 {
        return Exhausted;
      }
      nextId := nextId + 1;
      if nextTag + 1 >= TAGS {
        return Exhausted;
      }
      nextTag := nextTag + 1;
      byStart := byStart[child.Key() := child.id];
      partitions := partitions[parent := Narrowed(p, at)];
      partitions := partitions[child.id := child];
      cf := ColumnFamily(cf.records[parent := Narrowed(p, at)][child.id := child], Some(nextId), Some(nextTag));
      r := SplitDone(child.id, tag);
    }

    method ApplyMigrate(id: nat, from: nat, to: nat) returns (r: Option<seq<nat>>)
      requires Sound()
      modifies this`partitions, this`cf
      ensures Sound() && View() == AfterMigrate(old(View()), id, from, to)
      ensures r == Migrating(old(View()), id, from, to)
    {
      if id !in partitions {
        return None;
      }
      var p := partitions[id];
      var hasTo, hasFrom := to in p.peers, from in p.peers;
      if hasTo && !hasFrom {
        return None;
      }
      var peers := Without(p.peers, from);
      if !hasTo {
        peers := peers + [to];
      }
      if peers == [] {
        assert peers == Without(p.peers, from) + [];
        return None;
      }
      p := p.(peers := peers, epoch := p.epoch + 1);
      partitions := partitions[id := p];
      cf := cf.(records := cf.records[id := p]);
      r := Some(peers);
      assert hasTo ==> peers == Without(old(partitions)[id].peers, from) + [];
    }

    /** Answers with the owner of the coordinate unless the lookup strays. */
    method Route(ns: NsMode, c: Coord) returns (r: Option<MetaPartition>)
      ensures Valid(View()) ==> (r == Owner(View(), ns, c) <==> !Strays(View(), ns, c))
      ensures r.Some? ==> r.value in partitions.Values && r.value.Contains(c)
    {
      hide Valid, Strays, IsFloor;
      var f := Floor(byStart.Keys, StartKey(NsTag(ns), c));
      if Valid(View()) {
        RouteIsOwner(View(), ns, c, f);
      }
      r := RouteAt(View(), f, c);
    }

    /** A restart rebuilds the table the disk holds, with its index, from the records alone: whatever is
        in memory does not matter. */
    method Restore(ghost before: Index)
      requires Durable(before)
      modifies this`partitions, this`byStart, this`nextId, this`nextTag
      ensures Valid(before) ==> Sound() && View() == before.(nextId := nextId)
      ensures nextId == OrOne(cf.counter) && nextTag == OrOne(cf.tagCounter)
    {
      hide Valid;
      partitions, byStart := Rebuild(cf.records.Values);
      nextId, nextTag := OrOne(cf.counter), OrOne(cf.tagCounter);
    }

    method SnapshotView() returns (parts: set<MetaPartition>, id: nat, tag: nat)
      ensures parts == partitions.Values && id == nextId && tag == nextTag
    {
      return partitions.Values, nextId, nextTag;
    }

    /** Installing a valid table's snapshot yields that table, index included. */
    method InstallSnapshot(parts: set<MetaPartition>, id: nat, tag: nat)
      modifies this
      ensures (forall p | p in parts :: p.id < id) ==> Sound()
      ensures forall ix | Valid(ix) && ix.partitions.Values == parts && ix.nextId == id && ix.nextTag == tag ::
                View() == ix
    {
      hide Valid;
      partitions, byStart := Rebuild(parts);
      nextId, nextTag := id, tag;
      cf := ColumnFamily(partitions, Some(id), Some(tag));
    }
  }

  // ---------------------------------------------------------------- whole runs

  datatype Command = Create(cmd: CreateCmd) | Split(parent: nat, at: Bound) | Migrate(id: nat, from: nat, to: nat)

  ghost function After(ix: Index, cmd: Command): Index {
    match cmd
    case Create(c) => AfterCreate(ix, c)
    case Split(parent, at) => AfterSplit(ix, parent, at)
    case Migrate(id, from, to) => AfterMigrate(ix, id, from, to)
  }

  ghost function Run(ix: Index, cmds: seq<Command>): Index
    decreases |cmds|
  {
    if cmds == [] then ix else Run(After(ix, cmds[0]), cmds[1..])
  }

  /** Partitions never disappear, change namespace or start, or run their epoch backwards, and
      a route record is settled by its epoch. */
  ghost predicate Advances(before: Index, after: Index) {
    && before.nextId <= after.nextId
    && (forall id | id in before.partitions ::
          id in after.partitions && Succeeds(before.partitions[id], after.partitions[id]))
    && (forall id | id in after.partitions && id !in before.partitions :: before.nextId <= id)
  }

  predicate Succeeds(p: MetaPartition, q: MetaPartition) {
    && q.id == p.id && q.ns == p.ns && q.start == p.start && p.epoch <= q.epoch
    && (p.epoch == q.epoch ==> p == q)
  }

  lemma StepAdvances(ix: Index, cmd: Command)
    requires IdsOk(ix.partitions, ix.nextId)
    ensures IdsOk(After(ix, cmd).partitions, After(ix, cmd).nextId) && Advances(ix, After(ix, cmd))
  {
    hide AfterCreate, AfterSplit, AfterMigrate, IdsOk, Advances;
    match cmd
    case Create(c) => CreateAdvances(ix, c);
    case Split(parent, at) => SplitAdvances(ix, parent, at);
    case Migrate(id, from, to) => MigrateAdvances(ix, id, from, to);
  }

  lemma CreateAdvances(ix: Index, c: CreateCmd)
    requires IdsOk(ix.partitions, ix.nextId)
    ensures var t := AfterCreate(ix, c); IdsOk(t.partitions, t.nextId) && Advances(ix, t)
  {
    hide Known, Without, MetaPartition.Key;
  }

  lemma SplitAdvances(ix: Index, parent: nat, at: Bound)
    requires IdsOk(ix.partitions, ix.nextId)
    ensures var t := AfterSplit(ix, parent, at); IdsOk(t.partitions, t.nextId) && Advances(ix, t)
  {
    hide Inside, Without, MetaPartition.Key;
  }

  lemma MigrateAdvances(ix: Index, id: nat, from: nat, to: nat)
    requires IdsOk(ix.partitions, ix.nextId)
    ensures var t := AfterMigrate(ix, id, from, to); IdsOk(t.partitions, t.nextId) && Advances(ix, t)
  {
  }

  /** Over any sequence of commands. */
  lemma {:induction false} RunAdvances(ix: Index, cmds: seq<Command>)
    requires IdsOk(ix.partitions, ix.nextId)
    ensures IdsOk(Run(ix, cmds).partitions, Run(ix, cmds).nextId) && Advances(ix, Run(ix, cmds))
    decreases |cmds|
  {
    if cmds != [] {
      StepAdvances(ix, cmds[0]);
      RunAdvances(After(ix, cmds[0]), cmds[1..]);
    }
  }

  ghost predicate Covered(ix: Index, ns: NsMode, c: Coord) {
    exists id :: Owns(ix, ns, c, id)
  }

  lemma StepKeepsCoverage(ix: Index, cmd: Command, ns: NsMode, c: Coord)
    requires IdsOk(ix.partitions, ix.nextId) && Covered(ix, ns, c)
    ensures Covered(After(ix, cmd), ns, c)
  {
    hide Before, AtOrBefore, Without, Known;
    var id :| Owns(ix, ns, c, id);
    match cmd {
      case Create(x) =>
        assert Owns(After(ix, cmd), ns, c, id);
      case Split(parent, at) =>
        if Splitting(ix, parent, at).SplitDone? {
          SplitMovesUpperHalf(ix, parent, at, ns, c, id);
          SplitMovesUpperHalf(ix, parent, at, ns, c, ix.nextId);
          assert Owns(After(ix, cmd), ns, c, id) || Owns(After(ix, cmd), ns, c, ix.nextId);
        } else {
          assert Owns(After(ix, cmd), ns, c, id);
        }
      case Migrate(x, from, to) =>
        MigrateKeepsOwners(ix, x, from, to);
        assert Owns(After(ix, cmd), ns, c, id);
    }
  }

  /** A coordinate that has an owner never loses coverage. */
  lemma {:induction false} CoverageIsForever(ix: Index, cmds: seq<Command>, ns: NsMode, c: Coord)
    requires IdsOk(ix.partitions, ix.nextId) && Covered(ix, ns, c)
    ensures Covered(Run(ix, cmds), ns, c)
    decreases |cmds|
  {
    if cmds != [] {
      StepKeepsCoverage(ix, cmds[0], ns, c);
      StepAdvances(ix, cmds[0]);
      CoverageIsForever(After(ix, cmds[0]), cmds[1..], ns, c);
    }
  }

  /** What the service and the scheduler see to: no conflict and something to hold when a creation
      applies, and a split boundary above the parent's lowest coordinate. */
  ghost predicate Guarded(ix: Index, cmd: Command) {
    match cmd
    case Create(c) => Known(ix, c) || (c.Fresh(0).NonEmpty() && forall id :: !ConflictsWith(ix, c, id))
    case Split(parent, at) => Splitting(ix, parent, at).SplitDone? ==> Before(ix.partitions[parent].Lowest(), at.At())
    case Migrate(_, _, _) => true
  }

  lemma GuardedStepKeepsValid(ix: Index, cmd: Command)
    requires Valid(ix) && Guarded(ix, cmd)
    ensures Valid(After(ix, cmd))
  {
    hide Valid, Before, AtOrBefore, ConflictsWith, Known, Migrating;
    match cmd {
      case Create(c) =>
        if !Known(ix, c) && ix.nextId != MAX_U64 {
          CreateKeepsValid(ix, c);
        }
      case Split(parent, at) =>
        if Splitting(ix, parent, at).SplitDone? {
          SplitKeepsValid(ix, parent, at);
        } else {
          SkippedIdKeepsValid(ix);
        }
      case Migrate(id, from, to) => MigrateKeepsOwners(ix, id, from, to);
    }
  }

  lemma SkippedIdKeepsValid(ix: Index)
    requires Valid(ix)
    ensures Valid(ix.(nextId := ix.nextId + 1))
  {
    hide Disjoint, Indexed, AllNonEmpty;
  }

  ghost predicate GuardedRun(ix: Index, cmds: seq<Command>)
    decreases |cmds|
  {
    cmds == [] || (Guarded(ix, cmds[0]) && GuardedRun(After(ix, cmds[0]), cmds[1..]))
  }

  /** Over every guarded run no coordinate has two owners and the index is exact, so lookups answer
      with the owner except exactly where they stray. */
  lemma {:induction false} GuardedRunRoutesToOwner(ix: Index, cmds: seq<Command>, ns: NsMode, c: Coord,
                                                   f: Option<StartKey>)
    requires Valid(ix) && GuardedRun(ix, cmds)
    requires IsFloor(Run(ix, cmds).byStart.Keys, StartKey(NsTag(ns), c), f)
    ensures Valid(Run(ix, cmds))
    ensures RouteAt(Run(ix, cmds), f, c) == Owner(Run(ix, cmds), ns, c) <==> !Strays(Run(ix, cmds), ns, c)
    decreases |cmds|
  {
    hide Valid, Strays, Guarded, After, IsFloor, Owner, RouteAt;
    if cmds == [] {
      RouteIsOwner(ix, ns, c, f);
    } else {
      GuardedStepKeepsValid(ix, cmds[0]);
      GuardedRunRoutesToOwner(After(ix, cmds[0]), cmds[1..], ns, c, f);
    }
  }

  // ---------------------------------------------------------------- the namespace bit

  const HIER_BUCKET_BIT := 0x8000_0000_0000_0000

  /** `validate_partition_bounds`. */
  predicate BoundsAllowed(ns: NsMode, start: Bound, end: Bound) {
    if ns == Flat then end.unbounded || end.bucket <= HIER_BUCKET_BIT
    else start.unbounded || start.bucket >= HIER_BUCKET_BIT
  }

  const HIER_FLOOR := Coord(HIER_BUCKET_BIT, [])

  /** What the service admits: a flat end no later than some key of the first hierarchical bucket, a
      hierarchical start no earlier than that bucket, and unbounded ones anywhere. */
  lemma BoundsAllowedIff(start: Bound, end: Bound)
    ensures BoundsAllowed(Flat, start, end) <==>
              end.unbounded || exists k: Bytes :: AtOrBefore(end.At(), Coord(HIER_BUCKET_BIT, k))
    ensures BoundsAllowed(Hier, start, end) <==> start.unbounded || AtOrBefore(HIER_FLOOR, start.At())
  {
    EmptyIsLeast(start.key);
    assert AtOrBefore(end.At(), Coord(HIER_BUCKET_BIT, end.key)) <==> end.bucket <= HIER_BUCKET_BIT by {
      LessIrreflexive(end.key);
    }
  }

  /** An admitted flat partition reaches a hierarchical bucket exactly when its end lies beyond
      both its own start and the least hierarchical coordinate. */
  lemma FlatReachesHierIff(p: MetaPartition)
    requires p.ns == Flat && BoundsAllowed(p.ns, p.start, p.end)
    ensures (exists c: Coord :: c.bucket >= HIER_BUCKET_BIT && p.Contains(c)) <==>
              p.end.unbounded || (Before(p.Lowest(), p.end.At()) && Before(HIER_FLOOR, p.end.At()))
  {
    BeforeIsOrder();
    var c := if AtOrBefore(HIER_FLOOR, p.Lowest()) then p.Lowest() else HIER_FLOOR;
    assert c.bucket >= HIER_BUCKET_BIT;
    if p.end.unbounded || (Before(p.Lowest(), p.end.At()) && Before(HIER_FLOOR, p.end.At())) {
      assert p.Contains(c);
    }
    forall d: Coord | d.bucket >= HIER_BUCKET_BIT && p.Contains(d) && !p.end.unbounded
      ensures Before(p.Lowest(), p.end.At()) && Before(HIER_FLOOR, p.end.At())
    {
      EmptyIsLeast(d.key);
      assert AtOrBefore(HIER_FLOOR, d) && AtOrBefore(p.Lowest(), d);
    }
  }

  /** An admitted hierarchical partition reaches a flat bucket exactly when its start is unbounded
      and it holds anything at all. */
  lemma HierReachesFlatIff(p: MetaPartition)
    requires p.ns == Hier && BoundsAllowed(p.ns, p.start, p.end)
    ensures (exists c: Coord :: c.bucket < HIER_BUCKET_BIT && p.Contains(c)) <==>
              p.start.unbounded && p.NonEmpty()
  {
    NonEmptyHoldsLowest(p);
    if p.start.unbounded && p.NonEmpty() {
      assert p.Contains(p.Lowest()) && p.Lowest().bucket < HIER_BUCKET_BIT;
    }
  }

  /** Flat partitions with a key in the first hierarchical bucket and with a start above the bit,
      and a hierarchical one with a low bucket: all three are admitted. */
  lemma NamespacesCanCross()
    ensures var p := MetaPartition(1, Flat, Bound(0, [], true), Bound(HIER_BUCKET_BIT, [122], false), [1], 1);
            BoundsAllowed(p.ns, p.start, p.end) && p.Contains(Coord(HIER_BUCKET_BIT, [97]))
    ensures var p := MetaPartition(1, Flat, Bound(HIER_BUCKET_BIT + 1, [], false), Bound(0, [], true), [1], 1);
            BoundsAllowed(p.ns, p.start, p.end) && forall c | p.Contains(c) :: c.bucket > HIER_BUCKET_BIT
    ensures var p := MetaPartition(1, Hier, Bound(0, [], true), Bound(0, [], true), [1], 1);
            BoundsAllowed(p.ns, p.start, p.end) && p.Contains(Coord(3, []))
  {
  }

  // ---------------------------------------------------------------- inode tags

  const COUNTERS := 0x1_0000_0000_0000

  /** 16 tag bits above 48 counter bits. */
  function ComposeIno(tag: nat, counter: nat): Option<nat> {
    if tag >= TAGS || counter >= COUNTERS then None else Some(tag * COUNTERS + counter)
  }

  function InoTag(ino: nat): nat {
    ino / COUNTERS
  }

  /** Both fields can be read back, so distinct (tag, counter) pairs never compose to one inode. */
  lemma ComposeInoInverts(tag: nat, counter: nat)
    requires ComposeIno(tag, counter).Some?
    ensures InoTag(ComposeIno(tag, counter).value) == tag
    ensures ComposeIno(tag, counter).value % COUNTERS == counter && ComposeIno(tag, counter).value <= MAX_U64
  {
  }

  /** How each partition came to be: a split hands its child a tag, a created partition has none
      and mints under tag 0. */
  datatype Birth = ByCreate | BySplit(tag: nat) {
    function Tag(): nat {
      if ByCreate? then 0 else tag
    }
  }

  ghost function Born(ix: Index, births: map<nat, Birth>, cmd: Command): map<nat, Birth> {
    match cmd
    case Create(c) => if AfterCreate(ix, c) == ix then births else births[ix.nextId := ByCreate]
    case Split(parent, at) =>
      if Splitting(ix, parent, at).SplitDone? then births[ix.nextId := BySplit(ix.nextTag)] else births
    case Migrate(_, _, _) => births
  }

  ghost function Births(ix: Index, births: map<nat, Birth>, cmds: seq<Command>): map<nat, Birth>
    decreases |cmds|
  {
    if cmds == [] then births else Births(After(ix, cmds[0]), Born(ix, births, cmds[0]), cmds[1..])
  }

  ghost predicate TagsOk(ix: Index, births: map<nat, Birth>) {
    && births.Keys == ix.partitions.Keys && IdsOk(ix.partitions, ix.nextId) && 1 <= ix.nextTag < TAGS
    && TagsApart(births, ix.nextTag)
  }

  /** Tags handed out so far are below the counter, and no two children share one. */
  ghost predicate TagsApart(births: map<nat, Birth>, next: nat) {
    && (forall i | i in births && births[i].BySplit? :: 1 <= births[i].tag < next)
    && (forall i, j | i in births && j in births && births[i].BySplit? && births[i] == births[j] :: i == j)
  }

  lemma StepRecordsBirths(ix: Index, births: map<nat, Birth>, cmd: Command)
    requires IdsOk(ix.partitions, ix.nextId) && births.Keys == ix.partitions.Keys && ix.nextTag < TAGS
    ensures Born(ix, births, cmd).Keys == After(ix, cmd).partitions.Keys
    ensures if cmd.Split? && Splitting(ix, cmd.parent, cmd.at).SplitDone?
            then Born(ix, births, cmd) == births[ix.nextId := BySplit(ix.nextTag)]
                 && After(ix, cmd).nextTag == ix.nextTag + 1 < TAGS
            else Born(ix, births, cmd) in {births, births[ix.nextId := ByCreate]}
                 && After(ix, cmd).nextTag == ix.nextTag
  {
    hide Known, Inside, Without, MetaPartition.Key;
  }

  lemma StepKeepsTags(ix: Index, births: map<nat, Birth>, cmd: Command)
    requires TagsOk(ix, births)
    ensures TagsOk(After(ix, cmd), Born(ix, births, cmd))
  {
    hide After, Born;
    StepAdvances(ix, cmd);
    StepRecordsBirths(ix, births, cmd);
    assert ix.nextId !in births;
    hide Advances, Splitting, TagsApart;
    BirthKeepsApart(births, ix.nextId, ByCreate, ix.nextTag, ix.nextTag);
    BirthKeepsApart(births, ix.nextId, BySplit(ix.nextTag), ix.nextTag, ix.nextTag + 1);
  }

  lemma BirthKeepsApart(births: map<nat, Birth>, id: nat, birth: Birth, tag: nat, next: nat)
    requires TagsApart(births, tag) && 1 <= tag && id !in births
    requires if birth.ByCreate? then next == tag else birth.tag == tag && next == tag + 1
    ensures TagsApart(births[id := birth], next)
  {
  }

  lemma {:induction false} RunKeepsTags(ix: Index, births: map<nat, Birth>, cmds: seq<Command>)
    requires TagsOk(ix, births)
    ensures TagsOk(Run(ix, cmds), Births(ix, births, cmds))
    decreases |cmds|
  {
    if cmds != [] {
      StepKeepsTags(ix, births, cmds[0]);
      RunKeepsTags(After(ix, cmds[0]), Born(ix, births, cmds[0]), cmds[1..]);
    }
  }

  /** In any history, two partitions can mint one inode exactly when both were created rather
      than split off: tags separate children from everything, but not two roots. */
  lemma InosCollideIffBothCreated(cmds: seq<Command>, i: nat, j: nat, n: nat, m: nat)
    requires i != j && i in Births(EMPTY, map[], cmds) && j in Births(EMPTY, map[], cmds)
    requires n < COUNTERS && m < COUNTERS
    ensures var births := Births(EMPTY, map[], cmds);
            && ComposeIno(births[i].Tag(), n).Some?
            && (ComposeIno(births[i].Tag(), n) == ComposeIno(births[j].Tag(), m)
                <==> n == m && births[i].ByCreate? && births[j].ByCreate?)
  {
    hide ComposeIno, InoTag;
    var births := Births(EMPTY, map[], cmds);
    RunKeepsTags(EMPTY, map[], cmds);
    TagIsComposable(births[i].Tag(), n);
    TagIsComposable(births[j].Tag(), m);
  }

  /** Two admitted partitions that meet inside one bucket, created side by side without overlap,
      mint the same inode for files of that bucket. */
  lemma TwoRootsCollide()
    ensures var bucket := HIER_BUCKET_BIT + 7;
            var low := CreateCmd(Hier, Bound(HIER_BUCKET_BIT, [], false), Bound(bucket, [109], false), [1]);
            var high := CreateCmd(Hier, Bound(bucket, [109], false), Bound(0, [], true), [1]);
            var births := Births(EMPTY, map[], [Create(low), Create(high)]);
            && BoundsAllowed(Hier, low.start, low.end) && BoundsAllowed(Hier, high.start, high.end)
            && (forall id :: !ConflictsWith(AfterCreate(EMPTY, low), high, id))
            && low.Fresh(1).Contains(Coord(bucket, [97])) && high.Fresh(2).Contains(Coord(bucket, [122]))
            && 1 in births && 2 in births && ComposeIno(births[1].Tag(), 5) == ComposeIno(births[2].Tag(), 5)
  {
    var bucket := HIER_BUCKET_BIT + 7;
    var low := CreateCmd(Hier, Bound(HIER_BUCKET_BIT, [], false), Bound(bucket, [109], false), [1]);
    var high := CreateCmd(Hier, Bound(bucket, [109], false), Bound(0, [], true), [1]);
    var cmds := [Create(low), Create(high)];
    var ix := AfterCreate(EMPTY, low);
    assert ix.partitions == map[1 := low.Fresh(1)] && ix.nextId == 2 && !Known(ix, high);
    assert 2 in AfterCreate(ix, high).partitions;
    assert cmds[1..] == [Create(high)] && cmds[1..][1..] == [];
    assert Births(ix, map[1 := ByCreate], cmds[1..]) == map[1 := ByCreate, 2 := ByCreate];
  }

  lemma TagIsComposable(tag: nat, n: nat)
    requires tag < TAGS && n < COUNTERS
    ensures ComposeIno(tag, n).Some?
    ensures InoTag(ComposeIno(tag, n).value) == tag && ComposeIno(tag, n).value % COUNTERS == n
  {
    ComposeInoInverts(tag, n);
  }
}
