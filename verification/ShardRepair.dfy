/** Single-shard repair tickets, the two rebind paths they share with jobs, and the placement
    they must keep (crates/epoch-pd/src/shard_repair.rs, state.rs, chunk/manager.rs). */
module ShardRepair {
  import opened Bytes

  // ---------------------------------------------------------------- slot keys

  const CHUNKS := 0x1_0000_0000

  const INDICES := 256

  const MAX_SHARD_EPOCH := 0xFF_FFFF

  /** 32 bits of chunk, 8 of index, 24 of zero epoch. */
  function ShardPrefix(chunk: nat, index: nat): nat {
    chunk * 0x1_0000_0000 + index * 0x100_0000
  }

  function PrefixChunk(k: nat): nat {
    k / 0x1_0000_0000
  }

  function PrefixIndex(k: nat): nat {
    (k / 0x100_0000) % 256
  }

  /** Both fields can be read back, so no two slots share a key. */
  lemma PrefixInverts(chunk: nat, index: nat)
    requires index < INDICES
    ensures PrefixChunk(ShardPrefix(chunk, index)) == chunk && PrefixIndex(ShardPrefix(chunk, index)) == index
  {
    var k := ShardPrefix(chunk, index);
    assert k == (chunk * 256 + index) * 0x100_0000;
    assert k / 0x100_0000 == chunk * 256 + index;
  }

  // ---------------------------------------------------------------- state

  datatype Slot = Slot(disk: nat, epoch: nat, createTs: int)

  /** Authorizes one rebind: by this node, from this epoch. */
  datatype Ticket = Ticket(chunk: nat, index: nat, target: nat, epoch: nat)

  /** Chunks and their slots, the node of each disk, pending tickets, and the per-disk slot index. */
  datatype State = State(
    chunks: map<nat, map<nat, Slot>>,
    disks: map<nat, nat>,
    tickets: map<nat, Ticket>,
    onDisk: map<nat, set<nat>>)

  predicate HasSlot(s: State, c: nat, i: nat) {
    c in s.chunks && i in s.chunks[c]
  }

  function SlotAt(s: State, c: nat, i: nat): Slot
    requires HasSlot(s, c, i)
  {
    s.chunks[c][i]
  }

  function OnDisk(s: State, d: nat): set<nat> {
    if d in s.onDisk then s.onDisk[d] else {}
  }

  datatype Reject = NotFound | InvalidTransition | DiskUnavailable | AffinityViolation

  datatype Reply = Rebound(epoch: nat) | Reported(created: bool) | Rejected(reason: Reject) | Done

  datatype Command =
    | RegisterDisk(disk: nat, node: nat)
    | CreateChunk(chunk: nat, slots: map<nat, Slot>)
    | Report(chunk: nat, index: nat)
    | CommitRepair(chunk: nat, index: nat, epoch: nat, disk: nat, createTs: int, committer: nat)
    | CommitMapping(chunk: nat, index: nat, epoch: nat, disk: nat, createTs: int, authorized: bool)

  // ---------------------------------------------------------------- rebinding

  /** Another slot of the chunk already lives on that node. */
  predicate Collides(s: State, c: nat, i: nat, node: nat) {
    c in s.chunks && exists j | j in s.chunks[c] && j != i ::
        s.chunks[c][j].disk in s.disks && s.disks[s.chunks[c][j].disk] == node
  }

  function AffinityReject(s: State, c: nat, i: nat, disk: nat): Option<Reject> {
    if c !in s.chunks then None
    else if disk !in s.disks then Some(DiskUnavailable)
    else if Collides(s, c, i, s.disks[disk]) then Some(AffinityViolation)
    else None
  }

  /** The slot-epoch fence, then the next epoch. */
  function RebindReject(s: State, c: nat, i: nat, epoch: nat): Option<Reject> {
    if !HasSlot(s, c, i) then Some(NotFound)
    else if SlotAt(s, c, i).epoch != epoch || epoch + 1 > MAX_SHARD_EPOCH then Some(InvalidTransition)
    else None
  }

  function Rebind(s: State, c: nat, i: nat, disk: nat, createTs: int): State
    requires HasSlot(s, c, i)
  {
    var was, k := SlotAt(s, c, i), ShardPrefix(c, i);
    var dropped := s.onDisk[was.disk := OnDisk(s, was.disk) - {k}];
    var base := if disk in dropped then dropped[disk] else {};
    var slots: map<nat, Slot> := s.chunks[c][i := Slot(disk, was.epoch + 1, createTs)];
    s.(chunks := s.chunks[c := slots],
       onDisk := dropped[disk := base + {k}])
  }

  /** Affinity gate, then rebind. */
  function Reassign(s: State, c: nat, i: nat, epoch: nat, disk: nat, createTs: int): (State, Reply) {
    var gate := AffinityReject(s, c, i, disk);
    if gate.Some? then (s, Rejected(gate.value))
    else
      var fence := RebindReject(s, c, i, epoch);
      if fence.Some? then (s, Rejected(fence.value))
      else (Rebind(s, c, i, disk, createTs), Rebound(epoch + 1))
  }

  /** `authorize_commit`: a ticket, its target, and the epoch it was issued for. */
  predicate Authorized(s: State, c: nat, i: nat, committer: nat, epoch: nat) {
    var k := ShardPrefix(c, i);
    k in s.tickets && s.tickets[k].target == committer && s.tickets[k].epoch == epoch
  }

  function Reporting(s: State, c: nat, i: nat): (State, Reply) {
    if !HasSlot(s, c, i) || SlotAt(s, c, i).disk !in s.disks then (s, Rejected(NotFound))
    else
      var k := ShardPrefix(c, i);
      if k in s.tickets then (s, Reported(false))
      else
        var slot := SlotAt(s, c, i);
        (s.(tickets := s.tickets[k := Ticket(c, i, s.disks[slot.disk], slot.epoch)]), Reported(true))
  }

  function Repairing(s: State, c: nat, i: nat, epoch: nat, disk: nat, createTs: int, committer: nat): (State, Reply) {
    if !Authorized(s, c, i, committer, epoch) then (s, Rejected(NotFound))
    else
      var (t, r) := Reassign(s, c, i, epoch, disk, createTs);
      if r.Rebound? then (t.(tickets := t.tickets - {ShardPrefix(c, i)}), r) else (t, r)
  }

  function Mapping(s: State, c: nat, i: nat, epoch: nat, disk: nat, createTs: int, authorized: bool): (State, Reply) {
    if !authorized then (s, Rejected(NotFound)) else Reassign(s, c, i, epoch, disk, createTs)
  }

  function Creating(s: State, c: nat, slots: map<nat, Slot>): State {
    s.(chunks := s.chunks[c := slots],
       onDisk := map d | d in s.onDisk.Keys + (set i | i in slots :: slots[i].disk) ::
           OnDisk(s, d) + PrefixesOn(c, slots, d))
  }

  function PrefixesOn(c: nat, slots: map<nat, Slot>, d: nat): set<nat> {
    set i | i in slots && slots[i].disk == d :: ShardPrefix(c, i)
  }

  function Apply(s: State, cmd: Command): (State, Reply) {
    match cmd
    case RegisterDisk(d, node) => (if d in s.disks then s else s.(disks := s.disks[d := node]), Done)
    case CreateChunk(c, slots) => (Creating(s, c, slots), Done)
    case Report(c, i) => Reporting(s, c, i)
    case CommitRepair(c, i, epoch, disk, ts, committer) => Repairing(s, c, i, epoch, disk, ts, committer)
    case CommitMapping(c, i, epoch, disk, ts, authorized) => Mapping(s, c, i, epoch, disk, ts, authorized)
  }

  /** Creation takes a fresh chunk id and puts its slots on known disks of distinct nodes. */
  ghost predicate Enabled(s: State, cmd: Command) {
    match cmd
    case CreateChunk(c, slots) =>
      && c < CHUNKS && c !in s.chunks
      && (forall i | i in slots :: i < INDICES && slots[i].disk in s.disks && slots[i].epoch == 0)
      && (forall i, j | i in slots && j in slots && i != j :: s.disks[slots[i].disk] != s.disks[slots[j].disk])
    case CommitRepair(c, i, _, _, _, _) => c < CHUNKS && i < INDICES
    case CommitMapping(c, i, _, _, _, _) => c < CHUNKS && i < INDICES
    case Report(c, i) => c < CHUNKS && i < INDICES
    case RegisterDisk(_, _) => true
  }

  // ---------------------------------------------------------------- what every command keeps

  ghost predicate Shaped(s: State) {
    forall c: nat, i: nat | HasSlot(s, c, i) :: c < CHUNKS && i < INDICES && SlotAt(s, c, i).disk in s.disks
  }

  /** No ticket is ahead of its slot, and a current one names the node that hosts the slot. */
  ghost predicate TicketsTrail(s: State) {
    forall k | k in s.tickets :: TicketOk(s, k, s.tickets[k])
  }

  ghost predicate TicketOk(s: State, k: nat, t: Ticket) {
    && t.index < INDICES && k == ShardPrefix(t.chunk, t.index) && HasSlot(s, t.chunk, t.index)
    && t.epoch <= SlotAt(s, t.chunk, t.index).epoch
    && (t.epoch == SlotAt(s, t.chunk, t.index).epoch ==>
        SlotAt(s, t.chunk, t.index).disk in s.disks && t.target == s.disks[SlotAt(s, t.chunk, t.index).disk])
  }

  /** No two slots of a chunk share a node. */
  ghost predicate Apart(s: State) {
    forall c: nat, i: nat, j: nat | HasSlot(s, c, i) && HasSlot(s, c, j) && i != j :: SlotsApart(s, c, i, j)
  }

  predicate SlotsApart(s: State, c: nat, i: nat, j: nat)
    requires HasSlot(s, c, i) && HasSlot(s, c, j)
  {
    var a, b := SlotAt(s, c, i).disk, SlotAt(s, c, j).disk;
    a in s.disks && b in s.disks ==> s.disks[a] != s.disks[b]
  }

  /** The per-disk index lists every slot under its disk, and nothing else. */
  ghost predicate DiskIndexExact(s: State) {
    && (forall c: nat, i: nat | HasSlot(s, c, i) :: ShardPrefix(c, i) in OnDisk(s, SlotAt(s, c, i).disk))
    && (forall d: nat, k: nat | k in OnDisk(s, d) :: Lists(s, d, k))
  }

  ghost predicate Lists(s: State, d: nat, k: nat) {
    var c, i := PrefixChunk(k), PrefixIndex(k);
    k == ShardPrefix(c, i) && HasSlot(s, c, i) && SlotAt(s, c, i).disk == d
  }

  ghost predicate Inv(s: State) {
    Shaped(s) && TicketsTrail(s) && Apart(s) && DiskIndexExact(s)
  }

  lemma RebindKeepsShape(s: State, c: nat, i: nat, disk: nat, ts: int)
    requires Shaped(s) && HasSlot(s, c, i) && disk in s.disks
    ensures Shaped(Rebind(s, c, i, disk, ts))
    ensures forall a: nat, b: nat :: HasSlot(Rebind(s, c, i, disk, ts), a, b) <==> HasSlot(s, a, b)
    ensures forall a: nat, b: nat | HasSlot(s, a, b) && !(a == c && b == i) ::
              SlotAt(Rebind(s, c, i, disk, ts), a, b) == SlotAt(s, a, b)
    ensures SlotAt(Rebind(s, c, i, disk, ts), c, i) == Slot(disk, SlotAt(s, c, i).epoch + 1, ts)
  {
    hide ShardPrefix;
    var t := Rebind(s, c, i, disk, ts);
    forall a: nat, b: nat | HasSlot(t, a, b) ensures a < CHUNKS && b < INDICES && SlotAt(t, a, b).disk in t.disks {
      assert HasSlot(s, a, b);
    }
  }

  /** The affinity gate refuses exactly the rebinds that would put two slots of a chunk on one node. */
  lemma RebindKeepsApart(s: State, c: nat, i: nat, disk: nat, ts: int)
    requires Shaped(s) && Apart(s) && HasSlot(s, c, i) && disk in s.disks
    ensures Apart(Rebind(s, c, i, disk, ts)) <==> !Collides(s, c, i, s.disks[disk])
  {
    RebindKeepsShape(s, c, i, disk, ts);
    var t := Rebind(s, c, i, disk, ts);
    assert t.disks == s.disks by { RebindKeepsDisks(s, c, i, disk, ts); }
    hide Rebind;
    if Collides(s, c, i, s.disks[disk]) {
      var j :| j in s.chunks[c] && j != i && s.chunks[c][j].disk in s.disks
               && s.disks[s.chunks[c][j].disk] == s.disks[disk];
      assert HasSlot(s, c, j) && !SlotsApart(t, c, i, j);
    } else {
      forall a: nat, x: nat, y: nat | HasSlot(t, a, x) && HasSlot(t, a, y) && x != y ensures SlotsApart(t, a, x, y) {
        assert SlotsApart(s, a, x, y);
      }
    }
  }

  lemma RebindKeepsDisks(s: State, c: nat, i: nat, disk: nat, ts: int)
    requires HasSlot(s, c, i)
    ensures Rebind(s, c, i, disk, ts).disks == s.disks && Rebind(s, c, i, disk, ts).tickets == s.tickets
  {
  }

  lemma RebindKeepsDiskIndex(s: State, c: nat, i: nat, disk: nat, ts: int)
    requires Shaped(s) && DiskIndexExact(s) && HasSlot(s, c, i) && disk in s.disks
    ensures DiskIndexExact(Rebind(s, c, i, disk, ts))
  {
    RebindKeepsShape(s, c, i, disk, ts);
    var t, was, k := Rebind(s, c, i, disk, ts), SlotAt(s, c, i).disk, ShardPrefix(c, i);
    forall d: nat
      ensures OnDisk(t, d) == OnDisk(s, d) - (if d == was then {k} else {}) + (if d == disk then {k} else {})
    {}
    hide Rebind, ShardPrefix, PrefixChunk, PrefixIndex;
    PrefixInverts(c, i);
    forall a: nat, b: nat | HasSlot(t, a, b) ensures ShardPrefix(a, b) in OnDisk(t, SlotAt(t, a, b).disk) {
      PrefixInverts(a, b);
    }
    forall d: nat, x: nat | x in OnDisk(t, d) ensures Lists(t, d, x) {
      if x in OnDisk(s, d) {
        assert Lists(s, d, x);
      }
    }
  }

  lemma RebindKeepsTickets(s: State, c: nat, i: nat, disk: nat, ts: int)
    requires Shaped(s) && TicketsTrail(s) && HasSlot(s, c, i) && disk in s.disks
    ensures TicketsTrail(Rebind(s, c, i, disk, ts))
  {
    RebindKeepsShape(s, c, i, disk, ts);
    RebindKeepsDisks(s, c, i, disk, ts);
    hide Rebind, ShardPrefix;
    var t := Rebind(s, c, i, disk, ts);
    forall k | k in t.tickets ensures TicketOk(t, k, t.tickets[k]) {
      assert TicketOk(s, k, s.tickets[k]);
    }
  }

  lemma RebindKeepsInv(s: State, c: nat, i: nat, disk: nat, ts: int)
    requires Inv(s) && HasSlot(s, c, i) && disk in s.disks && !Collides(s, c, i, s.disks[disk])
    ensures Inv(Rebind(s, c, i, disk, ts))
  {
    hide Rebind, Shaped, TicketsTrail, Apart, DiskIndexExact, Collides;
    RebindKeepsShape(s, c, i, disk, ts);
    RebindKeepsTickets(s, c, i, disk, ts);
    RebindKeepsApart(s, c, i, disk, ts);
    RebindKeepsDiskIndex(s, c, i, disk, ts);
  }

  lemma ReassignKeepsInv(s: State, c: nat, i: nat, epoch: nat, disk: nat, ts: int)
    requires Inv(s)
    ensures Inv(Reassign(s, c, i, epoch, disk, ts).0)
    ensures Reassign(s, c, i, epoch, disk, ts).0.tickets == s.tickets
  {
    hide Inv, Rebind, Collides;
    if Reassign(s, c, i, epoch, disk, ts).1.Rebound? {
      RebindKeepsInv(s, c, i, disk, ts);
      RebindKeepsDisks(s, c, i, disk, ts);
    }
  }

  lemma ClearKeepsInv(s: State, k: nat)
    requires Inv(s)
    ensures Inv(s.(tickets := s.tickets - {k}))
  {
    SameSlotsKeepInv(s, s.(tickets := s.tickets - {k}));
  }

  lemma SameSlotsKeepInv(s: State, t: State)
    requires Inv(s) && t.chunks == s.chunks && t.onDisk == s.onDisk
    requires (forall d | d in s.disks :: d in t.disks && t.disks[d] == s.disks[d])
    requires forall k | k in t.tickets :: k in s.tickets && t.tickets[k] == s.tickets[k]
    ensures Inv(t)
  {
    hide ShardPrefix, PrefixChunk, PrefixIndex;
    forall c: nat, i: nat ensures HasSlot(t, c, i) <==> HasSlot(s, c, i) {}
    forall c: nat, i: nat | HasSlot(t, c, i) ensures SlotAt(t, c, i) == SlotAt(s, c, i) {}
    forall k | k in t.tickets ensures TicketOk(t, k, t.tickets[k]) {
      assert TicketOk(s, k, s.tickets[k]);
    }
    forall c: nat, i: nat, j: nat | HasSlot(t, c, i) && HasSlot(t, c, j) && i != j ensures SlotsApart(t, c, i, j) {
      assert SlotsApart(s, c, i, j);
    }
    forall d: nat, k: nat | k in OnDisk(t, d) ensures Lists(t, d, k) {
      assert k in OnDisk(s, d) && Lists(s, d, k);
    }
  }

  lemma ReportKeepsInv(s: State, c: nat, i: nat)
    requires Inv(s) && i < INDICES
    ensures Inv(Reporting(s, c, i).0)
  {
    hide ShardPrefix, PrefixChunk, PrefixIndex;
    var t := Reporting(s, c, i).0;
    if t != s {
      var k := ShardPrefix(c, i);
      SameSlotsKeepInv(s, t.(tickets := s.tickets));
      forall x | x in t.tickets ensures TicketOk(t, x, t.tickets[x]) {
        if x != k {
          assert TicketOk(s, x, s.tickets[x]);
        }
      }
      TicketsAside(t.(tickets := s.tickets), t);
    }
  }

  lemma TicketsAside(s: State, t: State)
    requires Shaped(s) && Apart(s) && DiskIndexExact(s) && TicketsTrail(t) && t == s.(tickets := t.tickets)
    ensures Inv(t)
  {
    hide ShardPrefix, PrefixChunk, PrefixIndex, TicketsTrail;
    forall c: nat, i: nat ensures HasSlot(t, c, i) <==> HasSlot(s, c, i) {}
    forall c: nat, i: nat, j: nat | HasSlot(t, c, i) && HasSlot(t, c, j) && i != j ensures SlotsApart(t, c, i, j) {
      assert SlotsApart(s, c, i, j);
    }
    forall c: nat, i: nat | HasSlot(t, c, i) ensures ShardPrefix(c, i) in OnDisk(t, SlotAt(t, c, i).disk) {
      assert ShardPrefix(c, i) in OnDisk(s, SlotAt(s, c, i).disk);
    }
    forall d: nat, k: nat | k in OnDisk(t, d) ensures Lists(t, d, k) {
      assert k in OnDisk(s, d) && Lists(s, d, k);
    }
  }

  lemma CreatedSlots(s: State, c: nat, slots: map<nat, Slot>)
    requires c !in s.chunks
    ensures forall a: nat, i: nat :: HasSlot(Creating(s, c, slots), a, i) <==>
              HasSlot(s, a, i) || (a == c && i in slots)
    ensures forall a: nat, i: nat | HasSlot(s, a, i) ::
              HasSlot(Creating(s, c, slots), a, i) && SlotAt(Creating(s, c, slots), a, i) == SlotAt(s, a, i)
    ensures forall i: nat | i in slots ::
              HasSlot(Creating(s, c, slots), c, i) && SlotAt(Creating(s, c, slots), c, i) == slots[i]
  {
    hide ShardPrefix, PrefixesOn, OnDisk;
    assert Creating(s, c, slots).chunks == s.chunks[c := slots];
    hide Creating;
  }

  lemma CreateKeepsDiskIndex(s: State, c: nat, slots: map<nat, Slot>)
    requires Inv(s) && Enabled(s, CreateChunk(c, slots))
    ensures DiskIndexExact(Creating(s, c, slots))
  {
    CreatedSlots(s, c, slots);
    var t := Creating(s, c, slots);
    forall d: nat ensures OnDisk(t, d) == OnDisk(s, d) + PrefixesOn(c, slots, d) {}
    hide Creating, ShardPrefix, PrefixChunk, PrefixIndex, OnDisk;
    forall a: nat, i: nat | HasSlot(t, a, i) ensures ShardPrefix(a, i) in OnDisk(t, SlotAt(t, a, i).disk) {
      if a == c && i in slots {
        assert ShardPrefix(c, i) in PrefixesOn(c, slots, slots[i].disk);
      } else {
        assert HasSlot(s, a, i);
      }
    }
    forall d: nat, k: nat | k in OnDisk(t, d) ensures Lists(t, d, k) {
      if k in OnDisk(s, d) {
        assert Lists(s, d, k);
      } else {
        var i: nat :| i in slots && slots[i].disk == d && k == ShardPrefix(c, i);
        PrefixInverts(c, i);
      }
    }
  }

  lemma CreateKeepsApart(s: State, c: nat, slots: map<nat, Slot>)
    requires Inv(s) && Enabled(s, CreateChunk(c, slots))
    ensures Apart(Creating(s, c, slots)) && Shaped(Creating(s, c, slots))
  {
    CreatedSlots(s, c, slots);
    var t := Creating(s, c, slots);
    assert t.disks == s.disks;
    hide Creating, DiskIndexExact, TicketsTrail;
    forall a: nat, i: nat, j: nat | HasSlot(t, a, i) && HasSlot(t, a, j) && i != j ensures SlotsApart(t, a, i, j) {
      if HasSlot(s, a, i) {
        assert HasSlot(s, a, j) && SlotsApart(s, a, i, j);
      }
    }
  }

  lemma CreateKeepsTickets(s: State, c: nat, slots: map<nat, Slot>)
    requires TicketsTrail(s) && c !in s.chunks
    ensures TicketsTrail(Creating(s, c, slots))
  {
    CreatedSlots(s, c, slots);
    var t := Creating(s, c, slots);
    assert t.disks == s.disks && t.tickets == s.tickets;
    hide Creating, ShardPrefix;
    forall k | k in t.tickets ensures TicketOk(t, k, t.tickets[k]) {
      assert TicketOk(s, k, s.tickets[k]);
    }
  }

  lemma CreateKeepsInv(s: State, c: nat, slots: map<nat, Slot>)
    requires Inv(s) && Enabled(s, CreateChunk(c, slots))
    ensures Inv(Creating(s, c, slots))
  {
    hide Creating, Apart, DiskIndexExact, TicketsTrail, Shaped;
    CreateKeepsDiskIndex(s, c, slots);
    CreateKeepsApart(s, c, slots);
    CreateKeepsTickets(s, c, slots);
  }

  lemma StepKeepsInv(s: State, cmd: Command)
    requires Inv(s) && Enabled(s, cmd)
    ensures Inv(Apply(s, cmd).0)
  {
    hide Inv, Creating, Reporting, Reassign, Authorized;
    match cmd {
      case RegisterDisk(d, node) => SameSlotsKeepInv(s, Apply(s, cmd).0);
      case CreateChunk(c, slots) => CreateKeepsInv(s, c, slots);
      case Report(c, i) => ReportKeepsInv(s, c, i);
      case CommitRepair(c, i, epoch, disk, ts, committer) =>
        ReassignKeepsInv(s, c, i, epoch, disk, ts);
        ClearKeepsInv(Reassign(s, c, i, epoch, disk, ts).0, ShardPrefix(c, i));
      case CommitMapping(c, i, epoch, disk, ts, authorized) => ReassignKeepsInv(s, c, i, epoch, disk, ts);
    }
  }

  // ---------------------------------------------------------------- every run

  ghost predicate Runs(s: State, cmds: seq<Command>)
    decreases |cmds|
  {
    cmds == [] || (Enabled(s, cmds[0]) && Runs(Apply(s, cmds[0]).0, cmds[1..]))
  }

  ghost function Finally(s: State, cmds: seq<Command>): State
    decreases |cmds|
  {
    if cmds == [] then s else Finally(Apply(s, cmds[0]).0, cmds[1..])
  }

  const EMPTY := State(map[], map[], map[], map[])

  lemma {:induction false} RunKeepsInv(s: State, cmds: seq<Command>)
    requires Inv(s) && Runs(s, cmds)
    ensures Inv(Finally(s, cmds))
    decreases |cmds|
  {
    hide Inv, Apply, Enabled;
    if cmds != [] {
      StepKeepsInv(s, cmds[0]);
      RunKeepsInv(Apply(s, cmds[0]).0, cmds[1..]);
    }
  }

  /** In every history: tickets trail their slots, slots of a chunk sit on distinct nodes, and the
      per-disk index is exact. */
  lemma HistoryKeepsInv(cmds: seq<Command>)
    requires Runs(EMPTY, cmds)
    ensures Inv(Finally(EMPTY, cmds))
  {
    assert Inv(EMPTY) by { EmptyIsSound(); }
    RunKeepsInv(EMPTY, cmds);
  }

  lemma EmptyIsSound()
    ensures Inv(EMPTY)
  {
    hide ShardPrefix, PrefixChunk, PrefixIndex;
    forall d: nat ensures OnDisk(EMPTY, d) == {} {}
  }

  /** A rebuild on the slot's own disk is never refused for affinity. */
  lemma InPlaceIsNeverBlocked(s: State, c: nat, i: nat)
    requires Inv(s) && HasSlot(s, c, i)
    ensures AffinityReject(s, c, i, SlotAt(s, c, i).disk) == None
  {
    hide DiskIndexExact, TicketsTrail;
    var disk := SlotAt(s, c, i).disk;
    forall j: nat | HasSlot(s, c, j) && j != i ensures s.disks[s.chunks[c][j].disk] != s.disks[disk] {
      assert SlotsApart(s, c, i, j);
    }
    forall j | j in s.chunks[c] ensures HasSlot(s, c, j) {}
  }

  /** The first slot and epoch a command rebinds, if it rebinds at all. */
  datatype Rebinding = Rebinding(chunk: nat, index: nat, epoch: nat)

  function RebindingOf(s: State, cmd: Command): Option<Rebinding> {
    match cmd
    case CommitRepair(c, i, epoch, _, _, _) => if Apply(s, cmd).1.Rebound? then Some(Rebinding(c, i, epoch)) else None
    case CommitMapping(c, i, epoch, _, _, _) => if Apply(s, cmd).1.Rebound? then Some(Rebinding(c, i, epoch)) else None
    case _ => None
  }

  ghost function Rebindings(s: State, cmds: seq<Command>): seq<Rebinding>
    decreases |cmds|
  {
    if cmds == [] then []
    else
      var rest, first := Rebindings(Apply(s, cmds[0]).0, cmds[1..]), RebindingOf(s, cmds[0]);
      if first.Some? then [first.value] + rest else rest
  }

  /** The slot is past an epoch: it exists and has moved beyond it. */
  predicate Past(s: State, r: Rebinding) {
    HasSlot(s, r.chunk, r.index) && SlotAt(s, r.chunk, r.index).epoch > r.epoch
  }

  lemma ReassignMovesOn(s: State, c: nat, i: nat, epoch: nat, disk: nat, ts: int, r: Rebinding)
    requires Shaped(s)
    ensures Past(s, r) ==> Past(Reassign(s, c, i, epoch, disk, ts).0, r)
    ensures Reassign(s, c, i, epoch, disk, ts).1.Rebound? ==>
      && Past(Reassign(s, c, i, epoch, disk, ts).0, Rebinding(c, i, epoch))
      && HasSlot(s, c, i) && SlotAt(s, c, i).epoch == epoch
  {
    hide Rebind, Collides, ShardPrefix;
    if Reassign(s, c, i, epoch, disk, ts).1.Rebound? {
      RebindKeepsShape(s, c, i, disk, ts);
    }
  }

  /** Slots never go back: what is past stays past, and a rebind puts its own epoch in the past. */
  lemma StepMovesOn(s: State, cmd: Command, r: Rebinding)
    requires Inv(s) && Enabled(s, cmd)
    ensures Past(s, r) ==> Past(Apply(s, cmd).0, r) && RebindingOf(s, cmd) != Some(r)
    ensures RebindingOf(s, cmd) == Some(r) ==> Past(Apply(s, cmd).0, r)
  {
    hide Reassign, Creating, ShardPrefix;
    match cmd {
      case RegisterDisk(d, node) =>
      case CreateChunk(c, slots) => CreatedSlots(s, c, slots);
      case Report(c, i) =>
      case CommitRepair(c, i, epoch, disk, ts, committer) => ReassignMovesOn(s, c, i, epoch, disk, ts, r);
      case CommitMapping(c, i, epoch, disk, ts, authorized) => ReassignMovesOn(s, c, i, epoch, disk, ts, r);
    }
  }

  lemma {:induction false} PastIsNeverRebound(s: State, cmds: seq<Command>, r: Rebinding)
    requires Inv(s) && Runs(s, cmds) && Past(s, r)
    ensures r !in Rebindings(s, cmds) && Past(Finally(s, cmds), r)
    decreases |cmds|
  {
    hide Inv, Apply, Enabled, RebindingOf, Past;
    if cmds != [] {
      StepKeepsInv(s, cmds[0]);
      StepMovesOn(s, cmds[0], r);
      PastIsNeverRebound(Apply(s, cmds[0]).0, cmds[1..], r);
    }
  }

  /** Over any run, by either path, each slot epoch is rebound at most once. */
  lemma {:induction false} EachEpochReboundOnce(s: State, cmds: seq<Command>)
    requires Inv(s) && Runs(s, cmds)
    ensures Distinct(Rebindings(s, cmds))
    decreases |cmds|
  {
    hide Inv, Apply, Enabled, RebindingOf, Past, Distinct;
    if cmds == [] {
      NoneIsDistinct();
    } else {
      StepKeepsInv(s, cmds[0]);
      var next := Apply(s, cmds[0]).0;
      EachEpochReboundOnce(next, cmds[1..]);
      var first := RebindingOf(s, cmds[0]);
      if first.Some? {
        StepMovesOn(s, cmds[0], first.value);
        PastIsNeverRebound(next, cmds[1..], first.value);
        NewHeadIsDistinct(first.value, Rebindings(next, cmds[1..]));
      }
    }
  }

  ghost predicate Distinct(log: seq<Rebinding>) {
    forall a, b | 0 <= a < b < |log| :: log[a] != log[b]
  }

  lemma NoneIsDistinct()
    ensures Distinct([])
  {
  }

  lemma NewHeadIsDistinct(first: Rebinding, rest: seq<Rebinding>)
    requires first !in rest && Distinct(rest)
    ensures Distinct([first] + rest)
  {
    var log := [first] + rest;
    forall a, b | 0 <= a < b < |log| ensures log[a] != log[b] {
      assert log[b] == rest[b - 1] && (a > 0 ==> log[a] == rest[a - 1]);
    }
  }

  // ---------------------------------------------------------------- tickets

  predicate Hosts(s: State, c: nat, i: nat, node: nat) {
    HasSlot(s, c, i) && SlotAt(s, c, i).disk in s.disks && s.disks[SlotAt(s, c, i).disk] == node
  }

  /** The slot is at the epoch named, can move past it, and the disk is known and on a node of its own. */
  predicate Rebindable(s: State, c: nat, i: nat, epoch: nat, disk: nat) {
    && HasSlot(s, c, i) && SlotAt(s, c, i).epoch == epoch < MAX_SHARD_EPOCH
    && disk in s.disks && !Collides(s, c, i, s.disks[disk])
  }

  /** When a repair commit goes through, in terms of the state before it; it uses up its ticket. */
  lemma RepairCommitsIff(s: State, c: nat, i: nat, epoch: nat, disk: nat, ts: int, committer: nat)
    requires Inv(s) && i < INDICES
    ensures var (t, r) := Repairing(s, c, i, epoch, disk, ts, committer);
            && (r == Rebound(epoch + 1) <==>
                Authorized(s, c, i, committer, epoch) && Rebindable(s, c, i, epoch, disk))
            && (r.Rebound? ==> ShardPrefix(c, i) !in t.tickets && Hosts(s, c, i, committer))
            && (!r.Rebound? ==> t == s)
  {
    hide DiskIndexExact, Apart, Rebind, Collides;
    if Authorized(s, c, i, committer, epoch) {
      var k := ShardPrefix(c, i);
      assert TicketOk(s, k, s.tickets[k]);
      PrefixInverts(c, i);
      PrefixInverts(s.tickets[k].chunk, s.tickets[k].index);
      hide ShardPrefix, PrefixChunk, PrefixIndex;
      RebindKeepsDisks(s, c, i, disk, ts);
    }
  }

  /** When a job's rebind goes through, and why not otherwise: it asks for no ticket, changes only the
      slot and the disk lists, and a refusal changes nothing. */
  lemma MappingCommitsIff(s: State, c: nat, i: nat, epoch: nat, disk: nat, ts: int, authorized: bool)
    ensures var (t, r) := Mapping(s, c, i, epoch, disk, ts, authorized);
            && (r == Rebound(epoch + 1) <==> authorized && Rebindable(s, c, i, epoch, disk))
            && (r == Rejected(DiskUnavailable) <==> authorized && c in s.chunks && disk !in s.disks)
            && (r == Rejected(AffinityViolation) <==>
                  authorized && c in s.chunks && disk in s.disks && Collides(s, c, i, s.disks[disk]))
            && (r == Rejected(NotFound) <==>
                  || !authorized || c !in s.chunks
                  || (i !in s.chunks[c] && disk in s.disks && !Collides(s, c, i, s.disks[disk])))
            && (!r.Rebound? ==> r.Rejected? && t == s)
            && t.tickets == s.tickets && t.disks == s.disks
  {
    hide Collides;
  }

  /** A report opens a ticket exactly for a slot on a known disk that has none, and changes nothing
      else; the node that hosts the slot can then rebuild it in place, at its epoch, until the last. */
  lemma ReportOpensRepair(s: State, c: nat, i: nat, ts: int)
    requires Inv(s) && i < INDICES
    ensures var (t, r) := Reporting(s, c, i);
            && (r == Reported(true) <==> HasSlot(s, c, i) && ShardPrefix(c, i) !in s.tickets)
            && (r == Reported(false) <==> HasSlot(s, c, i) && ShardPrefix(c, i) in s.tickets)
            && (r == Rejected(NotFound) <==> !HasSlot(s, c, i))
            && t.chunks == s.chunks && t.disks == s.disks && t.onDisk == s.onDisk
            && t.tickets.Keys == s.tickets.Keys + (if r == Reported(true) then {ShardPrefix(c, i)} else {})
            && (r == Reported(true) && SlotAt(s, c, i).epoch < MAX_SHARD_EPOCH ==>
                  var slot := SlotAt(s, c, i);
                  Repairing(t, c, i, slot.epoch, slot.disk, ts, s.disks[slot.disk]).1 == Rebound(slot.epoch + 1))
  {
    hide Collides, ShardPrefix, DiskIndexExact, Apart, TicketsTrail, Rebind;
    var (t, r) := Reporting(s, c, i);
    if r == Reported(true) {
      hide Inv;
      var slot := SlotAt(s, c, i);
      ReportKeepsInv(s, c, i);
      InPlaceIsNeverBlocked(t, c, i);
      RepairCommitsIff(t, c, i, slot.epoch, slot.disk, ts, s.disks[slot.disk]);
    }
  }

  /** A pending ticket whose slot has moved on. */
  predicate Stale(s: State, c: nat, i: nat) {
    && HasSlot(s, c, i) && ShardPrefix(c, i) in s.tickets
    && s.tickets[ShardPrefix(c, i)].epoch < SlotAt(s, c, i).epoch
  }

  /** The command gets nowhere with the slot's repair. */
  predicate NoRepair(s: State, cmd: Command, c: nat, i: nat) {
    && (cmd.CommitRepair? && cmd.chunk == c && cmd.index == i ==> !Apply(s, cmd).1.Rebound?)
    && (cmd.Report? && cmd.chunk == c && cmd.index == i ==> Apply(s, cmd).1 != Reported(true))
  }

  lemma ReassignKeepsStale(s: State, c: nat, i: nat, epoch: nat, disk: nat, ts: int, a: nat, b: nat)
    requires Inv(s) && Stale(s, a, b)
    ensures Stale(Reassign(s, c, i, epoch, disk, ts).0, a, b)
    ensures Reassign(s, c, i, epoch, disk, ts).0.tickets == s.tickets
  {
    hide Rebind, Collides, ShardPrefix, DiskIndexExact, TicketsTrail, Apart;
    if Reassign(s, c, i, epoch, disk, ts).1.Rebound? {
      RebindKeepsShape(s, c, i, disk, ts);
      RebindKeepsDisks(s, c, i, disk, ts);
    }
  }

  lemma StaleStays(s: State, cmd: Command, c: nat, i: nat)
    requires Inv(s) && Enabled(s, cmd) && Stale(s, c, i) && i < INDICES
    ensures Stale(Apply(s, cmd).0, c, i) && NoRepair(s, cmd, c, i)
  {
    hide Reassign, Creating, ShardPrefix, DiskIndexExact, TicketsTrail, Apart;
    match cmd {
      case RegisterDisk(d, node) =>
      case CreateChunk(a, slots) =>
        CreatedSlots(s, a, slots);
        assert Creating(s, a, slots).tickets == s.tickets by { CreateKeepsTicketMap(s, a, slots); }
      case Report(a, b) =>
        if ShardPrefix(a, b) !in s.tickets { assert ShardPrefix(a, b) != ShardPrefix(c, i); }
      case CommitRepair(a, b, epoch, disk, ts, committer) =>
        ReassignKeepsStale(s, a, b, epoch, disk, ts, c, i);
        PrefixInverts(a, b);
        PrefixInverts(c, i);
        if a == c && b == i {
          ReassignMovesOn(s, a, b, epoch, disk, ts, Rebinding(a, b, epoch));
        }
      case CommitMapping(a, b, epoch, disk, ts, authorized) => ReassignKeepsStale(s, a, b, epoch, disk, ts, c, i);
    }
  }

  lemma CreateKeepsTicketMap(s: State, c: nat, slots: map<nat, Slot>)
    ensures Creating(s, c, slots).tickets == s.tickets
  {
  }

  ghost predicate NeverRepaired(s: State, cmds: seq<Command>, c: nat, i: nat)
    decreases |cmds|
  {
    cmds == [] || (NoRepair(s, cmds[0], c, i) && NeverRepaired(Apply(s, cmds[0]).0, cmds[1..], c, i))
  }

  /** A stale ticket is never cleared: from then on no repair of its slot commits and no report of
      it opens another. */
  lemma {:induction false} StaleTicketBlocksForever(s: State, cmds: seq<Command>, c: nat, i: nat)
    requires Inv(s) && Runs(s, cmds) && Stale(s, c, i) && i < INDICES
    ensures NeverRepaired(s, cmds, c, i) && Stale(Finally(s, cmds), c, i)
    decreases |cmds|
  {
    hide Inv, Apply, Enabled, Stale, NoRepair;
    if cmds != [] {
      StepKeepsInv(s, cmds[0]);
      StaleStays(s, cmds[0], c, i);
      StaleTicketBlocksForever(Apply(s, cmds[0]).0, cmds[1..], c, i);
    }
  }

  /** An authorized job names the slot's epoch and a disk that may take it while a ticket is pending. */
  predicate Overtakes(s: State, cmd: Command, c: nat, i: nat) {
    && ShardPrefix(c, i) in s.tickets
    && cmd.CommitMapping? && cmd.chunk == c && cmd.index == i && cmd.authorized
    && Rebindable(s, c, i, cmd.epoch, cmd.disk)
  }

  /** A slot's ticket goes stale exactly when a job overtakes it. */
  lemma GoesStaleIff(s: State, cmd: Command, c: nat, i: nat)
    requires Inv(s) && Enabled(s, cmd) && !Stale(s, c, i) && i < INDICES
    ensures Stale(Apply(s, cmd).0, c, i) <==> Overtakes(s, cmd, c, i)
  {
    hide Creating, ShardPrefix, DiskIndexExact, Apart, Rebind, Collides, OnDisk;
    match cmd {
      case RegisterDisk(d, node) =>
      case CreateChunk(a, slots) =>
        CreatedSlots(s, a, slots);
        CreateKeepsTicketMap(s, a, slots);
        TicketHasSlot(s, c, i);
      case Report(a, b) =>
        PrefixInverts(a, b);
        PrefixInverts(c, i);
      case CommitRepair(a, b, epoch, disk, ts, committer) => ReassignStales(s, a, b, epoch, disk, ts, c, i);
      case CommitMapping(a, b, epoch, disk, ts, authorized) => ReassignStales(s, a, b, epoch, disk, ts, c, i);
    }
  }

  ghost predicate EverOvertaken(s: State, cmds: seq<Command>, c: nat, i: nat)
    decreases |cmds|
  {
    cmds != [] && (Overtakes(s, cmds[0], c, i) || EverOvertaken(Apply(s, cmds[0]).0, cmds[1..], c, i))
  }

  /** Over a whole history: a slot ends up blocked exactly when a job overtook its ticket once. */
  lemma {:induction false} BlockedIffOvertaken(s: State, cmds: seq<Command>, c: nat, i: nat)
    requires Inv(s) && Runs(s, cmds) && !Stale(s, c, i) && i < INDICES
    ensures Stale(Finally(s, cmds), c, i) <==> EverOvertaken(s, cmds, c, i)
    decreases |cmds|
  {
    hide Inv, Apply, Enabled, Stale, NoRepair, Overtakes;
    if cmds != [] {
      StepKeepsInv(s, cmds[0]);
      GoesStaleIff(s, cmds[0], c, i);
      var next := Apply(s, cmds[0]).0;
      if Stale(next, c, i) {
        StaleTicketBlocksForever(next, cmds[1..], c, i);
      } else {
        BlockedIffOvertaken(next, cmds[1..], c, i);
      }
    }
  }

  /** A report, then a job's rebind of the same slot. */
  lemma TicketCanGoStale()
    ensures var start := State(map[1 := map[0 := Slot(7, 0, 0)]], map[7 := 70, 8 := 80], map[],
                               map[7 := {ShardPrefix(1, 0)}]);
            var reported := Apply(start, Report(1, 0)).0;
            var moved := Apply(reported, CommitMapping(1, 0, 0, 8, 5, true));
            Inv(start) && moved.1 == Rebound(1) && Stale(moved.0, 1, 0)
  {
    var start := State(map[1 := map[0 := Slot(7, 0, 0)]], map[7 := 70, 8 := 80], map[], map[7 := {ShardPrefix(1, 0)}]);
    PrefixInverts(1, 0);
    hide ShardPrefix, PrefixChunk, PrefixIndex;
    assert Inv(start);
    var reported := Apply(start, Report(1, 0)).0;
    assert !Collides(reported, 1, 0, 80);
  }

  lemma TicketHasSlot(s: State, c: nat, i: nat)
    requires TicketsTrail(s) && i < INDICES
    ensures ShardPrefix(c, i) in s.tickets ==>
              HasSlot(s, c, i) && s.tickets[ShardPrefix(c, i)].epoch <= SlotAt(s, c, i).epoch
  {
    var k := ShardPrefix(c, i);
    if k in s.tickets {
      assert TicketOk(s, k, s.tickets[k]);
      PrefixInverts(c, i);
      PrefixInverts(s.tickets[k].chunk, s.tickets[k].index);
    }
  }

  lemma ReassignStales(s: State, a: nat, b: nat, epoch: nat, disk: nat, ts: int, c: nat, i: nat)
    requires Inv(s) && !Stale(s, c, i) && i < INDICES && b < INDICES
    ensures Reassign(s, a, b, epoch, disk, ts).0.tickets == s.tickets
    ensures Stale(Reassign(s, a, b, epoch, disk, ts).0, c, i) <==>
      a == c && b == i && Reassign(s, a, b, epoch, disk, ts).1.Rebound? && ShardPrefix(c, i) in s.tickets
    ensures ShardPrefix(a, b) == ShardPrefix(c, i) ==> a == c && b == i
  {
    hide ShardPrefix, PrefixChunk, PrefixIndex, DiskIndexExact, Apart, Rebind, Collides, OnDisk;
    PrefixInverts(a, b);
    PrefixInverts(c, i);
    TicketHasSlot(s, c, i);
    if Reassign(s, a, b, epoch, disk, ts).1.Rebound? {
      RebindKeepsShape(s, a, b, disk, ts);
      RebindKeepsDisks(s, a, b, disk, ts);
    }
  }

  // ---------------------------------------------------------------- the replicated state

  ghost predicate Keyed(tickets: map<nat, Ticket>) {
    forall k | k in tickets :: k == ShardPrefix(tickets[k].chunk, tickets[k].index)
  }

  class PdState {
    var chunks: map<nat, map<nat, Slot>>
    var disks: map<nat, nat>
    var tickets: map<nat, Ticket>
    var onDisk: map<nat, set<nat>>
    /** The `shard_repair` column family. */
    var records: map<nat, Ticket>

    function View(): State
      reads this
    {
      State(chunks, disks, tickets, onDisk)
    }

    constructor ()
      ensures View() == EMPTY && records == map[]
    {
      chunks, disks, tickets, onDisk, records := map[], map[], map[], map[], map[];
    }

    /** The repair target and epoch come from the slot as committed, never from the reporter. */
    method ApplyReport(c: nat, i: nat) returns (r: Reply)
      requires records == tickets
      modifies this`tickets, this`records
      ensures (View(), r) == Reporting(old(View()), c, i) && records == tickets
    {
      hide ShardPrefix;
      if c !in chunks || i !in chunks[c] {
        return Rejected(NotFound);
      }
      var slot := chunks[c][i];
      if slot.disk !in disks {
        return Rejected(NotFound);
      }
      var k := ShardPrefix(c, i);
      if k in tickets {
        return Reported(false);
      }
      var ticket := Ticket(c, i, disks[slot.disk], slot.epoch);
      records := records[k := ticket];
      tickets := tickets[k := ticket];
      r := Reported(true);
    }

    method ApplyRebind(c: nat, i: nat, epoch: nat, disk: nat, ts: int) returns (r: Reply)
      modifies this`chunks, this`onDisk
      ensures var fence := RebindReject(old(View()), c, i, epoch);
              (if fence.Some? then View() == old(View()) && r == Rejected(fence.value)
               else View() == Rebind(old(View()), c, i, disk, ts) && r == Rebound(epoch + 1))
    {
      hide ShardPrefix;
      if c !in chunks || i !in chunks[c] {
        return Rejected(NotFound);
      }
      var slot := chunks[c][i];
      if slot.epoch != epoch || slot.epoch + 1 > MAX_SHARD_EPOCH {
        return Rejected(InvalidTransition);
      }
      var k := ShardPrefix(c, i);
      onDisk := onDisk[slot.disk := (if slot.disk in onDisk then onDisk[slot.disk] else {}) - {k}];
      onDisk := onDisk[disk := (if disk in onDisk then onDisk[disk] else {}) + {k}];
      var slots: map<nat, Slot> := chunks[c][i := Slot(disk, slot.epoch + 1, ts)];
      chunks := chunks[c := slots];
      r := Rebound(epoch + 1);
    }

    /** Some other slot of the chunk sits on the target's node. */
    method FindCollision(c: nat, i: nat, node: nat) returns (found: bool)
      ensures found <==> Collides(View(), c, i, node)
    {
      found := false;
      if c in chunks {
        var todo := chunks[c].Keys;
        while todo != {}
          invariant todo <= chunks[c].Keys
          invariant forall j | j in chunks[c] && j !in todo && j != i ::
                    !(chunks[c][j].disk in disks && disks[chunks[c][j].disk] == node)
        {
          var j :| j in todo;
          if j != i && chunks[c][j].disk in disks && disks[chunks[c][j].disk] == node {
            return true;
          }
          todo := todo - {j};
        }
      }
    }

    method ApplyReassign(c: nat, i: nat, epoch: nat, disk: nat, ts: int) returns (r: Reply)
      modifies this`chunks, this`onDisk
      ensures (View(), r) == Reassign(old(View()), c, i, epoch, disk, ts)
    {
      hide Rebind, Collides;
      if c in chunks {
        if disk !in disks {
          return Rejected(DiskUnavailable);
        }
        var collision := FindCollision(c, i, disks[disk]);
        if collision {
          return Rejected(AffinityViolation);
        }
      }
      r := ApplyRebind(c, i, epoch, disk, ts);
    }

    /** Ticket-authorized: an applied repair clears its ticket. */
    method ApplyCommitRepair(c: nat, i: nat, epoch: nat, disk: nat, ts: int, committer: nat) returns (r: Reply)
      requires records == tickets
      modifies this
      ensures (View(), r) == Repairing(old(View()), c, i, epoch, disk, ts, committer)
      ensures records == tickets
    {
      hide Reassign, ShardPrefix;
      var k := ShardPrefix(c, i);
      if k !in tickets || tickets[k].target != committer || tickets[k].epoch != epoch {
        return Rejected(NotFound);
      }
      r := ApplyReassign(c, i, epoch, disk, ts);
      if r.Rebound? {
        records := records - {k};
        tickets := tickets - {k};
      }
    }

    /** Job-authorized: the ticket registry is not consulted and not cleared. */
    method ApplyCommitMapping(c: nat, i: nat, epoch: nat, disk: nat, ts: int, authorized: bool) returns (r: Reply)
      modifies this`chunks, this`onDisk
      ensures (View(), r) == Mapping(old(View()), c, i, epoch, disk, ts, authorized)
    {
      hide Reassign;
      if !authorized {
        return Rejected(NotFound);
      }
      r := ApplyReassign(c, i, epoch, disk, ts);
    }

    /** Tickets are rebuilt from their records, keyed by the slot each names. */
    method Restore()
      requires Keyed(records)
      modifies this`tickets
      ensures tickets == records
    {
      hide ShardPrefix;
      tickets := map[];
      var todo := records.Keys;
      while todo != {}
        invariant todo <= records.Keys
        invariant tickets == map k | k in records && k !in todo :: records[k]
      {
        var k :| k in todo;
        tickets := tickets[ShardPrefix(records[k].chunk, records[k].index) := records[k]];
        todo := todo - {k};
      }
    }
  }
}
