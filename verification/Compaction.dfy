/** One shard's extents on a data node: writes, deletes, compaction, reclamation, and crashes at
    any point (crates/epoch-store/src/compact.rs, index.rs, service.rs, scrub.rs, write.rs). */
module Compaction {
  import opened Bytes

  // ---------------------------------------------------------------- state

  /** A record of the self-describing extent stream. */
  datatype Record = Record(blob: nat, body: Bytes)

  datatype Status = Writable | Full | Sealed | Dropped | Rebuilding

  /** Extent metadata; `size` counts committed records. */
  datatype Meta = Meta(status: Status, size: nat)

  datatype Entry = Entry(at: nat, tombstone: bool)

  datatype Idx = Idx(metas: map<nat, Meta>, binding: Option<nat>, blobs: map<nat, map<nat, Entry>>)

  type Files = map<nat, seq<Record>>

  /** Where a compaction or a reclamation stands between two durable steps. */
  datatype Phase =
    | Idle
    | Paused(src: nat, dest: nat, live: set<nat>)
    | FileMade(src: nat, dest: nat, live: set<nat>)
    | Copying(src: nat, dest: nat, live: set<nat>, todo: set<nat>)
    | Appended(src: nat, dest: nat, live: set<nat>, todo: set<nat>, blob: nat)
    | Retiring(extent: nat)
    | Trashed(extent: nat)

  /** Extent files, the index as the process sees it, and the index as a crash would leave it. */
  datatype Store = Store(files: Files, index: Idx, synced: Idx, phase: Phase)

  function Entries(ix: Idx, e: nat): map<nat, Entry> {
    if e in ix.blobs then ix.blobs[e] else map[]
  }

  /** Reading a blob through one extent. */
  function Read(files: Files, ix: Idx, e: nat, b: nat): Option<Bytes> {
    if e !in files || b !in Entries(ix, e) then None
    else
      var entry := Entries(ix, e)[b];
      if entry.tombstone || entry.at >= |files[e]| then None else Some(files[e][entry.at].body)
  }

  /** Reading a blob through the shard's binding. */
  function Lookup(files: Files, ix: Idx, b: nat): Option<Bytes> {
    if ix.binding.None? then None else Read(files, ix, ix.binding.value, b)
  }

  function Get(live: map<nat, Bytes>, b: nat): Option<Bytes> {
    if b in live then Some(live[b]) else None
  }

  // ---------------------------------------------------------------- steps

  datatype Step =
    | Write(blob: nat, body: Bytes)
    | StrayAppend(rec: Record)
    | Delete(blob: nat)
    | Pause(dest: nat)
    | MakeFile
    | PutMeta
    | Append(blob: nat)
    | Commit
    | Swap
    | Reclaim(target: nat)
    | Sweep(target: nat)
    | Trash
    | Remove
    | Crash(kept: bool)

  function Sync(s: Store, ix: Idx): Store {
    s.(index := ix, synced := ix)
  }

  function WithStatus(ix: Idx, e: nat, status: Status): Idx
    requires e in ix.metas
  {
    ix.(metas := ix.metas[e := ix.metas[e].(status := status)])
  }

  function WithEntry(ix: Idx, e: nat, b: nat, entry: Entry): Idx {
    ix.(blobs := ix.blobs[e := Entries(ix, e)[b := entry]])
  }

  /** `commit_blob`: the entry and the advanced size, in one synced batch. */
  function Committed(ix: Idx, e: nat, b: nat, at: nat): Idx
    requires e in ix.metas
  {
    WithEntry(ix, e, b, Entry(at, false)).(metas := ix.metas[e := ix.metas[e].(size := at + 1)])
  }

  /** `tombstone_blob`: nothing to do when the entry is absent or already marked. */
  function Tombstoned(ix: Idx, e: nat, b: nat): Idx {
    if b !in Entries(ix, e) then ix else WithEntry(ix, e, b, Entries(ix, e)[b].(tombstone := true))
  }

  /** Entries of the destination with every tombstone of the source carried over. */
  function Carried(src: map<nat, Entry>, dest: map<nat, Entry>): map<nat, Entry> {
    map b | b in dest :: if b in src && src[b].tombstone then dest[b].(tombstone := true) else dest[b]
  }

  /** The compaction commit point: rebind, drop the source, carry its tombstones. */
  function Swapped(ix: Idx, src: nat, dest: nat): Idx
    requires src in ix.metas
  {
    WithStatus(ix, src, Dropped).(
      binding := Some(dest),
      blobs := ix.blobs[dest := Carried(Entries(ix, src), Entries(ix, dest))])
  }

  function Removed(ix: Idx, e: nat): Idx {
    ix.(metas := ix.metas - {e}, blobs := ix.blobs - {e})
  }

  function LiveBlobs(ix: Idx, e: nat): set<nat> {
    set b | b in Entries(ix, e) && !Entries(ix, e)[b].tombstone
  }

  predicate IsOrphan(ix: Idx, e: nat) {
    e in ix.metas && ix.metas[e].status != Dropped && ix.binding != Some(e)
  }

  /** What scrub retires: dropped extents, and extents no shard is bound to. */
  predicate Reclaimable(ix: Idx, e: nat) {
    e in ix.metas && (ix.metas[e].status == Dropped || IsOrphan(ix, e))
  }

  /** The file goes to the trash and the index entries go in a synced batch. */
  function Reclaimed(s: Store, e: nat): Store {
    Sync(s.(files := s.files - {e}), Removed(s.index, e))
  }

  /** The extent is the destination of the compaction under way. */
  predicate IsDest(s: Store, e: nat) {
    (s.phase.Copying? || s.phase.Appended?) && s.phase.dest == e
  }

  /** No blob is left to append before the swap. */
  predicate LastLeg(s: Store) {
    (s.phase.Copying? && s.phase.todo == {}) || (s.phase.Appended? && s.phase.todo == {s.phase.blob})
  }

  /** How a compaction goes on once its destination was reclaimed. A commit under way still stores
      its entry; the next append finds no metadata and gives up; the swap asks for none. */
  function WithoutDest(s: Store): Store
    requires s.phase.Copying? || s.phase.Appended?
  {
    var ix := if s.phase.Appended? then WithEntry(s.index, s.phase.dest, s.phase.blob, Entry(0, false)) else s.index;
    if LastLeg(s) && s.phase.src in ix.metas
    then Sync(s, Swapped(ix, s.phase.src, s.phase.dest)).(phase := Retiring(s.phase.src))
    else Sync(s, ix).(phase := Idle)
  }

  /** `writable_gate`: a repair target takes rebuilt blobs as a writable extent takes new ones. */
  predicate AcceptsWrites(status: Status) {
    status.Writable? || status.Rebuilding?
  }

  /** A write asks only for a bound extent that takes writes, whatever else goes on; deletes wait only
      for the commit point. */
  predicate Enabled(s: Store, step: Step) {
    match step
    case Write(b, body) => s.index.binding.Some? && s.index.binding.value in s.index.metas
                           && AcceptsWrites(s.index.metas[s.index.binding.value].status)
                           && s.index.binding.value in s.files
    case StrayAppend(rec) => s.phase.Idle? && s.index.binding.Some? && s.index.binding.value in s.files
    case Delete(b) => s.index.binding.Some?
    case Pause(dest) => s.phase.Idle? && s.index.binding.Some? && s.index.binding.value in s.index.metas
                        && s.index.metas[s.index.binding.value].status in {Writable, Full}
                        && dest !in s.files && dest !in s.index.metas && dest !in s.index.blobs
    case MakeFile => s.phase.Paused?
    case PutMeta => s.phase.FileMade?
    case Append(b) => s.phase.Copying? && b in s.phase.todo && s.phase.dest in s.files && s.phase.src in s.files
                      && b in Entries(s.index, s.phase.src)
                      && Entries(s.index, s.phase.src)[b].at < |s.files[s.phase.src]|
    case Commit => s.phase.Appended? && s.phase.dest in s.files && s.files[s.phase.dest] != []
        && s.phase.dest in s.index.metas
    case Swap => s.phase.Copying? && s.phase.todo == {} && s.phase.src in s.index.metas
    case Reclaim(e) => s.phase.Idle? && Reclaimable(s.index, e)
    case Sweep(e) => Reclaimable(s.index, e)
    case Trash => s.phase.Retiring?
    case Remove => s.phase.Trashed?
    case Crash(_) => true
  }

  ghost function Next(s: Store, step: Step): Store
    requires Enabled(s, step)
  {
    match step
    case Write(b, body) =>
      var e := s.index.binding.value;
      if b in Entries(s.index, e) then s
      else Sync(s.(files := s.files[e := s.files[e] + [Record(b, body)]]), Committed(s.index, e, b, |s.files[e]|))
    case StrayAppend(rec) =>
      var e := s.index.binding.value;
      s.(files := s.files[e := s.files[e] + [rec]])
    case Delete(b) =>
      var after := Tombstoned(s.index, s.index.binding.value, b);
      if after == s.index then s else Sync(s, after)
    case Pause(dest) =>
      var src := s.index.binding.value;
      Sync(s, WithStatus(s.index, src, Full)).(phase := Paused(src, dest, LiveBlobs(s.index, src)))
    case MakeFile =>
      s.(files := s.files[s.phase.dest := []], phase := FileMade(s.phase.src, s.phase.dest, s.phase.live))
    case PutMeta =>
      s.(index := s.index.(metas := s.index.metas[s.phase.dest := Meta(Writable, 0)]),
         phase := Copying(s.phase.src, s.phase.dest, s.phase.live, s.phase.live))
    case Append(b) =>
      var body := s.files[s.phase.src][Entries(s.index, s.phase.src)[b].at].body;
      s.(files := s.files[s.phase.dest := s.files[s.phase.dest] + [Record(b, body)]],
         phase := Appended(s.phase.src, s.phase.dest, s.phase.live, s.phase.todo, b))
    case Commit =>
      Sync(s, Committed(s.index, s.phase.dest, s.phase.blob, |s.files[s.phase.dest]| - 1))
        .(phase := Copying(s.phase.src, s.phase.dest, s.phase.live, s.phase.todo - {s.phase.blob}))
    case Swap => Sync(s, Swapped(s.index, s.phase.src, s.phase.dest)).(phase := Retiring(s.phase.src))
    case Reclaim(e) => s.(phase := Retiring(e))
    case Sweep(e) => if IsDest(s, e) then WithoutDest(Reclaimed(s, e)) else Reclaimed(s, e)
    case Trash => s.(files := s.files - {s.phase.extent}, phase := Trashed(s.phase.extent))
    case Remove => Sync(s, Removed(s.index, s.phase.extent)).(phase := Idle)
    case Crash(kept) => Reopened(s.files, if kept then s.index else s.synced)
  }

  // ---------------------------------------------------------------- restart

  /** Index entries derived from a record stream; a repeated blob resolves to its last record. */
  function Rebuilt(stream: seq<Record>): map<nat, Entry> {
    if stream == [] then map[]
    else Rebuilt(stream[..|stream| - 1])[stream[|stream| - 1].blob := Entry(|stream| - 1, false)]
  }

  /** What a record stream says was stored. */
  function Contents(stream: seq<Record>): map<nat, Bytes> {
    if stream == [] then map[]
    else Contents(stream[..|stream| - 1])[stream[|stream| - 1].blob := stream[|stream| - 1].body]
  }

  /** `install_extent`: metadata, entries and the shard binding together. */
  function Installed(ix: Idx, e: nat, stream: seq<Record>): Idx {
    Idx(ix.metas[e := Meta(Writable, |stream|)], Some(e), ix.blobs[e := Entries(ix, e) + Rebuilt(stream)])
  }

  predicate Unindexed(files: Files, ix: Idx, e: nat) {
    e in files && e !in ix.metas
  }

  /** Files with metadata are cut back to their committed size; the file without (there is never
      more than one) is rebuilt from its records. */
  ghost function Reopened(files: Files, ix: Idx): Store {
    var after := if lost :| Unindexed(files, ix, lost) then Installed(ix, lost, files[lost]) else ix;
    Store(CutBack(files, ix), after, after, Idle)
  }

  function CutBack(files: Files, ix: Idx): Files {
    CutExcept(files, ix, {})
  }

  /** Files already reconciled, with those of `todo` still as they were. */
  function CutExcept(files: Files, ix: Idx, todo: set<nat>): Files {
    map e | e in files :: if e in todo then files[e] else CutOne(ix, e, files[e])
  }

  function CutOne(ix: Idx, e: nat, stream: seq<Record>): seq<Record> {
    if e in ix.metas && ix.metas[e].size < |stream| then stream[..ix.metas[e].size] else stream
  }

  // ---------------------------------------------------------------- what every step keeps

  /** Every entry of the extent names a committed record of its own blob. */
  ghost predicate Sound(files: Files, ix: Idx, e: nat) {
    && e in files && e in ix.metas && ix.metas[e].size <= |files[e]|
    && forall b | b in Entries(ix, e) ::
        Entries(ix, e)[b].at < ix.metas[e].size && files[e][Entries(ix, e)[b].at].blob == b
  }

  /** Reading through the extent gives exactly the live blobs. */
  ghost predicate Holds(files: Files, ix: Idx, e: nat, live: map<nat, Bytes>) {
    forall b :: Read(files, ix, e, b) == Get(live, b)
  }

  ghost predicate Serving(s: Store, live: map<nat, Bytes>) {
    && s.index.binding.Some?
    && Sound(s.files, s.index, s.index.binding.value)
    && s.index.metas[s.index.binding.value].status != Dropped
    && Holds(s.files, s.index, s.index.binding.value, live)
  }

  ghost predicate Fresh(s: Store, dest: nat) {
    dest !in s.index.metas && dest !in s.index.blobs
  }

  /** Copied entries are live and hold the source's own bytes. */
  ghost predicate Copied(s: Store, src: nat, dest: nat, done: set<nat>) {
    && Sound(s.files, s.index, dest)
    && Entries(s.index, dest).Keys == done
    && done <= Entries(s.index, src).Keys
    && forall b | b in done :: SameBody(s, src, dest, b)
  }

  ghost predicate SameBody(s: Store, src: nat, dest: nat, b: nat) {
    && src in s.files && dest in s.files && b in Entries(s.index, src) && b in Entries(s.index, dest)
    && Entries(s.index, src)[b].at < |s.files[src]| && Entries(s.index, dest)[b].at < |s.files[dest]|
    && !Entries(s.index, dest)[b].tombstone
    && s.files[dest][Entries(s.index, dest)[b].at].body == s.files[src][Entries(s.index, src)[b].at].body
  }

  /** The source is bound, closed to writes, and holds what is still to be copied. */
  ghost predicate Planned(s: Store, src: nat, dest: nat, snapshot: set<nat>, live: map<nat, Bytes>) {
    && s.index.binding == Some(src) && dest != src
    && src in s.index.metas && s.index.metas[src].status == Full
    && live.Keys <= snapshot <= Entries(s.index, src).Keys
  }

  ghost predicate PhaseOk(s: Store, live: map<nat, Bytes>) {
    match s.phase
    case Idle => true
    case Paused(src, dest, snapshot) =>
      Planned(s, src, dest, snapshot, live) && Fresh(s, dest) && dest !in s.files
    case FileMade(src, dest, snapshot) =>
      Planned(s, src, dest, snapshot, live) && Fresh(s, dest) && dest in s.files && s.files[dest] == []
    case Copying(src, dest, snapshot, todo) =>
      Planned(s, src, dest, snapshot, live) && todo <= snapshot && Copied(s, src, dest, snapshot - todo)
      && s.index.metas[dest] == Meta(Writable, |s.files[dest]|)
    case Appended(src, dest, snapshot, todo, b) =>
      Planned(s, src, dest, snapshot, live) && todo <= snapshot && Copied(s, src, dest, snapshot - todo)
      && b in todo && s.files[dest] != [] && s.index.metas[dest] == Meta(Writable, |s.files[dest]| - 1)
      && s.files[dest][|s.files[dest]| - 1].blob == b && src in s.files
      && b in Entries(s.index, src) && Entries(s.index, src)[b].at < |s.files[src]|
      && s.files[dest][|s.files[dest]| - 1].body == s.files[src][Entries(s.index, src)[b].at].body
    case Retiring(e) => s.index.binding != Some(e)
    case Trashed(e) => s.index.binding != Some(e) && e !in s.files
  }

  /** The destination's metadata is written without a sync, so until the next synced batch a
      crash may forget it. */
  predicate Unsynced(s: Store) {
    (s.phase.Copying? || s.phase.Appended?) && s.phase.dest !in s.synced.metas
  }

  ghost predicate SyncedOk(s: Store) {
    if Unsynced(s) then s.phase.dest in s.index.metas && s.phase.dest !in s.synced.blobs
                        && s.index == s.synced.(metas := s.synced.metas[s.phase.dest := s.index.metas[s.phase.dest]])
    else s.index == s.synced
  }

  ghost predicate FilesOk(s: Store) {
    forall e | e in s.files :: e in s.index.metas || (s.phase.FileMade? && e == s.phase.dest)
  }

  ghost predicate Inv(s: Store, live: map<nat, Bytes>) {
    Serving(s, live) && PhaseOk(s, live) && SyncedOk(s) && FilesOk(s)
  }

  /** The abstract shard: a map from blob to body. Only writes and deletes change it. */
  function Spec(s: Store, live: map<nat, Bytes>, step: Step): map<nat, Bytes> {
    match step
    case Write(b, body) =>
      if s.index.binding.Some? && b in Entries(s.index, s.index.binding.value) then live else live[b := body]
    case Delete(b) => live - {b}
    case _ => live
  }

  lemma ServingFrame(s: Store, t: Store, live: map<nat, Bytes>)
    requires Serving(s, live) && t.index.binding == s.index.binding
    requires var e := s.index.binding.value;
             && e in t.files && t.files[e] == s.files[e] && Entries(t.index, e) == Entries(s.index, e)
             && e in t.index.metas && t.index.metas[e].size == s.index.metas[e].size
             && t.index.metas[e].status != Dropped
    ensures Serving(t, live)
  {
    hide Entries;
    var e := s.index.binding.value;
    forall b ensures Read(t.files, t.index, e, b) == Get(live, b) {
      assert Read(s.files, s.index, e, b) == Get(live, b);
    }
  }

  lemma WriteKeeps(s: Store, live: map<nat, Bytes>, b: nat, body: Bytes)
    requires Inv(s, live) && Enabled(s, Write(b, body))
    ensures Inv(Next(s, Write(b, body)), Spec(s, live, Write(b, body)))
  {
    var e, t := s.index.binding.value, Next(s, Write(b, body));
    if b !in Entries(s.index, e) {
      assert Entries(t.index, e) == Entries(s.index, e)[b := Entry(|s.files[e]|, false)];
      forall x ensures Read(t.files, t.index, e, x) == Get(live[b := body], x) {
        assert Read(s.files, s.index, e, x) == Get(live, x);
      }
    }
  }

  lemma StrayAppendKeeps(s: Store, live: map<nat, Bytes>, rec: Record)
    requires Inv(s, live) && Enabled(s, StrayAppend(rec))
    ensures Inv(Next(s, StrayAppend(rec)), live)
  {
    var e, t := s.index.binding.value, Next(s, StrayAppend(rec));
    forall x ensures Read(t.files, t.index, e, x) == Get(live, x) {
      assert Read(s.files, s.index, e, x) == Get(live, x);
    }
  }

  lemma DeleteServes(s: Store, live: map<nat, Bytes>, b: nat)
    requires Inv(s, live)
    ensures Serving(Next(s, Delete(b)), live - {b})
  {
    var e, t := s.index.binding.value, Next(s, Delete(b));
    forall x ensures Read(t.files, t.index, e, x) == Get(live - {b}, x) {
      assert Read(s.files, s.index, e, x) == Get(live, x);
    }
  }

  /** A tombstone moves no record, so a half-made copy still matches its source. */
  lemma DeleteKeepsCopied(s: Store, b: nat, src: nat, dest: nat, done: set<nat>)
    requires s.index.binding == Some(src) && dest != src && Copied(s, src, dest, done)
    ensures Copied(Next(s, Delete(b)), src, dest, done)
  {
    var t := Next(s, Delete(b));
    assert Entries(t.index, dest) == Entries(s.index, dest);
    forall x | x in done ensures SameBody(t, src, dest, x) {
      assert SameBody(s, src, dest, x);
    }
  }

  lemma DeletePhase(s: Store, live: map<nat, Bytes>, b: nat)
    requires Inv(s, live) && Enabled(s, Delete(b))
    ensures PhaseOk(Next(s, Delete(b)), live - {b})
  {
    hide Holds, Copied, SyncedOk, FilesOk, Sound;
    var t, e := Next(s, Delete(b)), s.index.binding.value;
    assert t.phase == s.phase && t.files == s.files;
    assert t.index.metas == s.index.metas && t.index.binding == s.index.binding;
    assert forall x | x in Entries(s.index, e) ::
        x in Entries(t.index, e) && Entries(t.index, e)[x].at == Entries(s.index, e)[x].at;
    assert forall d | d !in s.index.blobs && d != e :: d !in t.index.blobs;
    hide Next;
    if s.phase.Copying? || s.phase.Appended? {
      DeleteKeepsCopied(s, b, s.phase.src, s.phase.dest, s.phase.live - s.phase.todo);
      CopiedHasMeta(s, s.phase.src, s.phase.dest, s.phase.live - s.phase.todo);
    }
  }

  lemma DeleteKeeps(s: Store, live: map<nat, Bytes>, b: nat)
    requires Inv(s, live) && Enabled(s, Delete(b))
    ensures Inv(Next(s, Delete(b)), live - {b})
  {
    DeleteServes(s, live, b);
    DeletePhase(s, live, b);
    hide Holds, Copied, Sound, Reopened, Planned, Serving, PhaseOk;
    if s.phase.Copying? || s.phase.Appended? {
      assert s.phase.dest in s.index.metas by { PhaseHasMeta(s, live); }
    }
  }

  lemma PhaseHasMeta(s: Store, live: map<nat, Bytes>)
    requires PhaseOk(s, live) && (s.phase.Copying? || s.phase.Appended?)
    ensures s.phase.dest in s.files && s.phase.dest in s.index.metas
  {
  }

  lemma CopiedHasMeta(s: Store, src: nat, dest: nat, done: set<nat>)
    requires Copied(s, src, dest, done)
    ensures dest in s.files && dest in s.index.metas
  {
  }

  lemma PauseKeeps(s: Store, live: map<nat, Bytes>, dest: nat)
    requires Inv(s, live) && Enabled(s, Pause(dest))
    ensures Inv(Next(s, Pause(dest)), live)
  {
    var src, t := s.index.binding.value, Next(s, Pause(dest));
    ServingFrame(s, t, live);
    forall b | b in live ensures b in LiveBlobs(s.index, src) {
      assert Read(s.files, s.index, src, b) == Get(live, b);
    }
  }

  lemma MakeFileKeeps(s: Store, live: map<nat, Bytes>)
    requires Inv(s, live) && Enabled(s, MakeFile)
    ensures Inv(Next(s, MakeFile), live)
  {
    hide Read, Holds;
    ServingFrame(s, Next(s, MakeFile), live);
  }

  lemma PutMetaKeeps(s: Store, live: map<nat, Bytes>)
    requires Inv(s, live) && Enabled(s, PutMeta)
    ensures Inv(Next(s, PutMeta), live)
  {
    hide Read, Holds;
    ServingFrame(s, Next(s, PutMeta), live);
  }

  lemma AppendKeepsCopied(s: Store, b: nat, src: nat, dest: nat, done: set<nat>)
    requires Enabled(s, Append(b)) && s.phase.src == src && s.phase.dest == dest != src && Copied(s, src, dest, done)
    ensures Copied(Next(s, Append(b)), src, dest, done)
  {
    var t := Next(s, Append(b));
    forall x | x in done ensures SameBody(t, src, dest, x) {
      assert SameBody(s, src, dest, x);
    }
  }

  lemma AppendKeeps(s: Store, live: map<nat, Bytes>, b: nat)
    requires Inv(s, live) && Enabled(s, Append(b))
    ensures Inv(Next(s, Append(b)), live)
  {
    hide Read, Holds, Copied;
    ServingFrame(s, Next(s, Append(b)), live);
    AppendKeepsCopied(s, b, s.phase.src, s.phase.dest, s.phase.live - s.phase.todo);
    CopiedHasMeta(s, s.phase.src, s.phase.dest, s.phase.live - s.phase.todo);
  }

  lemma CommitCopies(s: Store, live: map<nat, Bytes>)
    requires PhaseOk(s, live) && Enabled(s, Commit)
    ensures Copied(Next(s, Commit), s.phase.src, s.phase.dest, s.phase.live - (s.phase.todo - {s.phase.blob}))
    ensures Sound(Next(s, Commit).files, Next(s, Commit).index, s.phase.dest)
  {
    var t, src, dest, b := Next(s, Commit), s.phase.src, s.phase.dest, s.phase.blob;
    var done := s.phase.live - s.phase.todo;
    assert Entries(t.index, dest) == Entries(s.index, dest)[b := Entry(|s.files[dest]| - 1, false)];
    assert Entries(t.index, src) == Entries(s.index, src);
    assert s.phase.live - (s.phase.todo - {b}) == done + {b};
    forall x | x in done + {b} ensures SameBody(t, src, dest, x) {
      assert x in done ==> SameBody(s, src, dest, x);
    }
  }

  /** A commit into the destination touches nothing else. */
  lemma CommitFrame(s: Store)
    requires Enabled(s, Commit)
    ensures var t, dest := Next(s, Commit), s.phase.dest;
            && t.files == s.files && t.index.binding == s.index.binding && dest in t.index.metas
            && t.synced == t.index
            && t.phase == Copying(s.phase.src, dest, s.phase.live, s.phase.todo - {s.phase.blob})
            && t.index.metas == s.index.metas[dest := t.index.metas[dest]]
            && forall x | x != dest :: Entries(t.index, x) == Entries(s.index, x)
  {
  }

  lemma CommitKeeps(s: Store, live: map<nat, Bytes>)
    requires Inv(s, live) && Enabled(s, Commit)
    ensures Inv(Next(s, Commit), live)
  {
    CommitCopies(s, live);
    CommitPhase(s, live);
    CommitServes(s, live);
    CommitFrame(s);
    hide Next, Serving, Copied, Planned, Entries;
  }

  lemma CommitServes(s: Store, live: map<nat, Bytes>)
    requires Serving(s, live) && PhaseOk(s, live) && Enabled(s, Commit)
    ensures Serving(Next(s, Commit), live)
  {
    CommitFrame(s);
    ServingHasFile(s, live);
    hide Read, Holds, Copied, Reopened, Sound, SameBody, Next, Entries;
    ServingFrame(s, Next(s, Commit), live);
  }

  lemma CommitPhase(s: Store, live: map<nat, Bytes>)
    requires Inv(s, live) && Enabled(s, Commit)
    ensures Planned(Next(s, Commit), s.phase.src, s.phase.dest, s.phase.live, live)
    ensures Next(s, Commit).index.metas[s.phase.dest] == Meta(Writable, |s.files[s.phase.dest]|)
  {
    hide Read, Holds, Copied, Reopened, Sound, SyncedOk, FilesOk;
    assert Entries(Next(s, Commit).index, s.phase.src) == Entries(s.index, s.phase.src);
  }

  /** At the commit point the copy minus the carried tombstones is the source's live set. */
  lemma SwapServes(s: Store, live: map<nat, Bytes>)
    requires Inv(s, live) && Enabled(s, Swap)
    ensures Serving(Next(s, Swap), live)
  {
    var t, src, dest := Next(s, Swap), s.phase.src, s.phase.dest;
    assert Entries(t.index, dest) == Carried(Entries(s.index, src), Entries(s.index, dest));
    assert s.phase.live - s.phase.todo == s.phase.live;
    forall b ensures Read(t.files, t.index, dest, b) == Get(live, b) {
      SwapReads(s, live, b);
    }
    hide SyncedOk, FilesOk, Holds, SameBody, Get;
    assert Holds(t.files, t.index, dest, live) by { HoldsAll(t.files, t.index, dest, live); }
  }

  lemma HoldsAll(files: Files, ix: Idx, e: nat, live: map<nat, Bytes>)
    requires forall b :: Read(files, ix, e, b) == Get(live, b)
    ensures Holds(files, ix, e, live)
  {
  }

  lemma SwapReads(s: Store, live: map<nat, Bytes>, b: nat)
    requires Inv(s, live) && Enabled(s, Swap)
    ensures Read(Next(s, Swap).files, Next(s, Swap).index, s.phase.dest, b) == Get(live, b)
  {
    hide SyncedOk, FilesOk;
    var t, src, dest := Next(s, Swap), s.phase.src, s.phase.dest;
    assert Entries(t.index, dest) == Carried(Entries(s.index, src), Entries(s.index, dest));
    assert s.phase.live - s.phase.todo == s.phase.live;
    assert Read(s.files, s.index, src, b) == Get(live, b);
    assert b in s.phase.live ==> SameBody(s, src, dest, b);
  }

  lemma SwapKeeps(s: Store, live: map<nat, Bytes>)
    requires Inv(s, live) && Enabled(s, Swap)
    ensures Inv(Next(s, Swap), live)
  {
    hide Read, Holds, Sound, SameBody, Carried;
    SwapServes(s, live);
  }

  lemma RetireKeeps(s: Store, live: map<nat, Bytes>, step: Step)
    requires Inv(s, live) && Enabled(s, step) && (step.Reclaim? || step.Trash? || step.Remove?)
    ensures Inv(Next(s, step), live)
  {
    hide Read, Holds, Sound;
    ServingHasFile(s, live);
    ServingFrame(s, Next(s, step), live);
  }

  lemma ServingHasFile(s: Store, live: map<nat, Bytes>)
    requires Serving(s, live)
    ensures s.index.binding.value in s.files && s.index.binding.value in s.index.metas
  {
  }

  // ---------------------------------------------------------------- sweeps

  lemma ReclaimedServes(s: Store, live: map<nat, Bytes>, e: nat)
    requires Serving(s, live) && Reclaimable(s.index, e)
    ensures Serving(Reclaimed(s, e), live)
  {
    hide Read, Holds, Sound;
    ServingHasFile(s, live);
    ServingFrame(s, Reclaimed(s, e), live);
  }

  lemma ReclaimedKeepsCopied(s: Store, e: nat, src: nat, dest: nat, done: set<nat>)
    requires Copied(s, src, dest, done) && e != src && e != dest
    ensures Copied(Reclaimed(s, e), src, dest, done)
  {
    var t := Reclaimed(s, e);
    assert Entries(t.index, dest) == Entries(s.index, dest) && Entries(t.index, src) == Entries(s.index, src);
    forall x | x in done ensures SameBody(t, src, dest, x) {
      assert SameBody(s, src, dest, x);
    }
  }

  /** In every phase, reclaiming anything but the destination being filled changes nothing. */
  lemma ReclaimedKeeps(s: Store, live: map<nat, Bytes>, e: nat)
    requires Inv(s, live) && Reclaimable(s.index, e) && !IsDest(s, e)
    ensures Inv(Reclaimed(s, e), live)
  {
    hide Read, Holds, Sound, Copied;
    ReclaimedServes(s, live, e);
    if s.phase.Copying? || s.phase.Appended? {
      PhaseHasMeta(s, live);
      ReclaimedKeepsCopied(s, e, s.phase.src, s.phase.dest, s.phase.live - s.phase.todo);
    }
  }

  /** With a blob still to append, losing the destination only makes the compaction give up. */
  lemma AbandonedKeeps(s: Store, live: map<nat, Bytes>)
    requires Inv(s, live) && (s.phase.Copying? || s.phase.Appended?) && !LastLeg(s)
    requires Reclaimable(s.index, s.phase.dest)
    ensures Inv(WithoutDest(Reclaimed(s, s.phase.dest)), live)
  {
    hide Read, Holds, Sound, Copied;
    var r := Reclaimed(s, s.phase.dest);
    ReclaimedServes(s, live, s.phase.dest);
    ServingHasFile(r, live);
    ServingFrame(r, WithoutDest(r), live);
  }

  lemma SweepKeeps(s: Store, live: map<nat, Bytes>, e: nat)
    requires Inv(s, live) && Enabled(s, Sweep(e)) && (IsDest(s, e) ==> !LastLeg(s))
    ensures Inv(Next(s, Sweep(e)), live)
  {
    hide Inv, Reclaimed, WithoutDest, Reclaimable, LastLeg;
    if IsDest(s, e) {
      AbandonedKeeps(s, live);
    } else {
      ReclaimedKeeps(s, live, e);
    }
  }

  /** The orphan test matches a destination that is still being filled: reclaimed when nothing is
      left to append, the shard ends up bound to nothing. */
  lemma LastLegLosesShard(s: Store, live: map<nat, Bytes>, b: nat)
    requires Inv(s, live) && LastLeg(s)
    ensures Enabled(s, Sweep(s.phase.dest))
    ensures Lookup(Next(s, Sweep(s.phase.dest)).files, Next(s, Sweep(s.phase.dest)).index, b) == None
  {
    hide Holds, Reopened;
  }

  /** What becomes of a compaction whose destination is swept: with a blob still to append it gives up
      and the shard stays on the source; with none it swaps to an extent that is no longer there. */
  lemma SweptCopyGoesOn(s: Store, live: map<nat, Bytes>)
    requires Inv(s, live) && (s.phase.Copying? || s.phase.Appended?)
    ensures var t, left := Next(s, Sweep(s.phase.dest)),
                           s.phase.todo - if s.phase.Appended? then {s.phase.blob} else {};
            && s.phase.dest !in t.files && s.phase.dest !in t.index.metas && s.phase.src in t.index.metas
            && (left != {} ==> t.phase == Idle && t.index.binding == Some(s.phase.src))
            && (left == {} ==>
                  && t.phase == Retiring(s.phase.src) && t.index.binding == Some(s.phase.dest)
                  && t.index.metas[s.phase.src].status == Dropped)
            && (s.phase.Appended? ==> s.phase.blob in Entries(t.index, s.phase.dest))
  {
    hide Holds, Reopened, SameBody, Read;
  }

  /** Whenever a sweep comes, it leaves every read as it was if and only if it does not take the
      destination of a compaction with nothing left to append, or the shard holds nothing. */
  lemma SweepIsSafeIff(s: Store, live: map<nat, Bytes>, e: nat)
    requires Inv(s, live) && Enabled(s, Sweep(e))
    ensures (forall b :: Lookup(Next(s, Sweep(e)).files, Next(s, Sweep(e)).index, b) == Get(live, b))
            <==> || live == map[]
                 || (&& !(s.phase.Copying? && s.phase.dest == e && s.phase.todo == {})
                     && !(s.phase.Appended? && s.phase.dest == e && s.phase.todo == {s.phase.blob}))
  {
    hide Inv, Next, Reclaimable, Lookup;
    if IsDest(s, e) && LastLeg(s) {
      forall b ensures Lookup(Next(s, Sweep(e)).files, Next(s, Sweep(e)).index, b) == None {
        LastLegLosesShard(s, live, b);
      }
      if live != map[] {
        var b :| b in live;
        assert Get(live, b) != None;
      }
    } else {
      SweepKeeps(s, live, e);
      InvServes(Next(s, Sweep(e)), live);
      ServingLooksUp(Next(s, Sweep(e)), live);
    }
  }

  // ---------------------------------------------------------------- crashes

  lemma {:induction false} RebuiltReads(stream: seq<Record>, b: nat)
    ensures b in Rebuilt(stream) <==> b in Contents(stream)
    ensures b in Rebuilt(stream) ==>
      var entry := Rebuilt(stream)[b];
      && entry.at < |stream| && !entry.tombstone
      && stream[entry.at] == Record(b, Contents(stream)[b])
  {
    if stream != [] {
      RebuiltReads(stream[..|stream| - 1], b);
    }
  }

  /** The crash falls between creating the destination file and making its metadata durable. */
  predicate Forgets(s: Store, kept: bool) {
    s.phase.FileMade? || (Unsynced(s) && !kept)
  }

  lemma InstalledServes(files: Files, ix: Idx, dest: nat)
    requires dest in files && dest !in ix.metas && dest !in ix.blobs
    ensures Serving(Store(CutBack(files, ix), Installed(ix, dest, files[dest]), Installed(ix, dest, files[dest]), Idle),
                    Contents(files[dest]))
  {
    var after := Installed(ix, dest, files[dest]);
    assert Entries(after, dest) == Rebuilt(files[dest]);
    forall b ensures Read(CutBack(files, ix), after, dest, b) == Get(Contents(files[dest]), b) {
      RebuiltReads(files[dest], b);
    }
    forall b | b in Rebuilt(files[dest])
      ensures Rebuilt(files[dest])[b].at < |files[dest]| && files[dest][Rebuilt(files[dest])[b].at].blob == b
    {
      RebuiltReads(files[dest], b);
    }
  }

  /** In that window the restart rebuilds the destination and binds the shard to it. */
  lemma CrashRebinds(s: Store, live: map<nat, Bytes>, kept: bool)
    requires Inv(s, live) && Forgets(s, kept)
    ensures s.phase.dest in s.files && Inv(Next(s, Crash(kept)), Contents(s.files[s.phase.dest]))
  {
    hide Read, Holds, Rebuilt, Contents, Copied, Sound;
    var ix, dest := if kept then s.index else s.synced, s.phase.dest;
    if Unsynced(s) {
      CopiedHasMeta(s, s.phase.src, dest, s.phase.live - s.phase.todo);
    }
    assert dest in s.files && dest !in ix.metas && dest !in ix.blobs;
    forall e | Unindexed(s.files, ix, e) ensures e == dest {}
    assert Unindexed(s.files, ix, dest);
    InstalledServes(s.files, ix, dest);
    var rebuilt := Installed(ix, dest, s.files[dest]);
    assert Next(s, Crash(kept)) == Store(CutBack(s.files, ix), rebuilt, rebuilt, Idle);
  }

  lemma CrashElsewhereKeeps(s: Store, live: map<nat, Bytes>, kept: bool)
    requires Inv(s, live) && !Forgets(s, kept)
    ensures Inv(Next(s, Crash(kept)), live)
  {
    hide Rebuilt, Contents, Copied, Planned;
    var t, e := Next(s, Crash(kept)), s.index.binding.value;
    assert (if kept then s.index else s.synced) == s.index;
    assert t == Store(CutBack(s.files, s.index), s.index, s.index, Idle);
    forall b ensures Read(t.files, t.index, e, b) == Get(live, b) {
      assert Read(s.files, s.index, e, b) == Get(live, b);
      CutReads(s.files, s.index, e, b);
    }
    hide Read, PhaseOk, SameBody;
  }

  /** Cutting files back to their committed size leaves every indexed record readable. */
  lemma CutReads(files: Files, ix: Idx, e: nat, b: nat)
    requires Sound(files, ix, e)
    ensures Read(CutBack(files, ix), ix, e, b) == Read(files, ix, e, b)
  {
  }

  /** A crash and restart lose and resurrect nothing, unless the destination file existed without
      durable metadata and its records are not exactly the live blobs. */
  lemma CrashIsSafeIff(s: Store, live: map<nat, Bytes>, kept: bool)
    requires Inv(s, live)
    ensures (forall b :: Lookup(Next(s, Crash(kept)).files, Next(s, Crash(kept)).index, b) == Get(live, b))
            <==> !Forgets(s, kept) || Contents(s.files[s.phase.dest]) == live
    ensures !Forgets(s, kept) || Contents(s.files[s.phase.dest]) == live ==> Inv(Next(s, Crash(kept)), live)
  {
    hide Next, Read, Contents, PhaseOk, SyncedOk, FilesOk;
    var t := Next(s, Crash(kept));
    if Forgets(s, kept) {
      CrashRebinds(s, live, kept);
      var told := Contents(s.files[s.phase.dest]);
      assert forall b :: Lookup(t.files, t.index, b) == Get(told, b) by { ServingLooksUp(t, told); }
      if forall b :: Lookup(t.files, t.index, b) == Get(live, b) {
        forall b ensures Get(told, b) == Get(live, b) {
          assert Lookup(t.files, t.index, b) == Get(told, b);
        }
        SameGets(told, live);
      }
    } else {
      CrashElsewhereKeeps(s, live, kept);
      ServingLooksUp(t, live);
    }
  }

  lemma ServingLooksUp(s: Store, live: map<nat, Bytes>)
    requires Serving(s, live)
    ensures forall b :: Lookup(s.files, s.index, b) == Get(live, b)
  {
    hide Read, Get, Sound;
    forall b ensures Lookup(s.files, s.index, b) == Get(live, b) {
      assert Read(s.files, s.index, s.index.binding.value, b) == Get(live, b);
    }
  }

  lemma SameGets(a: map<nat, Bytes>, b: map<nat, Bytes>)
    requires forall x :: Get(a, x) == Get(b, x)
    ensures a == b
  {
    forall x | x in a ensures x in b && a[x] == b[x] {
      assert Get(a, x) == Get(b, x);
    }
    forall x | x in b ensures x in a {
      assert Get(a, x) == Get(b, x);
    }
  }

  // ---------------------------------------------------------------- every run

  /** Crashes in the window are taken only when they are harmless, and no sweep takes the
      destination on the last leg. */
  ghost predicate Allowed(s: Store, live: map<nat, Bytes>, step: Step) {
    && Enabled(s, step)
    && (step.Crash? && Forgets(s, step.kept) ==>
        s.phase.dest in s.files && Contents(s.files[s.phase.dest]) == live)
    && (step.Sweep? && IsDest(s, step.target) ==> !LastLeg(s))
  }

  ghost predicate Runs(s: Store, live: map<nat, Bytes>, steps: seq<Step>)
    decreases |steps|
  {
    steps == [] || (Allowed(s, live, steps[0]) && Runs(Next(s, steps[0]), Spec(s, live, steps[0]), steps[1..]))
  }

  ghost function Finally(s: Store, live: map<nat, Bytes>, steps: seq<Step>): (Store, map<nat, Bytes>)
    requires Runs(s, live, steps)
    decreases |steps|
  {
    if steps == [] then (s, live) else Finally(Next(s, steps[0]), Spec(s, live, steps[0]), steps[1..])
  }

  lemma StepKeeps(s: Store, live: map<nat, Bytes>, step: Step)
    requires Inv(s, live) && Allowed(s, live, step)
    ensures Inv(Next(s, step), Spec(s, live, step))
  {
    hide Inv, Next, Contents;
    match step {
      case Write(b, body) => WriteKeeps(s, live, b, body);
      case StrayAppend(rec) => StrayAppendKeeps(s, live, rec);
      case Delete(b) => DeleteKeeps(s, live, b);
      case Pause(dest) => PauseKeeps(s, live, dest);
      case MakeFile => MakeFileKeeps(s, live);
      case PutMeta => PutMetaKeeps(s, live);
      case Append(b) => AppendKeeps(s, live, b);
      case Commit => CommitKeeps(s, live);
      case Swap => SwapKeeps(s, live);
      case Reclaim(_) => RetireKeeps(s, live, step);
      case Trash => RetireKeeps(s, live, step);
      case Remove => RetireKeeps(s, live, step);
      case Sweep(e) => SweepKeeps(s, live, e);
      case Crash(kept) => CrashIsSafeIff(s, live, kept);
    }
  }

  /** Over every interleaving of writes, deletes, compactions, sweeps and crashes that are safe where
      they happen, a read returns exactly what the writes and deletes so far left. */
  lemma {:induction false} RunServesLive(s: Store, live: map<nat, Bytes>, steps: seq<Step>)
    requires Inv(s, live) && Runs(s, live, steps)
    ensures var (t, now) := Finally(s, live, steps);
            Inv(t, now) && forall b :: Lookup(t.files, t.index, b) == Get(now, b)
    decreases |steps|
  {
    hide Inv, Next, Enabled, Forgets, Spec, Lookup, Get;
    if steps == [] {
      assert Serving(s, live) by { InvServes(s, live); }
      ServingLooksUp(s, live);
    } else {
      StepKeeps(s, live, steps[0]);
      RunServesLive(Next(s, steps[0]), Spec(s, live, steps[0]), steps[1..]);
    }
  }

  lemma InvServes(s: Store, live: map<nat, Bytes>)
    requires Inv(s, live)
    ensures Serving(s, live)
  {
  }

  /** Whatever the shard holds is gone from it when the process dies right after the destination
      file is created. */
  lemma CrashInWindowLosesEverything(s: Store, live: map<nat, Bytes>, dest: nat, kept: bool, b: nat)
    requires Inv(s, live) && Enabled(s, Pause(dest))
    ensures var made := Next(Next(s, Pause(dest)), MakeFile);
            Inv(made, live) && Lookup(Next(made, Crash(kept)).files, Next(made, Crash(kept)).index, b) == None
  {
    hide Inv, Reopened, Lookup;
    PauseKeeps(s, live, dest);
    var paused := Next(s, Pause(dest));
    MakeFileKeeps(paused, live);
    var made := Next(paused, MakeFile);
    CrashRebinds(made, live, kept);
    assert made.files[dest] == [];
    InvServes(Next(made, Crash(kept)), map[]);
    ServingLooksUp(Next(made, Crash(kept)), map[]);
    assert Get(map[], b) == None;
  }

  /** Reclaiming step by step, first the file and then the index, ends where a sweep at one stroke does. */
  lemma ReclaimInSteps(s: Store, e: nat)
    requires Enabled(s, Reclaim(e))
    ensures var retiring := Next(s, Reclaim(e));
            && Enabled(retiring, Trash) && Enabled(Next(retiring, Trash), Remove)
            && Next(Next(retiring, Trash), Remove) == Next(s, Sweep(e))
            && e !in Next(s, Sweep(e)).files && !Reclaimable(Next(s, Sweep(e)).index, e)
  {
  }

  /** `reclaim_extent` can be run again after a crash anywhere inside it. */
  lemma ReclaimIsIdempotent(files: Files, ix: Idx, e: nat)
    ensures files - {e} - {e} == files - {e} && Removed(Removed(ix, e), e) == Removed(ix, e)
    ensures forall x, b | x != e :: Read(files - {e}, Removed(ix, e), x, b) == Read(files, ix, x, b)
  {
    assert files - {e} - {e} == files - {e};
  }

  // ---------------------------------------------------------------- every extent

  /** Bound or not, an extent with a file and metadata has entries for its own records only. */
  ghost predicate AllSound(s: Store) {
    forall e | e in s.files && e in s.index.metas :: Sound(s.files, s.index, e)
  }

  lemma OneExtentChanges(s: Store, t: Store, e: nat)
    requires AllSound(s) && (e in t.files && e in t.index.metas ==> Sound(t.files, t.index, e))
    requires forall x | x != e && x in t.files :: x in s.files && t.files[x] == s.files[x]
    requires forall x | x != e && x in t.index.metas ::
              x in s.index.metas && t.index.metas[x].size == s.index.metas[x].size
    requires forall x | x != e :: Entries(t.index, x) == Entries(s.index, x)
    ensures AllSound(t)
  {
    hide Entries;
    forall x | x in t.files && x in t.index.metas ensures Sound(t.files, t.index, x) {
      if x != e {
        assert Sound(s.files, s.index, x);
      }
    }
  }

  /** Opening the disk drops what was appended and never committed, and nothing else: every file is
      then a prefix of what it was, as long as its metadata says. */
  lemma ReopenCutsBack(files: Files, ix: Idx, e: nat)
    requires e in files && (e in ix.metas ==> Sound(files, ix, e))
    ensures var t := Reopened(files, ix);
            && t.files.Keys == files.Keys && t.files[e] <= files[e]
            && (e in t.index.metas ==> |t.files[e]| == t.index.metas[e].size)
  {
    hide Rebuilt;
  }

  /** Once swapped away an extent is dropped, and it stays so until it is removed: no write, compaction
      or restart takes it up again. */
  lemma DroppedStaysDropped(s: Store, live: map<nat, Bytes>, step: Step, e: nat)
    requires Inv(s, live) && Enabled(s, step)
    requires (step.Swap? && e == s.phase.src) || (e in s.index.metas && s.index.metas[e].status == Dropped)
    ensures var t := Next(s, step);
            (e in t.index.metas ==> t.index.metas[e].status == Dropped) && (step.Swap? ==> e in t.index.metas)
  {
    hide Holds, Copied, Sound, Rebuilt, Carried, FilesOk, Read, CutBack, LiveBlobs, SameBody, Entries;
  }

  /** Soundness of a cut or rebuilt file. */
  lemma ReopenedIsSound(files: Files, ix: Idx)
    requires forall e | e in files && e in ix.metas :: Sound(files, ix, e)
    requires forall e | Unindexed(files, ix, e) :: e !in ix.blobs
    ensures AllSound(Reopened(files, ix))
  {
    hide Rebuilt, Installed;
    var t := Reopened(files, ix);
    forall e | e in t.files && e in t.index.metas ensures Sound(t.files, t.index, e) {
      if e in ix.metas {
        assert Sound(files, ix, e);
        InstallLeavesAlone(files, ix, e);
      } else {
        LostIsSound(files, ix, e);
      }
    }
  }

  lemma InstallLeavesAlone(files: Files, ix: Idx, e: nat)
    requires e in files && e in ix.metas && Sound(files, ix, e)
    ensures Sound(Reopened(files, ix).files, Reopened(files, ix).index, e)
  {
    hide Rebuilt;
    assert Entries(Reopened(files, ix).index, e) == Entries(ix, e);
  }

  lemma LostIsSound(files: Files, ix: Idx, e: nat)
    requires Unindexed(files, ix, e) && e !in ix.blobs && e in Reopened(files, ix).index.metas
    ensures Sound(Reopened(files, ix).files, Reopened(files, ix).index, e)
  {
    var t := Reopened(files, ix);
    assert t.index == Installed(ix, e, files[e]);
    assert Entries(t.index, e) == Rebuilt(files[e]);
    forall b | b in Rebuilt(files[e])
      ensures Rebuilt(files[e])[b].at < |files[e]| && files[e][Rebuilt(files[e])[b].at].blob == b
    {
      RebuiltReads(files[e], b);
    }
  }

  lemma ClientKeepsAllSound(s: Store, live: map<nat, Bytes>, step: Step)
    requires Inv(s, live) && AllSound(s) && Enabled(s, step) && (step.Write? || step.StrayAppend? || step.Delete?)
    ensures AllSound(Next(s, step))
  {
    ClientIsSound(s, live, step);
    ClientFrame(s, step);
    hide Next, Inv, Sound, Entries;
    OneExtentChanges(s, Next(s, step), s.index.binding.value);
  }

  lemma ClientIsSound(s: Store, live: map<nat, Bytes>, step: Step)
    requires Inv(s, live) && Enabled(s, step) && (step.Write? || step.StrayAppend? || step.Delete?)
    ensures Sound(Next(s, step).files, Next(s, step).index, s.index.binding.value)
  {
    hide Sound, Holds, PhaseOk, Entries;
    match step
    case Write(b, body) => WriteKeeps(s, live, b, body);
    case StrayAppend(rec) => StrayAppendKeeps(s, live, rec);
    case Delete(b) => DeleteServes(s, live, b);
  }

  /** Writes and deletes touch the bound extent alone. */
  lemma ClientFrame(s: Store, step: Step)
    requires Enabled(s, step) && (step.Write? || step.StrayAppend? || step.Delete?)
    ensures var t, e := Next(s, step), s.index.binding.value;
            && (forall x | x != e && x in t.files :: x in s.files && t.files[x] == s.files[x])
            && (forall x | x != e && x in t.index.metas ::
                  x in s.index.metas && t.index.metas[x].size == s.index.metas[x].size)
            && (forall x | x != e :: Entries(t.index, x) == Entries(s.index, x))
  {
  }

  lemma PrepareKeepsAllSound(s: Store, live: map<nat, Bytes>, step: Step)
    requires Inv(s, live) && AllSound(s) && Enabled(s, step) && (step.Pause? || step.MakeFile? || step.PutMeta?)
    ensures AllSound(Next(s, step))
  {
    hide Holds, SyncedOk, FilesOk, Reopened, SameBody, Copied;
    if step.Pause? {
      OneExtentChanges(s, Next(s, step), s.index.binding.value);
    } else {
      OneExtentChanges(s, Next(s, step), s.phase.dest);
    }
  }

  lemma CopyKeepsAllSound(s: Store, live: map<nat, Bytes>, step: Step)
    requires Inv(s, live) && AllSound(s) && Enabled(s, step) && (step.Append? || step.Commit?)
    ensures AllSound(Next(s, step))
  {
    hide Inv, Next, AllSound;
    if step.Append? {
      AppendKeepsAllSound(s, live, step.blob);
    } else {
      CommitKeepsAllSound(s, live);
    }
  }

  lemma AppendKeepsAllSound(s: Store, live: map<nat, Bytes>, b: nat)
    requires Inv(s, live) && AllSound(s) && Enabled(s, Append(b))
    ensures AllSound(Next(s, Append(b)))
  {
    hide Holds, SyncedOk, FilesOk, Reopened, SameBody, Planned;
    OneExtentChanges(s, Next(s, Append(b)), s.phase.dest);
  }

  lemma CommitKeepsAllSound(s: Store, live: map<nat, Bytes>)
    requires Inv(s, live) && AllSound(s) && Enabled(s, Commit)
    ensures AllSound(Next(s, Commit))
  {
    CommitCopies(s, live);
    CommitFrame(s);
    hide Next, Inv, Sound, Entries;
    OneExtentChanges(s, Next(s, Commit), s.phase.dest);
  }

  lemma SwapKeepsAllSound(s: Store, live: map<nat, Bytes>)
    requires Inv(s, live) && AllSound(s) && Enabled(s, Swap)
    ensures AllSound(Next(s, Swap))
  {
    SwapServes(s, live);
    SwapFrame(s);
    hide Next, Inv, Sound, Entries, Holds;
    OneExtentChanges(s, Next(s, Swap), s.phase.dest);
  }

  lemma SwapFrame(s: Store)
    requires Enabled(s, Swap)
    ensures var t, dest := Next(s, Swap), s.phase.dest;
            && t.files == s.files && t.index.binding == Some(dest)
            && (forall x | x in t.index.metas ::
                  x in s.index.metas && t.index.metas[x].size == s.index.metas[x].size)
            && (forall x | x != dest :: Entries(t.index, x) == Entries(s.index, x))
  {
  }

  lemma RetireKeepsAllSound(s: Store, live: map<nat, Bytes>, step: Step)
    requires Inv(s, live) && AllSound(s) && Enabled(s, step) && (step.Reclaim? || step.Trash? || step.Remove?)
    ensures AllSound(Next(s, step))
  {
    hide Holds, SyncedOk, Reopened, SameBody, Sound;
    if !step.Reclaim? {
      OneExtentChanges(s, Next(s, step), s.phase.extent);
    }
  }

  lemma SweepKeepsAllSound(s: Store, live: map<nat, Bytes>, e: nat)
    requires Inv(s, live) && AllSound(s) && Enabled(s, Sweep(e)) && (IsDest(s, e) ==> !LastLeg(s))
    ensures AllSound(Next(s, Sweep(e)))
  {
    SweepFrame(s, e);
    hide Next, Inv, Sound, Entries, LastLeg;
    OneExtentChanges(s, Next(s, Sweep(e)), e);
  }

  /** A sweep that leaves the swap alone touches the extent it takes and nothing else. */
  lemma SweepFrame(s: Store, e: nat)
    requires Enabled(s, Sweep(e)) && (IsDest(s, e) ==> !LastLeg(s))
    ensures var t := Next(s, Sweep(e));
            && t.files == s.files - {e}
            && (forall x | x != e && x in t.index.metas :: x in s.index.metas && t.index.metas[x] == s.index.metas[x])
            && (forall x | x != e :: Entries(t.index, x) == Entries(s.index, x))
  {
  }

  lemma CrashKeepsAllSound(s: Store, live: map<nat, Bytes>, kept: bool)
    requires Inv(s, live) && AllSound(s)
    ensures AllSound(Next(s, Crash(kept)))
  {
    hide Holds, Reopened, SameBody;
    var ix := if kept then s.index else s.synced;
    assert s.index.blobs == ix.blobs;
    forall e | e in s.files && e in ix.metas ensures Sound(s.files, ix, e) {
      assert Sound(s.files, s.index, e);
      assert Entries(ix, e) == Entries(s.index, e) && ix.metas[e].size == s.index.metas[e].size;
    }
    ReopenedIsSound(s.files, ix);
  }

  lemma StepKeepsAllSound(s: Store, live: map<nat, Bytes>, step: Step)
    requires Inv(s, live) && AllSound(s) && Allowed(s, live, step)
    ensures AllSound(Next(s, step))
  {
    hide Inv, Next, AllSound, Contents;
    match step {
      case Crash(kept) => CrashKeepsAllSound(s, live, kept);
      case Sweep(e) => SweepKeepsAllSound(s, live, e);
      case Swap => SwapKeepsAllSound(s, live);
      case _ =>
        if step.Reclaim? || step.Trash? || step.Remove? {
          RetireKeepsAllSound(s, live, step);
        } else if step.Write? || step.StrayAppend? || step.Delete? {
          ClientKeepsAllSound(s, live, step);
        } else if step.Pause? || step.MakeFile? || step.PutMeta? {
          PrepareKeepsAllSound(s, live, step);
        } else {
          CopyKeepsAllSound(s, live, step);
        }
    }
  }

  /** Over every allowed run, every extent that has a file, bound or not, keeps only entries that
      point at a record of their own blob. */
  lemma {:induction false} RunKeepsAllSound(s: Store, live: map<nat, Bytes>, steps: seq<Step>)
    requires Inv(s, live) && AllSound(s) && Runs(s, live, steps)
    ensures AllSound(Finally(s, live, steps).0)
    decreases |steps|
  {
    hide Inv, Next, Enabled, Forgets, Spec, AllSound;
    if steps != [] {
      StepKeeps(s, live, steps[0]);
      StepKeepsAllSound(s, live, steps[0]);
      RunKeepsAllSound(Next(s, steps[0]), Spec(s, live, steps[0]), steps[1..]);
    }
  }
}
