/** The storage engine of one shard, method by method against the step machine
    (crates/epoch-store/src/service.rs, compact.rs, write.rs). */
module StoreEngine {
  import opened Bytes
  import opened Compaction

  datatype EngineError = MissingFile | ExtentNotFound | NotWritable(status: Status)

  datatype WriteOutcome = Written | AlreadyExists

  /** The live blobs of one extent, bound or not. */
  function HeldBy(files: Files, ix: Idx, e: nat): map<nat, Bytes> {
    map b | b in Entries(ix, e) && Read(files, ix, e, b).Some? :: Read(files, ix, e, b).value
  }

  lemma HeldIsRead(files: Files, ix: Idx, e: nat, b: nat)
    ensures Read(files, ix, e, b) == Get(HeldBy(files, ix, e), b)
  {
  }

  function Rebound(s: Store, e: nat): Store {
    s.(index := s.index.(binding := Some(e)), synced := s.synced.(binding := Some(e)))
  }

  /** Seen as bound to another of its extents, the shard would serve what that extent holds. */
  lemma ReboundServes(s: Store, live: map<nat, Bytes>, e: nat)
    requires Inv(s, live) && AllSound(s) && s.phase.Idle? && e in s.files
    requires e in s.index.metas && s.index.metas[e].status != Dropped
    ensures Inv(Rebound(s, e), HeldBy(s.files, s.index, e)) && AllSound(Rebound(s, e))
  {
    hide Read, HeldBy;
    var t := Rebound(s, e);
    forall x ensures Entries(t.index, x) == Entries(s.index, x) {}
    forall x | x in t.files && x in t.index.metas ensures Sound(t.files, t.index, x) {
      assert Sound(s.files, s.index, x);
    }
    forall b ensures Read(t.files, t.index, e, b) == Get(HeldBy(s.files, s.index, e), b) {
      HeldIsRead(s.files, s.index, e, b);
      SameEntriesSameRead(s.files, s.index, t.index, e, b);
    }
  }

  lemma SameEntriesSameRead(files: Files, a: Idx, b: Idx, e: nat, x: nat)
    requires Entries(a, e) == Entries(b, e)
    ensures Read(files, a, e, x) == Read(files, b, e, x)
  {
  }

  lemma BoundHoldsLive(s: Store, live: map<nat, Bytes>)
    requires Serving(s, live)
    ensures HeldBy(s.files, s.index, s.index.binding.value) == live
  {
    hide Read, HeldBy, Sound, Get;
    var e := s.index.binding.value;
    forall b ensures Get(HeldBy(s.files, s.index, e), b) == Get(live, b) {
      HeldIsRead(s.files, s.index, e, b);
      assert Read(s.files, s.index, e, b) == Get(live, b);
    }
    SameGets(HeldBy(s.files, s.index, e), live);
  }

  /** Compacting an extent makes the shard serve what that extent held. Every read stays as it was
      if and only if that is what the bound extent held: always for the bound one, and for an
      unbound one only when their live blobs agree. */
  lemma CompactionKeepsReadsIff(s: Store, live: map<nat, Bytes>, e: nat, t: Store)
    requires Serving(s, live) && Serving(t, HeldBy(s.files, s.index, e))
    ensures (forall b :: Lookup(t.files, t.index, b) == Get(live, b)) <==> HeldBy(s.files, s.index, e) == live
    ensures s.index.binding == Some(e) ==> HeldBy(s.files, s.index, e) == live
  {
    hide Serving, HeldBy, Get, Lookup;
    var held := HeldBy(s.files, s.index, e);
    ServingLooksUp(t, held);
    if s.index.binding == Some(e) {
      BoundHoldsLive(s, live);
    }
    if forall b :: Lookup(t.files, t.index, b) == Get(live, b) {
      forall b ensures Get(held, b) == Get(live, b) {
        assert Lookup(t.files, t.index, b) == Get(held, b);
      }
      SameGets(held, live);
    }
  }

  /** One record appended to an extent and committed. */
  ghost function WrittenTo(s: Store, e: nat, b: nat, body: Bytes): Store
    requires e in s.files && e in s.index.metas
  {
    Sync(s.(files := s.files[e := s.files[e] + [Record(b, body)]]), Committed(s.index, e, b, |s.files[e]|))
  }

  /** Writing to an extent adds the blob to what that extent holds, and to what the shard serves
      exactly when the shard is bound to it. */
  lemma WriteServes(s: Store, live: map<nat, Bytes>, e: nat, b: nat, body: Bytes)
    requires Inv(s, live) && AllSound(s) && s.phase.Idle? && e in s.files && e in s.index.metas
    requires AcceptsWrites(s.index.metas[e].status) && b !in Entries(s.index, e)
    ensures var t := WrittenTo(s, e, b, body);
            && Inv(t, if s.index.binding == Some(e) then live[b := body] else live) && AllSound(t)
            && HeldBy(t.files, t.index, e) == HeldBy(s.files, s.index, e)[b := body]
  {
    var held, seen := HeldBy(s.files, s.index, e), Rebound(s, e);
    ReboundServes(s, live, e);
    WrittenSeen(s, e, b, body);
    hide Inv, AllSound, HeldBy, Rebound, WrittenTo, Next;
    WriteKeeps(seen, held, b, body);
    ClientKeepsAllSound(seen, held, Write(b, body));
    BoundTo(s, live, e, b, body, held);
  }

  /** Seen as bound to the extent, it is the write of the step machine. */
  lemma WrittenSeen(s: Store, e: nat, b: nat, body: Bytes)
    requires e in s.files && e in s.index.metas && b !in Entries(s.index, e) && s.phase.Idle?
    requires AcceptsWrites(s.index.metas[e].status)
    ensures Enabled(Rebound(s, e), Write(b, body)) && b !in Entries(Rebound(s, e).index, e)
    ensures Next(Rebound(s, e), Write(b, body)) == Rebound(WrittenTo(s, e, b, body), e)
  {
  }

  lemma BoundTo(s: Store, live: map<nat, Bytes>, e: nat, b: nat, body: Bytes, held: map<nat, Bytes>)
    requires Inv(s, live) && s.phase.Idle? && e in s.files && e in s.index.metas
    requires held == HeldBy(s.files, s.index, e)
    requires var t := WrittenTo(s, e, b, body); Inv(Rebound(t, e), held[b := body]) && AllSound(Rebound(t, e))
    ensures var t := WrittenTo(s, e, b, body);
            && Inv(t, if s.index.binding == Some(e) then live[b := body] else live) && AllSound(t)
            && HeldBy(t.files, t.index, e) == held[b := body]
  {
    var t := WrittenTo(s, e, b, body);
    HeldSeen(t, e, held[b := body]);
    SoundSeen(t, e);
    if s.index.binding == Some(e) {
      BoundHoldsLive(s, live);
      assert Rebound(t, e) == t;
    } else {
      ServingHasFile(s, live);
      hide Read, Holds, HeldBy, Sound;
      ServingFrame(s, t, live);
    }
  }

  lemma HeldSeen(t: Store, e: nat, held: map<nat, Bytes>)
    requires Inv(Rebound(t, e), held)
    ensures HeldBy(t.files, t.index, e) == held
  {
    hide HeldBy, PhaseOk, SyncedOk, FilesOk, Sound, Holds;
    BoundHoldsLive(Rebound(t, e), held);
    HeldIgnoresBinding(t, e);
  }

  lemma HeldIgnoresBinding(t: Store, e: nat)
    ensures HeldBy(t.files, Rebound(t, e).index, e) == HeldBy(t.files, t.index, e)
  {
  }

  lemma SoundSeen(t: Store, e: nat)
    requires AllSound(Rebound(t, e))
    ensures AllSound(t)
  {
    var u := Rebound(t, e);
    forall x | x in t.files && x in t.index.metas ensures Sound(t.files, t.index, x) {
      assert Sound(u.files, u.index, x);
      assert Entries(u.index, x) == Entries(t.index, x);
    }
  }

  class Engine {
    var files: Files
    var index: Idx
    ghost var synced: Idx

    ghost function State(phase: Phase): Store
      reads this
    {
      Store(files, index, synced, phase)
    }

    /** Between operations the shard serves `live` and every extent is sound. */
    ghost predicate Serves(live: map<nat, Bytes>)
      reads this
    {
      Inv(State(Idle), live) && AllSound(State(Idle))
    }

    /** An empty shard: one extent, installed and bound. */
    constructor (extent: nat)
      ensures Serves(map[]) && index.binding == Some(extent)
    {
      files := map[extent := []];
      index := Idx(map[extent := Meta(Writable, 0)], Some(extent), map[]);
      synced := Idx(map[extent := Meta(Writable, 0)], Some(extent), map[]);
    }

    /** Appends and commits a blob to any extent, named by its id; an id that was ever written there
        is left alone. The shard gains the blob when the extent is the one it is bound to, and
        otherwise no read changes and the extent alone gains it. */
    method WriteBlob(extent: nat, b: nat, body: Bytes, ghost live: map<nat, Bytes>)
      returns (r: Result<WriteOutcome, EngineError>)
      requires Serves(live)
      modifies this
      ensures r.Failure? ==> State(Idle) == old(State(Idle))
      ensures r == Failure(MissingFile) <==> extent !in old(files)
      ensures r == Failure(ExtentNotFound) <==> extent in old(files) && extent !in old(index).metas
      ensures r.Failure? && r.error.NotWritable? <==>
        && extent in old(files) && extent in old(index).metas
        && old(index).metas[extent].status !in {Writable, Rebuilding}
      ensures r.Failure? && r.error.NotWritable? ==> r.error.status == old(index).metas[extent].status
      ensures r == Success(AlreadyExists) ==>
        b in Entries(old(index), extent) && State(Idle) == old(State(Idle))
      ensures r == Success(Written) ==> b !in Entries(old(index), extent)
      ensures r == Success(Written) ==>
        Serves(if old(index).binding == Some(extent) then live[b := body] else live)
      ensures r == Success(Written) ==>
        HeldBy(files, index, extent) == HeldBy(old(files), old(index), extent)[b := body]
    {
      hide Inv, AllSound, HeldBy, Committed;
      ghost var s := State(Idle);
      if extent !in files {
        return Failure(MissingFile);
      }
      if extent !in index.metas {
        return Failure(ExtentNotFound);
      }
      if !AcceptsWrites(index.metas[extent].status) {
        return Failure(NotWritable(index.metas[extent].status));
      }
      if b in Entries(index, extent) {
        return Success(AlreadyExists);
      }
      files := files[extent := files[extent] + [Record(b, body)]];
      index := Committed(index, extent, b, |files[extent]| - 1);
      synced := index;
      assert State(Idle) == WrittenTo(s, extent, b, body);
      WriteServes(s, live, extent, b, body);
      r := Success(Written);
    }

    /** Tombstones the blob on whatever extent the shard is bound to now. */
    method DeleteBlob(b: nat, ghost live: map<nat, Bytes>)
      requires Serves(live)
      modifies this
      ensures Serves(live - {b})
    {
      hide PhaseOk, SyncedOk, FilesOk, Holds, Reopened, Sound, AllSound;
      ghost var s := State(Idle);
      var after := Tombstoned(index, index.binding.value, b);
      if after != index {
        index := after;
        synced := after;
      }
      DeleteKeeps(s, live, b);
      ClientKeepsAllSound(s, live, Delete(b));
      assert State(Idle) == Next(s, Delete(b));
    }

    /** The state as it would be were the shard bound to the extent being compacted: nothing before
        the swap looks at the binding. */
    ghost predicate Copies(src: nat, phase: Phase, held: map<nat, Bytes>)
      reads this
    {
      Inv(Rebound(State(phase), src), held) && AllSound(Rebound(State(phase), src))
    }

    /** `write_blob` into the destination: append, then commit. */
    method CopyOne(src: nat, dest: nat, snapshot: set<nat>, todo: set<nat>, b: nat, ghost held: map<nat, Bytes>)
      requires Copies(src, Copying(src, dest, snapshot, todo), held) && b in todo && dest in files
      modifies this
      ensures Copies(src, Copying(src, dest, snapshot, todo - {b}), held)
      ensures dest in files && |files[dest]| == |old(files)[dest]| + 1
    {
      hide Holds, Reopened, Copied, Sound, PhaseOk, Serving, SyncedOk, FilesOk, AllSound;
      ghost var s := Rebound(State(Copying(src, dest, snapshot, todo)), src);
      SourceHolds(s, held, b);
      var body := files[src][Entries(index, src)[b].at].body;
      files := files[dest := files[dest] + [Record(b, body)]];
      AppendKeeps(s, held, b);
      CopyKeepsAllSound(s, held, Append(b));
      ghost var s1 := Rebound(State(Appended(src, dest, snapshot, todo, b)), src);
      assert s1 == Next(s, Append(b));
      PhaseHasMeta(s1, held);
      index := Committed(index, dest, b, |files[dest]| - 1);
      synced := index;
      CommitKeeps(s1, held);
      CopyKeepsAllSound(s1, held, Commit);
      assert Rebound(State(Copying(src, dest, snapshot, todo - {b})), src) == Next(s1, Commit);
    }

    /** The copy loop: afterwards the destination holds one record per snapshot blob. */
    method CopyLive(src: nat, dest: nat, snapshot: set<nat>, ghost held: map<nat, Bytes>)
      requires Copies(src, Copying(src, dest, snapshot, snapshot), held)
      requires dest in files && files[dest] == []
      modifies this
      ensures Copies(src, Copying(src, dest, snapshot, {}), held)
      ensures dest in files && |files[dest]| == |snapshot|
    {
      hide Inv, AllSound;
      var todo := snapshot;
      while todo != {}
        invariant todo <= snapshot && Copies(src, Copying(src, dest, snapshot, todo), held)
        invariant dest in files && |files[dest]| == |snapshot| - |todo|
      {
        var b :| b in todo;
        CopyOne(src, dest, snapshot, todo, b, held);
        todo := todo - {b};
      }
    }

    /** Pauses the source and sets up an empty destination. */
    method Prepare(src: nat, dest: nat, ghost held: map<nat, Bytes>) returns (snapshot: set<nat>)
      requires Copies(src, Idle, held) && src in index.metas && index.metas[src].status in {Writable, Full}
      requires dest !in files && dest !in index.metas && dest !in index.blobs
      modifies this
      ensures Copies(src, Copying(src, dest, snapshot, snapshot), held)
      ensures dest in files && files[dest] == [] && |snapshot| == |held|
    {
      hide Holds, Reopened, Copied, Sound, PhaseOk, SyncedOk, FilesOk, AllSound;
      ghost var s := Rebound(State(Idle), src);
      snapshot := LiveBlobs(index, src);
      assert snapshot == LiveBlobs(s.index, src);
      SnapshotIsLive(s, held);
      PauseKeeps(s, held, dest);
      PrepareKeepsAllSound(s, held, Pause(dest));
      index := WithStatus(index, src, Full);
      synced := index;
      ghost var s1 := Rebound(State(Paused(src, dest, snapshot)), src);
      assert s1 == Next(s, Pause(dest));
      MakeFileKeeps(s1, held);
      PrepareKeepsAllSound(s1, held, MakeFile);
      files := files[dest := []];
      ghost var s2 := Rebound(State(FileMade(src, dest, snapshot)), src);
      assert s2 == Next(s1, MakeFile);
      PutMetaKeeps(s2, held);
      PrepareKeepsAllSound(s2, held, PutMeta);
      index := index.(metas := index.metas[dest := Meta(Writable, 0)]);
      assert Rebound(State(Copying(src, dest, snapshot, snapshot)), src) == Next(s2, PutMeta);
    }

    /** Copies the live blobs of an extent to a new one, binds the shard to it and retires the
        source. The shard then serves what the extent held, with one record per live blob; each error
        leaves everything as it was. */
    method CompactExtent(extent: nat, dest: nat, ghost live: map<nat, Bytes>) returns (r: Result<nat, EngineError>)
      requires Serves(live)
      requires dest !in files && dest !in index.metas && dest !in index.blobs
      modifies this
      ensures r.Failure? ==> State(Idle) == old(State(Idle))
      ensures r == Failure(MissingFile) <==> extent !in old(files)
      ensures r == Failure(ExtentNotFound) <==> extent in old(files) && extent !in old(index).metas
      ensures r.Failure? && r.error.NotWritable? <==>
        extent in old(files) && extent in old(index).metas && old(index).metas[extent].status !in {Writable, Full}
      ensures r.Failure? && r.error.NotWritable? ==> r.error.status == old(index).metas[extent].status
      ensures r.Success? ==> Serves(HeldBy(old(files), old(index), extent)) && index.binding == Some(dest)
      ensures r.Success? && old(index).binding == Some(extent) ==> Serves(live)
      ensures r.Success? ==> extent !in files && extent !in index.metas && extent !in index.blobs
      ensures r.Success? ==> dest in files && r.value == |HeldBy(old(files), old(index), extent)| == |files[dest]|
    {
      hide Inv, AllSound, HeldBy;
      if extent !in files {
        return Failure(MissingFile);
      }
      if extent !in index.metas {
        return Failure(ExtentNotFound);
      }
      if index.metas[extent].status !in {Writable, Full} {
        return Failure(NotWritable(index.metas[extent].status));
      }
      ghost var s, held := State(Idle), HeldBy(files, index, extent);
      ReboundServes(s, live, extent);
      if index.binding == Some(extent) {
        InvServes(s, live);
        BoundHoldsLive(s, live);
      }
      var snapshot := Prepare(extent, dest, held);
      CopyLive(extent, dest, snapshot, held);
      Retire(extent, dest, snapshot, held);
      r := Success(|snapshot|);
    }

    method Retire(src: nat, dest: nat, snapshot: set<nat>, ghost held: map<nat, Bytes>)
      requires Copies(src, Copying(src, dest, snapshot, {}), held)
      modifies this
      ensures Serves(held) && index.binding == Some(dest)
      ensures src !in files && src !in index.metas && src !in index.blobs
      ensures dest in files && dest in old(files) && files[dest] == old(files)[dest]
    {
      hide Holds, Reopened, Copied, Sound, PhaseOk, Serving, SyncedOk, FilesOk, AllSound;
      ghost var s := Rebound(State(Copying(src, dest, snapshot, {})), src);
      PhaseHasMeta(s, held);
      SourceHasMeta(s, held);
      SwapKeeps(s, held);
      SwapKeepsAllSound(s, held);
      index := Swapped(index, src, dest);
      synced := index;
      ghost var s1 := State(Retiring(src));
      assert s1 == Next(s, Swap);
      RetireKeeps(s1, held, Trash);
      RetireKeepsAllSound(s1, held, Trash);
      files := files - {src};
      ghost var s2 := State(Trashed(src));
      assert s2 == Next(s1, Trash);
      RetireKeeps(s2, held, Remove);
      RetireKeepsAllSound(s2, held, Remove);
      index := Removed(index, src);
      synced := index;
      assert State(Idle) == Next(s2, Remove);
    }

    /** `reclaim_dropped` and `reclaim_orphans` with no compaction under way: everything the shard is
        not bound to goes, and every read stays. */
    method ReclaimUnbound(ghost live: map<nat, Bytes>)
      requires Serves(live)
      modifies this
      ensures Serves(live) && index.binding == old(index).binding
      ensures index.binding.Some? && index.metas.Keys == files.Keys == {index.binding.value}
    {
      hide Inv, AllSound, Reclaimable;
      var todo := index.metas.Keys;
      while todo != {}
        invariant Serves(live) && index.binding == old(index).binding
        invariant forall e | e in index.metas :: e in todo || !Reclaimable(index, e)
      {
        var e :| e in todo;
        if Reclaimable(index, e) {
          ghost var s := State(Idle);
          SweepKeeps(s, live, e);
          SweepKeepsAllSound(s, live, e);
          files := files - {e};
          index := Removed(index, e);
          synced := index;
          assert State(Idle) == Next(s, Sweep(e));
          OthersStay(s.index, e);
        }
        todo := todo - {e};
      }
      OnlyBoundIsLeft(State(Idle), live);
    }

    /** Opening the disk after a crash: every extent file is reconciled with the index. */
    method Reopen()
      requires forall a, b | Unindexed(files, index, a) && Unindexed(files, index, b) :: a == b
      modifies this
      ensures State(Idle) == Reopened(old(files), old(index))
    {
      hide Reopened, Installed, CutExcept, CutOne;
      var before, ix := files, index;
      var todo := files.Keys;
      ghost var lost := set e | e in before && Unindexed(before, ix, e);
      ReopenedIndex(before, ix);
      NoneCut(before, ix);
      while todo != {}
        invariant todo <= before.Keys && files == CutExcept(before, ix, todo)
        invariant index == if lost !! todo then Reopened(before, ix).index else ix
      {
        var e :| e in todo;
        CutStep(before, ix, todo, e);
        if e in ix.metas {
          files := files[e := CutOne(ix, e, files[e])];
        } else {
          assert Unindexed(before, ix, e) && lost == {e};
          index := Installed(ix, e, files[e]);
        }
        todo := todo - {e};
      }
      synced := index;
    }
  }

  /** With nothing reclaimable the shard has the extent it is bound to and no other. */
  lemma OnlyBoundIsLeft(s: Store, live: map<nat, Bytes>)
    requires Inv(s, live) && s.phase.Idle? && forall e | e in s.index.metas :: !Reclaimable(s.index, e)
    ensures s.index.binding.Some? && s.index.metas.Keys == s.files.Keys == {s.index.binding.value}
  {
    hide Holds;
    forall e | e in s.index.metas ensures e == s.index.binding.value {
      assert !Reclaimable(s.index, e);
    }
  }

  lemma OthersStay(ix: Idx, e: nat)
    ensures forall x | x in Removed(ix, e).metas ::
              x != e && x in ix.metas && (Reclaimable(Removed(ix, e), x) <==> Reclaimable(ix, x))
  {
  }

  lemma NoneCut(files: Files, ix: Idx)
    ensures files == CutExcept(files, ix, files.Keys)
  {
  }

  lemma CutStep(files: Files, ix: Idx, todo: set<nat>, e: nat)
    requires e in todo && e in files
    ensures e in CutExcept(files, ix, todo) && CutExcept(files, ix, todo)[e] == files[e]
    ensures CutExcept(files, ix, todo)[e := CutOne(ix, e, files[e])] == CutExcept(files, ix, todo - {e})
    ensures e !in ix.metas ==> CutExcept(files, ix, todo) == CutExcept(files, ix, todo - {e})
  {
  }

  lemma ReopenedIndex(files: Files, ix: Idx)
    requires forall a, b | Unindexed(files, ix, a) && Unindexed(files, ix, b) :: a == b
    ensures Reopened(files, ix) == Store(CutBack(files, ix), Reopened(files, ix).index, Reopened(files, ix).index, Idle)
    ensures (forall e :: !Unindexed(files, ix, e)) ==> Reopened(files, ix).index == ix
    ensures forall e | Unindexed(files, ix, e) :: Reopened(files, ix).index == Installed(ix, e, files[e])
  {
    hide Installed, CutBack;
  }

  lemma SourceHolds(s: Store, live: map<nat, Bytes>, b: nat)
    requires Inv(s, live) && s.phase.Copying? && b in s.phase.todo
    ensures s.phase.src in s.files && s.phase.dest in s.files && Enabled(s, Append(b))
  {
    hide Holds;
  }

  lemma SourceHasMeta(s: Store, live: map<nat, Bytes>)
    requires Inv(s, live) && s.phase.Copying?
    ensures s.phase.src in s.index.metas && s.phase.src != s.phase.dest
  {
    hide Holds;
  }

  lemma SnapshotIsLive(s: Store, live: map<nat, Bytes>)
    requires Serving(s, live)
    ensures LiveBlobs(s.index, s.index.binding.value) == live.Keys && |live.Keys| == |live|
  {
    var e := s.index.binding.value;
    forall b ensures b in LiveBlobs(s.index, e) <==> b in live {
      assert Read(s.files, s.index, e, b) == Get(live, b);
    }
  }

  /** An orphan with other contents takes the shard over when it is compacted. */
  lemma CompactingOrphanCanLoseBlob()
    ensures var files := map[1 := [Record(7, [1])], 2 := [Record(8, [2])]];
            var ix := Idx(map[1 := Meta(Writable, 1), 2 := Meta(Full, 1)], Some(1),
                          map[1 := map[7 := Entry(0, false)], 2 := map[8 := Entry(0, false)]]);
            var s := Store(files, ix, ix, Idle);
            && Inv(s, map[7 := [1]]) && AllSound(s)
            && 7 in HeldBy(files, ix, 1) && 7 !in HeldBy(files, ix, 2)
  {
    var files: Files := map[1 := [Record(7, [1])], 2 := [Record(8, [2])]];
    var ix := Idx(map[1 := Meta(Writable, 1), 2 := Meta(Full, 1)], Some(1),
                  map[1 := map[7 := Entry(0, false)], 2 := map[8 := Entry(0, false)]]);
    assert forall b :: Read(files, ix, 1, b) == Get(map[7 := [1]], b);
  }
}
