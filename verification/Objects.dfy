/** PUT and GET of whole objects: the object cut, the write quorum and the reassembly
    (crates/epoch-gateway/src/code.rs, put.rs, get.rs). Shard writes and replies are
    parameters: which writes were acknowledged, and what each shard read returned. */
module Objects {
  import opened Bytes
  import opened Layout
  import opened Frame
  import opened Erasure
  import opened Pipeline
  import opened RoundTrip

  datatype CodeMode = CodeMode(data: nat, parity: nat, stripeSize: nat, blobSize: nat) {
    predicate Valid() {
      0 < data <= MAX_SHARDS && 0 < parity <= MAX_SHARDS && 0 < stripeSize <= blobSize
    }

    function Total(): nat {
      data + parity
    }

    /** Shard failures a write tolerates. */
    function Tolerated(): nat {
      if parity / 2 > 1 then parity / 2 else 1
    }

    function WriteQuorum(): nat
      requires Valid()
    {
      Total() - Tolerated()
    }
  }

  datatype CodeError = BadCode(ec: EcError) | InvalidSizing(stripeSize: nat, blobSize: nat)

  /** Building a code mode succeeds exactly for the valid ones; bad counts are told before bad sizes. */
  function NewCodeMode(data: nat, parity: nat, stripeSize: nat, blobSize: nat): (r: Result<CodeMode, CodeError>)
    ensures r.Success? <==> CodeMode(data, parity, stripeSize, blobSize).Valid()
    ensures r.Success? ==> r.value == CodeMode(data, parity, stripeSize, blobSize)
    ensures r == Failure(BadCode(InvalidCodeMode(data, parity))) <==> !(1 <= data <= 32768 && 1 <= parity <= 32768)
    ensures r.Failure? ==> r.error in {BadCode(InvalidCodeMode(data, parity)), InvalidSizing(stripeSize, blobSize)}
  {
    if data == 0 || parity == 0 || data > MAX_SHARDS || parity > MAX_SHARDS then
      Failure(BadCode(InvalidCodeMode(data, parity)))
    else if stripeSize == 0 || blobSize < stripeSize then Failure(InvalidSizing(stripeSize, blobSize))
    else Success(CodeMode(data, parity, stripeSize, blobSize))
  }

  datatype BlobDesc = BlobDesc(id: nat, len: nat, chunk: nat, shards: nat)

  datatype PutError =
    | PlacementSize(need: nat, got: nat)
    | QuorumNotMet(need: nat, got: nat)
    | EncodingFailed(error: GatewayError)

  /** One finished shard-write task: which shard, and whether it committed. */
  datatype Join = Join(shard: nat, ok: bool)

  /** The shards that committed. */
  function Committed(joins: seq<Join>): set<nat> {
    if joins == [] then {}
    else
      var last := joins[|joins| - 1];
      Committed(joins[..|joins| - 1]) + if last.ok then {last.shard} else {}
  }

  /** Every shard's task finishes once. */
  ghost predicate OnePerShard(joins: seq<Join>) {
    forall i, k | 0 <= i < k < |joins| :: joins[i].shard != joins[k].shard
  }

  // ---------------------------------------------------------------- write quorum

  lemma {:induction false} CommittedFrom(joins: seq<Join>, x: nat)
    requires x in Committed(joins)
    ensures exists k :: 0 <= k < |joins| && joins[k].shard == x
  {
    var n := |joins| - 1;
    if x in Committed(joins[..n]) {
      CommittedFrom(joins[..n], x);
      var k :| 0 <= k < n && joins[..n][k].shard == x;
      assert joins[k].shard == x;
    }
  }

  /** A shard has committed exactly when its task finished well. */
  lemma {:induction false} CommittedIffJoined(joins: seq<Join>, x: nat)
    ensures x in Committed(joins) <==> Join(x, true) in joins
  {
    if joins != [] {
      var n := |joins| - 1;
      CommittedIffJoined(joins[..n], x);
      assert joins == joins[..n] + [joins[n]];
    }
  }

  lemma CommittedGrows(joins: seq<Join>, i: nat)
    requires OnePerShard(joins) && i < |joins|
    ensures |Committed(joins[..i + 1])| == |Committed(joins[..i])| + if joins[i].ok then 1 else 0
  {
    assert joins[..i + 1][..i] == joins[..i];
    if joins[i].shard in Committed(joins[..i]) {
      CommittedFrom(joins[..i], joins[i].shard);
    }
  }

  lemma {:induction false} CommittedPrefix(joins: seq<Join>, i: nat)
    requires i <= |joins|
    ensures Committed(joins[..i]) <= Committed(joins)
  {
    var n := |joins| - 1;
    if i == |joins| {
      assert joins[..i] == joins;
    } else {
      CommittedPrefix(joins[..n], i);
      assert joins[..n][..i] == joins[..i];
    }
  }

  /** Counts acknowledgements in arrival order and stops at quorum. Stopping early never
      changes the verdict, and every counted shard has really committed. */
  method AwaitQuorum(joins: seq<Join>, quorum: nat) returns (committed: nat, ghost acked: set<nat>)
    requires OnePerShard(joins) && quorum > 0
    ensures acked <= Committed(joins) && |acked| == committed
    ensures committed >= quorum <==> |Committed(joins)| >= quorum
    ensures committed < quorum ==> acked == Committed(joins)
  {
    committed, acked := 0, {};
    var i := 0;
    assert Committed(joins[..0]) == {};
    while i < |joins|
      invariant 0 <= i <= |joins|
      invariant acked == Committed(joins[..i]) && |acked| == committed < quorum
    {
      CommittedGrows(joins, i);
      if joins[i].ok {
        committed := committed + 1;
      }
      i := i + 1;
      acked := Committed(joins[..i]);
      if committed >= quorum {
        CommittedPrefix(joins, i);
        SubsetSize(acked, Committed(joins));
        return;
      }
    }
    assert joins[..i] == joins;
  }

  lemma SubsetSize(a: set<nat>, b: set<nat>)
    requires a <= b
    ensures |a| <= |b|
  {
    assert b == a + (b - a);
    assert |b| == |a| + |b - a|;
  }

  /** The quorum in numbers: a write goes through with one shard failed, or with half the parity
      failed, and with no more; and `lost` of the shards it counted may go afterwards, exactly while
      fewer than `parity` and at most half of `parity + 1` do. */
  lemma QuorumLeavesSlack(code: CodeMode, failed: nat, lost: nat)
    requires code.Valid()
    ensures code.data <= code.WriteQuorum() < code.Total()
    ensures code.Total() - failed >= code.WriteQuorum() <==> failed <= 1 || 2 * failed <= code.parity
    ensures code.WriteQuorum() - lost >= code.data <==> lost < code.parity && 2 * lost <= code.parity + 1
  {
  }

  // ---------------------------------------------------------------- the object cut

  function Cuts(data: Bytes, blobSize: nat): seq<Bytes>
    requires blobSize > 0
    decreases |data|
  {
    if data == [] then []
    else
      var n := Min(blobSize, |data|);
      [data[..n]] + Cuts(data[n..], blobSize)
  }

  lemma {:induction false} CutsConcatenate(data: Bytes, blobSize: nat)
    requires blobSize > 0
    ensures Concat(Cuts(data, blobSize)) == data
    decreases |data|
  {
    if data != [] {
      var n := Min(blobSize, |data|);
      CutsConcatenate(data[n..], blobSize);
      var cuts := Cuts(data, blobSize);
      assert cuts[0] == data[..n] && cuts[1..] == Cuts(data[n..], blobSize);
      assert data == data[..n] + data[n..];
    }
  }

  /** The layout describes the cut, one blob a piece. */
  ghost predicate Describes(blobs: seq<BlobDesc>, cuts: seq<Bytes>) {
    |blobs| == |cuts| && forall k | 0 <= k < |cuts| :: blobs[k].len == |cuts[k]|
  }

  /** The encoder and framing a code mode asks for. */
  predicate Fits(p: Params, code: CodeMode) {
    p.ec.data == code.data && p.ec.parity == code.parity && p.stripeSize == code.stripeSize
  }

  /** What stops the write of one blob: its encoding, or too few committed shards. */
  function BlobError(p: Params, code: CodeMode, blob: Bytes, joins: seq<Join>): Option<PutError>
    requires p.Valid() && code.Valid()
  {
    if Encoded(p, blob).Failure? then Some(EncodingFailed(Encoded(p, blob).error))
    else if |Committed(joins)| < code.WriteQuorum() then Some(QuorumNotMet(code.WriteQuorum(), |Committed(joins)|))
    else None
  }

  /** When a blob is written: with one shard failed, or with half the parity failed, and with no
      more; the error then tells how many committed. */
  lemma BlobIsWrittenIff(p: Params, code: CodeMode, blob: Bytes, joins: seq<Join>)
    requires p.Valid() && code.Valid() && Mds(p.ec)
    ensures var failed := code.Total() - |Committed(joins)|;
            && (BlobError(p, code, blob, joins) == None <==> failed <= 1 || 2 * failed <= code.parity)
            && BlobError(p, code, blob, joins) in {None, Some(QuorumNotMet(code.WriteQuorum(), |Committed(joins)|))}
  {
    hide Mds, Encoded, Committed;
    EncodedBodiesAreUniform(p, blob);
    var failed := code.Total() - |Committed(joins)|;
    if failed >= 0 {
      QuorumLeavesSlack(code, failed, 0);
    }
  }

  /** Writes an object to `shards` placed shards. `joins[k]` is the outcome of blob `k`'s shard
      writes, `ids` the minted blob ids. The first blob that cannot be written decides the error. */
  method PutObject(p: Params, code: CodeMode, data: Bytes, chunk: nat, shards: nat, ids: seq<nat>,
                   joins: seq<seq<Join>>)
    returns (r: Result<seq<BlobDesc>, PutError>)
    requires code.Valid() && p.Valid() && Fits(p, code)
    requires |Cuts(data, code.blobSize)| <= |ids| && |Cuts(data, code.blobSize)| <= |joins|
    requires forall k | 0 <= k < |joins| :: OnePerShard(joins[k])
    ensures shards != code.Total() ==> r == Failure(PlacementSize(code.Total(), shards))
    ensures shards == code.Total() && r.Failure? ==> exists k ::
              && 0 <= k < |Cuts(data, code.blobSize)|
              && BlobError(p, code, Cuts(data, code.blobSize)[k], joins[k]) == Some(r.error)
              && forall i | 0 <= i < k :: BlobError(p, code, Cuts(data, code.blobSize)[i], joins[i]) == None
    ensures r.Success? ==> forall k | 0 <= k < |Cuts(data, code.blobSize)| ::
              BlobError(p, code, Cuts(data, code.blobSize)[k], joins[k]) == None
    ensures r.Success? ==> Describes(r.value, Cuts(data, code.blobSize))
    ensures r.Success? ==> forall k | 0 <= k < |r.value| ::
              r.value[k].id == ids[k] && r.value[k].chunk == chunk && r.value[k].shards == code.Total()
  {
    hide Committed, OnePerShard, Cuts, Encoded;
    if shards != code.Total() {
      return Failure(PlacementSize(code.Total(), shards));
    }
    QuorumLeavesSlack(code, 0, 0);
    var quorum := code.WriteQuorum();
    ghost var cuts := Cuts(data, code.blobSize);
    var blobs: seq<BlobDesc> := [];
    var offset := 0;
    assert data[0..] == data;
    while offset < |data|
      invariant 0 <= offset <= |data| && |blobs| <= |cuts|
      invariant cuts[|blobs|..] == Cuts(data[offset..], code.blobSize)
      invariant Describes(blobs, cuts[..|blobs|])
      invariant forall k | 0 <= k < |blobs| ::
                  blobs[k].id == ids[k] && blobs[k].chunk == chunk && blobs[k].shards == code.Total()
      invariant forall k | 0 <= k < |blobs| :: BlobError(p, code, cuts[k], joins[k]) == None
    {
      var end := Min(offset + code.blobSize, |data|);
      var slice := data[offset..end];
      ghost var k := |blobs|;
      CutStep(data, code.blobSize, offset, cuts, k);
      var bodies := EncodeBlob(p, slice);
      if bodies.Failure? {
        assert BlobError(p, code, cuts[k], joins[k]) == Some(EncodingFailed(bodies.error));
        return Failure(EncodingFailed(bodies.error));
      }
      var committed, _ := AwaitQuorum(joins[|blobs|], quorum);
      if committed < quorum {
        assert BlobError(p, code, cuts[k], joins[k]) == Some(QuorumNotMet(quorum, committed));
        return Failure(QuorumNotMet(quorum, committed));
      }
      blobs := blobs + [BlobDesc(ids[|blobs|], |slice|, chunk, shards)];
      offset := end;
    }
    NothingLeftToCut(code.blobSize);
    assert data[offset..] == [] && cuts[..|blobs|] == cuts;
    return Success(blobs);
  }

  lemma NothingLeftToCut(blobSize: nat)
    requires blobSize > 0
    ensures Cuts([], blobSize) == []
  {
  }

  lemma CutStep(data: Bytes, blobSize: nat, offset: nat, cuts: seq<Bytes>, k: nat)
    requires blobSize > 0 && offset < |data| && k <= |cuts| && cuts[k..] == Cuts(data[offset..], blobSize)
    ensures var end := Min(offset + blobSize, |data|);
            && k < |cuts| && cuts[k] == data[offset..end]
            && cuts[k + 1..] == Cuts(data[end..], blobSize)
            && cuts[..k + 1] == cuts[..k] + [data[offset..end]]
  {
    var end := Min(offset + blobSize, |data|);
    var rest := data[offset..];
    assert rest[..end - offset] == data[offset..end] && rest[end - offset..] == data[end..];
    assert cuts[k] == cuts[k..][0] && cuts[k + 1..] == cuts[k..][1..];
  }

  // ---------------------------------------------------------------- reading back

  function Fetched(p: Params, blobs: seq<BlobDesc>, replies: seq<Slots>): Result<Bytes, GatewayError>
    requires p.Valid() && |replies| == |blobs|
  {
    if blobs == [] then Success([])
    else
      var last := |blobs| - 1;
      var out :- Fetched(p, blobs[..last], replies[..last]);
      if blobs[last].shards != p.ec.Total() then Failure(WrongShardCount(p.ec.Total(), blobs[last].shards))
      else
        var bytes :- DecodedBytes(p, blobs[last].len, replies[last]);
        Success(out + bytes)
  }

  /** A heal report carries the shard index as one byte. */
  function HealReport(chunk: nat, index: nat): (nat, nat) {
    (chunk, index % 256)
  }

  function Reports(chunk: nat, shards: set<nat>): set<(nat, nat)> {
    set j | j in shards :: HealReport(chunk, j)
  }

  function ToSet(shards: seq<nat>): set<nat> {
    set j | j in shards
  }

  /** The shards of one blob that a read had to work around. */
  ghost function DamagedShards(p: Params, blob: BlobDesc, read: Slots): set<nat>
    requires p.Valid()
  {
    set j | 0 <= j < |read| && Damaged(p, blob.len, read, j, StripeCount(blob.len, p.stripeSize))
  }

  ghost function HealReports(p: Params, blobs: seq<BlobDesc>, replies: seq<Slots>): set<(nat, nat)>
    requires p.Valid() && |replies| == |blobs|
  {
    if blobs == [] then {}
    else
      var last := |blobs| - 1;
      HealReports(p, blobs[..last], replies[..last])
      + Reports(blobs[last].chunk, DamagedShards(p, blobs[last], replies[last]))
  }

  lemma {:induction false} FetchedFailsFrom(p: Params, blobs: seq<BlobDesc>, replies: seq<Slots>, k: nat)
    requires p.Valid() && |replies| == |blobs| && k <= |blobs|
    requires Fetched(p, blobs[..k], replies[..k]).Failure?
    ensures Fetched(p, blobs, replies) == Fetched(p, blobs[..k], replies[..k])
    decreases |blobs|
  {
    hide DecodedBytes;
    if k == |blobs| {
      assert blobs[..k] == blobs && replies[..k] == replies;
    } else {
      var last := |blobs| - 1;
      assert blobs[..last][..k] == blobs[..k] && replies[..last][..k] == replies[..k];
      FetchedFailsFrom(p, blobs[..last], replies[..last], k);
    }
  }

  lemma FetchStep(p: Params, blobs: seq<BlobDesc>, replies: seq<Slots>, k: nat)
    requires p.Valid() && |replies| == |blobs| && k < |blobs| && Fetched(p, blobs[..k], replies[..k]).Success?
    ensures Fetched(p, blobs[..k + 1], replies[..k + 1])
            == if blobs[k].shards != p.ec.Total() then Failure(WrongShardCount(p.ec.Total(), blobs[k].shards))
               else
                 match DecodedBytes(p, blobs[k].len, replies[k])
                 case Failure(e) => Failure(e)
                 case Success(bytes) => Success(Fetched(p, blobs[..k], replies[..k]).value + bytes)
    ensures HealReports(p, blobs[..k + 1], replies[..k + 1])
            == HealReports(p, blobs[..k], replies[..k])
               + Reports(blobs[k].chunk, DamagedShards(p, blobs[k], replies[k]))
  {
    hide DecodedBytes, DamagedShards;
    assert blobs[..k + 1][..k] == blobs[..k] && replies[..k + 1][..k] == replies[..k];
  }

  function Checked(size: nat, fetched: Result<Bytes, GatewayError>): Result<Bytes, GatewayError> {
    if fetched.Success? && |fetched.value| != size then Failure(LengthMismatch(size, |fetched.value|)) else fetched
  }

  /** Reads a whole object. `replies[k]` is what the shard replies of blob `k` returned. */
  method GetObject(p: Params, size: nat, blobs: seq<BlobDesc>, replies: seq<Slots>)
    returns (r: Result<(Bytes, set<(nat, nat)>), GatewayError>)
    requires p.Valid() && |replies| == |blobs|
    ensures r.Success? ==> Checked(size, Fetched(p, blobs, replies)) == Success(r.value.0)
    ensures r.Success? ==> r.value.1 == HealReports(p, blobs, replies)
    ensures r.Failure? ==> Checked(size, Fetched(p, blobs, replies)) == Failure(r.error)
    ensures Fetched(p, blobs, replies).Success? && |Fetched(p, blobs, replies).value| != size ==>
              r == Failure(LengthMismatch(size, |Fetched(p, blobs, replies).value|))
    ensures r.Success? ==> |r.value.0| == size && forall k | 0 <= k < |blobs| :: blobs[k].shards == p.ec.Total()
  {
    hide DecodedBytes, Reports, Fetched, DamagedShards, HealReports, HealedExactly, ToSet;
    var out: Bytes := [];
    var heals: set<(nat, nat)> := {};
    StartFetch(p, blobs, replies);
    for k := 0 to |blobs|
      invariant Fetched(p, blobs[..k], replies[..k]) == Success(out)
      invariant heals == HealReports(p, blobs[..k], replies[..k])
      invariant forall i | 0 <= i < k :: blobs[i].shards == p.ec.Total()
    {
      FetchStep(p, blobs, replies, k);
      if blobs[k].shards != p.ec.Total() {
        FetchedFailsFrom(p, blobs, replies, k + 1);
        return Failure(WrongShardCount(p.ec.Total(), blobs[k].shards));
      }
      var decoded := DecodeBlob(p, blobs[k].len, replies[k]);
      if decoded.Failure? {
        FetchedFailsFrom(p, blobs, replies, k + 1);
        return Failure(decoded.error);
      }
      out := out + decoded.value.bytes;
      HealedIsDamaged(p, blobs[k], replies[k], decoded.value.healed);
      heals := heals + Reports(blobs[k].chunk, ToSet(decoded.value.healed));
    }
    assert blobs[..|blobs|] == blobs && replies[..|replies|] == replies;
    if |out| != size {
      return Failure(LengthMismatch(size, |out|));
    }
    return Success((out, heals));
  }

  lemma StartFetch(p: Params, blobs: seq<BlobDesc>, replies: seq<Slots>)
    requires p.Valid() && |replies| == |blobs|
    ensures Fetched(p, blobs[..0], replies[..0]) == Success([])
    ensures HealReports(p, blobs[..0], replies[..0]) == {}
  {
  }

  lemma HealedIsDamaged(p: Params, blob: BlobDesc, read: Slots, healed: seq<nat>)
    requires p.Valid() && HealedExactly(p, blob.len, read, healed)
    ensures ToSet(healed) == DamagedShards(p, blob, read)
  {
    hide Damaged, StripeCount;
  }

  /** The shards a set of reports is meant to name. */
  function Named(chunk: nat, shards: set<nat>): set<(nat, nat)> {
    set j | j in shards :: (chunk, j)
  }

  /** Reports name the damaged shards exactly when indices fit in the byte they carry. */
  lemma HealReportsNameShards(total: nat, chunk: nat)
    ensures (forall damaged: set<nat> :: (forall j | j in damaged :: j < total) ==>
               Reports(chunk, damaged) == Named(chunk, damaged))
            <==> total <= 256
  {
    if total <= 256 {
      forall damaged: set<nat> ensures (forall j | j in damaged :: j < total) ==>
        Reports(chunk, damaged) == Named(chunk, damaged)
      {
        if forall j | j in damaged :: j < total {
          assert forall j | j in damaged :: HealReport(chunk, j) == (chunk, j);
        }
      }
    } else {
      var damaged: set<nat> := {256};
      assert HealReport(chunk, 256) in Reports(chunk, damaged);
      assert (chunk, 0) !in Named(chunk, damaged);
      assert forall j | j in damaged :: j < total;
    }
  }

  // ---------------------------------------------------------------- durability

  /** What the shards of one blob return after a PUT: `acked` shards still hold what was
      written unless they were `lost` since; of the others only the bitrot hypothesis is known. */
  ghost predicate StoredAs(p: Params, blob: Bytes, acked: set<nat>, lost: set<nat>, read: Slots)
    requires p.Valid()
  {
    && Encoded(p, blob).Success?
    && AlterationsFail(p, |blob|, Encoded(p, blob).value, read)
    && (forall j | j in acked :: j < |read|)
    && forall j | j in acked - lost :: read[j] == Some(Encoded(p, blob).value[j])
  }

  lemma IntactShardIsClean(p: Params, blob: Bytes, written: seq<Bytes>, j: nat, t: nat)
    requires p.Valid() && Mds(p.ec) && t < StripeCount(|blob|, p.stripeSize) && j < |written|
    requires Encoded(p, blob) == Success(written)
    ensures Intact(p, |blob|, Some(written[j]), t)
  {
    hide StripeCount, StripeLen, UnitSize, Mds, FrameAt, FrameOf, FrameStart, FrameLen, Body, Word;
    var count := StripeCount(|blob|, p.stripeSize);
    EncodingSucceeds(p, blob, count);
    FrameInPlace(p, blob, j, count, t, FrameStart(p, t), FrameLen(p, |blob|, t));
  }

  lemma ErasureIsFaithful(p: Params, blobLen: nat, written: seq<Bytes>, stored: Slots)
    requires p.Valid() && |written| == p.ec.Total() && Agrees(stored, written)
    ensures AlterationsFail(p, blobLen, written, stored)
  {
    hide StripeCount, IsFrame, FrameStart, FrameLen;
    forall t, j | 0 <= t < StripeCount(blobLen, p.stripeSize) && 0 <= j < |stored|
      ensures FrameIsFaithful(p, blobLen, written[j], stored[j], t)
    {
      MissingIsNotIntact(p, blobLen, t);
    }
  }

  lemma ErasedFramesAreMissing(p: Params, blob: Bytes, written: seq<Bytes>, stored: Slots, t: nat)
    requires p.Valid() && Mds(p.ec) && t < StripeCount(|blob|, p.stripeSize)
    requires Encoded(p, blob) == Success(written) && Agrees(stored, written)
    ensures CleanCount(p, |blob|, stored, t) == |PresentSet(stored)|
  {
    hide StripeCount, StripeLen, UnitSize, Mds, Intact, Encoded;
    forall j | 0 <= j < |stored| ensures j in IntactSet(p, |blob|, stored, t) <==> j in PresentSet(stored) {
      if stored[j].Some? {
        IntactShardIsClean(p, blob, written, j, t);
      } else {
        MissingIsNotIntact(p, |blob|, t);
      }
    }
    assert IntactSet(p, |blob|, stored, t) == PresentSet(stored);
  }

  lemma MissingIsNotIntact(p: Params, blobLen: nat, t: nat)
    requires p.Valid() && t < StripeCount(blobLen, p.stripeSize)
    ensures !Intact(p, blobLen, None, t)
  {
  }

  /** With shards missing but none altered, nothing about the hash is needed: the blob comes back
      when `data` shards are there, and otherwise the loss is reported. */
  lemma ErasuresAreTolerated(p: Params, blob: Bytes, written: seq<Bytes>, stored: Slots)
    requires p.Valid() && Mds(p.ec) && Encoded(p, blob) == Success(written) && Agrees(stored, written)
    ensures |PresentSet(stored)| >= p.ec.data || blob == [] ==> DecodedBytes(p, |blob|, stored) == Success(blob)
    ensures |PresentSet(stored)| < p.ec.data && blob != [] ==>
              IsTooFewShards(DecodedBytes(p, |blob|, stored), p.ec.data)
  {
    hide StripeCount, StripeLen, UnitSize, Mds, CleanCount, Encoded, DecodedBytes, AlterationsFail;
    EncodedBodiesAreUniform(p, blob);
    ErasureIsFaithful(p, |blob|, written, stored);
    forall t | 0 <= t < StripeCount(|blob|, p.stripeSize)
      ensures CleanCount(p, |blob|, stored, t) == |PresentSet(stored)|
    {
      ErasedFramesAreMissing(p, blob, written, stored, t);
    }
    StripesTileBlob(|blob|, p.stripeSize);
    if blob != [] {
      assert CleanCount(p, |blob|, stored, 0) == |PresentSet(stored)|;
    }
    DecodeInvertsEncode(p, blob, written, stored);
  }

  lemma SurvivingShardsSuffice(p: Params, blob: Bytes, acked: set<nat>, lost: set<nat>, read: Slots, t: nat)
    requires p.Valid() && Mds(p.ec) && t < StripeCount(|blob|, p.stripeSize)
    requires StoredAs(p, blob, acked, lost, read) && |acked| >= p.ec.data + |lost|
    ensures CleanCount(p, |blob|, read, t) >= p.ec.data
  {
    hide StripeCount, StripeLen, UnitSize, Mds, Intact, Encoded, FrameIsFaithful, Encode;
    var clean := IntactSet(p, |blob|, read, t);
    forall j | j in acked - lost ensures j in clean {
      IntactShardIsClean(p, blob, Encoded(p, blob).value, j, t);
    }
    SubsetSize(acked - lost, clean);
    SubsetSize(acked, (acked - lost) + lost);
  }

  lemma AckedBlobIsRecoverable(p: Params, code: CodeMode, blob: Bytes, acked: set<nat>, lost: set<nat>, read: Slots)
    requires code.Valid() && p.Valid() && Mds(p.ec) && p.ec.data == code.data && p.ec.parity == code.parity
    requires StoredAs(p, blob, acked, lost, read)
    requires |acked| >= code.WriteQuorum() && |lost| < code.parity && 2 * |lost| <= code.parity + 1
    ensures Recoverable(p, |blob|, read)
  {
    hide StripeCount, StripeLen, UnitSize, Mds, CleanCount, Encoded, FrameIsFaithful;
    QuorumLeavesSlack(code, 0, |lost|);
    forall t | 0 <= t < StripeCount(|blob|, p.stripeSize)
      ensures CleanCount(p, |blob|, read, t) >= p.ec.data
    {
      SurvivingShardsSuffice(p, blob, acked, lost, read, t);
    }
  }

  /** Of the shards of an acknowledged blob any fewer than `parity` and at most half of `parity + 1`
      may be lost, and nothing is. */
  lemma AckedBlobIsDurable(p: Params, code: CodeMode, blob: Bytes, acked: set<nat>, lost: set<nat>, read: Slots)
    requires code.Valid() && p.Valid() && Mds(p.ec) && p.ec.data == code.data && p.ec.parity == code.parity
    requires StoredAs(p, blob, acked, lost, read)
    requires |acked| >= code.WriteQuorum() && |lost| < code.parity && 2 * |lost| <= code.parity + 1
    ensures DecodedBytes(p, |blob|, read) == Success(blob)
  {
    hide Mds, Encoded, DecodedBytes, Recoverable;
    AckedBlobIsRecoverable(p, code, blob, acked, lost, read);
    DecodeInvertsEncode(p, blob, Encoded(p, blob).value, read);
  }

  /** The bound is exact: a blob that only a bare quorum holds is gone once it loses more. */
  lemma OneLossTooMany(p: Params, code: CodeMode, blob: Bytes, acked: set<nat>, lost: set<nat>, read: Slots)
    requires code.Valid() && p.Valid() && Mds(p.ec) && p.ec.data == code.data && p.ec.parity == code.parity
    requires blob != [] && Encoded(p, blob).Success? && |read| == p.ec.Total()
    requires |acked| == code.WriteQuorum() && lost <= acked && (forall j | j in acked :: j < p.ec.Total())
    requires Agrees(read, Encoded(p, blob).value) && PresentSet(read) == acked - lost
    requires !(|lost| < code.parity && 2 * |lost| <= code.parity + 1)
    ensures IsTooFewShards(DecodedBytes(p, |blob|, read), p.ec.data)
  {
    hide Mds, Encoded, DecodedBytes, IsTooFewShards;
    QuorumLeavesSlack(code, 0, |lost|);
    ErasuresAreTolerated(p, blob, Encoded(p, blob).value, read);
  }

  /** Every blob of the object was acknowledged at quorum and lost at most the slack since. */
  ghost predicate Acknowledged(p: Params, code: CodeMode, cuts: seq<Bytes>, acked: seq<set<nat>>,
                               lost: seq<set<nat>>, replies: seq<Slots>)
    requires p.Valid() && code.Valid()
  {
    && |acked| == |lost| == |replies| == |cuts|
    && forall k | 0 <= k < |cuts| ::
         && |acked[k]| >= code.WriteQuorum()
         && |lost[k]| < code.parity && 2 * |lost[k]| <= code.parity + 1
         && StoredAs(p, cuts[k], acked[k], lost[k], replies[k])
  }

  lemma {:induction false} ConcatAppends(units: seq<Bytes>, last: Bytes)
    ensures Concat(units + [last]) == Concat(units) + last
  {
    if units == [] {
      assert units + [last] == [last] && Concat([last]) == last + Concat([last][1..]);
    } else {
      var all := units + [last];
      assert all[0] == units[0] && all[1..] == units[1..] + [last];
      ConcatAppends(units[1..], last);
      assert units[0] + (Concat(units[1..]) + last) == units[0] + Concat(units[1..]) + last;
    }
  }

  /** What reading an object's shards returned, whatever is missing: each reply is the blob's own
      encoding with frames gone or altered, and an altered frame no longer begins with its digest. */
  ghost predicate Unforged(p: Params, cuts: seq<Bytes>, replies: seq<Slots>)
    requires p.Valid()
  {
    && |replies| == |cuts|
    && forall k | 0 <= k < |cuts| ::
         && Encoded(p, cuts[k]).Success?
         && AlterationsFail(p, |cuts[k]|, Encoded(p, cuts[k]).value, replies[k])
  }

  /** Every stripe of every blob keeps at least `data` frames. */
  ghost predicate AllRecoverable(p: Params, cuts: seq<Bytes>, replies: seq<Slots>)
    requires p.Valid()
  {
    |replies| == |cuts| && forall k | 0 <= k < |cuts| :: Recoverable(p, |cuts[k]|, replies[k])
  }

  /** Reading never returns wrong bytes, however much is lost: the blobs themselves when each of
      them can be recovered, and `TooFewShards` when one cannot. */
  lemma {:induction false} FetchedIsHonest(p: Params, cuts: seq<Bytes>, blobs: seq<BlobDesc>, replies: seq<Slots>)
    requires p.Valid() && Mds(p.ec) && Describes(blobs, cuts) && Unforged(p, cuts, replies)
    requires forall i | 0 <= i < |blobs| :: blobs[i].shards == p.ec.Total()
    ensures AllRecoverable(p, cuts, replies) ==> Fetched(p, blobs, replies) == Success(Concat(cuts))
    ensures !AllRecoverable(p, cuts, replies) ==> IsTooFewShards(Fetched(p, blobs, replies), p.ec.data)
    decreases |cuts|
  {
    hide Mds, DecodedBytes, AlterationsFail, Encoded, Recoverable, Concat;
    if cuts == [] {
      NothingToConcat();
    } else {
      var n := |cuts| - 1;
      FetchedIsHonest(p, cuts[..n], blobs[..n], replies[..n]);
      DecodeInvertsEncode(p, cuts[n], Encoded(p, cuts[n]).value, replies[n]);
      ConcatAppends(cuts[..n], cuts[n]);
      assert cuts == cuts[..n] + [cuts[n]];
      LastIsRecoverable(p, cuts, replies);
    }
  }

  lemma LastIsRecoverable(p: Params, cuts: seq<Bytes>, replies: seq<Slots>)
    requires p.Valid() && |replies| == |cuts| > 0
    ensures var n := |cuts| - 1;
            AllRecoverable(p, cuts, replies) <==>
              AllRecoverable(p, cuts[..n], replies[..n]) && Recoverable(p, |cuts[n]|, replies[n])
  {
    hide Recoverable;
    var n := |cuts| - 1;
    assert forall k | 0 <= k < n :: cuts[..n][k] == cuts[k] && replies[..n][k] == replies[k];
  }

  lemma NothingToConcat()
    ensures Concat([]) == []
  {
  }

  /** Blobs acknowledged at quorum that lost no more than the slack can be read. */
  lemma AckedBlobsAreRecoverable(p: Params, code: CodeMode, cuts: seq<Bytes>, acked: seq<set<nat>>,
                                 lost: seq<set<nat>>, replies: seq<Slots>)
    requires code.Valid() && p.Valid() && Mds(p.ec) && p.ec.data == code.data && p.ec.parity == code.parity
    requires Acknowledged(p, code, cuts, acked, lost, replies)
    ensures |replies| == |cuts| && Unforged(p, cuts, replies) && AllRecoverable(p, cuts, replies)
  {
    hide Mds, Recoverable, AlterationsFail, Encoded;
    forall k | 0 <= k < |cuts| ensures Recoverable(p, |cuts[k]|, replies[k]) {
      AckedBlobIsRecoverable(p, code, cuts[k], acked[k], lost[k], replies[k]);
    }
  }

  /** An acknowledged PUT is durable: after every blob lost fewer than `parity` and at most half of
      `parity + 1` of its shards, a GET still returns the exact object. */
  lemma AckedPutIsDurable(p: Params, code: CodeMode, data: Bytes, blobs: seq<BlobDesc>,
                          acked: seq<set<nat>>, lost: seq<set<nat>>, replies: seq<Slots>)
    requires code.Valid() && p.Valid() && Mds(p.ec) && p.ec.data == code.data && p.ec.parity == code.parity
    requires Describes(blobs, Cuts(data, code.blobSize))
    requires forall i | 0 <= i < |blobs| :: blobs[i].shards == code.Total()
    requires Acknowledged(p, code, Cuts(data, code.blobSize), acked, lost, replies)
    ensures |replies| == |blobs| && Checked(|data|, Fetched(p, blobs, replies)) == Success(data)
  {
    hide Mds, Fetched, Acknowledged, Cuts, Unforged, AllRecoverable;
    CutsConcatenate(data, code.blobSize);
    AckedBlobsAreRecoverable(p, code, Cuts(data, code.blobSize), acked, lost, replies);
    FetchedIsHonest(p, Cuts(data, code.blobSize), blobs, replies);
  }

  /** The shards that acknowledged blob `k`. */
  ghost function AckedBy(joins: seq<seq<Join>>, n: nat): seq<set<nat>>
    requires n <= |joins|
  {
    seq(n, k requires 0 <= k < n => Committed(joins[k]))
  }

  /** A client's round trip. `replies` is what reading the shards of each blob returns after some
      shards, `lost`, have gone; the shards that committed and were not lost hold what was sent.
      A PUT that reported success is read back byte for byte. */
  method PutThenGet(p: Params, code: CodeMode, data: Bytes, chunk: nat, shards: nat, ids: seq<nat>,
                    joins: seq<seq<Join>>, ghost lost: seq<set<nat>>, replies: seq<Slots>)
    returns (put: Result<seq<BlobDesc>, PutError>, got: Option<Result<(Bytes, set<(nat, nat)>), GatewayError>>)
    requires code.Valid() && p.Valid() && Mds(p.ec) && Fits(p, code)
    requires |Cuts(data, code.blobSize)| <= |ids| && |Cuts(data, code.blobSize)| == |lost| == |replies| == |joins|
    requires forall k | 0 <= k < |joins| :: OnePerShard(joins[k])
    requires forall k | 0 <= k < |lost| && BlobError(p, code, Cuts(data, code.blobSize)[k], joins[k]) == None ::
               && |lost[k]| < code.parity && 2 * |lost[k]| <= code.parity + 1
               && StoredAs(p, Cuts(data, code.blobSize)[k], Committed(joins[k]), lost[k], replies[k])
    ensures got.Some? <==> put.Success?
    ensures put.Success? ==> got.value.Success? && got.value.value.0 == data
  {
    hide Mds, Encoded, StoredAs, Fetched, Cuts, Committed, OnePerShard;
    put := PutObject(p, code, data, chunk, shards, ids, joins);
    got := None;
    if put.Success? {
      ghost var cuts, acked := Cuts(data, code.blobSize), AckedBy(joins, |joins|);
      assert forall k | 0 <= k < |cuts| :: BlobError(p, code, cuts[k], joins[k]) == None;
      assert Acknowledged(p, code, cuts, acked, lost, replies);
      AckedPutIsDurable(p, code, data, put.value, acked, lost, replies);
      var r := GetObject(p, |data|, put.value, replies);
      got := Some(r);
    }
  }
}
