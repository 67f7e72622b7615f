/** Striping arithmetic (crates/epoch-ec/src/layout.rs): unit sizes, stripe counts
    and frame offsets. All sizes are unbounded naturals. */
module Layout {

  const HASH_LEN: nat := 32
  const SHARD_ALIGN: nat := 64

  function DivCeil(a: nat, b: nat): nat
    requires b > 0
  {
    a / b + if a % b > 0 then 1 else 0
  }

  function NextMultipleOf(a: nat, m: nat): nat
    requires m > 0
  {
    if a % m == 0 then a else a + (m - a % m)
  }

  function UnitSize(stripeLen: nat, dataShards: nat): nat
    requires dataShards > 0
  {
    NextMultipleOf(DivCeil(stripeLen, dataShards), SHARD_ALIGN)
  }

  function StripeCount(blobLen: nat, stripeSize: nat): nat
    requires stripeSize > 0
  {
    DivCeil(blobLen, stripeSize)
  }

  function LastStripeLen(blobLen: nat, stripeSize: nat): nat
    requires stripeSize > 0
  {
    if blobLen == 0 then 0
    else if blobLen % stripeSize == 0 then stripeSize
    else blobLen % stripeSize
  }

  /** The length of stripe `s`: full, except possibly the last one. */
  function StripeLen(blobLen: nat, stripeSize: nat, s: nat): nat
    requires stripeSize > 0 && s < StripeCount(blobLen, stripeSize)
  {
    if s == StripeCount(blobLen, stripeSize) - 1 then LastStripeLen(blobLen, stripeSize) else stripeSize
  }

  function ShardLogicalLen(blobLen: nat, stripeSize: nat, dataShards: nat): nat
    requires stripeSize > 0 && dataShards > 0
  {
    var stripes := StripeCount(blobLen, stripeSize);
    if stripes == 0 then 0
    else
      (stripes - 1) * UnitSize(stripeSize, dataShards)
      + UnitSize(LastStripeLen(blobLen, stripeSize), dataShards)
  }

  function ShardPhysicalBlobLen(blobLen: nat, stripeSize: nat, dataShards: nat): nat
    requires stripeSize > 0 && dataShards > 0
  {
    StripeCount(blobLen, stripeSize) * HASH_LEN + ShardLogicalLen(blobLen, stripeSize, dataShards)
  }

  function FrameOffset(stripeIdx: nat, unit: nat): nat {
    stripeIdx * (HASH_LEN + unit)
  }

  /** The frame lengths of one shard body: the send plan of a streamed shard
      (crates/epoch-gateway/src/pipeline.rs, `stripe_frame_lens`). */
  function StripeFrameLens(blobLen: nat, stripeSize: nat, dataShards: nat): (lens: seq<nat>)
    requires stripeSize > 0 && dataShards > 0
    ensures |lens| == StripeCount(blobLen, stripeSize)
  {
    seq(StripeCount(blobLen, stripeSize), s requires 0 <= s < StripeCount(blobLen, stripeSize) =>
      HASH_LEN + UnitSize(StripeLen(blobLen, stripeSize, s), dataShards))
  }

  function Sum(lens: seq<nat>): nat {
    if lens == [] then 0 else Sum(lens[..|lens| - 1]) + lens[|lens| - 1]
  }

  lemma SumStep(lens: seq<nat>, i: nat)
    requires i < |lens|
    ensures Sum(lens[..i + 1]) == Sum(lens[..i]) + lens[i]
  {
    assert lens[..i + 1][..i] == lens[..i];
  }

  lemma MulMonotone(a: nat, b: nat, c: nat)
    requires a <= b
    ensures a * c <= b * c
  {
  }

  /** `DivCeil` is the least multiplier that covers. */
  lemma DivCeilIsLeastCover(a: nat, b: nat, q: nat)
    requires b > 0
    ensures DivCeil(a, b) <= q <==> a <= q * b
  {
    assert a == a / b * b + a % b;
    if DivCeil(a, b) <= q {
      MulMonotone(DivCeil(a, b), q, b);
      assert DivCeil(a, b) * b == a / b * b + (if a % b > 0 then b else 0);
    } else {
      MulMonotone(q, DivCeil(a, b) - 1, b);
      if a % b > 0 {
        assert (DivCeil(a, b) - 1) * b == a / b * b;
      } else {
        assert (DivCeil(a, b) - 1) * b == a / b * b - b;
      }
    }
  }

  /** A unit is the least 64-aligned length whose `dataShards` copies cover the stripe. */
  lemma UnitIsLeastAlignedCover(stripeLen: nat, dataShards: nat, u: nat)
    requires dataShards > 0
    ensures UnitSize(stripeLen, dataShards) % SHARD_ALIGN == 0
    ensures u % SHARD_ALIGN == 0 ==> (UnitSize(stripeLen, dataShards) <= u <==> stripeLen <= u * dataShards)
    ensures UnitSize(stripeLen, dataShards) == 0 <==> stripeLen == 0
  {
    DivCeilIsLeastCover(stripeLen, dataShards, u);
    DivCeilIsLeastCover(stripeLen, dataShards, 0);
  }

  lemma UnitCovers(stripeLen: nat, dataShards: nat)
    requires dataShards > 0
    ensures stripeLen <= dataShards * UnitSize(stripeLen, dataShards)
  {
    UnitIsLeastAlignedCover(stripeLen, dataShards, 0);
    UnitIsLeastAlignedCover(stripeLen, dataShards, UnitSize(stripeLen, dataShards));
  }

  /** The stripes tile the blob: all but the last are full and nothing is left over. */
  lemma StripesTileBlob(blobLen: nat, stripeSize: nat)
    requires stripeSize > 0
    ensures StripeCount(blobLen, stripeSize) == 0 <==> blobLen == 0
    ensures LastStripeLen(blobLen, stripeSize) == 0 <==> blobLen == 0
    ensures blobLen > 0 ==>
              && 0 < LastStripeLen(blobLen, stripeSize) <= stripeSize
              && (StripeCount(blobLen, stripeSize) - 1) * stripeSize + LastStripeLen(blobLen, stripeSize) == blobLen
  {
    assert blobLen == blobLen / stripeSize * stripeSize + blobLen % stripeSize;
    var q := blobLen / stripeSize;
    assert (q - 1) * stripeSize == q * stripeSize - stripeSize;
  }

  /** Where stripe `s` lies in the blob. */
  lemma StripeWindow(blobLen: nat, stripeSize: nat, s: nat)
    requires stripeSize > 0 && s < StripeCount(blobLen, stripeSize)
    ensures s * stripeSize < blobLen
    ensures s * stripeSize + StripeLen(blobLen, stripeSize, s) <= blobLen
    ensures StripeLen(blobLen, stripeSize, s)
            == (if s * stripeSize + stripeSize <= blobLen then stripeSize else blobLen - s * stripeSize)
    ensures 0 < StripeLen(blobLen, stripeSize, s) <= stripeSize
    ensures s < StripeCount(blobLen, stripeSize) - 1 ==> (s + 1) * stripeSize < blobLen
    ensures s == StripeCount(blobLen, stripeSize) - 1 ==>
              s * stripeSize + StripeLen(blobLen, stripeSize, s) == blobLen
  {
    StripesTileBlob(blobLen, stripeSize);
    var last := StripeCount(blobLen, stripeSize) - 1;
    if s < last {
      MulMonotone(s + 1, last, stripeSize);
      assert (s + 1) * stripeSize == s * stripeSize + stripeSize;
    }
  }

  lemma FrameOffsetStep(k: nat, unit: nat)
    ensures FrameOffset(k + 1, unit) == FrameOffset(k, unit) + HASH_LEN + unit
    ensures FrameOffset(k, unit) == k * HASH_LEN + k * unit
  {
  }

  lemma PhysicalLenFromOffset(blobLen: nat, stripeSize: nat, dataShards: nat)
    requires stripeSize > 0 && dataShards > 0 && StripeCount(blobLen, stripeSize) > 0
    ensures ShardPhysicalBlobLen(blobLen, stripeSize, dataShards)
            == FrameOffset(StripeCount(blobLen, stripeSize) - 1, UnitSize(stripeSize, dataShards))
               + HASH_LEN + UnitSize(LastStripeLen(blobLen, stripeSize), dataShards)
  {
    var full := UnitSize(stripeSize, dataShards);
    var last := StripeCount(blobLen, stripeSize) - 1;
    FrameOffsetStep(last, full);
    assert (last + 1) * HASH_LEN == last * HASH_LEN + HASH_LEN;
  }

  /** The first `k` frames occupy `FrameOffset(k, full unit)` bytes, and all of them the
      physical length: frame boundaries can be derived, never stored. */
  lemma {:induction false} FramesTileBody(blobLen: nat, stripeSize: nat, dataShards: nat, k: nat)
    requires stripeSize > 0 && dataShards > 0 && k <= StripeCount(blobLen, stripeSize)
    ensures k < StripeCount(blobLen, stripeSize) ==>
              Sum(StripeFrameLens(blobLen, stripeSize, dataShards)[..k])
              == FrameOffset(k, UnitSize(stripeSize, dataShards))
    ensures k == StripeCount(blobLen, stripeSize) ==>
              Sum(StripeFrameLens(blobLen, stripeSize, dataShards)[..k])
              == ShardPhysicalBlobLen(blobLen, stripeSize, dataShards)
  {
    var lens := StripeFrameLens(blobLen, stripeSize, dataShards);
    var full := UnitSize(stripeSize, dataShards);
    if k > 0 {
      FramesTileBody(blobLen, stripeSize, dataShards, k - 1);
      assert lens[..k][..k - 1] == lens[..k - 1];
      FrameOffsetStep(k - 1, full);
      if k == StripeCount(blobLen, stripeSize) {
        PhysicalLenFromOffset(blobLen, stripeSize, dataShards);
      }
    }
  }
}
