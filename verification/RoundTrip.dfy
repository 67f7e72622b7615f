/** The fault-tolerant round trip of the EC pipeline. */
module RoundTrip {
  import opened Bytes
  import opened Layout
  import opened Frame
  import opened Erasure
  import opened Pipeline

  // ---------------------------------------------------------------- one stripe

  lemma PaddedShift(stripe: Bytes, unit: nat, ds: nat)
    ensures Padded(stripe, unit, ds + unit) == Padded(stripe[Min(unit, |stripe|)..], unit, ds)
  {
    var d := Min(unit, |stripe|);
    var from, to := Min(ds, |stripe| - d), Min(ds + unit, |stripe| - d);
    WindowOfDrop(stripe, d, from, to);
  }

  lemma WindowOfDrop(s: Bytes, d: nat, from: nat, to: nat)
    requires d <= |s| && from <= to <= |s| - d
    ensures s[d..][from..to] == s[d + from..d + to]
  {
  }

  lemma DataUnitsTail(stripe: Bytes, unit: nat, n: nat)
    requires n > 0
    ensures DataUnits(stripe, unit, n)[1..] == DataUnits(stripe[Min(unit, |stripe|)..], unit, n - 1)
  {
    hide Padded;
    forall i: nat | i < n - 1
      ensures DataUnit(stripe, unit, i + 1) == DataUnit(stripe[Min(unit, |stripe|)..], unit, i)
    {
      assert (i + 1) * unit == i * unit + unit;
      PaddedShift(stripe, unit, i * unit);
    }
  }

  lemma FirstUnit(stripe: Bytes, unit: nat, n: nat)
    requires n > 0
    ensures DataUnits(stripe, unit, n)[0] == Padded(stripe, unit, 0)
    ensures Padded(stripe, unit, 0)[..Min(unit, |stripe|)] == stripe[..Min(unit, |stripe|)]
  {
    assert 0 * unit == 0;
  }

  /** Padding is only ever at the end: the units of a stripe start with the stripe. */
  lemma {:induction false} UnitsHoldStripe(stripe: Bytes, unit: nat, n: nat)
    requires |stripe| <= n * unit
    ensures |Concat(DataUnits(stripe, unit, n))| == n * unit
    ensures Concat(DataUnits(stripe, unit, n))[..|stripe|] == stripe
    decreases n
  {
    hide Padded, DataUnits;
    if n > 0 {
      var d := Min(unit, |stripe|);
      var rest := stripe[d..];
      assert (n - 1) * unit == n * unit - unit;
      DataUnitsTail(stripe, unit, n);
      FirstUnit(stripe, unit, n);
      UnitsHoldStripe(rest, unit, n - 1);
    }
  }

  lemma UnitsAreUniform(stripe: Bytes, unit: nat, n: nat)
    requires n > 0 && unit > 0 && unit % 64 == 0
    ensures UniformLen(DataUnits(stripe, unit, n), n) == Success(unit)
  {
    hide DataUnits;
    assert unit % 2 == 0;
  }

  lemma StripeUnitsEncodable(p: Params, blob: Bytes, s: nat)
    requires p.Valid() && s < StripeCount(|blob|, p.stripeSize)
    ensures Encodable(p.ec, StripeUnits(p, blob, s))
  {
    hide StripeCount, StripeAt, UnitSize, UniformLen;
    var stripe := StripeAt(blob, p.stripeSize, s);
    UnitIsLeastAlignedCover(|stripe|, p.ec.data, 0);
    UnitsAreUniform(stripe, UnitSize(|stripe|, p.ec.data), p.ec.data);
  }

  /** The codeword of stripe `s`. */
  ghost function Word(p: Params, blob: Bytes, s: nat): seq<Bytes>
    requires p.Valid() && s < StripeCount(|blob|, p.stripeSize)
  {
    var units := StripeUnits(p, blob, s);
    match p.ec.rsEncode(units)
    case None => units
    case Some(parity) => units + parity
  }

  lemma WordShape(p: Params, blob: Bytes, s: nat)
    requires p.Valid() && Mds(p.ec) && s < StripeCount(|blob|, p.stripeSize)
    ensures |Word(p, blob, s)| == p.ec.Total()
    ensures forall j | 0 <= j < p.ec.Total() :: HASH_LEN + |Word(p, blob, s)[j]| == FrameLen(p, |blob|, s)
    ensures var units := StripeUnits(p, blob, s);
            && Encodable(p.ec, units)
            && Encode(p.ec, units).Success?
            && |Encode(p.ec, units).value| == p.ec.parity
            && Word(p, blob, s) == units + Encode(p.ec, units).value
  {
    StripeUnitsEncodable(p, blob, s);
    assert EncodesEvenly(p.ec);
  }

  // ---------------------------------------------------------------- encoded bodies

  /** The first `s` frames of shard `j`. */
  ghost function Body(p: Params, blob: Bytes, j: nat, s: nat): Bytes
    requires p.Valid() && s <= StripeCount(|blob|, p.stripeSize)
  {
    if s == 0 then []
    else
      var word := Word(p, blob, s - 1);
      Body(p, blob, j, s - 1) + (if j < |word| then FrameOf(p.hash, word[j]) else [])
  }

  lemma {:induction false} EncodingSucceeds(p: Params, blob: Bytes, s: nat)
    requires p.Valid() && Mds(p.ec) && s <= StripeCount(|blob|, p.stripeSize)
    ensures EncodedUpTo(p, blob, s).Success?
    ensures forall j | 0 <= j < p.ec.Total() :: EncodedUpTo(p, blob, s).value[j] == Body(p, blob, j, s)
  {
    hide StripeCount, StripeLen, UnitSize, Mds, FrameOf;
    if s > 0 {
      EncodingSucceeds(p, blob, s - 1);
      WordShape(p, blob, s - 1);
    }
  }

  lemma {:induction false} BodyLen(p: Params, blob: Bytes, j: nat, s: nat)
    requires p.Valid() && Mds(p.ec) && s <= StripeCount(|blob|, p.stripeSize) && j < p.ec.Total()
    ensures |Body(p, blob, j, s)| == Sum(StripeFrameLens(|blob|, p.stripeSize, p.ec.data)[..s])
  {
    hide StripeCount, StripeLen, UnitSize, Mds;
    if s > 0 {
      var lens := StripeFrameLens(|blob|, p.stripeSize, p.ec.data);
      BodyLen(p, blob, j, s - 1);
      WordShape(p, blob, s - 1);
      SumStep(lens, s - 1);
      hide Sum;
    }
  }

  lemma WindowOfPrefix(body: Bytes, tail: Bytes, off: nat, len: nat, window: Bytes)
    requires FrameAt(Some(body), off, len) == Some(window)
    ensures FrameAt(Some(body + tail), off, len) == Some(window)
  {
    assert (body + tail)[off..off + len] == body[off..off + len];
  }

  lemma WindowOfTail(body: Bytes, frame: Bytes, off: nat, len: nat)
    requires off == |body| && len == |frame|
    ensures FrameAt(Some(body + frame), off, len) == Some(frame)
  {
    assert (body + frame)[off..off + len] == frame;
  }

  lemma BodyStep(p: Params, blob: Bytes, j: nat, s: nat)
    requires p.Valid() && Mds(p.ec) && s < StripeCount(|blob|, p.stripeSize) && j < p.ec.Total()
    ensures j < |Word(p, blob, s)|
    ensures Body(p, blob, j, s + 1) == Body(p, blob, j, s) + FrameOf(p.hash, Word(p, blob, s)[j])
    ensures |Body(p, blob, j, s)| == FrameStart(p, s)
    ensures |FrameOf(p.hash, Word(p, blob, s)[j])| == FrameLen(p, |blob|, s)
  {
    WordShape(p, blob, s);
    BodyLen(p, blob, j, s);
    FramesTileBody(|blob|, p.stripeSize, p.ec.data, s);
  }

  /** Each frame lies where decoding will look for it. */
  lemma {:induction false} FrameInPlace(p: Params, blob: Bytes, j: nat, s: nat, t: nat, off: nat, len: nat)
    requires p.Valid() && Mds(p.ec) && t < s <= StripeCount(|blob|, p.stripeSize) && j < p.ec.Total()
    requires off == FrameStart(p, t) && len == FrameLen(p, |blob|, t)
    ensures j < |Word(p, blob, t)|
    ensures FrameAt(Some(Body(p, blob, j, s)), off, len) == Some(FrameOf(p.hash, Word(p, blob, t)[j]))
    decreases s
  {
    hide StripeCount, StripeLen, UnitSize, Mds, FrameStart, FrameLen, FrameAt, FrameOf, Body, Word;
    BodyStep(p, blob, j, s - 1);
    var before, frame := Body(p, blob, j, s - 1), FrameOf(p.hash, Word(p, blob, s - 1)[j]);
    if t < s - 1 {
      FrameInPlace(p, blob, j, s - 1, t, off, len);
      WindowOfPrefix(before, frame, off, len, FrameOf(p.hash, Word(p, blob, t)[j]));
    } else {
      WindowOfTail(before, frame, off, len);
    }
  }

  /** Encoding never fails, and every body has the preallocated physical length. */
  lemma EncodedBodiesAreUniform(p: Params, blob: Bytes)
    requires p.Valid() && Mds(p.ec)
    ensures Encoded(p, blob).Success? && |Encoded(p, blob).value| == p.ec.Total()
    ensures forall j | 0 <= j < p.ec.Total() ::
              |Encoded(p, blob).value[j]| == ShardPhysicalBlobLen(|blob|, p.stripeSize, p.ec.data)
  {
    hide StripeCount, StripeLen, UnitSize, Mds, ShardPhysicalBlobLen;
    var count := StripeCount(|blob|, p.stripeSize);
    EncodingSucceeds(p, blob, count);
    FramesTileBody(|blob|, p.stripeSize, p.ec.data, count);
    forall j | 0 <= j < p.ec.Total()
      ensures |Encoded(p, blob).value[j]| == ShardPhysicalBlobLen(|blob|, p.stripeSize, p.ec.data)
    {
      BodyLen(p, blob, j, count);
    }
  }

  // ---------------------------------------------------------------- damage

  /** The bitrot hypothesis for one frame: bytes that begin with the digest of the rest are the
      bytes that were written. */
  ghost predicate FrameIsFaithful(p: Params, blobLen: nat, written: Bytes, stored: Option<Bytes>, t: nat)
    requires p.Valid() && t < StripeCount(blobLen, p.stripeSize)
  {
    Intact(p, blobLen, stored, t) ==>
      FrameOfStripe(p, blobLen, stored, t) == FrameOfStripe(p, blobLen, Some(written), t)
  }

  /** The bitrot hypothesis: a frame altered in any way no longer begins with its digest. Missing
      bodies, truncation and appended garbage need no hypothesis. */
  ghost predicate AlterationsFail(p: Params, blobLen: nat, written: seq<Bytes>, stored: Slots)
    requires p.Valid()
  {
    && |written| == |stored| == p.ec.Total()
    && forall t, j | 0 <= t < StripeCount(blobLen, p.stripeSize) && 0 <= j < |stored| ::
         FrameIsFaithful(p, blobLen, written[j], stored[j], t)
  }

  /** The shards whose frame of stripe `t` is there and unaltered, as far as the hash can tell. */
  ghost function IntactSet(p: Params, blobLen: nat, stored: Slots, t: nat): set<nat>
    requires p.Valid() && t < StripeCount(blobLen, p.stripeSize)
  {
    set j | 0 <= j < |stored| && Intact(p, blobLen, stored[j], t)
  }

  ghost function CleanCount(p: Params, blobLen: nat, stored: Slots, t: nat): nat
    requires p.Valid() && t < StripeCount(blobLen, p.stripeSize)
  {
    |IntactSet(p, blobLen, stored, t)|
  }

  lemma SurvivorsAreIntact(p: Params, blobLen: nat, stored: Slots, t: nat)
    requires p.Valid() && t < StripeCount(blobLen, p.stripeSize)
    ensures PresentSet(Survivors(p, blobLen, stored, t)) == IntactSet(p, blobLen, stored, t)
  {
    hide StripeCount, Survivors, Intact;
    forall j | 0 <= j < |stored|
      ensures Survivors(p, blobLen, stored, t)[j].Some? <==> Intact(p, blobLen, stored[j], t)
    {
      SurvivesIffIntact(p, blobLen, stored, t, j);
    }
  }

  /** Every stripe keeps at least `data` clean frames. */
  ghost predicate Recoverable(p: Params, blobLen: nat, stored: Slots)
    requires p.Valid()
  {
    forall t | 0 <= t < StripeCount(blobLen, p.stripeSize) :: CleanCount(p, blobLen, stored, t) >= p.ec.data
  }

  /** A surviving unit is the unit that was written. */
  lemma SurvivorAgrees(p: Params, blob: Bytes, written: seq<Bytes>, stored: Slots, t: nat, j: nat)
    requires p.Valid() && Mds(p.ec) && t < StripeCount(|blob|, p.stripeSize) && j < |stored|
    requires Encoded(p, blob) == Success(written) && AlterationsFail(p, |blob|, written, stored)
    requires Survivors(p, |blob|, stored, t)[j].Some?
    ensures j < |Word(p, blob, t)| && Survivors(p, |blob|, stored, t)[j].value == Word(p, blob, t)[j]
  {
    hide StripeCount, StripeLen, UnitSize, Mds, FrameAt, FrameOf, FrameStart, FrameLen, CleanUnit, Intact, Word, Body;
    var count := StripeCount(|blob|, p.stripeSize);
    EncodingSucceeds(p, blob, count);
    SurvivesIffIntact(p, |blob|, stored, t, j);
    assert FrameIsFaithful(p, |blob|, written[j], stored[j], t);
    FrameInPlace(p, blob, j, count, t, FrameStart(p, t), FrameLen(p, |blob|, t));
    CleanUnitIsFrame(p.hash, FrameOfStripe(p, |blob|, stored[j], t), Word(p, blob, t)[j]);
  }

  lemma SurvivorsAgree(p: Params, blob: Bytes, written: seq<Bytes>, stored: Slots, t: nat)
    requires p.Valid() && Mds(p.ec) && t < StripeCount(|blob|, p.stripeSize)
    requires Encoded(p, blob) == Success(written) && AlterationsFail(p, |blob|, written, stored)
    ensures Agrees(Survivors(p, |blob|, stored, t), Word(p, blob, t))
  {
    hide StripeCount, StripeLen, UnitSize, Mds, Survivors, FrameIsFaithful, Encoded, Word;
    WordShape(p, blob, t);
    var word, units := Word(p, blob, t), Survivors(p, |blob|, stored, t);
    forall j | 0 <= j < |units| && units[j].Some? ensures units[j].value == word[j] {
      SurvivorAgrees(p, blob, written, stored, t, j);
    }
  }

  /** Reassembling a stripe from its own data units gives the stripe. */
  lemma StripeFromUnits(p: Params, blob: Bytes, slots: Slots, t: nat)
    requires p.Valid() && t < StripeCount(|blob|, p.stripeSize) && p.ec.data <= |slots|
    requires forall i | 0 <= i < p.ec.data :: slots[i] == Some(StripeUnits(p, blob, t)[i])
    ensures |StripeAt(blob, p.stripeSize, t)| <= |DataBytes(slots, p.ec.data)|
    ensures DataBytes(slots, p.ec.data)[..|StripeAt(blob, p.stripeSize, t)|] == StripeAt(blob, p.stripeSize, t)
  {
    var stripe, units, n := StripeAt(blob, p.stripeSize, t), StripeUnits(p, blob, t), p.ec.data;
    assert seq(n, i requires 0 <= i < n => if slots[i].Some? then slots[i].value else []) == units;
    UnitCovers(|stripe|, n);
    UnitsHoldStripe(stripe, UnitSize(|stripe|, n), n);
  }

  lemma StripeDecodes(p: Params, blob: Bytes, written: seq<Bytes>, stored: Slots, t: nat)
    requires p.Valid() && Mds(p.ec) && t < StripeCount(|blob|, p.stripeSize)
    requires Encoded(p, blob) == Success(written) && AlterationsFail(p, |blob|, written, stored)
    ensures DecodedStripe(p, |blob|, stored, t)
            == if CleanCount(p, |blob|, stored, t) >= p.ec.data then Success(StripeAt(blob, p.stripeSize, t))
               else Failure(Ec(TooFewShards(CleanCount(p, |blob|, stored, t), p.ec.data)))
  {
    hide StripeCount, StripeLen, UnitSize, Mds, Reconstructed, Survivors, IntactSet, AlterationsFail, Encoded;
    var slots := Survivors(p, |blob|, stored, t);
    SurvivorsAreIntact(p, |blob|, stored, t);
    SurvivorsAgree(p, blob, written, stored, t);
    WordShape(p, blob, t);
    ReconstructRecovers(p.ec, StripeUnits(p, blob, t), slots);
    if |PresentSet(slots)| >= p.ec.data {
      StripeFromUnits(p, blob, Reconstructed(p.ec, slots).value, t);
    }
  }

  /** The bytes before stripe `s`. */
  function Before(blob: Bytes, stripeSize: nat, s: nat): Bytes
    requires stripeSize > 0
  {
    blob[..Min(s * stripeSize, |blob|)]
  }

  lemma StripesConcatenate(blob: Bytes, stripeSize: nat, s: nat)
    requires stripeSize > 0 && s < StripeCount(|blob|, stripeSize)
    ensures Before(blob, stripeSize, s) + StripeAt(blob, stripeSize, s) == Before(blob, stripeSize, s + 1)
    ensures s + 1 == StripeCount(|blob|, stripeSize) ==> Before(blob, stripeSize, s + 1) == blob
  {
    StripeWindow(|blob|, stripeSize, s);
    assert (s + 1) * stripeSize == s * stripeSize + stripeSize;
  }

  lemma {:induction false} PrefixDecodes(p: Params, blob: Bytes, written: seq<Bytes>, stored: Slots, s: nat)
    requires p.Valid() && Mds(p.ec) && s <= StripeCount(|blob|, p.stripeSize)
    requires Encoded(p, blob) == Success(written) && AlterationsFail(p, |blob|, written, stored)
    requires forall t | 0 <= t < s :: CleanCount(p, |blob|, stored, t) >= p.ec.data
    ensures DecodedUpTo(p, |blob|, stored, s) == Success(Before(blob, p.stripeSize, s))
  {
    hide StripeCount, StripeLen, UnitSize, Mds, DecodedStripe, StripeAt, CleanCount, AlterationsFail, Encoded;
    if s > 0 {
      PrefixDecodes(p, blob, written, stored, s - 1);
      StripeDecodes(p, blob, written, stored, s - 1);
      StripesConcatenate(blob, p.stripeSize, s - 1);
    }
  }

  /** The first stripe that cannot be recovered, if any stripe cannot. */
  lemma {:induction false} FirstLoss(p: Params, blobLen: nat, stored: Slots, s: nat) returns (t: nat)
    requires p.Valid() && s < StripeCount(blobLen, p.stripeSize) && CleanCount(p, blobLen, stored, s) < p.ec.data
    ensures t <= s && CleanCount(p, blobLen, stored, t) < p.ec.data
    ensures forall k | 0 <= k < t :: CleanCount(p, blobLen, stored, k) >= p.ec.data
  {
    hide StripeCount, StripeLen, UnitSize, CleanCount;
    if k :| 0 <= k < s && CleanCount(p, blobLen, stored, k) < p.ec.data {
      t := FirstLoss(p, blobLen, stored, k);
    } else {
      t := s;
    }
  }

  lemma StopsAtLoss(p: Params, blob: Bytes, written: seq<Bytes>, stored: Slots, t: nat)
    requires p.Valid() && Mds(p.ec) && t < StripeCount(|blob|, p.stripeSize)
    requires Encoded(p, blob) == Success(written) && AlterationsFail(p, |blob|, written, stored)
    requires CleanCount(p, |blob|, stored, t) < p.ec.data
    requires forall k | 0 <= k < t :: CleanCount(p, |blob|, stored, k) >= p.ec.data
    ensures DecodedUpTo(p, |blob|, stored, t + 1)
            == Failure(Ec(TooFewShards(CleanCount(p, |blob|, stored, t), p.ec.data)))
  {
    hide StripeCount, StripeLen, UnitSize, Mds, DecodedStripe, StripeAt, CleanCount, AlterationsFail, Encoded;
    PrefixDecodes(p, blob, written, stored, t);
    StripeDecodes(p, blob, written, stored, t);
  }

  ghost predicate IsTooFewShards(r: Result<Bytes, GatewayError>, data: nat) {
    r.Failure? && r.error.Ec? && r.error.ec.TooFewShards? && r.error.ec.have < data && r.error.ec.need == data
  }

  lemma RecoverableDecodes(p: Params, blob: Bytes, written: seq<Bytes>, stored: Slots)
    requires p.Valid() && Mds(p.ec)
    requires Encoded(p, blob) == Success(written) && AlterationsFail(p, |blob|, written, stored)
    requires Recoverable(p, |blob|, stored)
    ensures DecodedBytes(p, |blob|, stored) == Success(blob)
  {
    hide StripeCount, StripeLen, UnitSize, Mds, CleanCount, Encoded;
    PrefixDecodes(p, blob, written, stored, StripeCount(|blob|, p.stripeSize));
    WholeBlob(blob, p.stripeSize);
  }

  lemma LossIsReported(p: Params, blob: Bytes, written: seq<Bytes>, stored: Slots)
    requires p.Valid() && Mds(p.ec)
    requires Encoded(p, blob) == Success(written) && AlterationsFail(p, |blob|, written, stored)
    requires !Recoverable(p, |blob|, stored)
    ensures IsTooFewShards(DecodedBytes(p, |blob|, stored), p.ec.data)
  {
    hide StripeCount, StripeLen, UnitSize, Mds, CleanCount, Encoded, DecodedUpTo, FrameIsFaithful;
    var s :| 0 <= s < StripeCount(|blob|, p.stripeSize) && CleanCount(p, |blob|, stored, s) < p.ec.data;
    var t := FirstLoss(p, |blob|, stored, s);
    StopsAtLoss(p, blob, written, stored, t);
    DecodedFailsFrom(p, |blob|, stored, t + 1, StripeCount(|blob|, p.stripeSize));
  }

  /** The round trip under faults: decoding gives back exactly the blob when every stripe
      keeps `data` clean frames, and otherwise fails with `TooFewShards`, never with bytes. */
  lemma DecodeInvertsEncode(p: Params, blob: Bytes, written: seq<Bytes>, stored: Slots)
    requires p.Valid() && Mds(p.ec)
    requires Encoded(p, blob) == Success(written) && AlterationsFail(p, |blob|, written, stored)
    ensures Recoverable(p, |blob|, stored) ==> DecodedBytes(p, |blob|, stored) == Success(blob)
    ensures !Recoverable(p, |blob|, stored) ==> IsTooFewShards(DecodedBytes(p, |blob|, stored), p.ec.data)
  {
    hide Mds, Recoverable, AlterationsFail, Encoded, DecodedBytes, IsTooFewShards;
    if Recoverable(p, |blob|, stored) {
      RecoverableDecodes(p, blob, written, stored);
    } else {
      LossIsReported(p, blob, written, stored);
    }
  }

  lemma WholeBlob(blob: Bytes, stripeSize: nat)
    requires stripeSize > 0
    ensures Before(blob, stripeSize, StripeCount(|blob|, stripeSize)) == blob
  {
    StripesTileBlob(|blob|, stripeSize);
    if |blob| > 0 {
      StripesConcatenate(blob, stripeSize, StripeCount(|blob|, stripeSize) - 1);
    }
  }
}
