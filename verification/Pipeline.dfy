/** The EC pipeline (crates/epoch-gateway/src/pipeline.rs): a blob is cut into stripes,
    each stripe zero-padded into units, coded, framed and appended to the shard bodies;
    decoding drops bad frames stripe by stripe, reconstructs and trims. */
module Pipeline {
  import opened Bytes
  import opened Layout
  import opened Frame
  import opened Erasure

  datatype GatewayError =
    | Ec(ec: EcError)
    | WrongShardCount(need: nat, got: nat)
    | LengthMismatch(expected: nat, got: nat)

  datatype DecodedBlob = DecodedBlob(bytes: Bytes, healed: seq<nat>)

  datatype Params = Params(ec: Coder, hash: Hash, stripeSize: nat) {
    ghost predicate Valid() {
      ec.Valid() && stripeSize > 0
    }
  }

  // ---------------------------------------------------------------- encoding

  function StripeAt(blob: Bytes, stripeSize: nat, s: nat): (stripe: Bytes)
    requires stripeSize > 0 && s < StripeCount(|blob|, stripeSize)
    ensures |stripe| == StripeLen(|blob|, stripeSize, s) > 0
  {
    StripeWindow(|blob|, stripeSize, s);
    blob[s * stripeSize..s * stripeSize + StripeLen(|blob|, stripeSize, s)]
  }

  /** The `unit` bytes of a stripe from `ds` on, zero-padded past its end. */
  function Padded(stripe: Bytes, unit: nat, ds: nat): (u: Bytes)
    ensures |u| == unit
  {
    var from := Min(ds, |stripe|);
    var to := Min(ds + unit, |stripe|);
    stripe[from..to] + seq(unit - (to - from), _ => 0)
  }

  /** The `i`-th unit of a stripe. */
  function DataUnit(stripe: Bytes, unit: nat, i: nat): (u: Bytes)
    ensures |u| == unit
  {
    assert i * unit >= 0;
    Padded(stripe, unit, i * unit)
  }

  function DataUnits(stripe: Bytes, unit: nat, n: nat): (units: seq<Bytes>)
    ensures |units| == n && forall i | 0 <= i < n :: |units[i]| == unit
  {
    seq(n, i requires 0 <= i < n => DataUnit(stripe, unit, i))
  }

  function StripeUnits(p: Params, blob: Bytes, s: nat): (units: seq<Bytes>)
    requires p.Valid() && s < StripeCount(|blob|, p.stripeSize)
    ensures |units| == p.ec.data
  {
    var stripe := StripeAt(blob, p.stripeSize, s);
    DataUnits(stripe, UnitSize(|stripe|, p.ec.data), p.ec.data)
  }

  function AppendFrames(hash: Hash, bodies: seq<Bytes>, word: seq<Bytes>): (r: seq<Bytes>)
    requires |bodies| == |word|
    ensures |r| == |bodies|
  {
    seq(|bodies|, j requires 0 <= j < |bodies| => bodies[j] + FrameOf(hash, word[j]))
  }

  /** The bodies after the first `s` stripes. A backend returning the wrong number of
      parity shards, which the source indexes without a check, is reported as a backend error. */
  function EncodedUpTo(p: Params, blob: Bytes, s: nat): (r: Result<seq<Bytes>, GatewayError>)
    requires p.Valid() && s <= StripeCount(|blob|, p.stripeSize)
    ensures r.Success? ==> |r.value| == p.ec.Total()
  {
    if s == 0 then Success(seq(p.ec.Total(), _ => []))
    else
      var bodies :- EncodedUpTo(p, blob, s - 1);
      var units := StripeUnits(p, blob, s - 1);
      match Encode(p.ec, units)
      case Failure(e) => Failure(Ec(e))
      case Success(parity) =>
        if |parity| != p.ec.parity then Failure(Ec(Backend))
        else Success(AppendFrames(p.hash, bodies, units + parity))
  }

  function Encoded(p: Params, blob: Bytes): (r: Result<seq<Bytes>, GatewayError>)
    requires p.Valid()
  {
    EncodedUpTo(p, blob, StripeCount(|blob|, p.stripeSize))
  }

  /** `blob[s * size..min(s * size + size, len)]` is stripe `s`. */
  method SliceStripe(blob: Bytes, stripeSize: nat, s: nat) returns (stripe: Bytes)
    requires stripeSize > 0 && s < StripeCount(|blob|, stripeSize)
    ensures stripe == StripeAt(blob, stripeSize, s)
  {
    StripeWindow(|blob|, stripeSize, s);
    var start := s * stripeSize;
    var end := Min(start + stripeSize, |blob|);
    stripe := blob[start..end];
  }

  /** Copies the bytes of one unit into a zeroed buffer. */
  method CopyUnit(stripe: Bytes, unit: nat, ds: nat) returns (u: Bytes)
    ensures u == Padded(stripe, unit, ds)
  {
    u := seq(unit, _ => 0);
    if ds < |stripe| {
      var de := Min(ds + unit, |stripe|);
      u := stripe[ds..de] + u[de - ds..];
    }
  }

  /** Cuts one stripe into `n` zero-padded units. */
  method CutStripe(stripe: Bytes, unit: nat, n: nat) returns (units: seq<Bytes>)
    ensures units == DataUnits(stripe, unit, n)
  {
    hide Padded;
    units := [];
    for i := 0 to n
      invariant |units| == i
      invariant forall k | 0 <= k < i :: units[k] == DataUnit(stripe, unit, k)
    {
      assert i * unit >= 0;
      var u := CopyUnit(stripe, unit, i * unit);
      units := units + [u];
    }
  }

  /** Frames every unit of a codeword onto the end of its shard's body. */
  method WriteFrames(hash: Hash, bodies: seq<Bytes>, word: seq<Bytes>) returns (r: seq<Bytes>)
    requires |bodies| == |word|
    ensures r == AppendFrames(hash, bodies, word)
  {
    r := bodies;
    for j := 0 to |word|
      invariant |r| == |word|
      invariant forall k | 0 <= k < j :: r[k] == bodies[k] + FrameOf(hash, word[k])
      invariant forall k | j <= k < |word| :: r[k] == bodies[k]
    {
      r := r[j := r[j] + FrameOf(hash, word[j])];
    }
  }

  method EncodeBlob(p: Params, blob: Bytes) returns (r: Result<seq<Bytes>, GatewayError>)
    requires p.Valid()
    ensures r == Encoded(p, blob)
  {
    hide StripeCount, StripeAt, UnitSize, Encode, DataUnits, AppendFrames;
    var bodies: seq<Bytes> := seq(p.ec.Total(), _ => []);
    var stripes := StripeCount(|blob|, p.stripeSize);
    for s := 0 to stripes
      invariant EncodedUpTo(p, blob, s) == Success(bodies)
    {
      var stripe := SliceStripe(blob, p.stripeSize, s);
      var units := CutStripe(stripe, UnitSize(|stripe|, p.ec.data), p.ec.data);
      var parity := Encode(p.ec, units);
      if parity.Failure? {
        EncodedFailsFrom(p, blob, s + 1, stripes);
        return Failure(Ec(parity.error));
      }
      if |parity.value| != p.ec.parity {
        EncodedFailsFrom(p, blob, s + 1, stripes);
        return Failure(Ec(Backend));
      }
      bodies := WriteFrames(p.hash, bodies, units + parity.value);
    }
    return Success(bodies);
  }

  lemma {:induction false} EncodedFailsFrom(p: Params, blob: Bytes, s: nat, t: nat)
    requires p.Valid() && s <= t <= StripeCount(|blob|, p.stripeSize)
    requires EncodedUpTo(p, blob, s).Failure?
    ensures EncodedUpTo(p, blob, t) == EncodedUpTo(p, blob, s)
    decreases t
  {
    hide StripeCount, Encode, StripeUnits, AppendFrames;
    if s < t { EncodedFailsFrom(p, blob, s, t - 1); }
  }

  // ---------------------------------------------------------------- decoding

  /** `body.get(off..off + len)`. */
  function FrameAt(body: Option<Bytes>, off: nat, len: nat): Option<Bytes> {
    if body.Some? && off + len <= |body.value| then Some(body.value[off..off + len]) else None
  }

  /** The verified payload of one frame, if the frame is there and clean. */
  function CleanUnit(hash: Hash, frame: Option<Bytes>): Option<Bytes> {
    if frame.None? then None
    else
      match VerifyFrame(hash, frame.value)
      case Success(data) => Some(data)
      case Failure(_) => None
  }

  /** A frame yields `data` exactly when it is there and begins with the digest of `data`. */
  lemma CleanUnitIsFrame(hash: Hash, frame: Option<Bytes>, data: Bytes)
    ensures CleanUnit(hash, frame) == Some(data) <==> frame == Some(FrameOf(hash, data))
  {
    if frame.Some? {
      VerifyInvertsFrame(hash, frame.value, data);
    }
  }

  function FrameLen(p: Params, blobLen: nat, s: nat): nat
    requires p.Valid() && s < StripeCount(blobLen, p.stripeSize)
  {
    HASH_LEN + UnitSize(StripeLen(blobLen, p.stripeSize, s), p.ec.data)
  }

  function FrameStart(p: Params, s: nat): nat
    requires p.Valid()
  {
    FrameOffset(s, UnitSize(p.stripeSize, p.ec.data))
  }

  /** The bytes decoding takes for the frame of stripe `s`. */
  function FrameOfStripe(p: Params, blobLen: nat, body: Option<Bytes>, s: nat): Option<Bytes>
    requires p.Valid() && s < StripeCount(blobLen, p.stripeSize)
  {
    FrameAt(body, FrameStart(p, s), FrameLen(p, blobLen, s))
  }

  /** Stripe `s` of the body is there and is the frame of some data. */
  ghost predicate Intact(p: Params, blobLen: nat, body: Option<Bytes>, s: nat)
    requires p.Valid() && s < StripeCount(blobLen, p.stripeSize)
  {
    var frame := FrameOfStripe(p, blobLen, body, s);
    frame.Some? && IsFrame(p.hash, frame.value)
  }

  /** The clean units of stripe `s`. */
  function Survivors(p: Params, blobLen: nat, bodies: Slots, s: nat): (units: Slots)
    requires p.Valid() && s < StripeCount(blobLen, p.stripeSize)
    ensures |units| == |bodies|
  {
    seq(|bodies|, j requires 0 <= j < |bodies| =>
      CleanUnit(p.hash, FrameOfStripe(p, blobLen, bodies[j], s)))
  }

  /** The units that survive are those of the intact frames. */
  lemma SurvivesIffIntact(p: Params, blobLen: nat, bodies: Slots, s: nat, j: nat)
    requires p.Valid() && s < StripeCount(blobLen, p.stripeSize) && j < |bodies|
    ensures Survivors(p, blobLen, bodies, s)[j].Some? <==> Intact(p, blobLen, bodies[j], s)
  {
    hide StripeCount, FrameAt, FrameStart, FrameLen, CleanUnit, FrameOf;
    var unit, frame := Survivors(p, blobLen, bodies, s)[j], FrameOfStripe(p, blobLen, bodies[j], s);
    if unit.Some? {
      CleanUnitIsFrame(p.hash, frame, unit.value);
    }
    if Intact(p, blobLen, bodies[j], s) {
      var data :| frame.value == FrameOf(p.hash, data);
      CleanUnitIsFrame(p.hash, frame, data);
    }
  }

  function Concat(units: seq<Bytes>): Bytes {
    if units == [] then [] else units[0] + Concat(units[1..])
  }

  /** The data units a successful reconstruction leaves. A missing one, which the source
      rules out with `expect`, counts as empty. */
  function DataBytes(slots: Slots, n: nat): Bytes
    requires n <= |slots|
  {
    Concat(seq(n, i requires 0 <= i < n => if slots[i].Some? then slots[i].value else []))
  }

  function DecodedStripe(p: Params, blobLen: nat, bodies: Slots, s: nat): Result<Bytes, GatewayError>
    requires p.Valid() && s < StripeCount(blobLen, p.stripeSize) && |bodies| == p.ec.Total()
  {
    match Reconstructed(p.ec, Survivors(p, blobLen, bodies, s))
    case Failure(e) => Failure(Ec(e))
    case Success(units) =>
      var all := DataBytes(units, p.ec.data);
      Success(all[..Min(StripeLen(blobLen, p.stripeSize, s), |all|)])
  }

  function DecodedUpTo(p: Params, blobLen: nat, bodies: Slots, s: nat): Result<Bytes, GatewayError>
    requires p.Valid() && s <= StripeCount(blobLen, p.stripeSize) && |bodies| == p.ec.Total()
  {
    if s == 0 then Success([])
    else
      var out :- DecodedUpTo(p, blobLen, bodies, s - 1);
      var stripe :- DecodedStripe(p, blobLen, bodies, s - 1);
      Success(out + stripe)
  }

  /** Shard `j` needs healing: one of its first `s` windows is the frame of no data. */
  ghost predicate Damaged(p: Params, blobLen: nat, bodies: Slots, j: nat, s: nat)
    requires p.Valid() && s <= StripeCount(blobLen, p.stripeSize) && j < |bodies|
  {
    exists t :: 0 <= t < s && !Intact(p, blobLen, bodies[j], t)
  }

  function Mark(bad: seq<bool>, units: Slots): (r: seq<bool>)
    requires |bad| == |units|
    ensures |r| == |bad|
  {
    seq(|bad|, j requires 0 <= j < |bad| => bad[j] || units[j].None?)
  }

  /** The `bad` flags after `s` stripes. */
  function BadAfter(p: Params, blobLen: nat, bodies: Slots, s: nat): (bad: seq<bool>)
    requires p.Valid() && s <= StripeCount(blobLen, p.stripeSize)
    ensures |bad| == |bodies|
  {
    if s == 0 then seq(|bodies|, _ => false)
    else Mark(BadAfter(p, blobLen, bodies, s - 1), Survivors(p, blobLen, bodies, s - 1))
  }

  lemma {:induction false} BadIsDamaged(p: Params, blobLen: nat, bodies: Slots, j: nat, s: nat)
    requires p.Valid() && s <= StripeCount(blobLen, p.stripeSize) && j < |bodies|
    ensures BadAfter(p, blobLen, bodies, s)[j] <==> Damaged(p, blobLen, bodies, j, s)
  {
    hide StripeCount, Survivors, Intact;
    if s > 0 {
      BadIsDamaged(p, blobLen, bodies, j, s - 1);
      SurvivesIffIntact(p, blobLen, bodies, s - 1, j);
      if Damaged(p, blobLen, bodies, j, s) {
        var t :| 0 <= t < s && !Intact(p, blobLen, bodies[j], t);
        assert t < s - 1 ==> Damaged(p, blobLen, bodies, j, s - 1);
      }
    }
  }

  /** `healed` lists exactly the damaged shards, in ascending order. */
  ghost predicate HealedExactly(p: Params, blobLen: nat, bodies: Slots, healed: seq<nat>)
    requires p.Valid()
  {
    && (forall i, k | 0 <= i < k < |healed| :: healed[i] < healed[k])
    && (forall i | 0 <= i < |healed| :: healed[i] < |bodies|)
    && (forall j | 0 <= j < |bodies| ::
          j in healed <==> Damaged(p, blobLen, bodies, j, StripeCount(blobLen, p.stripeSize)))
  }

  /** What `DecodeBlob` returns, apart from the order in which it gathers `healed`. */
  function DecodedBytes(p: Params, blobLen: nat, bodies: Slots): Result<Bytes, GatewayError>
    requires p.Valid()
  {
    if |bodies| != p.ec.Total() then Failure(WrongShardCount(p.ec.Total(), |bodies|))
    else
      var out :- DecodedUpTo(p, blobLen, bodies, StripeCount(blobLen, p.stripeSize));
      if |out| != blobLen then Failure(LengthMismatch(blobLen, |out|)) else Success(out)
  }

  lemma {:induction false} DecodedFailsFrom(p: Params, blobLen: nat, bodies: Slots, s: nat, t: nat)
    requires p.Valid() && s <= t <= StripeCount(blobLen, p.stripeSize) && |bodies| == p.ec.Total()
    requires DecodedUpTo(p, blobLen, bodies, s).Failure?
    ensures DecodedUpTo(p, blobLen, bodies, t) == DecodedUpTo(p, blobLen, bodies, s)
    decreases t
  {
    hide StripeCount, DecodedStripe;
    if s < t { DecodedFailsFrom(p, blobLen, bodies, s, t - 1); }
  }

  /** Reads stripe `s` of every body, keeping the clean units and flagging the other shards. */
  method ReadStripe(p: Params, blobLen: nat, bodies: Slots, s: nat, bad: seq<bool>)
    returns (units: array<Option<Bytes>>, bad': seq<bool>)
    requires p.Valid() && s < StripeCount(blobLen, p.stripeSize) && |bad| == |bodies|
    ensures fresh(units) && units[..] == Survivors(p, blobLen, bodies, s)
    ensures bad' == Mark(bad, Survivors(p, blobLen, bodies, s))
  {
    hide StripeCount, UnitSize, LastStripeLen, CleanUnit, FrameAt, FrameOffset;
    var last := s == StripeCount(blobLen, p.stripeSize) - 1;
    var unitFull := UnitSize(p.stripeSize, p.ec.data);
    var unit := if last then UnitSize(LastStripeLen(blobLen, p.stripeSize), p.ec.data) else unitFull;
    var frameOff := FrameOffset(s, unitFull);
    var frameLen := HASH_LEN + unit;
    units := new Option<Bytes>[|bodies|](_ => None);
    bad' := bad;
    for j := 0 to |bodies|
      invariant |bad'| == |bad|
      invariant forall k | 0 <= k < j :: units[k] == Survivors(p, blobLen, bodies, s)[k]
      invariant forall k | j <= k < |bodies| :: units[k] == None && bad'[k] == bad[k]
      invariant forall k | 0 <= k < j :: bad'[k] == (bad[k] || Survivors(p, blobLen, bodies, s)[k].None?)
    {
      var clean := CleanUnit(p.hash, FrameAt(bodies[j], frameOff, frameLen));
      if clean.Some? {
        units[j] := clean;
      } else {
        bad' := bad'[j := true];
      }
    }
  }

  lemma NothingDamaged(p: Params, bodies: Slots)
    requires p.Valid()
    ensures HealedExactly(p, 0, bodies, [])
  {
    StripesTileBlob(0, p.stripeSize);
  }

  method ListHealed(bad: seq<bool>) returns (healed: seq<nat>)
    ensures forall i, k | 0 <= i < k < |healed| :: healed[i] < healed[k]
    ensures forall i | 0 <= i < |healed| :: healed[i] < |bad|
    ensures forall j | 0 <= j < |bad| :: j in healed <==> bad[j]
  {
    healed := [];
    for j := 0 to |bad|
      invariant forall i, k | 0 <= i < k < |healed| :: healed[i] < healed[k]
      invariant forall i | 0 <= i < |healed| :: healed[i] < j
      invariant forall k | 0 <= k < j :: k in healed <==> bad[k]
    {
      if bad[j] {
        healed := healed + [j];
      }
    }
  }

  method DecodeBlob(p: Params, blobLen: nat, bodies: Slots) returns (r: Result<DecodedBlob, GatewayError>)
    requires p.Valid()
    ensures r.Success? ==> DecodedBytes(p, blobLen, bodies) == Success(r.value.bytes)
    ensures r.Failure? ==> DecodedBytes(p, blobLen, bodies) == Failure(r.error)
    ensures r.Success? ==> HealedExactly(p, blobLen, bodies, r.value.healed)
    ensures |bodies| != p.ec.Total() ==> r == Failure(WrongShardCount(p.ec.Total(), |bodies|))
    ensures r.Success? ==> |r.value.bytes| == blobLen
    ensures r.Failure? && r.error.LengthMismatch? ==> r.error.expected == blobLen != r.error.got
  {
    hide DivCeil, UnitSize, Survivors, Reconstructed, DataBytes, Damaged, Mark;
    StripesTileBlob(blobLen, p.stripeSize);
    if |bodies| != p.ec.Total() {
      return Failure(WrongShardCount(p.ec.Total(), |bodies|));
    }
    if blobLen == 0 {
      NothingDamaged(p, bodies);
      return Success(DecodedBlob([], []));
    }
    var stripes := StripeCount(blobLen, p.stripeSize);
    var out: Bytes := [];
    var bad := seq(|bodies|, _ => false);
    for s := 0 to stripes
      invariant DecodedUpTo(p, blobLen, bodies, s) == Success(out)
      invariant bad == BadAfter(p, blobLen, bodies, s)
    {
      var thisLen := if s == stripes - 1 then LastStripeLen(blobLen, p.stripeSize) else p.stripeSize;
      var units;
      units, bad := ReadStripe(p, blobLen, bodies, s, bad);
      var fixed := Reconstruct(p.ec, units);
      if fixed.Failure? {
        DecodedFailsFrom(p, blobLen, bodies, s + 1, stripes);
        return Failure(Ec(fixed.error));
      }
      var all := DataBytes(units[..], p.ec.data);
      out := out + all[..Min(thisLen, |all|)];
    }
    if |out| != blobLen {
      return Failure(LengthMismatch(blobLen, |out|));
    }
    var healed := ListHealed(bad);
    forall j | 0 <= j < |bodies| ensures bad[j] <==> Damaged(p, blobLen, bodies, j, stripes) {
      BadIsDamaged(p, blobLen, bodies, j, stripes);
    }
    return Success(DecodedBlob(out, healed));
  }
}
