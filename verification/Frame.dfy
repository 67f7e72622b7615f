/** Bitrot frames (crates/epoch-ec/src/frame.rs): `hash(data) | data`. The hash is a
    parameter: any function onto 32-byte digests stands for BLAKE3. */
module Frame {
  import opened Bytes
  import opened Layout

  type Digest = d: Bytes | |d| == HASH_LEN witness seq(HASH_LEN, _ => 0)

  type Hash = Bytes -> Digest

  datatype FrameError = HashMismatch(index: nat) | Truncated(offset: nat)

  function FrameOf(hash: Hash, data: Bytes): Bytes {
    hash(data) + data
  }

  /** `frame_data`: the payload of a frame whose stored digest matches. */
  function FrameData(hash: Hash, frame: Bytes): Option<Bytes> {
    if |frame| < HASH_LEN then None
    else if hash(frame[HASH_LEN..]) == frame[..HASH_LEN] then Some(frame[HASH_LEN..])
    else None
  }

  function VerifyFrame(hash: Hash, frame: Bytes): Result<Bytes, FrameError> {
    if |frame| < HASH_LEN then Failure(Truncated(0))
    else
      match FrameData(hash, frame)
      case Some(data) => Success(data)
      case None => Failure(HashMismatch(0))
  }

  /** A frame verifies to `data` exactly when it is the frame of `data`. */
  lemma VerifyInvertsFrame(hash: Hash, frame: Bytes, data: Bytes)
    ensures VerifyFrame(hash, frame) == Success(data) <==> frame == FrameOf(hash, data)
  {
    var f := FrameOf(hash, data);
    assert f[..HASH_LEN] == hash(data) && f[HASH_LEN..] == data;
    if VerifyFrame(hash, frame) == Success(data) {
      assert frame == frame[..HASH_LEN] + frame[HASH_LEN..];
    }
  }

  /** The bytes are the frame of some data: they begin with the digest of the rest. */
  ghost predicate IsFrame(hash: Hash, bytes: Bytes) {
    exists data :: bytes == FrameOf(hash, data)
  }

  /** The body `data` has when framed at `unit`, the last frame possibly shorter. */
  function Framed(hash: Hash, data: Bytes, unit: nat): Bytes
    requires unit > 0
    decreases |data|
  {
    if data == [] then []
    else
      var n := Min(unit, |data|);
      FrameOf(hash, data[..n]) + Framed(hash, data[n..], unit)
  }

  /** What `verify_shard_body` accepts, as a recursive parser. */
  function Unframed(hash: Hash, body: Bytes, unit: nat): Option<Bytes>
    requires unit > 0
    decreases |body|
  {
    if body == [] then Some([])
    else if |body| <= HASH_LEN then None
    else
      var n := HASH_LEN + Min(unit, |body| - HASH_LEN);
      match FrameData(hash, body[..n])
      case None => None
      case Some(data) =>
        match Unframed(hash, body[n..], unit)
        case None => None
        case Some(rest) => Some(data + rest)
  }

  /** Parsing `frame(data) + tail` reads `data` and goes on with `tail`. */
  lemma UnframedStep(hash: Hash, data: Bytes, tail: Bytes, unit: nat)
    requires unit > 0 && 0 < |data| <= unit && (|data| < unit ==> tail == [])
    ensures Unframed(hash, FrameOf(hash, data) + tail, unit)
            == match Unframed(hash, tail, unit)
               case None => None
               case Some(rest) => Some(data + rest)
  {
    hide FrameData;
    var head := FrameOf(hash, data);
    var body := head + tail;
    assert body[..|head|] == head && body[|head|..] == tail;
    FrameDataOfFrame(hash, data);
  }

  lemma FrameDataOfFrame(hash: Hash, data: Bytes)
    ensures FrameData(hash, FrameOf(hash, data)) == Some(data)
  {
    var f := FrameOf(hash, data);
    assert f[..HASH_LEN] == hash(data) && f[HASH_LEN..] == data;
  }

  lemma {:induction false} UnframedInvertsFramed(hash: Hash, data: Bytes, unit: nat)
    requires unit > 0
    ensures Unframed(hash, Framed(hash, data, unit), unit) == Some(data)
    decreases |data|
  {
    hide FrameOf, Unframed;
    if data != [] {
      var k := Min(unit, |data|);
      UnframedInvertsFramed(hash, data[k..], unit);
      UnframedStep(hash, data[..k], Framed(hash, data[k..], unit), unit);
      assert data == data[..k] + data[k..];
    } else {
      EmptyBody(hash, unit);
    }
  }

  lemma EmptyBody(hash: Hash, unit: nat)
    requires unit > 0
    ensures Unframed(hash, [], unit) == Some([])
  {
  }

  /** Framing `data + rest` frames `data` first, when `data` fills a unit or ends the body. */
  lemma FramedStep(hash: Hash, data: Bytes, rest: Bytes, unit: nat)
    requires unit > 0 && 0 < |data| <= unit && (|data| < unit ==> rest == [])
    ensures Framed(hash, data + rest, unit) == FrameOf(hash, data) + Framed(hash, rest, unit)
  {
    hide FrameOf;
    var all := data + rest;
    assert all[..|data|] == data && all[|data|..] == rest;
  }

  lemma {:induction false} FramedInvertsUnframed(hash: Hash, body: Bytes, unit: nat)
    requires unit > 0 && Unframed(hash, body, unit).Some?
    ensures Framed(hash, Unframed(hash, body, unit).value, unit) == body
    decreases |body|
  {
    hide Framed, FrameOf, FrameData, Unframed;
    if body == [] {
      EmptyBody(hash, unit);
      EmptyFraming(hash, unit);
    } else {
      UnframedUnfolds(hash, body, unit);
      var n := HASH_LEN + Min(unit, |body| - HASH_LEN);
      var data, rest := FrameData(hash, body[..n]).value, Unframed(hash, body[n..], unit).value;
      FramedInvertsUnframed(hash, body[n..], unit);
      FrameOfFrameData(hash, body[..n]);
      FramedStep(hash, data, rest, unit);
      assert body == body[..n] + body[n..];
    }
  }

  lemma UnframedUnfolds(hash: Hash, body: Bytes, unit: nat)
    requires unit > 0 && body != [] && Unframed(hash, body, unit).Some?
    ensures |body| > HASH_LEN
    ensures var n := HASH_LEN + Min(unit, |body| - HASH_LEN);
            && FrameData(hash, body[..n]).Some? && Unframed(hash, body[n..], unit).Some?
            && Unframed(hash, body, unit).value == FrameData(hash, body[..n]).value
                                                  + Unframed(hash, body[n..], unit).value
            && (n - HASH_LEN < unit ==> Unframed(hash, body[n..], unit).value == [])
  {
    hide FrameData;
  }

  lemma FrameOfFrameData(hash: Hash, frame: Bytes)
    requires FrameData(hash, frame).Some?
    ensures FrameOf(hash, FrameData(hash, frame).value) == frame
    ensures |FrameData(hash, frame).value| == |frame| - HASH_LEN
  {
    assert frame == frame[..HASH_LEN] + frame[HASH_LEN..];
  }

  lemma EmptyFraming(hash: Hash, unit: nat)
    requires unit > 0
    ensures Framed(hash, [], unit) == []
  {
  }

  function Prepend(data: Bytes, rest: Option<Bytes>): Option<Bytes> {
    match rest
    case None => None
    case Some(bytes) => Some(data + bytes)
  }

  lemma PrependTwice(a: Bytes, b: Bytes, rest: Option<Bytes>)
    ensures Prepend(a, Prepend(b, rest)) == Prepend(a + b, rest)
    ensures Prepend([], rest) == rest
  {
    if rest.Some? {
      assert a + (b + rest.value) == a + b + rest.value;
      assert [] + rest.value == rest.value;
    }
  }

  /** One step of the parser, at an offset of the body. */
  lemma UnframedAt(hash: Hash, body: Bytes, unit: nat, pos: nat)
    requires unit > 0 && pos < |body|
    ensures var remaining := |body| - pos;
            Unframed(hash, body[pos..], unit)
            == if remaining <= HASH_LEN then None
               else
                 var n := HASH_LEN + Min(unit, remaining - HASH_LEN);
                 match FrameData(hash, body[pos..pos + n])
                 case None => None
                 case Some(data) => Prepend(data, Unframed(hash, body[pos + n..], unit))
  {
    hide FrameData;
    var suffix := body[pos..];
    if |suffix| > HASH_LEN {
      var n := HASH_LEN + Min(unit, |suffix| - HASH_LEN);
      assert suffix[..n] == body[pos..pos + n] && suffix[n..] == body[pos + n..];
    }
  }

  lemma FrameDataIffFrame(hash: Hash, bytes: Bytes)
    ensures FrameData(hash, bytes).Some? <==> IsFrame(hash, bytes)
  {
    if FrameData(hash, bytes).Some? {
      FrameOfFrameData(hash, bytes);
    }
    if data :| bytes == FrameOf(hash, data) {
      FrameDataOfFrame(hash, data);
    }
  }

  /** Frame `k` of the body, every one but the last being full, begins with the digest of the rest. */
  ghost predicate FrameHolds(hash: Hash, body: Bytes, unit: nat, k: nat) {
    var at := k * (HASH_LEN + unit);
    at <= |body| && IsFrame(hash, body[at..Min(at + HASH_LEN + unit, |body|)])
  }

  ghost predicate HoldUpTo(hash: Hash, body: Bytes, unit: nat, n: nat) {
    forall k: nat | k < n :: FrameHolds(hash, body, unit, k)
  }

  lemma NextFrame(unit: nat, k: nat)
    ensures (k + 1) * (HASH_LEN + unit) == k * (HASH_LEN + unit) + HASH_LEN + unit
  {
  }

  /** Verifies a whole shard body: succeeds with `n` exactly when the body is the framing of
      `n` data bytes. Otherwise the error names the first frame that does not hold, or the offset at
      which no frame is left to read. */
  method VerifyShardBody(hash: Hash, body: Bytes, unit: nat) returns (r: Result<nat, FrameError>)
    requires unit > 0 || body == []
    ensures body == [] ==> r == Success(0)
    ensures unit > 0 && r.Success? ==> exists data :: |data| == r.value && body == Framed(hash, data, unit)
    ensures unit > 0 && r.Failure? ==> forall data :: body != Framed(hash, data, unit)
    ensures r.Failure? && r.error.HashMismatch? ==>
              !FrameHolds(hash, body, unit, r.error.index) && HoldUpTo(hash, body, unit, r.error.index)
    ensures r.Failure? && r.error.Truncated? ==>
              && r.error.offset < |body| <= r.error.offset + HASH_LEN
              && exists n: nat :: HoldUpTo(hash, body, unit, n) && r.error.offset == n * (HASH_LEN + unit)
  {
    hide Unframed, FrameData, Prepend, IsFrame;
    if body == [] {
      assert unit > 0 ==> Framed(hash, [], unit) == body;
      return Success(0);
    }
    hide Framed;
    var pos, dataTotal, index := 0, 0, 0;
    ghost var verified: Bytes := [];
    assert body[0..] == body;
    PrependTwice([], [], Unframed(hash, body, unit));
    while pos < |body|
      invariant 0 <= pos <= |body| && dataTotal == |verified|
      invariant Unframed(hash, body, unit) == Prepend(verified, Unframed(hash, body[pos..], unit))
      invariant pos < |body| ==> pos == index * (HASH_LEN + unit)
      invariant HoldUpTo(hash, body, unit, index)
    {
      NextFrame(unit, index);
      UnframedAt(hash, body, unit, pos);
      var remaining := |body| - pos;
      if remaining <= HASH_LEN {
        NothingFollows(hash, body, unit, verified);
        return Failure(Truncated(pos));
      }
      var dataLen := Min(unit, remaining - HASH_LEN);
      var data := FrameData(hash, body[pos..pos + HASH_LEN + dataLen]);
      FrameDataIffFrame(hash, body[pos..pos + HASH_LEN + dataLen]);
      if data.None? {
        NothingFollows(hash, body, unit, verified);
        return Failure(HashMismatch(index));
      }
      FrameOfFrameData(hash, body[pos..pos + HASH_LEN + dataLen]);
      pos := pos + HASH_LEN + dataLen;
      PrependTwice(verified, data.value, Unframed(hash, body[pos..], unit));
      verified := verified + data.value;
      dataTotal := dataTotal + dataLen;
      index := index + 1;
    }
    AllVerified(hash, body, unit, verified);
    return Success(dataTotal);
  }

  lemma AllVerified(hash: Hash, body: Bytes, unit: nat, verified: Bytes)
    requires unit > 0 && Unframed(hash, body, unit) == Prepend(verified, Unframed(hash, body[|body|..], unit))
    ensures body == Framed(hash, verified, unit)
  {
    hide Framed;
    assert body[|body|..] == [] && verified + [] == verified;
    FramedInvertsUnframed(hash, body, unit);
  }

  lemma NothingFollows(hash: Hash, body: Bytes, unit: nat, verified: Bytes)
    requires unit > 0 && Unframed(hash, body, unit) == Prepend(verified, None)
    ensures forall data :: body != Framed(hash, data, unit)
  {
    hide Framed, Unframed;
    forall data ensures body != Framed(hash, data, unit) {
      UnframedInvertsFramed(hash, data, unit);
    }
  }
}
