/** The erasure coder (crates/epoch-ec/src/erasure.rs) around an abstract backend.
    `rsEncode` and `rsDecode` stand for reed-solomon-simd; `Mds` is the one property
    assumed of them, that any `data` shards of a codeword determine the rest. */
module Erasure {
  import opened Bytes

  const MAX_SHARDS: nat := 32768

  datatype EcError =
    | InvalidCodeMode(data: nat, parity: nat)
    | ShardCount(expected: nat, got: nat)
    | ShardLen(len: nat)
    | InconsistentShardLen
    | TooFewShards(have: nat, need: nat)
    | Backend

  type Slots = seq<Option<Bytes>>

  datatype Coder = Coder(
    data: nat,
    parity: nat,
    rsEncode: seq<Bytes> -> Option<seq<Bytes>>,
    rsDecode: Slots -> Option<map<nat, Bytes>>)
  {
    predicate Valid() {
      0 < data <= MAX_SHARDS && 0 < parity <= MAX_SHARDS
    }

    function Total(): nat {
      data + parity
    }
  }

  /** `check_uniform_len`: one shared, non-zero, even length. */
  function UniformLen(shards: seq<Bytes>, need: nat): Result<nat, EcError> {
    if shards == [] then Failure(TooFewShards(0, need))
    else if |shards[0]| == 0 || |shards[0]| % 2 != 0 then Failure(ShardLen(|shards[0]|))
    else if forall i | 0 <= i < |shards| :: |shards[i]| == |shards[0]| then Success(|shards[0]|)
    else Failure(InconsistentShardLen)
  }

  function Encode(ec: Coder, data: seq<Bytes>): Result<seq<Bytes>, EcError> {
    if |data| != ec.data then Failure(ShardCount(ec.data, |data|))
    else
      var _ :- UniformLen(data, ec.data);
      match ec.rsEncode(data)
      case None => Failure(Backend)
      case Some(parity) => Success(parity)
  }

  /** Encoding goes through exactly for `data` shards of one non-zero, even length that the backend
      takes; the wrong number of shards is told apart. */
  lemma EncodeSucceedsIff(ec: Coder, data: seq<Bytes>)
    ensures Encode(ec, data).Success? <==>
              && |data| == ec.data && ec.rsEncode(data).Some?
              && exists n :: data != [] && AllOfLen(data, n)
    ensures |data| != ec.data <==> Encode(ec, data) == Failure(ShardCount(ec.data, |data|))
  {
    if data != [] {
      assert AllOfLen(data, |data[0]|) <==> UniformLen(data, ec.data).Success?;
      forall n | AllOfLen(data, n) ensures n == |data[0]| {}
    }
  }

  function PresentSet(slots: Slots): set<nat> {
    set i | 0 <= i < |slots| && slots[i].Some?
  }

  function Present(slots: Slots): seq<Bytes> {
    if slots == [] then []
    else Present(slots[..|slots| - 1]) + (if slots[|slots| - 1].Some? then [slots[|slots| - 1].value] else [])
  }

  function Filled(slots: Slots, restored: map<nat, Bytes>): Slots {
    seq(|slots|, i requires 0 <= i < |slots| => if i in restored then Some(restored[i]) else slots[i])
  }

  /** The slots `Reconstruct` leaves behind, or the error it returns with the slots untouched. */
  function Reconstructed(ec: Coder, slots: Slots): Result<Slots, EcError> {
    if |slots| != ec.Total() then Failure(ShardCount(ec.Total(), |slots|))
    else if |PresentSet(slots)| < ec.data then Failure(TooFewShards(|PresentSet(slots)|, ec.data))
    else if forall i | 0 <= i < ec.data :: slots[i].Some? then Success(slots)
    else
      var _ :- UniformLen(Present(slots), ec.data);
      match ec.rsDecode(slots)
      case None => Failure(Backend)
      case Some(restored) => Success(Filled(slots, restored))
  }

  /** All shards have the length `n`, which is non-zero and even. */
  predicate AllOfLen(shards: seq<Bytes>, n: nat) {
    n > 0 && n % 2 == 0 && forall i | 0 <= i < |shards| :: |shards[i]| == n
  }

  method CheckUniformLen(shards: seq<Bytes>, need: nat) returns (r: Result<nat, EcError>)
    ensures r == UniformLen(shards, need)
    ensures forall n: nat :: r == Success(n) <==> shards != [] && AllOfLen(shards, n)
    ensures r == Failure(TooFewShards(0, need)) <==> shards == []
    ensures forall n: nat :: r == Failure(ShardLen(n)) <==> shards != [] && |shards[0]| == n && (n == 0 || n % 2 == 1)
  {
    if shards == [] {
      return Failure(TooFewShards(0, need));
    }
    var len := |shards[0]|;
    if len == 0 || len % 2 != 0 {
      return Failure(ShardLen(len));
    }
    for i := 1 to |shards|
      invariant forall j | 0 <= j < i :: |shards[j]| == len
    {
      if |shards[i]| != len {
        return Failure(InconsistentShardLen);
      }
    }
    return Success(len);
  }

  lemma PresentSetGrows(slots: Slots, i: nat)
    requires i < |slots|
    ensures |PresentSet(slots[..i + 1])| == |PresentSet(slots[..i])| + if slots[i].Some? then 1 else 0
  {
    var before, after := PresentSet(slots[..i]), PresentSet(slots[..i + 1]);
    if slots[i].Some? {
      assert after == before + {i};
    } else {
      assert after == before;
    }
  }

  /** Fills every missing data slot in place, or fails and leaves the slots as they were. */
  method Reconstruct(ec: Coder, shards: array<Option<Bytes>>) returns (r: Result<(), EcError>)
    modifies shards
    ensures r.Success? ==> Reconstructed(ec, old(shards[..])) == Success(shards[..])
    ensures r.Failure? ==> Reconstructed(ec, old(shards[..])) == Failure(r.error) && shards[..] == old(shards[..])
    ensures shards.Length != ec.Total() <==> r == Failure(ShardCount(ec.Total(), shards.Length))
  {
    if shards.Length != ec.Total() {
      return Failure(ShardCount(ec.Total(), shards.Length));
    }
    ghost var slots := shards[..];
    var present: nat := 0;
    var live: seq<Bytes> := [];
    for i := 0 to shards.Length
      invariant shards[..] == slots
      invariant present == |PresentSet(slots[..i])| && live == Present(slots[..i])
    {
      PresentSetGrows(slots, i);
      assert slots[..i + 1][..i] == slots[..i];
      if shards[i].Some? {
        present := present + 1;
        live := live + [shards[i].value];
      }
    }
    assert slots[..shards.Length] == slots;
    if present < ec.data {
      return Failure(TooFewShards(present, ec.data));
    }
    if forall i | 0 <= i < ec.data :: shards[i].Some? {
      return Success(());
    }
    var len := CheckUniformLen(live, ec.data);
    if len.Failure? {
      return Failure(len.error);
    }
    var restored := ec.rsDecode(shards[..]);
    if restored.None? {
      return Failure(Backend);
    }
    for i := 0 to shards.Length
      invariant forall j | 0 <= j < i :: shards[j] == Filled(slots, restored.value)[j]
      invariant forall j | i <= j < shards.Length :: shards[j] == slots[j]
    {
      if i in restored.value {
        shards[i] := Some(restored.value[i]);
      }
    }
    assert shards[..] == Filled(slots, restored.value);
    return Success(());
  }

  lemma {:induction false} PrefixIsPresent(slots: Slots, n: nat)
    requires n <= |slots| && forall i | 0 <= i < n :: slots[i].Some?
    ensures |PresentSet(slots[..n])| == n
    decreases n
  {
    if n > 0 {
      PrefixIsPresent(slots, n - 1);
      PresentSetGrows(slots, n - 1);
    }
  }

  /** With every data shard there nothing is asked of the others, nor of the backend. */
  lemma WholeDataNeedsNothing(ec: Coder, slots: Slots)
    requires |slots| == ec.Total() && forall i | 0 <= i < ec.data :: slots[i].Some?
    ensures Reconstructed(ec, slots) == Success(slots)
  {
    PrefixIsPresent(slots, ec.data);
    var some, all := PresentSet(slots[..ec.data]), PresentSet(slots);
    assert some <= all && all == some + (all - some);
  }

  // ---------------------------------------------------------------- the MDS hypothesis

  ghost predicate Encodable(ec: Coder, data: seq<Bytes>) {
    |data| == ec.data && UniformLen(data, ec.data).Success?
  }

  /** Every stored shard that is present is the codeword's own. */
  ghost predicate Agrees(slots: Slots, word: seq<Bytes>) {
    |slots| == |word| && forall i | 0 <= i < |slots| :: slots[i].Some? ==> slots[i].value == word[i]
  }

  /** The parity of encodable data has the coder's count and the data's shard length. */
  ghost predicate EncodesEvenly(ec: Coder) {
    forall data | Encodable(ec, data) ::
      && ec.rsEncode(data).Some?
      && |ec.rsEncode(data).value| == ec.parity
      && forall i | 0 <= i < ec.parity :: |ec.rsEncode(data).value[i]| == |data[0]|
  }

  /** What the backend must give back for surviving `slots` of the codeword of `data`. */
  ghost predicate Restores(ec: Coder, data: seq<Bytes>, slots: Slots) {
    && ec.rsDecode(slots).Some?
    && var restored := ec.rsDecode(slots).value;
    && (forall i | i in restored :: i < |data| && restored[i] == data[i])
    && (forall i | 0 <= i < |data| && i < |slots| && slots[i].None? :: i in restored)
  }

  /** Any `data` shards of a codeword determine the rest. */
  ghost predicate Mds(ec: Coder) {
    && EncodesEvenly(ec)
    && forall data, slots |
         Encodable(ec, data) && Agrees(slots, data + ec.rsEncode(data).value) && |PresentSet(slots)| >= ec.data ::
         Restores(ec, data, slots)
  }

  lemma {:induction false} PresentAgrees(slots: Slots, word: seq<Bytes>, len: nat, i: nat)
    requires Agrees(slots, word) && i <= |slots|
    requires forall j | 0 <= j < |word| :: |word[j]| == len
    ensures forall j | 0 <= j < |Present(slots[..i])| :: |Present(slots[..i])[j]| == len
    ensures |Present(slots[..i])| > 0 || forall j | 0 <= j < i :: slots[j].None?
  {
    if i > 0 {
      PresentAgrees(slots, word, len, i - 1);
      assert slots[..i][..i - 1] == slots[..i - 1];
    }
  }

  /** Reconstruction succeeds exactly when `data` shards survive, and then yields the data. */
  lemma ReconstructRecovers(ec: Coder, data: seq<Bytes>, slots: Slots)
    requires ec.Valid() && Mds(ec) && Encodable(ec, data)
    requires Agrees(slots, data + ec.rsEncode(data).value)
    ensures |PresentSet(slots)| < ec.data ==>
              Reconstructed(ec, slots) == Failure(TooFewShards(|PresentSet(slots)|, ec.data))
    ensures |PresentSet(slots)| >= ec.data ==>
              && Reconstructed(ec, slots).Success?
              && |Reconstructed(ec, slots).value| == ec.Total()
              && forall i | 0 <= i < ec.data :: Reconstructed(ec, slots).value[i] == Some(data[i])
  {
    var word := data + ec.rsEncode(data).value;
    if |PresentSet(slots)| >= ec.data && !(forall i | 0 <= i < ec.data :: slots[i].Some?) {
      PresentAgrees(slots, word, |data[0]|, |slots|);
      assert slots[..|slots|] == slots;
      assert PresentSet(slots) != {};
      assert Restores(ec, data, slots);
    }
  }

  // ---------------------------------------------------------------- instances

  function FirstPresent(slots: Slots): Option<Bytes> {
    if slots == [] then None
    else if slots[0].Some? then slots[0]
    else FirstPresent(slots[1..])
  }

  /** Replica mode (`data = 1`): every parity shard is a copy. */
  function Replication(parity: nat): Coder {
    Coder(1, parity,
      data => if |data| == 1 then Some(seq(parity, _ => data[0])) else None,
      slots => match FirstPresent(slots) case None => None case Some(unit) => Some(map[0 := unit]))
  }

  lemma {:induction false} FirstPresentAgrees(slots: Slots, unit: Bytes)
    requires forall i | 0 <= i < |slots| :: slots[i].Some? ==> slots[i].value == unit
    ensures FirstPresent(slots) == if PresentSet(slots) == {} then None else Some(unit)
  {
    if slots != [] && slots[0].None? {
      FirstPresentAgrees(slots[1..], unit);
      if i :| i in PresentSet(slots) { assert i - 1 in PresentSet(slots[1..]); }
      if i :| i in PresentSet(slots[1..]) { assert i + 1 in PresentSet(slots); }
    } else if slots != [] {
      assert 0 in PresentSet(slots);
    }
  }

  /** The hypothesis is satisfiable: replication is such a code, at every parity count. */
  lemma ReplicationIsMds(parity: nat)
    requires 0 < parity <= MAX_SHARDS
    ensures Replication(parity).Valid() && Mds(Replication(parity))
  {
    var ec := Replication(parity);
    forall data, slots |
      Encodable(ec, data) && Agrees(slots, data + ec.rsEncode(data).value) && |PresentSet(slots)| >= ec.data
      ensures Restores(ec, data, slots)
    {
      FirstPresentAgrees(slots, data[0]);
      assert PresentSet(slots) != {};
    }
  }
}
