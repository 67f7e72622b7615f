/** Byte strings, their lexicographic order, and the failure-compatible results
    that every other module of the model uses. */
module Bytes {

  type byte = x: int | 0 <= x < 256

  type Bytes = seq<byte>

  datatype Option<+T> = None | Some(value: T)

  datatype Result<+T, +E> = Success(value: T) | Failure(error: E) {
    predicate IsFailure() {
      Failure?
    }

    function PropagateFailure<U>(): Result<U, E>
      requires Failure?
    {
      Failure(error)
    }

    function Extract(): T
      requires Success?
    {
      value
    }
  }

  function Min(a: int, b: int): int {
    if a <= b then a else b
  }

  /** The order of Rust byte slices and of RocksDB keys. */
  predicate Less(a: Bytes, b: Bytes)
    decreases |a|
  {
    b != [] && (a == [] || a[0] < b[0] || (a[0] == b[0] && Less(a[1..], b[1..])))
  }

  predicate AtMost(a: Bytes, b: Bytes) {
    a == b || Less(a, b)
  }

  predicate IsPrefix(p: Bytes, k: Bytes) {
    |p| <= |k| && k[..|p|] == p
  }

  lemma PlusAssociates(a: Bytes, b: Bytes, c: Bytes)
    ensures a + (b + c) == (a + b) + c
  {
  }

  /** Strictly ascending keys: what an ordered scan returns. */
  ghost predicate Ascending(keys: seq<Bytes>) {
    forall i, j :: 0 <= i < j < |keys| ==> Less(keys[i], keys[j])
  }

  lemma {:induction false} LessIrreflexive(a: Bytes)
    ensures !Less(a, a)
    decreases |a|
  {
    if a != [] { LessIrreflexive(a[1..]); }
  }

  lemma {:induction false} LessTransitive(a: Bytes, b: Bytes, c: Bytes)
    requires Less(a, b) && Less(b, c)
    ensures Less(a, c)
    decreases |a|
  {
    if a != [] && a[0] == b[0] && b[0] == c[0] {
      LessTransitive(a[1..], b[1..], c[1..]);
    }
  }

  lemma {:induction false} LessTotal(a: Bytes, b: Bytes)
    ensures a == b || Less(a, b) || Less(b, a)
    decreases |a|
  {
    if a != [] && b != [] && a[0] == b[0] {
      LessTotal(a[1..], b[1..]);
      assert a == [a[0]] + a[1..] && b == [b[0]] + b[1..];
    }
  }

  /** `Less` is a strict total order. */
  lemma LessIsOrder()
    ensures forall a: Bytes :: !Less(a, a)
    ensures forall a: Bytes, b: Bytes, c: Bytes :: Less(a, b) && Less(b, c) ==> Less(a, c)
    ensures forall a: Bytes, b: Bytes :: a == b || Less(a, b) || Less(b, a)
  {
    forall a: Bytes ensures !Less(a, a) { LessIrreflexive(a); }
    forall a: Bytes, b: Bytes, c: Bytes | Less(a, b) && Less(b, c) ensures Less(a, c) { LessTransitive(a, b, c); }
    forall a: Bytes, b: Bytes ensures a == b || Less(a, b) || Less(b, a) { LessTotal(a, b); }
  }

  /** `k · 0x00` is the immediate successor of `k`: no key lies between them. */
  lemma {:induction false} SuccessorIsTight(k: Bytes, x: Bytes)
    ensures Less(k, x) <==> AtMost(k + [0], x)
    decreases |k|
  {
    var s := k + [0];
    if k == [] {
      assert s == [0] && s[1..] == [];
      if x != [] && x[0] == 0 {
        assert x == [x[0]] + x[1..];
        assert x[1..] == [] || Less(s[1..], x[1..]);
      }
    } else {
      assert s[0] == k[0] && s[1..] == k[1..] + [0];
      if x != [] && x[0] == k[0] {
        SuccessorIsTight(k[1..], x[1..]);
        assert x == [x[0]] + x[1..] && s == [s[0]] + s[1..];
      }
    }
  }

  lemma {:induction false} PrefixAtMost(p: Bytes, k: Bytes)
    requires IsPrefix(p, k)
    ensures AtMost(p, k)
    decreases |p|
  {
    if p == k {
    } else if p != [] {
      assert p[1..] == k[1..][..|p| - 1];
      PrefixAtMost(p[1..], k[1..]);
    }
  }

  /** Everything between two keys that share a prefix shares it too. */
  lemma {:induction false} PrefixBetween(p: Bytes, a: Bytes, b: Bytes, c: Bytes)
    requires IsPrefix(p, a) && IsPrefix(p, c) && AtMost(a, b) && AtMost(b, c)
    ensures IsPrefix(p, b)
    decreases |p|
  {
    if p != [] && a != b && b != c {
      assert p[1..] == a[1..][..|p| - 1] && p[1..] == c[1..][..|p| - 1];
      PrefixBetween(p[1..], a[1..], b[1..], c[1..]);
      assert p == [p[0]] + p[1..] && b[..|p|] == [b[0]] + b[1..][..|p| - 1];
    }
  }
}
