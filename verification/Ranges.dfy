/** Ranged GET (crates/epoch-gateway/src/range.rs, object.rs): resolving a byte range and
    planning the fewest blobs that cover it. */
module Ranges {
  import opened Bytes
  import opened Erasure
  import opened Pipeline
  import opened RoundTrip
  import opened Objects

  datatype ByteRange = ByteRange(start: nat, end: nat) {
    function ByteCount(): int {
      end - start + 1
    }
  }

  datatype RangeError = Unsatisfiable

  datatype RangePlan = RangePlan(blobs: seq<BlobDesc>, skip: nat, take: nat)

  /** Byte `i` is asked for, by section 14.1.2 of RFC 9110: within `first-last`, or among the
      final `first` bytes for a suffix range. */
  predicate Asked(size: nat, first: nat, last: Option<nat>, suffix: bool, i: nat) {
    && i < size
    && if suffix then i >= size - first else first <= i && (last.Some? ==> i <= last.value)
  }

  /** The window holds exactly the bytes asked for; a range that asks for none is refused. */
  function Resolve(size: nat, first: nat, last: Option<nat>, suffix: bool): (r: Result<ByteRange, RangeError>)
    ensures r.Success? ==> forall i: nat ::
              r.value.start <= i <= r.value.end <==> Asked(size, first, last, suffix, i)
    ensures r.Success? ==> r.value.start <= r.value.end < size
    ensures r.Failure? ==> forall i: nat :: !Asked(size, first, last, suffix, i)
  {
    if size == 0 then Failure(Unsatisfiable)
    else if suffix then
      if first == 0 then Failure(Unsatisfiable)
      else Success(ByteRange(if first >= size then 0 else size - first, size - 1))
    else if first > size - 1 then Failure(Unsatisfiable)
    else
      var end := match last case None => size - 1 case Some(l) => Min(l, size - 1);
      if end < first then Failure(Unsatisfiable) else Success(ByteRange(first, end))
  }

  /** Where blob `k` starts in the object. */
  function Offset(blobs: seq<BlobDesc>, k: nat): nat
    requires k <= |blobs|
  {
    if k == 0 then 0 else Offset(blobs, k - 1) + blobs[k - 1].len
  }

  lemma {:induction false} OffsetMonotone(blobs: seq<BlobDesc>, i: nat, k: nat)
    requires i <= k <= |blobs|
    ensures Offset(blobs, i) <= Offset(blobs, k)
    decreases k
  {
    if i < k { OffsetMonotone(blobs, i, k - 1); }
  }

  lemma OffsetStarts(blobs: seq<BlobDesc>)
    ensures Offset(blobs, 0) == 0
  {
  }

  lemma OffsetStep(blobs: seq<BlobDesc>, k: nat)
    requires k < |blobs|
    ensures Offset(blobs, k + 1) == Offset(blobs, k) + blobs[k].len
  {
  }

  /** `blobs[lo..hi]` is the narrowest run of blobs around the window. */
  ghost predicate Covers(blobs: seq<BlobDesc>, range: ByteRange, lo: nat, hi: nat) {
    && lo < hi <= |blobs|
    && Offset(blobs, lo) <= range.start < Offset(blobs, lo + 1)
    && Offset(blobs, hi - 1) <= range.end < Offset(blobs, hi)
  }

  /** Plans a window: fails exactly when the layout does not reach its end. The subtraction
      `range.start - offset` cannot underflow. */
  method Plan(blobs: seq<BlobDesc>, range: ByteRange) returns (r: Option<RangePlan>, ghost lo: nat, ghost hi: nat)
    requires range.start <= range.end
    ensures r.Some? <==> range.end < Offset(blobs, |blobs|)
    ensures r.Some? ==>
              && Covers(blobs, range, lo, hi)
              && r.value == RangePlan(blobs[lo..hi], range.start - Offset(blobs, lo), range.ByteCount())
  {
    hide Offset;
    OffsetStarts(blobs);
    var picked: seq<BlobDesc> := [];
    var offset: nat := 0;
    var skip: Option<nat> := None;
    lo, hi := 0, 0;
    var k := 0;
    while k < |blobs|
      invariant 0 <= k <= |blobs| && offset == Offset(blobs, k) <= range.end
      invariant skip.None? ==> picked == [] && offset <= range.start
      invariant skip.Some? ==>
                  && lo < k && picked == blobs[lo..k]
                  && Offset(blobs, lo) <= range.start < Offset(blobs, lo + 1)
                  && skip.value == range.start - Offset(blobs, lo)
                  && offset > range.start
    {
      OffsetStep(blobs, k);
      var blobEnd := offset + blobs[k].len;
      if blobEnd > range.start && offset <= range.end {
        if skip.None? {
          skip := Some(range.start - offset);
          lo := k;
        }
        picked := picked + [blobs[k]];
      }
      offset := blobEnd;
      k := k + 1;
      if offset > range.end {
        hi := k;
        OffsetMonotone(blobs, k, |blobs|);
        return Some(RangePlan(picked, skip.value, range.ByteCount())), lo, hi;
      }
    }
    return None, lo, hi;
  }

  // ---------------------------------------------------------------- a window is a slice

  lemma {:induction false} ConcatSplits(a: seq<Bytes>, b: seq<Bytes>)
    ensures Concat(a + b) == Concat(a) + Concat(b)
  {
    if a == [] {
      assert a + b == b;
    } else {
      ConcatSplits(a[1..], b);
      var all := a + b;
      assert all[0] == a[0] && all[1..] == a[1..] + b;
      PlusAssociates(a[0], Concat(a[1..]), Concat(b));
    }
  }

  lemma {:induction false} OffsetIsLength(blobs: seq<BlobDesc>, cuts: seq<Bytes>, k: nat)
    requires Describes(blobs, cuts) && k <= |blobs|
    ensures Offset(blobs, k) == |Concat(cuts[..k])|
  {
    if k > 0 {
      OffsetIsLength(blobs, cuts, k - 1);
      ConcatAppends(cuts[..k - 1], cuts[k - 1]);
      assert cuts[..k] == cuts[..k - 1] + [cuts[k - 1]];
    }
  }

  /** Trimming the covering blobs gives exactly the window of the whole object. */
  lemma PlannedWindowIsSlice(blobs: seq<BlobDesc>, cuts: seq<Bytes>, range: ByteRange, lo: nat, hi: nat)
    requires Describes(blobs, cuts) && range.start <= range.end && Covers(blobs, range, lo, hi)
    ensures var skip, take := range.start - Offset(blobs, lo), range.ByteCount();
            && 0 <= skip <= skip + take <= |Concat(cuts[lo..hi])|
            && range.end < |Concat(cuts)|
            && Concat(cuts[lo..hi])[skip..skip + take] == Concat(cuts)[range.start..range.end + 1]
  {
    hide Concat, Offset;
    OffsetIsLength(blobs, cuts, lo);
    OffsetIsLength(blobs, cuts, hi);
    ConcatSplits(cuts[..lo], cuts[lo..hi]);
    ConcatSplits(cuts[..hi], cuts[hi..]);
    assert cuts[..hi] == cuts[..lo] + cuts[lo..hi] && cuts == cuts[..hi] + cuts[hi..];
    var a, b, c := Concat(cuts[..lo]), Concat(cuts[lo..hi]), Concat(cuts[hi..]);
    assert Concat(cuts) == a + b + c;
    SliceOfMiddle(a, b, c, range.start - |a|, range.end + 1 - |a|);
  }

  lemma SliceOfMiddle(a: Bytes, b: Bytes, c: Bytes, from: nat, to: nat)
    requires from <= to <= |b|
    ensures (a + b + c)[|a| + from..|a| + to] == b[from..to]
  {
  }

  datatype FetchError = Read(error: GatewayError) | RangeNotSatisfiable

  /** The answer is that some stripe has fewer than `data` frames left. */
  ghost predicate ReportsLoss(r: Result<Bytes, FetchError>, data: nat) {
    r.Failure? && r.error.Read? && IsTooFewShards(Failure(r.error.error), data)
  }

  /** The ranged read of `fetch`: read the planned blobs under their own length check, then trim. */
  function FetchWindow(p: Params, plan: RangePlan, replies: seq<Slots>): Result<Bytes, FetchError>
    requires p.Valid() && |replies| == |plan.blobs|
  {
    match Checked(Offset(plan.blobs, |plan.blobs|), Fetched(p, plan.blobs, replies))
    case Failure(e) => Failure(Read(e))
    case Success(bytes) =>
      if plan.skip + plan.take <= |bytes| then Success(bytes[plan.skip..plan.skip + plan.take])
      else Failure(RangeNotSatisfiable)
  }

  /** The plan for a covered window. */
  function PlanOf(blobs: seq<BlobDesc>, range: ByteRange, lo: nat, hi: nat): RangePlan
    requires range.start <= range.end && Covers(blobs, range, lo, hi)
  {
    RangePlan(blobs[lo..hi], range.start - Offset(blobs, lo), range.ByteCount())
  }

  /** A ranged read of an object, however much is lost: exactly `object[start..=end]` when the blobs
      around the window can be recovered, and `TooFewShards` when one of them cannot. */
  lemma RangedGetIsSlice(p: Params, data: Bytes, cuts: seq<Bytes>, blobs: seq<BlobDesc>, replies: seq<Slots>,
                         range: ByteRange, lo: nat, hi: nat)
    requires p.Valid() && Mds(p.ec) && Concat(cuts) == data && Describes(blobs, cuts) && Unforged(p, cuts, replies)
    requires forall i | 0 <= i < |blobs| :: blobs[i].shards == p.ec.Total()
    requires range.start <= range.end < |data| && Covers(blobs, range, lo, hi)
    ensures AllRecoverable(p, cuts[lo..hi], replies[lo..hi]) ==>
              FetchWindow(p, PlanOf(blobs, range, lo, hi), replies[lo..hi])
              == Success(data[range.start..range.end + 1])
    ensures !AllRecoverable(p, cuts[lo..hi], replies[lo..hi]) ==>
              ReportsLoss(FetchWindow(p, PlanOf(blobs, range, lo, hi), replies[lo..hi]), p.ec.data)
  {
    hide Mds, Fetched, Offset, Concat, AlterationsFail, Encoded, AllRecoverable;
    PlannedWindowIsSlice(blobs, cuts, range, lo, hi);
    FetchedIsHonest(p, cuts[lo..hi], blobs[lo..hi], replies[lo..hi]);
    OffsetIsLength(blobs[lo..hi], cuts[lo..hi], hi - lo);
    assert cuts[lo..hi][..hi - lo] == cuts[lo..hi];
  }

  // ---------------------------------------------------------------- a whole GET

  datatype RangeSpec = RangeSpec(first: nat, last: Option<nat>, suffix: bool)

  /** An object's bytes: inside its metadata, or as blobs. */
  datatype Body = Inline(data: Bytes) | Laid(blobs: seq<BlobDesc>)

  /** What reading the shards of each blob returns. */
  function Replies(blobs: seq<BlobDesc>, read: BlobDesc -> Slots): (r: seq<Slots>)
    ensures |r| == |blobs|
  {
    seq(|blobs|, k requires 0 <= k < |blobs| => read(blobs[k]))
  }

  /** The body holds `data`: as it is, or as blobs of which any frames may be gone or altered, an
      altered one no longer beginning with its digest. */
  ghost predicate Holds(p: Params, code: CodeMode, data: Bytes, body: Body, read: BlobDesc -> Slots)
    requires p.Valid() && code.Valid()
  {
    match body
    case Inline(d) => d == data
    case Laid(blobs) =>
      && Describes(blobs, Cuts(data, code.blobSize))
      && (forall i | 0 <= i < |blobs| :: blobs[i].shards == code.Total())
      && Unforged(p, Cuts(data, code.blobSize), Replies(blobs, read))
  }

  /** Byte `i` of the object is asked for: any byte when no range is given. */
  predicate Wanted(size: nat, want: Option<RangeSpec>, i: nat) {
    if want.None? then i < size else Asked(size, want.value.first, want.value.last, want.value.suffix, i)
  }

  /** Blob `k` holds a byte asked for. */
  ghost predicate Needs(size: nat, blobs: seq<BlobDesc>, want: Option<RangeSpec>, k: nat)
    requires k < |blobs|
  {
    exists i: nat :: Offset(blobs, k) <= i < Offset(blobs, k + 1) && Wanted(size, want, i)
  }

  /** Every blob that holds a byte asked for keeps `data` frames of each of its stripes. */
  ghost predicate Readable(p: Params, size: nat, body: Body, want: Option<RangeSpec>, read: BlobDesc -> Slots)
    requires p.Valid()
  {
    body.Laid? ==> forall k | 0 <= k < |body.blobs| && Needs(size, body.blobs, want, k) ::
      Recoverable(p, body.blobs[k].len, read(body.blobs[k]))
  }

  /** Every blob was acknowledged at quorum and lost no more than the slack since. */
  ghost predicate AckedBody(p: Params, code: CodeMode, data: Bytes, body: Body, read: BlobDesc -> Slots,
                            acked: seq<set<nat>>, lost: seq<set<nat>>)
    requires p.Valid() && code.Valid()
  {
    body.Laid? ==> Acknowledged(p, code, Cuts(data, code.blobSize), acked, lost, Replies(body.blobs, read))
  }

  /** The answer the caller is owed. */
  function Owed(data: Bytes, want: Option<RangeSpec>): Result<Bytes, FetchError> {
    if want.None? then Success(data)
    else
      match Resolve(|data|, want.value.first, want.value.last, want.value.suffix)
      case Failure(_) => Failure(RangeNotSatisfiable)
      case Success(w) => Success(data[w.start..w.end + 1])
  }

  /** What is owed is the bytes asked for, in order, or a refusal when none is. */
  lemma OwedIsWhatWasAsked(data: Bytes, want: Option<RangeSpec>)
    ensures Owed(data, want).Success? ==> exists lo: nat, hi: nat | lo <= hi <= |data| ::
              && Owed(data, want).value == data[lo..hi]
              && forall i: nat :: lo <= i < hi <==> Wanted(|data|, want, i)
    ensures Owed(data, want).Failure? ==> want.Some? && forall i: nat :: !Wanted(|data|, want, i)
  {
    if want.None? {
      assert data[0..|data|] == data;
    } else if Owed(data, want).Success? {
      var w := Resolve(|data|, want.value.first, want.value.last, want.value.suffix).value;
      assert Owed(data, want).value == data[w.start..w.end + 1];
    }
  }

  /** GET, ranged or whole, of an object inline or in blobs, however much has been lost: the caller
      gets what it is owed when the blobs it needs can be recovered, `TooFewShards` when one cannot,
      and other bytes never. What was acknowledged can be recovered. */
  method Fetch(p: Params, ghost code: CodeMode, size: nat, body: Body, want: Option<RangeSpec>,
               read: BlobDesc -> Slots, ghost data: Bytes, ghost acked: seq<set<nat>>, ghost lost: seq<set<nat>>)
    returns (r: Result<Bytes, FetchError>)
    requires p.Valid() && code.Valid() && Fits(p, code) && Mds(p.ec)
    ensures Holds(p, code, data, body, read) && size == |data| && r.Success? ==> r == Owed(data, want)
    ensures Holds(p, code, data, body, read) && size == |data| && Readable(p, size, body, want, read) ==>
              r == Owed(data, want)
    ensures Holds(p, code, data, body, read) && size == |data| && !Readable(p, size, body, want, read) ==>
              ReportsLoss(r, p.ec.data)
    ensures && Holds(p, code, data, body, read) && size == |data|
            && AckedBody(p, code, data, body, read, acked, lost)
            ==> r == Owed(data, want)
  {
    hide Mds, Offset, Holds, Readable, AckedBody, Wanted, IsTooFewShards;
    ghost var held := Holds(p, code, data, body, read) && size == |data|;
    if held && AckedBody(p, code, data, body, read, acked, lost) {
      AckedIsReadable(p, code, data, body, want, read, acked, lost);
    }
    var window: Option<ByteRange> := None;
    if want.Some? {
      var resolved := Resolve(size, want.value.first, want.value.last, want.value.suffix);
      if resolved.Failure? {
        NothingNeeded(p, size, body, want, read);
        return Failure(RangeNotSatisfiable);
      }
      window := Some(resolved.value);
    }
    match body {
      case Inline(bytes) =>
        if held { InlineIsReadable(p, code, data, bytes, want, read); }
        if window.None? {
          return Success(bytes);
        } else if window.value.end < |bytes| {
          return Success(bytes[window.value.start..window.value.end + 1]);
        } else {
          return Failure(RangeNotSatisfiable);
        }
      case Laid(blobs) =>
        if window.None? {
          r := ReadWhole(p, code, size, blobs, read, data);
        } else {
          r := ReadWindow(p, code, size, blobs, window.value, want.value, read, data);
        }
    }
  }

  lemma NothingNeeded(p: Params, size: nat, body: Body, want: Option<RangeSpec>, read: BlobDesc -> Slots)
    requires p.Valid() && want.Some?
    requires Resolve(size, want.value.first, want.value.last, want.value.suffix).Failure?
    ensures Readable(p, size, body, want, read)
  {
    hide Recoverable, Offset;
  }

  lemma InlineIsReadable(p: Params, code: CodeMode, data: Bytes, bytes: Bytes, want: Option<RangeSpec>,
                         read: BlobDesc -> Slots)
    requires p.Valid() && code.Valid() && Holds(p, code, data, Inline(bytes), read)
    ensures bytes == data && Readable(p, |data|, Inline(bytes), want, read)
  {
  }

  lemma AckedIsReadable(p: Params, code: CodeMode, data: Bytes, body: Body, want: Option<RangeSpec>,
                        read: BlobDesc -> Slots, acked: seq<set<nat>>, lost: seq<set<nat>>)
    requires p.Valid() && code.Valid() && Fits(p, code) && Mds(p.ec) && Holds(p, code, data, body, read)
    requires AckedBody(p, code, data, body, read, acked, lost)
    ensures Readable(p, |data|, body, want, read)
  {
    hide Mds, Recoverable, Needs, Cuts, Acknowledged, Unforged;
    if body.Laid? {
      AckedBlobsAreRecoverable(p, code, Cuts(data, code.blobSize), acked, lost, Replies(body.blobs, read));
    }
  }

  method ReadWhole(p: Params, ghost code: CodeMode, size: nat, blobs: seq<BlobDesc>, read: BlobDesc -> Slots,
                   ghost data: Bytes)
    returns (r: Result<Bytes, FetchError>)
    requires p.Valid() && code.Valid() && Fits(p, code) && Mds(p.ec)
    ensures Holds(p, code, data, Laid(blobs), read) && size == |data| ==>
              if Readable(p, size, Laid(blobs), None, read) then r == Success(data) else ReportsLoss(r, p.ec.data)
  {
    hide Mds, Fetched, Cuts, Replies, Holds, Readable, HealReports;
    var got := GetObject(p, size, blobs, Replies(blobs, read));
    if Holds(p, code, data, Laid(blobs), read) {
      WholeIsServed(p, code, data, blobs, read);
    }
    r := match got case Failure(e) => Failure(Read(e)) case Success(v) => Success(v.0);
  }

  lemma WholeIsServed(p: Params, code: CodeMode, data: Bytes, blobs: seq<BlobDesc>, read: BlobDesc -> Slots)
    requires p.Valid() && code.Valid() && Fits(p, code) && Mds(p.ec) && Holds(p, code, data, Laid(blobs), read)
    ensures Readable(p, |data|, Laid(blobs), None, read) ==> Fetched(p, blobs, Replies(blobs, read)) == Success(data)
    ensures !Readable(p, |data|, Laid(blobs), None, read) ==>
              IsTooFewShards(Fetched(p, blobs, Replies(blobs, read)), p.ec.data)
  {
    hide Mds, Fetched, Cuts, Unforged, AllRecoverable, Readable, Concat;
    var cuts := Cuts(data, code.blobSize);
    CutsConcatenate(data, code.blobSize);
    FetchedIsHonest(p, cuts, blobs, Replies(blobs, read));
    WholeNeedsAll(p, code, data, blobs, read);
  }

  /** Blob `k` of an object holds some of its bytes. */
  lemma BlobHoldsBytes(data: Bytes, blobSize: nat, blobs: seq<BlobDesc>, k: nat)
    requires blobSize > 0 && Describes(blobs, Cuts(data, blobSize)) && k < |blobs|
    ensures Offset(blobs, k) < Offset(blobs, k + 1) <= |data|
  {
    hide Cuts, Concat;
    var cuts := Cuts(data, blobSize);
    CutsAreFull(data, blobSize, k);
    CutsConcatenate(data, blobSize);
    OffsetIsLength(blobs, cuts, |cuts|);
    assert cuts[..|cuts|] == cuts;
    OffsetMonotone(blobs, k + 1, |blobs|);
  }

  lemma {:induction false} CutsAreFull(data: Bytes, blobSize: nat, k: nat)
    requires blobSize > 0 && k < |Cuts(data, blobSize)|
    ensures 0 < |Cuts(data, blobSize)[k]| <= blobSize
    ensures k + 1 < |Cuts(data, blobSize)| ==> |Cuts(data, blobSize)[k]| == blobSize
    decreases k
  {
    var n := Min(blobSize, |data|);
    if k > 0 {
      CutsAreFull(data[n..], blobSize, k - 1);
    } else if n < blobSize {
      assert Cuts(data[n..], blobSize) == [];
    }
  }

  lemma WholeNeedsAll(p: Params, code: CodeMode, data: Bytes, blobs: seq<BlobDesc>, read: BlobDesc -> Slots)
    requires p.Valid() && code.Valid() && Holds(p, code, data, Laid(blobs), read)
    ensures Readable(p, |data|, Laid(blobs), None, read) <==>
              AllRecoverable(p, Cuts(data, code.blobSize), Replies(blobs, read))
  {
    hide Cuts, Unforged, Recoverable, Offset;
    if Readable(p, |data|, Laid(blobs), None, read) {
      forall k | 0 <= k < |blobs| ensures Recoverable(p, blobs[k].len, read(blobs[k])) {
        BlobHoldsBytes(data, code.blobSize, blobs, k);
        assert Wanted(|data|, None, Offset(blobs, k));
      }
    }
  }

  method ReadWindow(p: Params, ghost code: CodeMode, ghost size: nat, blobs: seq<BlobDesc>, window: ByteRange,
                    ghost want: RangeSpec, read: BlobDesc -> Slots, ghost data: Bytes)
    returns (r: Result<Bytes, FetchError>)
    requires p.Valid() && code.Valid() && Fits(p, code) && Mds(p.ec) && window.start <= window.end < size
    requires Resolve(size, want.first, want.last, want.suffix) == Success(window)
    ensures Holds(p, code, data, Laid(blobs), read) && size == |data| ==>
              if Readable(p, size, Laid(blobs), Some(want), read)
              then r == Success(data[window.start..window.end + 1])
              else ReportsLoss(r, p.ec.data)
  {
    hide Mds, FetchWindow, Offset, Covers, Holds, Replies, Fits, Readable, ReportsLoss;
    ghost var held := Holds(p, code, data, Laid(blobs), read) && size == |data|;
    var plan, lo, hi := Plan(blobs, window);
    if held {
      WholeIsReached(p, code, data, blobs, read);
    }
    if plan.None? {
      return Failure(RangeNotSatisfiable);
    }
    if held {
      WindowIsServed(p, code, data, blobs, read, want, window, lo, hi);
    }
    r := ReadPlanned(p, plan.value, read);
  }

  lemma WindowIsServed(p: Params, code: CodeMode, data: Bytes, blobs: seq<BlobDesc>, read: BlobDesc -> Slots,
                       want: RangeSpec, window: ByteRange, lo: nat, hi: nat)
    requires p.Valid() && code.Valid() && Fits(p, code) && Mds(p.ec) && window.start <= window.end < |data|
    requires Resolve(|data|, want.first, want.last, want.suffix) == Success(window)
    requires Holds(p, code, data, Laid(blobs), read) && Covers(blobs, window, lo, hi)
    ensures var got := FetchWindow(p, PlanOf(blobs, window, lo, hi), Replies(blobs[lo..hi], read));
            if Readable(p, |data|, Laid(blobs), Some(want), read)
            then got == Success(data[window.start..window.end + 1])
            else ReportsLoss(got, p.ec.data)
  {
    hide Mds, Unforged, Cuts, Offset, FetchWindow, Concat, Readable, AllRecoverable, ReportsLoss;
    assert Replies(blobs[lo..hi], read) == Replies(blobs, read)[lo..hi];
    var cuts := Cuts(data, code.blobSize);
    CutsConcatenate(data, code.blobSize);
    RangedGetIsSlice(p, data, cuts, blobs, Replies(blobs, read), window, lo, hi);
    WindowNeedsCovering(p, code, data, blobs, read, want, window, lo, hi);
  }

  /** The planned blobs are exactly those that hold a byte asked for. */
  lemma WindowNeedsCovering(p: Params, code: CodeMode, data: Bytes, blobs: seq<BlobDesc>, read: BlobDesc -> Slots,
                            want: RangeSpec, window: ByteRange, lo: nat, hi: nat)
    requires p.Valid() && code.Valid() && Holds(p, code, data, Laid(blobs), read) && Covers(blobs, window, lo, hi)
    requires Resolve(|data|, want.first, want.last, want.suffix) == Success(window)
    requires |Cuts(data, code.blobSize)| == |blobs|
    ensures Readable(p, |data|, Laid(blobs), Some(want), read) <==>
              AllRecoverable(p, Cuts(data, code.blobSize)[lo..hi], Replies(blobs, read)[lo..hi])
  {
    hide Cuts, Unforged, Recoverable, Offset, Wanted, Resolve, Needs;
    var cuts, replies := Cuts(data, code.blobSize), Replies(blobs, read);
    forall k | 0 <= k < |blobs| ensures Needs(|data|, blobs, Some(want), k) <==> lo <= k < hi {
      CoveredIffAsked(data, code.blobSize, blobs, want, window, lo, hi, k);
    }
    hide Holds;
    assert forall k | lo <= k < hi :: cuts[lo..hi][k - lo] == cuts[k] && replies[lo..hi][k - lo] == read(blobs[k]);
  }

  lemma CoveredIffAsked(data: Bytes, blobSize: nat, blobs: seq<BlobDesc>, want: RangeSpec, window: ByteRange,
                        lo: nat, hi: nat, k: nat)
    requires blobSize > 0 && Describes(blobs, Cuts(data, blobSize)) && Covers(blobs, window, lo, hi) && k < |blobs|
    requires Resolve(|data|, want.first, want.last, want.suffix) == Success(window)
    ensures Needs(|data|, blobs, Some(want), k) <==> lo <= k < hi
  {
    hide Cuts, Offset, Asked, Resolve;
    BlobHoldsBytes(data, blobSize, blobs, k);
    if k < lo {
      OffsetMonotone(blobs, k + 1, lo);
    } else if hi <= k {
      OffsetMonotone(blobs, hi, k);
    } else {
      if lo < k { OffsetMonotone(blobs, lo + 1, k); }
      OffsetMonotone(blobs, k, hi - 1);
      var i := if k == lo then window.start else Offset(blobs, k);
      assert window.start <= i <= window.end;
      assert Wanted(|data|, Some(want), i);
    }
  }

  method ReadPlanned(p: Params, plan: RangePlan, read: BlobDesc -> Slots) returns (r: Result<Bytes, FetchError>)
    requires p.Valid()
    ensures r == FetchWindow(p, plan, Replies(plan.blobs, read))
  {
    hide Fetched, Offset, Checked, Replies;
    var span := Span(plan.blobs);
    var got := GetObject(p, span, plan.blobs, Replies(plan.blobs, read));
    match got {
      case Failure(e) => r := Failure(Read(e));
      case Success(v) =>
        if plan.skip + plan.take <= |v.0| {
          r := Success(v.0[plan.skip..plan.skip + plan.take]);
        } else {
          r := Failure(RangeNotSatisfiable);
        }
    }
  }

  /** The bytes a narrowed layout spans. */
  method Span(blobs: seq<BlobDesc>) returns (n: nat)
    ensures n == Offset(blobs, |blobs|)
  {
    n := 0;
    for k := 0 to |blobs|
      invariant n == Offset(blobs, k)
    {
      n := n + blobs[k].len;
    }
  }

  lemma WholeIsReached(p: Params, code: CodeMode, data: Bytes, blobs: seq<BlobDesc>, read: BlobDesc -> Slots)
    requires p.Valid() && code.Valid() && Holds(p, code, data, Laid(blobs), read)
    ensures Offset(blobs, |blobs|) == |data|
  {
    hide Offset, Unforged, Cuts, Concat;
    var cuts := Cuts(data, code.blobSize);
    CutsConcatenate(data, code.blobSize);
    OffsetIsLength(blobs, cuts, |cuts|);
    assert cuts[..|cuts|] == cuts;
  }
}
