/** Paged scans over the ordered metadata store, and the GC reference export built on them
    (crates/epoch-meta/src/gc_export.rs, crates/epoch-meta/src/store/mod.rs). */
module Scans {
  import opened Bytes

  /** Column families of the metadata store. */
  datatype Family = Meta | Fs | MetaSeg | Upload | Delq | Ttl

  datatype Row = Row(key: Bytes, value: Bytes)

  datatype KeyRange = KeyRange(family: Family, start: Bytes, end: Bytes)

  datatype Slice = Slice(chunk: nat, blobIds: seq<nat>)

  function Keys(rows: seq<Row>): seq<Bytes> {
    seq(|rows|, i requires 0 <= i < |rows| => rows[i].key)
  }

  predicate Within(key: Bytes, start: Bytes, end: Bytes) {
    AtMost(start, key) && Less(key, end)
  }

  /** The rows of `[start, end)`, in key order. */
  function InRange(rows: seq<Row>, start: Bytes, end: Bytes): seq<Row> {
    if rows == [] then []
    else (if Within(rows[0].key, start, end) then [rows[0]] else []) + InRange(rows[1..], start, end)
  }

  /** `MetaStore::scan`: at most `limit` rows of `[start, end)`. */
  function Scan(rows: seq<Row>, start: Bytes, end: Bytes, limit: nat): seq<Row> {
    var all := InRange(rows, start, end);
    all[..Min(limit, |all|)]
  }

  lemma AscendingTail(rows: seq<Row>)
    requires rows != [] && Ascending(Keys(rows))
    ensures Ascending(Keys(rows[1..]))
    ensures AllAbove(rows[1..], rows[0].key)
  {
    forall i, j | 0 <= i < j < |rows[1..]| ensures Less(Keys(rows[1..])[i], Keys(rows[1..])[j]) {
      assert Less(Keys(rows)[i + 1], Keys(rows)[j + 1]);
    }
    forall i | 0 <= i < |rows[1..]| ensures Less(rows[0].key, rows[1..][i].key) {
      assert Less(Keys(rows)[0], Keys(rows)[i + 1]);
    }
  }

  /** A scan returns exactly the rows of its range. */
  lemma {:induction false} InRangeHolds(rows: seq<Row>, start: Bytes, end: Bytes, row: Row)
    ensures row in InRange(rows, start, end) <==> row in rows && AtMost(start, row.key) && Less(row.key, end)
  {
    hide AtMost, Less;
    if rows != [] {
      InRangeHolds(rows[1..], start, end, row);
      assert row in rows <==> row == rows[0] || row in rows[1..];
    }
  }

  predicate AllAbove(rows: seq<Row>, c: Bytes) {
    forall i | 0 <= i < |rows| :: Less(c, rows[i].key)
  }

  lemma {:induction false} RaisedStart(rows: seq<Row>, start: Bytes, c: Bytes, end: Bytes)
    requires AllAbove(rows, c) && AtMost(start, c)
    ensures InRange(rows, c + [0], end) == InRange(rows, start, end)
  {
    if rows != [] {
      assert AllAbove(rows[1..], c);
      RaisedStart(rows[1..], start, c, end);
      SuccessorIsTight(c, rows[0].key);
      AtMostLess(start, c, rows[0].key);
    }
  }

  lemma AtMostLess(a: Bytes, b: Bytes, c: Bytes)
    requires AtMost(a, b) && Less(b, c)
    ensures Less(a, c)
  {
    if a != b {
      LessTransitive(a, b, c);
    }
  }

  lemma NotAbove(start: Bytes, c: Bytes, end: Bytes, key: Bytes)
    requires AtMost(start, c) && (!Within(key, start, end) || key == c)
    ensures !Within(key, c + [0], end)
  {
    SuccessorIsTight(c, key);
    if Less(c, key) {
      AtMostLess(start, c, key);
      LessIrreflexive(key);
    }
  }

  /** Stepping the cursor to `last_key · 0x00` resumes with exactly the rows not yet seen. */
  lemma {:induction false} NextPageResumes(rows: seq<Row>, start: Bytes, end: Bytes, n: nat)
    requires Ascending(Keys(rows)) && 0 < n <= |InRange(rows, start, end)|
    ensures AtMost(start, InRange(rows, start, end)[n - 1].key)
    ensures InRange(rows, InRange(rows, start, end)[n - 1].key + [0], end) == InRange(rows, start, end)[n..]
    decreases |rows|
  {
    hide Within, Ascending, Less, AtMost;
    AscendingTail(rows);
    var all, rest := InRange(rows, start, end), InRange(rows[1..], start, end);
    var c := all[n - 1].key;
    if !Within(rows[0].key, start, end) {
      NextPageResumes(rows[1..], start, end, n);
      assert all == rest;
      NotAbove(start, c, end, rows[0].key);
    } else {
      WithinStart(rows[0].key, start, end);
      assert all == [rows[0]] + rest;
      if n == 1 {
        RaisedStart(rows[1..], start, c, end);
        NotAbove(start, c, end, rows[0].key);
      } else {
        NextPageResumes(rows[1..], start, end, n - 1);
        FirstNotAbove(rows, start, end, n);
      }
    }
  }

  lemma FirstNotAbove(rows: seq<Row>, start: Bytes, end: Bytes, n: nat)
    requires rows != [] && Ascending(Keys(rows)) && 1 < n <= |InRange(rows, start, end)|
    requires Within(rows[0].key, start, end)
    ensures !Within(rows[0].key, InRange(rows, start, end)[n - 1].key + [0], end)
  {
    hide Within, Ascending, Less, AtMost;
    AscendingTail(rows);
    var rest := InRange(rows[1..], start, end);
    var last := rest[n - 2];
    assert last in rest;
    InRangeHolds(rows[1..], start, end, last);
    assert InRange(rows, start, end)[n - 1] == last;
    BelowIsNotAbove(rows[0].key, last.key, end);
  }

  lemma BelowIsNotAbove(key: Bytes, c: Bytes, end: Bytes)
    requires Less(key, c)
    ensures !Within(key, c + [0], end)
  {
    SuccessorIsTight(c, key);
    if Less(c, key) {
      LessTransitive(c, key, c);
      LessIrreflexive(c);
    }
  }

  lemma WithinStart(key: Bytes, start: Bytes, end: Bytes)
    requires Within(key, start, end)
    ensures AtMost(start, key)
  {
  }

  // ---------------------------------------------------------------- reference export

  function IdsOf(slices: seq<Slice>): set<nat> {
    set i, k | 0 <= i < |slices| && 0 <= k < |slices[i].blobIds| :: slices[i].blobIds[k]
  }

  function IdsOfRows(rows: seq<Row>, extract: Bytes -> seq<Slice>): set<nat> {
    if rows == [] then {} else IdsOf(extract(rows[0].value)) + IdsOfRows(rows[1..], extract)
  }

  predicate HoldsReferences(family: Family) {
    family != Delq && family != Ttl
  }

  /** `id` is named by some row of a range, in a family other than the delete queue and the
      expiry index. */
  ghost predicate Named(store: map<Family, seq<Row>>, ranges: seq<KeyRange>,
                           extract: (Family, Bytes) -> seq<Slice>, id: nat)
  {
    exists r, row :: NamedBy(store, ranges, extract, id, r, row)
  }

  ghost predicate NamedBy(store: map<Family, seq<Row>>, ranges: seq<KeyRange>,
                             extract: (Family, Bytes) -> seq<Slice>, id: nat, r: KeyRange, row: Row)
  {
    && r in ranges && r.family in {Meta, Fs, MetaSeg, Upload} && r.family in store
    && row in store[r.family] && AtMost(r.start, row.key) && Less(row.key, r.end)
    && id in IdsOf(extract(r.family, row.value))
  }

  lemma {:induction false} IdsOfRowsHolds(rows: seq<Row>, extract: Bytes -> seq<Slice>, id: nat)
    ensures id in IdsOfRows(rows, extract) <==> exists row :: row in rows && id in IdsOf(extract(row.value))
  {
    hide IdsOf;
    if rows != [] {
      IdsOfRowsHolds(rows[1..], extract, id);
      assert rows[0] in rows && forall row :: row in rows <==> row == rows[0] || row in rows[1..];
    }
  }

  lemma {:induction false} IdsOfRowsSplits(a: seq<Row>, b: seq<Row>, extract: Bytes -> seq<Slice>)
    ensures IdsOfRows(a + b, extract) == IdsOfRows(a, extract) + IdsOfRows(b, extract)
  {
    hide IdsOf;
    if a == [] {
      assert a + b == b;
    } else {
      IdsOfRowsSplits(a[1..], b, extract);
      assert (a + b)[0] == a[0] && (a + b)[1..] == a[1..] + b;
    }
  }

  lemma PageStep(rows: seq<Row>, cursor: Bytes, end: Bytes, pageSize: nat, visited: seq<Row>)
    requires pageSize > 0 && Ascending(Keys(rows)) && Scan(rows, cursor, end, pageSize) != []
    ensures var page := Scan(rows, cursor, end, pageSize);
            var left := InRange(rows, page[|page| - 1].key + [0], end);
            visited + page + left == visited + InRange(rows, cursor, end) && |left| < |InRange(rows, cursor, end)|
  {
    hide InRange, Ascending, AtMost;
    var left, page := InRange(rows, cursor, end), Scan(rows, cursor, end, pageSize);
    NextPageResumes(rows, cursor, end, |page|);
    assert left == page + left[|page|..];
    assert visited + page + left[|page|..] == visited + left;
  }

  /** Scans one range page by page, visiting every row exactly once. */
  method ExportRange(rows: seq<Row>, range: KeyRange, extract: Bytes -> seq<Slice>, pageSize: nat)
    returns (ids: set<nat>, ghost visited: seq<Row>)
    requires pageSize > 0 && Ascending(Keys(rows))
    ensures visited == InRange(rows, range.start, range.end)
    ensures ids == IdsOfRows(visited, extract)
  {
    hide InRange, Ascending, IdsOf, Less, AtMost, Keys;
    ids, visited := {}, [];
    var cursor := range.start;
    while true
      invariant visited + InRange(rows, cursor, range.end) == InRange(rows, range.start, range.end)
      invariant ids == IdsOfRows(visited, extract)
      decreases |InRange(rows, cursor, range.end)|
    {
      var page := Scan(rows, cursor, range.end, pageSize);
      if page == [] {
        break;
      }
      PageStep(rows, cursor, range.end, pageSize, visited);
      IdsOfRowsSplits(visited, page, extract);
      cursor := page[|page| - 1].key + [0];
      ids := ids + IdsOfRows(page, extract);
      visited := visited + page;
    }
  }

  /** The exported keep-set is exactly the ids named by the rows of the partition's ranges. */
  method ExportReferences(store: map<Family, seq<Row>>, ranges: seq<KeyRange>,
                             extract: (Family, Bytes) -> seq<Slice>, pageSize: nat)
    returns (refs: set<nat>)
    requires pageSize > 0
    requires forall f | f in store :: Ascending(Keys(store[f]))
    ensures forall id :: id in refs <==> Named(store, ranges, extract, id)
  {
    hide IdsOf, IdsOfRows, InRange, Ascending, Within;
    refs := {};
    for i := 0 to |ranges|
      invariant forall id :: id in refs <==> Named(store, ranges[..i], extract, id)
    {
      var r := ranges[i];
      ghost var before := refs;
      ghost var found: set<nat> := {};
      if HoldsReferences(r.family) && r.family in store {
        var ids, visited := ExportRange(store[r.family], r, (v: Bytes) => extract(r.family, v), pageSize);
        refs := refs + ids;
        found := ids;
        forall id ensures id in found <==> NamedInRange(store, r, extract, id) {
          ExportedIsNamed(store, r, extract, id);
        }
      }
      forall id ensures id in refs <==> Named(store, ranges[..i + 1], extract, id) {
        NamedStep(store, ranges, extract, id, i);
      }
    }
    assert ranges[..|ranges|] == ranges;
  }

  ghost predicate NamedInRange(store: map<Family, seq<Row>>, r: KeyRange,
                                  extract: (Family, Bytes) -> seq<Slice>, id: nat)
  {
    exists row :: NamedBy(store, [r], extract, id, r, row)
  }

  lemma ExportedIsNamed(store: map<Family, seq<Row>>, r: KeyRange,
                           extract: (Family, Bytes) -> seq<Slice>, id: nat)
    requires HoldsReferences(r.family) && r.family in store
    ensures id in IdsOfRows(InRange(store[r.family], r.start, r.end), (v: Bytes) => extract(r.family, v))
            <==> NamedInRange(store, r, extract, id)
  {
    hide IdsOf, Within, InRange;
    var rows := InRange(store[r.family], r.start, r.end);
    var f := (v: Bytes) => extract(r.family, v);
    IdsOfRowsHolds(rows, f, id);
    if row :| row in rows && id in IdsOf(f(row.value)) {
      InRangeHolds(store[r.family], r.start, r.end, row);
      assert NamedBy(store, [r], extract, id, r, row);
    }
    if row :| NamedBy(store, [r], extract, id, r, row) {
      InRangeHolds(store[r.family], r.start, r.end, row);
      assert row in rows && id in IdsOf(f(row.value));
    }
  }

  lemma NamedStep(store: map<Family, seq<Row>>, ranges: seq<KeyRange>,
                     extract: (Family, Bytes) -> seq<Slice>, id: nat, i: nat)
    requires i < |ranges|
    ensures Named(store, ranges[..i + 1], extract, id)
            <==> Named(store, ranges[..i], extract, id) || NamedInRange(store, ranges[i], extract, id)
  {
    hide IdsOf, Within;
    var a, b := ranges[..i], ranges[..i + 1];
    assert forall r :: r in b <==> r in a || r == ranges[i];
    if r, row :| NamedBy(store, b, extract, id, r, row) {
      assert r == ranges[i] ==> NamedBy(store, [r], extract, id, r, row);
      assert r in a ==> NamedBy(store, a, extract, id, r, row);
    }
    if r, row :| NamedBy(store, a, extract, id, r, row) {
      assert NamedBy(store, b, extract, id, r, row);
    }
    if row :| NamedBy(store, [ranges[i]], extract, id, ranges[i], row) {
      assert NamedBy(store, b, extract, id, ranges[i], row);
    }
  }
}
