/** One LIST page as the batches that make it up, and whole listings page by page
    (crates/epoch-gateway/src/http.rs). */
module ListPages {
  import opened Bytes
  import opened Listing

  // ---------------------------------------------------------------- one batch

  datatype Page = Page(rows: seq<Row>, token: Option<Bytes>)

  const MAX_BATCHES := 16

  /** Every group has a bound, and no bound is a key. */
  ghost predicate Clean(p: Bytes, d: Bytes, keys: seq<Bytes>) {
    forall i | 0 <= i < |keys| && Listed(p, d, keys[i]) && RowOf(p, d, keys[i]).CommonPrefix? ::
      HasFreeBound(keys, RowOf(p, d, keys[i]).name)
  }

  predicate HasFreeBound(keys: seq<Bytes>, g: Bytes) {
    Carry(g).Some? && Carry(g).value !in keys
  }

  /** Finding the cursor in a suffix agrees with finding it in all keys. */
  lemma PositionInSuffix(keys: seq<Bytes>, s: nat, c: Bytes)
    requires Ascending(keys) && s <= |keys| && s <= Position(keys, c)
    ensures s + Position(keys[s..], c) == Position(keys, c)
  {
    hide Less, Position;
    PositionSplits(keys, c);
    PositionSplits(keys[s..], c);
    var a, b := Position(keys, c), s + Position(keys[s..], c);
    assert a < |keys| ==> keys[s..][a - s] == keys[a];
    assert b < |keys| ==> keys[s..][b - s] == keys[b];
  }

  lemma BatchAdvancesByKey(p: Bytes, d: Bytes, keys: seq<Bytes>, s: nat, e: nat)
    requires Scannable(p, keys) && s < e <= |keys| && SkipPoint(Rows(p, d, keys[s..e])).None?
    ensures StartOf(keys, p, keys[e - 1]) == e
    ensures Rows(p, d, keys[s..]) == Rows(p, d, keys[s..e]) + Rows(p, d, keys[e..])
  {
    hide Less, RowOf, Rows, Position;
    var full, m := keys[s..], e - s;
    assert full[..m] == keys[s..e] && full[m..] == keys[e..];
    PositionOfKey(keys, e - 1);
    assert keys[e - 1] in keys;
    KeyNeverStraddles(p, d, full, m);
    JoinAt(p, d, full, m);
  }

  lemma BatchSkips(p: Bytes, d: Bytes, keys: seq<Bytes>, s: nat, e: nat, g: Bytes)
    requires Scannable(p, keys) && s < e <= |keys| && EndsInGroup(p, d, keys[s..], e - s, g) && HasFreeBound(keys, g)
    ensures var q := Position(keys, Carry(g).value);
            && q >= e
            && Rows(p, d, keys[s..]) == Rows(p, d, keys[s..e]) + Rows(p, d, keys[q..])
  {
    hide Less, Carry, RowOf, Rows, Position;
    var full, m, u := keys[s..], e - s, Carry(g).value;
    assert full[..m] == keys[s..e] && full == keys[s..|keys|] && full[m - 1] == keys[e - 1];
    SuffixIsScannable(p, keys, s, |keys|);
    GroupNeedsDelimiter(p, d, full[m - 1]);
    assert u !in full;
    SkipIsExact(p, d, full, m, g);
    var q := Position(full, u);
    JoinAt(p, d, full, q);
    KeyIsBelowBound(p, d, keys[e - 1], g);
    NotAboveIsBefore(keys, u, e - 1);
    PositionInSuffix(keys, s, u);
    assert full[q..] == keys[s + q..];
  }

  lemma LastRowHasFreeBound(p: Bytes, d: Bytes, keys: seq<Bytes>, s: nat, e: nat)
    requires Scannable(p, keys) && Clean(p, d, keys) && s < e <= |keys| && SkipPoint(Rows(p, d, keys[s..e])).Some?
    ensures var rows := Rows(p, d, keys[s..e]);
            var g := rows[|rows| - 1].name;
            && EndsInGroup(p, d, keys[s..], e - s, g) && HasFreeBound(keys, g)
  {
    hide Less, RowOf, Rows, Carry, HasFreeBound;
    var full, m := keys[s..], e - s;
    assert full[..m] == keys[s..e] && full == keys[s..|keys|] && full[m - 1] == keys[e - 1];
    SuffixIsScannable(p, keys, s, |keys|);
    LastRowIsLastKeys(p, d, full, m);
  }

  /** A batch that was folded completely: continuing from the fold's cursor loses and repeats
      nothing when the groups are clean. */
  lemma BatchAdvances(p: Bytes, d: Bytes, keys: seq<Bytes>, s: nat, e: nat, cursor: Bytes)
    requires Scannable(p, keys) && Clean(p, d, keys) && s < e <= |keys|
    requires var skip := SkipPoint(Rows(p, d, keys[s..e])); cursor == if skip.Some? then skip.value else keys[e - 1]
    ensures StartOf(keys, p, cursor) > s
    ensures Rows(p, d, keys[s..]) == Rows(p, d, keys[s..e]) + RowsFrom(p, d, keys, cursor)
  {
    hide Less, Carry, RowOf, Rows, Position, PositionFrom, EndsInGroup, Clean, Scannable;
    var rows := Rows(p, d, keys[s..e]);
    if SkipPoint(rows).None? {
      BatchAdvancesByKey(p, d, keys, s, e);
    } else {
      var g := rows[|rows| - 1].name;
      LastRowHasFreeBound(p, d, keys, s, e);
      CarryIsNonEmpty(g);
      BatchSkips(p, d, keys, s, e, g);
    }
  }

  lemma GroupNeedsDelimiter(p: Bytes, d: Bytes, k: Bytes)
    requires Listed(p, d, k) && RowOf(p, d, k).CommonPrefix?
    ensures d != []
  {
  }

  lemma CarryIsNonEmpty(g: Bytes)
    requires Carry(g).Some?
    ensures Carry(g).value != []
  {
  }

  lemma JoinAt(p: Bytes, d: Bytes, keys: seq<Bytes>, m: nat)
    requires m <= |keys| && !Straddles(p, d, keys[..m], keys[m..])
    ensures Rows(p, d, keys) == Rows(p, d, keys[..m]) + Rows(p, d, keys[m..])
  {
    hide Rows;
    assert keys[..m] + keys[m..] == keys;
    RowsSplit(p, d, keys[..m], keys[m..]);
  }

  /** Where a page leaves off: the rows to come are the rest, or the rest and the page's last row
      once more when a budget cut fell inside a group of several keys. */
  ghost predicate LeavesOff(p: Bytes, d: Bytes, keys: seq<Bytes>, rows: seq<Row>, all: seq<Row>, token: Bytes) {
    && |rows| <= |all| && rows == all[..|rows|]
    && (RowsFrom(p, d, keys, token) == all[|rows|..]
        || (rows != [] && rows[|rows| - 1].CommonPrefix? && RowsFrom(p, d, keys, token) == all[|rows| - 1..]))
  }

  lemma SharedRowIsGroup(p: Bytes, d: Bytes, a: Bytes, b: Bytes)
    requires Listed(p, d, a) && Listed(p, d, b) && RowOf(p, d, a) == RowOf(p, d, b) && a != b
    ensures RowOf(p, d, a).CommonPrefix?
  {
  }

  /** A batch cut short by the budget. */
  lemma BatchCut(p: Bytes, d: Bytes, keys: seq<Bytes>, s: nat, e: nat, rows: seq<Row>, at: nat)
    requires Scannable(p, keys) && s <= e <= |keys| && 0 < at <= e - s && OpensLast(p, d, keys[s..e], rows, at - 1)
    ensures StartOf(keys, p, keys[s + at - 1]) == s + at
    ensures LeavesOff(p, d, keys, rows, Rows(p, d, keys[s..]), keys[s + at - 1])
  {
    hide Less, RowOf, Rows, Position;
    var full := keys[s..];
    assert full == keys[s..|keys|] && full[..at] == keys[s..e][..at] && full[..at - 1] == keys[s..e][..at - 1];
    SuffixIsScannable(p, keys, s, |keys|);
    assert OpensLast(p, d, full, rows, at - 1);
    PositionOfKey(keys, s + at - 1);
    assert keys[s + at - 1] in keys;
    assert full[..at] + full[at..] == full && full[at..] == keys[s + at..];
    ResumeContinues(p, d, full[..at], full[at..]);
    CutRepeatsIff(p, d, full, rows, at);
    if Straddles(p, d, full[..at], full[at..]) {
      assert Less(full[at - 1], full[at]);
      LessIrreflexive(full[at]);
      SharedRowIsGroup(p, d, full[at - 1], full[at]);
    }
  }

  lemma PageExtends(p: Bytes, d: Bytes, keys: seq<Bytes>, before: seq<Row>, rows: seq<Row>, rest: seq<Row>,
                    token: Bytes)
    requires LeavesOff(p, d, keys, rows, rest, token)
    ensures LeavesOff(p, d, keys, before + rows, before + rest, token)
  {
    hide RowsFrom;
    var all, page := before + rest, before + rows;
    assert all[|page|..] == rest[|rows|..];
    if rows != [] {
      assert all[|page| - 1..] == rest[|rows| - 1..];
    }
  }

  lemma PastTheEnd(p: Bytes, d: Bytes, keys: seq<Bytes>, cursor: Bytes)
    requires StartOf(keys, p, cursor) == |keys|
    ensures RowsFrom(p, d, keys, cursor) == []
  {
    assert keys[|keys|..] == [];
  }

  /** What holds after each batch: the page so far and the rows still to come make up the whole. */
  ghost predicate Conserves(p: Bytes, d: Bytes, keys: seq<Bytes>, rows: seq<Row>, cursor: Bytes, all: seq<Row>) {
    rows + RowsFrom(p, d, keys, cursor) == all
  }

  lemma ConservedPage(p: Bytes, d: Bytes, keys: seq<Bytes>, rows: seq<Row>, cursor: Bytes, all: seq<Row>)
    requires Conserves(p, d, keys, rows, cursor, all)
    ensures LeavesOff(p, d, keys, rows, all, cursor)
  {
    hide RowsFrom;
  }

  ghost predicate AllOf(some: seq<Row>, all: seq<Row>) {
    forall row | row in some :: row in all
  }

  /** Whatever part of the keys is folded, its rows are rows of the whole. */
  lemma PartOfListing(p: Bytes, d: Bytes, keys: seq<Bytes>, s: nat, e: nat)
    requires Ascending(keys) && s <= e <= |keys|
    ensures AllOf(Rows(p, d, keys[s..e]), Rows(p, d, keys))
  {
    hide Less, Rows, RowOf, Listed;
    var part := keys[s..e];
    assert Ascending(part) by {
      forall a, b | 0 <= a < b < |part| ensures Less(part[a], part[b]) { assert Less(keys[s + a], keys[s + b]); }
    }
    RowsAreDistinctAndOrdered(p, d, part);
    RowsAreDistinctAndOrdered(p, d, keys);
    forall row | row in Rows(p, d, part) ensures row in Rows(p, d, keys) {
      var i :| 0 <= i < |part| && Listed(p, d, part[i]) && RowOf(p, d, part[i]) == row;
      assert keys[s + i] == part[i];
    }
  }

  lemma StillAllOf(before: seq<Row>, folded: seq<Row>, part: seq<Row>, all: seq<Row>, n: nat)
    requires AllOf(before, all) && AllOf(part, all) && n <= |part| && folded == part[..n]
    ensures AllOf(before + folded, all)
  {
  }

  // ---------------------------------------------------------------- what a page is

  /** How many keys it takes to show `n` rows. */
  function Opening(p: Bytes, d: Bytes, keys: seq<Bytes>, n: nat): (at: nat)
    requires 0 < n <= |Rows(p, d, keys)|
    ensures 0 < at <= |keys|
    decreases |keys|
  {
    var init := keys[..|keys| - 1];
    if n <= |Rows(p, d, init)| then Opening(p, d, init, n) else |keys|
  }

  lemma {:induction false} OpeningOpens(p: Bytes, d: Bytes, keys: seq<Bytes>, n: nat)
    requires 0 < n <= |Rows(p, d, keys)|
    ensures OpensLast(p, d, keys, Rows(p, d, keys)[..n], Opening(p, d, keys, n) - 1)
    decreases |keys|
  {
    var last := |keys| - 1;
    var init := keys[..last];
    if n <= |Rows(p, d, init)| {
      hide Rows;
      OpeningOpens(p, d, init, n);
      OpensInPrefix(p, d, keys, last, Rows(p, d, init)[..n], Opening(p, d, init, n) - 1);
      RowsPrefix(p, d, keys, last);
      assert Rows(p, d, keys)[..|Rows(p, d, init)|][..n] == Rows(p, d, keys)[..n];
    } else {
      LastKeyOpens(p, d, keys);
      hide Rows;
      assert Rows(p, d, keys)[..n] == Rows(p, d, keys);
    }
  }

  lemma OpensInPrefix(p: Bytes, d: Bytes, keys: seq<Bytes>, m: nat, rows: seq<Row>, at: nat)
    requires m <= |keys| && OpensLast(p, d, keys[..m], rows, at)
    ensures OpensLast(p, d, keys, rows, at)
  {
    hide Rows, RowOf;
    assert keys[..m][..at] == keys[..at] && keys[..m][..at + 1] == keys[..at + 1];
  }

  /** A key that adds a row opens it. */
  lemma LastKeyOpens(p: Bytes, d: Bytes, keys: seq<Bytes>)
    requires keys != [] && |Rows(p, d, keys[..|keys| - 1])| < |Rows(p, d, keys)|
    ensures |Rows(p, d, keys)| == |Rows(p, d, keys[..|keys| - 1])| + 1
    ensures OpensLast(p, d, keys, Rows(p, d, keys), |keys| - 1)
  {
    hide RowOf;
    assert keys[..|keys| - 1 + 1] == keys;
  }

  /** Only one key opens a row. */
  lemma {:induction false} OpeningIsUnique(p: Bytes, d: Bytes, keys: seq<Bytes>, n: nat, at: nat)
    requires 0 < n <= |Rows(p, d, keys)| && 0 < at <= |keys|
    requires OpensLast(p, d, keys, Rows(p, d, keys)[..n], at - 1)
    ensures Opening(p, d, keys, n) == at
    decreases |keys|
  {
    hide Rows;
    var last := |keys| - 1;
    var init := keys[..last];
    if at == |keys| {
      assert keys[..at] == keys;
    } else {
      assert init[..at] == keys[..at] && init[..at - 1] == keys[..at - 1];
      RowsPrefix(p, d, init, at);
      RowsPrefix(p, d, keys, last);
      OpeningIsUnique(p, d, init, n, at);
    }
  }

  datatype Batch = Batch(page: seq<Row>, next: Bytes, last: bool)

  /** One batch: `limit` keys after the cursor, folded into the room that is left. */
  ghost function BatchOf(keys: seq<Bytes>, p: Bytes, d: Bytes, cursor: Bytes, limit: nat, rows: seq<Row>): Batch
    requires |rows| < limit && StartOf(keys, p, cursor) < |keys|
  {
    var s := StartOf(keys, p, cursor);
    var entries := keys[s..Min(s + limit, |keys|)];
    var all, room := Rows(p, d, entries), limit - |rows|;
    if |all| > room then Batch(rows + all[..room], entries[Opening(p, d, entries, room) - 1], |entries| < limit)
    else
      Batch(rows + all, if SkipPoint(all).Some? then SkipPoint(all).value else entries[|entries| - 1],
            |entries| < limit)
  }

  /** The page that up to `n` more batches make of the rows so far. */
  ghost function PageOf(keys: seq<Bytes>, p: Bytes, d: Bytes, cursor: Bytes, limit: nat, rows: seq<Row>, n: nat): Page
    requires |rows| < limit
    decreases n
  {
    if n == 0 then Page(rows, Some(cursor))
    else if StartOf(keys, p, cursor) == |keys| then Page(rows, None)
    else
      var b := BatchOf(keys, p, d, cursor, limit, rows);
      if |b.page| >= limit then Page(b.page, Some(b.next))
      else if b.last then Page(b.page, None)
      else PageOf(keys, p, d, b.next, limit, b.page, n - 1)
  }

  /** The answer to one LIST. */
  ghost function Answer(keys: seq<Bytes>, p: Bytes, d: Bytes, startAfter: Bytes, limit: nat): Page
    requires limit > 0
  {
    PageOf(keys, p, d, startAfter, limit, [], MAX_BATCHES)
  }

  /** Scan, fold, and continue. */
  method ListBatch(keys: seq<Bytes>, p: Bytes, d: Bytes, cursor: Bytes, limit: nat, rows: seq<Row>)
    returns (page: seq<Row>, next: Bytes, last: bool)
    requires Scannable(p, keys) && |rows| < limit && StartOf(keys, p, cursor) < |keys|
    ensures Batch(page, next, last) == BatchOf(keys, p, d, cursor, limit, rows)
  {
    hide Less, RowOf, Rows, Position, PositionFrom, InScope, StartOf, OpensLast, UpperBoundOf;
    var s := StartOf(keys, p, cursor);
    var e := Min(s + limit, |keys|);
    var entries := keys[s..e];
    last := |entries| < limit;
    SuffixIsScannable(p, keys, s, e);
    var folded, resume, at := Fold(entries, p, d, limit - |rows|);
    page := rows + folded;
    next := if resume.Some? then resume.value else entries[|entries| - 1];
    if |Rows(p, d, entries)| > limit - |rows| {
      OpeningIsUnique(p, d, entries, limit - |rows|, at);
    }
  }

  /** The batch loop answers with `Answer`: always within the limit and only rows of the listing, and
      over clean groups the first rows in order. */
  method ListFlat(keys: seq<Bytes>, p: Bytes, d: Bytes, startAfter: Bytes, limit: nat)
    returns (rows: seq<Row>, token: Option<Bytes>)
    requires Scannable(p, keys) && limit > 0
    ensures Page(rows, token) == Answer(keys, p, d, startAfter, limit)
    ensures |rows| <= limit && AllOf(rows, Rows(p, d, keys))
    ensures Clean(p, d, keys) ==> PageFrom(p, d, keys, startAfter, Page(rows, token))
  {
    hide StartOf, Scannable, BatchOf, Clean, PageFrom, Rows;
    PageIsSound(keys, p, d, startAfter, limit, [], MAX_BATCHES);
    if Clean(p, d, keys) {
      CleanIsExact(keys, p, d, startAfter, limit);
    }
    var cursor := startAfter;
    rows, token := [], None;
    for batch := 0 to MAX_BATCHES
      invariant |rows| < limit && token == if batch == 0 then None else Some(cursor)
      invariant PageOf(keys, p, d, cursor, limit, rows, MAX_BATCHES - batch) == Answer(keys, p, d, startAfter, limit)
    {
      if StartOf(keys, p, cursor) == |keys| {
        return rows, None;
      }
      var page, next, last := ListBatch(keys, p, d, cursor, limit, rows);
      rows, cursor := page, next;
      if |rows| >= limit {
        return rows, Some(cursor);
      }
      if last {
        return rows, None;
      }
      token := Some(cursor);
    }
  }

  // ---------------------------------------------------------------- pages over clean groups

  lemma ConservesUnfolds(p: Bytes, d: Bytes, keys: seq<Bytes>, rows: seq<Row>, cursor: Bytes, all: seq<Row>)
    requires Conserves(p, d, keys, rows, cursor, all)
    ensures rows + Rows(p, d, keys[StartOf(keys, p, cursor)..]) == all
  {
  }

  lemma ConservesFolds(p: Bytes, d: Bytes, keys: seq<Bytes>, rows: seq<Row>, cursor: Bytes, all: seq<Row>)
    requires rows + RowsFrom(p, d, keys, cursor) == all
    ensures Conserves(p, d, keys, rows, cursor, all)
  {
  }

  lemma BatchConserves(keys: seq<Bytes>, p: Bytes, d: Bytes, cursor: Bytes, limit: nat, rows: seq<Row>, all: seq<Row>)
    requires Scannable(p, keys) && Clean(p, d, keys) && |rows| < limit && StartOf(keys, p, cursor) < |keys|
    requires Conserves(p, d, keys, rows, cursor, all)
    ensures var b := BatchOf(keys, p, d, cursor, limit, rows);
            && LeavesOff(p, d, keys, b.page, all, b.next)
            && (|b.page| < limit ==> Conserves(p, d, keys, b.page, b.next, all))
            && (|b.page| < limit && b.last ==> b.page == all)
            && StartOf(keys, p, b.next) > StartOf(keys, p, cursor)
  {
    hide Less, Carry, RowOf, Rows, Position, PositionFrom, Ascending, Clean, InScope, StartOf, OpensLast;
    hide UpperBoundOf, Conserves, LeavesOff, Opening;
    var s := StartOf(keys, p, cursor);
    var e := Min(s + limit, |keys|);
    var entries, rest := keys[s..e], Rows(p, d, keys[s..]);
    var b, room := BatchOf(keys, p, d, cursor, limit, rows), limit - |rows|;
    ConservesUnfolds(p, d, keys, rows, cursor, all);
    if |Rows(p, d, entries)| > room {
      var folded := Rows(p, d, entries)[..room];
      OpeningOpens(p, d, entries, room);
      BatchCut(p, d, keys, s, e, folded, Opening(p, d, entries, room));
      PageExtends(p, d, keys, rows, folded, rest, b.next);
    } else {
      BatchAdvances(p, d, keys, s, e, b.next);
      assert b.page + RowsFrom(p, d, keys, b.next) == rows + rest;
      ConservesFolds(p, d, keys, b.page, b.next, all);
      ConservedPage(p, d, keys, b.page, b.next, all);
      if b.last {
        assert keys[s..] == entries;
      }
    }
  }

  /** What one LIST promises: a last page is all that is left, any other leaves off further on. */
  ghost predicate PageFrom(p: Bytes, d: Bytes, keys: seq<Bytes>, startAfter: Bytes, page: Page) {
    if page.token.None? then page.rows == RowsFrom(p, d, keys, startAfter)
    else
      && LeavesOff(p, d, keys, page.rows, RowsFrom(p, d, keys, startAfter), page.token.value)
      && StartOf(keys, p, page.token.value) > StartOf(keys, p, startAfter)
  }

  lemma {:induction false} PageConserves(keys: seq<Bytes>, p: Bytes, d: Bytes, cursor: Bytes, limit: nat,
                                         rows: seq<Row>, n: nat, all: seq<Row>)
    requires Scannable(p, keys) && Clean(p, d, keys) && |rows| < limit && Conserves(p, d, keys, rows, cursor, all)
    ensures var page := PageOf(keys, p, d, cursor, limit, rows, n);
            if page.token.None? then page.rows == all
            else
              && LeavesOff(p, d, keys, page.rows, all, page.token.value)
              && StartOf(keys, p, page.token.value) >= StartOf(keys, p, cursor) + if n == 0 then 0 else 1
    decreases n
  {
    hide Scannable, Clean, Conserves, LeavesOff, StartOf, BatchOf, RowsFrom;
    if n == 0 {
      ConservedPage(p, d, keys, rows, cursor, all);
    } else if StartOf(keys, p, cursor) == |keys| {
      PastTheEnd(p, d, keys, cursor);
      NothingLeft(p, d, keys, rows, cursor, all);
    } else {
      var b := BatchOf(keys, p, d, cursor, limit, rows);
      BatchConserves(keys, p, d, cursor, limit, rows, all);
      if |b.page| < limit && !b.last {
        PageConserves(keys, p, d, b.next, limit, b.page, n - 1, all);
      }
    }
  }

  /** Over clean groups a LIST is the first rows in order, complete when there is no token, and a
      token is always further on. */
  lemma CleanIsExact(keys: seq<Bytes>, p: Bytes, d: Bytes, startAfter: Bytes, limit: nat)
    requires Scannable(p, keys) && Clean(p, d, keys) && limit > 0
    ensures PageFrom(p, d, keys, startAfter, Answer(keys, p, d, startAfter, limit))
  {
    hide Scannable, Clean, Conserves, LeavesOff, StartOf, PageOf, RowsFrom;
    var all := RowsFrom(p, d, keys, startAfter);
    assert [] + all == all;
    ConservesFolds(p, d, keys, [], startAfter, all);
    PageConserves(keys, p, d, startAfter, limit, [], MAX_BATCHES, all);
  }

  /** Whatever the groups, a LIST stays within its limit and shows only rows of the listing. */
  lemma {:induction false} PageIsSound(keys: seq<Bytes>, p: Bytes, d: Bytes, cursor: Bytes, limit: nat,
                                       rows: seq<Row>, n: nat)
    requires Scannable(p, keys) && |rows| < limit && AllOf(rows, Rows(p, d, keys))
    ensures var page := PageOf(keys, p, d, cursor, limit, rows, n);
            |page.rows| <= limit && AllOf(page.rows, Rows(p, d, keys))
    decreases n
  {
    hide StartOf, Rows, AllOf, Opening, UpperBoundOf, InScope;
    if n > 0 && StartOf(keys, p, cursor) < |keys| {
      var s := StartOf(keys, p, cursor);
      var e := Min(s + limit, |keys|);
      var all, b := Rows(p, d, keys[s..e]), BatchOf(keys, p, d, cursor, limit, rows);
      PartOfListing(p, d, keys, s, e);
      StillAllOf(rows, all[..Min(|all|, limit - |rows|)], all, Rows(p, d, keys), Min(|all|, limit - |rows|));
      assert all[..|all|] == all;
      if |b.page| < limit && !b.last {
        PageIsSound(keys, p, d, b.next, limit, b.page, n - 1);
      }
    }
  }

  lemma NothingLeft(p: Bytes, d: Bytes, keys: seq<Bytes>, rows: seq<Row>, cursor: Bytes, all: seq<Row>)
    requires RowsFrom(p, d, keys, cursor) == []
    ensures Conserves(p, d, keys, rows, cursor, all) ==> rows == all
  {
  }

  // ---------------------------------------------------------------- pages over other groups

  /** A delimiter whose last byte can be raised, as that of every text can. */
  predicate Raisable(d: Bytes) {
    d == [] || d[|d| - 1] < 255
  }

  /** A row that is a key comes from that key alone. */
  lemma PlainRowHasKey(p: Bytes, d: Bytes, keys: seq<Bytes>, s: nat, e: nat, i: nat)
    requires Ascending(keys) && s <= e <= |keys| && i < |keys| && Key(keys[i]) in Rows(p, d, keys[s..e])
    ensures s <= i < e
  {
    hide Less, Rows;
    var part := keys[s..e];
    RowsAreDistinctAndOrdered(p, d, part);
    var j :| 0 <= j < |part| && Listed(p, d, part[j]) && RowOf(p, d, part[j]) == Key(keys[i]);
    assert part[j] == keys[s + j] == keys[i];
    KeysAreDistinct(keys, s + j, i);
  }

  lemma KeysAreDistinct(keys: seq<Bytes>, i: nat, j: nat)
    requires Ascending(keys) && i < |keys| && j < |keys| && keys[i] == keys[j]
    ensures i == j
  {
    hide Less;
    LessIrreflexive(keys[i]);
  }

  lemma KeyStartsAfter(p: Bytes, keys: seq<Bytes>, i: nat)
    requires Scannable(p, keys) && i < |keys|
    ensures StartOf(keys, p, keys[i]) == i + 1
  {
    hide Position, PositionFrom, Less;
    PositionOfKey(keys, i);
    assert keys[i] in keys;
  }

  /** The bound past a group lies after every key of the group. */
  lemma BoundStartsAfter(p: Bytes, d: Bytes, keys: seq<Bytes>, i: nat, g: Bytes)
    requires Scannable(p, keys) && d != [] && Raisable(d) && i < |keys|
    requires Listed(p, d, keys[i]) && RowOf(p, d, keys[i]) == CommonPrefix(g)
    ensures Carry(g).Some? && StartOf(keys, p, UpperBoundOf(g)) > i
  {
    hide Position, PositionFrom, Less, RowOf, Carry;
    BoundIsPlainKey(p, d, keys[i], g);
    KeyIsBelowBound(p, d, keys[i], g);
    CarryIsNonEmpty(g);
    NotAboveIsBefore(keys, Carry(g).value, i);
  }

  /** Every batch moves the scan on. */
  lemma BatchMovesOn(keys: seq<Bytes>, p: Bytes, d: Bytes, cursor: Bytes, limit: nat, rows: seq<Row>)
    requires Scannable(p, keys) && Raisable(d) && |rows| < limit && StartOf(keys, p, cursor) < |keys|
    ensures StartOf(keys, p, BatchOf(keys, p, d, cursor, limit, rows).next) > StartOf(keys, p, cursor)
  {
    hide Less, Carry, RowOf, Rows, StartOf, Opening, UpperBoundOf, Scannable, Raisable;
    var s := StartOf(keys, p, cursor);
    var e := Min(s + limit, |keys|);
    var all, room := Rows(p, d, keys[s..e]), limit - |rows|;
    if |all| > room {
      KeyStartsAfter(p, keys, s + Opening(p, d, keys[s..e], room) - 1);
    } else if SkipPoint(all).None? {
      KeyStartsAfter(p, keys, e - 1);
    } else {
      LastRowIsGroup(p, d, keys, s, e);
      BoundStartsAfter(p, d, keys, e - 1, all[|all| - 1].name);
    }
  }

  /** A batch that leaves room on the page has been read to its end. */
  lemma BatchIsReadOut(keys: seq<Bytes>, p: Bytes, d: Bytes, cursor: Bytes, limit: nat, rows: seq<Row>)
    requires Scannable(p, keys) && Raisable(d) && |rows| < limit && StartOf(keys, p, cursor) < |keys|
    ensures var b := BatchOf(keys, p, d, cursor, limit, rows);
            && |b.page| <= limit
            && (|b.page| < limit && !b.last ==> StartOf(keys, p, b.next) >= StartOf(keys, p, cursor) + limit)
  {
    hide Less, Carry, RowOf, Rows, StartOf, Opening, UpperBoundOf, Scannable, Raisable;
    var s := StartOf(keys, p, cursor);
    var e := Min(s + limit, |keys|);
    var all := Rows(p, d, keys[s..e]);
    if |all| < limit - |rows| {
      if SkipPoint(all).None? {
        KeyStartsAfter(p, keys, e - 1);
      } else {
        LastRowIsGroup(p, d, keys, s, e);
        BoundStartsAfter(p, d, keys, e - 1, all[|all| - 1].name);
      }
    }
  }

  lemma {:induction false} PageReads(keys: seq<Bytes>, p: Bytes, d: Bytes, cursor: Bytes, limit: nat, rows: seq<Row>,
                                     n: nat)
    requires Scannable(p, keys) && Raisable(d) && |rows| < limit
    ensures var page := PageOf(keys, p, d, cursor, limit, rows, n);
            && |page.rows| <= limit
            && (page.token.Some? && |page.rows| < limit ==>
                  StartOf(keys, p, page.token.value) >= StartOf(keys, p, cursor) + n * limit)
    decreases n
  {
    hide StartOf, BatchOf, Scannable, Raisable;
    if n > 0 && StartOf(keys, p, cursor) < |keys| {
      var b := BatchOf(keys, p, d, cursor, limit, rows);
      BatchIsReadOut(keys, p, d, cursor, limit, rows);
      if |b.page| < limit && !b.last {
        PageReads(keys, p, d, b.next, limit, b.page, n - 1);
        assert n * limit == (n - 1) * limit + limit;
      }
    }
  }

  /** A page that promises more is full, or sixteen batches of `limit` keys went into it. */
  lemma PageIsFull(keys: seq<Bytes>, p: Bytes, d: Bytes, startAfter: Bytes, limit: nat)
    requires Scannable(p, keys) && Raisable(d) && limit > 0
    ensures var page := Answer(keys, p, d, startAfter, limit);
            page.token.Some? ==>
              || |page.rows| == limit
              || StartOf(keys, p, page.token.value) >= StartOf(keys, p, startAfter) + 16 * limit
  {
    hide StartOf, PageOf, Scannable, Raisable;
    PageReads(keys, p, d, startAfter, limit, [], MAX_BATCHES);
  }

  /** The last row of a batch is the row of its last key. */
  lemma LastRowIsGroup(p: Bytes, d: Bytes, keys: seq<Bytes>, s: nat, e: nat)
    requires Scannable(p, keys) && s < e <= |keys| && SkipPoint(Rows(p, d, keys[s..e])).Some?
    ensures var all := Rows(p, d, keys[s..e]);
            && d != [] && Listed(p, d, keys[e - 1]) && RowOf(p, d, keys[e - 1]) == all[|all| - 1]
            && RowOf(p, d, keys[e - 1]) == CommonPrefix(all[|all| - 1].name)
  {
    hide Less, Rows, RowOf, UpperBoundOf, Scannable;
    var part := keys[s..e];
    assert part[..|part|] == part && part[|part| - 1] == keys[e - 1];
    SuffixIsScannable(p, keys, s, e);
    LastRowIsLastKeys(p, d, part, |part|);
    GroupNeedsDelimiter(p, d, keys[e - 1]);
  }

  /** Once the scan is past a key, no later batch or page shows it. */
  lemma {:induction false} StaysPast(keys: seq<Bytes>, p: Bytes, d: Bytes, cursor: Bytes, limit: nat, rows: seq<Row>,
                                     n: nat, i: nat)
    requires Scannable(p, keys) && Raisable(d) && |rows| < limit && i < |keys|
    requires i < StartOf(keys, p, cursor) && Key(keys[i]) !in rows
    ensures var page := PageOf(keys, p, d, cursor, limit, rows, n);
            && Key(keys[i]) !in page.rows
            && (page.token.Some? ==> i < StartOf(keys, p, page.token.value))
    decreases n
  {
    hide Less, Rows, StartOf, Opening, UpperBoundOf, InScope, Raisable;
    if n > 0 && StartOf(keys, p, cursor) < |keys| {
      var s := StartOf(keys, p, cursor);
      var e := Min(s + limit, |keys|);
      var all, b := Rows(p, d, keys[s..e]), BatchOf(keys, p, d, cursor, limit, rows);
      assert Key(keys[i]) !in all by { if Key(keys[i]) in all { PlainRowHasKey(p, d, keys, s, e, i); } }
      assert Key(keys[i]) !in b.page;
      BatchMovesOn(keys, p, d, cursor, limit, rows);
      if |b.page| < limit && !b.last {
        StaysPast(keys, p, d, b.next, limit, b.page, n - 1, i);
      }
    }
  }

  lemma {:induction false} RowsAreFew(p: Bytes, d: Bytes, keys: seq<Bytes>)
    ensures |Rows(p, d, keys)| <= |keys|
    decreases |keys|
  {
    if keys != [] {
      RowsAreFew(p, d, keys[..|keys| - 1]);
    }
  }

  /** The limit at which a listing from the start ends its first batch with key `i`. */
  ghost function LimitTo(keys: seq<Bytes>, p: Bytes, i: nat): nat
    requires PositionFrom(keys, p) <= i < |keys|
  {
    i + 1 - PositionFrom(keys, p)
  }

  /** The page leaves the row out, and so does everything after its token. */
  ghost predicate Loses(p: Bytes, d: Bytes, keys: seq<Bytes>, page: Page, row: Row) {
    row !in page.rows && (page.token.Some? ==> row !in RowsFrom(p, d, keys, page.token.value))
  }

  lemma GroupIsInRange(p: Bytes, d: Bytes, keys: seq<Bytes>, i: nat)
    requires Scannable(p, keys) && d != [] && i < |keys| && Listed(p, d, keys[i])
    ensures PositionFrom(keys, p) <= i
  {
    hide Less, PositionFrom;
    PositionFromSplits(keys, p);
    PrefixAtMost(p, keys[i]);
    if Less(keys[i], p) {
      AtMostThenLess(p, keys[i], p);
      LessIrreflexive(p);
    }
  }

  /** The first batch of such a listing: it ends in the group and goes on after the bound. */
  lemma FirstBatch(p: Bytes, d: Bytes, keys: seq<Bytes>, i: nat, g: Bytes)
    requires Scannable(p, keys) && d != [] && Raisable(d) && i < |keys|
    requires Listed(p, d, keys[i]) && RowOf(p, d, keys[i]) == CommonPrefix(g) && PositionFrom(keys, p) <= i
    ensures var s := PositionFrom(keys, p);
            BatchOf(keys, p, d, [], LimitTo(keys, p, i), [])
            == Batch(Rows(p, d, keys[s..i + 1]), UpperBoundOf(g), false)
  {
    hide RowOf, Rows, PositionFrom, Opening, SkipPoint, Scannable, Raisable, Listed;
    var s := PositionFrom(keys, p);
    var part := keys[s..i + 1];
    RowsAreFew(p, d, part);
    SuffixIsScannable(p, keys, s, i + 1);
    SkipsPastGroup(p, d, part, g);
    assert [] + Rows(p, d, part) == Rows(p, d, part);
  }

  lemma SkipsPastGroup(p: Bytes, d: Bytes, part: seq<Bytes>, g: Bytes)
    requires Scannable(p, part) && part != [] && Listed(p, d, part[|part| - 1])
    requires RowOf(p, d, part[|part| - 1]) == CommonPrefix(g)
    ensures SkipPoint(Rows(p, d, part)) == Some(UpperBoundOf(g))
  {
    hide RowOf, Rows, UpperBoundOf, Listed, InScope, Less;
    assert part[..|part|] == part;
    ListedShows(p, d, part, |part| - 1);
    LastRowIsLastKeys(p, d, part, |part|);
  }

  lemma ListedShows(p: Bytes, d: Bytes, keys: seq<Bytes>, i: nat)
    requires Ascending(keys) && i < |keys| && Listed(p, d, keys[i])
    ensures RowOf(p, d, keys[i]) in Rows(p, d, keys)
  {
    hide Less, RowOf, Rows, Listed;
    RowsAreDistinctAndOrdered(p, d, keys);
  }

  /** A key that is the bound of a group is lost at some limit, with everything after it intact. */
  lemma TakenBoundIsLost(p: Bytes, d: Bytes, keys: seq<Bytes>, i: nat, g: Bytes, u: nat)
    requires Scannable(p, keys) && d != [] && Raisable(d) && i < |keys|
    requires Listed(p, d, keys[i]) && RowOf(p, d, keys[i]) == CommonPrefix(g)
    requires u < |keys| && Carry(g) == Some(keys[u])
    ensures PositionFrom(keys, p) <= i && Key(keys[u]) in RowsFrom(p, d, keys, [])
    ensures Loses(p, d, keys, Answer(keys, p, d, [], LimitTo(keys, p, i)), Key(keys[u]))
  {
    hide Less, RowOf, Rows, PositionFrom, StartOf, Opening, Scannable, Carry, Raisable, BatchOf;
    var s := PositionFrom(keys, p);
    GroupIsInRange(p, d, keys, i);
    BoundIsPlainKey(p, d, keys[i], g) by { RaisableEnds(d); }
    BoundStartsAfter(p, d, keys, i, g);
    KeyStartsAfter(p, keys, u);
    assert StartOf(keys, p, []) == s by { StartIsPrefix(keys, p); }
    ShownFrom(p, d, keys, s, u);
    var limit := LimitTo(keys, p, i);
    FirstBatch(p, d, keys, i, g);
    var b := BatchOf(keys, p, d, [], limit, []);
    if Key(keys[u]) in b.page {
      PlainRowHasKey(p, d, keys, s, i + 1, u) by { ScannableAscends(p, keys); }
    }
    if |b.page| < limit {
      StaysPast(keys, p, d, b.next, limit, b.page, MAX_BATCHES - 1, u);
    }
    PastIsLost(p, d, keys, Answer(keys, p, d, [], limit), u);
  }

  lemma RaisableEnds(d: Bytes)
    requires Raisable(d) && d != []
    ensures d[|d| - 1] < 255
  {
  }

  lemma StartIsPrefix(keys: seq<Bytes>, p: Bytes)
    ensures StartOf(keys, p, []) == PositionFrom(keys, p)
  {
  }

  lemma ShownFrom(p: Bytes, d: Bytes, keys: seq<Bytes>, s: nat, u: nat)
    requires Scannable(p, keys) && s <= u < |keys| && Listed(p, d, keys[u])
    ensures RowOf(p, d, keys[u]) in Rows(p, d, keys[s..])
  {
    hide Less, RowOf, Rows, Listed, InScope;
    SuffixIsScannable(p, keys, s, |keys|);
    assert keys[s..|keys|] == keys[s..] && keys[s..][u - s] == keys[u];
    ListedShows(p, d, keys[s..], u - s);
  }

  lemma PastIsLost(p: Bytes, d: Bytes, keys: seq<Bytes>, page: Page, u: nat)
    requires Scannable(p, keys) && u < |keys| && Key(keys[u]) !in page.rows
    requires page.token.Some? ==> u < StartOf(keys, p, page.token.value)
    ensures Loses(p, d, keys, page, Key(keys[u]))
  {
    hide Less, Rows, StartOf, InScope;
    if page.token.Some? {
      var s := StartOf(keys, p, page.token.value);
      assert keys[s..] == keys[s..|keys|];
      if Key(keys[u]) in RowsFrom(p, d, keys, page.token.value) {
        PlainRowHasKey(p, d, keys, s, |keys|, u);
      }
    }
  }

  /** Under a delimiter that can be raised every LIST from anywhere at any limit is as promised if and
      only if no group's bound is itself a key. */
  lemma ListIsExactIffClean(p: Bytes, d: Bytes, keys: seq<Bytes>)
    requires Scannable(p, keys) && Raisable(d)
    ensures Clean(p, d, keys) <==>
            forall startAfter, limit: nat | limit > 0 ::
              PageFrom(p, d, keys, startAfter, Answer(keys, p, d, startAfter, limit))
  {
    hide Scannable, PageFrom, Answer, RowOf, Carry, Raisable;
    if Clean(p, d, keys) {
      forall startAfter, limit: nat | limit > 0
        ensures PageFrom(p, d, keys, startAfter, Answer(keys, p, d, startAfter, limit))
      {
        CleanIsExact(keys, p, d, startAfter, limit);
      }
    } else {
      var i :| 0 <= i < |keys| && Listed(p, d, keys[i]) && RowOf(p, d, keys[i]).CommonPrefix?
               && !HasFreeBound(keys, RowOf(p, d, keys[i]).name);
      var g := RowOf(p, d, keys[i]).name;
      GroupNeedsDelimiter(p, d, keys[i]);
      BoundStartsAfter(p, d, keys, i, g);
      var u :| 0 <= u < |keys| && keys[u] == Carry(g).value;
      TakenBoundIsLost(p, d, keys, i, g, u);
      LossIsNoPage(p, d, keys, [], Answer(keys, p, d, [], LimitTo(keys, p, i)), Key(keys[u]));
    }
  }

  lemma LossIsNoPage(p: Bytes, d: Bytes, keys: seq<Bytes>, startAfter: Bytes, page: Page, row: Row)
    requires row in RowsFrom(p, d, keys, startAfter) && Loses(p, d, keys, page, row)
    ensures !PageFrom(p, d, keys, startAfter, page)
  {
    hide RowsFrom, StartOf;
    var all, n := RowsFrom(p, d, keys, startAfter), |page.rows|;
    if n <= |all| {
      assert all == all[..n] + all[n..];
      if n > 0 {
        assert all[n - 1..] == [all[n - 1]] + all[n..];
      }
    }
  }

  // ---------------------------------------------------------------- a whole listing

  /** A client that drops a repeated first row puts the whole listing together from its pages. */
  lemma PagesMakeUpListing(p: Bytes, d: Bytes, keys: seq<Bytes>, rows: seq<Row>, startAfter: Bytes, token: Bytes)
    requires Scannable(p, keys) && LeavesOff(p, d, keys, rows, RowsFrom(p, d, keys, startAfter), token)
    ensures Joined(rows, RowsFrom(p, d, keys, token)) == RowsFrom(p, d, keys, startAfter)
  {
    hide Less, Rows, StartOf, InScope;
    var s, all, rest := StartOf(keys, p, startAfter), RowsFrom(p, d, keys, startAfter), RowsFrom(p, d, keys, token);
    RowsAreDistinctAndOrdered(p, d, keys[s..]);
    if rest == all[|rows|..] && rows != [] && rest != [] {
      assert Less(Names(all)[|rows| - 1], Names(all)[|rows|]);
      LessIrreflexive(all[|rows|].name);
    }
  }

  /** A client's walk: each LIST starts after the token of the one before, until none is given. */
  ghost predicate Walk(p: Bytes, d: Bytes, keys: seq<Bytes>, startAfter: Bytes, pages: seq<Page>)
    decreases |pages|
  {
    && pages != [] && PageFrom(p, d, keys, startAfter, pages[0])
    && (pages[0].token.None? <==> |pages| == 1)
    && (pages[0].token.Some? ==> Walk(p, d, keys, pages[0].token.value, pages[1..]))
  }

  /** The client keeps every row and drops a first row it has just seen. */
  function Gathered(pages: seq<Page>): seq<Row> {
    if pages == [] then [] else Joined(pages[0].rows, Gathered(pages[1..]))
  }

  /** Every walk ends with the whole listing, each row once and in order, in at most one page per
      key and one more. */
  lemma {:induction false} WalkIsListing(p: Bytes, d: Bytes, keys: seq<Bytes>, startAfter: Bytes, pages: seq<Page>)
    requires Scannable(p, keys) && Walk(p, d, keys, startAfter, pages)
    ensures Gathered(pages) == RowsFrom(p, d, keys, startAfter)
    ensures |pages| <= |keys| - StartOf(keys, p, startAfter) + 1
    decreases |pages|
  {
    hide RowsFrom, StartOf, LeavesOff, Scannable;
    var token := pages[0].token;
    if token.Some? {
      WalkIsListing(p, d, keys, token.value, pages[1..]);
      PagesMakeUpListing(p, d, keys, pages[0].rows, startAfter, token.value);
    } else {
      assert pages[1..] == [];
      JoinedNone(pages[0].rows);
    }
  }
}
