/** S3 listing: folding keys into rows, the resume key of a page, and the batch loop
    (crates/epoch-gateway/src/list.rs, crates/epoch-gateway/src/http.rs). */
module Listing {
  import opened Bytes

  // ---------------------------------------------------------------- rows

  datatype Row = Key(name: Bytes) | CommonPrefix(name: Bytes)

  /** Position of the first occurrence; an empty needle is never found. */
  function Find(haystack: Bytes, needle: Bytes): (r: Option<nat>)
    ensures r.Some? ==> r.value + |needle| <= |haystack|
  {
    if needle == [] || |needle| > |haystack| then None
    else if haystack[..|needle|] == needle then Some(0)
    else
      var rest := Find(haystack[1..], needle);
      if rest.None? then None else Some(rest.value + 1)
  }

  predicate MatchesAt(h: Bytes, n: Bytes, at: nat) {
    at + |n| <= |h| && h[at..at + |n|] == n
  }

  lemma {:induction false} FindIsFirst(h: Bytes, n: Bytes)
    requires n != []
    ensures Find(h, n).Some? ==> MatchesAt(h, n, Find(h, n).value)
    ensures forall j: nat | Find(h, n).None? || j < Find(h, n).value :: !MatchesAt(h, n, j)
    decreases |h|
  {
    if |n| <= |h| && h[..|n|] != n {
      hide MatchesAt;
      FindIsFirst(h[1..], n);
      forall j: nat ensures MatchesAt(h[1..], n, j) <==> MatchesAt(h, n, j + 1) {}
      assert !MatchesAt(h, n, 0) by { NoMatchAtStart(h, n); }
      forall j: nat | Find(h, n).None? || j < Find(h, n).value ensures !MatchesAt(h, n, j) {
        assert j > 0 ==> !MatchesAt(h[1..], n, j - 1);
      }
    }
  }

  lemma NoMatchAtStart(h: Bytes, n: Bytes)
    requires |n| <= |h| && h[..|n|] != n
    ensures !MatchesAt(h, n, 0)
  {
    assert h[0..|n|] == h[..|n|];
  }

  /** A first occurrence is settled by the bytes up to its end. */
  lemma {:induction false} FindSeesOnlyItsEnd(a: Bytes, b: Bytes, n: Bytes)
    requires Find(a, n).Some? && IsPrefix(a[..Find(a, n).value + |n|], b)
    ensures Find(b, n) == Find(a, n)
    decreases |a|
  {
    var at := Find(a, n).value;
    if at == 0 {
      assert b[..|n|] == a[..|n|];
    } else {
      var head := a[..at + |n|];
      assert a[1..][..at - 1 + |n|] == head[1..];
      assert b[1..][..|head| - 1] == head[1..];
      FindSeesOnlyItsEnd(a[1..], b[1..], n);
      assert a[..|n|] == head[..|n|] == b[..|n|];
    }
  }

  /** The collapsed group of a key: up to and including the first delimiter after the prefix. */
  function GroupOf(prefix: Bytes, delimiter: Bytes, key: Bytes): Option<Bytes>
    requires IsPrefix(prefix, key)
  {
    var at := Find(key[|prefix|..], delimiter);
    if at.None? then None else Some(prefix + key[|prefix|..][..at.value + |delimiter|])
  }

  predicate Listed(prefix: Bytes, delimiter: Bytes, key: Bytes) {
    delimiter == [] || IsPrefix(prefix, key)
  }

  function RowOf(prefix: Bytes, delimiter: Bytes, key: Bytes): Row
    requires Listed(prefix, delimiter, key)
  {
    if delimiter == [] then Key(key)
    else
      var group := GroupOf(prefix, delimiter, key);
      if group.None? then Key(key) else CommonPrefix(group.value)
  }

  /** The first delimiter at or after position `from`. */
  ghost predicate FirstFrom(k: Bytes, d: Bytes, from: nat, at: nat) {
    from <= at && MatchesAt(k, d, at) && forall j: nat | from <= j < at :: !MatchesAt(k, d, j)
  }

  /** How S3 shows a key: up to the first delimiter after the prefix, the delimiter included, or as
      itself when none follows. */
  lemma RowIsUpToFirstDelimiter(p: Bytes, d: Bytes, k: Bytes, at: nat)
    requires IsPrefix(p, k) && d != []
    ensures at + |d| <= |k| ==> (RowOf(p, d, k) == CommonPrefix(k[..at + |d|]) <==> FirstFrom(k, d, |p|, at))
    ensures RowOf(p, d, k) == Key(k) <==> forall j: nat :: |p| <= j ==> !MatchesAt(k, d, j)
  {
    hide Find;
    var rest := k[|p|..];
    var found := Find(rest, d);
    FindIsFirst(rest, d);
    hide MatchesAt;
    forall j: nat | |p| <= j ensures MatchesAt(k, d, j) ==> found.Some? && |p| + found.value <= j {
      MatchShifts(k, d, |p|, j - |p|);
    }
    if found.Some? {
      MatchShifts(k, d, |p|, found.value);
      assert p + rest[..found.value + |d|] == k[..|p| + found.value + |d|];
      assert at + |d| <= |k| ==> (k[..at + |d|] == k[..|p| + found.value + |d|] <==> at == |p| + found.value);
    }
  }

  lemma MatchShifts(k: Bytes, d: Bytes, from: nat, j: nat)
    requires from <= |k|
    ensures MatchesAt(k[from..], d, j) <==> MatchesAt(k, d, from + j)
  {
    if from + j + |d| <= |k| {
      assert k[from..][j..j + |d|] == k[from + j..from + j + |d|];
    }
  }

  lemma GroupIsPrefix(p: Bytes, d: Bytes, k: Bytes)
    requires IsPrefix(p, k) && GroupOf(p, d, k).Some?
    ensures IsPrefix(GroupOf(p, d, k).value, k) && IsPrefix(p, GroupOf(p, d, k).value)
  {
  }

  /** Every key under a group folds into that group. */
  lemma GroupIsShared(p: Bytes, d: Bytes, k: Bytes, other: Bytes)
    requires IsPrefix(p, k) && GroupOf(p, d, k).Some? && IsPrefix(GroupOf(p, d, k).value, other)
    ensures IsPrefix(p, other) && GroupOf(p, d, other) == GroupOf(p, d, k)
  {
    hide Find;
    var g, a, b := GroupOf(p, d, k).value, k[|p|..], other[|p|..];
    var at := Find(a, d).value;
    assert other[..|p|] == g[..|p|] == p;
    var head := a[..at + |d|];
    assert g[|p|..] == head;
    assert b[..|head|] == other[..|g|][|p|..] == head;
    FindSeesOnlyItsEnd(a, b, d);
  }

  /** Keys in order give rows in order: equal, or by ascending name. */
  lemma RowsFollowKeys(p: Bytes, d: Bytes, a: Bytes, b: Bytes)
    requires Listed(p, d, a) && Listed(p, d, b) && Less(a, b)
    ensures RowOf(p, d, a) == RowOf(p, d, b) || Less(RowOf(p, d, a).name, RowOf(p, d, b).name)
  {
    hide Find, Less, GroupOf;
    if d != [] {
      var ra, rb := RowOf(p, d, a), RowOf(p, d, b);
      NameIsAtMost(p, d, a);
      NameIsAtMost(p, d, b);
      if rb.Key? {
        AtMostThenLess(ra.name, a, b);
      } else {
        LessTotal(ra.name, rb.name);
        if AtMost(rb.name, ra.name) {
          AtMostTransitive(rb.name, ra.name, a);
          GroupIsPrefix(p, d, b);
          PrefixBetween(rb.name, rb.name, a, b);
          GroupIsShared(p, d, b, a);
        }
      }
    }
  }

  lemma NameIsAtMost(p: Bytes, d: Bytes, k: Bytes)
    requires Listed(p, d, k)
    ensures AtMost(RowOf(p, d, k).name, k)
  {
    hide Find, GroupOf, Less;
    if RowOf(p, d, k).CommonPrefix? {
      GroupIsPrefix(p, d, k);
      PrefixAtMost(RowOf(p, d, k).name, k);
    }
  }

  lemma AtMostThenLess(a: Bytes, b: Bytes, c: Bytes)
    requires AtMost(a, b) && Less(b, c)
    ensures Less(a, c)
  {
    if a != b {
      LessTransitive(a, b, c);
    }
  }

  lemma AtMostTransitive(a: Bytes, b: Bytes, c: Bytes)
    requires AtMost(a, b) && AtMost(b, c)
    ensures AtMost(a, c)
  {
    if a != b && b != c {
      LessTransitive(a, b, c);
    }
  }

  // ---------------------------------------------------------------- the rows of a key sequence

  function Pushed(rows: seq<Row>, row: Row): seq<Row> {
    if rows != [] && rows[|rows| - 1] == row then rows else rows + [row]
  }

  /** Rows of the keys in order, a row repeated by neighbouring keys given once. */
  function Rows(prefix: Bytes, delimiter: Bytes, keys: seq<Bytes>): seq<Row> {
    if keys == [] then []
    else
      var last, before := keys[|keys| - 1], Rows(prefix, delimiter, keys[..|keys| - 1]);
      if Listed(prefix, delimiter, last) then Pushed(before, RowOf(prefix, delimiter, last)) else before
  }

  function Names(rows: seq<Row>): seq<Bytes> {
    seq(|rows|, i requires 0 <= i < |rows| => rows[i].name)
  }

  lemma PushKeepsOrder(rows: seq<Row>, row: Row)
    requires Ascending(Names(rows))
    requires rows == [] || rows[|rows| - 1] == row || Less(rows[|rows| - 1].name, row.name)
    ensures Ascending(Names(Pushed(rows, row)))
  {
    hide Less;
    if rows != [] && rows[|rows| - 1] != row {
      var n := |rows| - 1;
      forall i | 0 <= i < |rows| ensures Less(rows[i].name, row.name) {
        if i < n {
          assert Less(Names(rows)[i], Names(rows)[n]);
          LessTransitive(rows[i].name, rows[n].name, row.name);
        }
      }
      var after := Names(Pushed(rows, row));
      forall i, j | 0 <= i < j < |after| ensures Less(after[i], after[j]) {
        if j <= n {
          assert Less(Names(rows)[i], Names(rows)[j]);
        }
      }
    }
  }

  ghost predicate ShownBy(p: Bytes, d: Bytes, keys: seq<Bytes>, row: Row) {
    exists i :: 0 <= i < |keys| && Listed(p, d, keys[i]) && RowOf(p, d, keys[i]) == row
  }

  /** The rows are exactly the distinct rows of the listed keys, in strictly ascending order. */
  lemma {:induction false} RowsAreDistinctAndOrdered(p: Bytes, d: Bytes, keys: seq<Bytes>)
    requires Ascending(keys)
    ensures Ascending(Names(Rows(p, d, keys)))
    ensures forall row :: row in Rows(p, d, keys) <==> ShownBy(p, d, keys, row)
    decreases |keys|
  {
    hide Less, Listed, RowOf;
    if keys != [] {
      var n := |keys| - 1;
      var init, last := keys[..n], keys[n];
      RowsAreDistinctAndOrdered(p, d, init);
      forall row
        ensures ShownBy(p, d, keys, row) <==>
                ShownBy(p, d, init, row) || (Listed(p, d, last) && RowOf(p, d, last) == row)
      {}
      if Listed(p, d, last) {
        var before := Rows(p, d, init);
        if before != [] {
          assert before[|before| - 1] in before;
          var i :| 0 <= i < |init| && Listed(p, d, init[i]) && RowOf(p, d, init[i]) == before[|before| - 1];
          RowsFollowKeys(p, d, keys[i], last);
        }
        PushKeepsOrder(before, RowOf(p, d, last));
      }
    }
  }

  // ---------------------------------------------------------------- resuming

  function Joined(a: seq<Row>, b: seq<Row>): seq<Row> {
    if a != [] && b != [] && a[|a| - 1] == b[0] then a + b[1..] else a + b
  }

  lemma PushedJoins(a: seq<Row>, b: seq<Row>, row: Row)
    ensures Joined(a, Pushed(b, row)) == Pushed(Joined(a, b), row)
  {
    if b == [] {
      assert Pushed(b, row) == [row] && Joined(a, b) == a;
    } else {
      JoinedEndsWith(a, b);
      JoinedAppends(a, b, row);
      hide Joined;
    }
  }

  lemma JoinedAppends(a: seq<Row>, b: seq<Row>, row: Row)
    requires b != []
    ensures Joined(a, b + [row]) == Joined(a, b) + [row]
  {
    AppendToTail(a, b, row);
  }

  lemma JoinedEndsWith(a: seq<Row>, b: seq<Row>)
    requires b != []
    ensures Joined(a, b) != [] && Joined(a, b)[|Joined(a, b)| - 1] == b[|b| - 1]
  {
  }

  lemma AppendToTail(a: seq<Row>, b: seq<Row>, row: Row)
    requires b != []
    ensures a + (b + [row])[1..] == a + b[1..] + [row] && a + (b + [row]) == a + b + [row]
  {
  }

  lemma {:induction false} RowsSplit(p: Bytes, d: Bytes, a: seq<Bytes>, b: seq<Bytes>)
    ensures Rows(p, d, a + b) == Joined(Rows(p, d, a), Rows(p, d, b))
    decreases |b|
  {
    hide Listed, RowOf, Pushed, Joined;
    if b == [] {
      assert a + b == a;
      JoinedNone(Rows(p, d, a));
    } else {
      var init, last := b[..|b| - 1], b[|b| - 1];
      RowsSplit(p, d, a, init);
      assert (a + b)[..|a + b| - 1] == a + init && (a + b)[|a + b| - 1] == last;
      if Listed(p, d, last) {
        PushedJoins(Rows(p, d, a), Rows(p, d, init), RowOf(p, d, last));
      }
    }
  }

  lemma JoinedNone(a: seq<Row>)
    ensures Joined(a, []) == a
  {
  }

  /** The cut after `a` falls inside a row: its last row is also the first row of `b`. */
  predicate Straddles(p: Bytes, d: Bytes, a: seq<Bytes>, b: seq<Bytes>) {
    var x, y := Rows(p, d, a), Rows(p, d, b);
    x != [] && y != [] && x[|x| - 1] == y[0]
  }

  /** Resuming after a cut continues with the next row, or repeats the last one exactly when the
      cut falls inside it. */
  lemma ResumeContinues(p: Bytes, d: Bytes, a: seq<Bytes>, b: seq<Bytes>)
    ensures var all, n := Rows(p, d, a + b), |Rows(p, d, a)|;
            && n <= |all| && all[..n] == Rows(p, d, a)
            && (Rows(p, d, b) == all[n..] <==> !Straddles(p, d, a, b))
            && (Straddles(p, d, a, b) ==> Rows(p, d, b) == all[n - 1..])
  {
    hide Rows;
    RowsSplit(p, d, a, b);
  }

  // ---------------------------------------------------------------- the bound past a group

  /** The prefix with its last incrementable byte raised; an all-0xFF prefix has none. */
  function Carry(g: Bytes): Option<Bytes> {
    if g == [] then None
    else if g[|g| - 1] < 255 then Some(g[..|g| - 1] + [g[|g| - 1] + 1])
    else Carry(g[..|g| - 1])
  }

  function UpperBoundOf(g: Bytes): Bytes {
    if Carry(g).Some? then Carry(g).value else g
  }

  /** The loop of `upper_bound` and of `prefix_end`. */
  method UpperBound(group: Bytes) returns (bound: Bytes)
    ensures bound == UpperBoundOf(group)
  {
    var out := group;
    while out != []
      invariant Carry(out) == Carry(group)
    {
      var last := out[|out| - 1];
      out := out[..|out| - 1];
      if last < 255 {
        return out + [last + 1];
      }
    }
    bound := group;
  }

  lemma {:induction false} CarryFromFront(g: Bytes)
    requires g != []
    ensures Carry(g) == if Carry(g[1..]).Some? then Some([g[0]] + Carry(g[1..]).value)
                        else if g[0] < 255 then Some([g[0] + 1]) else None
    decreases |g|
  {
    var n := |g| - 1;
    if n == 0 {
      assert g[1..] == [] && g[..n] == [];
      if g[0] < 255 {
        assert Carry(g) == Some(g[..n] + [g[0] + 1]);
        assert g[..n] + [g[0] + 1] == [g[0] + 1];
      } else {
        assert Carry(g) == Carry(g[..n]) == None;
      }
    } else {
      var tail := g[1..];
      assert tail[..|tail| - 1] == g[..n][1..] && tail[|tail| - 1] == g[n];
      if g[n] < 255 {
        assert g[..n] + [g[n] + 1] == [g[0]] + (tail[..|tail| - 1] + [tail[|tail| - 1] + 1]);
        assert Carry(tail) == Some(tail[..|tail| - 1] + [tail[|tail| - 1] + 1]);
      } else {
        CarryFromFront(g[..n]);
        assert Carry(tail) == Carry(g[..n][1..]);
      }
    }
  }

  /** Exactly the keys below a group or inside it are below its bound. */
  lemma {:induction false} BoundIsTight(g: Bytes, k: Bytes)
    ensures if Carry(g).Some? then Less(k, Carry(g).value) <==> IsPrefix(g, k) || Less(k, g)
            else IsPrefix(g, k) || Less(k, g)
    decreases |g|
  {
    if g != [] {
      CarryFromFront(g);
      hide Carry;
      if k != [] {
        BoundIsTight(g[1..], k[1..]);
        if Carry(g[1..]).Some? {
          assert ([g[0]] + Carry(g[1..]).value)[1..] == Carry(g[1..]).value;
        }
      }
    }
  }

  // ---------------------------------------------------------------- folding one batch

  /** Where a fold that consumed its whole batch asks to continue. */
  function SkipPoint(rows: seq<Row>): Option<Bytes> {
    if rows == [] || rows[|rows| - 1].Key? then None else Some(UpperBoundOf(rows[|rows| - 1].name))
  }

  lemma RowsStep(p: Bytes, d: Bytes, keys: seq<Bytes>, i: nat)
    requires i < |keys|
    ensures Rows(p, d, keys[..i + 1]) ==
            if Listed(p, d, keys[i]) then Pushed(Rows(p, d, keys[..i]), RowOf(p, d, keys[i])) else Rows(p, d, keys[..i])
  {
    assert keys[..i + 1][..i] == keys[..i];
  }

  /** A group already emitted can only be the last row. */
  lemma SeenGroupIsLast(p: Bytes, d: Bytes, keys: seq<Bytes>, i: nat, row: Row)
    requires Ascending(keys) && i < |keys| && Listed(p, d, keys[i]) && RowOf(p, d, keys[i]) == row
    requires row in Rows(p, d, keys[..i])
    ensures var rows := Rows(p, d, keys[..i]); rows[|rows| - 1] == row
  {
    hide Less, Listed, RowOf, Rows;
    var init := keys[..i];
    var rows := Rows(p, d, init);
    RowsAreDistinctAndOrdered(p, d, init);
    var n := |rows| - 1;
    assert rows[n] in rows;
    var j :| 0 <= j < |init| && Listed(p, d, init[j]) && RowOf(p, d, init[j]) == rows[n];
    RowsFollowKeys(p, d, keys[j], keys[i]);
    if rows[n] != row {
      var m :| 0 <= m < |rows| && rows[m] == row;
      assert Less(Names(rows)[m], Names(rows)[n]);
      LessTransitive(row.name, rows[n].name, row.name);
      LessIrreflexive(row.name);
    }
  }

  lemma {:induction false} PlainRows(p: Bytes, keys: seq<Bytes>)
    requires Ascending(keys)
    ensures Rows(p, [], keys) == seq(|keys|, i requires 0 <= i < |keys| => Key(keys[i]))
    decreases |keys|
  {
    if keys != [] {
      var n := |keys| - 1;
      PlainRows(p, keys[..n]);
      if n > 0 {
        assert Less(keys[n - 1], keys[n]);
        LessIrreflexive(keys[n]);
      }
    }
  }

  /** `key` is the first key of the last of `rows`, found at `keys[at]`. */
  ghost predicate OpensLast(p: Bytes, d: Bytes, keys: seq<Bytes>, rows: seq<Row>, at: nat) {
    && at < |keys| && Listed(p, d, keys[at]) && rows == Rows(p, d, keys[..at + 1])
    && rows == Rows(p, d, keys[..at]) + [RowOf(p, d, keys[at])]
  }

  /** At most `limit` rows from the front. A cut-short fold resumes after the key that opened its
      last row; a complete one past its last group. `at` is the number of keys before the resume
      point. */
  method Fold(keys: seq<Bytes>, p: Bytes, d: Bytes, limit: nat)
    returns (rows: seq<Row>, resume: Option<Bytes>, ghost at: nat)
    requires Ascending(keys) && (limit > 0 || d != [] || keys == [])
    ensures rows == Rows(p, d, keys)[..Min(limit, |Rows(p, d, keys)|)]
    ensures |Rows(p, d, keys)| > limit > 0 ==>
              0 < at <= |keys| && OpensLast(p, d, keys, rows, at - 1) && resume == Some(keys[at - 1])
    ensures |Rows(p, d, keys)| > limit == 0 ==> resume == None
    ensures |Rows(p, d, keys)| <= limit ==> at == |keys| && resume == SkipPoint(rows)
  {
    hide Less, GroupOf, UpperBoundOf, Ascending, Rows;
    if d == [] {
      PlainRows(p, keys);
      rows := seq(Min(limit, |keys|), i requires 0 <= i < Min(limit, |keys|) => Key(keys[i]));
      resume := if |keys| > limit then Some(keys[limit - 1]) else None;
      at := Min(limit, |keys|);
      if |keys| > limit {
        PlainPrefix(p, keys, limit);
      }
    } else {
      rows, resume, at := FoldGroups(keys, p, d, limit);
    }
  }

  method FoldGroups(keys: seq<Bytes>, p: Bytes, d: Bytes, limit: nat)
    returns (rows: seq<Row>, resume: Option<Bytes>, ghost at: nat)
    requires Ascending(keys) && d != []
    ensures rows == Rows(p, d, keys)[..Min(limit, |Rows(p, d, keys)|)]
    ensures |Rows(p, d, keys)| > limit > 0 ==>
              0 < at <= |keys| && OpensLast(p, d, keys, rows, at - 1) && resume == Some(keys[at - 1])
    ensures |Rows(p, d, keys)| > limit == 0 ==> resume == None
    ensures |Rows(p, d, keys)| <= limit ==> at == |keys| && resume == SkipPoint(rows)
  {
    hide Less, GroupOf, UpperBoundOf, Ascending, Rows, RowOf, OpensLast, IsPrefix;
    rows := [];
    var lastGroup: Option<Bytes> := None;
    var lastConsumed: Option<Bytes> := None;
    at := 0;
    NoRows(p, d, keys);
    for i := 0 to |keys|
      invariant rows == Rows(p, d, keys[..i]) && |rows| <= limit
      invariant lastGroup.Some? ==> CommonPrefix(lastGroup.value) in rows
      invariant rows != [] && rows[|rows| - 1].CommonPrefix? ==> lastGroup == Some(rows[|rows| - 1].name)
      invariant rows == [] ==> lastConsumed == None
      invariant rows != [] ==>
          0 < at <= i && OpensLast(p, d, keys, rows, at - 1) && lastConsumed == Some(keys[at - 1])
    {
      RowsStep(p, d, keys, i);
      RowsPrefix(p, d, keys, i + 1);
      if IsPrefix(p, keys[i]) {
        var row := RowOf(p, d, keys[i]);
        if row.CommonPrefix? && lastGroup == Some(row.name) {
          SeenGroupIsLast(p, d, keys, i, row);
        } else {
          FreshRow(p, d, keys, i, rows, lastGroup);
          if |rows| == limit {
            return rows, lastConsumed, at;
          }
          rows := rows + [row];
          lastConsumed := Some(keys[i]);
          at := i + 1;
          assert OpensLast(p, d, keys, rows, i) by { OpensHere(p, d, keys, rows, i); }
          if row.CommonPrefix? {
            lastGroup := Some(row.name);
          }
        }
      }
    }
    assert keys[..|keys|] == keys;
    at := |keys|;
    resume := None;
    if rows != [] && rows[|rows| - 1].CommonPrefix? {
      var bound := UpperBound(rows[|rows| - 1].name);
      resume := Some(bound);
    }
  }

  lemma NoRows(p: Bytes, d: Bytes, keys: seq<Bytes>)
    ensures Rows(p, d, keys[..0]) == []
  {
  }

  lemma OpensHere(p: Bytes, d: Bytes, keys: seq<Bytes>, rows: seq<Row>, i: nat)
    requires i < |keys| && Listed(p, d, keys[i]) && rows == Rows(p, d, keys[..i + 1])
    requires rows == Rows(p, d, keys[..i]) + [RowOf(p, d, keys[i])]
    ensures OpensLast(p, d, keys, rows, i)
  {
  }

  lemma PlainPrefix(p: Bytes, keys: seq<Bytes>, n: nat)
    requires Ascending(keys) && 0 < n <= |keys|
    ensures OpensLast(p, [], keys, seq(n, i requires 0 <= i < n => Key(keys[i])), n - 1)
  {
    PlainRows(p, keys[..n]);
    PlainRows(p, keys[..n - 1]);
  }

  lemma RowsPrefix(p: Bytes, d: Bytes, keys: seq<Bytes>, i: nat)
    requires i <= |keys|
    ensures |Rows(p, d, keys[..i])| <= |Rows(p, d, keys)|
    ensures Rows(p, d, keys)[..|Rows(p, d, keys[..i])|] == Rows(p, d, keys[..i])
  {
    hide Rows;
    assert keys[..i] + keys[i..] == keys;
    ResumeContinues(p, d, keys[..i], keys[i..]);
  }

  lemma FreshRow(p: Bytes, d: Bytes, keys: seq<Bytes>, i: nat, rows: seq<Row>, lastGroup: Option<Bytes>)
    requires Ascending(keys) && i < |keys| && d != [] && IsPrefix(p, keys[i]) && rows == Rows(p, d, keys[..i])
    requires rows != [] && rows[|rows| - 1].CommonPrefix? ==> lastGroup == Some(rows[|rows| - 1].name)
    requires RowOf(p, d, keys[i]).Key? || lastGroup != Some(RowOf(p, d, keys[i]).name)
    ensures Pushed(rows, RowOf(p, d, keys[i])) == rows + [RowOf(p, d, keys[i])]
  {
    hide Less, GroupOf, Rows;
    var row := RowOf(p, d, keys[i]);
    if rows != [] && rows[|rows| - 1] == row {
      RowsAreDistinctAndOrdered(p, d, keys[..i]);
      assert row in rows;
      var j :| 0 <= j < i && Listed(p, d, keys[..i][j]) && RowOf(p, d, keys[..i][j]) == row;
      assert Less(keys[j], keys[i]);
      LessIrreflexive(keys[i]);
    }
  }

  // ---------------------------------------------------------------- the store scan

  /** First key strictly above `c`. */
  function Position(keys: seq<Bytes>, c: Bytes): (i: nat)
    ensures i <= |keys|
  {
    if keys == [] || Less(c, keys[0]) then 0 else 1 + Position(keys[1..], c)
  }

  /** First key at or above `c`. */
  function PositionFrom(keys: seq<Bytes>, c: Bytes): (i: nat)
    ensures i <= |keys|
  {
    if keys == [] || AtMost(c, keys[0]) then 0 else 1 + PositionFrom(keys[1..], c)
  }

  /** Where the scan starts: at the prefix, or strictly after a given key. */
  function StartOf(keys: seq<Bytes>, prefix: Bytes, startAfter: Bytes): (i: nat)
    ensures i <= |keys|
  {
    if startAfter == [] then PositionFrom(keys, prefix) else Position(keys, startAfter)
  }

  /** Rows still to come once the scan continues after `cursor`. */
  function RowsFrom(p: Bytes, d: Bytes, keys: seq<Bytes>, cursor: Bytes): seq<Row> {
    Rows(p, d, keys[StartOf(keys, p, cursor)..])
  }

  /** Below the end of the prefix's range: inside the prefix, or before it. */
  predicate InScope(prefix: Bytes, key: Bytes) {
    IsPrefix(prefix, key) || Less(key, prefix)
  }

  /** The bucket's keys that a scan of the prefix can reach. */
  ghost predicate Scannable(prefix: Bytes, keys: seq<Bytes>) {
    && Ascending(keys) && [] !in keys
    && forall i | 0 <= i < |keys| :: InScope(prefix, keys[i])
  }

  lemma {:induction false} PositionSplits(keys: seq<Bytes>, c: Bytes)
    requires Ascending(keys)
    ensures forall i | 0 <= i < |keys| :: Less(c, keys[i]) <==> Position(keys, c) <= i
    decreases |keys|
  {
    hide Less;
    if keys != [] {
      var rest := keys[1..];
      assert Ascending(rest);
      PositionSplits(rest, c);
      forall i | 0 <= i < |keys| ensures Less(c, keys[i]) <==> Position(keys, c) <= i {
        if i > 0 {
          assert rest[i - 1] == keys[i];
          if Less(c, keys[0]) {
            LessTransitive(c, keys[0], keys[i]);
          }
        }
      }
    }
  }

  lemma PositionOfKey(keys: seq<Bytes>, i: nat)
    requires Ascending(keys) && i < |keys|
    ensures Position(keys, keys[i]) == i + 1
  {
    hide Less, Position;
    PositionSplits(keys, keys[i]);
    LessIrreflexive(keys[i]);
    if i + 1 < |keys| {
      assert Less(keys[i], keys[i + 1]);
    }
  }

  // ---------------------------------------------------------------- resuming in key order

  lemma {:induction false} FirstRow(p: Bytes, d: Bytes, keys: seq<Bytes>)
    requires keys != [] && Listed(p, d, keys[0])
    ensures Rows(p, d, keys) != [] && Rows(p, d, keys)[0] == RowOf(p, d, keys[0])
    decreases |keys|
  {
    if |keys| > 1 {
      FirstRow(p, d, keys[..|keys| - 1]);
    }
  }

  lemma ListedIsUpward(p: Bytes, d: Bytes, keys: seq<Bytes>, i: nat, j: nat)
    requires Scannable(p, keys) && i < j < |keys| && Listed(p, d, keys[i])
    ensures Listed(p, d, keys[j])
  {
    hide Less;
    if d != [] {
      PrefixAtMost(p, keys[i]);
      AtMostThenLess(p, keys[i], keys[j]);
      if Less(keys[j], p) {
        LessTransitive(p, keys[j], p);
        LessIrreflexive(p);
      }
    }
  }

  lemma SuffixIsScannable(p: Bytes, keys: seq<Bytes>, i: nat, j: nat)
    requires Scannable(p, keys) && i <= j <= |keys|
    ensures Scannable(p, keys[i..j])
  {
    var part := keys[i..j];
    forall a, b | 0 <= a < b < |part| ensures Less(part[a], part[b]) {
      assert Less(keys[i + a], keys[i + b]);
    }
  }

  /** A page cut short repeats its last row on the next page exactly when that row is a group
      with a second key. */
  lemma CutRepeatsIff(p: Bytes, d: Bytes, keys: seq<Bytes>, rows: seq<Row>, at: nat)
    requires Scannable(p, keys) && 0 < at <= |keys| && OpensLast(p, d, keys, rows, at - 1)
    ensures Straddles(p, d, keys[..at], keys[at..]) <==>
      at < |keys| && Listed(p, d, keys[at]) && RowOf(p, d, keys[at]) == RowOf(p, d, keys[at - 1])
  {
    hide Less, RowOf, Scannable;
    if at < |keys| {
      ListedIsUpward(p, d, keys, at - 1, at);
      FirstRow(p, d, keys[at..]);
    }
  }

  /** A row that is a single key is never repeated. */
  lemma KeyNeverStraddles(p: Bytes, d: Bytes, keys: seq<Bytes>, m: nat)
    requires Ascending(keys) && m <= |keys|
    requires Rows(p, d, keys[..m]) == [] || Rows(p, d, keys[..m])[|Rows(p, d, keys[..m])| - 1].Key?
    ensures !Straddles(p, d, keys[..m], keys[m..])
  {
    hide Less, Rows, GroupOf;
    var a, b := keys[..m], keys[m..];
    if Straddles(p, d, a, b) {
      var row := Rows(p, d, b)[0];
      RowsAreDistinctAndOrdered(p, d, a);
      RowsAreDistinctAndOrdered(p, d, b);
      assert row in Rows(p, d, a) && row in Rows(p, d, b);
      var i :| 0 <= i < |a| && Listed(p, d, a[i]) && RowOf(p, d, a[i]) == row;
      var j :| 0 <= j < |b| && Listed(p, d, b[j]) && RowOf(p, d, b[j]) == row;
      assert Less(keys[i], keys[m + j]);
      LessIrreflexive(keys[i]);
    }
  }

  lemma {:induction false} SameRowIsAbsorbed(p: Bytes, d: Bytes, keys: seq<Bytes>, m: nat, q: nat, row: Row)
    requires m <= q <= |keys| && Rows(p, d, keys[..m]) != []
    requires Rows(p, d, keys[..m])[|Rows(p, d, keys[..m])| - 1] == row
    requires forall j | m <= j < q :: Listed(p, d, keys[j]) && RowOf(p, d, keys[j]) == row
    ensures Rows(p, d, keys[..q]) == Rows(p, d, keys[..m])
    decreases q
  {
    hide Listed, RowOf, Rows;
    if m < q {
      SameRowIsAbsorbed(p, d, keys, m, q - 1, row);
      RowsStep(p, d, keys, q - 1);
    }
  }

  ghost predicate EndsInGroup(p: Bytes, d: Bytes, keys: seq<Bytes>, m: nat, g: Bytes) {
    && 0 < m <= |keys| && Listed(p, d, keys[m - 1]) && RowOf(p, d, keys[m - 1]) == CommonPrefix(g)
  }

  lemma LastRowIsLastKeys(p: Bytes, d: Bytes, keys: seq<Bytes>, m: nat)
    requires Scannable(p, keys) && 0 < m <= |keys| && Rows(p, d, keys[..m]) != []
    ensures Listed(p, d, keys[m - 1])
    ensures Rows(p, d, keys[..m])[|Rows(p, d, keys[..m])| - 1] == RowOf(p, d, keys[m - 1])
  {
    hide Less, RowOf, Rows;
    var a := keys[..m];
    RowsAreDistinctAndOrdered(p, d, a);
    assert Rows(p, d, a)[0] in Rows(p, d, a);
    var i :| 0 <= i < |a| && Listed(p, d, a[i]) && RowOf(p, d, a[i]) == Rows(p, d, a)[0];
    if i < m - 1 {
      ListedIsUpward(p, d, keys, i, m - 1);
    }
    RowsStep(p, d, keys, m - 1);
  }

  /** Keys after a key of a group and below the group's bound are in the group; keys above are not. */
  lemma BoundSeparates(p: Bytes, d: Bytes, k: Bytes, other: Bytes, g: Bytes)
    requires d != [] && Listed(p, d, k) && RowOf(p, d, k) == CommonPrefix(g) && Carry(g).Some? && Less(k, other)
    ensures Less(other, Carry(g).value) <==> Listed(p, d, other) && RowOf(p, d, other) == CommonPrefix(g)
  {
    hide Less, Carry, Find;
    BoundIsTight(g, other);
    GroupIsPrefix(p, d, k);
    PrefixAtMost(g, k);
    AtMostThenLess(g, k, other);
    if Less(other, g) {
      LessTransitive(g, other, g);
      LessIrreflexive(g);
    }
    if IsPrefix(g, other) {
      GroupIsShared(p, d, k, other);
    }
    if Listed(p, d, other) && RowOf(p, d, other) == CommonPrefix(g) {
      GroupIsPrefix(p, d, other);
    }
  }

  /** Skipping to a bound that is not itself a key loses nothing and repeats nothing. */
  lemma SkipIsExact(p: Bytes, d: Bytes, keys: seq<Bytes>, m: nat, g: Bytes)
    requires Scannable(p, keys) && d != [] && EndsInGroup(p, d, keys, m, g) && Carry(g).Some? && Carry(g).value !in keys
    ensures var q := Position(keys, Carry(g).value);
            m <= q && Rows(p, d, keys[..q]) == Rows(p, d, keys[..m]) && !Straddles(p, d, keys[..q], keys[q..])
  {
    hide Less, Carry, RowOf, Rows, Position;
    var u := Carry(g).value;
    var q := Position(keys, u);
    PositionSplits(keys, u);
    RowsStep(p, d, keys, m - 1);
    var row := CommonPrefix(g);
    forall j | m <= j < |keys| ensures j < q <==> Listed(p, d, keys[j]) && RowOf(p, d, keys[j]) == row {
      assert Less(keys[m - 1], keys[j]);
      BoundSeparates(p, d, keys[m - 1], keys[j], g);
      LessTotal(u, keys[j]);
      if Less(u, keys[j]) && Less(keys[j], u) {
        LessTransitive(u, keys[j], u);
        LessIrreflexive(u);
      }
      assert keys[j] in keys;
    }
    assert m <= q by { KeyIsBelowBound(p, d, keys[m - 1], g); NotAboveIsBefore(keys, u, m - 1); }
    SameRowIsAbsorbed(p, d, keys, m, q, row);
    if q < |keys| {
      ListedIsUpward(p, d, keys, m - 1, q);
      FirstRow(p, d, keys[q..]);
    } else {
      assert Rows(p, d, keys[q..]) == [] by { assert keys[q..] == keys[..0]; NoRows(p, d, keys); }
    }
  }

  lemma KeyIsBelowBound(p: Bytes, d: Bytes, k: Bytes, g: Bytes)
    requires d != [] && Listed(p, d, k) && RowOf(p, d, k) == CommonPrefix(g) && Carry(g).Some?
    ensures Less(k, Carry(g).value)
  {
    hide Less, Carry, Find;
    GroupIsPrefix(p, d, k);
    BoundIsTight(g, k);
  }

  lemma NotAboveIsBefore(keys: seq<Bytes>, u: Bytes, i: nat)
    requires Ascending(keys) && i < |keys| && Less(keys[i], u)
    ensures i < Position(keys, u)
  {
    hide Less, Position;
    PositionSplits(keys, u);
    if Less(u, keys[i]) {
      LessTransitive(u, keys[i], u);
      LessIrreflexive(u);
    }
  }

  lemma BoundRowIsNew(p: Bytes, d: Bytes, keys: seq<Bytes>, m: nat, g: Bytes, i: nat)
    requires Scannable(p, keys) && d != [] && EndsInGroup(p, d, keys, m, g) && Carry(g).Some?
    requires i < |keys| && keys[i] == Carry(g).value
    ensures m <= i && Position(keys, Carry(g).value) == i + 1 && Listed(p, d, keys[i])
    ensures Rows(p, d, keys[..i + 1]) == Rows(p, d, keys[..m]) + [RowOf(p, d, keys[i])]
  {
    hide Less, Carry, RowOf, Rows, Position;
    var u, row := Carry(g).value, CommonPrefix(g);
    PositionOfKey(keys, i);
    KeyIsBelowBound(p, d, keys[m - 1], g);
    NotAboveIsBefore(keys, u, m - 1);
    LessIrreflexive(u);
    assert m - 1 != i;
    RowsStep(p, d, keys, m - 1);
    forall j | m <= j < i ensures Listed(p, d, keys[j]) && RowOf(p, d, keys[j]) == row {
      assert Less(keys[m - 1], keys[j]) && Less(keys[j], keys[i]);
      BoundSeparates(p, d, keys[m - 1], keys[j], g);
    }
    SameRowIsAbsorbed(p, d, keys, m, i, row);
    assert Less(keys[m - 1], keys[i]);
    BoundSeparates(p, d, keys[m - 1], keys[i], g);
    ListedIsUpward(p, d, keys, m - 1, i);
    RowsStep(p, d, keys, i);
  }

  /** Skipping a finished group resumes with the next row exactly when its bound is not a key, or
      is a key whose own row a later key shows again. */
  lemma SkipIsExactIff(p: Bytes, d: Bytes, keys: seq<Bytes>, m: nat, g: Bytes)
    requires Scannable(p, keys) && d != [] && EndsInGroup(p, d, keys, m, g) && Carry(g).Some?
    ensures var q, n := Position(keys, Carry(g).value), |Rows(p, d, keys[..m])|;
            && n <= |Rows(p, d, keys)|
            && (Rows(p, d, keys[q..]) == Rows(p, d, keys)[n..] <==>
                Carry(g).value !in keys || Straddles(p, d, keys[..q], keys[q..]))
  {
    hide Rows, Position, Scannable, EndsInGroup, Carry;
    var u := Carry(g).value;
    var q := Position(keys, u);
    assert keys[..q] + keys[q..] == keys;
    ResumeContinues(p, d, keys[..q], keys[q..]);
    if u !in keys {
      SkipIsExact(p, d, keys, m, g);
    } else {
      var i :| 0 <= i < |keys| && keys[i] == u;
      BoundRowIsNew(p, d, keys, m, g, i);
    }
  }

  /** Under a delimiter whose last byte can be raised the bound is the group with that byte raised,
      and as a key it would be a row of its own. */
  lemma BoundIsPlainKey(p: Bytes, d: Bytes, k: Bytes, g: Bytes)
    requires d != [] && d[|d| - 1] < 255 && Listed(p, d, k) && RowOf(p, d, k) == CommonPrefix(g)
    ensures g != [] && g[|g| - 1] == d[|d| - 1] && Carry(g) == Some(g[..|g| - 1] + [g[|g| - 1] + 1])
    ensures Listed(p, d, Carry(g).value) && RowOf(p, d, Carry(g).value) == Key(Carry(g).value)
  {
    hide Find, MatchesAt, RaisedMatch, Carry;
    var rest := k[|p|..];
    FindIsFirst(rest, d);
    var at := Find(rest, d).value;
    assert g == p + rest[..at + |d|];
    hide GroupOf, RowOf, Listed;
    RaisedEnd(p, rest, d, at);
    CarryRaises(g);
    NoMatchInBound(rest, d, at);
    PlainUnder(p, d, RaisedMatch(rest, d, at));
  }

  lemma CarryRaises(g: Bytes)
    requires g != [] && g[|g| - 1] < 255
    ensures Carry(g) == Some(g[..|g| - 1] + [g[|g| - 1] + 1])
  {
  }

  /** What comes before the end of the match, and its last byte raised. */
  function RaisedMatch(rest: Bytes, d: Bytes, at: nat): Bytes
    requires d != [] && d[|d| - 1] < 255 && MatchesAt(rest, d, at)
  {
    rest[..at + |d| - 1] + [d[|d| - 1] + 1]
  }

  lemma RaisedEnd(p: Bytes, rest: Bytes, d: Bytes, at: nat)
    requires d != [] && d[|d| - 1] < 255 && MatchesAt(rest, d, at)
    ensures var g := p + rest[..at + |d|];
            && g != [] && g[|g| - 1] == d[|d| - 1]
            && g[..|g| - 1] + [g[|g| - 1] + 1] == p + RaisedMatch(rest, d, at)
  {
    assert rest[at..at + |d|][|d| - 1] == rest[at + |d| - 1];
  }

  lemma PlainUnder(p: Bytes, d: Bytes, tail: Bytes)
    requires d != [] && Find(tail, d) == None
    ensures Listed(p, d, p + tail) && RowOf(p, d, p + tail) == Key(p + tail)
  {
    assert (p + tail)[|p|..] == tail;
  }

  /** Raising the last byte of the first match leaves no match. */
  lemma NoMatchInBound(rest: Bytes, d: Bytes, at: nat)
    requires d != [] && d[|d| - 1] < 255 && Find(rest, d) == Some(at) && MatchesAt(rest, d, at)
    ensures Find(RaisedMatch(rest, d, at), d) == None
  {
    hide Find;
    var tail := RaisedMatch(rest, d, at);
    FindIsFirst(rest, d);
    FindIsFirst(tail, d);
    forall j: nat ensures !MatchesAt(tail, d, j) {
      if j + |d| < |tail| {
        assert tail[j..j + |d|] == rest[j..j + |d|];
        assert !MatchesAt(rest, d, j);
      } else if j + |d| == |tail| {
        assert tail[j..j + |d|][|d| - 1] != d[|d| - 1];
      }
    }
  }

  /** Then skipping a finished group resumes with the next row exactly when its bound is not a key. */
  lemma SkipIsExactIffBoundIsFree(p: Bytes, d: Bytes, keys: seq<Bytes>, m: nat, g: Bytes)
    requires Scannable(p, keys) && d != [] && d[|d| - 1] < 255 && EndsInGroup(p, d, keys, m, g)
    ensures Carry(g).Some?
    ensures var q, n := Position(keys, Carry(g).value), |Rows(p, d, keys[..m])|;
            && n <= |Rows(p, d, keys)|
            && (Rows(p, d, keys[q..]) == Rows(p, d, keys)[n..] <==> Carry(g).value !in keys)
  {
    hide Rows, Position, Scannable, RowOf, Carry, Straddles;
    BoundIsPlainKey(p, d, keys[m - 1], g);
    SkipIsExactIff(p, d, keys, m, g);
    var u := Carry(g).value;
    if u in keys {
      var i :| 0 <= i < |keys| && keys[i] == u;
      BoundRowIsNew(p, d, keys, m, g, i);
      assert Ascending(keys) by { ScannableAscends(p, keys); }
      KeyNeverStraddles(p, d, keys, i + 1);
    }
  }

  lemma ScannableAscends(p: Bytes, keys: seq<Bytes>)
    requires Scannable(p, keys)
    ensures Ascending(keys)
  {
  }

  /** An all-0xFF group has no bound: the next page lists the group again, and again. */
  lemma AllOnesGroupRepeats(p: Bytes, d: Bytes, keys: seq<Bytes>, m: nat, g: Bytes)
    requires Scannable(p, keys) && d != [] && EndsInGroup(p, d, keys, m, g) && Carry(g).None?
    ensures UpperBoundOf(g) == g
    ensures var q := Position(keys, g);
            Rows(p, d, keys[q..]) == if q < |keys| then [CommonPrefix(g)] else []
  {
    hide Less, Carry, RowOf, Rows, Position;
    var q, row := Position(keys, g), CommonPrefix(g);
    PositionSplits(keys, g);
    if q == |keys| {
      assert keys[q..] == keys[..0];
      NoRows(p, d, keys);
    } else {
      forall j | q <= j < |keys| ensures Listed(p, d, keys[j]) && RowOf(p, d, keys[j]) == row {
        AboveAllOnes(p, d, keys[m - 1], keys[j], g);
      }
      var rest := keys[q..];
      FirstRow(p, d, rest);
      OneRow(p, d, rest, row);
    }
  }

  /** A delimiter without the byte 0xFF, such as any text, ends every group with a byte that can be
      raised: a group has no bound only under a delimiter that no S3 request can carry. */
  lemma TextGroupHasBound(p: Bytes, d: Bytes, k: Bytes)
    requires d != [] && (forall i | 0 <= i < |d| :: d[i] != 255)
    requires Listed(p, d, k) && RowOf(p, d, k).CommonPrefix?
    ensures Carry(RowOf(p, d, k).name).Some?
  {
    hide Find;
    var rest := k[|p|..];
    FindIsFirst(rest, d);
    var at := Find(rest, d).value;
    assert rest[at..at + |d|] == d && RowOf(p, d, k).name == p + rest[..at + |d|];
    assert rest[at + |d| - 1] == d[|d| - 1];
  }

  /** Folding two keys under the delimiter 0xFF: the batch ends in the group `[0xFF]`, the skip
      point is that group itself, and a scan from there folds to the same row again. */
  lemma AllOnesGroupCanRepeat()
    ensures var keys: seq<Bytes> := [[255, 1], [255, 2]];
            var rows := Rows([], [255], keys);
            && rows == [CommonPrefix([255])] && SkipPoint(rows) == Some([255])
            && RowsFrom([], [255], keys, [255]) == rows
  {
    hide RowOf, Less;
    var keys: seq<Bytes> := [[255, 1], [255, 2]];
    OnesGroup(1);
    OnesGroup(2);
    OneRow([], [255], keys, CommonPrefix([255]));
    var g: Bytes := [255];
    assert g[..0] == [] && Carry(g) == None;
    assert Position(keys, g) == 0 by { OnesAreAbove(1); }
    assert keys[0..] == keys;
  }

  lemma OnesGroup(x: byte)
    ensures RowOf([], [255], [255, x]) == CommonPrefix([255])
  {
    var a: Bytes := [255, x];
    assert a[0..] == a && a[..1] == [255];
    assert Find(a, [255]) == Some(0);
  }

  lemma OnesAreAbove(x: byte)
    ensures Less([255], [255, x])
  {
    var a: Bytes, b: Bytes := [255], [255, x];
    assert Less(a[1..], b[1..]);
  }

  lemma AboveAllOnes(p: Bytes, d: Bytes, k: Bytes, other: Bytes, g: Bytes)
    requires d != [] && Listed(p, d, k) && RowOf(p, d, k) == CommonPrefix(g) && Carry(g).None? && Less(g, other)
    ensures Listed(p, d, other) && RowOf(p, d, other) == CommonPrefix(g)
  {
    hide Less, Carry, Find;
    BoundIsTight(g, other);
    if Less(other, g) {
      LessTransitive(g, other, g);
      LessIrreflexive(g);
    }
    GroupIsShared(p, d, k, other);
  }

  lemma OneRow(p: Bytes, d: Bytes, keys: seq<Bytes>, row: Row)
    requires keys != [] && forall j | 0 <= j < |keys| :: Listed(p, d, keys[j]) && RowOf(p, d, keys[j]) == row
    ensures Rows(p, d, keys) == [row]
  {
    hide RowOf;
    RowsStep(p, d, keys, 0);
    NoRows(p, d, keys);
    SameRowIsAbsorbed(p, d, keys, 1, |keys|, row);
    assert keys[..|keys|] == keys;
  }

  // ---------------------------------------------------------------- plain listings and examples

  /** Without a delimiter nothing filters by prefix: the listing stays under it exactly when the
      start lies where no key between it and the prefix can be reached. */
  lemma PlainListingUnderPrefixIff(p: Bytes, keys: seq<Bytes>, startAfter: Bytes)
    requires Scannable(p, keys)
    ensures (forall row | row in RowsFrom(p, [], keys, startAfter) :: IsPrefix(p, row.name)) <==>
      startAfter == [] || forall i | 0 <= i < |keys| :: Less(startAfter, keys[i]) ==> !Less(keys[i], p)
  {
    hide Less, Rows, Position, PositionFrom;
    var s := StartOf(keys, p, startAfter);
    PlainRows(p, keys[s..]);
    PositionSplits(keys, startAfter);
    PositionFromSplits(keys, p);
    forall i | 0 <= i < |keys| ensures IsPrefix(p, keys[i]) <==> !Less(keys[i], p) {
      ScopeIsEither(p, keys[i]);
    }
    var rows := RowsFrom(p, [], keys, startAfter);
    assert forall i | s <= i < |keys| :: rows[i - s] == Key(keys[i]);
    assert forall i | s <= i < |keys| :: Key(keys[i]) in rows;
  }

  lemma ScopeIsEither(p: Bytes, k: Bytes)
    requires InScope(p, k)
    ensures IsPrefix(p, k) <==> !Less(k, p)
  {
    hide Less;
    if IsPrefix(p, k) && Less(k, p) {
      PrefixAtMost(p, k);
      AtMostThenLess(p, k, p);
      LessIrreflexive(p);
    }
  }

  lemma {:induction false} PositionFromSplits(keys: seq<Bytes>, c: Bytes)
    requires Ascending(keys)
    ensures forall i | 0 <= i < |keys| :: !Less(keys[i], c) <==> PositionFrom(keys, c) <= i
    decreases |keys|
  {
    hide Less;
    if keys != [] {
      var rest := keys[1..];
      assert Ascending(rest);
      PositionFromSplits(rest, c);
      LessTotal(c, keys[0]);
      LessIrreflexive(c);
      forall i | 0 <= i < |keys| ensures !Less(keys[i], c) <==> PositionFrom(keys, c) <= i {
        if i > 0 {
          assert rest[i - 1] == keys[i];
        }
        if AtMost(c, keys[0]) && Less(keys[i], c) {
          if i > 0 {
            LessTransitive(keys[0], keys[i], c);
          }
          AtMostThenLess(c, keys[0], c);
        }
      }
    }
  }

  lemma SlashGroups(x: byte)
    ensures RowOf([], [47], [97, 47, x]) == CommonPrefix([97, 47])
  {
    var a: Bytes := [97, 47, x];
    assert a[0..] == a;
    assert Find(a, [47]) == Some(1) by {
      assert a[..1] == [97] && a[1..][..1] == [47];
    }
  }

  lemma ExampleRows()
    ensures RowOf([], [47], [97, 47, 49]) == CommonPrefix([97, 47])
    ensures RowOf([], [47], [97, 48]) == Key([97, 48])
  {
    SlashGroups(49);
    var b: Bytes := [97, 48];
    assert b[0..] == b;
    assert Find(b, [47]) == None by {
      assert b[..1] == [97] && b[1..][..1] == [48] && b[1..][1..] == [];
    }
  }

  /** The skip past `a/` lands on `a0`, and an object of that name is not listed. */
  lemma SkipCanLoseKey()
    ensures var keys: seq<Bytes> := [[97, 47, 49], [97, 48]];
            && Rows([], [47], keys) == [CommonPrefix([97, 47]), Key([97, 48])]
            && RowsFrom([], [47], keys, UpperBoundOf([97, 47])) == []
  {
    hide RowOf, Less, Position, Carry;
    var keys: seq<Bytes> := [[97, 47, 49], [97, 48]];
    ExampleRows();
    RowsStep([], [47], keys, 0);
    RowsStep([], [47], keys, 1);
    NoRows([], [47], keys);
    assert keys[..2] == keys;
    assert Carry([97, 47]) == Some([97, 48]) by { CarrySlash(); }
    assert Ascending(keys) by { LessExample(); }
    PositionOfKey(keys, 1);
    assert keys[2..] == keys[..0];
  }

  lemma CarrySlash()
    ensures Carry([97, 47]) == Some([97, 48])
  {
    var g: Bytes := [97, 47];
    assert g[..1] + [48] == [97, 48];
  }

  lemma LessExample()
    ensures Less([97, 47, 49], [97, 48])
  {
    var a: Bytes, b: Bytes := [97, 47, 49], [97, 48];
    assert Less(a[1..], b[1..]);
  }

  /** A page that ends with `a/` after its first key shows `a/` again on the next page. */
  lemma CutCanRepeatGroup()
    ensures var keys: seq<Bytes> := [[97, 47, 49], [97, 47, 50]];
            && Rows([], [47], keys[..1]) == [CommonPrefix([97, 47])]
            && RowsFrom([], [47], keys, keys[0]) == [CommonPrefix([97, 47])]
  {
    hide RowOf, Less, Position;
    var keys: seq<Bytes> := [[97, 47, 49], [97, 47, 50]];
    SlashGroups(49);
    SlashGroups(50);
    OneRow([], [47], keys[..1], CommonPrefix([97, 47]));
    OneRow([], [47], keys[1..], CommonPrefix([97, 47]));
    assert Ascending(keys) by { LessSlash(); }
    PositionOfKey(keys, 0);
  }

  lemma LessSlash()
    ensures Less([97, 47, 49], [97, 47, 50])
  {
    var a: Bytes, b: Bytes := [97, 47, 49], [97, 47, 50];
    assert Less(a[1..][1..], b[1..][1..]);
    assert Less(a[1..], b[1..]);
  }

  /** Listing prefix `b` from after `0` without a delimiter shows the object `a`. */
  lemma PlainListingCanLeavePrefix()
    ensures var keys: seq<Bytes> := [[97]]; Scannable([98], keys) && RowsFrom([98], [], keys, [48]) == [Key([97])]
  {
    var keys: seq<Bytes> := [[97]];
    assert Less(keys[0], [98]) && Less([48], keys[0]);
    PlainRows([98], keys);
    assert keys[0..] == keys;
  }
}
