/** Listings whose tokens pass through text on their way to the client and back
    (crates/epoch-gateway/src/http.rs): a LIST answers with bytes, the response carries them through a
    lossy conversion, and the next request starts after the bytes of that text. */
module ListText {
  import opened Bytes
  import opened Utf8
  import opened Listing
  import opened ListPages

  ghost predicate AllText(keys: seq<Bytes>) {
    forall i | 0 <= i < |keys| :: Text(keys[i])
  }

  // ---------------------------------------------------------------- which tokens come back intact

  lemma {:induction false} SharedFront(a: Bytes, b: Bytes, c: Bytes)
    ensures Less(a + b, a + c) <==> Less(b, c)
    decreases |a|
  {
    if a == [] {
      assert a + b == b && a + c == c;
    } else {
      SharedFront(a[1..], b, c);
      assert (a + b)[1..] == a[1..] + b && (a + c)[1..] == a[1..] + c;
    }
  }

  /** Text in front of bytes is left alone by the conversion. */
  lemma {:induction false} LossyAfterText(a: Bytes, b: Bytes)
    requires Text(a)
    ensures Lossy(a + b) == a + Lossy(b)
    decreases |a|
  {
    hide Text, CharLen, Lossy;
    if a == [] {
      assert a + b == b && a + Lossy(b) == Lossy(b);
    } else {
      var n := CharLen(a);
      TextUnfolds(a);
      LossyAfterText(a[n..], b);
      LossyFirst(a, b);
      assert a[..n] + (a[n..] + Lossy(b)) == a + Lossy(b);
    }
  }

  lemma LossyFirst(a: Bytes, b: Bytes)
    requires CharLen(a) > 0
    ensures var n := CharLen(a); Lossy(a + b) == a[..n] + Lossy(a[n..] + b)
  {
    hide CharLen;
    var n := CharLen(a);
    CharStands(a, a[n..] + b);
    assert a + b == a[..n] + (a[n..] + b);
    assert (a + b)[..n] == a[..n] && (a + b)[n..] == a[n..] + b;
  }

  /** A text that sorts on different sides of bytes that are not text and of their conversion. */
  lemma {:induction false} TellApart(t: Bytes) returns (k: Bytes)
    requires !Text(t)
    ensures Text(k) && k != [] && Less(t, k) != Less(Lossy(t), k)
    decreases |t|
  {
    if CharLen(t) > 0 {
      var n := CharLen(t);
      var rest := TellApart(t[n..]);
      k := t[..n] + rest;
      hide CharLen, Less;
      CharAlone(t);
      FirstChar(t[..n], rest);
      assert t == t[..n] + t[n..];
      SharedFront(t[..n], t[n..], rest);
      SharedFront(t[..n], Lossy(t[n..]), rest);
    } else {
      k := TellApartHere(t);
    }
  }

  lemma TellApartHere(t: Bytes) returns (k: Bytes)
    requires t != [] && CharLen(t) == 0
    ensures Text(k) && k != [] && Less(t, k) != Less(Lossy(t), k)
  {
    if Less(t, Lossy(t)) {
      k := Lossy(t);
      hide Less;
      LossyIsText(t);
      LessIrreflexive(k);
    } else {
      k := [0xEF, 0xBF, 0xBE];
      assert CharLen(k) == 3 && k[3..] == [];
      AboveReplacement(t, k);
    }
  }

  lemma AboveReplacement(t: Bytes, k: Bytes)
    requires t != [] && CharLen(t) == 0 && !Less(t, Lossy(t)) && k == [0xEF, 0xBF, 0xBE]
    ensures !Less(t, k) && Less(Lossy(t), k)
  {
    var l := Lossy(t);
    assert l == REPLACEMENT + Lossy(t[BadLen(t)..]);
    hide Less, Lossy, BadLen;
    LessByThree(t, l);
    LessByThree(t, k);
    LessByThree(l, k);
  }

  lemma LessByThree(a: Bytes, b: Bytes)
    requires |b| >= 3
    ensures Less(a, b) <==>
            || a == [] || a[0] < b[0]
            || (a[0] == b[0] && (|a| == 1 || a[1] < b[1]
                || (a[1] == b[1] && (|a| == 2 || a[2] < b[2] || (a[2] == b[2] && Less(a[3..], b[3..]))))))
  {
    hide Less;
    assert a[0..] == a && b[0..] == b;
    LessAt(a, b, 0);
    if |a| >= 1 {
      LessAt(a, b, 1);
    }
    if |a| >= 2 {
      LessAt(a, b, 2);
    }
  }

  lemma LessAt(a: Bytes, b: Bytes, i: nat)
    requires i <= |a| && i < |b|
    ensures Less(a[i..], b[i..]) <==>
            i == |a| || a[i] < b[i] || (a[i] == b[i] && Less(a[i + 1..], b[i + 1..]))
  {
    if i < |a| {
      assert a[i..][1..] == a[i + 1..] && b[i..][1..] == b[i + 1..];
    }
  }

  /** A token under a text prefix resumes every listing of text keys where it should if and only if
      it is itself text. */
  lemma TokenResumesIffText(p: Bytes, x: Bytes)
    requires Text(p) && x != []
    ensures (forall keys | Scannable(p, keys) && AllText(keys) ::
               StartOf(keys, p, Lossy(p + x)) == StartOf(keys, p, p + x)) <==> Text(p + x)
  {
    hide Less, Lossy, Text, Scannable, StartOf;
    if Text(p + x) {
      SurvivesIffText(p + x);
    } else {
      var k := TellApartUnder(p, x);
      var keys := [k];
      assert AllText(keys);
      StartTells(keys, p, p + x, Lossy(p + x));
    }
  }

  lemma TellApartUnder(p: Bytes, x: Bytes) returns (k: Bytes)
    requires Text(p) && !Text(p + x)
    ensures Text(k) && Scannable(p, [k]) && Less(p + x, k) != Less(Lossy(p + x), k)
    ensures Lossy(p + x) != []
  {
    hide Less, Text, Lossy;
    assert !Text(x) by { TextFollows(p, x); }
    var y := TellApart(x);
    k := p + y;
    TextFollows(p, y);
    LossyAfterText(p, x);
    SharedFront(p, x, y);
    SharedFront(p, Lossy(x), y);
    assert IsPrefix(p, k);
    assert Lossy(x) != [] by { LossyKeepsSome(x); }
  }

  lemma LossyKeepsSome(x: Bytes)
    requires !Text(x)
    ensures Lossy(x) != []
  {
  }

  lemma {:induction false} TextFollows(a: Bytes, b: Bytes)
    requires Text(a)
    ensures Text(a + b) <==> Text(b)
    decreases |a|
  {
    hide Text, CharLen;
    if a == [] {
      assert a + b == b;
    } else {
      var n := CharLen(a);
      TextUnfolds(a);
      TextFollows(a[n..], b);
      CharAlone(a);
      FirstChar(a[..n], a[n..] + b);
      assert a + b == a[..n] + (a[n..] + b);
    }
  }

  lemma TextUnfolds(a: Bytes)
    requires Text(a) && a != []
    ensures CharLen(a) > 0 && Text(a[CharLen(a)..])
  {
  }

  lemma StartTells(keys: seq<Bytes>, p: Bytes, a: Bytes, b: Bytes)
    requires |keys| == 1 && a != [] && b != [] && Less(a, keys[0]) != Less(b, keys[0])
    ensures StartOf(keys, p, a) != StartOf(keys, p, b)
  {
  }

  // ---------------------------------------------------------------- which delimiters keep tokens text

  /** The last byte of the delimiter can be raised within its character. */
  predicate Safe(d: Bytes) {
    d == [] || (d[|d| - 1] != 0x7F && d[|d| - 1] != 0xBF)
  }

  lemma TextIsRaisable(d: Bytes)
    requires Text(d)
    ensures Raisable(d)
  {
    if d != [] {
      RaisedIsTextIff(d);
    }
  }

  /** Over text keys, prefix and delimiter, the bound past a group is text if and only if the delimiter
      ends neither with the last ASCII character nor with the last of a row of 64. */
  lemma BoundIsTextIff(p: Bytes, d: Bytes, k: Bytes, g: Bytes)
    requires d != [] && Text(d) && Text(k) && Listed(p, d, k) && RowOf(p, d, k) == CommonPrefix(g)
    ensures Carry(g).Some? && (Text(Carry(g).value) <==> Safe(d))
  {
    hide Text, Carry;
    TextIsRaisable(d);
    BoundIsPlainKey(p, d, k, g);
    assert Text(g) by { GroupIsText(p, d, k, g); }
    RaisedIsTextIff(g);
  }

  lemma GroupIsText(p: Bytes, d: Bytes, k: Bytes, g: Bytes)
    requires d != [] && Text(d) && Text(k) && Listed(p, d, k) && RowOf(p, d, k) == CommonPrefix(g)
    ensures Text(g)
  {
    hide Text, Find;
    var rest := k[|p|..];
    FindIsFirst(rest, d);
    var at := Find(rest, d).value;
    assert k[..|p|] == p && g == p + rest[..at + |d|];
    assert k[..|p| + at + |d|] == g;
    WindowAfter(k, |p|, |p| + at, |p| + at + |d|);
    CutIsText(k, |p| + at, d);
  }

  lemma BatchNextIsText(keys: seq<Bytes>, p: Bytes, d: Bytes, cursor: Bytes, limit: nat, rows: seq<Row>)
    requires Scannable(p, keys) && AllText(keys) && Text(d) && Safe(d)
    requires |rows| < limit && StartOf(keys, p, cursor) < |keys|
    ensures Text(BatchOf(keys, p, d, cursor, limit, rows).next)
  {
    hide Text, StartOf, Rows, RowOf, Carry, Opening, Listed, Scannable, Safe;
    var s := StartOf(keys, p, cursor);
    var e := Min(s + limit, |keys|);
    var all := Rows(p, d, keys[s..e]);
    if |all| <= limit - |rows| && SkipPoint(all).Some? {
      LastRowIsGroup(p, d, keys, s, e);
      BoundIsTextIff(p, d, keys[e - 1], all[|all| - 1].name);
    }
  }

  /** Every token of every LIST is then text. */
  lemma {:induction false} TokenIsText(keys: seq<Bytes>, p: Bytes, d: Bytes, cursor: Bytes, limit: nat,
                                       rows: seq<Row>, n: nat)
    requires Scannable(p, keys) && AllText(keys) && Text(d) && Safe(d) && Text(cursor) && |rows| < limit
    ensures var page := PageOf(keys, p, d, cursor, limit, rows, n); page.token.Some? ==> Text(page.token.value)
    decreases n
  {
    hide Text, StartOf, BatchOf, AllText, Scannable, Safe;
    if n > 0 && StartOf(keys, p, cursor) < |keys| {
      var b := BatchOf(keys, p, d, cursor, limit, rows);
      BatchNextIsText(keys, p, d, cursor, limit, rows);
      if |b.page| < limit && !b.last {
        TokenIsText(keys, p, d, b.next, limit, b.page, n - 1);
      }
    }
  }

  // ---------------------------------------------------------------- the client's walk

  /** Each LIST starts after the text of the token before it. */
  ghost predicate TextWalk(p: Bytes, d: Bytes, keys: seq<Bytes>, startAfter: Bytes, limits: seq<nat>, pages: seq<Page>)
    decreases |pages|
  {
    && pages != [] && |limits| == |pages| && limits[0] > 0
    && pages[0] == Answer(keys, p, d, startAfter, limits[0])
    && (pages[0].token.None? <==> |pages| == 1)
    && (pages[0].token.Some? ==> TextWalk(p, d, keys, Lossy(pages[0].token.value), limits[1..], pages[1..]))
  }

  lemma {:induction false} TextWalkIsWalk(p: Bytes, d: Bytes, keys: seq<Bytes>, startAfter: Bytes, limits: seq<nat>,
                                          pages: seq<Page>)
    requires Scannable(p, keys) && Clean(p, d, keys) && AllText(keys) && Text(d) && Safe(d) && Text(startAfter)
    requires TextWalk(p, d, keys, startAfter, limits, pages)
    ensures Walk(p, d, keys, startAfter, pages)
    decreases |pages|
  {
    hide Scannable, Clean, AllText, Text, Safe, PageFrom, PageOf, Lossy;
    CleanIsExact(keys, p, d, startAfter, limits[0]);
    TokenIsText(keys, p, d, startAfter, limits[0], [], MAX_BATCHES);
    var token := pages[0].token;
    if token.Some? {
      SurvivesIffText(token.value);
      TextWalkIsWalk(p, d, keys, token.value, limits[1..], pages[1..]);
    }
  }

  /** Over text keys and clean groups, with any limits, a walk through text tokens gathers the whole
      listing when the delimiter keeps tokens text. */
  lemma TextWalkIsListing(p: Bytes, d: Bytes, keys: seq<Bytes>, startAfter: Bytes, limits: seq<nat>, pages: seq<Page>)
    requires Scannable(p, keys) && Clean(p, d, keys) && AllText(keys) && Text(d) && Safe(d) && Text(startAfter)
    requires TextWalk(p, d, keys, startAfter, limits, pages)
    ensures Gathered(pages) == RowsFrom(p, d, keys, startAfter)
    ensures |pages| <= |keys| - StartOf(keys, p, startAfter) + 1
  {
    hide Scannable, Clean, AllText, Text, Safe, TextWalk, Walk, RowsFrom, StartOf;
    TextWalkIsWalk(p, d, keys, startAfter, limits, pages);
    WalkIsListing(p, d, keys, startAfter, pages);
  }

  // ---------------------------------------------------------------- tokens that do not survive

  /** A listing of one row whose first key opens a group. */
  lemma FirstPageIsGroup(p: Bytes, d: Bytes, keys: seq<Bytes>, startAfter: Bytes, g: Bytes)
    requires Scannable(p, keys) && StartOf(keys, p, startAfter) < |keys|
    requires var k := keys[StartOf(keys, p, startAfter)]; Listed(p, d, k) && RowOf(p, d, k) == CommonPrefix(g)
    ensures Answer(keys, p, d, startAfter, 1) == Page([CommonPrefix(g)], Some(UpperBoundOf(g)))
  {
    hide StartOf, RowOf, Listed, UpperBoundOf, Scannable, Opening;
    var s := StartOf(keys, p, startAfter);
    var part := keys[s..s + 1];
    assert part == [keys[s]];
    OneKeyRow(p, d, keys[s]);
    assert Rows(p, d, part) == [CommonPrefix(g)];
    assert BatchOf(keys, p, d, startAfter, 1, []) == Batch([CommonPrefix(g)], UpperBoundOf(g), false);
  }

  lemma OneKeyRow(p: Bytes, d: Bytes, k: Bytes)
    requires Listed(p, d, k)
    ensures Rows(p, d, [k]) == [RowOf(p, d, k)]
  {
    assert [k][..0] == [];
  }

  /** Positions tell two cursors apart when some key does. */
  lemma StartTellsAt(keys: seq<Bytes>, p: Bytes, a: Bytes, b: Bytes, j: nat)
    requires Ascending(keys) && a != [] && b != [] && j < |keys| && Less(a, keys[j]) != Less(b, keys[j])
    ensures StartOf(keys, p, a) != StartOf(keys, p, b)
  {
    hide Less, Position;
    PositionSplits(keys, a);
    PositionSplits(keys, b);
  }

  /** Every token comes back to where it should. */
  ghost predicate Resumes(d: Bytes, p: Bytes, keys: seq<Bytes>, startAfter: Bytes, limit: nat)
    requires limit > 0
  {
    var token := Answer(keys, p, d, startAfter, limit).token;
    token.Some? ==> StartOf(keys, p, Lossy(token.value)) == StartOf(keys, p, token.value)
  }

  /** A bucket of text keys, listed from a text. */
  ghost predicate Plain(p: Bytes, keys: seq<Bytes>, startAfter: Bytes) {
    Scannable(p, keys) && AllText(keys) && Text(p) && Text(startAfter)
  }

  lemma SafeResumes(d: Bytes, p: Bytes, keys: seq<Bytes>, startAfter: Bytes, limit: nat)
    requires Text(d) && Safe(d) && Plain(p, keys, startAfter) && limit > 0
    ensures Resumes(d, p, keys, startAfter, limit)
  {
    hide Text, Safe, Scannable, AllText, PageOf, StartOf, Lossy;
    TokenIsText(keys, p, d, startAfter, limit, [], MAX_BATCHES);
    var token := Answer(keys, p, d, startAfter, limit).token;
    if token.Some? {
      SurvivesIffText(token.value);
    }
  }

  /** The delimiter as a key is a group of its own. */
  lemma DelimiterIsGroup(d: Bytes)
    requires d != []
    ensures Listed([], d, d) && RowOf([], d, d) == CommonPrefix(d)
  {
    assert d[0..] == d && d[..|d|] == d;
    assert Find(d, d) == Some(0);
  }

  lemma RaisedIsBound(d: Bytes)
    requires d != [] && d[|d| - 1] < 255
    ensures UpperBoundOf(d) == Raised(d) && Raised(d) != []
  {
    CarryRaises(d);
  }

  /** A bucket of at most two keys, the delimiter and `k`, and where to list it from so that the
      delimiter comes first. */
  lemma TwoKeys(d: Bytes, k: Bytes) returns (keys: seq<Bytes>, startAfter: Bytes, j: nat)
    requires d != [] && k != []
    ensures Ascending(keys) && [] !in keys && (forall x | x in keys :: x == d || x == k)
    ensures startAfter == [] || startAfter == k
    ensures j < |keys| && keys[j] == k
    ensures StartOf(keys, [], startAfter) < |keys| && keys[StartOf(keys, [], startAfter)] == d
  {
    LessTotal(d, k);
    hide Less, Position;
    if k == d {
      keys, startAfter, j := [d], [], 0;
      FirstIsStart(keys);
    } else if Less(d, k) {
      keys, startAfter, j := [d, k], [], 1;
      FirstIsStart(keys);
    } else {
      keys, startAfter, j := [k, d], k, 0;
      PositionOfKey(keys, 0);
    }
  }

  lemma FirstIsStart(keys: seq<Bytes>)
    requires keys != []
    ensures StartOf(keys, [], []) == 0
  {
  }

  lemma UnsafeFails(d: Bytes, k: Bytes) returns (keys: seq<Bytes>, startAfter: Bytes)
    requires d != [] && Text(d) && d[|d| - 1] < 255 && Text(k) && k != []
    requires Less(Raised(d), k) != Less(Lossy(Raised(d)), k) && Lossy(Raised(d)) != []
    ensures Plain([], keys, startAfter) && !Resumes(d, [], keys, startAfter, 1)
  {
    hide Text, Lossy, Less, RowOf, UpperBoundOf, StartOf, Raised, Listed;
    DelimiterIsGroup(d);
    RaisedIsBound(d);
    assert Text([]) by { NoneIsText(); }
    var j;
    keys, startAfter, j := TwoKeys(d, k);
    assert forall i | 0 <= i < |keys| :: keys[i] in keys;
    FirstPageIsGroup([], d, keys, startAfter, d);
    StartTellsAt(keys, [], Raised(d), Lossy(Raised(d)), j);
  }

  /** A text delimiter brings every token of every listing of text keys back to where it should if and
      only if its last byte is neither 0x7F nor 0xBF. */
  lemma ResumesIffSafe(d: Bytes)
    requires Text(d)
    ensures Safe(d) <==>
            forall p, keys, startAfter, limit: nat | Plain(p, keys, startAfter) && limit > 0 ::
              Resumes(d, p, keys, startAfter, limit)
  {
    hide Text, Lossy, Plain, Resumes;
    if Safe(d) {
      forall p, keys, startAfter, limit: nat | Plain(p, keys, startAfter) && limit > 0
        ensures Resumes(d, p, keys, startAfter, limit)
      {
        SafeResumes(d, p, keys, startAfter, limit);
      }
    } else {
      RaisedIsTextIff(d);
      var k := TellApart(Raised(d));
      LossyKeepsSome(Raised(d));
      var keys, startAfter := UnsafeFails(d, k);
    }
  }

  /** Listing `a` 0x7F `b` and `a` U+00E9 by the delimiter 0x7F, one row a page: the token comes back
      as `a` U+FFFD, past the second object, which is never listed. */
  lemma DelDelimiterLosesKey()
    ensures var keys: seq<Bytes>, d: Bytes, token: Bytes := [[97, 127, 98], [97, 0xC3, 0xA9]], [127], [97, 128];
            && Answer(keys, [], d, [], 1) == Page([CommonPrefix([97, 127])], Some(token))
            && RowsFrom([], d, keys, token) == [Key([97, 0xC3, 0xA9])]
            && RowsFrom([], d, keys, Lossy(token)) == []
  {
    var a: Bytes, b: Bytes, d: Bytes, token: Bytes := [97, 127, 98], [97, 0xC3, 0xA9], [127], [97, 128];
    var keys := [a, b];
    DelRows();
    LossyDel();
    DelOrder(keys, token);
    hide RowOf, Less, Listed, Lossy, StartOf, InScope;
    var g: Bytes := [97, 127];
    RaisedIsBound(g);
    assert Raised(g) == token;
    FirstPageIsGroup([], d, keys, [], g);
    assert keys[1..] == [b];
    assert keys[2..] == [];
    OneKeyRow([], d, b);
  }

  lemma DelOrder(keys: seq<Bytes>, token: Bytes)
    requires keys == [[97, 127, 98], [97, 0xC3, 0xA9]] && token == [97, 128]
    ensures Scannable([], keys) && StartOf(keys, [], []) == 0
    ensures StartOf(keys, [], token) == 1 && StartOf(keys, [], [97, 0xEF, 0xBF, 0xBD]) == 2
  {
    LessHere(token, keys[0], keys[1]);
    LossyAbove();
    FirstIsStart(keys);
    hide Less, Position;
    assert Ascending(keys);
    PositionSplits(keys, token);
    PositionSplits(keys, [97, 0xEF, 0xBF, 0xBD]);
    assert forall i | 0 <= i < |keys| :: IsPrefix([], keys[i]);
  }

  lemma DelRows()
    ensures Listed([], [127], [97, 127, 98]) && RowOf([], [127], [97, 127, 98]) == CommonPrefix([97, 127])
    ensures Listed([], [127], [97, 0xC3, 0xA9]) && RowOf([], [127], [97, 0xC3, 0xA9]) == Key([97, 0xC3, 0xA9])
  {
    var a: Bytes, b: Bytes := [97, 127, 98], [97, 0xC3, 0xA9];
    assert a[0..] == a && b[0..] == b;
    assert Find(a, [127]) == Some(1) by { assert a[..1] == [97] && a[1..][..1] == [127]; }
    assert a[..2] == [97, 127];
    assert Find(b, [127]) == None by {
      assert b[..1] == [97] && b[1..][..1] == [0xC3] && b[1..][1..] == [0xA9] && b[1..][1..][..1] == [0xA9];
      assert b[1..][1..][1..] == [];
    }
  }

  lemma LessHere(token: Bytes, a: Bytes, b: Bytes)
    requires token == [97, 128] && a == [97, 127, 98] && b == [97, 0xC3, 0xA9]
    ensures Less(a, b) && Less(token, b) && !Less(token, a)
  {
    assert token[1..] == [128] && a[1..] == [127, 98] && b[1..] == [0xC3, 0xA9];
  }

  lemma LossyDel()
    ensures Lossy([97, 128]) == [97, 0xEF, 0xBF, 0xBD]
  {
    var t: Bytes := [97, 128];
    assert t[..1] == [97] && t[1..] == [128] && t[1..][1..] == [];
    assert Lossy(t[1..]) == REPLACEMENT + Lossy([]);
  }

  lemma LossyAbove()
    ensures !Less([97, 0xEF, 0xBF, 0xBD], [97, 127, 98]) && !Less([97, 0xEF, 0xBF, 0xBD], [97, 0xC3, 0xA9])
  {
    var l: Bytes, a: Bytes, b: Bytes := [97, 0xEF, 0xBF, 0xBD], [97, 127, 98], [97, 0xC3, 0xA9];
    assert l[1..][0] == 0xEF && a[1..][0] == 127 && b[1..][0] == 0xC3;
  }
}
