/** UTF-8 as the front end sees it: tokens leave a LIST through a lossy conversion to text and come
    back as its bytes (crates/epoch-gateway/src/http.rs). The rules are those of section 3.9 of the
    Unicode standard. */
module Utf8 {
  import opened Bytes

  predicate Continues(b: byte) {
    0x80 <= b <= 0xBF
  }

  /** The second byte after a leading `a` of a three- or four-byte character. */
  predicate Second(a: byte, b: byte) {
    && Continues(b)
    && (a == 0xE0 ==> b >= 0xA0) && (a == 0xED ==> b <= 0x9F)
    && (a == 0xF0 ==> b >= 0x90) && (a == 0xF4 ==> b <= 0x8F)
  }

  /** The length of the character the bytes start with, or zero when they start with none. */
  function CharLen(b: Bytes): (n: nat)
    ensures n <= |b|
  {
    if b == [] then 0
    else if b[0] < 0x80 then 1
    else if 0xC2 <= b[0] <= 0xDF && |b| >= 2 && Continues(b[1]) then 2
    else if 0xE0 <= b[0] <= 0xEF && |b| >= 3 && Second(b[0], b[1]) && Continues(b[2]) then 3
    else if 0xF0 <= b[0] <= 0xF4 && |b| >= 4 && Second(b[0], b[1]) && Continues(b[2]) && Continues(b[3]) then 4
    else 0
  }

  predicate Text(b: Bytes)
    decreases |b|
  {
    b == [] || (CharLen(b) > 0 && Text(b[CharLen(b)..]))
  }

  /** The longest run of bytes that a character could have started with. */
  function BadLen(b: Bytes): (n: nat)
    requires b != [] && CharLen(b) == 0
    ensures 0 < n <= |b|
  {
    if 0xE0 <= b[0] <= 0xF4 && |b| >= 2 && Second(b[0], b[1]) then
      if b[0] >= 0xF0 && |b| >= 3 && Continues(b[2]) then 3 else 2
    else 1
  }

  // ---------------------------------------------------------------- what text is

  /** A Unicode scalar value: any code point but a surrogate. */
  predicate Scalar(cp: nat) {
    cp < 0xD800 || 0xE000 <= cp <= 0x10FFFF
  }

  /** Its bytes, by table 3-6 of the standard. */
  function Encoding(cp: nat): Bytes
    requires Scalar(cp)
  {
    if cp < 0x80 then [cp]
    else if cp < 0x800 then [0xC0 + cp / 0x40, 0x80 + cp % 0x40]
    else if cp < 0x1_0000 then [0xE0 + cp / 0x1000, 0x80 + cp / 0x40 % 0x40, 0x80 + cp % 0x40]
    else [0xF0 + cp / 0x4_0000, 0x80 + cp / 0x1000 % 0x40, 0x80 + cp / 0x40 % 0x40, 0x80 + cp % 0x40]
  }

  /** Every scalar value is a character, whatever follows it, */
  lemma EncodingIsChar(cp: nat, tail: Bytes)
    requires Scalar(cp)
    ensures CharLen(Encoding(cp) + tail) == |Encoding(cp)| > 0
  {
    hide Second;
    if 0x800 <= cp < 0x1_0000 {
      LeadsThree(cp);
    } else if cp >= 0x1_0000 {
      LeadsFour(cp);
    }
  }

  lemma LeadsThree(cp: nat)
    requires Scalar(cp) && 0x800 <= cp < 0x1_0000
    ensures cp / 0x1000 <= 0xF && Second(0xE0 + cp / 0x1000, 0x80 + cp / 0x40 % 0x40)
  {
    SixBits(cp);
  }

  lemma LeadsFour(cp: nat)
    requires 0x1_0000 <= cp <= 0x10FFFF
    ensures cp / 0x4_0000 <= 4 && Second(0xF0 + cp / 0x4_0000, 0x80 + cp / 0x1000 % 0x40)
  {
    SixBits(cp);
    Divided(cp);
  }

  lemma SixBits(cp: nat)
    ensures cp == cp / 0x1000 * 0x1000 + cp / 0x40 % 0x40 * 0x40 + cp % 0x40
  {
    assert cp / 0x40 == cp / 0x1000 * 0x40 + cp / 0x40 % 0x40 by { assert cp / 0x40 / 0x40 == cp / 0x1000; }
  }

  lemma Divided(cp: nat)
    ensures cp / 0x1000 == cp / 0x4_0000 * 0x40 + cp / 0x1000 % 0x40
  {
    assert cp / 0x1000 / 0x40 == cp / 0x4_0000;
  }

  lemma Digits(high: nat, mid: nat, low: nat)
    requires mid < 0x40 && low < 0x40
    ensures var cp := high * 0x1000 + mid * 0x40 + low;
            cp / 0x1000 == high && cp / 0x40 % 0x40 == mid && cp % 0x40 == low
  {
    var cp := high * 0x1000 + mid * 0x40 + low;
    assert cp / 0x40 == high * 0x40 + mid;
  }

  /** and every character is one. */
  lemma CharIsEncoding(b: Bytes) returns (cp: nat)
    requires CharLen(b) > 0
    ensures Scalar(cp) && Encoding(cp) == b[..CharLen(b)]
  {
    var n, a: int := CharLen(b), b[0];
    if n == 1 {
      cp := a;
    } else if n == 2 {
      cp := (a - 0xC0) * 0x40 + (b[1] as int - 0x80);
    } else if n == 3 {
      cp := ThreeBytes(a, b[1], b[2]);
    } else {
      cp := FourBytes(a, b[1], b[2], b[3]);
    }
  }

  lemma ThreeBytes(a: byte, x: byte, y: byte) returns (cp: nat)
    requires 0xE0 <= a <= 0xEF && Second(a, x) && Continues(y)
    ensures Scalar(cp) && Encoding(cp) == [a, x, y]
  {
    var high: int, mid: int, low: int := a - 0xE0, x - 0x80, y - 0x80;
    cp := high * 0x1000 + mid * 0x40 + low;
    Digits(high, mid, low);
  }

  lemma FourBytes(a: byte, x: byte, y: byte, z: byte) returns (cp: nat)
    requires 0xF0 <= a <= 0xF4 && Second(a, x) && Continues(y) && Continues(z)
    ensures Scalar(cp) && Encoding(cp) == [a, x, y, z]
  {
    var top: int, next: int, mid: int, low: int := a - 0xF0, x - 0x80, y - 0x80, z - 0x80;
    cp := (top * 0x40 + next) * 0x1000 + mid * 0x40 + low;
    Digits(top * 0x40 + next, mid, low);
    Divided(cp);
  }

  /** The bytes start some character. */
  ghost predicate Begins(b: Bytes) {
    exists cp: nat :: Scalar(cp) && IsPrefix(b, Encoding(cp))
  }

  /** The run that is replaced is the longest that starts a character, or one byte when none does. */
  lemma BadIsLongestStart(b: Bytes)
    requires b != [] && CharLen(b) == 0
    ensures BadLen(b) == 1 || Begins(b[..BadLen(b)])
    ensures BadLen(b) < |b| ==> !Begins(b[..BadLen(b) + 1])
  {
    var n := BadLen(b);
    if n > 1 {
      var c := b[..n] + if b[0] >= 0xF0 && n == 2 then [0x80, 0x80] else [0x80];
      var cp := CharIsEncoding(c);
      assert c[..|c|] == c && IsPrefix(b[..n], c);
    }
    if n < |b| {
      forall cp: nat | Scalar(cp) ensures !IsPrefix(b[..n + 1], Encoding(cp)) {
        NoLongerStart(b, cp);
      }
    }
  }

  /** What the bytes share with a character is no longer than that. */
  lemma SharedStartIsShort(b: Bytes, e: Bytes, n: nat)
    requires b != [] && CharLen(b) == 0 && CharLen(e) == |e| && n <= |b| && n <= |e| && b[..n] == e[..n]
    ensures n <= BadLen(b)
  {
    assert forall i | 0 <= i < n :: b[i] == b[..n][i] == e[i];
  }

  lemma NoLongerStart(b: Bytes, cp: nat)
    requires b != [] && CharLen(b) == 0 && BadLen(b) < |b| && Scalar(cp)
    ensures !IsPrefix(b[..BadLen(b) + 1], Encoding(cp))
  {
    hide CharLen, Encoding;
    var e, n := Encoding(cp), BadLen(b) + 1;
    EncodingIsChar(cp, []);
    assert e + [] == e;
    if IsPrefix(b[..n], e) {
      SharedStartIsShort(b, e, n);
    }
  }

  function EncodingOf(cps: seq<nat>): Bytes
    requires forall cp | cp in cps :: Scalar(cp)
  {
    if cps == [] then [] else Encoding(cps[0]) + EncodingOf(cps[1..])
  }

  ghost predicate Encodes(cps: seq<nat>, b: Bytes) {
    (forall cp | cp in cps :: Scalar(cp)) && EncodingOf(cps) == b
  }

  /** Text is what encodes some sequence of scalar values. */
  lemma {:induction false} TextIffEncoding(b: Bytes)
    ensures Text(b) <==> exists cps: seq<nat> :: Encodes(cps, b)
    decreases |b|
  {
    hide CharLen, Encoding;
    if b == [] {
      assert Encodes([], b);
    } else {
      if Text(b) {
        var n := CharLen(b);
        var cp := CharIsEncoding(b);
        TextIffEncoding(b[n..]);
        var cps: seq<nat> :| Encodes(cps, b[n..]);
        var all := [cp] + cps;
        assert all[1..] == cps && b == b[..n] + b[n..];
        assert Encodes(all, b);
      }
      if cps: seq<nat> :| Encodes(cps, b) {
        var first, rest := Encoding(cps[0]), EncodingOf(cps[1..]);
        EncodingIsChar(cps[0], rest);
        assert b[|first|..] == rest;
        assert Encodes(cps[1..], rest);
        TextIffEncoding(rest);
      }
    }
  }

  // ---------------------------------------------------------------- lossy text

  const REPLACEMENT: Bytes := [0xEF, 0xBF, 0xBD]

  /** `from_utf8_lossy`: each such run becomes the replacement character. */
  function Lossy(b: Bytes): Bytes
    decreases |b|
  {
    if b == [] then []
    else if CharLen(b) > 0 then b[..CharLen(b)] + Lossy(b[CharLen(b)..])
    else REPLACEMENT + Lossy(b[BadLen(b)..])
  }

  /** What follows a character does not matter to it. */
  lemma CharStands(b: Bytes, tail: Bytes)
    requires CharLen(b) > 0
    ensures CharLen(b[..CharLen(b)] + tail) == CharLen(b)
  {
  }

  lemma FirstChar(c: Bytes, tail: Bytes)
    requires c != [] && CharLen(c) == |c|
    ensures Text(c + tail) <==> Text(tail)
  {
    CharStands(c, tail);
    assert c[..|c|] == c && (c + tail)[|c|..] == tail;
  }

  /** The conversion always gives text, */
  lemma {:induction false} LossyIsText(b: Bytes)
    ensures Text(Lossy(b))
    decreases |b|
  {
    hide CharLen, Text;
    if b == [] {
      assert Text([]) by { NoneIsText(); }
    } else if CharLen(b) > 0 {
      var c := b[..CharLen(b)];
      LossyIsText(b[CharLen(b)..]);
      CharAlone(b);
      FirstChar(c, Lossy(b[CharLen(b)..]));
    } else {
      LossyIsText(b[BadLen(b)..]);
      assert CharLen(REPLACEMENT) == 3 by { ReplacementIsChar(); }
      FirstChar(REPLACEMENT, Lossy(b[BadLen(b)..]));
    }
  }

  lemma NoneIsText()
    ensures Text([])
  {
  }

  lemma ReplacementIsChar()
    ensures CharLen(REPLACEMENT) == 3
  {
  }

  /** and leaves text alone: a token survives it exactly when it is text. */
  lemma {:induction false} SurvivesIffText(b: Bytes)
    ensures Lossy(b) == b <==> Text(b)
    decreases |b|
  {
    LossyIsText(b);
    if b != [] && CharLen(b) > 0 {
      var n := CharLen(b);
      SurvivesIffText(b[n..]);
      assert b == b[..n] + b[n..];
      assert Text(b) ==> Lossy(b) == b;
    }
  }

  /** The bytes with the last one raised. */
  function Raised(g: Bytes): Bytes
    requires g != [] && g[|g| - 1] < 255
  {
    g[..|g| - 1] + [g[|g| - 1] + 1]
  }

  lemma OneCharRaised(g: Bytes)
    requires g != [] && CharLen(g) == |g|
    ensures g[|g| - 1] < 255 && (Text(Raised(g)) <==> g[|g| - 1] != 0x7F && g[|g| - 1] != 0xBF)
  {
    var r := Raised(g);
    assert r[|r| - 1] == g[|g| - 1] + 1 && |r| == |g|;
    assert forall i | 0 <= i < |g| - 1 :: r[i] == g[i];
    assert r[|r|..] == [];
    assert g[|g| - 1] != 0x7F && g[|g| - 1] != 0xBF <==> CharLen(r) == |r|;
    assert CharLen(r) == |r| || CharLen(r) == 0;
  }

  /** Raising the last byte of a text gives text exactly when that byte was not 0x7F, the last ASCII
      one, nor 0xBF, the last a longer character can end with. */
  lemma {:induction false} RaisedIsTextIff(g: Bytes)
    requires g != [] && Text(g)
    ensures g[|g| - 1] < 255 && (Text(Raised(g)) <==> g[|g| - 1] != 0x7F && g[|g| - 1] != 0xBF)
    decreases |g|
  {
    var n := CharLen(g);
    if n == |g| {
      OneCharRaised(g);
    } else {
      RaisedIsTextIff(g[n..]);
      RaisedTail(g, n);
      CharAlone(g);
      FirstChar(g[..n], Raised(g[n..]));
    }
  }

  lemma RaisedTail(g: Bytes, n: nat)
    requires n < |g| && g[|g| - 1] < 255
    ensures Raised(g) == g[..n] + Raised(g[n..])
  {
  }

  lemma CharAlone(b: Bytes)
    requires CharLen(b) > 0
    ensures CharLen(b[..CharLen(b)]) == CharLen(b)
  {
    CharStands(b, []);
    assert b[..CharLen(b)] + [] == b[..CharLen(b)];
  }

  /** A text found inside a text lies between its characters: what is up to its end is text. */
  lemma {:induction false} CutIsText(k: Bytes, i: nat, d: Bytes)
    requires Text(k) && Text(d) && d != [] && i + |d| <= |k| && k[i..i + |d|] == d
    ensures Text(k[..i + |d|])
    decreases |k|
  {
    hide CharLen, Continues;
    if i == 0 {
      assert k[..|d|] == d;
    } else {
      var n := CharLen(k);
      assert k[i] == d[0];
      TextStarts(d);
      StartIsOutside(k, i);
      WindowAfter(k, n, i, i + |d|);
      CutIsText(k[n..], i - n, d);
      CutTail(k, n, i + |d|);
      CharAlone(k);
      FirstChar(k[..n], k[n..][..i - n + |d|]);
    }
  }

  /** No text starts with a byte that continues a character, */
  lemma TextStarts(d: Bytes)
    requires Text(d) && d != []
    ensures !Continues(d[0])
  {
  }

  /** and within a character every byte but the first does continue it. */
  lemma StartIsOutside(k: Bytes, i: nat)
    requires 0 < i < |k| && !Continues(k[i])
    ensures CharLen(k) <= i
  {
  }

  lemma WindowAfter(k: Bytes, n: nat, from: nat, to: nat)
    requires n <= from <= to <= |k|
    ensures k[n..][from - n..to - n] == k[from..to]
  {
  }

  lemma CutTail(k: Bytes, n: nat, m: nat)
    requires n <= m <= |k|
    ensures k[..m] == k[..n] + k[n..][..m - n]
  {
  }
}
