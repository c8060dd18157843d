/** The base-100 wire form of a decimal number: exponent byte, then pairs of digits from the top. */
module Orcl {
  import opened Decimal
  import opened Numerics

  // ----- pairs of digits, lowest first

  ghost function PairUp(s: seq<nat>): (h: seq<nat>)
    ensures |h| == (|s| + 1) / 2
  {
    if |s| == 0 then []
    else if |s| == 1 then [s[0]]
    else [s[0] + 10 * s[1]] + PairUp(s[2..])
  }

  ghost function Val100(h: seq<nat>): nat { ValIn(100, h) }

  ghost predicate Pairs(h: seq<nat>) { InBase(100, h) }

  lemma {:induction false} PairUpVal(s: seq<nat>)
    requires Digits(s)
    ensures Val100(PairUp(s)) == Val(s) && Pairs(PairUp(s))
  {
    if |s| >= 2 {
      PairUpVal(s[2..]);
      assert s[1..][1..] == s[2..];
      assert PairUp(s)[1..] == PairUp(s[2..]);
      assert Val(s[1..]) == s[1] + 10 * Val(s[2..]);
    } else if |s| == 1 {
      assert s[1..] == [];
    }
  }

  lemma {:induction false} PairUpAt(s: seq<nat>, i: nat)
    requires i < (|s| + 1) / 2
    ensures PairUp(s)[i] == s[2 * i] + if 2 * i + 1 < |s| then 10 * s[2 * i + 1] else 0
  {
    if |s| >= 2 && i > 0 {
      var t, j := s[2..], i - 1;
      PairUpAt(t, j);
      assert PairUp(s)[i] == PairUp(t)[j];
      assert t[2 * j] == s[2 * i];
    }
  }

  /** Each zero pair below counts a hundredfold. */
  lemma {:induction false} PairsBelow(k: nat, h: seq<nat>)
    ensures Val100(Zeros(k) + h) == Pow10(2 * k) * Val100(h)
  {
    if k == 0 {
      assert Zeros(0) + h == h;
    } else {
      assert (Zeros(k) + h)[1..] == Zeros(k - 1) + h;
      PairsBelow(k - 1, h);
      assert Pow10(2 * k) == 10 * Pow10(2 * k - 1) == 10 * (10 * Pow10(2 * (k - 1)));
      HundredTimes(Pow10(2 * (k - 1)), Val100(h));
    }
  }

  lemma HundredTimes(p: nat, v: nat)
    ensures 100 * (p * v) == (10 * (10 * p)) * v
  {}

  // ----- the bytes

  /** A pair as it is stored: one more than its value, or 101 less its value in a negative number. */
  function Byte(neg: bool, pair: int): int { if neg then 101 - pair else pair + 1 }

  /** The byte that ends a number of fewer than 20 pairs. */
  function Tail(neg: bool): int { if neg then 102 else 0 }

  /** Bytes from..to hold their pairs; byte q holds the pair of place |h| - q. */
  ghost predicate Stored(buf: seq<int>, neg: bool, h: seq<nat>, from: int, to: int) {
    1 <= from && to <= |h| && to < |buf| && forall q :: from <= q <= to ==> buf[q] == Byte(neg, h[|h| - q])
  }

  /** The bytes of a number with exponent e and pairs h, from the top, up to what follows the last pair. */
  ghost predicate Begins(buf: seq<int>, neg: bool, e: int, h: seq<nat>) {
    && |buf| >= 22 && 1 <= |h| <= 20 && -20 <= e <= 20
    && buf[0] == (if neg then 62 - e else 193 + e)
    && Stored(buf, neg, h, 1, |h|)
  }

  ghost predicate Encoding(buf: seq<int>, neg: bool, e: int, h: seq<nat>) {
    Begins(buf, neg, e, h) && (|h| < 20 ==> buf[1 + |h|] == Tail(neg))
  }

  /** Up to twenty pairs, the leading one not zero. */
  ghost predicate Leading(h: seq<nat>) { Pairs(h) && 1 <= |h| <= 20 && h[|h| - 1] != 0 }

  /** The digits with the fraction filled up to an even count, and the whole part too. */
  ghost function Even(digits: seq<nat>, scale: nat): (s: seq<nat>)
    ensures |s| == scale % 2 + |digits| + (|digits| - scale) % 2 && |s| % 2 == 0
  {
    Zeros(scale % 2) + digits + Zeros((|digits| - scale) % 2)
  }

  /** The power of a hundred at which the leading pair of n digits stands. */
  ghost function Exponent(n: nat, scale: nat): int { (n - scale - 1) / 2 }

  /** What persist_orcl writes for it: in a number below one it is one too high. */
  ghost function WrittenExponent(n: nat, scale: nat): int { Exponent(n, scale) + if n > scale then 0 else 1 }

  /** The digits without the zeros at the top. */
  ghost function Top(digits: seq<nat>): (n: nat)
    ensures n <= |digits| && (n > 0 ==> digits[n - 1] != 0) && forall i :: n <= i < |digits| ==> digits[i] == 0
  {
    if digits == [] || digits[|digits| - 1] != 0 then |digits| else Top(digits[..|digits| - 1])
  }

  /** The digits that are written: without the zeros behind the point of a number below one. */
  ghost function Front(digits: seq<nat>, scale: nat): seq<nat> {
    if scale < |digits| then digits else digits[..Top(digits)]
  }

  ghost predicate EncodesNumber(buf: seq<int>, neg: bool, digits: seq<nat>, scale: nat) {
    var d := Front(digits, scale);
    Encoding(buf, neg, WrittenExponent(|d|, scale), PairUp(Even(d, scale)))
  }

  /** The bytes written for y go on where those written for x, equal so far, have ended. */
  ghost predicate GoesOn(dx: seq<nat>, sx: nat, dy: seq<nat>, sy: nat) {
    var x, y := Front(dx, sx), Front(dy, sy);
    Continues(PairUp(Even(x, sx)), WrittenExponent(|x|, sx), PairUp(Even(y, sy)), WrittenExponent(|y|, sy))
  }

  /** r is a result of compare_orcl on the bytes written for two numbers of the same sign. */
  ghost predicate WrittenOrder(dx: seq<nat>, sx: nat, dy: seq<nat>, sy: nat, neg: bool, r: int) {
    var x, y := Front(dx, sx), Front(dy, sy);
    OrderOf(PairUp(Even(x, sx)), WrittenExponent(|x|, sx), PairUp(Even(y, sy)), WrittenExponent(|y|, sy), neg, r)
  }

  /** A number below one with a single digit behind the zeros, at an odd place: 0.1 or 0.001. */
  ghost predicate Overruns(digits: seq<nat>, scale: nat) {
    scale >= |digits| && Top(digits) == 1 && scale % 2 == 1
  }

  datatype Persisted = Encoded | TooLong | OutOfBuffer

  method IsZero(x: Numeric) returns (r: bool)
    requires x.Valid()
    ensures r <==> Val(x.Num()) == 0
  {
    AllZero(10, x.Num());
    var index := 0;
    while index < x.precision
      invariant index <= x.precision && forall i :: 0 <= i < index ==> x.vec[i] == 0
    {
      if x.vec[index] != 0 {
        assert x.Num()[index] != 0;
        return false;
      }
      index := index + 1;
    }
    return true;
  }

  // The pairs below the leading one, from the lowest whole pair of digits up, then the filled-up last pair.
  method WriteMantissa(d: seq<nat>, scale: nat, neg: bool, buf: array<int>, length0: nat, tailZero: nat) returns (length: nat)
    requires tailZero == scale % 2 && buf.Length >= 22 && 2 * length0 + tailZero <= |d| && d != []
    requires |PairUp(Even(d, scale))| == length0 + 1 + tailZero <= 20
    modifies buf
    ensures length == length0 + tailZero && buf[0] == old(buf[0]) && buf[1] == old(buf[1])
    ensures Stored(buf[..], neg, PairUp(Even(d, scale)), 2, length + 1)
  {
    length := length0;
    WriteWholePairs(d, scale, neg, buf, length, tailZero);
    if tailZero != 0 {
      length := length + 1;
      var result := d[0] * 10;
      PairUpAt(Even(d, scale), 0);
      buf[length + 1] := Byte(neg, result);
    }
  }

  method WriteWholePairs(d: seq<nat>, scale: nat, neg: bool, buf: array<int>, length: nat, lower: nat)
    requires lower == scale % 2 && buf.Length >= 22 && 2 * length + lower <= |d|
    requires |PairUp(Even(d, scale))| == length + 1 + lower <= 20
    modifies buf
    ensures forall q :: 0 <= q < buf.Length && (q < 2 || q > length + 1) ==> buf[q] == old(buf[q])
    ensures Stored(buf[..], neg, PairUp(Even(d, scale)), 2, length + 1)
  {
    ghost var h := PairUp(Even(d, scale));
    var index: nat := 0;
    while index < length
      invariant index <= length
      invariant forall q :: 0 <= q < buf.Length && (q < 2 || q > length + 1) ==> buf[q] == old(buf[q])
      invariant forall q :: length - index + 2 <= q <= length + 1 ==> buf[q] == Byte(neg, h[|h| - q])
    {
      var result := d[2 * index + lower] + d[2 * index + 1 + lower] * 10;
      InnerPair(d, scale, index);
      buf[length - index + 1] := Byte(neg, result);
      index := index + 1;
    }
  }

  lemma InnerPair(d: seq<nat>, scale: nat, i: nat)
    requires 2 * i + 1 + scale % 2 < |d|
    ensures var h, t := PairUp(Even(d, scale)), scale % 2;
      i + t < |h| && h[i + t] == d[2 * i + t] + d[2 * i + 1 + t] * 10
  {
    PairUpAt(Even(d, scale), i + scale % 2);
  }

  // The leading pair: one digit or two.
  method LeadingPair(d: seq<nat>, scale: nat, oddBase: bool) returns (base: nat)
    requires d != [] && oddBase == ((|d| + scale % 2) % 2 != 0) && (!oddBase ==> |d| > 1)
    ensures PairUp(Even(d, scale)) != [] && base == PairUp(Even(d, scale))[|PairUp(Even(d, scale))| - 1]
  {
    base := if oddBase then d[|d| - 1] else d[|d| - 1] * 10 + d[|d| - 2];
    LastPair(d, scale);
  }

  lemma LastPair(d: seq<nat>, scale: nat)
    requires d != []
    ensures var h := PairUp(Even(d, scale));
      h != [] && h[|h| - 1] == if (|d| + scale % 2) % 2 != 0 then d[|d| - 1]
        else d[|d| - 1] * 10 + if |d| > 1 then d[|d| - 2] else 0
  {
    var s := Even(d, scale);
    SameParity(|d|, scale);
    PairUpAt(s, |PairUp(s)| - 1);
  }

  lemma SameParity(n: nat, scale: nat)
    ensures (n - scale) % 2 == (n + scale % 2) % 2
  {}

  // C++ division by two.
  function Halved(a: int): int { if a >= 0 then a / 2 else -(-a / 2) }

  // persist_orcl. On a number below one with a single digit at an odd place it reads in front of its digits and then
  // writes on and on.
  method PersistOrcl(x: Numeric, neg: bool, buf: array<int>) returns (r: Persisted)
    requires x.Valid() && buf.Length >= 22
    modifies buf
    ensures r == TooLong <==> x.precision > 38
    ensures r == OutOfBuffer <==> x.precision <= 38 && Val(x.Num()) != 0 && Overruns(x.Num(), x.scale)
    ensures r == Encoded && Val(x.Num()) == 0 ==> buf[0] == 128
    ensures r == Encoded && Val(x.Num()) != 0 ==> EncodesNumber(buf[..], neg, x.Num(), x.scale)
  {
    if x.precision > 38 {
      return TooLong;
    }
    var zero := IsZero(x);
    if zero {
      buf[0] := 128;
      buf[1] := 0;
      return Encoded;
    }
    var moved := Moved(x);
    r := PersistDigits(x.vec[..moved], x.scale, neg, buf);
  }

  // The digits that count, without the zeros after the point of a number below one.
  method Moved(x: Numeric) returns (moved: nat)
    requires x.Valid() && Val(x.Num()) != 0
    ensures 0 < moved <= x.precision && x.vec[..moved] == Front(x.Num(), x.scale)
  {
    AllZero(10, x.Num());
    moved := x.precision;
    if x.scale != 0 && x.precision == x.scale {
      while x.vec[moved - 1] == 0
        invariant 0 < moved <= x.precision && forall i :: moved <= i < x.precision ==> x.vec[i] == 0
        decreases moved
      {
        assert moved > 1;
        moved := moved - 1;
      }
      TopIs(x.Num(), moved);
    }
  }

  lemma {:induction false} TopIs(digits: seq<nat>, n: nat)
    requires 0 < n <= |digits| && digits[n - 1] != 0 && forall i :: n <= i < |digits| ==> digits[i] == 0
    ensures Top(digits) == n && digits[..n] == digits[..Top(digits)]
  {
    assert forall i :: Top(digits) <= i < |digits| ==> digits[i] == 0;
  }

  // The sizes, and the bytes after that.
  method PersistDigits(d: seq<nat>, scale: nat, neg: bool, buf: array<int>) returns (r: Persisted)
    requires 0 < |d| <= 38 && scale <= 38 && buf.Length >= 22
    modifies buf
    ensures r == OutOfBuffer <==> |d| == 1 && scale % 2 == 1
    ensures r != OutOfBuffer ==>
      r == Encoded && Encoding(buf[..], neg, WrittenExponent(|d|, scale), PairUp(Even(d, scale)))
  {
    var tailZero, scaleMoved := 0, 0;
    if scale != 0 {
      tailZero := scale % 2;
      scaleMoved := scale + tailZero;
    }
    var oddBase := (|d| + tailZero) % 2 != 0;
    var exponent := Halved(|d| + tailZero - (if oddBase then 0 else 1) - scaleMoved);
    if !oddBase && |d| < 2 {
      return OutOfBuffer;
    }
    ExponentWritten(|d|, scale);
    WritePairs(d, scale, neg, buf, oddBase, exponent, tailZero);
    return Encoded;
  }

  lemma ExponentWritten(n: nat, scale: nat)
    requires n > 0
    ensures var t := scale % 2; var odd := (n + t) % 2 != 0;
      Halved(n + t - (if odd then 0 else 1) - (scale + t)) == WrittenExponent(n, scale)
  {
    SameParity(n, scale);
  }

  method WritePairs(d: seq<nat>, scale: nat, neg: bool, buf: array<int>, oddBase: bool, exponent: int, tailZero: nat)
    requires 0 < |d| <= 38 && scale <= 38 && buf.Length >= 22 && (!oddBase ==> |d| > 1)
    requires tailZero == scale % 2 && oddBase == ((|d| + tailZero) % 2 != 0)
    requires exponent == WrittenExponent(|d|, scale)
    modifies buf
    ensures Encoding(buf[..], neg, exponent, PairUp(Even(d, scale)))
  {
    var base := LeadingPair(d, scale, oddBase);
    buf[1] := Byte(neg, base);
    buf[0] := if neg then 62 - exponent else exponent + 193;
    var length := InnerPairs(|d|, oddBase, tailZero, scale);
    length := WriteMantissa(d, scale, neg, buf, length, tailZero);
    ghost var written := buf[..];
    if length < 19 {
      buf[length + 2] := Tail(neg);
    }
    Finished(written, neg, exponent, PairUp(Even(d, scale)), buf[..]);
  }

  // How many whole pairs follow the leading one.
  method InnerPairs(moved: nat, oddBase: bool, tailZero: nat, ghost scale: nat) returns (length: nat)
    requires 0 < moved <= 38 && tailZero == scale % 2 && oddBase == ((moved + tailZero) % 2 != 0) && (!oddBase ==> moved > 1)
    ensures length + 1 + tailZero == (scale % 2 + moved + (moved - scale) % 2 + 1) / 2 <= 20
    ensures 2 * length + tailZero <= moved
  {
    SameParity(moved, scale);
    var upper := moved - (if oddBase then 1 else 2);
    length := (upper - tailZero) / 2;
  }

  /** With the first two bytes, the other pairs and the tail in place the number is written. */
  lemma Finished(b: seq<int>, neg: bool, e: int, h: seq<nat>, b': seq<int>)
    requires |b| >= 22 && 1 <= |h| <= 20 && -20 <= e <= 20
    requires b[0] == (if neg then 62 - e else 193 + e) && b[1] == Byte(neg, h[|h| - 1])
    requires |h| == 1 || Stored(b, neg, h, 2, |h|)
    requires b' == if |h| < 20 then b[1 + |h| := Tail(neg)] else b
    ensures Encoding(b', neg, e, h)
  {}

  // ----- comparing

  /** The pairs on a common grid of F fraction pairs. */
  ghost function Grid(h: seq<nat>, e: int, F: nat): (g: seq<nat>)
    requires |h| - 1 - e <= F
    ensures |g| == F + e + 1
  {
    Zeros(F - (|h| - 1 - e)) + h
  }

  function Signed(neg: bool, d: int): int { if neg then -d else d }

  ghost function SignOf(b: int): int { if b == 128 then 0 else if b >= 173 then 1 else -1 }

  method ReadSign(b: int) returns (sign: int)
    requires b == 128 || 173 <= b <= 213 || 42 <= b <= 82
    ensures sign == SignOf(b)
  {
    if b == 128 {
      sign := 0;
    } else if 173 <= b <= 213 {
      sign := 1;
    } else {
      sign := -1;
    }
  }

  /** One number continues where the other, equal so far, has ended. */
  ghost predicate Continues(h: seq<nat>, e: int, h': seq<nat>, e': int) {
    e == e' && |h| < |h'| && h'[|h'| - |h|..] == h
  }

  /** The top m + 1 pairs of both numbers agree. */
  ghost predicate Agree(hx: seq<nat>, hy: seq<nat>, m: nat) {
    m < |hx| && m < |hy| && hx[|hx| - 1 - m..] == hy[|hy| - 1 - m..]
  }

  /** After m + 1 pairs comes another pair, or the tail. */
  lemma NextByte(buf: seq<int>, neg: bool, e: int, h: seq<nat>, m: nat)
    requires Encoding(buf, neg, e, h) && Leading(h) && m < |h| && m < 19
    ensures buf[m + 2] != Tail(neg) <==> m + 1 < |h|
    ensures m + 1 < |h| ==> buf[m + 2] == Byte(neg, h[|h| - 2 - m])
  {}

  // The mantissa loop: the first difference, or how far both numbers go on together.
  method CommonPairs(x: seq<int>, y: seq<int>, neg: bool, ghost e: int, ghost hx: seq<nat>, ghost hy: seq<nat>)
    returns (r: int, m: nat)
    requires Encoding(x, neg, e, hx) && Encoding(y, neg, e, hy) && Leading(hx) && Leading(hy)
    requires Agree(hx, hy, 0)
    ensures m <= 19 && Agree(hx, hy, m)
    ensures if r == 0 then m + 1 == |hx| || m + 1 == |hy|
      else m + 1 < |hx| && m + 1 < |hy| && Cmp(hx[|hx| - 2 - m], hy[|hy| - 2 - m]) == Signed(neg, r)
  {
    r, m := 0, 0;
    while m < 19 && x[m + 2] != Tail(neg) && y[m + 2] != Tail(neg)
      invariant m <= 19 && Agree(hx, hy, m)
      decreases 19 - m
    {
      NextByte(x, neg, e, hx, m);
      NextByte(y, neg, e, hy, m);
      var xnext := if neg then 101 - x[m + 2] else x[m + 2] - 1;
      var ynext := if neg then 101 - y[m + 2] else y[m + 2] - 1;
      if xnext < ynext {
        return if neg then 1 else -1, m;
      } else if ynext < xnext {
        return if neg then -1 else 1, m;
      }
      AgreeStep(hx, hy, m);
      m := m + 1;
    }
  }

  lemma AgreeStep(hx: seq<nat>, hy: seq<nat>, m: nat)
    requires Agree(hx, hy, m) && m + 1 < |hx| && m + 1 < |hy| && hx[|hx| - 2 - m] == hy[|hy| - 2 - m]
    ensures Agree(hx, hy, m + 1)
  {
    assert hx[|hx| - 2 - m..] == [hx[|hx| - 2 - m]] + hx[|hx| - 1 - m..];
    assert hy[|hy| - 2 - m..] == [hy[|hy| - 2 - m]] + hy[|hy| - 1 - m..];
  }

  // The rest of compare_orcl after equal exponents and equal leading pairs.
  method ComparePairs(x: seq<int>, y: seq<int>, neg: bool, ghost e: int, ghost hx: seq<nat>, ghost hy: seq<nat>)
    returns (r: int)
    requires Encoding(x, neg, e, hx) && Encoding(y, neg, e, hy) && Leading(hx) && Leading(hy)
    requires Agree(hx, hy, 0)
    ensures OrderOf(hx, e, hy, e, neg, r)
  {
    var m;
    r, m := CommonPairs(x, y, neg, e, hx, hy);
    if r != 0 {
      DifferOrder(hx, hy, e, m, neg, r);
      return;
    }
    AgreeToTheEnd(hx, hy, e, m);
    EndOrder(hx, hy, e, neg);
    if m < 19 { NextByte(x, neg, e, hx, m); NextByte(y, neg, e, hy, m); }
    if m < 19 && y[m + 2] != Tail(neg) {
      return -1;
    }
    if m < 19 && x[m + 2] != Tail(neg) {
      return 1;
    }
    return 0;
  }

  /** r is the order of the two numbers on every grid, reversed between negative ones; but if one continues where the
      other has ended, that one comes out as the larger in any case. */
  ghost predicate OrderOf(hx: seq<nat>, ex: int, hy: seq<nat>, ey: int, neg: bool, r: int) {
    if Continues(hx, ex, hy, ey) then r == -1
    else if Continues(hy, ey, hx, ex) then r == 1
    else forall F :: |hx| - 1 - ex <= F && |hy| - 1 - ey <= F ==> r == Signed(neg, GridCmp(hx, ex, hy, ey, F))
  }

  ghost function GridCmp(hx: seq<nat>, ex: int, hy: seq<nat>, ey: int, F: nat): int
    requires |hx| - 1 - ex <= F && |hy| - 1 - ey <= F
  {
    Cmp(Val100(Grid(hx, ex, F)), Val100(Grid(hy, ey, F)))
  }

  /** The first differing pair decides, on every grid. */
  lemma GridDecides(hx: seq<nat>, hy: seq<nat>, e: int, m: nat)
    requires Leading(hx) && Leading(hy) && m + 1 < |hx| && m + 1 < |hy|
    requires Agree(hx, hy, m) && hx[|hx| - 2 - m] != hy[|hy| - 2 - m]
    ensures !Continues(hx, e, hy, e) && !Continues(hy, e, hx, e)
    ensures forall F :: |hx| - 1 - e <= F && |hy| - 1 - e <= F ==>
      GridCmp(hx, e, hy, e, F) == Cmp(hx[|hx| - 2 - m], hy[|hy| - 2 - m])
  {
    assert |hx| < |hy| ==> hy[|hy| - |hx|..][|hx| - 2 - m] == hy[|hy| - 2 - m];
    assert |hy| < |hx| ==> hx[|hx| - |hy|..][|hy| - 2 - m] == hx[|hx| - 2 - m];
    forall F | |hx| - 1 - e <= F && |hy| - 1 - e <= F
      ensures GridCmp(hx, e, hy, e, F) == Cmp(hx[|hx| - 2 - m], hy[|hy| - 2 - m])
    {
      if hx[|hx| - 2 - m] > hy[|hy| - 2 - m] {
        LargerPair(hx, hy, e, m, F);
      } else {
        LargerPair(hy, hx, e, m, F);
      }
    }
  }

  lemma DifferOrder(hx: seq<nat>, hy: seq<nat>, e: int, m: nat, neg: bool, r: int)
    requires Leading(hx) && Leading(hy) && m + 1 < |hx| && m + 1 < |hy| && r != 0
    requires Agree(hx, hy, m) && Cmp(hx[|hx| - 2 - m], hy[|hy| - 2 - m]) == Signed(neg, r)
    ensures OrderOf(hx, e, hy, e, neg, r)
  {
    GridDecides(hx, hy, e, m);
  }

  /** Where one number ends, the other goes on, or ends too. */
  lemma EndOrder(hx: seq<nat>, hy: seq<nat>, e: int, neg: bool)
    requires |hx| < |hy| <==> Continues(hx, e, hy, e)
    requires |hy| < |hx| <==> Continues(hy, e, hx, e)
    requires |hx| == |hy| ==> hx == hy
    ensures OrderOf(hx, e, hy, e, neg, Cmp(|hx|, |hy|))
  {}

  lemma LargerPair(hx: seq<nat>, hy: seq<nat>, e: int, m: nat, F: nat)
    requires Leading(hx) && Leading(hy) && m + 1 < |hx| && m + 1 < |hy| && |hx| - 1 - e <= F && |hy| - 1 - e <= F
    requires Agree(hx, hy, m) && hx[|hx| - 2 - m] > hy[|hy| - 2 - m]
    ensures Val100(Grid(hx, e, F)) > Val100(Grid(hy, e, F))
  {
    var a, b, i := Grid(hx, e, F), Grid(hy, e, F), F + e - 1 - m;
    assert a[i + 1..] == hx[|hx| - 1 - m..] && b[i + 1..] == hy[|hy| - 1 - m..];
    FirstDifference(100, a, b, i);
  }

  lemma AgreeToTheEnd(hx: seq<nat>, hy: seq<nat>, e: int, m: nat)
    requires Agree(hx, hy, m) && (m + 1 == |hx| || m + 1 == |hy|)
    ensures |hx| < |hy| <==> Continues(hx, e, hy, e)
    ensures |hy| < |hx| <==> Continues(hy, e, hx, e)
    ensures |hx| == |hy| ==> hx == hy
  {
    if |hx| <= |hy| {
      assert hx[|hx| - 1 - m..] == hx;
    }
    if |hy| <= |hx| {
      assert hy[|hy| - 1 - m..] == hy;
    }
  }

  lemma {:induction false} PairsTopZeros(h: seq<nat>, n: nat)
    ensures Val100(h + Zeros(n)) == Val100(h)
  {
    if h == [] {
      assert h + Zeros(n) == Zeros(n);
      AllZero(100, Zeros(n));
    } else {
      assert (h + Zeros(n))[1..] == h[1..] + Zeros(n);
      PairsTopZeros(h[1..], n);
    }
  }

  /** The larger exponent, and then the larger leading pair, makes the larger number. */
  lemma LeadDecides(h: seq<nat>, e: int, h': seq<nat>, e': int, F: nat)
    requires Leading(h) && Leading(h') && |h| - 1 - e <= F && |h'| - 1 - e' <= F
    requires e > e' || (e == e' && h[|h| - 1] > h'[|h'| - 1])
    ensures Val100(Grid(h, e, F)) > Val100(Grid(h', e', F))
  {
    PairsTopZeros(Grid(h', e', F), e - e');
    TopDecides(100, Grid(h, e, F), Grid(h', e', F) + Zeros(e - e'));
  }

  lemma LeadsDiffer(h: seq<nat>, e: int, h': seq<nat>, e': int)
    requires h != [] && h' != [] && (e != e' || h[|h| - 1] != h'[|h'| - 1])
    ensures !Continues(h, e, h', e')
  {
    assert e == e' && |h| < |h'| ==> h'[|h'| - |h|..][|h| - 1] == h'[|h'| - 1];
  }

  lemma LeadOrder(hx: seq<nat>, ex: int, hy: seq<nat>, ey: int, neg: bool, r: int)
    requires Leading(hx) && Leading(hy)
    requires ex != ey || hx[|hx| - 1] != hy[|hy| - 1]
    requires r == Signed(neg, if ex != ey then Cmp(ex, ey) else Cmp(hx[|hx| - 1], hy[|hy| - 1]))
    ensures OrderOf(hx, ex, hy, ey, neg, r)
  {
    LeadsDiffer(hx, ex, hy, ey);
    LeadsDiffer(hy, ey, hx, ex);
    forall F | |hx| - 1 - ex <= F && |hy| - 1 - ey <= F
      ensures r == Signed(neg, GridCmp(hx, ex, hy, ey, F))
    {
      if ex > ey || (ex == ey && hx[|hx| - 1] > hy[|hy| - 1]) {
        LeadDecides(hx, ex, hy, ey, F);
      } else {
        LeadDecides(hy, ey, hx, ex, F);
      }
    }
  }

  // compare_orcl on two encodings of the same sign, or on any bytes of different signs.
  method CompareOrcl(x: seq<int>, y: seq<int>, ghost neg: bool, ghost ex: int, ghost hx: seq<nat>, ghost ey: int, ghost hy: seq<nat>)
    returns (r: int)
    requires |x| >= 22 && |y| >= 22
    requires x[0] == 128 || 173 <= x[0] <= 213 || 42 <= x[0] <= 82
    requires y[0] == 128 || 173 <= y[0] <= 213 || 42 <= y[0] <= 82
    requires SignOf(x[0]) == SignOf(y[0]) != 0 ==>
      Encoding(x, neg, ex, hx) && Encoding(y, neg, ey, hy) && Leading(hx) && Leading(hy)
    ensures SignOf(x[0]) != SignOf(y[0]) || SignOf(x[0]) == 0 ==> r == Cmp(SignOf(x[0]), SignOf(y[0]))
    ensures SignOf(x[0]) == SignOf(y[0]) != 0 ==> OrderOf(hx, ex, hy, ey, neg, r)
  {
    var xsign := ReadSign(x[0]);
    var ysign := ReadSign(y[0]);
    if xsign == 0 && ysign == 0 {
      return 0;
    } else if xsign < ysign {
      return -1;
    } else if ysign < xsign {
      return 1;
    }
    var xexponent := (if xsign < 0 then 255 - x[0] else x[0]) - 193;
    var yexponent := (if ysign < 0 then 255 - y[0] else y[0]) - 193;
    if xexponent != yexponent {
      r := if xexponent < yexponent then (if xsign > 0 then -1 else 1) else (if xsign < 0 then -1 else 1);
      LeadOrder(hx, ex, hy, ey, neg, r);
      return;
    }
    assert x[1] == Byte(neg, hx[|hx| - 1]) && y[1] == Byte(neg, hy[|hy| - 1]);
    var xbase := if xsign < 0 then 101 - x[1] else x[1] - 1;
    var ybase := if ysign < 0 then 101 - y[1] else y[1] - 1;
    if xbase != ybase {
      r := if xbase < ybase then (if xsign > 0 then -1 else 1) else (if xsign < 0 then -1 else 1);
      LeadOrder(hx, ex, hy, ey, neg, r);
      return;
    }
    assert hx[|hx| - 1..] == [hx[|hx| - 1]] && hy[|hy| - 1..] == [hy[|hy| - 1]];
    r := ComparePairs(x, y, xsign < 0, ex, hx, hy);
  }

  // ----- what the order means

  /** One number continues where the other has ended, but only with zero pairs, and so is the same number. */
  ghost predicate Fills(h: seq<nat>, e: int, h': seq<nat>, e': int) {
    Continues(h, e, h', e') && forall i :: 0 <= i < |h'| - |h| ==> h'[i] == 0
  }

  /** A number that continues where the other has ended is the larger one, unless it does so with zero pairs. */
  lemma LongerGrid(h: seq<nat>, h': seq<nat>, e: int, F: nat)
    requires Leading(h) && Leading(h') && Continues(h', e, h, e) && |h| - 1 - e <= F
    ensures if Fills(h', e, h, e) then Val100(Grid(h, e, F)) == Val100(Grid(h', e, F))
      else Val100(Grid(h, e, F)) > Val100(Grid(h', e, F))
  {
    var k: nat := F - (|h| - 1 - e);
    var n := |h| - |h'|;
    assert Grid(h, e, F) == (Zeros(k) + h[..n]) + h' && Grid(h', e, F) == Zeros(k + n) + h';
    SameTop(100, Zeros(k) + h[..n], Zeros(k + n), h');
    AllZero(100, Zeros(k + n));
    ZeroBelow(k, h, n);
  }

  lemma ZeroBelow(k: nat, h: seq<nat>, n: nat)
    requires n <= |h|
    ensures Val100(Zeros(k) + h[..n]) == 0 <==> forall i :: 0 <= i < n ==> h[i] == 0
  {
    var low := Zeros(k) + h[..n];
    AllZero(100, low);
    assert forall i :: 0 <= i < n ==> h[i] == low[k + i];
  }

  /** For positive encodings compare_orcl gives the sign of the difference of what is encoded if and only if neither is
      the other one with zero pairs behind it. */
  lemma PositiveOrder(hx: seq<nat>, ex: int, hy: seq<nat>, ey: int, r: int, F: nat)
    requires Leading(hx) && Leading(hy) && |hx| - 1 - ex <= F && |hy| - 1 - ey <= F
    requires OrderOf(hx, ex, hy, ey, false, r)
    ensures r == GridCmp(hx, ex, hy, ey, F) <==> !Fills(hx, ex, hy, ey) && !Fills(hy, ey, hx, ex)
  {
    if Continues(hx, ex, hy, ey) { LongerGrid(hy, hx, ex, F); }
    if Continues(hy, ey, hx, ex) { LongerGrid(hx, hy, ex, F); }
  }

  /** For negative encodings it does so if and only if neither continues where the other has ended. */
  lemma NegativeOrder(hx: seq<nat>, ex: int, hy: seq<nat>, ey: int, r: int, F: nat)
    requires Leading(hx) && Leading(hy) && |hx| - 1 - ex <= F && |hy| - 1 - ey <= F
    requires OrderOf(hx, ex, hy, ey, true, r)
    ensures r == -GridCmp(hx, ex, hy, ey, F) <==> !Continues(hx, ex, hy, ey) && !Continues(hy, ey, hx, ex)
  {
    if Continues(hx, ex, hy, ey) { LongerGrid(hy, hx, ex, F); }
    if Continues(hy, ey, hx, ex) { LongerGrid(hx, hy, ex, F); }
  }

  // ----- what is written for a number

  ghost predicate NormalDigits(digits: seq<nat>, scale: nat) {
    && Digits(digits) && scale <= |digits| && 1 <= |digits| <= 38
    && (|digits| > scale ==> digits[|digits| - 1] != 0) && (scale > 0 ==> digits[0] != 0)
  }

  /** The encoding of a normal number has no zero pair in front, and none at the end behind the point. */
  lemma NumberTrimmed(digits: seq<nat>, scale: nat)
    requires NormalDigits(digits, scale)
    ensures var d := Front(digits, scale);
      var e, h := WrittenExponent(|d|, scale), PairUp(Even(d, scale));
      0 < |d| && Digits(d) && Leading(h) && -20 <= e < |h| && (|h| > e + 1 ==> h[0] != 0)
  {
    FrontEnds(digits, scale);
    PairEnds(Front(digits, scale), scale);
    EvenSizes(|Front(digits, scale)|, scale);
  }

  lemma PairEnds(d: seq<nat>, scale: nat)
    requires Digits(d) && d != [] && d[|d| - 1] != 0
    ensures var h := PairUp(Even(d, scale));
      Pairs(h) && h != [] && h[|h| - 1] != 0 && (d[0] != 0 ==> h[0] != 0)
  {
    PairUpVal(Even(d, scale));
    LastPair(d, scale);
    PairUpAt(Even(d, scale), 0);
  }

  lemma FrontEnds(digits: seq<nat>, scale: nat)
    requires NormalDigits(digits, scale)
    ensures var d := Front(digits, scale);
      && 0 < |d| <= |digits| && Digits(d) && d[|d| - 1] != 0 && (scale > 0 ==> d[0] != 0)
  {
    assert scale > 0 ==> Top(digits) > 0;
  }

  lemma EvenSizes(n: nat, scale: nat)
    requires 0 < n <= 38 && scale <= 38
    ensures var pairs, e := (scale % 2 + n + (n - scale) % 2 + 1) / 2, WrittenExponent(n, scale);
      1 <= pairs <= 20 && -20 <= e < pairs && (pairs > e + 1 ==> scale > 0)
  {}

  /** How often the number encoded is the number given: a number below one is encoded a hundredfold. */
  function Factor(digits: seq<nat>, scale: nat): nat { if scale < |digits| then 1 else 100 }

  /** On a grid of F fraction pairs stands that multiple of the number, in units of 10 to the power -2F. */
  lemma GridAmount(digits: seq<nat>, scale: nat, F: nat)
    requires NormalDigits(digits, scale) && scale <= 2 * F
    ensures var d := Front(digits, scale);
      var e, h := WrittenExponent(|d|, scale), PairUp(Even(d, scale));
      |h| - 1 - e <= F && Val100(Grid(h, e, F)) == Factor(digits, scale) * Amount(digits, scale, 2 * F)
  {
    var d := Front(digits, scale);
    FrontEnds(digits, scale);
    GridVal(d, scale, F);
    FrontVal(digits, scale);
    if scale >= |digits| { Hundredfold(2 * F - scale, Val(digits)); }
  }

  lemma GridVal(d: seq<nat>, scale: nat, F: nat)
    requires 0 < |d| && Digits(d) && scale <= 2 * F
    ensures var e, h := WrittenExponent(|d|, scale), PairUp(Even(d, scale));
      |h| - 1 - e <= F && Val100(Grid(h, e, F)) == Pow10(2 * F - scale + if |d| > scale then 0 else 2) * Val(d)
  {
    var k := GridBelow(|d|, scale, F);
    PairedVal(d, scale);
    PairsPlaced(k, PairUp(Even(d, scale)), scale % 2, Val(d));
  }

  lemma PairsPlaced(k: nat, h: seq<nat>, m: nat, v: nat)
    requires Val100(h) == Pow10(m) * v
    ensures Val100(Zeros(k) + h) == Pow10(2 * k + m) * v
  {
    PairsBelow(k, h);
    Pow10Sum(2 * k, m, v);
  }

  lemma FrontVal(digits: seq<nat>, scale: nat)
    ensures Val(Front(digits, scale)) == Val(digits)
  {
    var n := Top(digits);
    assert digits == Zeros(0) + digits[..n] + Zeros(|digits| - n);
    ValPadded(0, digits[..n], |digits| - n);
  }

  lemma Hundredfold(n: nat, v: nat)
    ensures Pow10(n + 2) * v == 100 * (Pow10(n) * v)
  {
    assert Pow10(n + 2) == 10 * (10 * Pow10(n));
    HundredTimes(Pow10(n), v);
  }

  lemma PairedVal(d: seq<nat>, scale: nat)
    requires Digits(d)
    ensures Val100(PairUp(Even(d, scale))) == Pow10(scale % 2) * Val(d)
  {
    PairUpVal(Even(d, scale));
    ValPadded(scale % 2, d, (|d| - scale) % 2);
  }

  /** How many zero pairs stand below the number on a grid of F fraction pairs. */
  lemma GridBelow(n: nat, scale: nat, F: nat) returns (k: nat)
    requires 0 < n && scale <= 2 * F
    ensures var pairs, e := (scale % 2 + n + (n - scale) % 2 + 1) / 2, WrittenExponent(n, scale);
      pairs - 1 - e <= F && k == F - (pairs - 1 - e) && 2 * k + scale % 2 == 2 * F - scale + if n > scale then 0 else 2
  {
    FractionPairs(n, scale);
    var pairs, e := (scale % 2 + n + (n - scale) % 2 + 1) / 2, WrittenExponent(n, scale);
    k := F - (pairs - 1 - e);
  }

  lemma FractionPairs(n: nat, scale: nat)
    requires 0 < n
    ensures 2 * ((scale % 2 + n + (n - scale) % 2 + 1) / 2 - 1 - Exponent(n, scale)) == scale + scale % 2
  {
    SameParity(n, scale);
  }

  lemma AmountScaled(digits: seq<nat>, scale: nat, S: nat)
    requires scale <= S
    ensures Amount(digits, scale, 2 * S) == Pow10(S) * Amount(digits, scale, S)
  {
    Pow10Sum(S, S - scale, Val(digits));
  }

  lemma CmpScaled(p: nat, a: nat, b: nat)
    requires p > 0
    ensures Cmp(p * a, p * b) == Cmp(a, b)
  {
    if a > b { assert p * (a - b) > 0; }
    if a < b { assert p * (b - a) > 0; }
  }

  /** A positive number comes out on the right side of another if and only if both or neither are below one, or a
      hundred times the one below one is still below the other. */
  ghost predicate PositiveRight(dx: seq<nat>, sx: nat, dy: seq<nat>, sy: nat) {
    var ax, ay := Amount(dx, sx, Max(sx, sy)), Amount(dy, sy, Max(sx, sy));
    if sx < |dx| then sy < |dy| || 100 * ay < ax else sy >= |dy| || 100 * ax < ay
  }

  /** A negative one does, with both or neither below one, if and only if neither goes on where the other has ended;
      else if the one below one goes on, or is still nearer to zero than the other when taken a hundredfold and the
      other does not go on. */
  ghost predicate NegativeRight(dx: seq<nat>, sx: nat, dy: seq<nat>, sy: nat) {
    var ax, ay := Amount(dx, sx, Max(sx, sy)), Amount(dy, sy, Max(sx, sy));
    var onY, onX := GoesOn(dx, sx, dy, sy), GoesOn(dy, sy, dx, sx);
    if (sx < |dx|) == (sy < |dy|) then !onY && !onX
    else if sx < |dx| then onY || (100 * ay < ax && !onX)
    else onX || (100 * ax < ay && !onY)
  }

  /** Encoded positive numbers are compared as what is encoded, which is not always the sign of the difference. */
  lemma OrderIsDifference(dx: seq<nat>, sx: nat, dy: seq<nat>, sy: nat, r: int)
    requires NormalDigits(dx, sx) && NormalDigits(dy, sy) && WrittenOrder(dx, sx, dy, sy, false, r)
    ensures var ax, ay := Amount(dx, sx, Max(sx, sy)), Amount(dy, sy, Max(sx, sy));
      && r == Cmp(Factor(dx, sx) * ax, Factor(dy, sy) * ay)
      && (r == Cmp(ax, ay) <==> PositiveRight(dx, sx, dy, sy))
  {
    var S := Max(sx, sy);
    EncodedOrder(dx, sx, dy, sy, r, S);
    AmountScaled(dx, sx, S);
    AmountScaled(dy, sy, S);
    Pow10Positive(S);
    FactorScaled(Pow10(S), Factor(dx, sx), Amount(dx, sx, S), Factor(dy, sy), Amount(dy, sy, S));
    SideOfOne(dx, sx, S);
    SideOfOne(dy, sy, S);
    FactorOrder(Pow10(S), sx < |dx|, Amount(dx, sx, S), sy < |dy|, Amount(dy, sy, S));
  }

  lemma FactorOrder(one: nat, wholeX: bool, ax: nat, wholeY: bool, ay: nat)
    requires if wholeX then one <= ax else 0 < ax < one
    requires if wholeY then one <= ay else 0 < ay < one
    ensures Cmp((if wholeX then 1 else 100) * ax, (if wholeY then 1 else 100) * ay) == Cmp(ax, ay) <==>
      if wholeX then wholeY || 100 * ay < ax else !wholeY || 100 * ax < ay
  {}

  lemma EncodedOrder(dx: seq<nat>, sx: nat, dy: seq<nat>, sy: nat, r: int, F: nat)
    requires NormalDigits(dx, sx) && NormalDigits(dy, sy) && sx <= 2 * F && sy <= 2 * F
    requires WrittenOrder(dx, sx, dy, sy, false, r)
    ensures r == Cmp(Factor(dx, sx) * Amount(dx, sx, 2 * F), Factor(dy, sy) * Amount(dy, sy, 2 * F))
  {
    var x, y := Front(dx, sx), Front(dy, sy);
    GridAmount(dx, sx, F);
    GridAmount(dy, sy, F);
    NumberTrimmed(dx, sx);
    NumberTrimmed(dy, sy);
    PositiveOrder(PairUp(Even(x, sx)), WrittenExponent(|x|, sx), PairUp(Even(y, sy)), WrittenExponent(|y|, sy), r, F);
  }

  /** Encoded negative numbers are compared in the reverse order of what is encoded, unless one goes on where the other
      has ended. */
  lemma NegativeIsDifference(dx: seq<nat>, sx: nat, dy: seq<nat>, sy: nat, r: int)
    requires NormalDigits(dx, sx) && NormalDigits(dy, sy) && WrittenOrder(dx, sx, dy, sy, true, r)
    ensures var ax, ay := Amount(dx, sx, Max(sx, sy)), Amount(dy, sy, Max(sx, sy));
      && r == (if GoesOn(dx, sx, dy, sy) then -1 else if GoesOn(dy, sy, dx, sx) then 1
               else -Cmp(Factor(dx, sx) * ax, Factor(dy, sy) * ay))
      && (r == -Cmp(ax, ay) <==> NegativeRight(dx, sx, dy, sy))
  {
    var S := Max(sx, sy);
    EncodedNegative(dx, sx, dy, sy, r, S);
    AmountScaled(dx, sx, S);
    AmountScaled(dy, sy, S);
    Pow10Positive(S);
    FactorScaled(Pow10(S), Factor(dx, sx), Amount(dx, sx, S), Factor(dy, sy), Amount(dy, sy, S));
    SideOfOne(dx, sx, S);
    SideOfOne(dy, sy, S);
    FactorReversed(Pow10(S), sx < |dx|, Amount(dx, sx, S), sy < |dy|, Amount(dy, sy, S),
                   GoesOn(dx, sx, dy, sy), GoesOn(dy, sy, dx, sx), r);
  }

  lemma FactorReversed(one: nat, wholeX: bool, ax: nat, wholeY: bool, ay: nat, onY: bool, onX: bool, r: int)
    requires if wholeX then one <= ax else 0 < ax < one
    requires if wholeY then one <= ay else 0 < ay < one
    requires !(onX && onY) && (onY ==> r == -1) && (onX ==> r == 1)
    requires r == -Cmp((if wholeX then 1 else 100) * ax, (if wholeY then 1 else 100) * ay) <==> !onX && !onY
    ensures r == -Cmp(ax, ay) <==>
      if wholeX == wholeY then !onY && !onX
      else if wholeX then onY || (100 * ay < ax && !onX)
      else onX || (100 * ax < ay && !onY)
  {}

  lemma EncodedNegative(dx: seq<nat>, sx: nat, dy: seq<nat>, sy: nat, r: int, F: nat)
    requires NormalDigits(dx, sx) && NormalDigits(dy, sy) && sx <= 2 * F && sy <= 2 * F
    requires WrittenOrder(dx, sx, dy, sy, true, r)
    ensures !(GoesOn(dx, sx, dy, sy) && GoesOn(dy, sy, dx, sx))
    ensures (GoesOn(dx, sx, dy, sy) ==> r == -1) && (GoesOn(dy, sy, dx, sx) ==> r == 1)
    ensures r == -Cmp(Factor(dx, sx) * Amount(dx, sx, 2 * F), Factor(dy, sy) * Amount(dy, sy, 2 * F)) <==>
      !GoesOn(dx, sx, dy, sy) && !GoesOn(dy, sy, dx, sx)
  {
    var x, y := Front(dx, sx), Front(dy, sy);
    GridAmount(dx, sx, F);
    GridAmount(dy, sy, F);
    NumberTrimmed(dx, sx);
    NumberTrimmed(dy, sy);
    NegativeOrder(PairUp(Even(x, sx)), WrittenExponent(|x|, sx), PairUp(Even(y, sy)), WrittenExponent(|y|, sy), r, F);
  }

  /** A normal number is below one exactly if it has no whole part. */
  lemma SideOfOne(digits: seq<nat>, scale: nat, S: nat)
    requires NormalDigits(digits, scale) && scale <= S
    ensures if scale < |digits| then Pow10(S) <= Amount(digits, scale, S) else 0 < Amount(digits, scale, S) < Pow10(S)
  {
    ValBound(digits);
    AllZero(10, digits);
    Pow10Add(S - scale, scale);
    Pow10Positive(S - scale);
    if scale < |digits| {
      Pow10Monotone(scale, |digits| - 1);
      Weighed(Pow10(S - scale), Pow10(scale), Val(digits));
    } else {
      WeighedBelow(Pow10(S - scale), Val(digits), Pow10(scale));
    }
  }

  lemma Pow10Add(a: nat, b: nat)
    ensures Pow10(a) * Pow10(b) == Pow10(a + b)
  {
    Pow10Sum(a, b, 1);
  }

  lemma WeighedBelow(p: nat, a: nat, b: nat)
    requires 0 < p && 0 < a < b
    ensures 0 < p * a < p * b
  {
    ZeroProduct(p, a);
    ZeroProduct(p, b - a);
    assert p * b == p * a + p * (b - a);
  }

  lemma Weighed(p: nat, a: nat, b: nat)
    requires a <= b
    ensures p * a <= p * b
  {
    assert p * (b - a) >= 0;
  }

  lemma FactorScaled(p: nat, f: nat, a: nat, g: nat, b: nat)
    requires p > 0
    ensures Cmp(f * (p * a), g * (p * b)) == Cmp(f * a, g * b)
  {
    assert f * (p * a) == p * (f * a) && g * (p * b) == p * (g * b);
    CmpScaled(p, f * a, g * b);
  }

  // ----- decoding

  // numeric(sb4_t) for a pair of digits
  method FromPair(v: nat) returns (x: Numeric)
    requires v < 100
    ensures fresh(x) && x.Valid() && x.scale == 0 && Val(x.Num()) == v && (v > 0 ==> x.Normal()) && |x.vec| == x.precision
  {
    x := new Numeric();
    if v < 10 {
      x.vec := [v];
      assert x.Num() == [v];
    } else {
      x.vec, x.precision := [v % 10, v / 10], 2;
      assert x.Num() == [v % 10] + [v / 10];
      assert x.Num()[1..] == [v / 10] && Val([v / 10]) == v / 10;
    }
  }

  /** No digits are left above the number. */
  ghost predicate Blank(x: Numeric)
    reads x
  {
    Numeric.Blank(x.vec, x.precision)
  }

  // tmp << 2, tmp += pair
  method AppendPair(tmp: Numeric, pair: nat)
    requires tmp.Valid() && tmp.scale == 0 && Val(tmp.Num()) > 0 && pair < 100
    modifies tmp
    ensures tmp.Valid() && tmp.scale == 0 && tmp.Normal() && Blank(tmp) && Val(tmp.Num()) == 100 * old(Val(tmp.Num())) + pair
  {
    tmp.ShiftLeft(2);
    assert Pow10(2) == 100 && Pow10(0) == 1;
    var x := FromPair(pair);
    var ok := tmp.AddAssign(x);
  }

  /** A byte no pair is stored as, nor the end of the pairs. */
  predicate Bad(neg: bool, b: int) { b > (if neg then 101 else 100) && b != Tail(neg) }

  ghost predicate Damaged(buf: seq<int>, neg: bool, h: seq<nat>)
    requires |buf| >= 22
  {
    |h| < 20 && Bad(neg, buf[1 + |h|])
  }

  /** Behind the pairs comes the end or a bad byte. */
  ghost predicate Readable(buf: seq<int>, neg: bool, e: int, h: seq<nat>) {
    Begins(buf, neg, e, h) && Leading(h) && (|h| < 20 ==> buf[1 + |h|] == Tail(neg) || Damaged(buf, neg, h))
  }

  /** The value with its point set: pairs behind the point count as fraction digits, missing ones as zeros. */
  ghost predicate Decodes(digits: seq<nat>, scale: nat, e: int, h: seq<nat>) {
    if e < |h| then scale <= 2 * (|h| - 1 - e) && Amount(digits, scale, 2 * (|h| - 1 - e)) == Val100(h)
    else scale == 0 && Val(digits) == Pow10(2 * (e + 1 - |h|)) * Val100(h)
  }

  // parse_orcl.
  method ParseOrcl(res: Numeric, buf: seq<int>, ghost neg: bool, ghost e: int, ghost h: seq<nat>)
    returns (ok: bool, negative: bool)
    requires |buf| >= 22 && res.Valid()
    requires 173 <= buf[0] <= 213 || 42 <= buf[0] <= 82 ==> Readable(buf, neg, e, h)
    modifies res
    ensures ok <==> buf[0] == 128 || ((173 <= buf[0] <= 213 || 42 <= buf[0] <= 82) && !Damaged(buf, neg, h))
    ensures buf[0] == 128 ==> res.Valid() && Val(res.Num()) == 0
    ensures ok && buf[0] != 128 ==> negative == neg && res.Valid() && res.Normal() && Decodes(res.Num(), res.scale, e, h)
  {
    negative := false;
    if buf[0] == 128 {
      var zero := new Numeric();
      assert zero.Num() == [0];
      res.Copy(zero);
      return true, false;
    } else if 173 <= buf[0] <= 213 {
      negative := false;
    } else if 42 <= buf[0] <= 82 {
      negative := true;
    } else {
      return false, false;
    }
    var tmp, mantissa;
    ok, tmp, mantissa := ReadPairs(buf, negative, e, h);
    if !ok {
      return;
    }
    var exponent := (if negative then 255 - buf[0] else buf[0]) - 193;
    SetPoint(tmp, mantissa, exponent, h);
    res.Copy(tmp);
  }

  // The loop of parse_orcl that collects the pairs.
  method ReadPairs(buf: seq<int>, negative: bool, ghost e: int, ghost h: seq<nat>)
    returns (ok: bool, tmp: Numeric, mantissa: nat)
    requires Readable(buf, negative, e, h)
    ensures ok <==> !Damaged(buf, negative, h)
    ensures fresh(tmp) && tmp.Valid() && tmp.scale == 0 && tmp.Normal() && Blank(tmp)
    ensures ok ==> mantissa + 1 == |h| && Val(tmp.Num()) == Val100(h)
  {
    tmp := ReadLeading(buf, negative, e, h);
    mantissa := 0;
    while mantissa < 19 && buf[mantissa + 2] != Tail(negative)
      invariant mantissa <= 19 && fresh(tmp) && tmp.Valid() && tmp.scale == 0 && tmp.Normal() && Blank(tmp)
      invariant SoFar(Val(tmp.Num()), h, mantissa)
      decreases 19 - mantissa
    {
      ByteThen(buf, negative, e, h, mantissa);
      if buf[mantissa + 2] > (if negative then 101 else 100) {
        ok := false;
        return;
      }
      ReadPair(tmp, buf, negative, mantissa, e, h);
      mantissa := mantissa + 1;
    }
    if mantissa < 19 { ByteThen(buf, negative, e, h, mantissa); }
    AllRead(Val(tmp.Num()), h, mantissa);
    ok := true;
  }

  /** After m + 1 pairs comes another pair, the end or a bad byte. */
  lemma ByteThen(buf: seq<int>, neg: bool, e: int, h: seq<nat>, m: nat)
    requires Readable(buf, neg, e, h) && m < |h| && m < 19
    ensures if m + 1 < |h| then buf[m + 2] == Byte(neg, h[|h| - 2 - m]) && buf[m + 2] != Tail(neg) && !Bad(neg, buf[m + 2])
      else buf[m + 2] == Tail(neg) || (Damaged(buf, neg, h) && Bad(neg, buf[m + 2]))
    ensures buf[m + 2] == Tail(neg) ==> !Bad(neg, buf[m + 2])
  {}

  method ReadLeading(buf: seq<int>, negative: bool, ghost e: int, ghost h: seq<nat>) returns (tmp: Numeric)
    requires Readable(buf, negative, e, h)
    ensures fresh(tmp) && tmp.Valid() && tmp.scale == 0 && tmp.Normal() && Blank(tmp) && SoFar(Val(tmp.Num()), h, 0)
  {
    assert buf[1] == Byte(negative, h[|h| - 1]);
    tmp := FromPair(if negative then 101 - buf[1] else buf[1] - 1);
    assert h[|h| - 1..] == [h[|h| - 1]];
  }

  method ReadPair(tmp: Numeric, buf: seq<int>, negative: bool, m: nat, ghost e: int, ghost h: seq<nat>)
    requires Readable(buf, negative, e, h) && m + 1 < |h| && buf[m + 2] == Byte(negative, h[|h| - 2 - m])
    requires tmp.Valid() && tmp.scale == 0 && SoFar(Val(tmp.Num()), h, m)
    modifies tmp
    ensures tmp.Valid() && tmp.scale == 0 && tmp.Normal() && Blank(tmp) && SoFar(Val(tmp.Num()), h, m + 1)
  {
    OnePairMore(Val(tmp.Num()), h, m);
    AppendPair(tmp, if negative then 101 - buf[m + 2] else buf[m + 2] - 1);
  }

  lemma AllRead(v: nat, h: seq<nat>, m: nat)
    requires SoFar(v, h, m) && m + 1 == |h|
    ensures v == Val100(h)
  {
    assert h[|h| - 1 - m..] == h;
  }

  /** v is the number formed by the top m + 1 pairs. */
  ghost predicate SoFar(v: nat, h: seq<nat>, m: nat) {
    m < |h| && v == Val100(h[|h| - 1 - m..]) > 0
  }

  lemma OnePairMore(v: nat, h: seq<nat>, m: nat)
    requires SoFar(v, h, m) && m + 1 < |h|
    ensures SoFar(100 * v + h[|h| - 2 - m], h, m + 1)
  {
    assert h[|h| - 2 - m..][1..] == h[|h| - 1 - m..];
  }

  // The exponent moves the point: zero pairs are added, or fraction digits, and cutjunk drops what does not count.
  method SetPoint(tmp: Numeric, mantissa: nat, exponent: int, ghost h: seq<nat>)
    requires tmp.Valid() && tmp.scale == 0 && tmp.Normal() && Blank(tmp) && -20 <= exponent <= 20
    requires mantissa + 1 == |h| && Val(tmp.Num()) == Val100(h) && Leading(h)
    modifies tmp
    ensures tmp.Valid() && tmp.Normal() && Decodes(tmp.Num(), tmp.scale, exponent, h)
  {
    var left := ShiftPairs(tmp, mantissa, exponent, h);
    FinishPoint(tmp, (mantissa - left) * 2);
    assert Pow10(0) == 1;
  }

  method ShiftPairs(tmp: Numeric, mantissa: nat, exponent: int, ghost h: seq<nat>) returns (left: int)
    requires tmp.Valid() && tmp.scale == 0 && tmp.Normal() && Blank(tmp)
    requires mantissa + 1 == |h| && Val(tmp.Num()) == Val100(h) && Leading(h)
    modifies tmp
    ensures tmp.Valid() && Blank(tmp) && left == (if exponent > mantissa then mantissa else exponent)
    ensures (mantissa - left) * 2 <= |tmp.vec|
    ensures Val(tmp.Num()) == (if exponent > mantissa then Pow10(2 * (exponent - mantissa)) * Val100(h) else Val100(h)) > 0
  {
    AllZero(100, h);
    left := exponent;
    if exponent > mantissa {
      left := AddPairs(tmp, mantissa, exponent, h);
    } else if exponent < 0 {
      MovePoint(tmp, mantissa, exponent);
    } else {
      ManyDigits(tmp.Num(), h);
    }
  }

  // tmp << 2 until the exponent has been used up.
  method AddPairs(tmp: Numeric, mantissa: nat, exponent: int, ghost h: seq<nat>) returns (left: int)
    requires tmp.Valid() && tmp.scale == 0 && Blank(tmp) && exponent > mantissa
    requires Val(tmp.Num()) == Val100(h) > 0
    modifies tmp
    ensures tmp.Valid() && tmp.scale == 0 && Blank(tmp) && left == mantissa
    ensures Val(tmp.Num()) == Pow10(2 * (exponent - mantissa)) * Val100(h) > 0
  {
    left := exponent;
    assert Pow10(0) == 1;
    while left > mantissa
      invariant mantissa <= left <= exponent && tmp.Valid() && tmp.scale == 0 && Blank(tmp)
      invariant Val(tmp.Num()) == Pow10(2 * (exponent - left)) * Val100(h)
    {
      tmp.ShiftLeft(2);
      Pow10Sum(2, 2 * (exponent - left), Val100(h));
      left := left - 1;
    }
    Pow10Positive(2 * (exponent - mantissa));
    ZeroProduct(Pow10(2 * (exponent - mantissa)), Val100(h));
  }

  // tmp >> 2 until the point stands where the exponent wants it.
  method MovePoint(tmp: Numeric, mantissa: nat, exponent: int)
    requires tmp.Valid() && tmp.scale == 0 && Blank(tmp) && exponent < 0
    modifies tmp
    ensures tmp.Valid() && tmp.scale == 2 * (mantissa - exponent) && Blank(tmp) && Val(tmp.Num()) == old(Val(tmp.Num()))
  {
    var shift: int := 0;
    while exponent < mantissa + shift
      invariant exponent <= mantissa + shift && shift <= 0 && tmp.Valid() && tmp.scale == -2 * shift && Blank(tmp)
      invariant Val(tmp.Num()) == old(Val(tmp.Num()))
    {
      tmp.ShiftRight(2);
      shift := shift - 1;
    }
  }

  method FinishPoint(tmp: Numeric, scale: nat)
    requires tmp.Valid() && Blank(tmp) && scale <= |tmp.vec| && Val(tmp.Num()) > 0
    modifies tmp
    ensures tmp.Valid() && tmp.Normal() && tmp.scale <= scale
    ensures Amount(tmp.Num(), tmp.scale, scale) == old(Val(tmp.Num()))
  {
    tmp.Widen(scale);
    AllZero(10, tmp.Num());
    var ok := tmp.Cutjunk();
  }

  /** A number with n pairs, the first not zero, has at least 2n - 1 digits. */
  lemma ManyDigits(d: seq<nat>, h: seq<nat>)
    requires Digits(d) && Val(d) == Val100(h) && h != [] && h[|h| - 1] != 0
    ensures |d| >= 2 * |h| - 1
  {
    ValBound(d);
    PairsAtLeast(h);
    if |d| < 2 * |h| - 1 { Pow10Monotone(|d|, 2 * (|h| - 1)); }
  }

  lemma {:induction false} PairsAtLeast(h: seq<nat>)
    requires h != [] && h[|h| - 1] != 0
    ensures Val100(h) >= Pow10(2 * (|h| - 1))
  {
    if |h| > 1 {
      PairsAtLeast(h[1..]);
      assert Pow10(2 * (|h| - 1)) == 100 * Pow10(2 * (|h| - 2));
    }
  }

  // ----- there and back

  /** What parse_orcl makes of the encoding of a number: the same digits and scale, or a hundred times the number if it
      is below one. */
  lemma RoundTrip(dx: seq<nat>, sx: nat, dr: seq<nat>, sr: nat)
    requires NormalDigits(dx, sx) && !Overruns(dx, sx) && Digits(dr) && sr <= |dr|
    requires (|dr| > sr ==> dr[|dr| - 1] != 0) && (sr > 0 ==> dr[0] != 0)
    requires var d := Front(dx, sx); Decodes(dr, sr, WrittenExponent(|d|, sx), PairUp(Even(d, sx)))
    ensures if sx < |dx| then dr == dx && sr == sx else sr <= sx && Amount(dr, sr, sx) == 100 * Val(dx)
  {
    Decoded(dx, sx, dr, sr);
    if sx < |dx| {
      NormalUnique(dx, sx, dr, sr, sx + sx % 2);
    } else {
      HundredTimesBack(sx, dr, sr, Val(dx));
    }
  }

  lemma Decoded(dx: seq<nat>, sx: nat, dr: seq<nat>, sr: nat)
    requires NormalDigits(dx, sx)
    requires var d := Front(dx, sx); Decodes(dr, sr, WrittenExponent(|d|, sx), PairUp(Even(d, sx)))
    ensures var S := sx + sx % 2 - if sx < |dx| then 0 else 2;
      sr <= S && Amount(dr, sr, S) == Pow10(sx % 2) * Val(dx)
  {
    DecodedPairs(dx, sx, dr, sr);
    WrittenVal(dx, sx);
  }

  lemma DecodedPairs(dx: seq<nat>, sx: nat, dr: seq<nat>, sr: nat)
    requires NormalDigits(dx, sx)
    requires var d := Front(dx, sx); Decodes(dr, sr, WrittenExponent(|d|, sx), PairUp(Even(d, sx)))
    ensures var S := sx + sx % 2 - if sx < |dx| then 0 else 2;
      sr <= S && Amount(dr, sr, S) == Val100(PairUp(Even(Front(dx, sx), sx)))
  {
    var d := Front(dx, sx);
    NumberTrimmed(dx, sx);
    WrittenPlaces(d, sx);
    DecodesAs(dr, sr, WrittenExponent(|d|, sx), PairUp(Even(d, sx)), sx + sx % 2 - if sx < |dx| then 0 else 2);
  }

  lemma DecodesAs(dr: seq<nat>, sr: nat, e: int, h: seq<nat>, S: int)
    requires Decodes(dr, sr, e, h) && e < |h| && S == 2 * (|h| - 1 - e)
    ensures sr <= S && Amount(dr, sr, S) == Val100(h)
  {}

  lemma WrittenPlaces(d: seq<nat>, scale: nat)
    requires d != []
    ensures 2 * (|PairUp(Even(d, scale))| - 1 - WrittenExponent(|d|, scale)) ==
      scale + scale % 2 - if |d| > scale then 0 else 2
  {
    FractionPairs(|d|, scale);
  }

  lemma WrittenVal(dx: seq<nat>, sx: nat)
    requires NormalDigits(dx, sx)
    ensures Val100(PairUp(Even(Front(dx, sx), sx))) == Pow10(sx % 2) * Val(dx)
  {
    FrontEnds(dx, sx);
    PairedVal(Front(dx, sx), sx);
    FrontVal(dx, sx);
  }

  lemma HundredTimesBack(sx: nat, dr: seq<nat>, sr: nat, v: nat)
    requires var S := sx + sx % 2 - 2; sr <= S && Amount(dr, sr, S) == Pow10(sx % 2) * v
    ensures sr <= sx && Amount(dr, sr, sx) == 100 * v
  {
    AmountUp(dr, sr, sx + sx % 2 - 2, sx);
    assert Pow10(2) == 10 * Pow10(1) && Pow10(1) == 10 * Pow10(0);
  }

  lemma AmountUp(digits: seq<nat>, scale: nat, S: nat, T: nat)
    requires scale <= S <= T
    ensures Amount(digits, scale, T) == Pow10(T - S) * Amount(digits, scale, S)
  {
    Pow10Sum(T - S, S - scale, Val(digits));
  }

  // A number is written and read.
  method ThereAndBack(x: Numeric, neg: bool) returns (r: Persisted, res: Numeric, negative: bool)
    requires x.Valid() && (Val(x.Num()) != 0 ==> x.Normal())
    ensures r == TooLong <==> x.precision > 38
    ensures r == OutOfBuffer <==> x.precision <= 38 && Val(x.Num()) != 0 && Overruns(x.Num(), x.scale)
    ensures r == Encoded ==> res.Valid()
    ensures r == Encoded && Val(x.Num()) == 0 ==> Val(res.Num()) == 0
    ensures r == Encoded && Val(x.Num()) != 0 ==> negative == neg
    ensures r == Encoded && Val(x.Num()) != 0 ==>
      if x.scale < x.precision then res.Num() == x.Num() && res.scale == x.scale
      else res.scale <= x.scale && Amount(res.Num(), res.scale, x.scale) == 100 * Val(x.Num())
  {
    var buf := new int[22](i => 0);
    res := new Numeric();
    negative := false;
    r := PersistOrcl(x, neg, buf);
    if r != Encoded {
      return;
    }
    var zero := IsZero(x);
    if !zero {
      AllZero(10, x.Num());
      res, negative := ReadBack(buf[..], neg, x.Num(), x.scale);
    } else {
      var ok;
      ok, negative := ParseOrcl(res, buf[..], neg, 0, []);
    }
  }

  method ReadBack(buf: seq<int>, ghost neg: bool, ghost dx: seq<nat>, ghost sx: nat) returns (res: Numeric, negative: bool)
    requires NormalDigits(dx, sx) && !Overruns(dx, sx) && EncodesNumber(buf, neg, dx, sx)
    ensures res.Valid() && negative == neg
    ensures if sx < |dx| then res.Num() == dx && res.scale == sx
      else res.scale <= sx && Amount(res.Num(), res.scale, sx) == 100 * Val(dx)
  {
    ghost var d := Front(dx, sx);
    NumberTrimmed(dx, sx);
    res := new Numeric();
    var ok;
    ok, negative := ParseOrcl(res, buf, neg, WrittenExponent(|d|, sx), PairUp(Even(d, sx)));
    RoundTrip(dx, sx, res.Num(), res.scale);
  }

  // ----- written and compared

  ghost function NumberSign(digits: seq<nat>, neg: bool): int {
    if Val(digits) == 0 then 0 else if neg then -1 else 1
  }

  ghost function SignedAmount(digits: seq<nat>, scale: nat, neg: bool, S: nat): int
    requires scale <= S
  {
    Signed(neg, Amount(digits, scale, S))
  }

  /** Two numbers of one sign come out in their order, and numbers of different signs always do. */
  ghost predicate Right(dx: seq<nat>, sx: nat, xneg: bool, dy: seq<nat>, sy: nat, yneg: bool) {
    var s, t := NumberSign(dx, xneg), NumberSign(dy, yneg);
    (s == t == 1 ==> PositiveRight(dx, sx, dy, sy)) && (s == t == -1 ==> NegativeRight(dx, sx, dy, sy))
  }

  /** What persist_orcl leaves for a number: its encoding, or the byte for zero. */
  ghost predicate Written(buf: seq<int>, neg: bool, digits: seq<nat>, scale: nat) {
    && |buf| >= 22
    && if Val(digits) == 0 then buf[0] == 128 else NormalDigits(digits, scale) && EncodesNumber(buf, neg, digits, scale)
  }

  // Two numbers are written and what is written is compared.
  method WriteAndCompare(x: Numeric, xneg: bool, y: Numeric, yneg: bool) returns (p: Persisted, q: Persisted, r: int)
    requires x.Valid() && (Val(x.Num()) != 0 ==> x.Normal())
    requires y.Valid() && (Val(y.Num()) != 0 ==> y.Normal())
    ensures p == TooLong <==> x.precision > 38
    ensures p == OutOfBuffer <==> x.precision <= 38 && Val(x.Num()) != 0 && Overruns(x.Num(), x.scale)
    ensures q == TooLong <==> y.precision > 38
    ensures q == OutOfBuffer <==> y.precision <= 38 && Val(y.Num()) != 0 && Overruns(y.Num(), y.scale)
    ensures p == q == Encoded ==> var S := Max(x.scale, y.scale);
      (r == Cmp(SignedAmount(x.Num(), x.scale, xneg, S), SignedAmount(y.Num(), y.scale, yneg, S)) <==>
        Right(x.Num(), x.scale, xneg, y.Num(), y.scale, yneg))
  {
    var bufX := new int[22](i => 0);
    var bufY := new int[22](i => 0);
    p := PersistOrcl(x, xneg, bufX);
    q := PersistOrcl(y, yneg, bufY);
    r := 0;
    if p == Encoded && q == Encoded {
      r := CompareWritten(bufX[..], x.Num(), x.scale, xneg, bufY[..], y.Num(), y.scale, yneg);
    }
  }

  method CompareWritten(bufX: seq<int>, ghost dx: seq<nat>, ghost sx: nat, ghost xneg: bool,
                        bufY: seq<int>, ghost dy: seq<nat>, ghost sy: nat, ghost yneg: bool)
    returns (r: int)
    requires Written(bufX, xneg, dx, sx) && Written(bufY, yneg, dy, sy)
    ensures var S := Max(sx, sy);
      r == Cmp(SignedAmount(dx, sx, xneg, S), SignedAmount(dy, sy, yneg, S)) <==> Right(dx, sx, xneg, dy, sy, yneg)
  {
    ghost var x, y := Front(dx, sx), Front(dy, sy);
    WrittenSign(bufX, xneg, dx, sx);
    WrittenSign(bufY, yneg, dy, sy);
    r := CompareOrcl(bufX, bufY, xneg, WrittenExponent(|x|, sx), PairUp(Even(x, sx)),
                     WrittenExponent(|y|, sy), PairUp(Even(y, sy)));
    if NumberSign(dx, xneg) == NumberSign(dy, yneg) != 0 {
      SameSign(dx, sx, dy, sy, xneg, r);
    } else {
      SignsDecide(dx, sx, xneg, dy, sy, yneg);
    }
  }

  /** The first byte tells the sign. */
  lemma WrittenSign(buf: seq<int>, neg: bool, digits: seq<nat>, scale: nat)
    requires Written(buf, neg, digits, scale)
    ensures SignOf(buf[0]) == NumberSign(digits, neg)
    ensures buf[0] == 128 || 173 <= buf[0] <= 213 || 42 <= buf[0] <= 82
    ensures Val(digits) != 0 ==> Leading(PairUp(Even(Front(digits, scale), scale)))
  {
    if Val(digits) != 0 { NumberTrimmed(digits, scale); }
  }

  lemma SameSign(dx: seq<nat>, sx: nat, dy: seq<nat>, sy: nat, neg: bool, r: int)
    requires NormalDigits(dx, sx) && NormalDigits(dy, sy) && WrittenOrder(dx, sx, dy, sy, neg, r)
    ensures var S := Max(sx, sy);
      r == Cmp(SignedAmount(dx, sx, neg, S), SignedAmount(dy, sy, neg, S)) <==>
        if neg then NegativeRight(dx, sx, dy, sy) else PositiveRight(dx, sx, dy, sy)
  {
    if neg { NegativeIsDifference(dx, sx, dy, sy, r); } else { OrderIsDifference(dx, sx, dy, sy, r); }
  }

  lemma SignsDecide(dx: seq<nat>, sx: nat, xneg: bool, dy: seq<nat>, sy: nat, yneg: bool)
    requires var s, t := NumberSign(dx, xneg), NumberSign(dy, yneg); s != t || s == 0
    ensures var S := Max(sx, sy);
      Cmp(SignedAmount(dx, sx, xneg, S), SignedAmount(dy, sy, yneg, S)) == Cmp(NumberSign(dx, xneg), NumberSign(dy, yneg))
  {
    var S := Max(sx, sy);
    AmountZero(dx, sx, S);
    AmountZero(dy, sy, S);
  }

  lemma AmountZero(digits: seq<nat>, scale: nat, S: nat)
    requires scale <= S
    ensures Amount(digits, scale, S) == 0 <==> Val(digits) == 0
  {
    Pow10Positive(S - scale);
    ZeroProduct(Pow10(S - scale), Val(digits));
  }

  // ----- what goes wrong, on real numbers

  function Padded(b: seq<int>): (p: seq<int>)
    requires |b| <= 22
    ensures |p| == 22 && p[..|b|] == b && forall i :: 0 <= i < |b| ==> p[i] == b[i]
  {
    b + seq(22 - |b|, i => 0)
  }

  // -1 and -1.5: the second goes on where the first has ended, and comes out as the larger.
  method MinusOneAndAHalf() returns (r: int)
    ensures Encoding(Padded([62, 100, 102]), true, 0, [1]) && Encoding(Padded([62, 100, 51, 102]), true, 0, [50, 1])
    ensures r == -1 && -GridCmp([1], 0, [50, 1], 0, 1) == 1
  {
    assert [50, 1][1..] == [1];
    r := CompareOrcl(Padded([62, 100, 102]), Padded([62, 100, 51, 102]), true, 0, [1], 0, [50, 1]);
    GridsOfOne([50, 1]);
  }

  // -0.12 and -5: neither goes on where the other has ended, but -0.12 is written as -12 and comes out as the smaller.
  method MinusFive() returns (r: int)
    ensures EncodesNumber(Padded([62, 89, 102]), true, [2, 1], 2) && EncodesNumber(Padded([62, 96, 102]), true, [5], 0)
    ensures !GoesOn([2, 1], 2, [5], 0) && !GoesOn([5], 0, [2, 1], 2)
    ensures r == -1 && -Cmp(Amount([2, 1], 2, 2), Amount([5], 0, 2)) == 1
  {
    BytesOfTwelve();
    BytesOfFive();
    TwelveAboveFive();
    NeitherGoesOn();
    NearerToZero();
    r := CompareOrcl(Padded([62, 89, 102]), Padded([62, 96, 102]), true, 0, [12], 0, [5]);
  }

  // -1 and -0.015: the second goes on where the first has ended, and so comes out as the larger, which it is.
  method MinusOne() returns (r: int)
    ensures EncodesNumber(Padded([62, 100, 102]), true, [1], 0)
    ensures EncodesNumber(Padded([62, 100, 51, 102]), true, [5, 1, 0], 3)
    ensures GoesOn([1], 0, [5, 1, 0], 3)
    ensures r == -1 == -Cmp(Amount([1], 0, 3), Amount([5, 1, 0], 3, 3))
  {
    SingleDigit(1);
    WrittenFifteen();
    assert [50, 1][1..] == [1];
    r := CompareOrcl(Padded([62, 100, 102]), Padded([62, 100, 51, 102]), true, 0, [1], 0, [50, 1]);
  }

  lemma SingleDigit(d: nat)
    requires 0 < d < 10
    ensures Front([d], 0) == [d] && PairUp(Even([d], 0)) == [d] && WrittenExponent(1, 0) == 0 && Val([d]) == d
  {
    assert Even([d], 0) == [d, 0];
    assert [d, 0][2..] == [] && [d][1..] == [];
  }

  lemma WrittenTwelve()
    ensures Front([2, 1], 2) == [2, 1] && PairUp(Even([2, 1], 2)) == [12] && WrittenExponent(2, 2) == 0
  {
    TopIs([2, 1], 2);
    assert Even([2, 1], 2) == [2, 1] && [2, 1][2..] == [];
  }

  lemma BytesOfTwelve()
    ensures Encoding(Padded([62, 89, 102]), true, 0, [12]) && EncodesNumber(Padded([62, 89, 102]), true, [2, 1], 2)
  {
    WrittenTwelve();
  }

  lemma BytesOfFive()
    ensures Encoding(Padded([62, 96, 102]), true, 0, [5]) && EncodesNumber(Padded([62, 96, 102]), true, [5], 0)
  {
    SingleDigit(5);
  }

  lemma TwelveAboveFive()
    ensures GridCmp([12], 0, [5], 0, 0) == 1 && !Continues([12], 0, [5], 0) && !Continues([5], 0, [12], 0)
  {
    assert Grid([12], 0, 0) == [12] && Grid([5], 0, 0) == [5] && [12][1..] == [];
  }

  lemma NeitherGoesOn()
    ensures !GoesOn([2, 1], 2, [5], 0) && !GoesOn([5], 0, [2, 1], 2)
  {
    WrittenTwelve();
    SingleDigit(5);
  }

  lemma NearerToZero()
    ensures Amount([2, 1], 2, 2) == 12 && Amount([5], 0, 2) == 500
  {
    assert [2, 1][1..] == [1] && [1][1..] == [] && [5][1..] == [];
    assert Pow10(2) == 100 && Pow10(0) == 1;
  }

  lemma WrittenFifteen()
    ensures Front([5, 1, 0], 3) == [5, 1] && PairUp(Even([5, 1], 3)) == [50, 1] && WrittenExponent(2, 3) == 0
    ensures Amount([5, 1, 0], 3, 3) == 15 && Amount([1], 0, 3) == 1000
  {
    TopIs([5, 1, 0], 2);
    assert [5, 1, 0][..2] == [5, 1];
    assert Even([5, 1], 3) == [0, 5, 1, 0] && [0, 5, 1, 0][2..] == [1, 0] && [1, 0][2..] == [];
    assert [5, 1, 0][1..] == [1, 0] && [1, 0][1..] == [0];
    assert Pow10(3) == 1000 && Pow10(0) == 1;
  }

  lemma GridsOfOne(h: seq<nat>)
    requires |h| == 2 && h[1] == 1
    ensures Val100(Grid([1], 0, 1)) == 100 && Val100(Grid(h, 0, 1)) == 100 + h[0]
  {
    assert Grid([1], 0, 1) == [0, 1] && Grid(h, 0, 1) == h;
    assert [0, 1][1..] == [1] && h[1..] == [1] && [1][1..] == [];
  }

  // 100 has two encodings, of three bytes and of four; persist_orcl writes the longer one, and the two are not the
  // same to compare_orcl.
  method OneHundred() returns (buf: array<int>, r: int)
    ensures Encoding(Padded([194, 2, 0]), false, 1, [1])
    ensures buf.Length == 22 && Encoding(buf[..], false, 1, [0, 1]) && buf[..4] == [194, 2, 1, 0]
    ensures r == -1 && GridCmp([1], 1, [0, 1], 1, 0) == 0
  {
    buf := WriteHundred();
    PairsOfHundred();
    assert buf[..4] == [buf[0], buf[1], buf[2], buf[3]];
    assert [0, 1][1..] == [1];
    r := CompareOrcl(Padded([194, 2, 0]), buf[..], false, 1, [1], 1, [0, 1]);
  }

  method WriteHundred() returns (buf: array<int>)
    ensures buf.Length == 22 && Encoding(buf[..], false, 1, [0, 1])
  {
    var x := new Numeric();
    x.vec, x.precision := [0, 0, 1], 3;
    buf := new int[22](i => 0);
    assert x.Num() == [0, 0, 1] && x.Num()[2] == 1;
    AllZero(10, x.Num());
    PairsOfHundred();
    var p := PersistOrcl(x, false, buf);
  }

  lemma PairsOfHundred()
    ensures Front([0, 0, 1], 0) == [0, 0, 1] && PairUp(Even([0, 0, 1], 0)) == [0, 1] && WrittenExponent(3, 0) == 1
    ensures GridCmp([1], 1, [0, 1], 1, 0) == 0
  {
    assert Even([0, 0, 1], 0) == [0, 0, 1, 0];
    assert [0, 0, 1, 0][2..] == [1, 0] && [1, 0][2..] == [];
    assert Grid([1], 1, 0) == [0, 1] && Grid([0, 1], 1, 0) == [0, 1];
  }

  // 0.12 comes back as 12, and 0.1 is written out of the buffer.
  method BelowOne() returns (r: Persisted, res: Numeric, s: Persisted)
    ensures r == Encoded && res.Valid() && res.scale <= 2 && Amount(res.Num(), res.scale, 2) == 1200
    ensures s == OutOfBuffer
  {
    var x := new Numeric();
    x.vec, x.scale, x.precision := [1], 1, 1;
    assert x.Num() == [1] && Val([1]) == 1;
    var other, negative;
    s, other, negative := ThereAndBack(x, false);
    x.vec, x.scale, x.precision := [2, 1], 2, 2;
    assert x.Num() == [2, 1] && [2, 1][1..] == [1] && Val([2, 1]) == 12;
    r, res, negative := ThereAndBack(x, false);
  }
}
