/** Digit sequences, lowest digit first, and the schoolbook operations on them. */
module Decimal {
  ghost predicate InBase(base: nat, s: seq<nat>) { forall i :: 0 <= i < |s| ==> s[i] < base }

  ghost predicate Digits(s: seq<nat>) { InBase(10, s) }

  /** The value of the places of a number, lowest first. */
  ghost function ValIn(base: nat, s: seq<nat>): (v: nat)
    ensures |s| == 1 ==> v == s[0]
  {
    if s == [] then 0 else s[0] + base * ValIn(base, s[1..])
  }

  ghost function Val(s: seq<nat>): nat { ValIn(10, s) }

  ghost function Pow10(n: nat): nat { if n == 0 then 1 else 10 * Pow10(n - 1) }

  ghost function Zeros(n: nat): (s: seq<nat>)
    ensures |s| == n && Digits(s) && forall i :: 0 <= i < n ==> s[i] == 0
  {
    seq(n, i => 0)
  }

  // ----- value

  lemma {:induction false} ValConcat(s: seq<nat>, t: seq<nat>)
    ensures Val(s + t) == Val(s) + Pow10(|s|) * Val(t)
  {
    if s == [] {
      assert s + t == t;
    } else {
      assert (s + t)[0] == s[0] && (s + t)[1..] == s[1..] + t;
      ValConcat(s[1..], t);
      OnePlaceUp(s[0], Val(s[1..]), Pow10(|s| - 1), Val(t));
    }
  }

  lemma OnePlaceUp(x: nat, low: nat, p: nat, high: nat)
    ensures x + 10 * (low + p * high) == (x + 10 * low) + (10 * p) * high
  {
    MulScale(p, high);
  }

  lemma MulScale(a: nat, b: nat)
    ensures 10 * (a * b) == (10 * a) * b
  {}

  lemma {:induction false} AllZero(base: nat, s: seq<nat>)
    requires base > 0
    ensures ValIn(base, s) == 0 <==> forall i :: 0 <= i < |s| ==> s[i] == 0
  {
    if s != [] {
      AllZero(base, s[1..]);
      ZeroProduct(base, ValIn(base, s[1..]));
      assert forall i :: 0 < i < |s| ==> s[i] == s[1..][i - 1];
      assert forall i :: 0 <= i < |s| - 1 ==> s[1..][i] == s[i + 1];
    }
  }

  lemma ZeroProduct(a: nat, b: nat)
    ensures a * b >= 0 && (a * b == 0 <==> a == 0 || b == 0)
  {
    if a > 0 && b > 0 { assert a * b >= a; }
  }

  lemma {:induction false} ValBound(s: seq<nat>)
    requires Digits(s)
    ensures Val(s) < Pow10(|s|)
    ensures s != [] && s[|s| - 1] != 0 ==> Pow10(|s| - 1) <= Val(s)
  {
    if s != [] { ValBound(s[1..]); }
  }

  lemma {:induction false} Pow10Monotone(m: nat, n: nat)
    requires m <= n
    ensures Pow10(m) <= Pow10(n)
  {
    if m < n { Pow10Monotone(m, n - 1); }
  }

  lemma {:induction false} Pow10Sum(a: nat, b: nat, v: nat)
    ensures Pow10(a) * (Pow10(b) * v) == Pow10(a + b) * v
  {
    if a > 0 {
      Pow10Sum(a - 1, b, v);
      var p, q := Pow10(a - 1), Pow10(b) * v;
      assert Pow10(a) * q == 10 * (p * q);
      assert Pow10(a + b) == 10 * Pow10(a - 1 + b);
      MulScale(Pow10(a - 1 + b), v);
    }
  }

  /** Zeros below shift the value, zeros above do not change it. */
  lemma ValPadded(below: nat, s: seq<nat>, above: nat)
    ensures Val(Zeros(below) + s + Zeros(above)) == Pow10(below) * Val(s)
  {
    ValConcat(Zeros(below) + s, Zeros(above));
    ValConcat(Zeros(below), s);
    AllZero(10, Zeros(below));
    AllZero(10, Zeros(above));
  }

  lemma TopZero(s: seq<nat>)
    ensures Val(s + [0]) == Val(s)
  {
    ValConcat(s, [0]);
  }

  // ----- comparing digit by digit from the top

  lemma {:induction false} TopDecides(base: nat, a: seq<nat>, b: seq<nat>)
    requires |a| == |b| > 0 && InBase(base, b) && a[|a| - 1] > b[|b| - 1]
    ensures ValIn(base, a) > ValIn(base, b)
  {
    if |a| > 1 {
      TopDecides(base, a[1..], b[1..]);
      LargerAbove(base, a[0], ValIn(base, a[1..]), b[0], ValIn(base, b[1..]));
    }
  }

  lemma LargerAbove(base: nat, x: nat, a: nat, y: nat, b: nat)
    requires y < base && a > b
    ensures x + base * a > y + base * b
  {
    ZeroProduct(base, a - b - 1);
    OneMore(base, b, a - b - 1);
  }

  lemma OneMore(base: nat, b: nat, d: nat)
    ensures base * (b + 1 + d) == base * b + base + base * d
  {}

  lemma {:induction false} SameTop(base: nat, a: seq<nat>, b: seq<nat>, t: seq<nat>)
    requires |a| == |b|
    ensures ValIn(base, a + t) - ValIn(base, b + t) == ValIn(base, a) - ValIn(base, b)
  {
    if a == [] {
      assert a + t == t && b + t == t;
    } else {
      assert (a + t)[1..] == a[1..] + t && (b + t)[1..] == b[1..] + t;
      SameTop(base, a[1..], b[1..], t);
      SameDifference(base, ValIn(base, a[1..] + t), ValIn(base, b[1..] + t), ValIn(base, a[1..]), ValIn(base, b[1..]));
    }
  }

  lemma SameDifference(base: nat, p: nat, q: nat, a: nat, b: nat)
    requires p - q == a - b
    ensures base * p - base * q == base * a - base * b
  {
    assert base * p - base * q == base * (p - q) && base * a - base * b == base * (a - b);
  }

  /** The highest place in which two numbers differ decides. */
  lemma FirstDifference(base: nat, a: seq<nat>, b: seq<nat>, i: nat)
    requires |a| == |b| && i < |a| && InBase(base, b)
    requires a[i + 1..] == b[i + 1..] && a[i] > b[i]
    ensures ValIn(base, a) > ValIn(base, b)
  {
    assert a == a[..i + 1] + a[i + 1..] && b == b[..i + 1] + a[i + 1..];
    SameTop(base, a[..i + 1], b[..i + 1], a[i + 1..]);
    TopDecides(base, a[..i + 1], b[..i + 1]);
  }

  /** Digit sequences of one length are determined by their value. */
  lemma {:induction false} ValInjective(a: seq<nat>, b: seq<nat>)
    requires |a| == |b| && Digits(a) && Digits(b) && Val(a) == Val(b)
    ensures a == b
  {
    if a != [] {
      ValInjective(a[1..], b[1..]);
      assert a == [a[0]] + a[1..] && b == [b[0]] + b[1..];
    }
  }

  // ----- addition

  ghost function AddDigits(a: seq<nat>, b: seq<nat>, carry: nat): (r: seq<nat>)
    requires |a| == |b|
    ensures |r| == |a| + 1
  {
    if a == [] then [carry]
    else [(a[0] + b[0] + carry) % 10] + AddDigits(a[1..], b[1..], (a[0] + b[0] + carry) / 10)
  }

  lemma {:induction false} AddDigitsVal(a: seq<nat>, b: seq<nat>, carry: nat)
    requires |a| == |b| && Digits(a) && Digits(b) && carry < 2
    ensures Digits(AddDigits(a, b, carry)) && AddDigits(a, b, carry)[|a|] < 2
    ensures Val(AddDigits(a, b, carry)) == Val(a) + Val(b) + carry
  {
    if a != [] {
      var s := a[0] + b[0] + carry;
      CarryOut(s);
      AddDigitsVal(a[1..], b[1..], s / 10);
      Behind(s % 10, AddDigits(a[1..], b[1..], s / 10));
    }
  }

  lemma CarryOut(s: nat)
    requires s < 20
    ensures s / 10 < 2 && s % 10 < 10 && s == s % 10 + 10 * (s / 10)
  {}

  lemma Behind(d: nat, r: seq<nat>)
    ensures ([d] + r)[0] == d && ([d] + r)[1..] == r
    ensures d < 10 && Digits(r) ==> Digits([d] + r)
    ensures r != [] ==> ([d] + r)[|r|] == r[|r| - 1]
  {}

  // ----- subtraction

  ghost function BorrowOut(a: seq<nat>, b: seq<nat>, borrow: bool): bool
    requires |a| == |b|
  {
    if a == [] then borrow
    else BorrowOut(a[1..], b[1..], a[0] < b[0] + if borrow then 1 else 0)
  }

  ghost function SubDigit(a: nat, b: nat, borrow: bool): (d: nat)
    requires a < 10 && b < 10
    ensures d < 10
  {
    var d := a - b - if borrow then 1 else 0;
    if d >= 0 then d else 10 + d
  }

  ghost function SubDigits(a: seq<nat>, b: seq<nat>, borrow: bool): (r: seq<nat>)
    requires |a| == |b| && Digits(a) && Digits(b)
    ensures |r| == |a| && Digits(r)
  {
    if a == [] then []
    else [SubDigit(a[0], b[0], borrow)] + SubDigits(a[1..], b[1..], a[0] < b[0] + if borrow then 1 else 0)
  }

  lemma {:induction false} SubDigitsVal(a: seq<nat>, b: seq<nat>, borrow: bool)
    requires |a| == |b| && Digits(a) && Digits(b)
    ensures Val(SubDigits(a, b, borrow)) + Val(b) + (if borrow then 1 else 0)
      == Val(a) + if BorrowOut(a, b, borrow) then Pow10(|a|) else 0
  {
    if a != [] {
      var borrow' := a[0] < b[0] + if borrow then 1 else 0;
      SubDigitsVal(a[1..], b[1..], borrow');
      assert SubDigits(a, b, borrow)[1..] == SubDigits(a[1..], b[1..], borrow');
    }
  }

  /** The last borrow tells which number is larger. */
  lemma BorrowMeansLess(a: seq<nat>, b: seq<nat>)
    requires |a| == |b| && Digits(a) && Digits(b)
    ensures BorrowOut(a, b, false) <==> Val(a) < Val(b)
  {
    SubDigitsVal(a, b, false);
    ValBound(SubDigits(a, b, false));
  }

  // ----- multiplication by a digit

  ghost function MulDigit(a: seq<nat>, d: nat, carry: nat): (r: seq<nat>)
    ensures |r| == |a| + 1
  {
    if a == [] then [carry]
    else [(a[0] * d + carry) % 10] + MulDigit(a[1..], d, (a[0] * d + carry) / 10)
  }

  lemma {:induction false} MulDigitVal(a: seq<nat>, d: nat, carry: nat)
    requires Digits(a) && d < 10 && carry < 9
    ensures Digits(MulDigit(a, d, carry)) && MulDigit(a, d, carry)[|a|] < 9
    ensures Val(MulDigit(a, d, carry)) == Val(a) * d + carry
  {
    MulDigitRange(a, d, carry);
    MulDigitSum(a, d, carry);
  }

  lemma {:induction false} MulDigitRange(a: seq<nat>, d: nat, carry: nat)
    requires Digits(a) && d < 10 && carry < 9
    ensures Digits(MulDigit(a, d, carry)) && MulDigit(a, d, carry)[|a|] < 9
  {
    if a != [] {
      var s := a[0] * d + carry;
      PlaceCarry(a[0], d, carry);
      MulDigitRange(a[1..], d, s / 10);
      Behind(s % 10, MulDigit(a[1..], d, s / 10));
    }
  }

  lemma {:induction false} MulDigitSum(a: seq<nat>, d: nat, carry: nat)
    ensures Val(MulDigit(a, d, carry)) == Val(a) * d + carry
  {
    if a != [] {
      var s := a[0] * d + carry;
      MulDigitSum(a[1..], d, s / 10);
      ValFront(s % 10, MulDigit(a[1..], d, s / 10));
      PlaceValue(a[0], Val(a[1..]), d, carry);
    }
  }

  lemma ValFront(d: nat, r: seq<nat>)
    ensures Val([d] + r) == d + 10 * Val(r)
  {
    Behind(d, r);
  }

  lemma PlaceCarry(u: nat, d: nat, carry: nat)
    requires u < 10 && d < 10 && carry < 9
    ensures (u * d + carry) / 10 < 9 && (u * d + carry) % 10 < 10
  {
    MulBound(u, d);
  }

  lemma PlaceValue(u: nat, v: nat, d: nat, carry: nat)
    ensures (u * d + carry) % 10 + 10 * (v * d + (u * d + carry) / 10) == (u + 10 * v) * d + carry
  {
    Distribute(u, v, d);
    TenParts(u * d + carry);
  }

  lemma TenParts(s: nat)
    ensures s % 10 + 10 * (s / 10) == s
  {}

  lemma MulBound(a: nat, d: nat)
    requires a < 10 && d < 10
    ensures a * d <= 81
  {
    assert a * d <= 9 * d;
  }

  lemma Distribute(u: nat, v: nat, d: nat)
    ensures (u + 10 * v) * d == u * d + 10 * (v * d)
  {}
}
