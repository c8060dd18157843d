/** Decimal numbers with a scale: magnitudes only, lowest digit first. */
module Numerics {
  import opened Decimal

  function Max(a: nat, b: nat): nat { if a > b then a else b }
  function Cmp(a: int, b: int): int { if a > b then 1 else if a < b then -1 else 0 }
  function Min(a: nat, b: nat): nat { if a < b then a else b }

  /** Digits of a number of the given scale, padded to S fraction digits and W whole digits. */
  ghost function Aligned(digits: seq<nat>, scale: nat, S: nat, W: nat): (a: seq<nat>)
    requires scale <= S && scale <= |digits| <= scale + W
    ensures |a| == S + W
  {
    Zeros(S - scale) + digits + Zeros(W - (|digits| - scale))
  }

  /** The number as a multiple of 10 to the power -S. */
  ghost function Amount(digits: seq<nat>, scale: nat, S: nat): nat
    requires scale <= S
  {
    Pow10(S - scale) * Val(digits)
  }

  /** a holds the digits, placed so that place S is the first whole digit. */
  ghost predicate Reads(a: seq<nat>, digits: seq<nat>, scale: nat, S: nat) {
    scale <= S && forall i :: 0 <= i < |a| ==>
      a[i] == if S - scale <= i < S - scale + |digits| then digits[i - (S - scale)] else 0
  }

  lemma AlignedAmount(digits: seq<nat>, scale: nat, S: nat, W: nat)
    requires scale <= S && scale <= |digits| <= scale + W && Digits(digits)
    ensures Val(Aligned(digits, scale, S, W)) == Amount(digits, scale, S) && Digits(Aligned(digits, scale, S, W))
    ensures Reads(Aligned(digits, scale, S, W), digits, scale, S)
  {
    ValPadded(S - scale, digits, W - (|digits| - scale));
  }

  /** A number has one normal form. */
  lemma NormalUnique(dx: seq<nat>, sx: nat, dy: seq<nat>, sy: nat, S: nat)
    requires Digits(dx) && Digits(dy) && sx <= |dx| && sy <= |dy| && sx <= S && sy <= S
    requires (|dx| > sx ==> dx[|dx| - 1] != 0) && (sx > 0 ==> dx[0] != 0)
    requires (|dy| > sy ==> dy[|dy| - 1] != 0) && (sy > 0 ==> dy[0] != 0)
    requires Amount(dx, sx, S) == Amount(dy, sy, S)
    ensures dx == dy && sx == sy
  {
    var W := Max(|dx| - sx, |dy| - sy);
    var ax, ay := Aligned(dx, sx, S, W), Aligned(dy, sy, S, W);
    AlignedAmount(dx, sx, S, W);
    AlignedAmount(dy, sy, S, W);
    ValInjective(ax, ay);
    LowEnd(ax, dx, sx, dy, sy, S);
    LowEnd(ax, dy, sy, dx, sx, S);
    HighEnd(ax, dx, dy, sx, S);
    HighEnd(ax, dy, dx, sx, S);
    SameDigits(ax, dx, dy, sx, S);
  }

  lemma LowEnd(a: seq<nat>, dx: seq<nat>, sx: nat, dy: seq<nat>, sy: nat, S: nat)
    requires Reads(a, dx, sx, S) && Reads(a, dy, sy, S) && sx <= |dx| && S - sx + |dx| <= |a|
    requires sx > 0 ==> dx[0] != 0
    ensures sx <= sy
  {
    assert sx > 0 ==> a[S - sx] == dx[0];
  }

  lemma HighEnd(a: seq<nat>, dx: seq<nat>, dy: seq<nat>, s: nat, S: nat)
    requires Reads(a, dx, s, S) && Reads(a, dy, s, S) && s <= |dy| && S - s + |dx| <= |a|
    requires |dx| > s ==> dx[|dx| - 1] != 0
    ensures |dx| <= |dy|
  {
    assert |dx| > s ==> a[S - s + |dx| - 1] == dx[|dx| - 1];
  }

  lemma SameDigits(a: seq<nat>, dx: seq<nat>, dy: seq<nat>, s: nat, S: nat)
    requires Reads(a, dx, s, S) && Reads(a, dy, s, S) && |dx| == |dy| && S - s + |dx| <= |a|
    ensures dx == dy
  {
    forall i | 0 <= i < |dx| ensures dx[i] == dy[i] {
      assert a[S - s + i] == dx[i] && a[S - s + i] == dy[i];
    }
  }

  class Numeric {
    var vec: seq<nat>
    var scale: nat
    var precision: nat

    constructor ()
      ensures vec == [0] && scale == 0 && precision == 1
    {
      vec, scale, precision := [0], 0, 1;
    }

    ghost predicate Valid()
      reads this
    {
      scale <= precision <= |vec| && 0 < |vec| && Digits(vec)
    }

    ghost function Num(): seq<nat>
      requires precision <= |vec|
      reads this
    {
      vec[..precision]
    }

    /** No leading zero in the whole part and no trailing zero in the fraction. */
    ghost predicate Normal()
      requires Valid()
      reads this
    {
      (precision > scale ==> vec[precision - 1] != 0) && (scale > 0 ==> vec[0] != 0)
    }

    // No digit at place n or above.
    ghost static predicate Blank(v: seq<nat>, n: nat) { forall i :: n <= i < |v| ==> v[i] == 0 }

    // room_array::reserve
    method Reserve(n: nat)
      modifies this`vec
      ensures vec == old(vec) + Zeros(Max(n, |old(vec)|) - |old(vec)|)
    {
      if |vec| < n {
        vec := vec + seq(n - |vec|, i => 0);
      }
    }

    // The two fraction digits that stand at place i of the common scale.
    static method FractionDigits(x: Numeric, y: Numeric, shift: int, i: nat, ghost S: nat, ghost ax: seq<nat>, ghost ay: seq<nat>)
      returns (xd: nat, yd: nat)
      requires x.Valid() && y.Valid() && shift == x.scale - y.scale && S == Max(x.scale, y.scale) && i < S
      requires i < |ax| == |ay| && Reads(ax, x.Num(), x.scale, S) && Reads(ay, y.Num(), y.scale, S)
      ensures xd == ax[i] && yd == ay[i]
    {
      if shift > 0 {
        xd, yd := x.vec[i], if i >= shift then y.vec[i - shift] else 0;
      } else if shift < 0 {
        xd, yd := if i >= -shift then x.vec[i + shift] else 0, y.vec[i];
      } else {
        xd, yd := x.vec[i], y.vec[i];
      }
    }

    // The two whole digits that stand at place i of the common scale.
    static method WholeDigits(x: Numeric, y: Numeric, i: nat, scale: nat, ghost ax: seq<nat>, ghost ay: seq<nat>)
      returns (xd: nat, yd: nat)
      requires x.Valid() && y.Valid() && scale == Max(x.scale, y.scale) && i >= scale
      requires i < |ax| == |ay| && Reads(ax, x.Num(), x.scale, scale) && Reads(ay, y.Num(), y.scale, scale)
      ensures xd == ax[i] && yd == ay[i]
    {
      xd, yd := 0, 0;
      if i - scale < x.precision - x.scale {
        xd := x.vec[i - scale + x.scale];
      }
      if i - scale < y.precision - y.scale {
        yd := y.vec[i - scale + y.scale];
      }
    }

    // One place of plus: the digit is written and the carry goes on.
    static method AddPlace(res: Numeric, xd: nat, yd: nat, carry: nat, i: nat, ghost ax: seq<nat>, ghost ay: seq<nat>)
      returns (carry': nat)
      requires |ax| == |ay| && i < |ax| && i < |res.vec| && Digits(ax) && Digits(ay) && Digits(res.vec) && carry < 2
      requires AddState(res.vec, ax, ay, carry, i) && xd == ax[i] && yd == ay[i]
      modifies res`vec
      ensures |res.vec| == old(|res.vec|) && Digits(res.vec) && carry' < 2 && AddState(res.vec, ax, ay, carry', i + 1)
      ensures forall m :: i < m < |res.vec| ==> res.vec[m] == old(res.vec)[m]
    {
      var sum := carry + xd + yd;
      AddStep(res.vec, ax, ay, carry, i);
      CarryOut(sum);
      res.vec := res.vec[i := sum % 10];
      carry' := sum / 10;
    }

    // The first loop of plus: the fraction, up to the larger scale.
    static method AddFraction(res: Numeric, x: Numeric, y: Numeric, ghost ax: seq<nat>, ghost ay: seq<nat>)
      returns (carry: nat)
      requires res != x && res != y && x.Valid() && y.Valid() && res.Valid() && res.scale == Max(x.scale, y.scale)
      requires |ax| == |ay| && res.scale <= |ax| && Digits(ax) && Digits(ay)
      requires Reads(ax, x.Num(), x.scale, res.scale) && Reads(ay, y.Num(), y.scale, res.scale)
      modifies res`vec
      ensures res.Valid() && |res.vec| == old(|res.vec|) && carry < 2
      ensures forall i :: res.scale <= i < |res.vec| ==> res.vec[i] == old(res.vec)[i]
      ensures AddState(res.vec, ax, ay, carry, res.scale)
    {
      carry := 0;
      var shift: int := x.scale - y.scale;
      var i: nat := 0;
      AddBegin(res.vec, ax, ay);
      while i < res.scale
        invariant i <= res.scale && carry < 2 && |res.vec| == old(|res.vec|) && Digits(res.vec)
        invariant forall m :: i <= m < |res.vec| ==> res.vec[m] == old(res.vec)[m]
        invariant AddState(res.vec, ax, ay, carry, i)
      {
        var xd, yd := FractionDigits(x, y, shift, i, res.scale, ax, ay);
        carry := AddPlace(res, xd, yd, carry, i, ax, ay);
        i := i + 1;
      }
    }

    // The second loop of plus: the whole part.
    static method AddWhole(res: Numeric, x: Numeric, y: Numeric, carry0: nat, ghost ax: seq<nat>, ghost ay: seq<nat>)
      returns (carry: nat)
      requires res != x && res != y && x.Valid() && y.Valid() && res.Valid() && res.scale == Max(x.scale, y.scale)
      requires |ax| == |ay| == res.precision && Digits(ax) && Digits(ay) && carry0 < 2
      requires Reads(ax, x.Num(), x.scale, res.scale) && Reads(ay, y.Num(), y.scale, res.scale)
      requires AddState(res.vec, ax, ay, carry0, res.scale)
      modifies res`vec
      ensures res.Valid() && |res.vec| == old(|res.vec|) && carry < 2
      ensures forall i :: res.precision <= i < |res.vec| ==> res.vec[i] == old(res.vec)[i]
      ensures res.Num() + [carry] == AddDigits(ax, ay, 0)
    {
      carry := carry0;
      var scale, i := res.scale, res.scale;
      while i < res.precision
        invariant scale <= i <= res.precision && carry < 2 && |res.vec| == old(|res.vec|) && Digits(res.vec)
        invariant forall m :: i <= m < |res.vec| ==> res.vec[m] == old(res.vec)[m]
        invariant AddState(res.vec, ax, ay, carry, i)
      {
        var xd, yd := WholeDigits(x, y, i, scale, ax, ay);
        carry := AddPlace(res, xd, yd, carry, i, ax, ay);
        i := i + 1;
      }
      AddEnd(res.vec, ax, ay, carry);
    }

    // The room, the precision and the scale of a result.
    method Prepare(room: nat, precision: nat, scale: nat)
      requires Valid() && scale <= precision <= room
      modifies this
      ensures Valid() && this.precision == precision && this.scale == scale && room <= |vec|
      ensures old(Blank(vec, 0)) ==> Blank(vec, 0)
    {
      Reserve(room);
      this.precision := precision;
      this.scale := scale;
    }

    // The carry out of the top place becomes one more digit.
    method StoreCarry(carry: nat)
      requires Valid() && precision < |vec| && carry < 10
      modifies this
      ensures Valid() && scale == old(scale) && |vec| == old(|vec|) && Val(Num()) == Val(old(Num()) + [carry])
      ensures old(Blank(vec, precision)) ==> Blank(vec, precision)
      ensures precision == old(precision) || (precision == old(precision) + 1 && carry != 0)
    {
      ghost var low := Num();
      TopZero(low);
      if carry != 0 {
        vec := vec[precision := carry];
        precision := precision + 1;
        assert Num() == low + [carry];
      }
    }

    static method Plus(res: Numeric, x: Numeric, y: Numeric)
      requires res != x && res != y && res.Valid() && x.Valid() && y.Valid()
      modifies res
      ensures res.Valid() && res.scale == Max(x.scale, y.scale)
      ensures Val(res.Num()) == Amount(x.Num(), x.scale, res.scale) + Amount(y.Num(), y.scale, res.scale)
      ensures old(Blank(res.vec, 0)) ==> Blank(res.vec, res.precision)
    {
      var xWhole, yWhole := x.precision - x.scale, y.precision - y.scale;
      var scale := Max(x.scale, y.scale);
      var precision := scale + Max(xWhole, yWhole);
      res.Prepare(precision + 1, precision, scale);
      ghost var W := Max(xWhole, yWhole);
      ghost var ax, ay := Aligned(x.Num(), x.scale, scale, W), Aligned(y.Num(), y.scale, scale, W);
      AlignedAmount(x.Num(), x.scale, scale, W);
      AlignedAmount(y.Num(), y.scale, scale, W);
      var carry := AddPlaces(res, x, y, ax, ay);
      AddDigitsVal(ax, ay, 0);
      res.StoreCarry(carry);
    }

    // Both loops of plus.
    static method AddPlaces(res: Numeric, x: Numeric, y: Numeric, ghost ax: seq<nat>, ghost ay: seq<nat>) returns (carry: nat)
      requires res != x && res != y && x.Valid() && y.Valid() && res.Valid() && res.scale == Max(x.scale, y.scale)
      requires |ax| == |ay| == res.precision && Digits(ax) && Digits(ay)
      requires Reads(ax, x.Num(), x.scale, res.scale) && Reads(ay, y.Num(), y.scale, res.scale)
      modifies res`vec
      ensures res.Valid() && |res.vec| == old(|res.vec|) && carry < 2
      ensures forall i :: res.precision <= i < |res.vec| ==> res.vec[i] == old(res.vec)[i]
      ensures res.Num() + [carry] == AddDigits(ax, ay, 0)
    {
      carry := AddFraction(res, x, y, ax, ay);
      carry := AddWhole(res, x, y, carry, ax, ay);
    }

    // One place of minus: the digit that is written and what the next place owes.
    static method SubtractDigit(xd: nat, yd: nat, borrow: nat) returns (digit: nat, borrow': nat)
      requires xd < 10 && yd < 10 && borrow < 2
      ensures digit == SubDigit(xd, yd, borrow == 1) && borrow' < 2
      ensures borrow' == 1 <==> xd < yd + if borrow == 1 then 1 else 0
    {
      var sub: int := xd - yd - borrow;
      digit := if sub >= 0 then sub else 10 + sub;
      borrow' := if sub >= 0 then 0 else 1;
    }

    // The first loop of minus: the fraction, up to the larger scale.
    static method SubFraction(res: Numeric, x: Numeric, y: Numeric, ghost ax: seq<nat>, ghost ay: seq<nat>)
      returns (borrow: nat)
      requires res != x && res != y && x.Valid() && y.Valid() && res.Valid() && res.scale == Max(x.scale, y.scale)
      requires |ax| == |ay| && res.scale <= |ax| && Digits(ax) && Digits(ay)
      requires Reads(ax, x.Num(), x.scale, res.scale) && Reads(ay, y.Num(), y.scale, res.scale)
      modifies res`vec
      ensures res.Valid() && |res.vec| == old(|res.vec|) && borrow < 2
      ensures SubState(res.vec, ax, ay, borrow == 1, res.scale)
    {
      borrow := 0;
      var shift: int := x.scale - y.scale;
      var i: nat := 0;
      while i < res.scale
        invariant i <= res.scale && borrow < 2 && |res.vec| == old(|res.vec|) && Digits(res.vec)
        invariant SubState(res.vec, ax, ay, borrow == 1, i)
      {
        var xd, yd := FractionDigits(x, y, shift, i, res.scale, ax, ay);
        SubStep(res.vec, ax, ay, borrow == 1, i);
        var digit;
        digit, borrow := SubtractDigit(xd, yd, borrow);
        res.vec := res.vec[i := digit];
        i := i + 1;
      }
    }

    // The second loop of minus: the whole part.
    static method SubWhole(res: Numeric, x: Numeric, y: Numeric, borrow0: nat, ghost ax: seq<nat>, ghost ay: seq<nat>)
      returns (borrow: nat)
      requires res != x && res != y && x.Valid() && y.Valid() && res.Valid() && res.scale == Max(x.scale, y.scale)
      requires |ax| == |ay| == res.precision && Digits(ax) && Digits(ay) && borrow0 < 2
      requires Reads(ax, x.Num(), x.scale, res.scale) && Reads(ay, y.Num(), y.scale, res.scale)
      requires SubState(res.vec, ax, ay, borrow0 == 1, res.scale)
      modifies res`vec
      ensures res.Valid() && |res.vec| == old(|res.vec|) && borrow < 2
      ensures SubState(res.vec, ax, ay, borrow == 1, res.precision)
    {
      borrow := borrow0;
      var scale, i := res.scale, res.scale;
      while i < res.precision
        invariant scale <= i <= res.precision && borrow < 2 && |res.vec| == old(|res.vec|) && Digits(res.vec)
        invariant SubState(res.vec, ax, ay, borrow == 1, i)
      {
        var xd, yd := WholeDigits(x, y, i, scale, ax, ay);
        SubStep(res.vec, ax, ay, borrow == 1, i);
        var digit;
        digit, borrow := SubtractDigit(xd, yd, borrow);
        res.vec := res.vec[i := digit];
        i := i + 1;
      }
    }

    // The result is the exact difference if and only if x is not smaller, which the last borrow tells.
    static method Minus(res: Numeric, x: Numeric, y: Numeric) returns (borrow: nat)
      requires res != x && res != y && res.Valid() && x.Valid() && y.Valid()
      requires x.precision - x.scale >= y.precision - y.scale
      modifies res
      ensures res.Valid() && res.scale == Max(x.scale, y.scale) && borrow < 2
      ensures borrow == 1 <==> Amount(x.Num(), x.scale, res.scale) < Amount(y.Num(), y.scale, res.scale)
      ensures borrow == 0 ==>
        Val(res.Num()) == Amount(x.Num(), x.scale, res.scale) - Amount(y.Num(), y.scale, res.scale)
    {
      var xWhole := x.precision - x.scale;
      var scale := Max(x.scale, y.scale);
      var precision := xWhole + scale;
      res.Reserve(precision);
      res.precision := precision;
      res.scale := scale;
      ghost var ax, ay := Aligned(x.Num(), x.scale, scale, xWhole), Aligned(y.Num(), y.scale, scale, xWhole);
      AlignedAmount(x.Num(), x.scale, scale, xWhole);
      AlignedAmount(y.Num(), y.scale, scale, xWhole);
      borrow := SubFraction(res, x, y, ax, ay);
      borrow := SubWhole(res, x, y, borrow, ax, ay);
      SubDigitsVal(ax, ay, false);
      BorrowMeansLess(ax, ay);
      assert res.Num() == SubDigits(ax, ay, false);
    }

    // Two numbers with the same count of whole digits, placed on a common scale S.
    ghost static predicate Placed(x: Numeric, y: Numeric, whole: nat, S: nat, ax: seq<nat>, ay: seq<nat>)
      reads x, y
    {
      && x.Valid() && y.Valid() && x.precision - x.scale == whole == y.precision - y.scale && S == Max(x.scale, y.scale)
      && |ax| == |ay| == S + whole && Digits(ax) && Digits(ay)
      && Reads(ax, x.Num(), x.scale, S) && Reads(ay, y.Num(), y.scale, S)
    }

    // The first loop of compare: whole digits from the top.
    static method CompareWhole(x: Numeric, y: Numeric, whole: nat, ghost S: nat, ghost ax: seq<nat>, ghost ay: seq<nat>)
      returns (r: int)
      requires Placed(x, y, whole, S, ax, ay)
      ensures if r == 0 then ax[S..] == ay[S..] else -1 <= r <= 1 && r == Cmp(Val(ax), Val(ay))
    {
      var index: int := whole - 1;
      while index >= 0
        invariant -1 <= index < whole && ax[S + index + 1..] == ay[S + index + 1..]
      {
        if x.vec[index + x.scale] != y.vec[index + y.scale] {
          PlaceDecides(ax, ay, S + index);
          return if x.vec[index + x.scale] > y.vec[index + y.scale] then 1 else -1;
        }
        PlaceEqual(ax, ay, S + index);
        index := index - 1;
      }
      return 0;
    }

    // The second loop of compare: the fraction digits both numbers have.
    static method CompareFraction(x: Numeric, y: Numeric, whole: nat, ghost S: nat, ghost ax: seq<nat>, ghost ay: seq<nat>)
      returns (r: int)
      requires Placed(x, y, whole, S, ax, ay) && ax[S..] == ay[S..]
      ensures var low := S - Min(x.scale, y.scale);
        if r == 0 then ax[low..] == ay[low..] else -1 <= r <= 1 && r == Cmp(Val(ax), Val(ay))
    {
      var minFraction: int := Min(x.scale, y.scale);
      ghost var low := S - minFraction;
      var index: int := minFraction - 1;
      while index >= 0
        invariant -1 <= index < minFraction && ax[low + index + 1..] == ay[low + index + 1..]
      {
        if x.vec[index + x.scale - minFraction] != y.vec[index + y.scale - minFraction] {
          PlaceDecides(ax, ay, low + index);
          return if x.vec[index + x.scale - minFraction] > y.vec[index + y.scale - minFraction] then 1 else -1;
        }
        PlaceEqual(ax, ay, low + index);
        index := index - 1;
      }
      return 0;
    }

    // On normal forms the result is the sign of the difference.
    static method Compare(x: Numeric, y: Numeric) returns (r: int)
      requires x.Valid() && y.Valid()
      ensures x.Normal() && y.Normal() ==>
        var S := Max(x.scale, y.scale); r == Cmp(Amount(x.Num(), x.scale, S), Amount(y.Num(), y.scale, S))
    {
      var xWhole, yWhole := x.precision - x.scale, y.precision - y.scale;
      ghost var S, W := Max(x.scale, y.scale), Max(xWhole, yWhole);
      ghost var ax, ay := Aligned(x.Num(), x.scale, S, W), Aligned(y.Num(), y.scale, S, W);
      AlignedAmount(x.Num(), x.scale, S, W);
      AlignedAmount(y.Num(), y.scale, S, W);
      if xWhole > yWhole {
        if x.Normal() { TopDecides(10, ax, ay); }
        return 1;
      } else if xWhole < yWhole {
        if y.Normal() { TopDecides(10, ay, ax); }
        return -1;
      }
      r := CompareDigits(x, y, xWhole, S, ax, ay);
    }

    // With the same count of whole digits the digits decide, and then the longer fraction.
    static method CompareDigits(x: Numeric, y: Numeric, whole: nat, ghost S: nat, ghost ax: seq<nat>, ghost ay: seq<nat>)
      returns (r: int)
      requires Placed(x, y, whole, S, ax, ay)
      ensures x.Normal() && y.Normal() ==> r == Cmp(Val(ax), Val(ay))
    {
      r := CompareWhole(x, y, whole, S, ax, ay);
      if r != 0 {
        return;
      }
      r := CompareFraction(x, y, whole, S, ax, ay);
      if r != 0 || x.scale == y.scale {
        return;
      }
      if x.scale > y.scale {
        if x.Normal() { LowestDecides(ax, ay, S - y.scale); }
        return 1;
      } else {
        if y.Normal() { LowestDecides(ay, ax, S - x.scale); }
        return -1;
      }
    }

    // cutjunk: drops leading whole zeros and trailing fraction zeros. The first loop steps below place 0, out of the
    // buffer, exactly when the number has no fraction and no nonzero digit; ok is false then.
    method Cutjunk() returns (ok: bool)
      requires Valid()
      modifies this
      ensures ok <==> old(scale) > 0 || exists i :: 0 <= i < Max(1, old(precision)) && old(vec)[i] != 0
      ensures ok ==> Valid() && Normal() && scale <= old(scale) && |vec| == old(|vec|)
      ensures ok ==> Amount(Num(), scale, old(scale)) == old(Val(Num()))
      ensures ok && old(scale) == 0 ==> scale == 0 && precision <= old(precision) && vec == old(vec)
      ensures ok && old(Blank(vec, precision)) ==> Blank(vec, precision)
    {
      ok := CutHead();
      if ok {
        CutTail();
      }
    }

    // The second loop of cutjunk.
    method CutTail()
      requires Valid()
      modifies this
      ensures Valid() && scale <= old(scale) && |vec| == old(|vec|) && precision - scale == old(precision - scale)
      ensures scale > 0 ==> vec[0] != 0
      ensures precision > scale ==> vec[precision - 1] == old(vec[precision - 1])
      ensures Amount(Num(), scale, old(scale)) == old(Val(Num()))
      ensures old(scale) == 0 ==> vec == old(vec)
      ensures old(Blank(vec, precision)) ==> Blank(vec, precision)
    {
      var tail := 0;
      while tail < scale && vec[tail] == 0
        invariant tail <= scale && forall i :: 0 <= i < tail ==> vec[i] == 0
      {
        tail := tail + 1;
      }
      if tail > 0 {
        DropPlaces(tail);
      }
      assert Pow10(0) == 1;
    }

    // The lowest places of the fraction, all zero, go.
    method DropPlaces(tail: nat)
      requires Valid() && tail <= scale && forall i :: 0 <= i < tail ==> vec[i] == 0
      modifies this
      ensures Valid() && scale == old(scale) - tail && precision == old(precision) - tail && |vec| == old(|vec|)
      ensures forall i :: 0 <= i < |vec| - tail ==> vec[i] == old(vec)[i + tail]
      ensures Amount(Num(), scale, old(scale)) == old(Val(Num()))
      ensures old(Blank(vec, precision)) ==> Blank(vec, precision)
    {
      DropTail(vec, precision, scale, tail);
      vec := vec[tail..] + seq(tail, i => 0);
      precision := precision - tail;
      scale := scale - tail;
    }

    // The first loop of cutjunk.
    method CutHead() returns (ok: bool)
      requires Valid()
      modifies this`precision
      ensures ok <==> scale > 0 || exists i :: 0 <= i < Max(1, old(precision)) && vec[i] != 0
      ensures ok ==> Valid() && precision <= old(precision) && Val(Num()) == old(Val(Num()))
      ensures ok ==> precision == 0 || precision == scale || vec[precision - 1] != 0
      ensures ok && old(Blank(vec, precision)) ==> Blank(vec, precision)
    {
      var head := if precision > 0 then precision - 1 else 0;
      while head >= scale
        invariant Valid() && precision <= old(precision) && Val(Num()) == old(Val(Num()))
        invariant precision > 0 ==> head + 1 == precision
        invariant precision == 0 ==> head == 0 && (old(precision) == 0 || scale == 1)
        invariant forall i :: head < i < Max(1, old(precision)) ==> vec[i] == 0
        decreases head
      {
        if vec[head] != 0 {
          return true;
        }
        if head == 0 {
          return false;
        }
        assert Num() == vec[..head] + [0];
        TopZero(vec[..head]);
        precision := precision - 1;
        head := head - 1;
      }
      return true;
    }

    // operator=
    method Copy(x: Numeric)
      requires x.Valid() && x != this
      modifies this
      ensures Valid() && scale == x.scale && precision == x.precision && Num() == x.Num()
      ensures |vec| == Max(|old(vec)|, |x.vec|) && vec[..|x.vec|] == x.vec && Blank(vec, |x.vec|)
    {
      vec := x.vec + seq(Max(|vec|, |x.vec|) - |x.vec|, i => 0);
      scale, precision := x.scale, x.precision;
    }

    // operator+= for two magnitudes of the same sign.
    method AddAssign(x: Numeric) returns (ok: bool)
      requires Valid() && x.Valid()
      modifies this
      ensures var S := Max(old(scale), old(x.scale));
        var total := Amount(old(Num()), old(scale), S) + Amount(old(x.Num()), old(x.scale), S);
        && (ok <==> S > 0 || total != 0)
        && (ok ==> Valid() && Normal() && Blank(vec, precision) && |vec| >= |old(vec)| && scale <= S && Amount(Num(), scale, S) == total)
    {
      var res := new Numeric();
      Plus(res, this, x);
      AllZero(10, res.Num());
      Copy(res);
      ok := Cutjunk();
    }

    // The running sum of multiply: both numbers have no fraction.
    method AddRow(row: Numeric) returns (ok: bool)
      requires Valid() && row.Valid() && scale == row.scale == 0 && row != this
      modifies this
      ensures ok <==> old(Val(Num())) + Val(row.Num()) != 0
      ensures ok ==> Valid() && scale == 0 && Blank(vec, precision) && |vec| >= |old(vec)|
      ensures ok ==> Val(Num()) == old(Val(Num())) + Val(row.Num())
    {
      ok := AddAssign(row);
      assert Pow10(0) == 1;
    }

    // One place of a row: the digit that is written and the carry.
    static method MulPlace(xd: nat, d: nat, carry: nat) returns (digit: nat, carry': nat)
      requires xd < 10 && d < 10 && carry < 9
      ensures digit == (xd * d + carry) % 10 < 10 && carry' == (xd * d + carry) / 10 < 9
    {
      PlaceCarry(xd, d, carry);
      var sum := xd * d;
      sum := sum + carry;
      digit, carry' := sum % 10, sum / 10;
    }

    // The inner loop of multiply: x times the digit d.
    static method FillRow(row: Numeric, x: Numeric, d: nat) returns (carry: nat)
      requires row != x && x.Valid() && row.Valid() && Blank(row.vec, 0) && d < 10
      requires row.scale == 0 && row.precision == x.precision
      modifies row`vec
      ensures row.Valid() && |row.vec| == old(|row.vec|) && Blank(row.vec, row.precision) && carry < 9
      ensures row.Num() + [carry] == MulDigit(x.Num(), d, 0)
    {
      carry := 0;
      var ix: nat := 0;
      MulBegin(row.vec, x.Num(), d);
      while ix < x.precision
        invariant ix <= x.precision && carry < 9 && |row.vec| == old(|row.vec|) && Digits(row.vec) && Blank(row.vec, ix)
        invariant MulState(row.vec, x.Num(), d, carry, ix)
      {
        MulStep(row.vec, x.Num(), d, carry, ix);
        var digit;
        digit, carry := MulPlace(x.vec[ix], d, carry);
        row.vec := row.vec[ix := digit];
        ix := ix + 1;
      }
      MulEnd(row.vec, x.Num(), d, carry);
    }

    // One row of multiply: x times the digit d, moved up by shift places.
    static method BuildRow(row: Numeric, x: Numeric, d: nat, room: nat, shift: nat)
      requires row != x && x.Valid() && row.Valid() && |row.vec| == room && d < 10
      requires x.precision + 1 + shift <= room
      modifies row
      ensures row.Valid() && row.scale == 0 && |row.vec| == room
      ensures Val(row.Num()) == Pow10(shift) * (Val(x.Num()) * d)
    {
      row.vec := seq(room, i => 0);
      row.precision := x.precision;
      row.scale := 0;
      var carry := FillRow(row, x, d);
      MulDigitVal(x.Num(), d, 0);
      row.StoreCarry(carry);
      row.ShiftUp(shift);
    }

    // room_array::operator<< and the precision that goes with it.
    method ShiftUp(shift: nat)
      requires Valid() && precision + shift <= |vec|
      modifies this`vec, this`precision
      ensures Valid() && |vec| == old(|vec|) && precision == old(precision) + shift && Num() == Zeros(shift) + old(Num())
      ensures Val(Num()) == Pow10(shift) * old(Val(Num())) && (old(Blank(vec, precision)) ==> Blank(vec, precision))
    {
      RowShift(vec, precision, shift);
      vec := seq(shift, i => 0) + vec[..|vec| - shift];
      precision := precision + shift;
    }

    // operator<<: the fraction is used up first, and only then do the digits move.
    method ShiftLeft(shift: int)
      requires Valid()
      modifies this
      ensures Valid() && (old(Blank(vec, precision)) ==> Blank(vec, precision))
      ensures shift >= 0 ==> scale == old(scale) - Min(shift, old(scale))
      ensures shift >= 0 ==> Num() == Zeros(shift - Min(shift, old(scale))) + old(Num())
      ensures shift >= 0 ==> Amount(Num(), scale, old(scale)) == Pow10(shift) * old(Val(Num()))
      ensures shift < 0 ==> Lowered(old(vec), old(scale), old(precision), vec, scale, precision, -shift)
      decreases if shift < 0 then 1 else 0
    {
      if shift < 0 {
        ShiftRight(-shift);
        return;
      }
      ghost var v := Val(Num());
      var decr := Min(shift, scale);
      scale := scale - decr;
      if shift > decr {
        ghost var digits := Num();
        Reserve(precision + (shift - decr));
        assert Num() == digits;
        ShiftUp(shift - decr);
      } else {
        assert Zeros(0) + Num() == Num();
        assert Pow10(0) == 1;
      }
      Pow10Sum(decr, shift - decr, v);
    }

    // operator>>: the point moves to the left, over whatever the buffer holds there; a negative count is taken for the
    // positive one.
    method ShiftRight(shift: int)
      requires Valid()
      modifies this
      ensures Valid() && (old(Blank(vec, precision)) ==> Blank(vec, precision))
      ensures Lowered(old(vec), old(scale), old(precision), vec, scale, precision, if shift < 0 then -shift else shift)
      ensures Val(Num()) == old(Val(Num())) <==>
        forall i :: old(precision) <= i < Min(precision, old(|vec|)) ==> old(vec)[i] == 0
      decreases if shift < 0 then 2 else 0
    {
      if shift < 0 {
        ShiftLeft(shift);
      } else {
        scale := scale + shift;
        if precision < scale {
          precision := scale;
        }
        Reserve(precision);
      }
      LoweredVal(old(vec), old(precision), vec, precision);
    }

    // One round of multiply: the row of place iy is built and added to the running sum.
    static method MultiplyRow(res: Numeric, row: Numeric, x: Numeric, y: Numeric, iy: nat, mult: nat, maxRoom: nat) returns (ok: bool)
      requires res != x && res != y && row != x && row != y && row != res && x.Valid() && y.Valid() && row.Valid() && res.Valid()
      requires iy < y.precision && mult == iy % 256 && maxRoom == x.precision * y.precision + 1
      requires |row.vec| == maxRoom && res.scale == 0
      requires Val(res.Num()) == Val(x.Num()) * ByteShifted(y.vec[..iy])
      requires iy > 0 ==> Val(x.Num()) != 0 && y.vec[0] != 0
      modifies res, row
      ensures ok <==> Val(x.Num()) != 0 && y.vec[0] != 0
      ensures ok ==> res.Valid() && res.scale == 0 && Blank(res.vec, res.precision) && |res.vec| >= old(|res.vec|)
      ensures ok ==> row.Valid() && |row.vec| == maxRoom
      ensures ok ==> Val(res.Num()) == Val(x.Num()) * ByteShifted(y.vec[..iy + 1])
    {
      RoomForRow(x.precision, y.precision, iy);
      BuildRow(row, x, y.vec[iy], maxRoom, mult);
      RowAdds(y.vec, iy, Val(x.Num()));
      RowTotal(y.vec, iy, Val(x.Num()));
      ok := res.AddRow(row);
    }

    // multiply: ok is false when the first row is zero, which sends cutjunk out of the buffer. With a second factor that
    // has no digits there are no rows: the point of the result moves over what is left above the first place of its
    // buffer, and can move out of it.
    static method Multiply(res: Numeric, x: Numeric, y: Numeric) returns (ok: bool)
      requires res != x && res != y && res.Valid() && x.Valid() && y.Valid()
      modifies res
      ensures ok <==> y.precision == 0 || (Val(x.Num()) != 0 && y.vec[0] != 0)
      ensures ok ==> res.scale == x.scale + y.scale && (res.Valid() <==> y.precision > 0 || x.scale <= |res.vec|)
      ensures ok && y.precision == 0 ==> res.vec == [0] + old(res.vec)[1..] && res.precision == res.scale
      ensures ok && res.Valid() && (y.precision > 0 || Blank(old(res.vec), 1)) ==>
        Val(res.Num()) == Val(x.Num()) * ByteShifted(y.Num())
      ensures ok && res.Valid() && (y.precision > 0 || Blank(old(res.vec), 1)) ==>
        (Val(res.Num()) == Val(x.Num()) * Val(y.Num()) <==> forall i :: 256 <= i < y.precision ==> y.vec[i] == 0)
    {
      var maxRoom := x.precision * y.precision + 1;
      res.Reserve(maxRoom);
      res.vec := seq(maxRoom, i => 0) + res.vec[maxRoom..];
      res.precision := 0;
      res.scale := 0;
      var row := new Numeric();
      row.Reserve(maxRoom);
      ok := SumRows(res, row, x, y, maxRoom);
      if !ok {
        return;
      }
      if y.precision > 0 {
        RoomForScale(x.precision, y.precision);
        ProductExact(Val(x.Num()), y.Num());
      } else {
        assert y.Num() == [] && maxRoom == 1;
      }
      res.Widen(x.scale + y.scale);
    }

    // The loop of multiply.
    static method SumRows(res: Numeric, row: Numeric, x: Numeric, y: Numeric, maxRoom: nat) returns (ok: bool)
      requires res != x && res != y && row != x && row != y && row != res && x.Valid() && y.Valid() && row.Valid() && res.Valid()
      requires maxRoom == x.precision * y.precision + 1 && |row.vec| == maxRoom && res.scale == res.precision == 0
      requires |res.vec| >= maxRoom
      modifies res, row
      ensures ok <==> y.precision == 0 || (Val(x.Num()) != 0 && y.vec[0] != 0)
      ensures ok ==> res.Valid() && res.scale == 0 && |res.vec| >= maxRoom
      ensures ok ==> Val(res.Num()) == Val(x.Num()) * ByteShifted(y.Num())
      ensures if y.precision == 0 then res.vec == old(res.vec) && res.precision == 0 else ok ==> Blank(res.vec, res.precision)
    {
      var mult, iy: nat := 0, 0;
      while iy < y.precision
        invariant iy <= y.precision && mult == iy % 256 && row.Valid() && |row.vec| == maxRoom
        invariant res.Valid() && res.scale == 0 && |res.vec| >= maxRoom
        invariant Val(res.Num()) == Val(x.Num()) * ByteShifted(y.vec[..iy])
        invariant if iy == 0 then res.vec == old(res.vec) && res.precision == 0
          else Val(x.Num()) != 0 && y.vec[0] != 0 && Blank(res.vec, res.precision)
      {
        ok := MultiplyRow(res, row, x, y, iy, mult, maxRoom);
        if !ok {
          return;
        }
        ByteStep(iy);
        mult := (mult + 1) % 256;
        iy := iy + 1;
      }
      assert y.vec[..y.precision] == y.Num();
      ok := true;
    }

    // The scale of the product; a number below one gets zeros up to the point.
    method Widen(scale: nat)
      requires Valid()
      modifies this
      ensures this.scale == scale && vec == old(vec) && precision == Max(old(precision), scale)
      ensures (Valid() <==> scale <= |vec|) && (Valid() && Blank(vec, old(precision)) ==> Val(Num()) == old(Val(Num())))
    {
      this.scale := scale;
      if precision < scale {
        if scale <= |vec| && Blank(vec, precision) {
          assert vec[..scale] == Zeros(0) + Num() + Zeros(scale - precision);
          ValPadded(0, Num(), scale - precision);
        }
        precision := scale;
      }
    }
  }

  // ----- the sum of the rows

  /** What multiply uses in place of the second factor: each digit weighs 10 to its place modulo 256. */
  ghost function ByteShifted(y: seq<nat>): nat {
    if y == [] then 0 else ByteShifted(y[..|y| - 1]) + Pow10((|y| - 1) % 256) * y[|y| - 1]
  }

  lemma RoomForRow(px: nat, py: nat, iy: nat)
    requires iy < py
    ensures px + 1 + iy % 256 <= px * py + 1 || px == 0
  {
    ModAtMost(iy);
    if px > 0 { RoomForScale(px, py); }
  }

  lemma ModAtMost(i: nat)
    ensures i % 256 <= i
  {}

  lemma ByteStep(i: nat)
    ensures (i % 256 + 1) % 256 == (i + 1) % 256
  {}

  lemma {:induction false} RoomForScale(px: nat, py: nat)
    requires px > 0 && py > 0
    ensures px + py <= px * py + 1
  {
    if py > 1 {
      RoomForScale(px, py - 1);
      assert px * py == px * (py - 1) + px;
    }
  }

  lemma RowAdds(y: seq<nat>, i: nat, p: nat)
    requires i < |y|
    ensures p * ByteShifted(y[..i + 1]) == p * ByteShifted(y[..i]) + Pow10(i % 256) * (p * y[i])
  {
    var a, w, d := ByteShifted(y[..i]), Pow10(i % 256), y[i];
    assert y[..i + 1][..i] == y[..i];
    assert ByteShifted(y[..i + 1]) == a + w * d;
    Spread(p, a, w, d);
  }

  lemma Spread(p: nat, a: nat, w: nat, d: nat)
    ensures p * (a + w * d) == p * a + w * (p * d)
  {
    assert p * (w * d) == w * (p * d);
  }

  lemma {:induction false} LowestCounts(y: seq<nat>)
    requires y != [] && y[0] != 0
    ensures ByteShifted(y) > 0
  {
    if |y| > 1 { LowestCounts(y[..|y| - 1]); }
  }

  /** The running sum is zero exactly when it consists of a zero first row. */
  lemma RowTotal(y: seq<nat>, i: nat, p: nat)
    requires i < |y| && (i > 0 ==> p != 0 && y[0] != 0)
    ensures p * ByteShifted(y[..i]) + Pow10(i % 256) * (p * y[i]) != 0 <==> p != 0 && y[0] != 0
  {
    Pow10Positive(i % 256);
    if i > 0 { LowestCounts(y[..i]); }
    RowZero(p, ByteShifted(y[..i]), Pow10(i % 256), y[i]);
  }

  lemma RowZero(p: nat, b: nat, w: nat, d: nat)
    requires w > 0
    ensures p * b + w * (p * d) != 0 <==> p != 0 && (b != 0 || d != 0)
  {
    ZeroProduct(p, b);
    ZeroProduct(p, d);
    ZeroProduct(w, p * d);
    SumOfNats(p * b, w * (p * d));
  }

  lemma SumOfNats(a: nat, b: nat)
    ensures a + b != 0 <==> a != 0 || b != 0
  {}

  lemma {:induction false} Pow10Strict(m: nat, n: nat)
    requires m < n
    ensures Pow10(m) < Pow10(n)
  {
    if m + 1 < n { Pow10Strict(m, n - 1); }
    Pow10Positive(m);
  }

  lemma {:induction false} Pow10Positive(n: nat)
    ensures Pow10(n) > 0
  {
    if n > 0 { Pow10Positive(n - 1); }
  }

  /** The product is exact if and only if the second factor has no digit at place 256 or above. */
  lemma {:induction false} ByteShiftedExact(y: seq<nat>)
    ensures ByteShifted(y) <= Val(y)
    ensures ByteShifted(y) == Val(y) <==> forall i :: 256 <= i < |y| ==> y[i] == 0
  {
    if y != [] {
      var n := |y| - 1;
      ByteShiftedExact(y[..n]);
      TopPlace(y);
      PlaceShift(n, y[n]);
    }
  }

  lemma TopPlace(y: seq<nat>)
    requires y != []
    ensures Val(y) == Val(y[..|y| - 1]) + Pow10(|y| - 1) * y[|y| - 1]
  {
    var n, low, top := |y| - 1, y[..|y| - 1], [y[|y| - 1]];
    assert y == low + top;
    ValConcat(low, top);
  }

  lemma PlaceShift(n: nat, d: nat)
    ensures Pow10(n % 256) * d <= Pow10(n) * d
    ensures Pow10(n % 256) * d == Pow10(n) * d <==> n < 256 || d == 0
  {
    if n < 256 {
      assert n % 256 == n;
    } else {
      Pow10Strict(n % 256, n);
      Weigh(Pow10(n % 256), Pow10(n), d);
    }
  }

  lemma ProductExact(p: nat, y: seq<nat>)
    requires p > 0
    ensures p * ByteShifted(y) <= p * Val(y)
    ensures p * ByteShifted(y) == p * Val(y) <==> forall i :: 256 <= i < |y| ==> y[i] == 0
  {
    ByteShiftedExact(y);
    SameFactor(p, ByteShifted(y), Val(y));
  }

  lemma SameFactor(p: nat, a: nat, b: nat)
    requires p > 0 && a <= b
    ensures p * a <= p * b && (p * a == p * b <==> a == b)
  {
    ZeroProduct(p, b - a);
    assert p * (b - a) == p * b - p * a;
  }

  // A product with 10 makes cutjunk step out of the buffer.
  method TimesTen(x: Numeric) returns (ok: bool)
    requires x.Valid()
    ensures !ok
  {
    var ten := new Numeric();
    var res := new Numeric();
    ten.vec, ten.precision := [0, 1], 2;
    ok := Numeric.Multiply(res, x, ten);
  }

  // A product with 10 to the power 256 and 1 is too small.
  method TimesLong(x: Numeric) returns (y: Numeric, res: Numeric, ok: bool)
    requires x.Valid() && Val(x.Num()) > 0
    ensures ok && y.Valid() && y.Num() == [1] + Zeros(255) + [1]
    ensures res.Valid() && Val(res.Num()) < Val(x.Num()) * Val(y.Num())
  {
    y := new Numeric();
    res := new Numeric();
    y.vec, y.precision := [1] + seq(255, i => 0) + [1], 257;
    assert y.Num() == [1] + Zeros(255) + [1] && y.vec[0] == 1 && y.vec[256] == 1;
    ok := Numeric.Multiply(res, x, y);
    ProductExact(Val(x.Num()), y.Num());
  }

  lemma Weigh(a: nat, b: nat, d: nat)
    requires a < b
    ensures a * d <= b * d && (a * d == b * d <==> d == 0)
  {
    assert (b - a) * d >= 0;
    if d > 0 { assert (b - a) * d > 0; }
  }

  /** The lowest i digits of the product are written and the rest is still to come. */
  ghost predicate MulState(v: seq<nat>, x: seq<nat>, d: nat, carry: nat, i: nat) {
    i <= |x| && i <= |v| && v[..i] + MulDigit(x[i..], d, carry) == MulDigit(x, d, 0)
  }

  lemma MulBegin(v: seq<nat>, x: seq<nat>, d: nat)
    ensures MulState(v, x, d, 0, 0)
  {
    assert x[0..] == x && v[..0] == [];
    assert [] + MulDigit(x, d, 0) == MulDigit(x, d, 0);
  }

  lemma MulStep(v: seq<nat>, x: seq<nat>, d: nat, carry: nat, i: nat)
    requires i < |x| && i < |v| && Digits(x) && d < 10 && carry < 9 && MulState(v, x, d, carry, i)
    ensures MulState(v[i := (x[i] * d + carry) % 10], x, d, (x[i] * d + carry) / 10, i + 1)
  {
    var s := x[i] * d + carry;
    assert x[i..][1..] == x[i + 1..];
    WrittenDigit(v, i, s % 10, MulDigit(x[i + 1..], d, s / 10));
  }

  lemma MulEnd(v: seq<nat>, x: seq<nat>, d: nat, carry: nat)
    requires MulState(v, x, d, carry, |x|)
    ensures v[..|x|] + [carry] == MulDigit(x, d, 0)
  {
    assert x[|x|..] == [];
  }

  /** The point is n places further left, and all digits up to it belong to the number. */
  ghost predicate Lowered(v: seq<nat>, scale: nat, precision: nat, v': seq<nat>, scale': nat, precision': nat, n: nat) {
    scale' == scale + n && precision' == Max(precision, scale') && v' == v + Zeros(Max(precision', |v|) - |v|)
  }

  /** The higher places count unless they hold zeros. */
  lemma HigherPlaces(w: seq<nat>, n: nat)
    requires n <= |w|
    ensures Val(w) == Val(w[..n]) <==> forall i :: n <= i < |w| ==> w[i] == 0
  {
    var more := w[n..];
    assert w == w[..n] + more;
    ValConcat(w[..n], more);
    AllZero(10, more);
    Pow10Positive(n);
    ZeroProduct(Pow10(n), Val(more));
    assert forall i :: n <= i < |w| ==> w[i] == more[i - n];
  }

  lemma LoweredVal(v: seq<nat>, precision: nat, v': seq<nat>, precision': nat)
    requires precision <= precision' && precision <= |v| && v' == v + Zeros(Max(precision', |v|) - |v|)
    ensures Val(v'[..precision']) == Val(v[..precision]) <==> forall i :: precision <= i < Min(precision', |v|) ==> v[i] == 0
  {
    var w := v'[..precision'];
    assert w[..precision] == v[..precision];
    HigherPlaces(w, precision);
    assert forall i :: precision <= i < precision' ==> w[i] == if i < |v| then v[i] else 0;
  }

  lemma RowShift(v: seq<nat>, precision: nat, shift: nat)
    requires precision + shift <= |v|
    ensures var v' := Zeros(shift) + v[..|v| - shift];
      && |v'| == |v| && v'[..precision + shift] == Zeros(shift) + v[..precision]
      && Val(v'[..precision + shift]) == Pow10(shift) * Val(v[..precision])
  {
    var v' := Zeros(shift) + v[..|v| - shift];
    assert v'[..precision + shift] == Zeros(shift) + v[..precision];
    ValConcat(Zeros(shift), v[..precision]);
    AllZero(10, Zeros(shift));
  }

  /** Dropping fraction zeros keeps the number and the top digits. */
  lemma DropTail(v: seq<nat>, precision: nat, scale: nat, tail: nat)
    requires tail <= scale <= precision <= |v| && Digits(v) && forall i :: 0 <= i < tail ==> v[i] == 0
    ensures var v' := v[tail..] + seq(tail, i => 0);
      && |v'| == |v| && Digits(v')
      && Amount(v'[..precision - tail], scale - tail, scale) == Val(v[..precision])
      && (tail == 0 ==> v' == v)
      && (forall i :: 0 <= i < |v| - tail ==> v'[i] == v[i + tail])
      && (Numeric.Blank(v, precision) ==> Numeric.Blank(v', precision - tail))
  {
    var v' := v[tail..] + seq(tail, i => 0);
    TailZeros(v[..precision], tail);
    assert v'[..precision - tail] == v[..precision][tail..];
  }

  lemma TailZeros(s: seq<nat>, tail: nat)
    requires tail <= |s| && forall i :: 0 <= i < tail ==> s[i] == 0
    ensures Val(s) == Pow10(tail) * Val(s[tail..])
  {
    assert s == Zeros(tail) + s[tail..] + Zeros(0);
    ValPadded(tail, s[tail..], 0);
  }

  lemma PlaceDecides(a: seq<nat>, b: seq<nat>, i: nat)
    requires |a| == |b| && i < |a| && Digits(a) && Digits(b) && a[i + 1..] == b[i + 1..] && a[i] != b[i]
    ensures Val(a) > Val(b) <==> a[i] > b[i]
    ensures Val(a) < Val(b) <==> a[i] < b[i]
  {
    if a[i] > b[i] { FirstDifference(10, a, b, i); } else { FirstDifference(10, b, a, i); }
  }

  lemma PlaceEqual(a: seq<nat>, b: seq<nat>, i: nat)
    requires |a| == |b| && i < |a| && a[i + 1..] == b[i + 1..] && a[i] == b[i]
    ensures a[i..] == b[i..]
  {
    assert a[i..] == [a[i]] + a[i + 1..] && b[i..] == [b[i]] + b[i + 1..];
  }

  /** With equal upper places, digits below the other number's last place make a number larger. */
  lemma LowestDecides(a: seq<nat>, b: seq<nat>, n: nat)
    requires |a| == |b| && 0 < n <= |a| && a[n..] == b[n..] && a[0] != 0
    requires forall i :: 0 <= i < n ==> b[i] == 0
    ensures Val(a) > Val(b)
  {
    assert a == a[..n] + a[n..] && b == b[..n] + a[n..];
    SameTop(10, a[..n], b[..n], a[n..]);
    AllZero(10, b[..n]);
    assert a[..n][0] != 0;
    AllZero(10, a[..n]);
  }

  /** The lowest i digits of the difference are written and the rest is still to come. */
  ghost predicate SubState(v: seq<nat>, a: seq<nat>, b: seq<nat>, borrow: bool, i: nat)
    requires |a| == |b| && Digits(a) && Digits(b)
  {
    && i <= |a| && i <= |v|
    && v[..i] + SubDigits(a[i..], b[i..], borrow) == SubDigits(a, b, false)
    && BorrowOut(a[i..], b[i..], borrow) == BorrowOut(a, b, false)
  }

  lemma SubStep(v: seq<nat>, a: seq<nat>, b: seq<nat>, borrow: bool, i: nat)
    requires |a| == |b| && i < |a| && i < |v| && Digits(a) && Digits(b) && SubState(v, a, b, borrow, i)
    ensures SubState(v[i := SubDigit(a[i], b[i], borrow)], a, b, a[i] < b[i] + if borrow then 1 else 0, i + 1)
  {
    var d := SubDigit(a[i], b[i], borrow);
    assert a[i..][1..] == a[i + 1..] && b[i..][1..] == b[i + 1..];
    assert v[i := d][..i + 1] == v[..i] + [d];
  }

  /** The lowest i digits of the sum are written and the rest is still to come. */
  ghost predicate AddState(v: seq<nat>, a: seq<nat>, b: seq<nat>, carry: nat, i: nat)
    requires |a| == |b|
  {
    i <= |a| && i <= |v| && v[..i] + AddDigits(a[i..], b[i..], carry) == AddDigits(a, b, 0)
  }

  lemma AddStep(v: seq<nat>, a: seq<nat>, b: seq<nat>, carry: nat, i: nat)
    requires |a| == |b| && i < |a| && i < |v| && AddState(v, a, b, carry, i)
    ensures var s := a[i] + b[i] + carry; AddState(v[i := s % 10], a, b, s / 10, i + 1)
  {
    var s := a[i] + b[i] + carry;
    assert a[i..][1..] == a[i + 1..] && b[i..][1..] == b[i + 1..];
    WrittenDigit(v, i, s % 10, AddDigits(a[i + 1..], b[i + 1..], s / 10));
  }

  lemma WrittenDigit(v: seq<nat>, i: nat, d: nat, rest: seq<nat>)
    requires i < |v|
    ensures v[i := d][..i + 1] + rest == v[..i] + ([d] + rest)
  {}

  lemma AddBegin(v: seq<nat>, a: seq<nat>, b: seq<nat>)
    requires |a| == |b|
    ensures AddState(v, a, b, 0, 0)
  {
    assert a[0..] == a && b[0..] == b && v[..0] == [];
    assert [] + AddDigits(a, b, 0) == AddDigits(a, b, 0);
  }

  lemma AddEnd(v: seq<nat>, a: seq<nat>, b: seq<nat>, carry: nat)
    requires |a| == |b| && AddState(v, a, b, carry, |a|)
    ensures v[..|a|] + [carry] == AddDigits(a, b, 0)
  {
    assert a[|a|..] == [] && b[|a|..] == [];
  }
}
