/** Rescaling 128-bit decimals, and the money values built from them. */
module DecimalRescale {
  import opened ByteCodec
  import opened DecimalText
  import RowFormat

  const I128_MAX := 0x7FFF_FFFF_FFFF_FFFF_FFFF_FFFF_FFFF_FFFF
  const I128_MIN := -0x8000_0000_0000_0000_0000_0000_0000_0000

  predicate FitsI128(v: int) { I128_MIN <= v <= I128_MAX }

  /** Division that truncates toward zero. */
  function TruncDiv(a: int, b: int): int
    requires b > 0
  {
    if a >= 0 then a / b else -(-a / b)
  }

  /** The two error returns of the conversion, and the addition of half a unit leaving the type. */
  datatype Rescaled = Scaled(value: i128) | ScaleOverflow | ValueOverflow | HalfOverflow

  function HalfAway(raw: int, div: int): int { if raw >= 0 then raw + div / 2 else raw - div / 2 }

  /** `rescale_decimal128`. */
  function Rescale(raw: i128, from: byte, to: byte): Rescaled {
    if from == to then Scaled(raw)
    else if from < to then
      var factor := Pow10(to - from);
      if !FitsI128(factor) then ScaleOverflow
      else if !FitsI128(raw * factor) then ValueOverflow
      else Scaled(raw * factor)
    else
      var div := Pow10(from - to);
      if !FitsI128(div) then ScaleOverflow
      else if !FitsI128(HalfAway(raw, div)) then HalfOverflow
      else
        TruncSmaller(HalfAway(raw, div), div);
        Scaled(TruncDiv(HalfAway(raw, div), div))
  }

  lemma TruncSmaller(a: int, b: int)
    requires b > 0 && FitsI128(a)
    ensures FitsI128(TruncDiv(a, b))
  {
    QuotientSmaller(if a < 0 then -a else a, b);
  }

  lemma QuotientSmaller(a: nat, b: int)
    requires b > 0
    ensures 0 <= a / b <= a
  {
    DivMod(a, b);
    ProductGrows(a / b, b);
  }

  lemma DivMod(a: nat, b: int)
    requires b > 0
    ensures a == a / b * b + a % b && 0 <= a % b < b && a / b >= 0
  {
  }

  lemma ProductGrows(m: int, d: int)
    requires m >= 0 && d >= 1
    ensures m * d >= m
  {
  }

  lemma Less(a: int, b: int, d: int)
    requires a < b && d > 0
    ensures a * d + d <= b * d
  {
    ProductGrows(b - a - 1, d);
    Difference(b, a, d);
    Difference(b - a, 1, d);
  }

  lemma Difference(a: int, b: int, d: int)
    ensures (a - b) * d == a * d - b * d
  {
  }

  // Nearest multiple

  function Abs(x: int): nat { if x < 0 then -x else x }

  /** How far `raw` is from the `k`th multiple of `div`. */
  ghost function Gap(raw: int, div: int, k: int): nat { Abs(raw - k * div) }

  /** No multiple of `div` is closer to `raw` than `q * div`, and among equally close ones `q` is
      farthest from zero. */
  ghost predicate Nearest(raw: int, div: int, q: int) {
    forall k: int :: Gap(raw, div, q) <= Gap(raw, div, k) && (Gap(raw, div, q) == Gap(raw, div, k) ==> Abs(k) <= Abs(q))
  }

  /** Every other multiple lies at least a whole step away. */
  lemma RoundUpNearest(raw: nat, half: int)
    requires half > 0
    ensures (raw + half) / (2 * half) >= 0 && Nearest(raw, 2 * half, (raw + half) / (2 * half))
  {
    var div := 2 * half;
    DivMod(raw + half, div);
    var q := (raw + half) / div;
    forall k: int
      ensures Gap(raw, div, q) <= Gap(raw, div, k)
      ensures Gap(raw, div, q) == Gap(raw, div, k) ==> Abs(k) <= Abs(q)
    {
      Closest(raw, half, q, k);
    }
  }

  lemma Closest(raw: nat, half: int, q: int, k: int)
    requires half > 0 && q >= 0 && -half <= raw - q * (2 * half) < half
    ensures Gap(raw, 2 * half, q) <= Gap(raw, 2 * half, k)
    ensures Gap(raw, 2 * half, q) == Gap(raw, 2 * half, k) ==> Abs(k) <= Abs(q)
  {
    var div := 2 * half;
    if k < q {
      Less(k, q, div);
      if k < 0 {
        Less(k, 0, div);
      }
    } else if k > q {
      Less(q, k, div);
    }
  }

  lemma GapOdd(raw: int, div: int, k: int)
    ensures Gap(-raw, div, -k) == Gap(raw, div, k)
  {
    assert -k * div == -(k * div);
  }

  lemma NearestOdd(raw: int, div: int, q: int)
    requires Nearest(raw, div, q)
    ensures Nearest(-raw, div, -q)
  {
    hide Gap;
    GapOdd(raw, div, q);
    forall k: int
      ensures Gap(-raw, div, -q) <= Gap(-raw, div, k)
      ensures Gap(-raw, div, -q) == Gap(-raw, div, k) ==> Abs(k) <= Abs(-q)
    {
      GapOdd(raw, div, -k);
    }
  }

  /** The nearest multiple is unique. */
  lemma NearestUnique(raw: int, div: int, p: int, q: int)
    requires div > 0 && Nearest(raw, div, p) && Nearest(raw, div, q)
    ensures p == q
  {
    assert Gap(raw, div, p) == Gap(raw, div, q) && Abs(p) == Abs(q);
    if p != q {
      assert -q * div == -(q * div);
      assert Gap(raw, div, q) <= Gap(raw, div, 0);
      if q > 0 {
        Less(0, q, div);
      } else {
        Less(q, 0, div);
      }
    }
  }

  // The conversion

  lemma {:induction false} Pow10Grows(m: nat, n: nat)
    requires m <= n
    ensures Pow10(m) <= Pow10(n)
  {
    if m < n {
      Pow10Grows(m, n - 1);
    }
  }

  lemma Pow10Of38()
    ensures Pow10(38) == 100_000_000_000_000_000_000_000_000_000_000_000_000
  {
    assert Pow10(10) == 10_000_000_000;
    assert Pow10(20) == 100_000_000_000_000_000_000;
    assert Pow10(30) == 1_000_000_000_000_000_000_000_000_000_000;
  }

  /** A power of ten is representable exactly up to the exponent 38. */
  lemma Pow10FitsIff(n: nat)
    ensures FitsI128(Pow10(n)) <==> n <= 38
  {
    Pow10Of38();
    if n <= 38 {
      Pow10Grows(n, 38);
    } else {
      Pow10Grows(39, n);
    }
  }

  lemma Pow10Even(n: nat)
    requires n > 0
    ensures Pow10(n) == 2 * (Pow10(n) / 2) && Pow10(n) / 2 > 0
  {
    var p := Pow10(n - 1);
    assert Pow10(n) == 10 * p;
    assert 10 * p / 2 == 5 * p;
  }

  function Distance(a: byte, b: byte): nat { if a < b then b - a else a - b }

  /** Exactly when the result is an error: the scales are more than 38 apart, the value does not fit after
      raising the scale, or it lies within half a unit of the end of the type when lowering it. */
  lemma RescaleErrorsIff(raw: i128, from: byte, to: byte)
    ensures Rescale(raw, from, to).ScaleOverflow? <==> Distance(from, to) > 38
    ensures Rescale(raw, from, to).ValueOverflow? <==>
            from < to && to - from <= 38 && !FitsI128(raw * Pow10(to - from))
    ensures Rescale(raw, from, to).HalfOverflow? <==>
            from > to && from - to <= 38 && !(I128_MIN + Pow10(from - to) / 2 <= raw <= I128_MAX - Pow10(from - to) / 2)
  {
    Pow10FitsIff(Distance(from, to));
    if from > to {
      Pow10Even(from - to);
    }
  }

  /** The largest value has no room for the half unit. */
  lemma LargestHasNoRoom()
    ensures Rescale(I128_MAX, 5, 4) == HalfOverflow
  {
    assert Pow10(1) == 10;
  }

  /** Lowering the scale never overflows for values of at most 38 digits. */
  lemma DecimalsNeverOverflow(raw: i128, from: byte, to: byte)
    requires Abs(raw) < Pow10(38) && from >= to
    ensures Rescale(raw, from, to).Scaled? <==> from - to <= 38
  {
    RescaleErrorsIff(raw, from, to);
    Pow10Of38();
    if to < from && from - to <= 38 {
      Pow10Grows(from - to, 38);
    }
  }

  /** Raising the scale, or keeping it, keeps the value exactly. */
  lemma RaisingIsExact(raw: i128, from: byte, to: byte)
    requires from <= to && Rescale(raw, from, to).Scaled?
    ensures Rescale(raw, from, to).value * Pow10(from) == raw * Pow10(to)
  {
    hide Pow10;
    Pow10Sum(from, to - from);
    Reassociate(raw, Pow10(to - from), Pow10(from));
  }

  lemma Reassociate(a: int, b: int, c: int)
    ensures a * b * c == a * (c * b)
  {
  }

  lemma {:induction false} Pow10Sum(a: nat, b: nat)
    ensures Pow10(a + b) == Pow10(a) * Pow10(b)
  {
    if b > 0 {
      Pow10Sum(a, b - 1);
      assert a + b - 1 == a + (b - 1);
      assert Pow10(a) * (10 * Pow10(b - 1)) == 10 * (Pow10(a) * Pow10(b - 1));
    }
  }

  /** Lowering the scale gives the nearest value, ties away from zero. */
  lemma LoweringIsNearest(raw: i128, from: byte, to: byte)
    requires from > to && Rescale(raw, from, to).Scaled?
    ensures Nearest(raw, Pow10(from - to), Rescale(raw, from, to).value)
  {
    hide Nearest, Pow10;
    var div := Pow10(from - to);
    Pow10Even(from - to);
    if raw >= 0 {
      RoundUpNearest(raw, div / 2);
    } else {
      RoundUpNearest(-raw, div / 2);
      NearestOdd(-raw, div, (-raw + div / 2) / div);
    }
  }

  /** Lowering the scale commutes with negation, wherever the half-unit addition stays in the type. */
  lemma RescaleOdd(raw: i128, from: byte, to: byte)
    requires raw != I128_MIN && from > to && Rescale(raw, from, to).Scaled? && Rescale(-raw, from, to).Scaled?
    ensures Rescale(-raw, from, to).value == -Rescale(raw, from, to).value
  {
    hide Nearest, Pow10;
    LoweringIsNearest(raw, from, to);
    LoweringIsNearest(-raw, from, to);
    NearestOdd(raw, Pow10(from - to), Rescale(raw, from, to).value);
    NearestUnique(-raw, Pow10(from - to), -Rescale(raw, from, to).value, Rescale(-raw, from, to).value);
  }

  /** Order is kept. */
  lemma RescaleMonotone(a: i128, b: i128, from: byte, to: byte)
    requires a <= b && Rescale(a, from, to).Scaled? && Rescale(b, from, to).Scaled?
    ensures Rescale(a, from, to).value <= Rescale(b, from, to).value
  {
    hide Pow10;
    if from < to {
      if a < b {
        Less(a, b, Pow10(to - from));
      }
    } else if from > to {
      var div := Pow10(from - to);
      Pow10Even(from - to);
      TruncMonotone(HalfAway(a, div), HalfAway(b, div), div);
    }
  }

  lemma TruncMonotone(a: int, b: int, div: int)
    requires a <= b && div > 0
    ensures TruncDiv(a, div) <= TruncDiv(b, div)
  {
    if a >= 0 {
      DivMonotone(a, b, div);
    } else if b < 0 {
      DivMonotone(-b, -a, div);
    } else {
      DivMonotone(0, -a, div);
      DivMonotone(0, b, div);
    }
  }

  lemma DivMonotone(a: nat, b: nat, div: int)
    requires a <= b && div > 0
    ensures a / div <= b / div
  {
    DivMod(a, div);
    DivMod(b, div);
    if a / div > b / div {
      Less(b / div, a / div, div);
    }
  }

  /** Raising a scale is undone by lowering it again, unless the raised value is within half a unit of
      the end of the type. */
  lemma RaiseThenLower(raw: i128, from: byte, to: byte)
    requires from < to && Rescale(raw, from, to).Scaled?
    ensures var back := Rescale(Rescale(raw, from, to).value, to, from); back == Scaled(raw) || back.HalfOverflow?
  {
    hide Nearest, Pow10;
    var f := Pow10(to - from);
    var up: i128 := raw * f;
    if Rescale(up, to, from).Scaled? {
      LoweringIsNearest(up, to, from);
      assert Nearest(up, f, raw) by { ExactIsNearest(raw, f); }
      NearestUnique(up, f, raw, Rescale(up, to, from).value);
    }
  }

  lemma ExactIsNearest(q: int, div: int)
    requires div > 0
    ensures Nearest(q * div, div, q)
  {
    forall k: int
      ensures Gap(q * div, div, q) <= Gap(q * div, div, k)
      ensures Gap(q * div, div, q) == Gap(q * div, div, k) ==> Abs(k) <= Abs(q)
    {
      if q < k {
        Less(q, k, div);
      } else if k < q {
        Less(k, q, div);
      }
    }
  }

  // Money

  datatype MoneyResult = MoneyCell(cell: RowFormat.Cell) | OutOfRange | RescaleError

  function Low32(v: i64): i32 {
    var low := v % 0x1_0000_0000;
    if low < 0x8000_0000 then low else low - 0x1_0000_0000
  }

  function High32(v: i64): i32 { v / 0x1_0000_0000 }

  predicate FitsI64(v: int) { -0x8000_0000_0000_0000 <= v < 0x8000_0000_0000_0000 }

  predicate FitsI32(v: int) { -0x8000_0000 <= v < 0x8000_0000 }

  /** The money arm: four decimal places, split into two signed halves. */
  function ToMoney(raw: i128, scale: byte): MoneyResult {
    match Rescale(raw, scale, 4)
    case Scaled(v) => if FitsI64(v) then MoneyCell(RowFormat.Money(Low32(v), High32(v))) else OutOfRange
    case _ => RescaleError
  }

  function ToSmallMoney(raw: i128, scale: byte): MoneyResult {
    match Rescale(raw, scale, 4)
    case Scaled(v) => if FitsI32(v) then MoneyCell(RowFormat.SmallMoney(v)) else OutOfRange
    case _ => RescaleError
  }

  /** The decoder's recombination undoes the split, for every 64-bit value. */
  lemma SplitUndone(v: i64)
    ensures RowFormat.Kept(RowFormat.Money(Low32(v), High32(v))) == RowFormat.RawMoney(v)
  {
    assert Low32(v) % 0x1_0000_0000 == v % 0x1_0000_0000;
  }

  /** `m` is `raw` at four decimal places. */
  ghost predicate FourPlaces(raw: int, scale: byte, m: int) {
    if scale <= 4 then m * Pow10(scale) == raw * Pow10(4) else Nearest(raw, Pow10(scale - 4), m)
  }

  /** What the client reads of a money column is the decimal at four places, to the nearest; a value is
      refused exactly when that does not fit. */
  lemma MoneyArrives(raw: i128, scale: byte)
    ensures ToMoney(raw, scale).MoneyCell? ==>
              exists m: i64 ::
                RowFormat.Kept(ToMoney(raw, scale).cell) == RowFormat.RawMoney(m) && FourPlaces(raw, scale, m)
    ensures ToMoney(raw, scale).OutOfRange? ==> exists m: i128 :: FourPlaces(raw, scale, m) && !FitsI64(m)
    ensures ToSmallMoney(raw, scale).MoneyCell? ==>
              exists m: i32 ::
                RowFormat.Kept(ToSmallMoney(raw, scale).cell) == RowFormat.RawMoney(m) && FourPlaces(raw, scale, m)
    ensures ToSmallMoney(raw, scale).OutOfRange? ==> exists m: i128 :: FourPlaces(raw, scale, m) && !FitsI32(m)
  {
    hide Pow10, Nearest, Low32, High32;
    if Rescale(raw, scale, 4).Scaled? {
      var m := Rescale(raw, scale, 4).value;
      if scale <= 4 {
        RaisingIsExact(raw, scale, 4);
      } else {
        LoweringIsNearest(raw, scale, 4);
      }
      assert FourPlaces(raw, scale, m);
      if FitsI64(m) {
        SplitUndone(m);
      }
    }
  }

  lemma FourPlacesUnique(raw: int, scale: byte, m: int, n: int)
    requires FourPlaces(raw, scale, m) && FourPlaces(raw, scale, n)
    ensures m == n
  {
    if scale <= 4 {
      if m < n {
        Less(m, n, Pow10(scale));
      } else if n < m {
        Less(n, m, Pow10(scale));
      }
    } else {
      NearestUnique(raw, Pow10(scale - 4), m, n);
    }
  }

  lemma RaisedPlaces(raw: int, scale: byte)
    requires scale <= 4
    ensures FourPlaces(raw, scale, raw * Pow10(4 - scale))
  {
    Pow10Sum(scale, 4 - scale);
    Reassociate(raw, Pow10(4 - scale), Pow10(scale));
  }

  /** A decimal of at most 38 digits becomes a money value exactly when its value at four places fits. */
  lemma MoneyAcceptedIff(raw: i128, scale: byte)
    requires Abs(raw) < Pow10(38) && scale <= 42
    ensures ToMoney(raw, scale).MoneyCell? <==> exists m: i64 :: FourPlaces(raw, scale, m)
    ensures ToSmallMoney(raw, scale).MoneyCell? <==> exists m: i32 :: FourPlaces(raw, scale, m)
  {
    hide Pow10, Nearest, FourPlaces, Low32, High32;
    MoneyArrives(raw, scale);
    var v: int;
    if scale <= 4 {
      v := raw * Pow10(4 - scale);
      RaisedPlaces(raw, scale);
      RescaleErrorsIff(raw, scale, 4);
    } else {
      DecimalsNeverOverflow(raw, scale, 4);
      v := Rescale(raw, scale, 4).value;
      LoweringPlaces(raw, scale);
    }
    forall m: int | FourPlaces(raw, scale, m) ensures m == v {
      FourPlacesUnique(raw, scale, m, v);
    }
  }

  lemma LoweringPlaces(raw: i128, scale: byte)
    requires scale > 4 && Rescale(raw, scale, 4).Scaled?
    ensures FourPlaces(raw, scale, Rescale(raw, scale, 4).value)
  {
    LoweringIsNearest(raw, scale, 4);
  }
}
