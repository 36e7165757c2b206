/** Decimal text: natural numbers, and `decimal128_to_string`. */
module DecimalText {
  import opened ByteCodec

  type i128 = x: int | -0x8000_0000_0000_0000_0000_0000_0000_0000 <= x < 0x8000_0000_0000_0000_0000_0000_0000_0000

  predicate IsDigit(c: char) { '0' <= c <= '9' }

  predicate Digits(s: string) { forall i :: 0 <= i < |s| ==> IsDigit(s[i]) }

  function DigitChar(d: int): (c: char)
    requires 0 <= d < 10
    ensures IsDigit(c) && DigitValue(c) == d
  {
    '0' + d as char
  }

  function DigitValue(c: char): int
    requires IsDigit(c)
  {
    c as int - '0' as int
  }

  /** `to_string` of a natural number. */
  function NatText(n: nat): (s: string)
    ensures s != "" && Digits(s)
  {
    if n < 10 then [DigitChar(n)] else NatText(n / 10) + [DigitChar(n % 10)]
  }

  function NatOf(s: string): nat
    requires Digits(s)
  {
    if s == "" then 0 else 10 * NatOf(s[..|s| - 1]) + DigitValue(s[|s| - 1])
  }

  lemma {:induction false} NatTextRoundTrip(n: nat)
    ensures NatOf(NatText(n)) == n
  {
    var s := NatText(n);
    if n < 10 {
      assert s[..0] == "";
    } else {
      NatTextRoundTrip(n / 10);
      assert s[..|s| - 1] == NatText(n / 10);
    }
  }

  lemma {:induction false} NatTextLead(n: nat)
    ensures NatText(n)[0] == '0' ==> |NatText(n)| == 1
    ensures n > 0 ==> NatText(n)[0] != '0'
  {
    if n >= 10 {
      NatTextLead(n / 10);
    }
  }

  /** Different numbers print differently. */
  lemma NatTextInjective(a: nat, b: nat)
    requires NatText(a) == NatText(b)
    ensures a == b
  {
    NatTextRoundTrip(a);
    NatTextRoundTrip(b);
  }

  function Zeros(n: nat): (z: string)
    ensures |z| == n && Digits(z)
  {
    if n == 0 then "" else "0" + Zeros(n - 1)
  }

  lemma {:induction false} LeadingZero(s: string)
    requires Digits(s)
    ensures NatOf("0" + s) == NatOf(s)
  {
    var t := "0" + s;
    if s == "" {
      assert t[..0] == "";
    } else {
      assert t[..|t| - 1] == "0" + s[..|s| - 1];
      LeadingZero(s[..|s| - 1]);
    }
  }

  lemma {:induction false} LeadingZeros(n: nat, s: string)
    requires Digits(s)
    ensures NatOf(Zeros(n) + s) == NatOf(s)
  {
    if n == 0 {
      assert Zeros(0) + s == s;
    } else {
      LeadingZeros(n - 1, s);
      assert Zeros(n) + s == "0" + (Zeros(n - 1) + s);
      LeadingZero(Zeros(n - 1) + s);
    }
  }

  // Reading decimal text as an exact rational

  /** Sign, integer digits and fraction digits; the value is ±(int frac) / 10^|frac|. */
  datatype Decimal = Decimal(negative: bool, whole: string, fraction: string) {
    ghost predicate Valid() { Digits(whole) && whole != "" && Digits(fraction) }

    /** The value times ten to the number of fraction digits. */
    ghost function Numerator(): int
      requires Valid()
    {
      var n: int := NatOf(whole + fraction);
      if negative then -n else n
    }

    ghost function Value(): real
      requires Valid()
    {
      Numerator() as real / Pow10(|fraction|) as real
    }
  }

  function Pow10(n: nat): (p: nat)
    ensures p >= 1
  {
    if n == 0 then 1 else 10 * Pow10(n - 1)
  }

  function DotAt(s: string, i: nat): (d: nat)
    requires i <= |s|
    ensures i <= d <= |s|
    decreases |s| - i
  {
    if i == |s| || s[i] == '.' then i else DotAt(s, i + 1)
  }

  /** Digits, or digits, a dot and digits. */
  function ReadUnsigned(body: string, negative: bool): Option<Decimal> {
    var dot := DotAt(body, 0);
    var whole := body[..dot];
    var fraction := if dot < |body| then body[dot + 1..] else "";
    if Digits(whole) && whole != "" && Digits(fraction) && (dot < |body| ==> fraction != "")
    then Some(Decimal(negative, whole, fraction)) else None
  }

  function ReadDecimal(text: string): Option<Decimal> {
    if text != "" && text[0] == '-' then ReadUnsigned(text[1..], true) else ReadUnsigned(text, false)
  }

  lemma {:induction false} DotAtDigits(digits: string, rest: string, i: nat)
    requires Digits(digits) && i <= |digits| && (rest == "" || rest[0] == '.')
    ensures DotAt(digits + rest, i) == |digits|
    decreases |digits| - i
  {
    if i < |digits| {
      assert (digits + rest)[i] == digits[i];
      DotAtDigits(digits, rest, i + 1);
    } else if rest != "" {
      assert (digits + rest)[i] == '.';
    }
  }

  lemma ReadUnsignedSpelled(whole: string, tail: string, fraction: string, negative: bool)
    requires Digits(whole) && whole != "" && Digits(fraction) && tail == if fraction == "" then "" else "." + fraction
    ensures ReadUnsigned(whole + tail, negative) == Some(Decimal(negative, whole, fraction))
  {
    DotAtDigits(whole, tail, 0);
    hide DotAt, Digits;
    var body := whole + tail;
    assert body[..|whole|] == whole;
    if fraction != "" {
      assert body[|whole| + 1..] == fraction;
    }
  }

  /** Text spelled as sign, digits and an optional fraction reads back as its parts. */
  lemma ReadSpelled(negative: bool, whole: string, fraction: string)
    requires Digits(whole) && whole != "" && Digits(fraction)
    ensures ReadDecimal((if negative then "-" else "") + whole + (if fraction == "" then "" else "." + fraction))
         == Some(Decimal(negative, whole, fraction))
  {
    hide ReadUnsigned;
    var tail := if fraction == "" then "" else "." + fraction;
    var text := (if negative then "-" else "") + whole + tail;
    ReadUnsignedSpelled(whole, tail, fraction, negative);
    if negative {
      assert text[1..] == whole + tail;
    } else {
      assert text == whole + tail && text[0] == whole[0] && IsDigit(whole[0]);
    }
  }

  function Magnitude(raw: int): nat { if raw < 0 then -raw else raw }

  /** The text reads back as exactly raw / 10^scale: `scale` fraction digits, and no zero in front of
      the integer part unless it is the only digit. */
  ghost predicate Spells(text: string, raw: int, scale: nat) {
    var d := ReadDecimal(text);
    && d.Some? && d.value.Valid()
    && |d.value.fraction| == scale && d.value.Numerator() == raw
    && d.value.Value() == raw as real / Pow10(scale) as real
    && (d.value.whole[0] == '0' ==> |d.value.whole| == 1)
    && (d.value.negative <==> raw < 0)
  }

  lemma SpelledValue(whole: string, fraction: string, raw: int)
    requires Digits(whole) && whole != "" && Digits(fraction) && (whole[0] == '0' ==> |whole| == 1)
    requires NatOf(whole + fraction) == Magnitude(raw)
    ensures var tail := if fraction == "" then "" else "." + fraction;
            Spells((if raw < 0 then "-" else "") + whole + tail, raw, |fraction|)
  {
    hide ReadDecimal, NatOf, Pow10;
    ReadSpelled(raw < 0, whole, fraction);
  }

  /** `decimal128_to_string`. */
  method Decimal128ToString(raw: i128, scale: byte) returns (out: string)
    ensures Spells(out, raw, scale)
  {
    hide Spells, NatOf, NatText, Zeros;
    var neg := raw < 0;
    var s := NatText(Magnitude(raw));
    NatTextRoundTrip(Magnitude(raw));
    NatTextLead(Magnitude(raw));
    if scale == 0 {
      out := (if neg then "-" else "") + s;
      assert s + "" == s;
      assert (if neg then "-" else "") + s + "" == out;
      SpelledValue(s, "", raw);
      return;
    }
    var wholePart, fracPart := "0", s;
    if |s| > scale {
      var split := |s| - scale;
      wholePart, fracPart := s[..split], s[split..];
      assert wholePart + fracPart == s;
    }
    var pad := if scale >= |fracPart| then scale - |fracPart| else 0;
    out := "";
    if neg {
      out := out + "-";
    }
    out := out + wholePart;
    out := out + ".";
    out := PadAndAppend(out, pad, fracPart);
    ghost var fraction := Zeros(pad) + fracPart;
    assert out == (if neg then "-" else "") + wholePart + ("." + fraction);
    FractionKeepsValue(s, wholePart, fracPart, pad, scale);
    SpelledValue(wholePart, fraction, raw);
  }

  /** Left-pads the fraction with zeros. */
  method PadAndAppend(head: string, pad: nat, fracPart: string) returns (out: string)
    ensures out == head + (Zeros(pad) + fracPart)
  {
    out := head;
    for i := 0 to pad
      invariant out == head + Zeros(i)
    {
      ZerosSnoc(i);
      out := out + "0";
    }
    out := out + fracPart;
  }

  lemma {:induction false} ZerosSnoc(n: nat)
    ensures Zeros(n) + "0" == Zeros(n + 1)
  {
    if n > 0 {
      ZerosSnoc(n - 1);
      assert Zeros(n) + "0" == "0" + (Zeros(n - 1) + "0");
    }
  }

  lemma FractionKeepsValue(s: string, wholePart: string, fracPart: string, pad: nat, scale: nat)
    requires Digits(s) && Digits(wholePart) && Digits(fracPart)
    requires
      if |s| > scale then wholePart + fracPart == s && pad == 0
      else wholePart == "0" && fracPart == s && pad == scale - |s|
    ensures NatOf(wholePart + (Zeros(pad) + fracPart)) == NatOf(s)
  {
    if |s| > scale {
      assert Zeros(pad) + fracPart == fracPart;
    } else {
      LeadingZero(Zeros(pad) + fracPart);
      LeadingZeros(pad, fracPart);
    }
  }
}
