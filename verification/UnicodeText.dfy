/** The UTF-8 to UTF-16 conversion of the ODBC benchmark, against RFC 3629 and RFC 2781. */
module UnicodeText {
  import opened ByteCodec

  /** A Unicode scalar value. */
  type scalar = x: int | 0 <= x <= 0x10FFFF && !(0xD800 <= x <= 0xDFFF)

  // Section 4 of RFC 3629

  predicate Tail(b: byte) { 0x80 <= b <= 0xBF }

  /** `s` is exactly one character of the grammar. */
  predicate Utf8Char(s: seq<byte>) {
    || (|s| == 1 && s[0] <= 0x7F)
    || (|s| == 2 && 0xC2 <= s[0] <= 0xDF && Tail(s[1]))
    || (|s| == 3 && Tail(s[1]) && Tail(s[2]) &&
        (|| (s[0] == 0xE0 && 0xA0 <= s[1])
         || 0xE1 <= s[0] <= 0xEC
         || (s[0] == 0xED && s[1] <= 0x9F)
         || 0xEE <= s[0] <= 0xEF))
    || (|s| == 4 && Tail(s[1]) && Tail(s[2]) && Tail(s[3]) &&
        (|| (s[0] == 0xF0 && 0x90 <= s[1])
         || 0xF1 <= s[0] <= 0xF3
         || (s[0] == 0xF4 && s[1] <= 0x8F)))
  }

  /** Length of the character at the front of `s`, 0 when there is none. */
  function CharLen(s: seq<byte>): (n: nat)
    ensures n <= |s|
  {
    if |s| >= 1 && Utf8Char(s[..1]) then 1
    else if |s| >= 2 && Utf8Char(s[..2]) then 2
    else if |s| >= 3 && Utf8Char(s[..3]) then 3
    else if |s| >= 4 && Utf8Char(s[..4]) then 4
    else 0
  }

  /** A sequence of characters of the grammar. */
  predicate Utf8(s: seq<byte>)
    decreases |s|
  {
    s == [] || (CharLen(s) > 0 && Utf8(s[CharLen(s)..]))
  }

  function Above(x: int, base: int): int { x - base }

  /** The scalar a character stands for, by the table in section 3. */
  function CharValue(c: seq<byte>): (v: scalar)
    requires Utf8Char(c)
  {
    if |c| == 1 then c[0]
    else if |c| == 2 then Above(c[0], 0xC0) * 0x40 + Above(c[1], 0x80)
    else if |c| == 3 then Above(c[0], 0xE0) * 0x1000 + Above(c[1], 0x80) * 0x40 + Above(c[2], 0x80)
    else Above(c[0], 0xF0) * 0x4_0000 + Above(c[1], 0x80) * 0x1000 + Above(c[2], 0x80) * 0x40 + Above(c[3], 0x80)
  }

  function Encode8(v: scalar): seq<byte> {
    if v <= 0x7F then [v]
    else if v <= 0x7FF then [0xC0 + v / 0x40, 0x80 + v % 0x40]
    else if v <= 0xFFFF then [0xE0 + v / 0x1000, 0x80 + v / 0x40 % 0x40, 0x80 + v % 0x40]
    else [0xF0 + v / 0x4_0000, 0x80 + v / 0x1000 % 0x40, 0x80 + v / 0x40 % 0x40, 0x80 + v % 0x40]
  }

  lemma Encode8CharValue(c: seq<byte>)
    requires Utf8Char(c)
    ensures Encode8(CharValue(c)) == c
  {
    if |c| == 3 {
      Encode8Three(c);
    } else if |c| == 4 {
      Encode8Four(c);
    }
  }

  lemma Encode8Three(c: seq<byte>)
    requires Utf8Char(c) && |c| == 3
    ensures Encode8(CharValue(c)) == c
  {
    ThreeByteDigits(Above(c[0], 0xE0), Above(c[1], 0x80), Above(c[2], 0x80));
  }

  lemma Encode8Four(c: seq<byte>)
    requires Utf8Char(c) && |c| == 4
    ensures Encode8(CharValue(c)) == c
  {
    FourByteDigits(Above(c[0], 0xF0), Above(c[1], 0x80), Above(c[2], 0x80), Above(c[3], 0x80));
  }

  lemma ThreeByteDigits(a: nat, b: nat, c: nat)
    requires b < 0x40 && c < 0x40
    ensures var v := a * 0x1000 + b * 0x40 + c;
            v / 0x1000 == a && v / 0x40 % 0x40 == b && v % 0x40 == c
  {
    var v := a * 0x1000 + b * 0x40 + c;
    assert v / 0x40 == a * 0x40 + b;
  }

  lemma FourByteDigits(a: nat, b: nat, c: nat, d: nat)
    requires b < 0x40 && c < 0x40 && d < 0x40
    ensures var v := a * 0x4_0000 + b * 0x1000 + c * 0x40 + d;
            v / 0x4_0000 == a && v / 0x1000 % 0x40 == b && v / 0x40 % 0x40 == c && v % 0x40 == d
  {
    var v := a * 0x4_0000 + b * 0x1000 + c * 0x40 + d;
    assert v / 0x40 == a * 0x1000 + b * 0x40 + c;
    assert v / 0x1000 == a * 0x40 + b;
  }

  function Encode8All(vs: seq<scalar>): seq<byte> {
    if vs == [] then [] else Encode8(vs[0]) + Encode8All(vs[1..])
  }

  function Scalars(s: seq<byte>): seq<scalar>
    requires Utf8(s)
    decreases |s|
  {
    if s == [] then [] else [CharValue(s[..CharLen(s)])] + Scalars(s[CharLen(s)..])
  }

  // Section 2 of RFC 2781

  function Encode16(v: scalar): seq<u16> {
    if v <= 0xFFFF then [v]
    else [0xD800 + (v - 0x10000) / 0x400, 0xDC00 + (v - 0x10000) % 0x400]
  }

  function Encode16All(vs: seq<scalar>): seq<u16> {
    if vs == [] then [] else Encode16(vs[0]) + Encode16All(vs[1..])
  }

  /** The decoding of section 2.2, `None` for an unpaired surrogate. */
  function Decode16(us: seq<u16>): Option<seq<scalar>> {
    if us == [] then Some([])
    else if us[0] < 0xD800 || us[0] > 0xDFFF then
      match Decode16(us[1..])
      case None => None
      case Some(vs) => Some([us[0]] + vs)
    else if us[0] > 0xDBFF || |us| == 1 || !(0xDC00 <= us[1] <= 0xDFFF) then None
    else
      match Decode16(us[2..])
      case None => None
      case Some(vs) => Some([0x10000 + Above(us[0], 0xD800) * 0x400 + Above(us[1], 0xDC00)] + vs)
  }

  lemma {:induction false} Decode16RoundTrip(vs: seq<scalar>)
    ensures Decode16(Encode16All(vs)) == Some(vs)
  {
    if vs != [] {
      var us, rest := Encode16All(vs), Encode16All(vs[1..]);
      Decode16RoundTrip(vs[1..]);
      if vs[0] <= 0xFFFF {
        assert us[1..] == rest;
      } else {
        assert us[2..] == rest;
      }
      assert vs == [vs[0]] + vs[1..];
    }
  }

  lemma {:induction false} Encode16AllSnoc(vs: seq<scalar>, v: scalar)
    ensures Encode16All(vs + [v]) == Encode16All(vs) + Encode16(v)
  {
    if vs == [] {
      assert vs + [v] == [v] && [v][1..] == [];
    } else {
      assert (vs + [v])[1..] == vs[1..] + [v];
      Encode16AllSnoc(vs[1..], v);
    }
  }

  // The conversion

  datatype Conversion = Converted(units: seq<u16>) | InvalidUtf8 | TruncatedUtf8

  method AppendCodePoint(output: seq<u16>, codePoint: scalar) returns (out: seq<u16>)
    ensures out == output + Encode16(codePoint)
  {
    if codePoint <= 0xFFFF {
      return output + [codePoint];
    }
    var rest := codePoint - 0x10000;
    out := output + [0xD800 + rest / 0x400];
    out := out + [0xDC00 + rest % 0x400];
  }

  datatype Lead = Lead(bits: nat, count: nat)

  /** Payload bits and sequence length of a lead byte. */
  function LeadOf(first: byte): (lead: Option<Lead>)
    ensures lead.Some? ==> 1 <= lead.value.count <= 4
  {
    if first <= 0x7F then Some(Lead(first, 1))
    else if first / 0x20 == 6 then Some(Lead(first % 0x20, 2))
    else if first / 0x10 == 14 then Some(Lead(first % 0x10, 3))
    else if first / 8 == 30 then Some(Lead(first % 8, 4))
    else None
  }

  /** `codePoint` with `n` continuation bytes of `s` folded in, `None` if one of them is not one. */
  function Fold(s: seq<byte>, codePoint: nat, n: nat): Option<nat>
    requires 1 <= n <= |s|
  {
    if n == 1 then Some(codePoint)
    else
      match Fold(s, codePoint, n - 1)
      case None => None
      case Some(v) => if s[n - 1] / 0x40 == 2 then Some(v * 0x40 + s[n - 1] % 0x40) else None
  }

  predicate Rejected(v: nat, count: nat) {
    || (count == 2 && v < 0x80) || (count == 3 && v < 0x800) || (count == 4 && v < 0x10000)
    || v > 0x10FFFF || 0xD800 <= v <= 0xDFFF
  }

  /** The lead byte alone decides which length a character can have. */
  lemma CharLenByLead(s: seq<byte>)
    requires s != []
    ensures var lead := LeadOf(s[0]);
            var found := lead.Some? && lead.value.count <= |s| && Utf8Char(s[..lead.value.count]);
            CharLen(s) == if found then lead.value.count else 0
  {
    forall n | 1 <= n <= 4 && n <= |s| && Utf8Char(s[..n])
      ensures LeadOf(s[0]).Some? && LeadOf(s[0]).value.count == n
    {
      assert s[..n][0] == s[0];
    }
  }

  lemma AcceptIff(s: seq<byte>)
    requires s != [] && LeadOf(s[0]).Some? && LeadOf(s[0]).value.count <= |s|
    ensures var lead := LeadOf(s[0]).value;
            var v := Fold(s, lead.bits, lead.count);
            && (Utf8Char(s[..lead.count]) <==> v.Some? && !Rejected(v.value, lead.count))
            && (Utf8Char(s[..lead.count]) ==> v.value == CharValue(s[..lead.count]))
  {
    hide Fold, Utf8Char, CharValue, Rejected, Tail;
    var lead := LeadOf(s[0]).value;
    FoldUnfolds(s, lead.bits, lead.count);
    if lead.count == 1 {
      AcceptOne(s[..1]);
    } else if lead.count == 2 {
      AcceptTwo(s[..2]);
    } else if lead.count == 3 {
      AcceptThree(s[..3]);
    } else {
      AcceptFour(s[..4]);
    }
  }

  lemma AcceptOne(c: seq<byte>)
    requires |c| == 1 && c[0] <= 0x7F
    ensures Utf8Char(c) && !Rejected(c[0], 1) && CharValue(c) == c[0]
  {
  }

  lemma AcceptTwo(c: seq<byte>)
    requires |c| == 2 && c[0] / 0x20 == 6
    ensures Utf8Char(c) <==> Tail(c[1]) && !Rejected(c[0] % 0x20 * 0x40 + Above(c[1], 0x80), 2)
    ensures Utf8Char(c) ==> CharValue(c) == c[0] % 0x20 * 0x40 + Above(c[1], 0x80)
  {
  }

  lemma AcceptThree(c: seq<byte>)
    requires |c| == 3 && c[0] / 0x10 == 14
    ensures Utf8Char(c) <==>
            && Tail(c[1]) && Tail(c[2])
            && !Rejected(c[0] % 0x10 * 0x1000 + Above(c[1], 0x80) * 0x40 + Above(c[2], 0x80), 3)
    ensures Utf8Char(c) ==> CharValue(c) == c[0] % 0x10 * 0x1000 + Above(c[1], 0x80) * 0x40 + Above(c[2], 0x80)
  {
    if Tail(c[1]) && Tail(c[2]) {
      hide Rejected;
      ThreeBytes(c[0], c[1], c[2]);
    }
  }

  /** The bits a four-byte lead and its three tails carry. */
  function FourValue(c: seq<byte>): int
    requires |c| == 4
  {
    c[0] % 8 * 0x4_0000 + Above(c[1], 0x80) * 0x1000 + Above(c[2], 0x80) * 0x40 + Above(c[3], 0x80)
  }

  lemma AcceptFour(c: seq<byte>)
    requires |c| == 4 && c[0] / 8 == 30
    ensures Utf8Char(c) <==> Tail(c[1]) && Tail(c[2]) && Tail(c[3]) && !Rejected(FourValue(c), 4)
    ensures Utf8Char(c) ==> CharValue(c) == FourValue(c)
  {
    if Tail(c[1]) && Tail(c[2]) && Tail(c[3]) {
      hide Rejected;
      FourBytes(c[0], c[1], c[2], c[3]);
    }
  }

  lemma ThreeBytes(a: byte, b: byte, c: byte)
    requires a / 0x10 == 14 && Tail(b) && Tail(c)
    ensures Rejected(a % 0x10 * 0x1000 + Above(b, 0x80) * 0x40 + Above(c, 0x80), 3)
       <==> (a == 0xE0 && b < 0xA0) || (a == 0xED && b > 0x9F)
  {
  }

  lemma FourBytes(a: byte, b: byte, c: byte, d: byte)
    requires a / 8 == 30 && Tail(b) && Tail(c) && Tail(d)
    ensures Rejected(a % 8 * 0x4_0000 + Above(b, 0x80) * 0x1000 + Above(c, 0x80) * 0x40 + Above(d, 0x80), 4)
       <==> (a == 0xF0 && b < 0x90) || (a == 0xF4 && b > 0x8F) || a > 0xF4
  {
  }

  /** The checks of the conversion loop accept exactly the characters of the grammar. */
  lemma StepIff(s: seq<byte>)
    requires s != []
    ensures LeadOf(s[0]).None? || LeadOf(s[0]).value.count > |s| ==> CharLen(s) == 0
    ensures LeadOf(s[0]).Some? && LeadOf(s[0]).value.count <= |s| ==>
              var lead := LeadOf(s[0]).value;
              var v := Fold(s, lead.bits, lead.count);
              && (v.None? || Rejected(v.value, lead.count) ==> CharLen(s) == 0)
              && (v.Some? && !Rejected(v.value, lead.count) ==>
                    CharLen(s) == lead.count && Utf8Char(s[..lead.count]) && v.value == CharValue(s[..lead.count]))
  {
    hide Encode8, Utf8Char, CharValue, Fold, Rejected;
    CharLenByLead(s);
    if LeadOf(s[0]).Some? && LeadOf(s[0]).value.count <= |s| {
      AcceptIff(s);
    }
  }

  lemma FoldUnfolds(s: seq<byte>, bits: nat, n: nat)
    requires 1 <= n <= 4 && n <= |s|
    ensures Fold(s, bits, n).Some? <==> forall k :: 1 <= k < n ==> Tail(s[k])
    ensures Fold(s, bits, n).Some? ==>
              Fold(s, bits, n).value ==
              if n == 1 then bits
              else if n == 2 then bits * 0x40 + Above(s[1], 0x80)
              else if n == 3 then bits * 0x1000 + Above(s[1], 0x80) * 0x40 + Above(s[2], 0x80)
              else bits * 0x4_0000 + Above(s[1], 0x80) * 0x1000 + Above(s[2], 0x80) * 0x40 + Above(s[3], 0x80)
  {
    if n > 1 {
      FoldUnfolds(s, bits, n - 1);
    }
  }

  lemma {:induction false} ScalarsAppend(a: seq<byte>, b: seq<byte>)
    requires Utf8(a) && Utf8(b)
    ensures Utf8(a + b) && Scalars(a + b) == Scalars(a) + Scalars(b)
    decreases |a|
  {
    hide Utf8Char, CharValue, CharLen;
    if a == [] {
      assert a + b == b;
    } else {
      var n := CharLen(a);
      CharLenPrefix(a, b);
      ScalarsAppend(a[n..], b);
      assert (a + b)[n..] == a[n..] + b && (a + b)[..n] == a[..n];
    }
  }

  lemma CharLenPrefix(a: seq<byte>, b: seq<byte>)
    requires CharLen(a) > 0
    ensures CharLen(a + b) == CharLen(a)
  {
    var n := CharLen(a);
    forall k | 1 <= k <= n ensures (a + b)[..k] == a[..k] {
    }
  }

  /** A well-formed front and what follows it are well-formed together or not at all. */
  lemma {:induction false} Utf8Suffix(a: seq<byte>, b: seq<byte>)
    requires Utf8(a)
    ensures Utf8(a + b) <==> Utf8(b)
    decreases |a|
  {
    hide CharLen;
    if a == [] {
      assert a + b == b;
    } else {
      var n := CharLen(a);
      CharLenPrefix(a, b);
      Utf8Suffix(a[n..], b);
      assert (a + b)[n..] == a[n..] + b;
    }
  }

  lemma Utf8One(c: seq<byte>)
    requires CharLen(c) == |c| > 0
    ensures Utf8(c) && Scalars(c) == [CharValue(c[..|c|])]
  {
    assert c[..|c|] == c && c[|c|..] == [];
  }

  /** Extends the converted front by one accepted character. */
  lemma Advance(input: seq<byte>, index: nat, count: nat, output: seq<u16>)
    requires index + count <= |input| && count > 0
    requires Utf8(input[..index]) && output == Encode16All(Scalars(input[..index]))
    requires CharLen(input[index..]) == count
    ensures Utf8Char(input[index..][..count])
    ensures Utf8(input[..index + count])
    ensures output + Encode16(CharValue(input[index..][..count])) == Encode16All(Scalars(input[..index + count]))
  {
    hide CharValue;
    var c := input[index..][..count];
    assert forall k :: 1 <= k <= count ==> c[..k] == input[index..][..k];
    assert CharLen(c) == count;
    Utf8One(c);
    assert c[..count] == c;
    ScalarsAppend(input[..index], c);
    assert input[..index + count] == input[..index] + c;
    Encode16AllSnoc(Scalars(input[..index]), CharValue(c));
  }

  lemma RejectHere(input: seq<byte>, index: nat)
    requires index < |input| && Utf8(input[..index]) && CharLen(input[index..]) == 0
    ensures !Utf8(input)
  {
    Utf8Suffix(input[..index], input[index..]);
    assert input == input[..index] + input[index..];
  }

  lemma NothingConverted()
    ensures Utf8([]) && Scalars([]) == [] && Encode16All([]) == []
  {
  }

  /** The conversion accepts exactly the well-formed strings, and its output decodes to their scalars. */
  method ToSqlString(input: seq<byte>) returns (r: Conversion)
    ensures r.Converted? <==> Utf8(input)
    ensures r.Converted? ==> r.units == Encode16All(Scalars(input)) && Decode16(r.units) == Some(Scalars(input))
  {
    hide Utf8, Scalars, Encode16All, Decode16, CharLen, Utf8Char, CharValue, Fold, Encode16, Rejected, LeadOf;
    NothingConverted();
    var output: seq<u16> := [];
    var index := 0;
    assert input[..0] == [];
    while index < |input|
      invariant 0 <= index <= |input|
      invariant Utf8(input[..index]) && output == Encode16All(Scalars(input[..index]))
      decreases |input| - index
    {
      ghost var rest := input[index..];
      StepIff(rest);
      var lead := LeadOf(input[index]);
      if lead.None? {
        RejectHere(input, index);
        return InvalidUtf8;
      }
      var count := lead.value.count;
      if index + count > |input| {
        RejectHere(input, index);
        return TruncatedUtf8;
      }
      var folded := FoldTail(input, index, lead.value.bits, count);
      if folded.None? {
        RejectHere(input, index);
        return InvalidUtf8;
      }
      var codePoint := folded.value;
      if Rejected(codePoint, count) {
        RejectHere(input, index);
        return InvalidUtf8;
      }
      Advance(input, index, count, output);
      output := AppendCodePoint(output, codePoint);
      index := index + count;
    }
    assert input[..index] == input;
    Decode16RoundTrip(Scalars(input));
    return Converted(output);
  }

  /** The loop over continuation bytes. */
  method FoldTail(input: seq<byte>, index: nat, bits: nat, count: nat) returns (r: Option<nat>)
    requires 1 <= count && index + count <= |input|
    ensures r == Fold(input[index..], bits, count)
  {
    ghost var rest := input[index..];
    var codePoint: nat := bits;
    for offset := 1 to count
      invariant Fold(rest, bits, offset) == Some(codePoint)
    {
      var next := input[index + offset];
      if next / 0x40 != 2 {
        FoldFails(rest, bits, offset + 1, count);
        return None;
      }
      codePoint := codePoint * 0x40 + next % 0x40;
    }
    return Some(codePoint);
  }

  lemma {:induction false} FoldFails(s: seq<byte>, bits: nat, n: nat, m: nat)
    requires 1 <= n <= m <= |s| && Fold(s, bits, n).None?
    ensures Fold(s, bits, m).None?
    decreases m - n
  {
    if n < m {
      FoldFails(s, bits, n, m - 1);
    }
  }

  lemma {:induction false} ScalarsDetermine(s: seq<byte>)
    requires Utf8(s)
    ensures Encode8All(Scalars(s)) == s
    decreases |s|
  {
    hide Encode8, CharValue, Utf8Char;
    if s != [] {
      ScalarsDetermine(s[CharLen(s)..]);
      Encode8CharValue(s[..CharLen(s)]);
      assert s == s[..CharLen(s)] + s[CharLen(s)..];
      assert Scalars(s)[1..] == Scalars(s[CharLen(s)..]);
    }
  }

  /** Different well-formed inputs never convert to the same units. */
  lemma ConversionInjective(a: seq<byte>, b: seq<byte>)
    requires Utf8(a) && Utf8(b)
    requires Encode16All(Scalars(a)) == Encode16All(Scalars(b))
    ensures a == b
  {
    Decode16RoundTrip(Scalars(a));
    Decode16RoundTrip(Scalars(b));
    ScalarsDetermine(a);
    ScalarsDetermine(b);
  }
}
