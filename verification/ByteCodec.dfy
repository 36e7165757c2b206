/** Fixed-width integers, their byte layouts, and reading them back out of a buffer. */
module ByteCodec {
  type byte = x: int | 0 <= x < 0x100
  type u16 = x: int | 0 <= x < 0x1_0000
  type u32 = x: int | 0 <= x < 0x1_0000_0000
  type u64 = x: int | 0 <= x < 0x1_0000_0000_0000_0000
  type i16 = x: int | -0x8000 <= x < 0x8000
  type i32 = x: int | -0x8000_0000 <= x < 0x8000_0000
  type i64 = x: int | -0x8000_0000_0000_0000 <= x < 0x8000_0000_0000_0000

  datatype Option<+T> = None | Some(value: T)

  /** A parsed value together with the cursor position behind it. */
  datatype Parsed<+T> = Parsed(item: T, next: nat)

  /** Little-endian layouts. An argument that is too wide is truncated, as an `as` cast does;
      a negative one is laid out in two's complement. */
  function Le16(v: int): (s: seq<byte>)
    ensures |s| == 2
  {
    [v % 256, v / 256 % 256]
  }

  function Le32(v: int): (s: seq<byte>)
    ensures |s| == 4
  {
    [v % 256, v / 256 % 256, v / 0x1_0000 % 256, v / 0x100_0000 % 256]
  }

  function Le64(v: int): (s: seq<byte>)
    ensures |s| == 8
  {
    Le32(v) + Le32(v / 0x1_0000_0000)
  }

  function Be16(v: int): (s: seq<byte>)
    ensures |s| == 2
  {
    [v / 256 % 256, v % 256]
  }

  function U16(s: seq<byte>): u16
    requires |s| == 2
  {
    s[0] as int + 256 * s[1] as int
  }

  function U32(s: seq<byte>): u32
    requires |s| == 4
  {
    s[0] as int + 256 * s[1] as int + 0x1_0000 * s[2] as int + 0x100_0000 * s[3] as int
  }

  function U64(s: seq<byte>): u64
    requires |s| == 8
  {
    U32(s[..4]) as int + 0x1_0000_0000 * U32(s[4..]) as int
  }

  function BeU16(s: seq<byte>): u16
    requires |s| == 2
  {
    256 * s[0] as int + s[1] as int
  }

  /** Two's complement reading of an unsigned bit pattern. */
  function Signed16(v: u16): i16 { if v < 0x8000 then v else v - 0x1_0000 }

  function Signed32(v: u32): i32 { if v < 0x8000_0000 then v else v - 0x1_0000_0000 }

  lemma U16Le16(v: int)
    ensures U16(Le16(v)) == v % 0x1_0000
    ensures BeU16(Be16(v)) == v % 0x1_0000
  {
  }

  lemma Le16Wraps(v: nat)
    ensures Le16(v % 0x1_0000) == Le16(v)
  {
    assert v % 0x1_0000 % 256 == v % 256;
    assert v % 0x1_0000 / 256 == v / 256 % 256;
  }

  lemma Signed16Le16(v: i16)
    ensures Signed16(U16(Le16(v))) == v
  {
    U16Le16(v);
  }

  lemma U32Le32(v: int)
    ensures U32(Le32(v)) == v % 0x1_0000_0000
  {
    var a, b, c := v / 256, v / 0x1_0000, v / 0x100_0000;
    assert a / 256 == b && b / 256 == c;
    assert v % 0x1_0000_0000 == v - 0x1_0000_0000 * (c / 256);
  }

  lemma Signed32Le32(v: i32)
    ensures Signed32(U32(Le32(v))) == v
  {
    U32Le32(v);
  }

  lemma U64Le64(v: int)
    ensures U64(Le64(v)) == v % 0x1_0000_0000_0000_0000
  {
    hide Le32, U32;
    var hi := v / 0x1_0000_0000;
    U32Le32(v);
    U32Le32(hi);
    assert Le64(v)[..4] == Le32(v);
    assert Le64(v)[4..] == Le32(hi);
    assert v % 0x1_0000_0000_0000_0000 == v - 0x1_0000_0000_0000_0000 * (hi / 0x1_0000_0000);
  }

  /** `s` lies in `buf` at `pos`. */
  ghost predicate At(buf: seq<byte>, pos: nat, s: seq<byte>) {
    pos + |s| <= |buf| && buf[pos..pos + |s|] == s
  }

  lemma AtConcat(buf: seq<byte>, pos: nat, s: seq<byte>, t: seq<byte>)
    requires At(buf, pos, s + t)
    ensures At(buf, pos, s) && At(buf, pos + |s|, t)
  {
    var m := buf[pos..pos + |s + t|];
    assert buf[pos..pos + |s|] == m[..|s|] == s;
    assert buf[pos + |s|..pos + |s| + |t|] == m[|s|..] == t;
  }

  lemma AtSelf(buf: seq<byte>)
    ensures At(buf, 0, buf)
  {
  }

  /** Concatenation is associative; a reminder the solver needs by name. */
  lemma Regroup(a: seq<byte>, b: seq<byte>, c: seq<byte>)
    ensures a + b + c == a + (b + c)
  {
  }

  /** Bounds-checked reads at a cursor position, `None` when the field is cut off. */
  function ReadU8(buf: seq<byte>, pos: nat): (r: Option<byte>) {
    if pos + 1 <= |buf| then Some(buf[pos]) else None
  }

  function ReadU16(buf: seq<byte>, pos: nat): (r: Option<u16>) {
    if pos + 2 <= |buf| then Some(U16(buf[pos..pos + 2])) else None
  }

  function ReadU32(buf: seq<byte>, pos: nat): (r: Option<u32>) {
    if pos + 4 <= |buf| then Some(U32(buf[pos..pos + 4])) else None
  }

  function ReadU64(buf: seq<byte>, pos: nat): (r: Option<u64>) {
    if pos + 8 <= |buf| then Some(U64(buf[pos..pos + 8])) else None
  }

  lemma ReadU8At(buf: seq<byte>, pos: nat, v: byte)
    requires At(buf, pos, [v])
    ensures ReadU8(buf, pos) == Some(v)
  {
    assert buf[pos..pos + 1][0] == v;
  }

  lemma ReadU16At(buf: seq<byte>, pos: nat, v: int)
    requires At(buf, pos, Le16(v))
    ensures ReadU16(buf, pos) == Some(v % 0x1_0000)
  {
    U16Le16(v);
  }

  lemma ReadU32At(buf: seq<byte>, pos: nat, v: int)
    requires At(buf, pos, Le32(v))
    ensures ReadU32(buf, pos) == Some(v % 0x1_0000_0000)
  {
    U32Le32(v);
  }

  lemma ReadU64At(buf: seq<byte>, pos: nat, v: int)
    requires At(buf, pos, Le64(v))
    ensures ReadU64(buf, pos) == Some(v % 0x1_0000_0000_0000_0000)
  {
    U64Le64(v);
  }

  /** Concatenation of a list of byte strings. */
  function Flatten(parts: seq<seq<byte>>): seq<byte> {
    if parts == [] then [] else parts[0] + Flatten(parts[1..])
  }

  lemma {:induction false} FlattenAppend(a: seq<seq<byte>>, b: seq<seq<byte>>)
    ensures Flatten(a + b) == Flatten(a) + Flatten(b)
  {
    if a == [] {
      assert a + b == b;
    } else {
      assert (a + b)[1..] == a[1..] + b;
      FlattenAppend(a[1..], b);
    }
  }

  lemma FlattenSnoc(a: seq<seq<byte>>, x: seq<byte>)
    ensures Flatten(a + [x]) == Flatten(a) + x
  {
    FlattenAppend(a, [x]);
    assert Flatten([x]) == x + Flatten([]);
  }
}
