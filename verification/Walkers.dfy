/** Walkers over length-prefixed lists in client messages: Login7 feature extensions, the ALL_HEADERS
    block, and the FedAuth token body. */
module Walkers {
  import opened ByteCodec

  const FEATURE_EXT_FEDAUTH: byte := 0x02
  const FEATURE_EXT_TERMINATOR: byte := 0xFF
  const TOKEN_FEATURE_EXT_ACK: byte := 0xAE
  const HEADER_TYPE_TRANSACTION_DESCRIPTOR: u16 := 0x0002

  // Feature extensions

  /** A feature entry met by the walker; `data` is missing when the declared length runs past the packet. */
  datatype Feature = Feature(id: byte, data: Option<seq<byte>>)

  /** The entries from position `i` on. */
  function Walk(data: seq<byte>, i: nat): seq<Feature>
    decreases |data| - i
  {
    if i >= |data| || data[i] == FEATURE_EXT_TERMINATOR || i + 5 > |data| then []
    else
      var end := i + 5 + U32(data[i + 1..i + 5]);
      [Feature(data[i], if end <= |data| then Some(data[i + 5..end]) else None)] + Walk(data, end)
  }

  datatype AuthInfo =
    AuthInfo(hasFedAuth: bool, library: byte, workflow: Option<byte>, token: Option<seq<byte>>, featureIds: seq<byte>)

  const NO_AUTH := AuthInfo(false, 0, None, None, [])

  /** The FedAuth fields after one FedAuth entry with these bytes. */
  function TakeFedAuth(info: AuthInfo, feat: seq<byte>): AuthInfo {
    if feat == [] then info
    else
      var library := feat[0] / 2 % 4;
      var a := info.(library := library);
      var b := if library == 0x02 then a.(workflow := if |feat| > 1 then Some(feat[1]) else None) else a;
      if library == 0x01 && |feat| > 5 && |feat| >= 5 + U32(feat[1..5])
      then b.(token := Some(feat[5..5 + U32(feat[1..5])]))
      else b
  }

  function TakeFeature(info: AuthInfo, f: Feature): AuthInfo {
    var a := info.(featureIds := info.featureIds + [f.id]);
    if f.id != FEATURE_EXT_FEDAUTH then a
    else
      var b := a.(hasFedAuth := true);
      if f.data.Some? then TakeFedAuth(b, f.data.value) else b
  }

  function TakeAll(info: AuthInfo, fs: seq<Feature>): AuthInfo
    decreases |fs|
  {
    if fs == [] then info else TakeAll(TakeFeature(info, fs[0]), fs[1..])
  }

  /** Where the Login7 packet says its feature entries start, if it has any. */
  function FeatureStart(data: seq<byte>): Option<nat> {
    if |data| < 60 || data[27] / 16 % 2 == 0 then None
    else
      var ptr := U16(data[56..58]);
      if ptr + 4 > |data| then None
      else
        var start := U32(data[ptr..ptr + 4]);
        if start >= |data| then None else Some(start)
  }

  /** What `parse_login7` reports about authentication. */
  function AuthOf(data: seq<byte>): AuthInfo {
    match FeatureStart(data)
    case None => NO_AUTH
    case Some(start) => TakeAll(NO_AUTH, Walk(data, start))
  }

  /** The walking loop of `parse_login7`. */
  method ParseLogin7(data: seq<byte>) returns (info: AuthInfo)
    ensures info == AuthOf(data)
  {
    info := NO_AUTH;
    var start := FeatureStart(data);
    if start.None? {
      return;
    }
    var i := start.value;
    while i < |data|
      invariant TakeAll(NO_AUTH, Walk(data, start.value)) == TakeAll(info, Walk(data, i))
      decreases |data| - i
    {
      if data[i] == FEATURE_EXT_TERMINATOR {
        break;
      }
      if i + 5 > |data| {
        break;
      }
      var end := i + 5 + U32(data[i + 1..i + 5]);
      var feature := Feature(data[i], if end <= |data| then Some(data[i + 5..end]) else None);
      assert Walk(data, i) == [feature] + Walk(data, end);
      assert ([feature] + Walk(data, end))[1..] == Walk(data, end);
      info := TakeFeature(info, feature);
      i := end;
    }
    assert Walk(data, i) == [];
  }

  type Entry = (byte, seq<byte>)

  function EntryBytes(e: Entry): seq<byte> { [e.0] + (Le32(|e.1|) + e.1) }

  function EntriesBytes(es: seq<Entry>): seq<byte> {
    if es == [] then [FEATURE_EXT_TERMINATOR] else EntryBytes(es[0]) + EntriesBytes(es[1..])
  }

  /** `build_feature_ext_ack`: one token acknowledging every feature. */
  method BuildFeatureExtAck(es: seq<Entry>) returns (token: seq<byte>)
    ensures token == [TOKEN_FEATURE_EXT_ACK] + EntriesBytes(es)
  {
    token := [TOKEN_FEATURE_EXT_ACK];
    assert es[0..] == es;
    for i := 0 to |es|
      invariant token + EntriesBytes(es[i..]) == [TOKEN_FEATURE_EXT_ACK] + EntriesBytes(es)
    {
      hide Le32;
      var e := es[i];
      assert es[i..][1..] == es[i + 1..];
      assert token + (EntryBytes(e) + EntriesBytes(es[i + 1..]))
          == token + [e.0] + Le32(|e.1|) + e.1 + EntriesBytes(es[i + 1..]);
      token := token + [e.0];
      token := token + Le32(|e.1|);
      token := token + e.1;
    }
    assert es[|es|..] == [];
    token := token + [FEATURE_EXT_TERMINATOR];
  }

  /** The entries in front of the first that reuses the terminator as its id. */
  function BeforeTerminator(es: seq<Entry>): seq<Feature> {
    if es == [] || es[0].0 == FEATURE_EXT_TERMINATOR then []
    else [Feature(es[0].0, Some(es[0].1))] + BeforeTerminator(es[1..])
  }

  /** The walker reads a list of entries back: ids and data, in order, up to an entry whose id is the
      terminator. So it reads back the whole list exactly when no id is 0xFF. */
  lemma {:induction false} WalkReadsBack(es: seq<Entry>, data: seq<byte>, i: nat)
    requires At(data, i, EntriesBytes(es))
    requires forall k :: 0 <= k < |es| ==> |es[k].1| < 0x1_0000_0000
    ensures Walk(data, i) == BeforeTerminator(es)
    decreases |es|
  {
    if es == [] {
      ReadU8At(data, i, FEATURE_EXT_TERMINATOR);
    } else {
      var e := es[0];
      WalkOne(e, EntriesBytes(es[1..]), data, i);
      if e.0 != FEATURE_EXT_TERMINATOR {
        WalkReadsBack(es[1..], data, i + 5 + |e.1|);
      }
    }
  }

  lemma WalkOne(e: Entry, rest: seq<byte>, data: seq<byte>, i: nat)
    requires At(data, i, EntryBytes(e) + rest) && |e.1| < 0x1_0000_0000
    ensures At(data, i + 5 + |e.1|, rest)
    ensures e.0 == FEATURE_EXT_TERMINATOR ==> Walk(data, i) == []
    ensures e.0 != FEATURE_EXT_TERMINATOR ==> Walk(data, i) == [Feature(e.0, Some(e.1))] + Walk(data, i + 5 + |e.1|)
  {
    hide Le32, U32, Walk;
    AtConcat(data, i, EntryBytes(e), rest);
    AtConcat(data, i, [e.0], Le32(|e.1|) + e.1);
    AtConcat(data, i + 1, Le32(|e.1|), e.1);
    ReadU8At(data, i, e.0);
    ReadU32At(data, i + 1, |e.1|);
    WalkUnfold(data, i);
  }

  lemma WalkUnfold(data: seq<byte>, i: nat)
    requires i + 5 <= |data|
    ensures data[i] == FEATURE_EXT_TERMINATOR ==> Walk(data, i) == []
    ensures data[i] != FEATURE_EXT_TERMINATOR ==>
              var end := i + 5 + U32(data[i + 1..i + 5]);
              var feature := Feature(data[i], if end <= |data| then Some(data[i + 5..end]) else None);
              Walk(data, i) == [feature] + Walk(data, end)
  {
  }

  function Ids(fs: seq<Feature>): (ids: seq<byte>)
    ensures |ids| == |fs|
  {
    seq(|fs|, k requires 0 <= k < |fs| => fs[k].id)
  }

  lemma {:induction false} TakeAllIds(info: AuthInfo, fs: seq<Feature>)
    ensures TakeAll(info, fs).featureIds == info.featureIds + Ids(fs)
    decreases |fs|
  {
    if fs == [] {
      assert info.featureIds + [] == info.featureIds;
    } else {
      TakeAllIds(TakeFeature(info, fs[0]), fs[1..]);
      assert Ids(fs) == [fs[0].id] + Ids(fs[1..]);
    }
  }

  lemma {:induction false} BeforeTerminatorAll(es: seq<Entry>)
    ensures |BeforeTerminator(es)| == |es| <==> forall k :: 0 <= k < |es| ==> es[k].0 != FEATURE_EXT_TERMINATOR
    ensures |BeforeTerminator(es)| <= |es|
    ensures forall k :: 0 <= k < |BeforeTerminator(es)| ==> BeforeTerminator(es)[k] == Feature(es[k].0, Some(es[k].1))
  {
    if es != [] && es[0].0 != FEATURE_EXT_TERMINATOR {
      BeforeTerminatorAll(es[1..]);
      assert forall k :: 1 <= k < |es| ==> es[k] == es[1..][k - 1];
    }
  }

  /** A Login7 packet carrying entries laid out as `build_feature_ext_ack` lays them out reports their
      ids in order; all of them exactly when none is 0xFF. */
  lemma Login7ReportsIds(es: seq<Entry>, data: seq<byte>, start: nat)
    requires FeatureStart(data) == Some(start) && At(data, start, EntriesBytes(es))
    requires forall k :: 0 <= k < |es| ==> |es[k].1| < 0x1_0000_0000
    ensures var ids := AuthOf(data).featureIds;
            && |ids| <= |es|
            && (forall k :: 0 <= k < |ids| ==> ids[k] == es[k].0)
            && (|ids| == |es| <==> forall k :: 0 <= k < |es| ==> es[k].0 != FEATURE_EXT_TERMINATOR)
  {
    WalkReadsBack(es, data, start);
    TakeAllIds(NO_AUTH, BeforeTerminator(es));
    BeforeTerminatorAll(es);
    assert [] + Ids(BeforeTerminator(es)) == Ids(BeforeTerminator(es));
  }

  // ALL_HEADERS

  /** Length field of the block, when it is usable. */
  function BlockLength(data: seq<byte>): Option<nat> {
    if |data| < 4 then None
    else
      var len := U32(data[0..4]);
      if 4 <= len <= |data| then Some(len) else None
  }

  function HeaderLen(data: seq<byte>, off: nat): nat
    requires off + 6 <= |data|
  {
    U32(data[off..off + 4])
  }

  function HeaderType(data: seq<byte>, off: nat): nat
    requires off + 6 <= |data|
  {
    U16(data[off + 4..off + 6])
  }

  /** A header at `off` that lies wholly inside a block of `len` bytes. */
  predicate WellFormed(data: seq<byte>, len: nat, off: nat)
    requires len <= |data|
  {
    off + 6 <= len && 6 <= HeaderLen(data, off) && off + HeaderLen(data, off) <= len
  }

  predicate IsDescriptor(data: seq<byte>, len: nat, off: nat)
    requires len <= |data|
  {
    && WellFormed(data, len, off)
    && HeaderType(data, off) == HEADER_TYPE_TRANSACTION_DESCRIPTOR && HeaderLen(data, off) >= 18
  }

  function DescriptorAt(data: seq<byte>, off: nat): (u64, u32)
    requires off + 18 <= |data|
  {
    (U64(data[off + 6..off + 14]), U32(data[off + 14..off + 18]))
  }

  /** `offs` are the offsets of consecutive well-formed headers from `off` on, none of them a usable
      descriptor, and `end` is where the next header would start. */
  ghost predicate Chain(data: seq<byte>, len: nat, off: nat, offs: seq<nat>, end: nat)
    requires len <= |data|
    decreases |offs|
  {
    if offs == [] then off == end
    else
      && offs[0] == off && WellFormed(data, len, off) && !IsDescriptor(data, len, off)
      && Chain(data, len, off + HeaderLen(data, off), offs[1..], end)
  }

  lemma {:induction false} ChainSnoc(data: seq<byte>, len: nat, off: nat, offs: seq<nat>, end: nat)
    requires len <= |data| && Chain(data, len, off, offs, end)
    requires WellFormed(data, len, end) && !IsDescriptor(data, len, end)
    ensures Chain(data, len, off, offs + [end], end + HeaderLen(data, end))
    decreases |offs|
  {
    if offs == [] {
      assert offs + [end] == [end] && [end][1..] == [];
    } else {
      assert (offs + [end])[1..] == offs[1..] + [end];
      ChainSnoc(data, len, off + HeaderLen(data, off), offs[1..], end);
    }
  }

  /** Two chains that both stop at a header they cannot pass are the same chain. */
  lemma {:induction false} ChainUnique(data: seq<byte>, len: nat, off: nat, a: seq<nat>, x: nat, b: seq<nat>, y: nat)
    requires len <= |data| && Chain(data, len, off, a, x) && Chain(data, len, off, b, y)
    requires !WellFormed(data, len, x) || IsDescriptor(data, len, x)
    requires !WellFormed(data, len, y) || IsDescriptor(data, len, y)
    ensures a == b && x == y
    decreases |a|
  {
    if a != [] && b != [] {
      ChainUnique(data, len, off + HeaderLen(data, off), a[1..], x, b[1..], y);
      assert a == [a[0]] + a[1..] && b == [b[0]] + b[1..];
    }
  }

  /** Some chain of well-formed other headers leads from the start of the block to a usable descriptor. */
  ghost predicate Leads(data: seq<byte>, len: nat, end: nat)
    requires len <= |data|
  {
    IsDescriptor(data, len, end) && exists offs: seq<nat> :: Chain(data, len, 4, offs, end)
  }

  /** The descriptor a block of headers carries. */
  ghost function DescriptorOf(data: seq<byte>): Option<(u64, u32)> {
    var block := BlockLength(data);
    if block.Some? && exists end: nat :: Leads(data, block.value, end) then
      var end: nat :| Leads(data, block.value, end);
      Some(DescriptorAt(data, end))
    else None
  }

  /** `parse_transaction_descriptor_header` answers exactly when a chain of well-formed headers leads to
      a descriptor of at least 18 bytes inside the block, and then with that one's fields. */
  method ParseTransactionDescriptorHeader(data: seq<byte>) returns (r: Option<(u64, u32)>)
    ensures r == DescriptorOf(data)
    ensures BlockLength(data).None? ==> r == None
    ensures BlockLength(data).Some? ==>
              var len := BlockLength(data).value;
              && (r.Some? <==> exists end: nat :: Leads(data, len, end))
              && (forall end: nat :: Leads(data, len, end) ==> end + 18 <= len && r == Some(DescriptorAt(data, end)))
  {
    if |data| < 4 {
      return None;
    }
    var len := U32(data[0..4]);
    if !(4 <= len <= |data|) {
      return None;
    }
    var offset: nat := 4;
    ghost var offs: seq<nat> := [];
    while offset + 6 <= len
      invariant Chain(data, len, 4, offs, offset)
      decreases len - offset
    {
      hide Chain, U32, U16;
      var headerLen := HeaderLen(data, offset);
      var headerType := HeaderType(data, offset);
      if headerLen < 6 || offset + headerLen > len {
        NoneLeads(data, len, offs, offset);
        return None;
      }
      if headerType == HEADER_TYPE_TRANSACTION_DESCRIPTOR && headerLen >= 18 {
        OnlyLeads(data, len, offs, offset);
        return Some(DescriptorAt(data, offset));
      }
      ChainSnoc(data, len, 4, offs, offset);
      offs := offs + [offset];
      offset := offset + headerLen;
    }
    NoneLeads(data, len, offs, offset);
    return None;
  }

  lemma NoneLeads(data: seq<byte>, len: nat, offs: seq<nat>, offset: nat)
    requires len <= |data| && Chain(data, len, 4, offs, offset) && !WellFormed(data, len, offset)
    ensures forall end: nat :: !Leads(data, len, end)
  {
    hide Chain;
    forall end: nat ensures !Leads(data, len, end) {
      if Leads(data, len, end) {
        var other: seq<nat> :| Chain(data, len, 4, other, end);
        ChainUnique(data, len, 4, offs, offset, other, end);
      }
    }
  }

  lemma OnlyLeads(data: seq<byte>, len: nat, offs: seq<nat>, offset: nat)
    requires len <= |data| && Chain(data, len, 4, offs, offset) && IsDescriptor(data, len, offset)
    ensures Leads(data, len, offset)
    ensures forall end: nat :: Leads(data, len, end) ==> end == offset
  {
    hide Chain;
    forall end: nat | Leads(data, len, end) ensures end == offset {
      var other: seq<nat> :| Chain(data, len, 4, other, end);
      ChainUnique(data, len, 4, offs, offset, other, end);
    }
  }

  // Transaction manager requests and FedAuth tokens

  /** The request type behind the ALL_HEADERS block of a transaction manager request. */
  function TransactionRequest(body: seq<byte>): Option<u16> {
    if |body| < 4 then None
    else
      var len := U32(body[..4]);
      if |body| < len + 2 then None else Some(U16(body[len..len + 2]))
  }

  /** `parse_fedauth_token`: total length, token length, token; both lengths must be exact. */
  function ParseFedAuthToken(body: seq<byte>): Option<seq<byte>> {
    if |body| < 8 then None
    else if U32(body[0..4]) + 4 != |body| then None
    else if U32(body[0..4]) != U32(body[4..8]) + 4 then None
    else Some(body[8..])
  }

  function FedAuthTokenBytes(token: seq<byte>): seq<byte> {
    Le32(|token| + 4) + Le32(|token|) + token
  }

  lemma LeOfU32(s: seq<byte>)
    requires |s| == 4
    ensures Le32(U32(s)) == s
  {
    var v := U32(s);
    assert v / 256 == s[1] as int + 256 * s[2] as int + 0x1_0000 * s[3] as int;
    assert v / 0x1_0000 == s[2] as int + 256 * s[3] as int;
    assert v / 0x100_0000 == s[3];
  }

  /** The parser accepts exactly the bodies that spell some token this way, and returns that token. */
  lemma FedAuthTokenIff(body: seq<byte>, token: seq<byte>)
    requires |token| + 4 < 0x1_0000_0000
    ensures ParseFedAuthToken(body) == Some(token) <==> body == FedAuthTokenBytes(token)
  {
    hide Le32, U32;
    if ParseFedAuthToken(body) == Some(token) {
      LeOfU32(body[0..4]);
      LeOfU32(body[4..8]);
      assert body == body[0..4] + body[4..8] + body[8..];
    }
    if body == FedAuthTokenBytes(token) {
      U32Le32(|token| + 4);
      U32Le32(|token|);
      assert body[0..4] == Le32(|token| + 4) && body[4..8] == Le32(|token|) && body[8..] == token;
    }
  }
}
