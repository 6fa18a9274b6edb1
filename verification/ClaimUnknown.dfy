/**
 Fields that a decoder of claim records does not know: skipAirdrop of x/airdrop/types/airdrop.pb.go
 passes over every well-formed one, groups included, and the record decodes as without them.
 */
module ClaimUnknown {
  import opened Words
  import opened Varint
  import opened ClaimCodec

  /** The content of a field, by wire type. */
  datatype Unknown = Number(v: nat) | Fixed64(bs: seq<Byte>) | Block(bs: seq<Byte>) | Fixed32(bs: seq<Byte>)
                   | Group(inner: Unknowns)

  /** A list of numbered fields. */
  datatype Unknowns = Done | More(number: nat, field: Unknown, rest: Unknowns)

  function WireType(u: Unknown): nat
  {
    match u case Number(_) => 0 case Fixed64(_) => 1 case Block(_) => 2 case Group(_) => 3 case Fixed32(_) => 5
  }

  function TagBytes(number: nat, wireType: nat): seq<Byte> { VarintBytes(8 * number + wireType) }

  function FieldBytes(number: nat, u: Unknown): seq<Byte>
    decreases u, 1
  {
    TagBytes(number, WireType(u)) + PayloadBytes(number, u)
  }

  function PayloadBytes(number: nat, u: Unknown): seq<Byte>
    decreases u, 0
  {
    match u
    case Number(v) => VarintBytes(v)
    case Fixed64(bs) => bs
    case Block(bs) => VarintBytes(|bs|) + bs
    case Fixed32(bs) => bs
    case Group(inner) => FieldsBytes(inner) + TagBytes(number, 4)
  }

  function FieldsBytes(us: Unknowns): seq<Byte>
    decreases us, 0
  {
    match us case Done => [] case More(number, u, rest) => FieldBytes(number, u) + FieldsBytes(rest)
  }

  /** What a writer of protocol buffers may put there: numbers fit 29 bits, and sizes are as their types say. */
  predicate WellFormed(number: nat, u: Unknown)
    decreases u
  {
    && 0 < number < 0x2000_0000
    && match u {
         case Number(v) => v < TWO64
         case Fixed64(bs) => |bs| == 8
         case Block(_) => true
         case Fixed32(bs) => |bs| == 4
         case Group(inner) => AllWellFormed(inner)
       }
  }

  predicate AllWellFormed(us: Unknowns)
    decreases us
  {
    match us case Done => true case More(number, u, rest) => WellFormed(number, u) && AllWellFormed(rest)
  }

  /** No field of the list has a number that claim records use. */
  predicate NewNumbers(us: Unknowns)
  {
    match us case Done => true case More(number, _, rest) => number > 5 && NewNumbers(rest)
  }

  // ----- Passing over a field -----

  /** What comes of a field that ends at n: the end inside no group, and the next field inside one. */
  function GoOn(data: seq<Byte>, n: nat, depth: nat): Outcome<nat>
  {
    if depth == 0 then Ok(n) else SkipField(data, n, depth)
  }

  /** A varint is passed over to where it would be read to. */
  lemma {:induction false} SkipLikeRead(data: seq<Byte>, i: nat, shift: nat, acc: nat, m: nat)
    requires m > 0
    ensures ReadBits(data, i, shift, acc, m).Ok? ==>
              SkipVarint(data, i, shift) == Ok(ReadBits(data, i, shift, acc, m).value.next)
    decreases |data| - i
  {
    hide BitOr, Placed;
    if shift >= 64 || i >= |data| {
    } else {
      SkipLikeRead(data, i + 1, shift + 7, BitOr(acc, Placed(data[i], shift, m)), m);
    }
  }

  lemma SkipNumber(data: seq<Byte>, i: nat, v: nat)
    requires v < TWO64 && At(data, i, VarintBytes(v))
    ensures SkipVarint(data, i, 0) == Ok(i + |VarintBytes(v)|)
  {
    ReadVarintLaw(data, i, v);
    SkipLikeRead(data, i, 0, 0, TWO64);
  }

  lemma ReadFieldTag(data: seq<Byte>, i: nat, number: nat, wireType: nat)
    requires number < 0x2000_0000 && wireType < 8 && At(data, i, TagBytes(number, wireType))
    ensures ReadVarint(data, i) == Ok(Reading(8 * number + wireType, i + |TagBytes(number, wireType)|))
    ensures (8 * number + wireType) % 8 == wireType && FieldNumber(8 * number + wireType) == number
  {
    hide ReadVarint, VarintBytes, At, ToInt32;
    TagParts(number, wireType);
    ReadVarintLaw(data, i, 8 * number + wireType);
  }

  lemma TagParts(number: nat, wireType: nat)
    requires number < 0x2000_0000 && wireType < 8
    ensures (8 * number + wireType) % 8 == wireType && ToInt32((8 * number + wireType) / 8) == number
  {
  }

  /** One tag with its payload, other than a group. */
  lemma SkipSimple(data: seq<Byte>, i: nat, number: nat, u: Unknown, depth: nat)
    requires |data| < TWO63 && WellFormed(number, u) && !u.Group? && At(data, i, PayloadBytes(number, u))
    ensures SkipPayload(data, i, WireType(u), depth) == Ok((i + |PayloadBytes(number, u)|, depth))
  {
    hide ReadVarint, SkipVarint;
    match u
    case Number(v) => SkipNumber(data, i, v);
    case Block(bs) =>
      Behind(data, i, VarintBytes(|bs|), bs);
      ReadVarintLaw(data, i, |bs|);
    case Fixed64(_) =>
    case Fixed32(_) =>
  }

  /** What one tag and its payload come to. */
  lemma SkipStep(data: seq<Byte>, i: nat, number: nat, wireType: nat, depth: nat, end: nat, after: nat)
    requires number < 0x2000_0000 && wireType < 8 && At(data, i, TagBytes(number, wireType)) && end < TWO63
    requires SkipPayload(data, i + |TagBytes(number, wireType)|, wireType, depth) == Ok((end, after))
    ensures i < end && SkipField(data, i, depth) == GoOn(data, end, after)
  {
    hide ReadVarint, SkipPayload, At, VarintBytes, FieldNumber;
    ReadFieldTag(data, i, number, wireType);
    InData(data, i, TagBytes(number, wireType));
    Unfolded(data, i, depth, Reading(8 * number + wireType, i + |TagBytes(number, wireType)|), end, after);
  }

  lemma Unfolded(data: seq<Byte>, i: nat, depth: nat, t: Reading, end: nat, after: nat)
    requires i < |data| && ReadVarint(data, i) == Ok(t) && end < TWO63
    requires SkipPayload(data, t.next, t.value % 8, depth) == Ok((end, after))
    ensures i < end && SkipField(data, i, depth) == GoOn(data, end, after)
  {
    hide ReadVarint, SkipPayload;
  }

  /** A well-formed field is passed over as a whole, at any depth of groups. */
  lemma {:induction false} SkipsField(data: seq<Byte>, i: nat, number: nat, u: Unknown, depth: nat)
    requires |data| < TWO63 && WellFormed(number, u) && At(data, i, FieldBytes(number, u))
    ensures SkipField(data, i, depth) == GoOn(data, i + |FieldBytes(number, u)|, depth)
    decreases u, 2
  {
    hide At, TagBytes, SkipField, GoOn, VarintBytes, FieldsBytes, SkipPayload;
    var tag, payload := TagBytes(number, WireType(u)), PayloadBytes(number, u);
    Behind(data, i, tag, payload);
    var j := i + |tag|;
    InData(data, j, payload);
    if u.Group? {
      SkipsGroup(data, i, number, u.inner, depth);
    } else {
      SkipSimple(data, j, number, u, depth);
      SkipStep(data, i, number, WireType(u), depth, j + |payload|, depth);
    }
  }

  /** A start, fields and an end. */
  lemma {:induction false} SkipsGroup(data: seq<Byte>, i: nat, number: nat, inner: Unknowns, depth: nat)
    requires |data| < TWO63 && number < 0x2000_0000 && AllWellFormed(inner)
    requires At(data, i, TagBytes(number, 3) + (FieldsBytes(inner) + TagBytes(number, 4)))
    ensures SkipField(data, i, depth)
         == GoOn(data, i + |TagBytes(number, 3)| + |FieldsBytes(inner)| + |TagBytes(number, 4)|, depth)
    decreases inner, 1
  {
    hide At, TagBytes, SkipField, GoOn, VarintBytes, FieldsBytes, AllWellFormed;
    var j := i + |TagBytes(number, 3)|;
    var k := j + |FieldsBytes(inner)|;
    Behind(data, i, TagBytes(number, 3), FieldsBytes(inner) + TagBytes(number, 4));
    Behind(data, j, FieldsBytes(inner), TagBytes(number, 4));
    InData(data, k, TagBytes(number, 4));
    SkipStep(data, i, number, 3, depth, j, depth + 1);
    SkipsFields(data, j, inner, depth + 1);
    SkipStep(data, k, number, 4, depth + 1, k + |TagBytes(number, 4)|, depth);
    InGroup(data, j, depth);
  }

  lemma InGroup(data: seq<Byte>, j: nat, depth: nat)
    ensures GoOn(data, j, depth + 1) == SkipField(data, j, depth + 1)
  {
  }

  lemma InData(data: seq<Byte>, i: nat, part: seq<Byte>)
    requires At(data, i, part)
    ensures i + |part| <= |data| && (part != [] ==> i < |data|)
  {
  }

  lemma {:induction false} SkipsFields(data: seq<Byte>, i: nat, us: Unknowns, depth: nat)
    requires |data| < TWO63 && AllWellFormed(us) && At(data, i, FieldsBytes(us)) && depth > 0
    ensures SkipField(data, i, depth) == SkipField(data, i + |FieldsBytes(us)|, depth)
    decreases us, 0
  {
    hide At, SkipField;
    match us
    case Done =>
    case More(number, u, rest) =>
      Behind(data, i, FieldBytes(number, u), FieldsBytes(rest));
      SkipsField(data, i, number, u, depth);
      SkipsFields(data, i + |FieldBytes(number, u)|, rest, depth);
  }

  /** So the decoders pass over it, when it ends by their limit. */
  lemma SkipToLaw(data: seq<Byte>, i: nat, limit: nat, number: nat, u: Unknown)
    requires |data| < TWO63 && WellFormed(number, u) && At(data, i, FieldBytes(number, u))
    ensures i + |FieldBytes(number, u)| <= limit ==> SkipTo(data, i, limit) == Ok(i + |FieldBytes(number, u)|)
  {
    hide SkipField;
    var n := |FieldBytes(number, u)|;
    assert data[i..][0..n] == data[i..i + n];
    SkipsField(data[i..], 0, number, u, 0);
  }

  // ----- Decoding with unknown fields -----

  lemma UnknownStep(tc: TimeCodec, data: seq<Byte>, i: nat, number: nat, u: Unknown, r: Record)
    requires |data| < TWO63 && WellFormed(number, u) && number > 5 && At(data, i, FieldBytes(number, u))
    ensures i < |data| && RecordStep(tc, data, i, r) == Ok((r, i + |FieldBytes(number, u)|))
  {
    hide ReadVarint, SkipTo, PayloadBytes, ReadSpan, ParseEntry;
    Behind(data, i, TagBytes(number, WireType(u)), PayloadBytes(number, u));
    ReadFieldTag(data, i, number, WireType(u));
    SkipToLaw(data, i, |data|, number, u);
  }

  /** Wherever the decoder stands at well-formed fields with new numbers, it goes on behind them unchanged. */
  lemma {:induction false} UnknownFieldsPass(tc: TimeCodec, data: seq<Byte>, i: nat, us: Unknowns, r: Record)
    requires |data| < TWO63 && AllWellFormed(us) && NewNumbers(us) && At(data, i, FieldsBytes(us))
    ensures ParseRecord(tc, data, i, r) == ParseRecord(tc, data, i + |FieldsBytes(us)|, r)
    decreases us
  {
    hide At, RecordStep, ParseRecord;
    match us
    case Done =>
    case More(number, u, rest) =>
      Behind(data, i, FieldBytes(number, u), FieldsBytes(rest));
      UnknownStep(tc, data, i, number, u, r);
      ParseStep(tc, data, i, r);
      UnknownFieldsPass(tc, data, i + |FieldBytes(number, u)|, rest, r);
  }

  // ----- Malformed fields -----

  /** The wire type of a field of claim records. */
  function KnownType(number: nat): nat { if number <= 3 then 2 else 0 }

  /** A field number of zero, a known field of another wire type and the end of no group are errors. */
  lemma MalformedFieldFails(tc: TimeCodec, data: seq<Byte>, i: nat, number: nat, wireType: nat, r: Record)
    requires number <= 5 && wireType < 8 && At(data, i, TagBytes(number, wireType))
    requires number == 0 || wireType != KnownType(number)
    ensures ParseRecord(tc, data, i, r)
         == Err(if wireType == 4 then EndGroup else if number == 0 then IllegalTag else WrongWireType)
  {
    hide ReadVarint, SkipTo, ReadSpan, ParseEntry, At, VarintBytes;
    ReadFieldTag(data, i, number, wireType);
    InData(data, i, TagBytes(number, wireType));
  }

  /** A string or a map entry that claims to be longer than the data are is an error. */
  lemma OverlongFieldFails(tc: TimeCodec, data: seq<Byte>, i: nat, number: nat, n: nat, r: Record)
    requires 1 <= number <= 3 && n < TWO64 && At(data, i, TagBytes(number, 2) + VarintBytes(n))
    requires i + |TagBytes(number, 2)| + |VarintBytes(n)| + n > |data|
    ensures ParseRecord(tc, data, i, r).Err?
  {
    hide ReadVarint, SkipTo, ParseEntry, At, VarintBytes;
    Behind(data, i, TagBytes(number, 2), VarintBytes(n));
    ReadFieldTag(data, i, number, 2);
    InData(data, i, TagBytes(number, 2));
    ReadVarintLaw(data, i + |TagBytes(number, 2)|, n);
  }

  // ----- A record among unknown fields -----

  /** The strings and the map of r with other fields before each of them. */
  function MixedFront(tc: TimeCodec, r: Record, keys: seq<int>, us: seq<Unknowns>, tail: seq<Byte>): seq<Byte>
    requires KeysOf(r.actions, keys) && |us| == 6
  {
    FieldsBytes(us[0]) + (BytesField(0x0a, r.chainId)
    + (FieldsBytes(us[1]) + (BytesField(0x12, r.address)
    + (FieldsBytes(us[2]) + (MapBytes(tc, r.actions, keys) + tail)))))
  }

  /** Its numbers with other fields before, between and after them. */
  function MixedBack(r: Record, us: seq<Unknowns>): seq<Byte>
    requires |us| == 6
  {
    FieldsBytes(us[3]) + (NumberField(0x20, r.maxAllocation)
    + (FieldsBytes(us[4]) + (NumberField(0x28, r.baseValue) + FieldsBytes(us[5]))))
  }

  /** The wire form of r with other fields before, between and after its own. */
  function Mixed(tc: TimeCodec, r: Record, keys: seq<int>, us: seq<Unknowns>): seq<Byte>
    requires KeysOf(r.actions, keys) && |us| == 6
  {
    MixedFront(tc, r, keys, us, MixedBack(r, us))
  }

  ghost predicate Passable(us: seq<Unknowns>)
  {
    |us| == 6 && forall i :: 0 <= i < 6 ==> AllWellFormed(us[i]) && NewNumbers(us[i])
  }

  lemma Pass(tc: TimeCodec, data: seq<Byte>, i: nat, us: Unknowns, tail: seq<Byte>, r: Record) returns (n: nat)
    requires |data| < TWO63 && AllWellFormed(us) && NewNumbers(us) && At(data, i, FieldsBytes(us) + tail)
    ensures n == i + |FieldsBytes(us)| && At(data, n, tail)
    ensures ParseRecord(tc, data, i, r) == ParseRecord(tc, data, n, r)
  {
    hide At, ParseRecord, FieldsBytes, AllWellFormed, NewNumbers;
    Behind(data, i, FieldsBytes(us), tail);
    UnknownFieldsPass(tc, data, i, us, r);
    n := i + |FieldsBytes(us)|;
  }

  lemma FrontDecodes(tc: TimeCodec, data: seq<Byte>, r: Record, keys: seq<int>, us: seq<Unknowns>, tail: seq<Byte>)
    returns (n: nat)
    requires Lossless(tc) && Typed(r) && OrderOf(r.actions, keys) && Passable(us) && |data| < TWO63
    requires forall k :: k in r.actions ==> Encodable(tc, r.actions[k])
    requires At(data, 0, MixedFront(tc, r, keys, us, tail))
    ensures At(data, n, tail) && n + |tail| == |MixedFront(tc, r, keys, us, tail)|
    ensures ParseRecord(tc, data, 0, EMPTY) == ParseRecord(tc, data, n, Record(r.chainId, r.address, r.actions, 0, 0))
  {
    hide MapBytes, BytesField, ParseRecord, At, Picked, Lossless, Encodable, FieldsBytes, AllWellFormed, NewNumbers;
    var c, a, m := BytesField(0x0a, r.chainId), BytesField(0x12, r.address), MapBytes(tc, r.actions, keys);
    var t5 := m + tail;
    var t3 := a + (FieldsBytes(us[2]) + t5);
    var t1 := c + (FieldsBytes(us[1]) + t3);
    n := Pass(tc, data, 0, us[0], t1, EMPTY);
    Behind(data, n, c, FieldsBytes(us[1]) + t3);
    ChainIdField(tc, data, n, r.chainId, EMPTY);
    var s := EMPTY.(chainId := r.chainId);
    n := Pass(tc, data, n + |c|, us[1], t3, s);
    Behind(data, n, a, FieldsBytes(us[2]) + t5);
    AddressField(tc, data, n, r.address, s);
    s := s.(address := r.address);
    n := Pass(tc, data, n + |a|, us[2], t5, s);
    Behind(data, n, m, tail);
    MapRoundTrip(tc, data, n, r.actions, keys, s);
    PickedAll(r.actions, keys);
    assert map[] + r.actions == r.actions;
    n := n + |m|;
  }

  lemma BackDecodes(tc: TimeCodec, data: seq<Byte>, i: nat, r: Record, us: seq<Unknowns>)
    requires Typed(r) && Passable(us) && |data| < TWO63
    requires At(data, i, MixedBack(r, us)) && i + |MixedBack(r, us)| == |data|
    ensures ParseRecord(tc, data, i, Record(r.chainId, r.address, r.actions, 0, 0)) == Ok(r)
  {
    hide NumberField, ParseRecord, At, FieldsBytes, AllWellFormed, NewNumbers;
    var x, b := NumberField(0x20, r.maxAllocation), NumberField(0x28, r.baseValue);
    var t9 := b + FieldsBytes(us[5]);
    var t7 := x + (FieldsBytes(us[4]) + t9);
    var s := Record(r.chainId, r.address, r.actions, 0, 0);
    var n := Pass(tc, data, i, us[3], t7, s);
    Behind(data, n, x, FieldsBytes(us[4]) + t9);
    MaxAllocationField(tc, data, n, r.maxAllocation, s);
    s := s.(maxAllocation := r.maxAllocation);
    n := Pass(tc, data, n + |x|, us[4], t9, s);
    Behind(data, n, b, FieldsBytes(us[5]));
    BaseValueField(tc, data, n, r.baseValue, s);
    UnknownFieldsPass(tc, data, n + |b|, us[5], r);
    ParsedToTheEnd(tc, data, r);
  }

  /** A record decodes to itself whatever well-formed fields with new numbers a later version put among its own. */
  lemma UnknownFieldsIgnored(tc: TimeCodec, r: Record, keys: seq<int>, us: seq<Unknowns>)
    requires Lossless(tc) && Typed(r) && OrderOf(r.actions, keys) && Passable(us)
    requires forall k :: k in r.actions ==> Encodable(tc, r.actions[k])
    requires |Mixed(tc, r, keys, us)| < TWO63
    ensures ParseRecord(tc, Mixed(tc, r, keys, us), 0, EMPTY) == Ok(r)
  {
    hide MapBytes, BytesField, ParseRecord, Lossless, Encodable, FieldsBytes, MixedBack, AllWellFormed, NewNumbers;
    var data := Mixed(tc, r, keys, us);
    WholeAt(data);
    var n := FrontDecodes(tc, data, r, keys, us, MixedBack(r, us));
    BackDecodes(tc, data, n, r, us);
  }
}
