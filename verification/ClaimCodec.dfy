/**
 The wire form of a claim record: the generated Marshal, Size and Unmarshal of ClaimRecord
 and CompletedAction in x/airdrop/types/airdrop.pb.go. The codec of time stamps is a
 parameter, Go strings are sequences of bytes.
 */
module ClaimCodec {
  import opened Words
  import opened Varint
  import opened Airdrop

  /** StdTimeMarshalTo and StdTimeUnmarshal. */
  datatype TimeCodec = TimeCodec(encode: int -> Outcome<seq<Byte>>, decode: seq<Byte> -> Outcome<int>)

  /** Decoding undoes encoding. */
  ghost predicate Lossless(tc: TimeCodec)
  {
    forall t :: tc.encode(t).Ok? ==> tc.decode(tc.encode(t).value) == Ok(t)
  }

  /** A map value is a pointer and may be nil. */
  datatype ActionRef = Nil | To(action: CompletedAction)

  datatype Record = Record(chainId: seq<Byte>, address: seq<Byte>, actions: map<int, ActionRef>, maxAllocation: nat,
                           baseValue: nat)

  const EMPTY := Record([], [], map[], 0, 0)

  /** The zero CompletedAction; Go's zero time is the first of January of year 1. */
  const ZERO := CompletedAction(-62_135_596_800_000_000_000, 0)

  /** The values that Go's types can hold. */
  predicate Typed(r: Record)
  {
    && r.maxAllocation < TWO64 && r.baseValue < TWO64
    && (forall k :: k in r.actions ==> -TWO32 <= 2 * k < TWO32)
    && (forall k :: k in r.actions && r.actions[k].To? ==> r.actions[k].action.amount < TWO64)
  }

  predicate Encodable(tc: TimeCodec, v: ActionRef) { v.To? ==> tc.encode(v.action.time).Ok? }

  // ----- Bytes -----

  function Delimited(tag: Byte, bs: seq<Byte>): seq<Byte> { [tag] + (VarintBytes(|bs|) + bs) }

  function BytesField(tag: Byte, bs: seq<Byte>): seq<Byte> { if |bs| > 0 then Delimited(tag, bs) else [] }

  function NumberField(tag: Byte, v: nat): seq<Byte> { if v != 0 then [tag] + VarintBytes(v) else [] }

  function TimeBytes(tc: TimeCodec, t: int): seq<Byte>
  {
    if tc.encode(t).Ok? then tc.encode(t).value else []
  }

  function ActionBytes(tc: TimeCodec, a: CompletedAction): seq<Byte>
  {
    Delimited(0x0a, TimeBytes(tc, a.time)) + NumberField(0x10, a.amount)
  }

  function ValueBytes(tc: TimeCodec, v: ActionRef): seq<Byte>
  {
    if v.To? then Delimited(0x12, ActionBytes(tc, v.action)) else []
  }

  function KeyBytes(k: int): seq<Byte>
    requires -TWO64 <= k
  {
    [0x08] + VarintBytes(ToUint64(k))
  }

  function EntryBytes(tc: TimeCodec, k: int, v: ActionRef): seq<Byte>
    requires -TWO64 <= k
  {
    KeyBytes(k) + ValueBytes(tc, v)
  }

  predicate KeysOf(m: map<int, ActionRef>, keys: seq<int>)
  {
    forall k :: k in keys ==> k in m && -TWO64 <= k
  }

  /** The entries of a map ranged over in the order `keys`; the buffer is filled from its end. */
  function MapBytes(tc: TimeCodec, m: map<int, ActionRef>, keys: seq<int>): seq<Byte>
    requires KeysOf(m, keys)
  {
    if keys == [] then []
    else MapBytes(tc, m, keys[1..]) + Delimited(0x1a, EntryBytes(tc, keys[0], m[keys[0]]))
  }

  function RecordBytes(tc: TimeCodec, r: Record, keys: seq<int>): seq<Byte>
    requires KeysOf(r.actions, keys)
  {
    BytesField(0x0a, r.chainId) + (BytesField(0x12, r.address) + (MapBytes(tc, r.actions, keys)
    + (NumberField(0x20, r.maxAllocation) + NumberField(0x28, r.baseValue))))
  }

  // ----- Size -----

  function DelimitedSize(l: nat): nat { 1 + l + Sov(l) }

  function NumberSize(v: nat): nat { if v != 0 then 1 + Sov(v) else 0 }

  function BytesSize(l: nat): nat { if l > 0 then DelimitedSize(l) else 0 }

  function ActionSize(tc: TimeCodec, a: CompletedAction): nat
  {
    DelimitedSize(|TimeBytes(tc, a.time)|) + NumberSize(a.amount)
  }

  function ValueSize(tc: TimeCodec, v: ActionRef): nat
  {
    if v.To? then DelimitedSize(ActionSize(tc, v.action)) else 0
  }

  function EntrySize(tc: TimeCodec, k: int, v: ActionRef): nat
    requires -TWO64 <= k
  {
    1 + Sov(ToUint64(k)) + ValueSize(tc, v)
  }

  function MapSize(tc: TimeCodec, m: map<int, ActionRef>, keys: seq<int>): nat
    requires KeysOf(m, keys)
  {
    if keys == [] then 0 else DelimitedSize(EntrySize(tc, keys[0], m[keys[0]])) + MapSize(tc, m, keys[1..])
  }

  function RecordSize(tc: TimeCodec, r: Record, keys: seq<int>): nat
    requires KeysOf(r.actions, keys)
  {
    BytesSize(|r.chainId|) + BytesSize(|r.address|) + MapSize(tc, r.actions, keys)
    + NumberSize(r.maxAllocation) + NumberSize(r.baseValue)
  }

  lemma DelimitedLength(tag: Byte, bs: seq<Byte>)
    ensures |Delimited(tag, bs)| == DelimitedSize(|bs|)
    ensures |BytesField(tag, bs)| == BytesSize(|bs|)
  {
    SovIsLength(|bs|);
  }

  lemma DelimitedParts(tag: Byte, bs: seq<Byte>)
    ensures [tag] + VarintBytes(|bs|) + bs == Delimited(tag, bs)
  {
  }

  lemma NumberLength(tag: Byte, v: nat)
    ensures |NumberField(tag, v)| == NumberSize(v)
  {
    SovIsLength(v);
  }

  lemma ActionLength(tc: TimeCodec, a: CompletedAction)
    ensures |ActionBytes(tc, a)| == ActionSize(tc, a)
  {
    DelimitedLength(0x0a, TimeBytes(tc, a.time));
    NumberLength(0x10, a.amount);
  }

  lemma ValueLength(tc: TimeCodec, v: ActionRef)
    ensures |ValueBytes(tc, v)| == ValueSize(tc, v)
  {
    if v.To? {
      ActionLength(tc, v.action);
      DelimitedLength(0x12, ActionBytes(tc, v.action));
    }
  }

  lemma EntryLength(tc: TimeCodec, k: int, v: ActionRef)
    requires -TWO64 <= k
    ensures |EntryBytes(tc, k, v)| == EntrySize(tc, k, v)
  {
    SovIsLength(ToUint64(k));
    ValueLength(tc, v);
  }

  lemma {:induction false} MapLength(tc: TimeCodec, m: map<int, ActionRef>, keys: seq<int>)
    requires KeysOf(m, keys)
    ensures |MapBytes(tc, m, keys)| == MapSize(tc, m, keys)
  {
    if keys == [] {
    } else {
      assert forall k :: k in keys[1..] ==> k in keys;
      MapLength(tc, m, keys[1..]);
      EntryLength(tc, keys[0], m[keys[0]]);
      DelimitedLength(0x1a, EntryBytes(tc, keys[0], m[keys[0]]));
    }
  }

  /** Size is the exact number of bytes of the wire form, in every order of the map. */
  lemma SizeIsExact(tc: TimeCodec, r: Record, keys: seq<int>)
    requires KeysOf(r.actions, keys)
    ensures |RecordBytes(tc, r, keys)| == RecordSize(tc, r, keys)
  {
    DelimitedLength(0x0a, r.chainId);
    DelimitedLength(0x12, r.address);
    MapLength(tc, r.actions, keys);
    NumberLength(0x20, r.maxAllocation);
    NumberLength(0x28, r.baseValue);
  }

  // ----- Decoding -----

  function ToInt32(x: nat): int
  {
    var y := x % TWO32;
    if 2 * y >= TWO32 then y - TWO32 else y
  }

  function FieldNumber(wire: nat): int { ToInt32(wire / 8) }

  datatype Span = Span(from: nat, to: nat)

  /** The extent of a length-delimited field whose length stands at i. */
  function ReadSpan(data: seq<Byte>, i: nat): (r: Outcome<Span>)
    ensures r.Ok? ==> i < r.value.from <= r.value.to <= |data|
  {
    var n :- ReadVarint(data, i);
    if n.value >= TWO63 || n.next + n.value >= TWO63 then Err(InvalidLength)
    else if n.next + n.value > |data| then Err(Eof)
    else Ok(Span(n.next, n.next + n.value))
  }

  /** The end of a varint that is passed over. */
  function SkipVarint(data: seq<Byte>, i: nat, shift: nat): (r: Outcome<nat>)
    ensures r.Ok? ==> r.value > i
    decreases |data| - i
  {
    if shift >= 64 then Err(Overflow)
    else if i >= |data| then Err(Eof)
    else if data[i] < 128 then Ok(i + 1)
    else SkipVarint(data, i + 1, shift + 7)
  }

  /** The end of what a tag of the given wire type announces at i, and the group depth there. */
  function SkipPayload(data: seq<Byte>, i: nat, wireType: nat, depth: nat): (r: Outcome<(nat, nat)>)
    ensures r.Ok? ==> r.value.0 >= i
  {
    match wireType
    case 0 => var n :- SkipVarint(data, i, 0); Ok((n, depth))
    case 1 => Ok((i + 8, depth))
    case 2 =>
      var n :- ReadVarint(data, i);
      if n.value >= TWO63 then Err(InvalidLength) else Ok((n.next + n.value, depth))
    case 3 => Ok((i, depth + 1))
    case 4 => if depth == 0 then Err(UnexpectedEndOfGroup) else Ok((i, depth - 1))
    case 5 => Ok((i + 4, depth))
    case _ => Err(IllegalWireType)
  }

  /** skipAirdrop: the end of the field that starts at i, inside `depth` open groups. */
  function SkipField(data: seq<Byte>, i: nat, depth: nat): (r: Outcome<nat>)
    ensures r.Ok? ==> r.value > i
    decreases |data| - i
  {
    if i >= |data| then Err(Eof)
    else
      var t :- ReadVarint(data, i);
      var p :- SkipPayload(data, t.next, t.value % 8, depth);
      if p.0 >= TWO63 then Err(InvalidLength)
      else if p.1 == 0 then Ok(p.0)
      else SkipField(data, p.0, p.1)
  }

  /** Passes over the field at i, which must end by `limit`. */
  function SkipTo(data: seq<Byte>, i: nat, limit: nat): (r: Outcome<nat>)
    requires i <= |data|
    ensures r.Ok? ==> i < r.value <= limit
  {
    var n :- SkipField(data[i..], 0, 0);
    if i + n >= TWO63 then Err(InvalidLength)
    else if i + n > limit then Err(Eof)
    else Ok(i + n)
  }

  /** One turn of the loop of CompletedAction.Unmarshal. */
  function ActionStep(tc: TimeCodec, data: seq<Byte>, i: nat, a: CompletedAction): (r: Outcome<(CompletedAction, nat)>)
    requires i < |data|
    ensures r.Ok? ==> i < r.value.1 <= |data|
  {
    var t :- ReadVarint(data, i);
    var f, w := FieldNumber(t.value), t.value % 8;
    if w == 4 then Err(EndGroup)
    else if f <= 0 then Err(IllegalTag)
    else if f == 1 then
      if w != 2 then Err(WrongWireType)
      else
        var s :- ReadSpan(data, t.next);
        var time :- tc.decode(data[s.from..s.to]);
        Ok((a.(time := time), s.to))
    else if f == 2 then
      if w != 0 then Err(WrongWireType)
      else
        var n :- ReadVarint(data, t.next);
        Ok((a.(amount := n.value), n.next))
    else
      var n :- SkipTo(data, i, |data|);
      Ok((a, n))
  }

  function ParseAction(tc: TimeCodec, data: seq<Byte>, i: nat, a: CompletedAction): Outcome<CompletedAction>
    decreases |data| - i
  {
    if i >= |data| then Ok(a)
    else
      var p :- ActionStep(tc, data, i, a);
      ParseAction(tc, data, p.1, p.0)
  }

  /** A map entry while it is read: the bits of its key and its value. */
  datatype Entry = Entry(key: nat, value: ActionRef)

  /** One turn of the entry loop; it does not look at wire types and reads as far as the data go. */
  function EntryStep(tc: TimeCodec, data: seq<Byte>, i: nat, post: nat, e: Entry): (r: Outcome<(Entry, nat)>)
    requires i < post <= |data|
    ensures r.Ok? ==> i < r.value.1 <= |data|
  {
    var t :- ReadVarint(data, i);
    var f := FieldNumber(t.value);
    if f == 1 then
      var n :- ReadBits(data, t.next, 0, e.key, TWO32);
      Ok((e.(key := n.value), n.next))
    else if f == 2 then
      var s :- ReadSpan(data, t.next);
      var a :- ParseAction(tc, data[s.from..s.to], 0, ZERO);
      Ok((e.(value := To(a)), s.to))
    else
      var n :- SkipTo(data, i, post);
      Ok((e, n))
  }

  function ParseEntry(tc: TimeCodec, data: seq<Byte>, i: nat, post: nat, e: Entry): Outcome<Entry>
    requires post <= |data|
    decreases |data| - i
  {
    if i >= post then Ok(e)
    else
      var p :- EntryStep(tc, data, i, post, e);
      ParseEntry(tc, data, p.1, post, p.0)
  }

  function WithEntry(r: Record, e: Entry): Record { r.(actions := r.actions[ToInt32(e.key) := e.value]) }

  /** One turn of the loop of ClaimRecord.Unmarshal. */
  function RecordStep(tc: TimeCodec, data: seq<Byte>, i: nat, r: Record): (res: Outcome<(Record, nat)>)
    requires i < |data|
    ensures res.Ok? ==> i < res.value.1 <= |data|
  {
    var t :- ReadVarint(data, i);
    var f, w := FieldNumber(t.value), t.value % 8;
    if w == 4 then Err(EndGroup)
    else if f <= 0 then Err(IllegalTag)
    else if f <= 3 then
      if w != 2 then Err(WrongWireType)
      else
        var s :- ReadSpan(data, t.next);
        if f == 1 then Ok((r.(chainId := data[s.from..s.to]), s.to))
        else if f == 2 then Ok((r.(address := data[s.from..s.to]), s.to))
        else
          var e :- ParseEntry(tc, data, s.from, s.to, Entry(0, Nil));
          Ok((WithEntry(r, e), s.to))
    else if f <= 5 then
      if w != 0 then Err(WrongWireType)
      else
        var n :- ReadVarint(data, t.next);
        if f == 4 then Ok((r.(maxAllocation := n.value), n.next))
        else Ok((r.(baseValue := n.value), n.next))
    else
      var n :- SkipTo(data, i, |data|);
      Ok((r, n))
  }

  /** ClaimRecord.Unmarshal into r, from byte i on. */
  function ParseRecord(tc: TimeCodec, data: seq<Byte>, i: nat, r: Record): Outcome<Record>
    decreases |data| - i
  {
    if i >= |data| then Ok(r)
    else
      var p :- RecordStep(tc, data, i, r);
      ParseRecord(tc, data, p.1, p.0)
  }

  // ----- Round trip -----

  /** A one-byte tag is read back. */
  lemma ReadTag(data: seq<Byte>, i: nat, tag: Byte, rest: seq<Byte>)
    requires tag < 128 && At(data, i, [tag] + rest)
    ensures ReadVarint(data, i) == Ok(Reading(tag, i + 1)) && At(data, i + 1, rest)
  {
    Behind(data, i, [tag], rest);
    assert VarintBytes(tag) == [tag];
    ReadVarintLaw(data, i, tag);
  }

  lemma ReadSpanLaw(data: seq<Byte>, i: nat, bs: seq<Byte>)
    requires |data| < TWO63 && At(data, i, VarintBytes(|bs|) + bs)
    ensures var from := i + |VarintBytes(|bs|)|;
            ReadSpan(data, i) == Ok(Span(from, from + |bs|)) && At(data, from, bs)
  {
    hide ReadVarint;
    Behind(data, i, VarintBytes(|bs|), bs);
    ReadVarintLaw(data, i, |bs|);
  }

  /** What a decoder sees of a length-delimited field: its tag and the extent of its content. */
  lemma ReadDelimited(data: seq<Byte>, i: nat, tag: Byte, bs: seq<Byte>)
    requires tag < 128 && |data| < TWO63 && At(data, i, Delimited(tag, bs))
    ensures ReadVarint(data, i) == Ok(Reading(tag, i + 1))
    ensures var from, to := i + 1 + |VarintBytes(|bs|)|, i + |Delimited(tag, bs)|;
            ReadSpan(data, i + 1) == Ok(Span(from, to)) && At(data, from, bs) && data[from..to] == bs
  {
    hide ReadVarint, ReadSpan;
    ReadTag(data, i, tag, VarintBytes(|bs|) + bs);
    ReadSpanLaw(data, i + 1, bs);
  }

  lemma ReadNumber(data: seq<Byte>, i: nat, tag: Byte, v: nat)
    requires tag < 128 && v < TWO64 && At(data, i, [tag] + VarintBytes(v))
    ensures ReadVarint(data, i) == Ok(Reading(tag, i + 1))
    ensures ReadVarint(data, i + 1) == Ok(Reading(v, i + |[tag] + VarintBytes(v)|))
  {
    hide ReadVarint;
    ReadTag(data, i, tag, VarintBytes(v));
    ReadVarintLaw(data, i + 1, v);
  }

  lemma TimeStep(tc: TimeCodec, data: seq<Byte>, i: nat, bs: seq<Byte>, a: CompletedAction)
    requires |data| < TWO63 && At(data, i, Delimited(0x0a, bs)) && tc.decode(bs).Ok?
    ensures i < |data| && ActionStep(tc, data, i, a) == Ok((a.(time := tc.decode(bs).value), i + |Delimited(0x0a, bs)|))
  {
    hide ReadVarint, ReadSpan, SkipTo;
    ReadDelimited(data, i, 0x0a, bs);
  }

  lemma AmountStep(tc: TimeCodec, data: seq<Byte>, i: nat, v: nat, a: CompletedAction)
    requires v < TWO64 && At(data, i, [0x10] + VarintBytes(v))
    ensures i < |data| && ActionStep(tc, data, i, a) == Ok((a.(amount := v), i + |[0x10] + VarintBytes(v)|))
  {
    hide ReadVarint, ReadSpan, SkipTo;
    ReadNumber(data, i, 0x10, v);
  }

  lemma WholeAt(data: seq<Byte>)
    ensures At(data, 0, data)
  {
    assert data[0..|data|] == data;
  }

  /** A completed action decodes to itself. */
  lemma ActionRoundTrip(tc: TimeCodec, a: CompletedAction)
    requires Lossless(tc) && tc.encode(a.time).Ok? && a.amount < TWO64 && |ActionBytes(tc, a)| < TWO63
    ensures ParseAction(tc, ActionBytes(tc, a), 0, ZERO) == Ok(a)
  {
    hide ActionStep;
    var data, bs := ActionBytes(tc, a), TimeBytes(tc, a.time);
    var n := |Delimited(0x0a, bs)|;
    WholeAt(data);
    Behind(data, 0, Delimited(0x0a, bs), NumberField(0x10, a.amount));
    TimeStep(tc, data, 0, bs, ZERO);
    var b := ZERO.(time := a.time);
    assert ParseAction(tc, data, 0, ZERO) == ParseAction(tc, data, n, b);
    if a.amount != 0 {
      AmountStep(tc, data, n, a.amount, b);
      assert ParseAction(tc, data, n, b) == ParseAction(tc, data, |data|, a);
    }
  }

  // ----- A map entry -----

  lemma KeyBack(k: int)
    requires -TWO32 <= 2 * k < TWO32
    ensures 0 <= ToUint64(k) < TWO64 && ToInt32(ToUint64(k) % TWO32) == k
  {
  }

  lemma KeyStep(tc: TimeCodec, data: seq<Byte>, i: nat, post: nat, k: int)
    requires -TWO32 <= 2 * k < TWO32 && i < post <= |data| && At(data, i, KeyBytes(k))
    ensures EntryStep(tc, data, i, post, Entry(0, Nil)) == Ok((Entry(ToUint64(k) % TWO32, Nil), i + |KeyBytes(k)|))
  {
    hide ReadVarint, ReadBits, ReadSpan, SkipTo;
    KeyBack(k);
    ReadTag(data, i, 0x08, VarintBytes(ToUint64(k)));
    ReadVarint32(data, i + 1, ToUint64(k));
  }

  lemma ValueStep(tc: TimeCodec, data: seq<Byte>, i: nat, post: nat, a: CompletedAction, e: Entry)
    requires Lossless(tc) && tc.encode(a.time).Ok? && a.amount < TWO64 && |data| < TWO63
    requires i < post <= |data| && At(data, i, Delimited(0x12, ActionBytes(tc, a)))
    ensures EntryStep(tc, data, i, post, e) == Ok((e.(value := To(a)), i + |Delimited(0x12, ActionBytes(tc, a))|))
  {
    hide ReadVarint, ReadSpan, SkipTo, ParseAction;
    ReadDelimited(data, i, 0x12, ActionBytes(tc, a));
    ActionRoundTrip(tc, a);
  }

  lemma EntryRoundTrip(tc: TimeCodec, data: seq<Byte>, i: nat, k: int, v: ActionRef)
    requires Lossless(tc) && Encodable(tc, v) && (v.To? ==> v.action.amount < TWO64)
    requires -TWO32 <= 2 * k < TWO32 && |data| < TWO63 && At(data, i, EntryBytes(tc, k, v))
    ensures ParseEntry(tc, data, i, i + |EntryBytes(tc, k, v)|, Entry(0, Nil)) == Ok(Entry(ToUint64(k) % TWO32, v))
  {
    hide EntryStep;
    var post, n := i + |EntryBytes(tc, k, v)|, i + |KeyBytes(k)|;
    var e := Entry(ToUint64(k) % TWO32, Nil);
    Behind(data, i, KeyBytes(k), ValueBytes(tc, v));
    KeyStep(tc, data, i, post, k);
    assert ParseEntry(tc, data, i, post, Entry(0, Nil)) == ParseEntry(tc, data, n, post, e);
    if v.To? {
      ValueStep(tc, data, n, post, v.action, e);
      assert ParseEntry(tc, data, n, post, e) == ParseEntry(tc, data, post, post, e.(value := v));
    }
  }

  // ----- A record -----

  lemma ChainIdStep(tc: TimeCodec, data: seq<Byte>, i: nat, bs: seq<Byte>, r: Record)
    requires |data| < TWO63 && At(data, i, Delimited(0x0a, bs))
    ensures i < |data| && RecordStep(tc, data, i, r) == Ok((r.(chainId := bs), i + |Delimited(0x0a, bs)|))
  {
    hide ReadVarint, ReadSpan, SkipTo, ParseEntry;
    ReadDelimited(data, i, 0x0a, bs);
  }

  lemma AddressStep(tc: TimeCodec, data: seq<Byte>, i: nat, bs: seq<Byte>, r: Record)
    requires |data| < TWO63 && At(data, i, Delimited(0x12, bs))
    ensures i < |data| && RecordStep(tc, data, i, r) == Ok((r.(address := bs), i + |Delimited(0x12, bs)|))
  {
    hide ReadVarint, ReadSpan, SkipTo, ParseEntry;
    ReadDelimited(data, i, 0x12, bs);
  }

  lemma EntryFieldStep(tc: TimeCodec, data: seq<Byte>, i: nat, k: int, v: ActionRef, r: Record)
    requires Lossless(tc) && Encodable(tc, v) && (v.To? ==> v.action.amount < TWO64)
    requires -TWO32 <= 2 * k < TWO32 && |data| < TWO63 && At(data, i, Delimited(0x1a, EntryBytes(tc, k, v)))
    ensures i < |data| && RecordStep(tc, data, i, r)
                       == Ok((r.(actions := r.actions[k := v]), i + |Delimited(0x1a, EntryBytes(tc, k, v))|))
  {
    hide ReadVarint, ReadSpan, SkipTo, ParseEntry;
    var bs := EntryBytes(tc, k, v);
    ReadDelimited(data, i, 0x1a, bs);
    EntryRoundTrip(tc, data, i + 1 + |VarintBytes(|bs|)|, k, v);
    KeyBack(k);
  }

  lemma MaxAllocationStep(tc: TimeCodec, data: seq<Byte>, i: nat, v: nat, r: Record)
    requires v < TWO64 && At(data, i, [0x20] + VarintBytes(v))
    ensures i < |data| && RecordStep(tc, data, i, r) == Ok((r.(maxAllocation := v), i + |[0x20] + VarintBytes(v)|))
  {
    hide ReadVarint, ReadSpan, SkipTo, ParseEntry;
    ReadNumber(data, i, 0x20, v);
  }

  lemma BaseValueStep(tc: TimeCodec, data: seq<Byte>, i: nat, v: nat, r: Record)
    requires v < TWO64 && At(data, i, [0x28] + VarintBytes(v))
    ensures i < |data| && RecordStep(tc, data, i, r) == Ok((r.(baseValue := v), i + |[0x28] + VarintBytes(v)|))
  {
    hide ReadVarint, ReadSpan, SkipTo, ParseEntry;
    ReadNumber(data, i, 0x28, v);
  }

  /** What decoding r into a record that holds `was` leaves: omitted fields keep their old value. */
  function Merged(was: Record, r: Record): Record
  {
    Record(if r.chainId == [] then was.chainId else r.chainId,
           if r.address == [] then was.address else r.address,
           was.actions + r.actions,
           if r.maxAllocation == 0 then was.maxAllocation else r.maxAllocation,
           if r.baseValue == 0 then was.baseValue else r.baseValue)
  }

  function Picked(m: map<int, ActionRef>, keys: seq<int>): map<int, ActionRef>
    requires forall k :: k in keys ==> k in m
  {
    map k | k in keys :: m[k]
  }

  ghost predicate Writable(tc: TimeCodec, m: map<int, ActionRef>, keys: seq<int>)
  {
    forall k :: k in keys ==>
      && k in m && -TWO32 <= 2 * k < TWO32 && Encodable(tc, m[k])
      && (m[k].To? ==> m[k].action.amount < TWO64)
  }

  /** The entries of a map are all stored, whatever order they were written in. */
  lemma {:induction false} MapRoundTrip(tc: TimeCodec, data: seq<Byte>, i: nat, m: map<int, ActionRef>,
                                        keys: seq<int>, r: Record)
    requires Lossless(tc) && |data| < TWO63 && Writable(tc, m, keys) && KeysOf(m, keys)
    requires At(data, i, MapBytes(tc, m, keys))
    ensures ParseRecord(tc, data, i, r)
         == ParseRecord(tc, data, i + |MapBytes(tc, m, keys)|, r.(actions := r.actions + Picked(m, keys)))
    decreases keys
  {
    hide RecordStep;
    if keys == [] {
      assert r.actions + Picked(m, keys) == r.actions;
    } else {
      assert forall k :: k in keys[1..] ==> k in keys;
      var k, below := keys[0], MapBytes(tc, m, keys[1..]);
      var s := r.(actions := r.actions + Picked(m, keys[1..]));
      Behind(data, i, below, Delimited(0x1a, EntryBytes(tc, k, m[k])));
      MapRoundTrip(tc, data, i, m, keys[1..], r);
      EntryFieldStep(tc, data, i + |below|, k, m[k], s);
      PickedMore(r.actions, m, keys);
    }
  }

  lemma PickedMore(was: map<int, ActionRef>, m: map<int, ActionRef>, keys: seq<int>)
    requires keys != [] && forall k :: k in keys ==> k in m
    ensures keys[0] in m && forall k :: k in keys[1..] ==> k in m
    ensures (was + Picked(m, keys[1..]))[keys[0] := m[keys[0]]] == was + Picked(m, keys)
  {
    assert keys == [keys[0]] + keys[1..];
    assert forall k :: k in keys <==> k == keys[0] || k in keys[1..];
  }

  lemma PickedAll(m: map<int, ActionRef>, keys: seq<int>)
    requires OrderOf(m, keys)
    ensures Picked(m, keys) == m
  {
    var p := Picked(m, keys);
    assert forall k :: k in m ==> k in keys && k in p;
    assert p.Keys == m.Keys;
  }

  lemma Sections(data: seq<Byte>, a: seq<Byte>, b: seq<Byte>, c: seq<Byte>, d: seq<Byte>, e: seq<Byte>)
    requires data == a + (b + (c + (d + e)))
    ensures At(data, 0, a) && At(data, |a|, b) && At(data, |a| + |b|, c)
    ensures At(data, |a| + |b| + |c|, d) && At(data, |a| + |b| + |c| + |d|, e)
  {
    WholeAt(data);
    Behind(data, 0, a, b + (c + (d + e)));
    Behind(data, |a|, b, c + (d + e));
    Behind(data, |a| + |b|, c, d + e);
    Behind(data, |a| + |b| + |c|, d, e);
  }

  lemma ParseStep(tc: TimeCodec, data: seq<Byte>, i: nat, r: Record)
    requires i < |data| && RecordStep(tc, data, i, r).Ok?
    ensures var (s, n) := RecordStep(tc, data, i, r).value;
            ParseRecord(tc, data, i, r) == ParseRecord(tc, data, n, s)
  {
    hide RecordStep;
  }

  lemma ChainIdField(tc: TimeCodec, data: seq<Byte>, i: nat, bs: seq<Byte>, r: Record)
    requires |data| < TWO63 && At(data, i, BytesField(0x0a, bs))
    ensures ParseRecord(tc, data, i, r)
         == ParseRecord(tc, data, i + |BytesField(0x0a, bs)|, r.(chainId := if bs == [] then r.chainId else bs))
  {
    hide ParseRecord, RecordStep, Delimited, At;
    if bs != [] {
      ChainIdStep(tc, data, i, bs, r);
      ParseStep(tc, data, i, r);
    }
  }

  lemma AddressField(tc: TimeCodec, data: seq<Byte>, i: nat, bs: seq<Byte>, r: Record)
    requires |data| < TWO63 && At(data, i, BytesField(0x12, bs))
    ensures ParseRecord(tc, data, i, r)
         == ParseRecord(tc, data, i + |BytesField(0x12, bs)|, r.(address := if bs == [] then r.address else bs))
  {
    hide ParseRecord, RecordStep, Delimited, At;
    if bs != [] {
      AddressStep(tc, data, i, bs, r);
      ParseStep(tc, data, i, r);
    }
  }

  lemma MaxAllocationField(tc: TimeCodec, data: seq<Byte>, i: nat, v: nat, r: Record)
    requires v < TWO64 && At(data, i, NumberField(0x20, v))
    ensures ParseRecord(tc, data, i, r)
         == ParseRecord(tc, data, i + |NumberField(0x20, v)|,
                        r.(maxAllocation := if v == 0 then r.maxAllocation else v))
  {
    hide ParseRecord, RecordStep, VarintBytes, At;
    if v != 0 {
      MaxAllocationStep(tc, data, i, v, r);
      ParseStep(tc, data, i, r);
    }
  }

  lemma BaseValueField(tc: TimeCodec, data: seq<Byte>, i: nat, v: nat, r: Record)
    requires v < TWO64 && At(data, i, NumberField(0x28, v))
    ensures ParseRecord(tc, data, i, r)
         == ParseRecord(tc, data, i + |NumberField(0x28, v)|, r.(baseValue := if v == 0 then r.baseValue else v))
  {
    hide ParseRecord, RecordStep, VarintBytes, At;
    if v != 0 {
      BaseValueStep(tc, data, i, v, r);
      ParseStep(tc, data, i, r);
    }
  }

  /** `keys` is an order in which Go may range over the map. */
  ghost predicate OrderOf(m: map<int, ActionRef>, keys: seq<int>)
  {
    forall k :: k in keys <==> k in m
  }

  /**
   Decoding the wire form of r, written in any order of its map, adds r to the record it is
   decoded into.
   */
  lemma DecodeMerges(tc: TimeCodec, r: Record, keys: seq<int>, was: Record)
    requires Lossless(tc) && Typed(r) && OrderOf(r.actions, keys)
    requires (forall k :: k in r.actions ==> Encodable(tc, r.actions[k])) && |RecordBytes(tc, r, keys)| < TWO63
    ensures ParseRecord(tc, RecordBytes(tc, r, keys), 0, was) == Ok(Merged(was, r))
  {
    hide MapBytes, BytesField, NumberField, ParseRecord, At, Picked, Lossless, Encodable;
    var data := RecordBytes(tc, r, keys);
    var a, b, c := BytesField(0x0a, r.chainId), BytesField(0x12, r.address), MapBytes(tc, r.actions, keys);
    var d, e := NumberField(0x20, r.maxAllocation), NumberField(0x28, r.baseValue);
    Sections(data, a, b, c, d, e);
    var n1, n2, n3 := |a|, |a| + |b|, |a| + |b| + |c|;
    ChainIdField(tc, data, 0, r.chainId, was);
    var s1 := was.(chainId := if r.chainId == [] then was.chainId else r.chainId);
    AddressField(tc, data, n1, r.address, s1);
    var s2 := s1.(address := if r.address == [] then was.address else r.address);
    MapRoundTrip(tc, data, n2, r.actions, keys, s2);
    PickedAll(r.actions, keys);
    var s3 := s2.(actions := was.actions + r.actions);
    MaxAllocationField(tc, data, n3, r.maxAllocation, s3);
    var s4 := s3.(maxAllocation := if r.maxAllocation == 0 then was.maxAllocation else r.maxAllocation);
    BaseValueField(tc, data, n3 + |d|, r.baseValue, s4);
    ParsedToTheEnd(tc, data, Merged(was, r));
  }

  lemma ParsedToTheEnd(tc: TimeCodec, data: seq<Byte>, r: Record)
    ensures ParseRecord(tc, data, |data|, r) == Ok(r)
  {
  }

  /** A claim record decodes to itself, whatever order its map was written in. */
  lemma RecordRoundTrip(tc: TimeCodec, r: Record, keys: seq<int>)
    requires Lossless(tc) && Typed(r) && OrderOf(r.actions, keys)
    requires (forall k :: k in r.actions ==> Encodable(tc, r.actions[k])) && RecordSize(tc, r, keys) < TWO63
    ensures ParseRecord(tc, RecordBytes(tc, r, keys), 0, EMPTY) == Ok(r)
  {
    hide ParseRecord, RecordBytes, RecordSize;
    SizeIsExact(tc, r, keys);
    DecodeMerges(tc, r, keys, EMPTY);
    assert map[] + r.actions == r.actions;
  }

  // ----- Any bytes -----

  /** Every time that can be decoded can be encoded, and so can Go's zero time. */
  ghost predicate Closed(tc: TimeCodec)
  {
    tc.encode(ZERO.time).Ok? && forall bs :: tc.decode(bs).Ok? ==> tc.encode(tc.decode(bs).value).Ok?
  }

  predicate SoundAction(tc: TimeCodec, a: CompletedAction) { a.amount < TWO64 && tc.encode(a.time).Ok? }

  predicate Sound(tc: TimeCodec, r: Record)
  {
    Typed(r) && forall k :: k in r.actions ==> Encodable(tc, r.actions[k])
  }

  lemma {:induction false} ParsedActionIsSound(tc: TimeCodec, data: seq<Byte>, i: nat, a: CompletedAction)
    requires Closed(tc) && SoundAction(tc, a)
    ensures var r := ParseAction(tc, data, i, a); r.Ok? ==> SoundAction(tc, r.value)
    decreases |data| - i
  {
    hide ReadBits, ReadSpan, SkipTo, FieldNumber;
    if i < |data| {
      var step := ActionStep(tc, data, i, a);
      if step.Ok? {
        ReadsFit(data, ReadVarint(data, i).value.next, 0);
        ParsedActionIsSound(tc, data, step.value.1, step.value.0);
      }
    }
  }

  predicate SoundEntry(tc: TimeCodec, e: Entry)
  {
    e.key < TWO32 && (e.value.To? ==> SoundAction(tc, e.value.action))
  }

  lemma {:induction false} ParsedEntryIsSound(tc: TimeCodec, data: seq<Byte>, i: nat, post: nat, e: Entry)
    requires Closed(tc) && SoundEntry(tc, e) && post <= |data|
    ensures var r := ParseEntry(tc, data, i, post, e); r.Ok? ==> SoundEntry(tc, r.value)
    decreases |data| - i
  {
    hide ReadBits, ReadSpan, SkipTo, FieldNumber, ParseAction;
    if i < post {
      var step := EntryStep(tc, data, i, post, e);
      if step.Ok? {
        var t := ReadVarint(data, i).value;
        ReadsFit(data, t.next, e.key);
        var s := ReadSpan(data, t.next);
        if s.Ok? { ParsedActionIsSound(tc, data[s.value.from..s.value.to], 0, ZERO); }
        ParsedEntryIsSound(tc, data, step.value.1, post, step.value.0);
      }
    }
  }

  lemma KeyInRange(x: nat)
    ensures -TWO32 <= 2 * ToInt32(x) < TWO32
  {
  }

  lemma {:induction false} ParsedRecordIsSound(tc: TimeCodec, data: seq<Byte>, i: nat, r: Record)
    requires Closed(tc) && Sound(tc, r)
    ensures var res := ParseRecord(tc, data, i, r); res.Ok? ==> Sound(tc, res.value)
    decreases |data| - i
  {
    hide ReadBits, ReadSpan, SkipTo, FieldNumber, ParseEntry, ToInt32;
    if i < |data| {
      var step := RecordStep(tc, data, i, r);
      if step.Ok? {
        var t := ReadVarint(data, i).value;
        ReadsFit(data, t.next, 0);
        var s := ReadSpan(data, t.next);
        if s.Ok? {
          ParsedEntryIsSound(tc, data, s.value.from, s.value.to, Entry(0, Nil));
          var e := ParseEntry(tc, data, s.value.from, s.value.to, Entry(0, Nil));
          if e.Ok? { KeyInRange(e.value.key); }
        }
        ParsedRecordIsSound(tc, data, step.value.1, step.value.0);
      }
    }
  }

  /** Any bytes that decode, canonical or not, decode to a record that survives being written and read again. */
  lemma DecodedRecordRoundTrips(tc: TimeCodec, data: seq<Byte>, keys: seq<int>)
    requires Lossless(tc) && Closed(tc) && ParseRecord(tc, data, 0, EMPTY).Ok?
    ensures var r := ParseRecord(tc, data, 0, EMPTY).value;
            && Sound(tc, r)
            && (OrderOf(r.actions, keys) && RecordSize(tc, r, keys) < TWO63 ==>
                  ParseRecord(tc, RecordBytes(tc, r, keys), 0, EMPTY) == Ok(r))
  {
    hide ParseRecord, RecordBytes, RecordSize;
    ParsedRecordIsSound(tc, data, 0, EMPTY);
    var r := ParseRecord(tc, data, 0, EMPTY).value;
    if OrderOf(r.actions, keys) && RecordSize(tc, r, keys) < TWO63 {
      RecordRoundTrip(tc, r, keys);
    }
  }
}
