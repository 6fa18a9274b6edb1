/**
 The generated encoder and decoder of claim records as they run: a buffer filled from its end
 (Marshal, MarshalToSizedBuffer) and cursor loops over the bytes (Unmarshal, skipAirdrop) in
 x/airdrop/types/airdrop.pb.go.
 */
module ClaimWire {
  import opened Words
  import opened Varint
  import opened Airdrop
  import opened ClaimCodec
  import opened Sums

  // ----- Orders of the map -----

  /** One order in which a range loop can visit a map. */
  ghost predicate Ranges(m: map<int, ActionRef>, keys: seq<int>)
  {
    OrderOf(m, keys) && DistinctBy(k => k, keys)
  }

  lemma RangesAlike(m: map<int, ActionRef>, keys: seq<int>, others: seq<int>)
    requires Ranges(m, keys) && Ranges(m, others)
    ensures multiset(keys) == multiset(others)
  {
    forall k ensures multiset(keys)[k] == multiset(others)[k] {
      DistinctByOnce(k => k, keys, k);
      DistinctByOnce(k => k, others, k);
      assert k in multiset(keys) <==> k in keys;
      assert k in multiset(others) <==> k in others;
    }
  }

  ghost function SizeOfKey(tc: TimeCodec, m: map<int, ActionRef>): int -> int
  {
    k => if k in m && -TWO64 <= k then DelimitedSize(EntrySize(tc, k, m[k])) else 0
  }

  lemma {:induction false} MapSizeIsSum(tc: TimeCodec, m: map<int, ActionRef>, keys: seq<int>)
    requires KeysOf(m, keys)
    ensures MapSize(tc, m, keys) == SumBy(SizeOfKey(tc, m), keys)
  {
    if keys == [] {
    } else {
      assert forall k :: k in keys[1..] ==> k in keys;
      MapSizeIsSum(tc, m, keys[1..]);
    }
  }

  /** The order in which Size ranges over the map does not matter to the order of Marshal. */
  lemma SizeIgnoresOrder(tc: TimeCodec, r: Record, keys: seq<int>, others: seq<int>)
    requires Typed(r) && Ranges(r.actions, keys) && Ranges(r.actions, others)
    ensures RecordSize(tc, r, keys) == RecordSize(tc, r, others)
  {
    RangesAlike(r.actions, keys, others);
    MapSizeIsSum(tc, r.actions, keys);
    MapSizeIsSum(tc, r.actions, others);
    SumByPermutation(SizeOfKey(tc, r.actions), keys, others);
  }

  lemma KeysSplit(m: map<int, ActionRef>, keys: seq<int>, j: nat)
    requires KeysOf(m, keys) && j <= |keys|
    ensures KeysOf(m, keys[..j]) && KeysOf(m, keys[j..])
  {
    assert forall k :: k in keys[..j] || k in keys[j..] ==> k in keys;
  }

  // ----- Size -----

  method Size(tc: TimeCodec, r: Record, keys: seq<int>) returns (n: nat)
    requires KeysOf(r.actions, keys)
    ensures n == RecordSize(tc, r, keys) == |RecordBytes(tc, r, keys)|
  {
    hide RecordBytes, BytesSize, NumberSize, EntrySize, Sov;
    n := BytesSize(|r.chainId|) + BytesSize(|r.address|);
    ghost var start := n;
    assert keys[0..] == keys;
    for j := 0 to |keys|
      invariant KeysOf(r.actions, keys[j..])
      invariant n + MapSize(tc, r.actions, keys[j..]) == start + MapSize(tc, r.actions, keys)
    {
      assert keys[j..][0] == keys[j] && keys[j..][1..] == keys[j + 1..];
      KeysSplit(r.actions, keys, j + 1);
      var entrySize := EntrySize(tc, keys[j], r.actions[keys[j]]);
      n := n + entrySize + 1 + Sov(entrySize);
    }
    n := n + NumberSize(r.maxAllocation) + NumberSize(r.baseValue);
    SizeIsExact(tc, r, keys);
  }

  // ----- Marshal -----

  method PutHeader(buf: array<Byte>, end: nat, tag: Byte, v: nat) returns (base: nat)
    requires 1 + Sov(v) <= end <= buf.Length
    modifies buf
    ensures base + |[tag] + VarintBytes(v)| == end && |VarintBytes(v)| == Sov(v)
    ensures buf[..] == Written(old(buf[..]), base, [tag] + VarintBytes(v))
  {
    hide Sov, VarintBytes;
    var i := EncodeVarint(buf, end, v);
    base := i - 1;
    ghost var now := buf[..];
    buf[base] := tag;
    assert buf[..] == Written(now, base, [tag]);
    WrittenBelow(old(buf[..]), base, [tag], VarintBytes(v));
  }

  method PutNumber(buf: array<Byte>, end: nat, tag: Byte, v: nat) returns (base: nat)
    requires NumberSize(v) <= end <= buf.Length
    modifies buf
    ensures base + |NumberField(tag, v)| == end && |NumberField(tag, v)| == NumberSize(v)
    ensures buf[..] == Written(old(buf[..]), base, NumberField(tag, v))
  {
    hide Sov, VarintBytes;
    base := end;
    if v != 0 {
      base := PutHeader(buf, end, tag, v);
    }
  }

  /** copy: the bytes just below `end`. */
  method PutRaw(buf: array<Byte>, end: nat, bs: seq<Byte>) returns (base: nat)
    requires |bs| <= end <= buf.Length
    modifies buf
    ensures base + |bs| == end && buf[..] == Written(old(buf[..]), base, bs)
  {
    base := end - |bs|;
    forall k | 0 <= k < |bs| { buf[base + k] := bs[k]; }
    assert buf[..] == Written(old(buf[..]), base, bs);
  }

  method PutDelimited(buf: array<Byte>, end: nat, tag: Byte, bs: seq<Byte>) returns (base: nat)
    requires DelimitedSize(|bs|) <= end <= buf.Length
    modifies buf
    ensures base + |Delimited(tag, bs)| == end && |Delimited(tag, bs)| == DelimitedSize(|bs|)
    ensures buf[..] == Written(old(buf[..]), base, Delimited(tag, bs))
  {
    hide Sov, VarintBytes, Written;
    var i := PutRaw(buf, end, bs);
    base := PutHeader(buf, i, tag, |bs|);
    WrittenBelow(old(buf[..]), base, [tag] + VarintBytes(|bs|), bs);
    DelimitedParts(tag, bs);
  }

  method PutBytes(buf: array<Byte>, end: nat, tag: Byte, bs: seq<Byte>) returns (base: nat)
    requires BytesSize(|bs|) <= end <= buf.Length
    modifies buf
    ensures base + |BytesField(tag, bs)| == end && |BytesField(tag, bs)| == BytesSize(|bs|)
    ensures buf[..] == Written(old(buf[..]), base, BytesField(tag, bs))
  {
    hide Sov, VarintBytes;
    base := end;
    if |bs| > 0 {
      base := PutDelimited(buf, end, tag, bs);
    }
  }

  /** CompletedAction.MarshalToSizedBuffer on the part of the buffer below `end`. */
  method MarshalAction(tc: TimeCodec, buf: array<Byte>, end: nat, a: CompletedAction) returns (r: Outcome<nat>)
    requires ActionSize(tc, a) <= end <= buf.Length
    modifies buf
    ensures r.Ok? <==> tc.encode(a.time).Ok?
    ensures r.Ok? ==> r.value + |ActionBytes(tc, a)| == end && |ActionBytes(tc, a)| == ActionSize(tc, a)
    ensures r.Ok? ==> buf[..] == Written(old(buf[..]), r.value, ActionBytes(tc, a))
  {
    hide Sov, VarintBytes, Delimited, NumberField;
    ActionLength(tc, a);
    var i := PutNumber(buf, end, 0x10, a.amount);
    var bs :- tc.encode(a.time);
    i := PutDelimited(buf, i, 0x0a, bs);
    WrittenBelow(old(buf[..]), i, Delimited(0x0a, bs), NumberField(0x10, a.amount));
    return Ok(i);
  }

  /** The value of a map entry, below `end`. */
  method MarshalValue(tc: TimeCodec, buf: array<Byte>, end: nat, v: ActionRef) returns (r: Outcome<nat>)
    requires ValueSize(tc, v) <= end <= buf.Length
    modifies buf
    ensures r.Ok? <==> Encodable(tc, v)
    ensures r.Ok? ==> r.value + |ValueBytes(tc, v)| == end
    ensures r.Ok? ==> buf[..] == Written(old(buf[..]), r.value, ValueBytes(tc, v))
  {
    hide Sov, VarintBytes, ActionBytes, ActionSize, Delimited, Written;
    WrittenNothing(buf[..], end);
    if v.Nil? { return Ok(end); }
    var i :- MarshalAction(tc, buf, end, v.action);
    var base := PutHeader(buf, i, 0x12, end - i);
    ghost var bs := ActionBytes(tc, v.action);
    WrittenBelow(old(buf[..]), base, [0x12] + VarintBytes(|bs|), bs);
    DelimitedParts(0x12, bs);
    return Ok(base);
  }

  /** The key and the value of a map entry, below `end`. */
  method MarshalPair(tc: TimeCodec, buf: array<Byte>, end: nat, k: int, v: ActionRef) returns (r: Outcome<nat>)
    requires -TWO64 <= k && EntrySize(tc, k, v) <= end <= buf.Length
    modifies buf
    ensures r.Ok? <==> Encodable(tc, v)
    ensures r.Ok? ==> r.value + |EntryBytes(tc, k, v)| == end && |EntryBytes(tc, k, v)| == EntrySize(tc, k, v)
    ensures r.Ok? ==> buf[..] == Written(old(buf[..]), r.value, EntryBytes(tc, k, v))
  {
    hide Sov, VarintBytes, ValueBytes, ValueSize, Written, Encodable;
    ValueLength(tc, v);
    SovIsLength(ToUint64(k));
    var i :- MarshalValue(tc, buf, end, v);
    var base := PutHeader(buf, i, 0x08, ToUint64(k));
    WrittenBelow(old(buf[..]), base, KeyBytes(k), ValueBytes(tc, v));
    return Ok(base);
  }

  /** A map entry with its tag and length, below `end`. */
  method MarshalEntry(tc: TimeCodec, buf: array<Byte>, end: nat, k: int, v: ActionRef) returns (r: Outcome<nat>)
    requires -TWO64 <= k && DelimitedSize(EntrySize(tc, k, v)) <= end <= buf.Length
    modifies buf
    ensures r.Ok? <==> Encodable(tc, v)
    ensures r.Ok? ==> r.value + |Delimited(0x1a, EntryBytes(tc, k, v))| == end
    ensures |Delimited(0x1a, EntryBytes(tc, k, v))| == DelimitedSize(EntrySize(tc, k, v))
    ensures r.Ok? ==> buf[..] == Written(old(buf[..]), r.value, Delimited(0x1a, EntryBytes(tc, k, v)))
  {
    hide Sov, VarintBytes, EntryBytes, EntrySize, Written, Encodable;
    ghost var bs := EntryBytes(tc, k, v);
    EntryLength(tc, k, v);
    DelimitedLength(0x1a, bs);
    var i :- MarshalPair(tc, buf, end, k, v);
    var base := PutHeader(buf, i, 0x1a, end - i);
    WrittenBelow(old(buf[..]), base, [0x1a] + VarintBytes(|bs|), bs);
    DelimitedParts(0x1a, bs);
    return Ok(base);
  }

  lemma {:induction false} MapBytesNext(tc: TimeCodec, m: map<int, ActionRef>, keys: seq<int>, k: int)
    requires KeysOf(m, keys + [k])
    ensures k in m && -TWO64 <= k && KeysOf(m, keys)
    ensures MapBytes(tc, m, keys + [k]) == Delimited(0x1a, EntryBytes(tc, k, m[k])) + MapBytes(tc, m, keys)
  {
    hide Delimited, EntryBytes;
    assert k in keys + [k];
    assert forall x :: x in keys ==> x in keys + [k];
    var all := keys + [k];
    if keys == [] {
      assert all[1..] == [];
      assert MapBytes(tc, m, all) == [] + Delimited(0x1a, EntryBytes(tc, k, m[k]));
    } else {
      assert all[1..] == keys[1..] + [k] && all[0] == keys[0];
      assert forall x :: x in keys[1..] + [k] ==> x in all;
      MapBytesNext(tc, m, keys[1..], k);
      var a, b := Delimited(0x1a, EntryBytes(tc, k, m[k])), MapBytes(tc, m, keys[1..]);
      var c := Delimited(0x1a, EntryBytes(tc, keys[0], m[keys[0]]));
      assert (a + b) + c == a + (b + c);
    }
  }

  /** The map entries, below `end`, in the order of a range loop. */
  method MarshalEntries(tc: TimeCodec, buf: array<Byte>, end: nat, m: map<int, ActionRef>, keys: seq<int>)
    returns (r: Outcome<nat>)
    requires KeysOf(m, keys) && MapSize(tc, m, keys) <= end <= buf.Length
    modifies buf
    ensures r.Ok? <==> forall k :: k in keys ==> Encodable(tc, m[k])
    ensures r.Ok? ==> r.value + |MapBytes(tc, m, keys)| == end && |MapBytes(tc, m, keys)| == MapSize(tc, m, keys)
    ensures r.Ok? ==> buf[..] == Written(old(buf[..]), r.value, MapBytes(tc, m, keys))
  {
    hide Delimited, EntryBytes, EntrySize, DelimitedSize, Encodable, Written;
    ghost var was := buf[..];
    var i := end;
    assert keys[0..] == keys;
    assert buf[..] == Written(was, end, MapBytes(tc, m, keys[..0])) by { WrittenNothing(was, end); }
    for j := 0 to |keys|
      invariant KeysOf(m, keys[j..]) && KeysOf(m, keys[..j])
      invariant MapSize(tc, m, keys[j..]) <= i && i + |MapBytes(tc, m, keys[..j])| == end
      invariant forall k :: k in keys[..j] ==> Encodable(tc, m[k])
      invariant buf[..] == Written(was, i, MapBytes(tc, m, keys[..j]))
    {
      var k := keys[j];
      assert keys[j..][0] == k && keys[j..][1..] == keys[j + 1..] && keys[..j + 1] == keys[..j] + [k];
      KeysSplit(m, keys, j + 1);
      MapBytesNext(tc, m, keys[..j], k);
      ghost var below := MapBytes(tc, m, keys[..j]);
      i :- MarshalEntry(tc, buf, i, k, m[k]);
      WrittenBelow(was, i, Delimited(0x1a, EntryBytes(tc, k, m[k])), below);
    }
    assert keys[..|keys|] == keys;
    MapLength(tc, m, keys);
    return Ok(i);
  }

  lemma WrittenNothing(was: seq<Byte>, i: nat)
    requires i <= |was|
    ensures Written(was, i, []) == was
  {
  }

  /** ClaimRecord.MarshalToSizedBuffer. */
  method MarshalToSizedBuffer(tc: TimeCodec, buf: array<Byte>, r: Record, keys: seq<int>) returns (n: Outcome<nat>)
    requires KeysOf(r.actions, keys) && RecordSize(tc, r, keys) <= buf.Length
    modifies buf
    ensures n.Ok? <==> forall k :: k in keys ==> Encodable(tc, r.actions[k])
    ensures n.Ok? ==> n.value == |RecordBytes(tc, r, keys)| == RecordSize(tc, r, keys)
    ensures n.Ok? ==> buf[..] == Written(old(buf[..]), buf.Length - n.value, RecordBytes(tc, r, keys))
  {
    hide MapBytes, MapSize, BytesField, NumberField, BytesSize, NumberSize, Encodable, Written;
    SizeIsExact(tc, r, keys);
    ghost var was := buf[..];
    ghost var a, b, c := BytesField(0x0a, r.chainId), BytesField(0x12, r.address), MapBytes(tc, r.actions, keys);
    ghost var d, e := NumberField(0x20, r.maxAllocation), NumberField(0x28, r.baseValue);
    var i := PutNumber(buf, buf.Length, 0x28, r.baseValue);
    i := PutNumber(buf, i, 0x20, r.maxAllocation);
    WrittenBelow(was, i, d, e);
    i :- MarshalEntries(tc, buf, i, r.actions, keys);
    WrittenBelow(was, i, c, d + e);
    i := PutBytes(buf, i, 0x12, r.address);
    WrittenBelow(was, i, b, c + (d + e));
    i := PutBytes(buf, i, 0x0a, r.chainId);
    WrittenBelow(was, i, a, b + (c + (d + e)));
    return Ok(buf.Length - i);
  }

  /**
   ClaimRecord.Marshal. Size and the encoder range over the map in orders of their own; the
   buffer still fits exactly.
   */
  method Marshal(tc: TimeCodec, r: Record, sizeKeys: seq<int>, keys: seq<int>) returns (bytes: Outcome<seq<Byte>>)
    requires Typed(r) && Ranges(r.actions, sizeKeys) && Ranges(r.actions, keys)
    ensures bytes.Ok? <==> forall k :: k in r.actions ==> Encodable(tc, r.actions[k])
    ensures bytes.Ok? ==> bytes.value == RecordBytes(tc, r, keys) && |bytes.value| == RecordSize(tc, r, sizeKeys)
    ensures bytes.Ok? && Lossless(tc) && |bytes.value| < TWO63 ==> ParseRecord(tc, bytes.value, 0, EMPTY) == Ok(r)
  {
    hide RecordBytes, RecordSize, ParseRecord, Encodable, Lossless;
    SizeIgnoresOrder(tc, r, keys, sizeKeys);
    var size := Size(tc, r, sizeKeys);
    var buf := new Byte[size];
    var n :- MarshalToSizedBuffer(tc, buf, r, keys);
    if Lossless(tc) && n < TWO63 { RecordRoundTrip(tc, r, keys); }
    return Ok(buf[..n]);
  }

  // ----- Unmarshal -----

  method DecodeSpan(data: seq<Byte>, i: nat) returns (r: Outcome<Span>)
    ensures r == ReadSpan(data, i)
  {
    hide ReadBits;
    var n :- DecodeVarint(data, i, 0, TWO64);
    if n.value >= TWO63 { return Err(InvalidLength); }
    var post := n.next + n.value;
    if post >= TWO63 { return Err(InvalidLength); }
    if post > |data| { return Err(Eof); }
    return Ok(Span(n.next, post));
  }

  method PassVarint(data: seq<Byte>, from: nat) returns (r: Outcome<nat>)
    ensures r == SkipVarint(data, from, 0)
  {
    var shift: nat, i: nat := 0, from;
    while true
      invariant SkipVarint(data, i, shift) == SkipVarint(data, from, 0)
      decreases 64 - shift
    {
      if shift >= 64 { return Err(Overflow); }
      if i >= |data| { return Err(Eof); }
      i := i + 1;
      if data[i - 1] < 128 { return Ok(i); }
      shift := shift + 7;
    }
  }

  /** One payload of skipAirdrop: where it ends and how many groups are open there. */
  method PassPayload(data: seq<Byte>, i: nat, wireType: nat, depth: nat) returns (r: Outcome<(nat, nat)>)
    ensures r == SkipPayload(data, i, wireType, depth)
  {
    hide ReadBits, SkipVarint;
    if wireType == 0 {
      var n :- PassVarint(data, i);
      return Ok((n, depth));
    } else if wireType == 1 {
      return Ok((i + 8, depth));
    } else if wireType == 2 {
      var n :- DecodeVarint(data, i, 0, TWO64);
      if n.value >= TWO63 { return Err(InvalidLength); }
      return Ok((n.next + n.value, depth));
    } else if wireType == 3 {
      return Ok((i, depth + 1));
    } else if wireType == 4 {
      if depth == 0 { return Err(UnexpectedEndOfGroup); }
      return Ok((i, depth - 1));
    } else if wireType == 5 {
      return Ok((i + 4, depth));
    }
    return Err(IllegalWireType);
  }

  /** skipAirdrop. */
  method Skip(data: seq<Byte>) returns (r: Outcome<nat>)
    ensures r == SkipField(data, 0, 0)
  {
    hide ReadBits, SkipPayload;
    var i: nat, depth: nat := 0, 0;
    while i < |data|
      invariant SkipField(data, i, depth) == SkipField(data, 0, 0)
    {
      var t :- DecodeVarint(data, i, 0, TWO64);
      var p :- PassPayload(data, t.next, t.value % 8, depth);
      i, depth := p.0, p.1;
      if i >= TWO63 { return Err(InvalidLength); }
      if depth == 0 { return Ok(i); }
    }
    return Err(Eof);
  }

  /** The default branch of the decoders: the field at i is passed over. */
  method PassUnknown(data: seq<Byte>, i: nat, limit: nat) returns (r: Outcome<nat>)
    requires i <= |data|
    ensures r == SkipTo(data, i, limit)
  {
    hide SkipField;
    var n :- Skip(data[i..]);
    if i + n >= TWO63 { return Err(InvalidLength); }
    if i + n > limit { return Err(Eof); }
    return Ok(i + n);
  }

  /** CompletedAction.Unmarshal into a zero action. */
  method UnmarshalAction(tc: TimeCodec, data: seq<Byte>) returns (r: Outcome<CompletedAction>)
    ensures r == ParseAction(tc, data, 0, ZERO)
  {
    hide ReadBits, ReadSpan, SkipTo, FieldNumber;
    var i: nat, a := 0, ZERO;
    while i < |data|
      invariant i <= |data| && ParseAction(tc, data, i, a) == ParseAction(tc, data, 0, ZERO)
    {
      var t :- DecodeVarint(data, i, 0, TWO64);
      var f, w := FieldNumber(t.value), t.value % 8;
      if w == 4 { return Err(EndGroup); }
      if f <= 0 { return Err(IllegalTag); }
      if f == 1 {
        if w != 2 { return Err(WrongWireType); }
        var s :- DecodeSpan(data, t.next);
        var time :- tc.decode(data[s.from..s.to]);
        i, a := s.to, a.(time := time);
      } else if f == 2 {
        if w != 0 { return Err(WrongWireType); }
        var n :- DecodeVarint(data, t.next, 0, TWO64);
        i, a := n.next, a.(amount := n.value);
      } else {
        i :- PassUnknown(data, i, |data|);
      }
    }
    return Ok(a);
  }

  /** The loop over one map entry. */
  method UnmarshalEntry(tc: TimeCodec, data: seq<Byte>, from: nat, post: nat) returns (r: Outcome<Entry>)
    requires post <= |data|
    ensures r == ParseEntry(tc, data, from, post, Entry(0, Nil))
  {
    hide ReadBits, ReadSpan, SkipTo, FieldNumber, ParseAction;
    var i, key: nat, value := from, 0, Nil;
    while i < post
      invariant i <= |data| || i == from
      invariant ParseEntry(tc, data, i, post, Entry(key, value)) == ParseEntry(tc, data, from, post, Entry(0, Nil))
      decreases |data| - i
    {
      var t :- DecodeVarint(data, i, 0, TWO64);
      var f := FieldNumber(t.value);
      if f == 1 {
        var n :- DecodeVarint(data, t.next, key, TWO32);
        i, key := n.next, n.value;
      } else if f == 2 {
        var s :- DecodeSpan(data, t.next);
        var a :- UnmarshalAction(tc, data[s.from..s.to]);
        i, value := s.to, To(a);
      } else {
        i :- PassUnknown(data, i, post);
      }
    }
    return Ok(Entry(key, value));
  }

  /** ClaimRecord.Unmarshal into a record that holds `was`. */
  method Unmarshal(tc: TimeCodec, data: seq<Byte>, was: Record) returns (res: Outcome<Record>)
    ensures res == ParseRecord(tc, data, 0, was)
  {
    hide ReadBits, ReadSpan, SkipTo, FieldNumber, ParseEntry;
    var i: nat, r := 0, was;
    while i < |data|
      invariant i <= |data| && ParseRecord(tc, data, i, r) == ParseRecord(tc, data, 0, was)
    {
      var t :- DecodeVarint(data, i, 0, TWO64);
      var f, w := FieldNumber(t.value), t.value % 8;
      if w == 4 { return Err(EndGroup); }
      if f <= 0 { return Err(IllegalTag); }
      if f <= 3 {
        if w != 2 { return Err(WrongWireType); }
        var s :- DecodeSpan(data, t.next);
        if f == 1 {
          r := r.(chainId := data[s.from..s.to]);
        } else if f == 2 {
          r := r.(address := data[s.from..s.to]);
        } else {
          var e :- UnmarshalEntry(tc, data, s.from, s.to);
          r := WithEntry(r, e);
        }
        i := s.to;
      } else if f <= 5 {
        if w != 0 { return Err(WrongWireType); }
        var n :- DecodeVarint(data, t.next, 0, TWO64);
        if f == 4 {
          r := r.(maxAllocation := n.value);
        } else {
          r := r.(baseValue := n.value);
        }
        i := n.next;
      } else {
        i :- PassUnknown(data, i, |data|);
      }
    }
    return Ok(r);
  }
}
