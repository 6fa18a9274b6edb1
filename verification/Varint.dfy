/**
 Base 128 varints as in x/airdrop/types/airdrop.pb.go (see "Base 128 Varints" in the
 Protocol Buffers encoding specification).
 */
module Varint {
  import opened Words

  type Byte = n: nat | n < 256

  // ----- Size -----

  /** math/bits.Len64: the number of bits of x. */
  function BitLen(x: nat): nat { if x == 0 then 0 else 1 + BitLen(x / 2) }

  function OrOne(x: nat): nat { if x % 2 == 0 then x + 1 else x }

  /** The number of bytes sovAirdrop predicts for a varint. */
  function Sov(x: nat): nat { (BitLen(OrOne(x)) + 6) / 7 }

  /** The varint of v: seven bits a byte, low bits first, the high bit set on all but the last. */
  function VarintBytes(v: nat): (bs: seq<Byte>)
    ensures |bs| > 0
  {
    if v < 128 then [v] else [v % 128 + 128] + VarintBytes(v / 128)
  }

  lemma {:induction false} BitLenMonotone(x: nat, y: nat)
    requires x <= y
    ensures BitLen(x) <= BitLen(y)
  {
    if x == 0 {
    } else {
      BitLenMonotone(x / 2, y / 2);
    }
  }

  lemma BitLenSeven(x: nat)
    requires x >= 128
    ensures BitLen(x) == 7 + BitLen(x / 128)
  {
    var a, b, c := x / 2, x / 4, x / 8;
    var d, e, f := x / 16, x / 32, x / 64;
    assert a / 2 == b && b / 2 == c && c / 2 == d && d / 2 == e && e / 2 == f && f / 2 == x / 128;
    assert BitLen(x) == 1 + BitLen(a) && BitLen(a) == 1 + BitLen(b) && BitLen(b) == 1 + BitLen(c);
    assert BitLen(c) == 1 + BitLen(d) && BitLen(d) == 1 + BitLen(e) && BitLen(e) == 1 + BitLen(f);
  }

  lemma BitLenSmall(x: nat)
    requires 0 < x < 128
    ensures 1 <= BitLen(x) <= 7
  {
    BitLenMonotone(x, 127);
    assert BitLen(127) == 7;
  }

  lemma BitLenOrOne(x: nat)
    requires x > 0
    ensures BitLen(OrOne(x)) == BitLen(x)
  {
    assert OrOne(x) / 2 == x / 2;
  }

  /** A varint takes exactly the predicted number of bytes. */
  lemma {:induction false} SovIsLength(v: nat)
    ensures |VarintBytes(v)| == Sov(v)
  {
    if v < 128 {
      BitLenSmall(OrOne(v));
    } else {
      SovIsLength(v / 128);
      BitLenOrOne(v);
      BitLenOrOne(v / 128);
      BitLenSeven(v);
    }
  }

  // ----- Bits -----

  function Pow2(k: nat): (p: nat)
    ensures p > 0
  {
    if k == 0 then 1 else 2 * Pow2(k - 1)
  }

  /** Bitwise or of natural numbers. */
  function BitOr(a: nat, b: nat): nat
    decreases a + b
  {
    if a == 0 && b == 0 then 0
    else (if a % 2 == 1 || b % 2 == 1 then 1 else 0) + 2 * BitOr(a / 2, b / 2)
  }

  lemma {:induction false} OrZero(b: nat)
    ensures BitOr(0, b) == b
  {
    if b == 0 {
    } else {
      OrZero(b / 2);
    }
  }

  lemma {:induction false} OrZeroRight(a: nat)
    ensures BitOr(a, 0) == a
  {
    if a == 0 {
    } else {
      OrZeroRight(a / 2);
    }
  }

  /** Numbers without a common bit are added by a bitwise or. */
  lemma {:induction false} OrDisjoint(a: nat, c: nat, k: nat)
    requires a < Pow2(k)
    ensures BitOr(a, c * Pow2(k)) == a + c * Pow2(k)
  {
    var b := c * Pow2(k);
    if k == 0 {
      OrZero(b);
    } else {
      var h := c * Pow2(k - 1);
      assert b == 2 * h;
      OrDisjoint(a / 2, c, k - 1);
    }
  }

  lemma {:induction false} PowAdd(j: nat, k: nat)
    ensures Pow2(j + k) == Pow2(j) * Pow2(k)
  {
    if j == 0 {
    } else {
      var a, b, s := Pow2(j - 1), Pow2(k), j - 1 + k;
      PowAdd(j - 1, k);
      assert Pow2(s + 1) == 2 * Pow2(s);
      Assoc(2, a, b);
    }
  }

  // ----- Reading -----

  datatype Fault =
    | Overflow | Eof | InvalidLength | EndGroup | IllegalTag | WrongWireType
    | IllegalWireType | UnexpectedEndOfGroup | BadTime

  datatype Outcome<+T> = Ok(value: T) | Err(fault: Fault) {
    predicate IsFailure() { Err? }

    function PropagateFailure<U>(): Outcome<U>
      requires Err?
    {
      Err(fault)
    }

    function Extract(): T
      requires Ok?
    {
      value
    }
  }

  datatype Reading = Reading(value: nat, next: nat)

  /** One byte's seven bits at their place, in an accumulator that holds the numbers below m. */
  function Placed(b: Byte, shift: nat, m: nat): nat
    requires m > 0
  {
    Low(Up(b % 128, shift), m)
  }

  /** c << shift, on an unbounded number. */
  function Up(c: nat, shift: nat): nat { c * Pow2(shift) }

  /** What an accumulator that holds the numbers below m keeps of x. */
  function Low(x: nat, m: nat): (r: nat)
    requires m > 0
    ensures r < m
  {
    x % m
  }

  /** The varint loop of the generated decoders, from byte i on, with `acc` gathered below bit `shift`. */
  function ReadBits(data: seq<Byte>, i: nat, shift: nat, acc: nat, m: nat): (r: Outcome<Reading>)
    requires m > 0
    ensures r.Ok? ==> i < r.value.next <= |data|
    decreases |data| - i
  {
    if shift >= 64 then Err(Overflow)
    else if i >= |data| then Err(Eof)
    else
      var sum := BitOr(acc, Placed(data[i], shift, m));
      if data[i] < 128 then Ok(Reading(sum, i + 1))
      else ReadBits(data, i + 1, shift + 7, sum, m)
  }

  function ReadVarint(data: seq<Byte>, i: nat): (r: Outcome<Reading>)
    ensures r.Ok? ==> i < r.value.next <= |data|
  {
    ReadBits(data, i, 0, 0, TWO64)
  }

  /** `part` stands in `data` at i. */
  predicate At(data: seq<Byte>, i: nat, part: seq<Byte>)
  {
    i + |part| <= |data| && data[i..i + |part|] == part
  }

  lemma PowMonotone(j: nat, k: nat)
    requires j <= k
    ensures Pow2(j) <= Pow2(k)
  {
    PowAdd(j, k - j);
    MulAtLeast(Pow2(k - j), Pow2(j));
  }

  lemma MulAtLeast(a: nat, b: nat)
    requires a >= 1
    ensures b <= a * b
  {
  }

  lemma SevenBits(shift: nat)
    ensures Pow2(shift + 7) == 128 * Pow2(shift)
  {
    PowAdd(7, shift);
    assert Pow2(7) == 128;
  }

  /** A multiple of p, reduced by a multiple of p, is a multiple of p. */
  lemma ModOfMultiple(c: nat, p: nat, q: nat)
    requires p > 0 && q > 0
    ensures (c * p) % (q * p) == (c % q) * p
  {
    var k, r := c / q, c % q;
    calc {
      c * p;
      (k * q + r) * p;
      k * (q * p) + r * p;
    }
    assert 0 <= r * p < q * p by { MulLess(r, q, p); }
    ModUnique(c * p, q * p, k, r * p);
  }

  lemma MulLess(r: nat, q: nat, p: nat)
    requires r < q && p > 0
    ensures r * p < q * p && r * p + p <= q * p
  {
    var d := q - r;
    assert q * p == r * p + d * p;
    MulAtLeast(d, p);
  }

  lemma ModUnique(x: int, m: int, k: int, r: int)
    requires m > 0 && x == k * m + r && 0 <= r < m
    ensures x % m == r
  {
    var d := x / m - k;
    assert d * m == (x / m) * m - k * m;
    assert x == (x / m) * m + x % m;
    assert d * m == r - x % m;
    assert (-d) * m == -(d * m);
    if d >= 1 { MulAtLeast(d, m); }
    if d <= -1 { MulAtLeast(-d, m); }
  }

  lemma SumModMultiple(acc: nat, c: nat, p: nat, q: nat)
    requires acc < p && q > 0 && c < 128
    ensures (acc + c * p) % (q * p) == acc + (c % q) * p < 128 * p
  {
    var k, r := c / q, c % q;
    ModAtMost(c, q);
    MulLess(r, 128, p);
    MulLess(r, q, p);
    SplitMul(k, q, r, p);
    ModUnique(acc + c * p, q * p, k, acc + r * p);
  }

  lemma SumModAbove(acc: nat, c: nat, q: nat, m: nat)
    requires acc < m
    ensures (acc + c * (q * m)) % m == acc && (c * (q * m)) % m == 0
  {
    Assoc(c, q, m);
    ModUnique(c * (q * m), m, c * q, 0);
    ModUnique(acc + c * (q * m), m, c * q, acc);
  }

  lemma PowSplit(w: nat, shift: nat)
    requires shift <= w
    ensures Pow2(w) == Pow2(w - shift) * Pow2(shift)
  {
    PowAdd(w - shift, shift);
  }

  lemma PlacedInside(acc: nat, b: Byte, shift: nat, w: nat)
    requires acc < Pow2(shift) && shift <= w
    ensures BitOr(acc, Placed(b, shift, Pow2(w))) == Low(acc + Up(b % 128, shift), Pow2(w)) < 128 * Pow2(shift)
  {
    hide BitOr, Pow2;
    var c: nat, p, q := b % 128, Pow2(shift), Pow2(w - shift);
    PowSplit(w, shift);
    ModOfMultiple(c, p, q);
    OrDisjoint(acc, c % q, shift);
    SumModMultiple(acc, c, p, q);
  }

  lemma PlacedOutside(acc: nat, b: Byte, shift: nat, w: nat)
    requires acc < Pow2(w) && w <= shift
    ensures BitOr(acc, Placed(b, shift, Pow2(w))) == Low(acc + Up(b % 128, shift), Pow2(w)) == acc
  {
    hide BitOr, Pow2;
    PowSplit(shift, w);
    SumModAbove(acc, b % 128, Pow2(shift - w), Pow2(w));
    OrZeroRight(acc);
  }

  /** Placing seven bits above an accumulator adds them, as far as its width goes. */
  lemma PlacedAdds(acc: nat, b: Byte, shift: nat, w: nat)
    requires acc < Pow2(shift) && acc < Pow2(w)
    ensures BitOr(acc, Placed(b, shift, Pow2(w))) == Low(acc + Up(b % 128, shift), Pow2(w))
    ensures BitOr(acc, Placed(b, shift, Pow2(w))) < Pow2(shift + 7)
  {
    hide BitOr, Pow2, Placed, Up, Low;
    SevenBits(shift);
    if shift <= w {
      PlacedInside(acc, b, shift, w);
    } else {
      PlacedOutside(acc, b, shift, w);
    }
  }

  lemma ModAtMost(c: nat, q: nat)
    requires q > 0
    ensures c % q <= c
  {
    if c < q { ModUnique(c, q, 0, c); }
  }

  lemma Assoc(a: int, b: int, c: int)
    ensures a * (b * c) == (a * b) * c
  {
  }

  lemma SplitMul(k: int, q: int, r: int, p: int)
    ensures (k * q + r) * p == k * (q * p) + r * p
  {
    Assoc(k, q, p);
  }

  lemma LowAdd(a: nat, b: nat, m: nat)
    requires m > 0
    ensures Low(Low(a, m) + b, m) == Low(a + b, m)
  {
    var t := a % m + b;
    var j, k := a / m, t / m;
    assert a == j * m + a % m && t == k * m + t % m;
    assert (j + k) * m == j * m + k * m;
    ModUnique(a + b, m, j + k, t % m);
  }

  lemma PowDouble(k: nat)
    ensures Pow2(k + k) == Pow2(k) * Pow2(k)
  {
    PowAdd(k, k);
  }

  lemma Widths() returns (w32: nat, w64: nat)
    ensures w32 == 32 && Pow2(w32) == TWO32 && w64 == 64 && Pow2(w64) == TWO64
  {
    var w8: nat := 8;
    assert Pow2(w8) == 256;
    var w16 := w8 + w8;
    PowDouble(w8);
    assert Pow2(w16) == 65536;
    w32 := w16 + w16;
    PowDouble(w16);
    w64 := w32 + w32;
    PowDouble(w32);
  }

  lemma ShiftBelowTop(s: nat)
    requires Pow2(s) < TWO64
    ensures s < 64
  {
    var _, w := Widths();
    if s >= w { PowMonotone(w, s); }
  }

  lemma UpSplit(v: nat, shift: nat)
    ensures Up(v, shift) == Up(v % 128, shift) + Up(v / 128, shift + 7)
    ensures v >= 128 ==> Pow2(shift + 7) <= Up(v / 128, shift + 7)
  {
    hide Pow2;
    var p, h, r := Pow2(shift), v / 128, v % 128;
    SevenBits(shift);
    SplitMul(h, 128, r, p);
    assert v == h * 128 + r;
    if v >= 128 { MulAtLeast(h, 128 * p); }
  }

  lemma RoomForMore(v: nat, shift: nat)
    requires v >= 128 && Up(v, shift) < TWO64
    ensures shift + 7 < 64 && Up(v / 128, shift + 7) < TWO64
  {
    hide Up, Pow2;
    UpSplit(v, shift);
    ShiftBelowTop(shift + 7);
  }

  lemma Behind(data: seq<Byte>, i: nat, a: seq<Byte>, b: seq<Byte>)
    requires At(data, i, a + b)
    ensures At(data, i, a) && At(data, i + |a|, b)
  {
    var j, k := i + |a|, i + |a| + |b|;
    assert data[i..k] == a + b;
    assert data[i..j] == data[i..k][..|a|] == a;
    assert data[j..k] == data[i..k][|a|..] == b;
  }

  lemma FirstByte(data: seq<Byte>, i: nat, part: seq<Byte>)
    requires At(data, i, part) && |part| > 0
    ensures data[i] == part[0]
  {
    assert data[i..i + |part|][0] == data[i];
  }

  /** The varint loop reads what VarintBytes wrote, into an accumulator of w bits. */
  lemma {:induction false} ReadBitsLaw(data: seq<Byte>, i: nat, shift: nat, acc: nat, v: nat, w: nat)
    requires At(data, i, VarintBytes(v)) && shift < 64 && Up(v, shift) < TWO64
    requires acc < Pow2(shift) && acc < Pow2(w)
    ensures ReadBits(data, i, shift, acc, Pow2(w))
         == Ok(Reading(Low(acc + Up(v, shift), Pow2(w)), i + |VarintBytes(v)|))
    decreases v
  {
    hide BitOr, Placed, Pow2, Up, Low;
    FirstByte(data, i, VarintBytes(v));
    PlacedAdds(acc, data[i], shift, w);
    if v >= 128 {
      ReadMore(data, i, shift, acc, v, w);
    }
  }

  lemma ReadStep(data: seq<Byte>, i: nat, shift: nat, acc: nat, m: nat)
    requires i < |data| && data[i] >= 128 && shift < 64 && m > 0
    ensures ReadBits(data, i, shift, acc, m)
         == ReadBits(data, i + 1, shift + 7, BitOr(acc, Placed(data[i], shift, m)), m)
  {
  }

  lemma TotalStep(acc: nat, b: Byte, v: nat, shift: nat, w: nat)
    requires v >= 128 && b == v % 128 + 128 && acc < Pow2(shift) && acc < Pow2(w) && Up(v, shift) < TWO64
    ensures var sum := BitOr(acc, Placed(b, shift, Pow2(w)));
            && sum < Pow2(shift + 7) && sum < Pow2(w)
            && Low(sum + Up(v / 128, shift + 7), Pow2(w)) == Low(acc + Up(v, shift), Pow2(w))
  {
    hide BitOr, Placed, Pow2, Up, Low;
    PlacedAdds(acc, b, shift, w);
    assert b % 128 == v % 128;
    UpSplit(v, shift);
    LowAdd(acc + Up(v % 128, shift), Up(v / 128, shift + 7), Pow2(w));
  }

  lemma {:induction false} ReadMore(data: seq<Byte>, i: nat, shift: nat, acc: nat, v: nat, w: nat)
    requires At(data, i, VarintBytes(v)) && v >= 128 && shift < 64 && Up(v, shift) < TWO64
    requires acc < Pow2(shift) && acc < Pow2(w)
    ensures ReadBits(data, i, shift, acc, Pow2(w))
         == Ok(Reading(Low(acc + Up(v, shift), Pow2(w)), i + |VarintBytes(v)|))
    decreases v, 0
  {
    hide BitOr, Placed, Pow2, ReadBits, Up, Low;
    var b: Byte, h := v % 128 + 128, v / 128;
    FirstByte(data, i, VarintBytes(v));
    Behind(data, i, [b], VarintBytes(h));
    ReadStep(data, i, shift, acc, Pow2(w));
    TotalStep(acc, b, v, shift, w);
    RoomForMore(v, shift);
    ReadBitsLaw(data, i + 1, shift + 7, BitOr(acc, Placed(b, shift, Pow2(w))), h, w);
  }

  lemma ReadWhole(data: seq<Byte>, i: nat, v: nat, w: nat, m: nat)
    requires v < TWO64 && At(data, i, VarintBytes(v)) && m == Pow2(w)
    ensures ReadBits(data, i, 0, 0, m) == Ok(Reading(v % m, i + |VarintBytes(v)|))
  {
    var zero: nat := 0;
    ReadBitsLaw(data, i, zero, zero, v, w);
  }

  /** A 64-bit varint decodes to the value it was made from. */
  lemma ReadVarintLaw(data: seq<Byte>, i: nat, v: nat)
    requires v < TWO64 && At(data, i, VarintBytes(v))
    ensures ReadVarint(data, i) == Ok(Reading(v, i + |VarintBytes(v)|))
  {
    ReadVarint64(data, i, v);
  }

  lemma ReadVarint64(data: seq<Byte>, i: nat, v: nat)
    requires v < TWO64 && At(data, i, VarintBytes(v))
    ensures ReadBits(data, i, 0, 0, TWO64) == Ok(Reading(v, i + |VarintBytes(v)|))
  {
    hide ReadBits, Pow2, VarintBytes, At;
    var _, w := Widths();
    ReadWhole(data, i, v, w, TWO64);
  }

  /** A 32-bit accumulator keeps the low bits. */
  lemma ReadVarint32(data: seq<Byte>, i: nat, v: nat)
    requires v < TWO64 && At(data, i, VarintBytes(v))
    ensures ReadBits(data, i, 0, 0, TWO32) == Ok(Reading(v % TWO32, i + |VarintBytes(v)|))
  {
    hide ReadBits, Pow2, VarintBytes, At;
    var w, _ := Widths();
    ReadWhole(data, i, v, w, Pow2(w));
  }

  lemma {:induction false} OrBelow(a: nat, b: nat, k: nat)
    requires a < Pow2(k) && b < Pow2(k)
    ensures BitOr(a, b) < Pow2(k)
  {
    if k == 0 {
    } else {
      OrBelow(a / 2, b / 2, k - 1);
    }
  }

  lemma {:induction false} ReadBitsBelow(data: seq<Byte>, i: nat, shift: nat, acc: nat, w: nat)
    requires acc < Pow2(w)
    ensures var r := ReadBits(data, i, shift, acc, Pow2(w)); r.Ok? ==> r.value.value < Pow2(w)
    decreases |data| - i
  {
    if shift < 64 && i < |data| {
      var x := Placed(data[i], shift, Pow2(w));
      OrBelow(acc, x, w);
      ReadBitsBelow(data, i + 1, shift + 7, BitOr(acc, x), w);
    }
  }

  /** Whatever the bytes are, an accumulator never leaves its width. */
  lemma ReadsFit(data: seq<Byte>, i: nat, acc: nat)
    ensures var r := ReadVarint(data, i); r.Ok? ==> r.value.value < TWO64
    ensures var r := ReadBits(data, i, 0, acc, TWO32); acc < TWO32 && r.Ok? ==> r.value.value < TWO32
  {
    hide ReadBits;
    var w32, w64 := Widths();
    ReadBitsBelow(data, i, 0, 0, w64);
    if acc < TWO32 { ReadBitsBelow(data, i, 0, acc, w32); }
  }

  // ----- Writing -----

  /** What a buffer holds after `part` was written at `base`. */
  function Written(was: seq<Byte>, base: nat, part: seq<Byte>): (now: seq<Byte>)
    requires base + |part| <= |was|
    ensures |now| == |was|
  {
    was[..base] + part + was[base + |part|..]
  }

  /** Writing b and then a just below it is writing a + b. */
  lemma WrittenBelow(was: seq<Byte>, base: nat, a: seq<Byte>, b: seq<Byte>)
    requires base + |a| + |b| <= |was|
    ensures Written(Written(was, base + |a|, b), base, a) == Written(was, base, a + b)
  {
  }

  /** encodeVarintAirdrop: writes the varint of v just below `offset`. */
  method EncodeVarint(buf: array<Byte>, offset: nat, v: nat) returns (base: nat)
    requires Sov(v) <= offset <= buf.Length
    modifies buf
    ensures base + |VarintBytes(v)| == offset && |VarintBytes(v)| == Sov(v)
    ensures buf[..] == Written(old(buf[..]), base, VarintBytes(v))
  {
    hide Sov, Written, VarintBytes;
    SovIsLength(v);
    base := offset - Sov(v);
    var k, x := base, v;
    ghost var was := buf[..];
    ghost var done: seq<Byte> := [];
    WrittenEnd(was, base, done);
    while x >= 128
      invariant base <= k == base + |done| && k + |VarintBytes(x)| == offset
      invariant done + VarintBytes(x) == VarintBytes(v)
      invariant buf[..] == Written(was, base, done)
      decreases x
    {
      NextByte(done, x);
      buf[k] := x % 128 + 128;
      done := done + [x % 128 + 128];
      WrittenEnd(was, base, done);
      k, x := k + 1, x / 128;
    }
    NextByte(done, x);
    buf[k] := x;
    WrittenEnd(was, base, done + [x]);
  }

  lemma NextByte(done: seq<Byte>, x: nat)
    ensures x >= 128 ==> var b: Byte := x % 128 + 128;
                         && |VarintBytes(x)| == 1 + |VarintBytes(x / 128)|
                         && done + [b] + VarintBytes(x / 128) == done + VarintBytes(x)
    ensures x < 128 ==> VarintBytes(x) == [x]
  {
  }

  /** Writing nothing leaves the buffer; writing one more byte sets it behind what was written. */
  lemma WrittenEnd(was: seq<Byte>, base: nat, part: seq<Byte>)
    requires base + |part| <= |was|
    ensures part == [] ==> Written(was, base, part) == was
    ensures part != [] ==>
              var n := |part| - 1;
              Written(was, base, part) == Written(was, base, part[..n])[base + n := part[n]]
  {
  }

  /** The shift loop as every decoder repeats it. */
  method DecodeVarint(data: seq<Byte>, from: nat, start: nat, m: nat) returns (r: Outcome<Reading>)
    requires m > 0
    ensures r == ReadBits(data, from, 0, start, m)
  {
    var shift: nat, i: nat, acc := 0, from, start;
    while true
      invariant ReadBits(data, i, shift, acc, m) == ReadBits(data, from, 0, start, m)
      decreases 64 - shift
    {
      if shift >= 64 { return Err(Overflow); }
      if i >= |data| { return Err(Eof); }
      var b := data[i];
      i := i + 1;
      acc := BitOr(acc, Placed(b, shift, m));
      if b < 128 { return Ok(Reading(acc, i)); }
      shift := shift + 7;
    }
  }
}
