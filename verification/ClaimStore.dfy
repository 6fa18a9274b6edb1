/**
 Claim records in the store: SetClaimRecord and GetClaimRecord of x/airdrop/keeper/claim_record.go
 on top of the wire form.
 */
module ClaimStore {
  import opened Words
  import opened Varint
  import opened Airdrop
  import opened ClaimCodec

  /** A string that Go holds one byte a character. */
  predicate ByteString(s: string) { forall i :: 0 <= i < |s| ==> s[i] as int < 256 }

  function ToBytes(s: string): (bs: seq<Byte>)
    requires ByteString(s)
    ensures |bs| == |s|
  {
    seq(|s|, i requires 0 <= i < |s| => s[i] as int)
  }

  function ToText(bs: seq<Byte>): (s: string)
    ensures |s| == |bs|
  {
    seq(|bs|, i requires 0 <= i < |bs| => bs[i] as char)
  }

  lemma TextBack(s: string)
    requires ByteString(s)
    ensures ToText(ToBytes(s)) == s
  {
  }

  predicate Storable(tc: TimeCodec, cr: ClaimRecord)
  {
    && ByteString(cr.chainId) && ByteString(cr.address) && cr.maxAllocation < TWO64 && cr.baseValue < TWO64
    && forall k :: k in cr.completed ==>
         && -TWO32 <= 2 * k < TWO32
         && cr.completed[k].amount < TWO64 && tc.encode(cr.completed[k].time).Ok?
  }

  /** The message that SetClaimRecord writes. */
  function AsWire(cr: ClaimRecord): Record
    requires ByteString(cr.chainId) && ByteString(cr.address)
  {
    Record(ToBytes(cr.chainId), ToBytes(cr.address), map k | k in cr.completed :: To(cr.completed[k]),
           cr.maxAllocation, cr.baseValue)
  }

  /** The record that claims work on; an entry without a value holds no completed action. */
  function FromWire(r: Record): ClaimRecord
  {
    ClaimRecord(ToText(r.chainId), ToText(r.address),
                map k | k in r.actions && r.actions[k].To? :: r.actions[k].action, r.maxAllocation, r.baseValue)
  }

  lemma WireBack(cr: ClaimRecord)
    requires ByteString(cr.chainId) && ByteString(cr.address)
    ensures FromWire(AsWire(cr)) == cr
  {
    TextBack(cr.chainId);
    TextBack(cr.address);
    assert FromWire(AsWire(cr)).completed == cr.completed;
  }

  /**
   A claim record comes out of the store as it went in, whatever order its completed actions
   were written in, and one with an address is found again.
   */
  lemma StoreRoundTrip(tc: TimeCodec, cr: ClaimRecord, keys: seq<int>)
    requires Lossless(tc) && Storable(tc, cr) && forall k :: k in keys <==> k in cr.completed
    requires RecordSize(tc, AsWire(cr), keys) < TWO63
    ensures var bytes := RecordBytes(tc, AsWire(cr), keys);
            var r := ParseRecord(tc, bytes, 0, EMPTY);
            && r.Ok? && FromWire(r.value) == cr
            && (cr.address != "" ==> bytes != [])
  {
    hide ParseRecord, RecordBytes, RecordSize, FromWire, ToBytes, Lossless;
    RecordRoundTrip(tc, AsWire(cr), keys);
    WireBack(cr);
    if cr.address != "" { AddressIsWritten(tc, AsWire(cr), keys); }
  }

  lemma AddressIsWritten(tc: TimeCodec, r: Record, keys: seq<int>)
    requires KeysOf(r.actions, keys) && r.address != []
    ensures RecordBytes(tc, r, keys) != []
  {
    hide MapSize, Sov;
    SizeIsExact(tc, r, keys);
    assert RecordSize(tc, r, keys) > 0;
  }
}
