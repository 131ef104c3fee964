/** RTU framing: an address, the PDU and a CRC, low byte first (src/frame/rtu.rs). */
module Rtu {
  import opened Basics
  import opened Bits
  import opened Crc
  import opened CrcDetection
  import opened CrcPairs
  import opened PduEncoder
  import opened Messages

  const MAX_RTU_ADU := 256

  /** `u16::to_le_bytes`. */
  function Le(w: Word): Bytes {
    [w % 0x100, w / 0x100]
  }

  /** The two checksum bytes as they follow the body. */
  function Trailer(body: Bytes): Bytes {
    Le(Crc16(body))
  }

  function WrapRtu(address: Byte, pdu: Bytes): Bytes {
    var body := [address] + pdu;
    body + Trailer(body)
  }

  /** `split`. */
  function SplitRtu(bytes: Bytes): Result<(Byte, Bytes)> {
    if |bytes| > MAX_RTU_ADU then Err(AduTooLarge)
    else if |bytes| < 4 then Err(Truncated)
    else
      var n := |bytes| - 2;
      if Crc16(bytes[..n]) != FromBe(bytes[n + 1], bytes[n]) then Err(Checksum)
      else Ok((bytes[0], bytes[1..n]))
  }

  /** `wrap_into`: append the whole ADU, or restore the buffer. */
  method WrapRtuInto(out: OutBuffer, address: Byte, m: Message) returns (r: Result<()>)
    modifies out
    ensures Transacted(old(out.data), out.data, r,
                       match EncodeMessage(m)
                       case Ok(pdu) => Ok(WrapRtu(address, pdu))
                       case Err(error) => Err(error))
  {
    hide EncodeMessage;
    hide Trailer;
    var at := |out.data|;
    out.Push(address);
    var encoded := EncodeMessageInto(out, m);
    if encoded.Err? {
      out.Truncate(at);
      return encoded;
    }
    ghost var pdu := EncodeMessage(m).value;
    assert out.data[at..] == [address] + pdu;
    Assoc(old(out.data), [address], pdu);
    Assoc(old(out.data), [address] + pdu, Trailer(out.data[at..]));
    out.Extend(Trailer(out.data[at..]));
    r := Ok(());
  }

  lemma {:induction false} LeMatches(w: Word, lo: Byte, hi: Byte)
    ensures w == FromBe(hi, lo) <==> Le(w) == [lo, hi]
    ensures |Le(w)| == 2
  {
  }

  /** A wrapped PDU splits into the address and PDU that were wrapped. */
  lemma {:induction false} SplitWrappedRtu(address: Byte, pdu: Bytes)
    requires 1 <= |pdu| <= 253
    ensures SplitRtu(WrapRtu(address, pdu)) == Ok((address, pdu))
  {
    hide Crc16;
    hide Le;
    var bytes, body := WrapRtu(address, pdu), [address] + pdu;
    var trailer := Le(Crc16(body));
    LeMatches(Crc16(body), 0, 0);
    LeMatches(Crc16(body), trailer[0], trailer[1]);
    var n := |bytes| - 2;
    assert bytes[..n] == body && bytes[1..n] == pdu;
    assert trailer == [trailer[0], trailer[1]] && bytes[n] == trailer[0] && bytes[n + 1] == trailer[1];
  }

  /** Whatever splits is the wrapping of the parts. */
  lemma {:induction false} WrapSplitRtu(bytes: Bytes)
    requires SplitRtu(bytes).Ok?
    ensures var (address, pdu) := SplitRtu(bytes).value; bytes == WrapRtu(address, pdu) && 1 <= |pdu| <= 253
  {
    hide Crc16;
    hide Le;
    var n := |bytes| - 2;
    LeMatches(Crc16(bytes[..n]), bytes[n], bytes[n + 1]);
    assert bytes[..n] == [bytes[0]] + bytes[1..n];
    assert bytes == bytes[..n] + [bytes[n], bytes[n + 1]];
  }

  /** Splitting accepts exactly the frames of legal size that leave the CRC register empty. */
  lemma {:induction false} SplitIffIntact(bytes: Bytes)
    ensures SplitRtu(bytes).Ok? <==> 4 <= |bytes| <= 256 && Intact(bytes)
  {
    hide Crc16;
    hide Intact;
    hide FromBe;
    if 4 <= |bytes| <= 256 {
      IntactIff(bytes);
    }
  }

  lemma {:induction false} IntactIff(bytes: Bytes)
    requires 2 <= |bytes|
    ensures var n := |bytes| - 2; Intact(bytes) <==> Crc16(bytes[..n]) == FromBe(bytes[n + 1], bytes[n])
  {
    hide Crc16;
    hide Feed;
    hide FromBe;
    hide AllBits;
    var n := |bytes| - 2;
    assert bytes == bytes[..n] + [bytes[n], bytes[n + 1]];
    ChecksumResidue(bytes[..n], bytes[n], bytes[n + 1]);
  }

  /** A frame of legal size whose difference from an accepted one is visible to the CRC is refused for its checksum. */
  lemma {:induction false} VisibleRejected(sent: Bytes, received: Bytes)
    requires SplitRtu(sent).Ok? && |received| == |sent|
    requires Feed(ZERO, Altered(sent, received)) != ZERO
    ensures SplitRtu(received) == Err(Checksum)
  {
    hide Crc16;
    hide Feed;
    hide Altered;
    hide Intact;
    SplitIffIntact(sent);
    SplitIffIntact(received);
    IntactTogether(sent, received);
  }

  /** Any change confined to sixteen consecutive bits, at any bit offset, is refused. */
  lemma {:induction false} BurstRejected(sent: Bytes, received: Bytes, at: nat)
    requires SplitRtu(sent).Ok? && |received| == |sent| && received != sent
    requires at + 16 <= 8 * |sent|
    requires AllClear(Altered(sent, received)[..at]) && AllClear(Altered(sent, received)[at + 16..])
    ensures SplitRtu(received) == Err(Checksum)
  {
    AlteredSomewhere(sent, received);
    BurstVisible(Altered(sent, received), at);
    VisibleRejected(sent, received);
  }

  /** Any change of an odd number of bits, wherever they are, is refused. */
  lemma {:induction false} OddChangeRejected(sent: Bytes, received: Bytes)
    requires SplitRtu(sent).Ok? && |received| == |sent|
    requires OnesIn(Altered(sent, received)) % 2 == 1
    ensures SplitRtu(received) == Err(Checksum)
  {
    OddVisible(Altered(sent, received));
    VisibleRejected(sent, received);
  }

  /** Any change of one, two or three bits, wherever they are, is refused. */
  lemma {:induction false} FewBitsRejected(sent: Bytes, received: Bytes)
    requires SplitRtu(sent).Ok? && |received| == |sent|
    requires 1 <= OnesIn(Altered(sent, received)) <= 3
    ensures SplitRtu(received) == Err(Checksum)
  {
    hide OnesIn;
    hide Altered;
    hide Feed;
    hide Crc16;
    if OnesIn(Altered(sent, received)) == 2 {
      TwoVisible(Altered(sent, received));
      VisibleRejected(sent, received);
    } else {
      OddChangeRejected(sent, received);
    }
  }

  lemma {:induction false} SameAroundClear(pre: Bytes, a: Bytes, b: Bytes, post: Bytes)
    requires |a| == |b|
    ensures var e := Altered(pre + (a + post), pre + (b + post));
            AllClear(e[..8 * |pre|]) && AllClear(e[8 * |pre| + 8 * |a|..])
  {
    hide AllBits;
    AllBitsConcat(pre, a + post);
    AllBitsConcat(a, post);
    AllBitsConcat(pre, b + post);
    AllBitsConcat(b, post);
    AroundClear(AllBits(pre), AllBits(a), AllBits(b), AllBits(post));
  }

  lemma {:induction false} AroundClear(pre: seq<bool>, a: seq<bool>, b: seq<bool>, post: seq<bool>)
    requires |a| == |b|
    ensures var e := Differences(pre + (a + post), pre + (b + post));
            AllClear(e[..|pre|]) && AllClear(e[|pre| + |a|..])
  {
    var x, y := pre + (a + post), pre + (b + post);
    var e, n, m := Differences(x, y), |pre|, |pre| + |a|;
    assert x[m..] == post == y[m..];
    forall i | 0 <= i < |e| - m
      ensures !e[m..][i]
    {
      assert x[m + i] == x[m..][i] && y[m + i] == y[m..][i];
    }
  }

  /** Any change confined to two adjacent bytes, also across the border of body and checksum, is refused. */
  lemma {:induction false} AdjacentBytesRejected(sent: Bytes, received: Bytes, k: nat)
    requires SplitRtu(sent).Ok? && |received| == |sent| && received != sent
    requires k + 2 <= |sent|
    requires sent[..k] == received[..k] && sent[k + 2..] == received[k + 2..]
    ensures SplitRtu(received) == Err(Checksum)
  {
    hide Altered;
    hide AllBits;
    hide SplitRtu;
    assert sent == sent[..k] + (sent[k..k + 2] + sent[k + 2..]);
    assert received == sent[..k] + (received[k..k + 2] + sent[k + 2..]);
    SameAroundClear(sent[..k], sent[k..k + 2], received[k..k + 2], sent[k + 2..]);
    BurstRejected(sent, received, 8 * k);
  }
}
