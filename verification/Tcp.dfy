/** Modbus TCP framing: an MBAP header whose length field counts the unit identifier and the PDU (src/frame/tcp.rs). */
module Tcp {
  import opened Basics
  import opened PduEncoder
  import opened Messages

  const MAX_TCP_ADU := 260
  const HEADER_LEN := 7
  const PREFIX_LEN := 6
  const MAX_LENGTH := 254

  datatype MbapHeader = MbapHeader(transaction: Word, unit: Byte)

  function WrapTcp(header: MbapHeader, pdu: Bytes): Bytes
    requires |pdu| < 0xFFFF
  {
    Be(header.transaction) + (Be(0) + (Be(|pdu| + 1) + ([header.unit] + pdu)))
  }

  /** `adu_len`, with its range check. */
  function AduLen(prefix: Bytes): Result<nat> {
    if |prefix| < PREFIX_LEN then Err(Truncated)
    else
      var length := FromBe(prefix[4], prefix[5]);
      if !(1 <= length <= MAX_LENGTH) then Err(OutOfRange) else Ok(PREFIX_LEN + length)
  }

  /** `split`. */
  function SplitTcp(bytes: Bytes): Result<(MbapHeader, Bytes)> {
    if |bytes| > MAX_TCP_ADU then Err(AduTooLarge)
    else if |bytes| < HEADER_LEN + 1 then Err(Truncated)
    else if FromBe(bytes[2], bytes[3]) != 0 then Err(ProtocolIdentifier(FromBe(bytes[2], bytes[3])))
    else
      var length := FromBe(bytes[4], bytes[5]);
      if !(1 <= length <= MAX_LENGTH) then Err(OutOfRange)
      else if length != |bytes| - HEADER_LEN + 1 then Err(InvalidLength)
      else Ok((MbapHeader(FromBe(bytes[0], bytes[1]), bytes[6]), bytes[HEADER_LEN..]))
  }

  /** `wrap_into`: a placeholder length, patched once the PDU is known; the buffer is restored on failure. */
  method WrapTcpInto(out: OutBuffer, header: MbapHeader, m: Message) returns (r: Result<()>)
    modifies out
    ensures EncodeMessage(m).Ok? ==> 1 <= |EncodeMessage(m).value| <= 253
    ensures Transacted(old(out.data), out.data, r,
                       match EncodeMessage(m)
                       case Ok(pdu) => Ok(WrapTcp(header, pdu))
                       case Err(error) => Err(error))
  {
    hide EncodeMessage;
    hide Be;
    if EncodeMessage(m).Ok? {
      MessageWritten(m);
    }
    var at := |out.data|;
    out.Extend(Be(header.transaction));
    out.Extend(Be(0));
    out.Extend([0, 0]);
    out.Push(header.unit);
    var pduAt := |out.data|;
    var encoded := EncodeMessageInto(out, m);
    if encoded.Err? {
      Restored(old(out.data), Be(header.transaction), Be(0), header.unit);
      out.Truncate(at);
      return encoded;
    }
    var length := |out.data| - pduAt + 1;
    BeShape(header.transaction);
    BeShape(0);
    BeShape(length);
    out.Patch(at + 4, Be(length)[0]);
    out.Patch(at + 5, Be(length)[1]);
    Patched(old(out.data), Be(header.transaction), Be(0), Be(length), header.unit, EncodeMessage(m).value);
    r := Ok(());
  }

  lemma {:induction false} BeShape(w: Word)
    ensures |Be(w)| == 2
  {
  }

  lemma {:induction false} FromOfBe(w: Word)
    ensures |Be(w)| == 2 && FromBe(Be(w)[0], Be(w)[1]) == w
  {
  }

  lemma {:induction false} Restored(before: Bytes, a: Bytes, b: Bytes, unit: Byte)
    ensures (before + a + b + [0, 0] + [unit])[..|before|] == before
  {
  }

  lemma {:induction false} Patched(before: Bytes, a: Bytes, b: Bytes, length: Bytes, unit: Byte, pdu: Bytes)
    requires |a| == |b| == |length| == 2
    ensures var placeholder := before + a + b + [0, 0] + [unit] + pdu;
            var n := |before|;
            placeholder[n + 4 := length[0]][n + 5 := length[1]] == before + (a + (b + (length + ([unit] + pdu))))
  {
  }

  /** A wrapped PDU splits into the header and PDU that were wrapped, and its first six bytes tell its length. */
  lemma {:induction false} SplitWrappedTcp(header: MbapHeader, pdu: Bytes)
    requires 1 <= |pdu| <= 253
    ensures SplitTcp(WrapTcp(header, pdu)) == Ok((header, pdu))
    ensures AduLen(WrapTcp(header, pdu)) == Ok(|WrapTcp(header, pdu)|)
    ensures |WrapTcp(header, pdu)| == |pdu| + 7
  {
    hide Be;
    hide FromBe;
    var bytes := WrapTcp(header, pdu);
    FromOfBe(header.transaction);
    FromOfBe(0);
    FromOfBe(|pdu| + 1);
    assert bytes[2] == Be(0)[0] && bytes[3] == Be(0)[1];
    assert bytes[4] == Be(|pdu| + 1)[0] && bytes[5] == Be(|pdu| + 1)[1];
    assert bytes[HEADER_LEN..] == pdu;
  }

  /** Whatever splits is the wrapping of the parts. */
  lemma {:induction false} WrapSplitTcp(bytes: Bytes)
    requires SplitTcp(bytes).Ok?
    ensures 1 <= |SplitTcp(bytes).value.1| <= 253
    ensures bytes == WrapTcp(SplitTcp(bytes).value.0, SplitTcp(bytes).value.1)
  {
    hide Be;
    hide FromBe;
    var transaction, protocol, length := FromBe(bytes[0], bytes[1]), FromBe(bytes[2], bytes[3]), FromBe(bytes[4], bytes[5]);
    var pdu := bytes[HEADER_LEN..];
    assert protocol == 0 && length == |pdu| + 1;
    assert bytes == Be(transaction) + (Be(protocol) + (Be(length) + ([bytes[6]] + pdu))) by {
      BeOfFrom(bytes[0], bytes[1]);
      BeOfFrom(bytes[2], bytes[3]);
      BeOfFrom(bytes[4], bytes[5]);
      Apart(bytes);
    }
  }

  lemma {:induction false} Apart(bytes: Bytes)
    requires 7 <= |bytes|
    ensures bytes == [bytes[0], bytes[1]]
                     + ([bytes[2], bytes[3]] + ([bytes[4], bytes[5]] + ([bytes[6]] + bytes[HEADER_LEN..])))
  {
    assert bytes[4..] == [bytes[4], bytes[5]] + ([bytes[6]] + bytes[HEADER_LEN..]);
    assert bytes[2..] == [bytes[2], bytes[3]] + bytes[4..];
  }
}
