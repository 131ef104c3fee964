/** The derived extent is the encoded length, for every PDU that can be encoded. */
module ExtentAgreement {
  import opened Basics
  import opened Bits
  import opened Parsing
  import opened Items
  import opened FileRecords
  import opened Mei
  import opened Pdu
  import opened Messages
  import opened Rtu
  import opened Extent
  import Crc

  /** The requests whose length their first bytes determine: FC 8, custom codes and other MEI types are not among them. */
  predicate DerivableRequest(p: RequestPdu) {
    && !p.Diagnostics?
    && !p.Custom?
    && (p.EncapsulatedInterfaceTransport? ==> p.mei.ReadDeviceIdentification?)
  }

  predicate DerivableResponse(p: ResponsePdu) {
    && !p.Diagnostics?
    && !p.Custom?
    && (p.EncapsulatedInterfaceTransport? ==> p.mei.DeviceIdentification?)
  }

  predicate Derivable(m: Message) {
    match m
    case RequestMessage(p) => DerivableRequest(p)
    case ResponseMessage(p) => DerivableResponse(p)
  }

  /** The bytes hold this PDU behind an address, and at least a trailer after it. */
  ghost predicate Holds(bytes: Bytes, pdu: Bytes) {
    && |pdu| + 3 <= |bytes|
    && forall i :: 0 <= i < |pdu| ==> bytes[1 + i] == pdu[i]
  }

  // ---- Where each layout keeps its length ----

  lemma {:induction false} QuantifiedShape(address: Word, quantity: nat, data: Bytes, max: nat)
    requires max <= 0xFFFF && QuantifiedBytes(address, quantity, data, max).Ok?
    ensures var s := QuantifiedBytes(address, quantity, data, max).value; |s| == 5 + |data| && s[4] == |data|
  {
  }

  lemma {:induction false} ReadWriteShape(readAddress: Word, readQuantity: Word, writeAddress: Word, registers: seq<Word>)
    requires ReadWriteBytes(readAddress, readQuantity, writeAddress, registers).Ok?
    ensures var s := ReadWriteBytes(readAddress, readQuantity, writeAddress, registers).value; 9 <= |s| && s[8] == |s| - 9
  {
    hide QuantifiedBytes;
    hide FromWords;
    QuantifiedShape(writeAddress, |registers|, FromWords(registers), MAX_RW_WRITE_REGISTERS);
  }

  lemma {:induction false} BodyShape<T>(render: T -> Result<Bytes>, items: seq<T>, min: nat, max: nat)
    requires max <= 255 && RenderBody(render, items, min, max).Ok?
    ensures var s := RenderBody(render, items, min, max).value; 1 <= |s| && s[0] == |s| - 1
  {
    hide RenderAll;
  }

  lemma {:induction false} FifoShape(values: seq<Word>)
    requires FifoBytes(values).Ok?
    ensures var s := FifoBytes(values).value; 2 <= |s| && |s| == 2 + FromBe(s[0], s[1])
  {
    hide FromWords;
  }

  lemma {:induction false} EventLogShape(status: Word, eventCount: Word, messageCount: Word, events: Bytes)
    requires EventLogBytes(status, eventCount, messageCount, events).Ok?
    ensures var s := EventLogBytes(status, eventCount, messageCount, events).value; 1 <= |s| && s[0] == |s| - 1
  {
  }

  /** Walking rendered objects ends right behind them. */
  lemma {:induction false} WalkRendered(objects: seq<DeviceIdObject>, bytes: Bytes, offset: nat)
    requires RenderAll(RenderObject, objects).Ok?
    requires var list := RenderAll(RenderObject, objects).value;
             1 + offset + |list| <= |bytes| && bytes[1 + offset..1 + offset + |list|] == list
    ensures Walk(bytes, offset, |objects|) == Known(offset + |RenderAll(RenderObject, objects).value|)
  {
    if objects == [] {
    } else {
      var head, tail := RenderObject(objects[0]).value, RenderAll(RenderObject, objects[1..]).value;
      var list, at := head + tail, 1 + offset;
      assert bytes[at + 1] == list[1] == |objects[0].value| by {
        assert bytes[at..at + |list|][1] == bytes[at + 1];
      }
      var next := offset + |head|;
      assert bytes[1 + next..1 + next + |tail|] == bytes[at..at + |list|][|head|..] == tail;
      WalkRendered(objects[1..], bytes, next);
    }
  }

  lemma {:induction false} IdentificationSized(m: MeiResponse, bytes: Bytes)
    requires m.DeviceIdentification? && EncodeMeiResponse(m).Ok?
    requires Holds(bytes, [43] + EncodeMeiResponse(m).value)
    ensures IdentificationSize(bytes) == Known(1 + |EncodeMeiResponse(m).value|)
  {
    hide Walk;
    hide RenderAll;
    var list := RenderAll(RenderObject, m.objects).value;
    var pdu := [43] + EncodeMeiResponse(m).value;
    assert |pdu| == 7 + |list| && pdu[6] == |m.objects|;
    assert bytes[7] == bytes[1 + 6] == pdu[6];
    assert bytes[8..8 + |list|] == list by {
      forall i | 0 <= i < |list|
        ensures bytes[8 + i] == list[i]
      {
        assert bytes[1 + (7 + i)] == pdu[7 + i];
      }
    }
    WalkRendered(m.objects, bytes, 7);
  }

  lemma {:induction false} CountedShape(data: Bytes)
    requires CountedBytes(data).Ok?
    ensures var s := CountedBytes(data).value; 1 <= |s| && s[0] == |s| - 1
  {
  }

  /** The requests whose length one of their own bytes gives. */
  predicate CountingRequest(p: RequestPdu) {
    p.WriteMultipleCoils? || p.WriteMultipleRegisters? || p.ReadWriteMultipleRegisters? || p.ReadFileRecord?
    || p.WriteFileRecord?
  }

  lemma {:induction false} CountingRequestSized(p: RequestPdu, bytes: Bytes)
    requires CountingRequest(p) && EncodeRequest(p).Ok? && Holds(bytes, EncodeRequest(p).value)
    ensures RequestSize(bytes) == Known(|EncodeRequest(p).value|)
  {
    hide QuantifiedBytes;
    hide ReadWriteBytes;
    hide RenderBody;
    hide PackBits;
    hide FromWords;
    var pdu := EncodeRequest(p).value;
    assert bytes[1 + 0] == pdu[0];
    match p
    case WriteMultipleCoils(address, coils) =>
      QuantifiedShape(address, |coils|, PackBits(coils), MAX_WRITE_BITS);
      assert bytes[1 + 5] == pdu[5];
    case WriteMultipleRegisters(address, registers) =>
      QuantifiedShape(address, |registers|, FromWords(registers), MAX_WRITE_REGISTERS);
      assert bytes[1 + 5] == pdu[5];
    case ReadWriteMultipleRegisters(readAddress, readQuantity, writeAddress, registers) =>
      ReadWriteShape(readAddress, readQuantity, writeAddress, registers);
      assert bytes[1 + 9] == pdu[9];
    case ReadFileRecord(records) =>
      BodyShape(RenderRead, records, 7, 245);
      assert bytes[1 + 1] == pdu[1];
    case WriteFileRecord(records) =>
      BodyShape(RenderWrite, records, 9, 251);
      assert bytes[1 + 1] == pdu[1];
  }

  lemma {:induction false} OtherRequestSized(p: RequestPdu, bytes: Bytes)
    requires !CountingRequest(p) && p.Canonical() && EncodeRequest(p).Ok? && Holds(bytes, EncodeRequest(p).value)
    ensures var pdu := EncodeRequest(p).value;
            RequestSize(bytes) == if DerivableRequest(p) then Known(|pdu|) else Refused(IndeterminateLength(pdu[0]))
  {
    hide QuantifiedBytes;
    hide ReadWriteBytes;
    hide RenderBody;
    hide DiagnosticBytes;
    var pdu := EncodeRequest(p).value;
    assert bytes[1 + 0] == pdu[0];
    if p.EncapsulatedInterfaceTransport? {
      assert bytes[1 + 1] == pdu[1];
    }
  }

  lemma {:induction false} RequestSized(p: RequestPdu, bytes: Bytes)
    requires EncodeRequest(p).Ok? && p.Canonical() && Holds(bytes, EncodeRequest(p).value)
    ensures var pdu := EncodeRequest(p).value;
            PduSize(Request, bytes) == if DerivableRequest(p) then Known(|pdu|) else Refused(IndeterminateLength(pdu[0]))
  {
    hide RequestSize;
    hide RequestFields;
    EncodeFunctionBound(p.Function());
    assert bytes[1 + 0] == EncodeRequest(p).value[0];
    if CountingRequest(p) {
      CountingRequestSized(p, bytes);
    } else {
      OtherRequestSized(p, bytes);
    }
  }

  predicate CountingResponse(p: ResponsePdu) {
    p.ReadCoils? || p.ReadDiscreteInputs? || p.ReadHoldingRegisters? || p.ReadInputRegisters?
    || p.ReadWriteMultipleRegisters? || p.GetCommEventLog? || p.ReportServerId? || p.ReadFileRecord? || p.WriteFileRecord?
  }

  lemma {:induction false} CountingResponseSized(p: ResponsePdu, bytes: Bytes)
    requires CountingResponse(p) && EncodeResponse(p).Ok? && Holds(bytes, EncodeResponse(p).value)
    ensures ResponseSize(bytes) == Known(|EncodeResponse(p).value|)
  {
    hide CountedBytes;
    hide EventLogBytes;
    hide RenderBody;
    hide PackBits;
    hide FromWords;
    var pdu := EncodeResponse(p).value;
    assert bytes[1 + 0] == pdu[0];
    match p {
      case ReadCoils(coils) => CountedShape(PackBits(coils));
      case ReadDiscreteInputs(inputs) => CountedShape(PackBits(inputs));
      case ReadHoldingRegisters(registers) => CountedShape(FromWords(registers));
      case ReadInputRegisters(registers) => CountedShape(FromWords(registers));
      case ReadWriteMultipleRegisters(registers) => CountedShape(FromWords(registers));
      case ReportServerId(data) => CountedShape(data);
      case GetCommEventLog(status, eventCount, messageCount, events) =>
        EventLogShape(status, eventCount, messageCount, events);
      case ReadFileRecord(records) => BodyShape(RenderReadResponse, records, 7, 245);
      case WriteFileRecord(records) => BodyShape(RenderWrite, records, 9, 251);
    }
    assert bytes[1 + 1] == pdu[1];
  }

  lemma {:induction false} OtherResponseSized(p: ResponsePdu, bytes: Bytes)
    requires !CountingResponse(p) && !p.Exception? && p.Canonical()
    requires EncodeResponse(p).Ok? && Holds(bytes, EncodeResponse(p).value)
    ensures var pdu := EncodeResponse(p).value;
            ResponseSize(bytes) == if DerivableResponse(p) then Known(|pdu|) else Refused(IndeterminateLength(pdu[0]))
  {
    hide CountedBytes;
    hide EventLogBytes;
    hide FifoBytes;
    hide RenderBody;
    hide DiagnosticBytes;
    hide IdentificationSize;
    hide RenderAll;
    hide Identification;
    var pdu := EncodeResponse(p).value;
    assert bytes[1 + 0] == pdu[0];
    match p
    case ReadFifoQueue(values) =>
      FifoShape(values);
      assert bytes[1 + 1] == pdu[1] && bytes[1 + 2] == pdu[2];
    case EncapsulatedInterfaceTransport(mei) =>
      assert bytes[1 + 1] == pdu[1];
      if mei.DeviceIdentification? {
        IdentificationSized(mei, bytes);
      }
    case _ =>
  }

  lemma {:induction false} ResponseSized(p: ResponsePdu, bytes: Bytes)
    requires EncodeResponse(p).Ok? && p.Canonical() && Holds(bytes, EncodeResponse(p).value)
    ensures var pdu := EncodeResponse(p).value;
            PduSize(Response, bytes)
            == if DerivableResponse(p) then Known(|pdu|) else Refused(IndeterminateLength(pdu[0]))
  {
    hide ResponseSize;
    EncodeFunctionBound(p.Function());
    assert bytes[1 + 0] == EncodeResponse(p).value[0];
    if p.Exception? {
    } else if CountingResponse(p) {
      hide ResponseFields;
      CountingResponseSized(p, bytes);
    } else {
      hide ResponseFields;
      OtherResponseSized(p, bytes);
    }
  }

  /**
   * On the encoded ADU of any canonical message, whatever follows it on the stream, the derivation yields exactly the
   * ADU's length, or refuses with the function code when the message is not derivable.
   */
  lemma {:induction false} ExtentOfEncoded(m: Message, address: Byte, more: Bytes)
    requires EncodeMessage(m).Ok? && m.Canonical()
    ensures var pdu := EncodeMessage(m).value;
            var adu := WrapRtu(address, pdu);
            && |adu| == |pdu| + 3
            && DeriveExtent(m.Direction(), adu + more)
               == if Derivable(m) then Ok(Complete(|adu|)) else Err(IndeterminateLength(pdu[0]))
  {
    hide EncodeRequest;
    hide EncodeResponse;
    hide PduSize;
    hide DerivableRequest;
    hide DerivableResponse;
    hide Crc.Crc16;
    MessageWritten(m);
    var pdu := EncodeMessage(m).value;
    LeMatches(Crc.Crc16([address] + pdu), 0, 0);
    var bytes := WrapRtu(address, pdu) + more;
    assert Holds(bytes, pdu);
    match m
    case RequestMessage(p) => RequestSized(p, bytes);
    case ResponseMessage(p) => ResponseSized(p, bytes);
  }

  /** So every derivable message is carried by one frame of the prefix-free code. */
  lemma {:induction false} EncodedIsFrame(m: Message, address: Byte)
    requires EncodeMessage(m).Ok? && m.Canonical() && Derivable(m)
    ensures IsFrame(m.Direction(), WrapRtu(address, EncodeMessage(m).value))
  {
    hide EncodeMessage;
    hide DeriveExtent;
    hide WrapRtu;
    var adu := WrapRtu(address, EncodeMessage(m).value);
    ExtentOfEncoded(m, address, []);
    assert adu + [] == adu;
  }
}
