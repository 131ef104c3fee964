/** Responses on the wire: what is encoded, what is refused and what is decoded, against the format itself. */
module WireResponses {
  import opened Basics
  import opened Bits
  import opened Parsing
  import opened Items
  import opened FileRecords
  import opened Mei
  import opened Pdu
  import opened PduRoundTrip
  import opened WireFormat
  import opened WireLists
  import opened WireRequests
  import Codes

  // ---- Which responses encode ----

  lemma {:induction false} ExceptionBytes(e: Codes.ExceptionCode)
    ensures Codes.EncodeException(e) == if ExceptionLegal(e) then Ok(ExceptionByte(e)) else Err(ReservedCode)
  {
  }

  lemma {:induction false} ReadResponsesEncodable(records: seq<FileRecordReadResponse>)
    ensures EncodeReadResponses(records).Ok? <==> 7 <= ReadResponsesLength(records) <= 245
    ensures EncodeReadResponses(records).Err? ==> EncodeReadResponses(records).error == OutOfRange
    ensures EncodeReadResponses(records).Ok? ==> |EncodeReadResponses(records).value| <= 246
  {
    hide RenderAll;
    hide ReadResponsesLength;
    ReadResponsesRendered(records);
  }

  lemma {:induction false} MeiEncodable(m: MeiResponse)
    ensures EncodeMeiResponse(m).Ok? && |EncodeMeiResponse(m).value| <= 252
            <==> if m.DeviceIdentification? then ObjectsLength(m.objects) <= 246 else |m.data| <= 251
    ensures EncodeMeiResponse(m).Err? <==> m.DeviceIdentification? && !ObjectsCountable(m.objects)
    ensures EncodeMeiResponse(m).Err? ==> EncodeMeiResponse(m).error == OutOfRange
  {
    hide RenderAll;
    hide ObjectsLength;
    if m.DeviceIdentification? {
      ObjectsRendered(m.objects);
    }
  }

  lemma {:induction false} CountedEncodable(data: Bytes)
    ensures CountedBytes(data).Ok? ==> |CountedBytes(data).value| == 1 + |data|
    ensures CountedBytes(data).Err? ==> CountedBytes(data).error == PduTooLarge && 255 < |data|
    ensures CountedBytes(data).Ok? && |CountedBytes(data).value| <= 252 <==> |data| <= 251
  {
  }

  lemma {:induction false} PackedFits(bits: seq<bool>)
    ensures |PackBits(bits)| <= 251 <==> |bits| <= 2008
  {
    hide PackBits;
  }

  /** The fields of a response, and whether they fit a PDU behind a code. */
  lemma {:induction false} FieldsEncodable(p: ResponsePdu)
    requires !p.Custom? && !p.Exception?
    ensures FunctionLegal(p.Function())
    ensures ResponseFields(p).Ok? && |ResponseFields(p).value| <= 252 <==> ResponseLegal(p)
    ensures ResponseFields(p).Err? ==> ResponseFields(p).error == ResponseRefusal(p)
    ensures ResponseFields(p).Ok? && !ResponseLegal(p) ==> ResponseRefusal(p) == PduTooLarge
  {
    hide CountedBytes;
    hide EncodeReadResponses;
    hide EncodeWrites;
    hide EncodeMeiResponse;
    hide PackBits;
    hide FromWords;
    hide ObjectsCountable;
    match p
    case ReadCoils(coils) =>
      PackedFits(coils);
      CountedEncodable(PackBits(coils));
    case ReadDiscreteInputs(inputs) =>
      PackedFits(inputs);
      CountedEncodable(PackBits(inputs));
    case ReadHoldingRegisters(registers) => CountedEncodable(FromWords(registers));
    case ReadInputRegisters(registers) => CountedEncodable(FromWords(registers));
    case ReadWriteMultipleRegisters(registers) => CountedEncodable(FromWords(registers));
    case Diagnostics(subFunction, _) =>
      SubFunctionWords(subFunction);
      hide Codes.EncodeSubFunction;
    case ReportServerId(data) => CountedEncodable(data);
    case ReadFileRecord(records) => ReadResponsesEncodable(records);
    case WriteFileRecord(records) => WritesEncodable(records);
    case EncapsulatedInterfaceTransport(mei) => MeiEncodable(mei);
    case _ =>
  }

  /** A response encodes if and only if it is legal; otherwise this is why not. */
  lemma {:induction false} ResponseEncodable(p: ResponsePdu)
    ensures EncodeResponse(p).Ok? <==> ResponseLegal(p)
    ensures !ResponseLegal(p) ==> EncodeResponse(p) == Err(ResponseRefusal(p))
  {
    FunctionBytes(p.Function());
    hide Codes.EncodeFunction;
    if p.Custom? {
    } else if p.Exception? {
      ExceptionBytes(p.exception);
      hide Codes.EncodeException;
    } else {
      hide ResponseFields;
      hide ResponseLegal;
      hide ResponseRefusal;
      FieldsEncodable(p);
    }
  }

  // ---- What their bytes are ----

  lemma {:induction false} BitsReadStand(code: Byte, bits: seq<bool>)
    requires |bits| <= 2008
    ensures var s := [code] + ([|PackBits(bits)|] + PackBits(bits));
            CountedOn(s, code) && |s| == 2 + (|bits| + 7) / 8 && BitsAt(s, 2, bits)
  {
    hide PackBits;
    hide BitsAt;
    PackedFits(bits);
    CountedStands(code, PackBits(bits));
    BitsStand([code, |PackBits(bits)|], bits);
  }

  lemma {:induction false} RegistersStand(code: Byte, registers: seq<Word>)
    requires |registers| <= 125
    ensures RegistersOn([code] + ([|FromWords(registers)|] + FromWords(registers)), code, registers)
  {
    hide FromWords;
    hide WordsAt;
    var front, data := [code, |FromWords(registers)|], FromWords(registers);
    CountedStands(code, data);
    WordsStand(front, registers, []);
    Nothing(front + data);
  }

  lemma {:induction false} EventLogStands(p: ResponsePdu)
    requires p.GetCommEventLog? && ResponseLegal(p)
    ensures ResponseOnWire(p, [12] + ResponseFields(p).value)
  {
    var a, b, c, n := p.status, p.eventCount, p.messageCount, |p.events|;
    var front := [12, 6 + n, a / 256, a % 256, b / 256, b % 256, c / 256, c % 256];
    assert [12] + ResponseFields(p).value == front + p.events;
  }

  lemma {:induction false} ServerIdStands(data: Bytes)
    requires |data| <= 251
    ensures var s := [17] + ([|data|] + data); CountedOn(s, 17) && |s| == 2 + |data| && BytesAt(s, 2, data)
  {
  }

  lemma {:induction false} ReadResponseListStands(records: seq<FileRecordReadResponse>)
    requires EncodeReadResponses(records).Ok?
    ensures var s := [20] + EncodeReadResponses(records).value; CountedOn(s, 20) && ReadResponsesAt(s, 2, records)
  {
    hide RenderAll;
    hide ReadResponsesAt;
    var data := RenderAll(RenderReadResponse, records).value;
    CountedStands(20, data);
    ReadResponsesStand([20, |data|], records);
  }

  lemma {:induction false} FifoStands(values: seq<Word>)
    requires |values| <= 31
    ensures ResponseOnWire(ResponsePdu.ReadFifoQueue(values), [24] + FifoBytes(values).value)
  {
    hide FromWords;
    hide WordsAt;
    var c, n := 2 * |values| + 2, |values|;
    var front := [24, c / 256, c % 256, n / 256, n % 256];
    assert [24] + FifoBytes(values).value == front + FromWords(values);
    WordsStand(front, values, []);
    Nothing(front + FromWords(values));
  }

  lemma {:induction false} MeiResponseStands(m: MeiResponse)
    requires EncodeMeiResponse(m).Ok?
    ensures MeiResponseOnWire(m, [43] + EncodeMeiResponse(m).value)
  {
    hide RenderAll;
    hide ObjectsAt;
    match m
    case CanOpenResponse(data) => OpaqueStands(13, data);
    case DeviceIdentification(code, level, more, next, objects) =>
      var list := RenderAll(RenderObject, objects).value;
      var front := [43, 14, IdCodeByte(code), level, if more then 0xFF else 0x00, next, |objects|];
      assert [43] + EncodeMeiResponse(m).value == front + list;
      ObjectsStand(front, objects);
    case OtherResponse(meiType, data) => OpaqueStands(meiType, data);
  }

  lemma {:induction false} PlainResponseStands(p: ResponsePdu)
    requires p.WriteSingleCoil? || p.WriteSingleRegister? || p.WriteMultipleCoils? || p.WriteMultipleRegisters?
             || p.MaskWriteRegister? || p.GetCommEventCounter?
    ensures ResponseFields(p).Ok?
    ensures ResponseOnWire(p, [FunctionByte(p.Function())] + ResponseFields(p).value)
  {
    hide PairOn;
    hide MaskOn;
    match p
    case WriteSingleCoil(address, on) => PairStands(5, address, if on then 0xFF00 else 0x0000);
    case WriteSingleRegister(address, value) => PairStands(6, address, value);
    case WriteMultipleCoils(address, quantity) => PairStands(15, address, quantity);
    case WriteMultipleRegisters(address, quantity) => PairStands(16, address, quantity);
    case MaskWriteRegister(address, andMask, orMask) => MaskStands(address, andMask, orMask);
    case GetCommEventCounter(status, eventCount) => PairStands(11, status, eventCount);
  }

  /** What a legal response's code and fields are, position by position. */
  lemma {:induction false} FieldsStand(p: ResponsePdu)
    requires !p.Exception? && ResponseLegal(p) && ResponseFields(p).Ok?
    ensures ResponseOnWire(p, [FunctionByte(p.Function())] + ResponseFields(p).value)
  {
    hide PackBits;
    hide FromWords;
    hide EncodeReadResponses;
    hide EncodeWrites;
    hide EncodeMeiResponse;
    hide EventLogBytes;
    hide FifoBytes;
    hide Be;
    hide BitsAt;
    hide WordsAt;
    hide WordAt;
    hide ReadResponsesAt;
    hide WritesAt;
    hide CountedOn;
    hide RegistersOn;
    hide DiagnosticsOn;
    hide MeiResponseOnWire;
    match p
    case ReadCoils(coils) => BitsReadStand(1, coils);
    case ReadDiscreteInputs(inputs) => BitsReadStand(2, inputs);
    case ReadHoldingRegisters(registers) => RegistersStand(3, registers);
    case ReadInputRegisters(registers) => RegistersStand(4, registers);
    case ReadWriteMultipleRegisters(registers) => RegistersStand(23, registers);
    case Diagnostics(subFunction, words) =>
      SubFunctionWords(subFunction);
      DiagnosticsStand(subFunction, words);
    case GetCommEventLog(_, _, _, _) => EventLogStands(p);
    case ReportServerId(data) => ServerIdStands(data);
    case ReadFileRecord(records) => ReadResponseListStands(records);
    case WriteFileRecord(records) => WrittenListStands(records);
    case ReadFifoQueue(values) => FifoStands(values);
    case EncapsulatedInterfaceTransport(mei) => MeiResponseStands(mei);
    case ReadExceptionStatus(_) =>
    case Custom(_, _) =>
    case _ => PlainResponseStands(p);
  }

  lemma {:induction false} ExceptionStands(p: ResponsePdu)
    requires p.Exception? && EncodeResponse(p).Ok?
    ensures ResponseOnWire(p, EncodeResponse(p).value)
  {
    FunctionBytes(p.of);
    ExceptionBytes(p.exception);
    hide Codes.EncodeFunction;
    hide Codes.EncodeException;
  }

  lemma {:induction false} ResponseSpelled(p: ResponsePdu)
    requires EncodeResponse(p).Ok?
    ensures ResponseOnWire(p, EncodeResponse(p).value)
  {
    hide ResponseOnWire;
    if p.Exception? {
      ExceptionStands(p);
    } else {
      ResponseEncodable(p);
      FunctionBytes(p.Function());
      ResponseFunctionLegal(p);
      FieldsStand(p);
      hide Codes.EncodeFunction;
      hide ResponseFields;
      hide ResponseLegal;
    }
  }

  lemma {:induction false} ResponseFunctionLegal(p: ResponsePdu)
    requires ResponseLegal(p)
    ensures FunctionLegal(p.Function())
  {
  }

  // ---- The format says it all ----

  lemma {:induction false} ResponseOnce(p: ResponsePdu, a: Bytes, b: Bytes)
    requires ResponseOnWire(p, a) && ResponseOnWire(p, b)
    ensures a == b
  {
    hide BitsAt;
    hide WordsAt;
    hide BytesAt;
    hide ReadResponsesAt;
    hide WritesAt;
    hide ObjectsAt;
    match p
    case ReadCoils(coils) => BitsOnce(a, b, 2, coils);
    case ReadDiscreteInputs(inputs) => BitsOnce(a, b, 2, inputs);
    case ReadHoldingRegisters(registers) => WordsOnce(a, b, 2, registers);
    case ReadInputRegisters(registers) => WordsOnce(a, b, 2, registers);
    case ReadWriteMultipleRegisters(registers) => WordsOnce(a, b, 2, registers);
    case Diagnostics(_, words) => WordsOnce(a, b, 3, words);
    case GetCommEventLog(_, _, _, events) => BytesOnce(a, b, 8, events);
    case ReportServerId(data) => BytesOnce(a, b, 2, data);
    case ReadFileRecord(records) => ReadResponsesOnce(a, b, 2, records);
    case WriteFileRecord(records) => WritesOnce(a, b, 2, records);
    case ReadFifoQueue(values) => WordsOnce(a, b, 5, values);
    case EncapsulatedInterfaceTransport(mei) =>
      if mei.DeviceIdentification? {
        ObjectsOnce(a, b, 7, mei.objects);
      } else {
        BytesOnce(a, b, 2, mei.data);
      }
    case Custom(_, data) => BytesOnce(a, b, 1, data);
    case _ =>
  }

  /**
   * The encoder, in full: its output for a response is exactly the byte string the format prescribes, for exactly the
   * responses that may be sent.
   */
  lemma {:induction false} ResponseEncoding(p: ResponsePdu, s: Bytes)
    ensures EncodeResponse(p) == Ok(s) <==> ResponseLegal(p) && ResponseOnWire(p, s)
  {
    hide EncodeResponse;
    hide ResponseLegal;
    hide ResponseOnWire;
    ResponseEncodable(p);
    if EncodeResponse(p).Ok? {
      ResponseSpelled(p);
      if ResponseOnWire(p, s) {
        ResponseOnce(p, s, EncodeResponse(p).value);
      }
    }
  }

  /** The decoder, in full: it accepts exactly the byte strings that spell a legal response, and yields that response. */
  lemma {:induction false} ResponseDecoding(p: ResponsePdu, s: Bytes)
    ensures DecodeResponse(s) == Ok(p) <==> p.Canonical() && ResponseLegal(p) && ResponseOnWire(p, s)
  {
    hide EncodeResponse;
    hide DecodeResponse;
    hide ResponseLegal;
    hide ResponseOnWire;
    ResponseEncoding(p, s);
    if DecodeResponse(s).Ok? {
      ResponseRead(s);
    }
    if EncodeResponse(p).Ok? {
      ResponseWritten(p);
    }
  }
}
