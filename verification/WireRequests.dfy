/** Requests on the wire: what is encoded, what is refused and what is decoded, against the format itself. */
module WireRequests {
  import opened Basics
  import opened Bits
  import opened Parsing
  import opened Items
  import opened FileRecords
  import opened Mei
  import opened Pdu
  import opened PduRoundTrip
  import opened WireFormat
  import opened WireLists
  import Codes

  // ---- Formats both directions share ----

  lemma {:induction false} FunctionBytes(f: Codes.FunctionCode)
    ensures Codes.EncodeFunction(f) == if FunctionLegal(f) then Ok(FunctionByte(f)) else Err(CustomRefusal(f.code))
    ensures f.Custom? && CustomLegal(f.code) ==> CustomRefusal(f.code) == PduTooLarge
  {
  }

  lemma {:induction false} SubFunctionWords(d: Codes.DiagnosticSubFunction)
    ensures Codes.EncodeSubFunction(d) == if SubFunctionLegal(d) then Ok(SubFunctionWord(d)) else Err(ReservedCode)
  {
  }

  lemma {:induction false} PairStands(code: Byte, a: Word, b: Word)
    ensures PairOn([code] + (Be(a) + Be(b)), code, a, b)
  {
  }

  lemma {:induction false} MaskStands(address: Word, andMask: Word, orMask: Word)
    ensures MaskOn([22] + (Be(address) + (Be(andMask) + Be(orMask))), address, andMask, orMask)
  {
  }

  /** A code, an address, a quantity and a count, whatever data they announce. */
  lemma {:induction false} QuantifiedStands(code: Byte, address: Word, quantity: Word, data: Bytes)
    requires |data| <= 255
    ensures var s := [code] + (Be(address) + (Be(quantity) + ([|data|] + data)));
            && QuantifiedOn(s, code, address, quantity, |data|)
            && s == [code, address / 256, address % 256, quantity / 256, quantity % 256, |data|] + data
  {
  }

  lemma {:induction false} CountedStands(code: Byte, data: Bytes)
    requires |data| <= 255
    ensures CountedOn([code] + ([|data|] + data), code) && [code] + ([|data|] + data) == [code, |data|] + data
  {
  }

  lemma {:induction false} DiagnosticsStand(subFunction: Codes.DiagnosticSubFunction, words: seq<Word>)
    requires SubFunctionLegal(subFunction)
    ensures DiagnosticsOn([8] + (Be(SubFunctionWord(subFunction)) + FromWords(words)), subFunction, words)
  {
    hide FromWords;
    hide WordsAt;
    hide SubFunctionWord;
    var w := SubFunctionWord(subFunction);
    var front := [8, w / 256, w % 256];
    var s := [8] + (Be(w) + FromWords(words));
    assert s == front + FromWords(words) + [];
    WordsStand(front, words, []);
  }

  lemma {:induction false} OpaqueStands(meiType: Byte, data: Bytes)
    ensures OpaqueOn([43] + ([meiType] + data), meiType, data)
  {
  }

  lemma {:induction false} WrittenListStands(records: seq<FileRecordWrite>)
    requires EncodeWrites(records).Ok?
    ensures var s := [21] + EncodeWrites(records).value; CountedOn(s, 21) && WritesAt(s, 2, records)
  {
    hide RenderAll;
    hide WritesAt;
    var data := RenderAll(RenderWrite, records).value;
    CountedStands(21, data);
    WritesStand([21, |data|], records);
  }

  lemma {:induction false} WritesEncodable(records: seq<FileRecordWrite>)
    ensures EncodeWrites(records).Ok? <==> WritesLegal(records)
    ensures EncodeWrites(records).Err? ==> EncodeWrites(records).error == OutOfRange
    ensures EncodeWrites(records).Ok? ==> |EncodeWrites(records).value| <= 252
  {
    hide RenderAll;
    hide WritesLength;
    WritesRendered(records);
  }

  // ---- Which requests encode ----

  lemma {:induction false} ReadsEncodable(records: seq<FileRecordRead>)
    ensures EncodeReads(records).Ok? <==> 1 <= |records| <= 35 && ReadsNumbered(records)
    ensures EncodeReads(records).Err? ==> EncodeReads(records).error == OutOfRange
    ensures EncodeReads(records).Ok? ==> |EncodeReads(records).value| <= 246
  {
    hide RenderAll;
    ReadsRendered(records);
  }

  lemma {:induction false} QuantifiedEncodable(address: Word, quantity: nat, data: Bytes, max: nat)
    requires max <= 0xFFFF && (1 <= quantity <= max ==> |data| <= 255)
    ensures QuantifiedBytes(address, quantity, data, max).Ok? <==> 1 <= quantity <= max
    ensures QuantifiedBytes(address, quantity, data, max).Err?
            ==> QuantifiedBytes(address, quantity, data, max).error == OutOfRange
    ensures QuantifiedBytes(address, quantity, data, max).Ok?
            ==> |QuantifiedBytes(address, quantity, data, max).value| == 5 + |data|
  {
  }

  lemma {:induction false} ReadWriteEncodable(readAddress: Word, readQuantity: Word, writeAddress: Word, registers: seq<Word>)
    ensures var r := ReadWriteBytes(readAddress, readQuantity, writeAddress, registers);
            && (r.Ok? <==> 1 <= readQuantity <= 125 && 1 <= |registers| <= 121)
            && (r.Err? ==> r.error == OutOfRange)
            && (r.Ok? ==> |r.value| == 9 + 2 * |registers|)
  {
    hide QuantifiedBytes;
    hide FromWords;
    QuantifiedEncodable(writeAddress, |registers|, FromWords(registers), MAX_RW_WRITE_REGISTERS);
  }

  /** The fields of a request, but for what the whole PDU may hold. */
  lemma {:induction false} FieldsEncodable(p: RequestPdu)
    requires !p.Custom? && !p.Diagnostics? && !p.EncapsulatedInterfaceTransport?
    ensures RequestFields(p).Ok? <==> RequestLegal(p)
    ensures RequestFields(p).Err? ==> RequestFields(p).error == RequestRefusal(p)
    ensures RequestFields(p).Ok? ==> |RequestFields(p).value| <= 252
  {
    hide QuantifiedBytes;
    hide ReadWriteBytes;
    hide EncodeReads;
    hide EncodeWrites;
    hide PackBits;
    hide FromWords;
    match p
    case WriteMultipleCoils(address, coils) => QuantifiedEncodable(address, |coils|, PackBits(coils), MAX_WRITE_BITS);
    case WriteMultipleRegisters(address, registers) =>
      QuantifiedEncodable(address, |registers|, FromWords(registers), MAX_WRITE_REGISTERS);
    case ReadWriteMultipleRegisters(readAddress, readQuantity, writeAddress, registers) =>
      ReadWriteEncodable(readAddress, readQuantity, writeAddress, registers);
    case ReadFileRecord(records) => ReadsEncodable(records);
    case WriteFileRecord(records) => WritesEncodable(records);
    case _ =>
  }

  /** A request encodes if and only if it is legal; otherwise this is why not. */
  lemma {:induction false} RequestEncodable(p: RequestPdu)
    ensures EncodeRequest(p).Ok? <==> RequestLegal(p)
    ensures !RequestLegal(p) ==> EncodeRequest(p) == Err(RequestRefusal(p))
  {
    FunctionBytes(p.Function());
    hide Codes.EncodeFunction;
    if p.Custom? {
    } else if p.Diagnostics? {
      SubFunctionWords(p.subFunction);
      hide Codes.EncodeSubFunction;
      hide FromWords;
    } else if p.EncapsulatedInterfaceTransport? {
    } else {
      hide RequestFields;
      hide RequestLegal;
      hide RequestRefusal;
      FieldsEncodable(p);
    }
  }

  // ---- What their bytes are ----

  lemma {:induction false} WriteCoilsStand(address: Word, coils: seq<bool>)
    requires 1 <= |coils| <= 1968
    ensures var s := [15] + (Be(address) + (Be(|coils|) + ([|PackBits(coils)|] + PackBits(coils))));
            QuantifiedOn(s, 15, address, |coils|, (|coils| + 7) / 8) && BitsAt(s, 6, coils)
  {
    hide PackBits;
    hide BitsAt;
    hide Be;
    hide QuantifiedOn;
    var data := PackBits(coils);
    QuantifiedStands(15, address, |coils|, data);
    BitsStand([15, address / 256, address % 256, |coils| / 256, |coils| % 256, |data|], coils);
  }

  lemma {:induction false} WriteRegistersStand(address: Word, registers: seq<Word>)
    requires 1 <= |registers| <= 123
    ensures var data := FromWords(registers);
            var s := [16] + (Be(address) + (Be(|registers|) + ([|data|] + data)));
            QuantifiedOn(s, 16, address, |registers|, 2 * |registers|) && WordsAt(s, 6, registers)
  {
    hide FromWords;
    hide WordsAt;
    hide Be;
    hide QuantifiedOn;
    var data, n := FromWords(registers), |registers|;
    QuantifiedStands(16, address, n, data);
    var front := [16, address / 256, address % 256, n / 256, n % 256, |data|];
    WordsStand(front, registers, []);
    Nothing(front + data);
  }

  lemma {:induction false} ReadWriteStands(p: RequestPdu)
    requires p.ReadWriteMultipleRegisters? && RequestLegal(p)
    ensures RequestOnWire(p, [23] + RequestFields(p).value)
  {
    hide FromWords;
    hide WordsAt;
    var a, q, b, n := p.readAddress, p.readQuantity, p.writeAddress, |p.registers|;
    var front := [23, a / 256, a % 256, q / 256, q % 256, b / 256, b % 256, n / 256, n % 256, 2 * n];
    var s := [23] + RequestFields(p).value;
    assert s == front + FromWords(p.registers);
    WordsStand(front, p.registers, []);
    Nothing(s);
  }

  lemma {:induction false} ReadListStands(records: seq<FileRecordRead>)
    requires EncodeReads(records).Ok?
    ensures var s := [20] + EncodeReads(records).value; CountedOn(s, 20) && ReadsAt(s, 2, records)
  {
    hide RenderAll;
    hide ReadsAt;
    var data := RenderAll(RenderRead, records).value;
    CountedStands(20, data);
    ReadsStand([20, |data|], records);
  }

  lemma {:induction false} MeiRequestStands(m: MeiRequest)
    ensures MeiRequestOnWire(m, [43] + EncodeMeiRequest(m))
  {
    match m
    case CanOpenRequest(data) => OpaqueStands(13, data);
    case ReadDeviceIdentification(code, objectId) =>
    case OtherRequest(meiType, data) => OpaqueStands(meiType, data);
  }

  lemma {:induction false} PlainStands(p: RequestPdu)
    requires p.ReadCoils? || p.ReadDiscreteInputs? || p.ReadHoldingRegisters? || p.ReadInputRegisters?
             || p.WriteSingleCoil? || p.WriteSingleRegister? || p.MaskWriteRegister?
    requires RequestLegal(p)
    ensures RequestOnWire(p, [FunctionByte(p.Function())] + RequestFields(p).value)
  {
    hide PairOn;
    hide MaskOn;
    match p
    case ReadCoils(address, quantity) => PairStands(1, address, quantity);
    case ReadDiscreteInputs(address, quantity) => PairStands(2, address, quantity);
    case ReadHoldingRegisters(address, quantity) => PairStands(3, address, quantity);
    case ReadInputRegisters(address, quantity) => PairStands(4, address, quantity);
    case WriteSingleCoil(address, on) => PairStands(5, address, if on then 0xFF00 else 0x0000);
    case WriteSingleRegister(address, value) => PairStands(6, address, value);
    case MaskWriteRegister(address, andMask, orMask) => MaskStands(address, andMask, orMask);
  }

  lemma {:induction false} OtherStands(p: RequestPdu)
    requires p.ReadExceptionStatus? || p.GetCommEventCounter? || p.GetCommEventLog? || p.ReportServerId?
             || p.ReadFifoQueue? || p.Custom?
    ensures RequestFields(p).Ok?
    ensures RequestOnWire(p, [FunctionByte(p.Function())] + RequestFields(p).value)
  {
  }

  /** What a legal request's code and fields are, position by position. */
  lemma {:induction false} FieldsStand(p: RequestPdu)
    requires RequestLegal(p) && RequestFields(p).Ok?
    ensures RequestOnWire(p, [FunctionByte(p.Function())] + RequestFields(p).value)
  {
    hide PackBits;
    hide FromWords;
    hide EncodeReads;
    hide EncodeWrites;
    hide EncodeMeiRequest;
    hide Be;
    hide BitsAt;
    hide WordsAt;
    hide WordAt;
    hide ReadsAt;
    hide WritesAt;
    hide QuantifiedOn;
    hide CountedOn;
    hide DiagnosticsOn;
    hide MeiRequestOnWire;
    match p
    case WriteMultipleCoils(address, coils) => WriteCoilsStand(address, coils);
    case WriteMultipleRegisters(address, registers) => WriteRegistersStand(address, registers);
    case ReadWriteMultipleRegisters(_, _, _, _) => ReadWriteStands(p);
    case Diagnostics(subFunction, words) =>
      SubFunctionWords(subFunction);
      DiagnosticsStand(subFunction, words);
    case ReadFileRecord(records) => ReadListStands(records);
    case WriteFileRecord(records) => WrittenListStands(records);
    case EncapsulatedInterfaceTransport(mei) => MeiRequestStands(mei);
    case ReadExceptionStatus => OtherStands(p);
    case GetCommEventCounter => OtherStands(p);
    case GetCommEventLog => OtherStands(p);
    case ReportServerId => OtherStands(p);
    case ReadFifoQueue(_) => OtherStands(p);
    case Custom(_, _) => OtherStands(p);
    case _ => PlainStands(p);
  }

  lemma {:induction false} RequestSpelled(p: RequestPdu)
    requires EncodeRequest(p).Ok?
    ensures RequestOnWire(p, EncodeRequest(p).value)
  {
    hide RequestOnWire;
    hide RequestLegal;
    RequestEncodable(p);
    FunctionBytes(p.Function());
    hide Codes.EncodeFunction;
    RequestFunctionLegal(p);
    FieldsStand(p);
  }

  lemma {:induction false} RequestFunctionLegal(p: RequestPdu)
    requires RequestLegal(p)
    ensures FunctionLegal(p.Function())
  {
  }

  // ---- The format says it all ----

  lemma {:induction false} RequestOnce(p: RequestPdu, a: Bytes, b: Bytes)
    requires RequestOnWire(p, a) && RequestOnWire(p, b)
    ensures a == b
  {
    hide BitsAt;
    hide WordsAt;
    hide BytesAt;
    hide ReadsAt;
    hide WritesAt;
    match p
    case WriteMultipleCoils(_, coils) => BitsOnce(a, b, 6, coils);
    case WriteMultipleRegisters(_, registers) => WordsOnce(a, b, 6, registers);
    case ReadWriteMultipleRegisters(_, _, _, registers) => WordsOnce(a, b, 10, registers);
    case Diagnostics(_, words) => WordsOnce(a, b, 3, words);
    case ReadFileRecord(records) => ReadsOnce(a, b, 2, records);
    case WriteFileRecord(records) => WritesOnce(a, b, 2, records);
    case EncapsulatedInterfaceTransport(mei) =>
      if !mei.ReadDeviceIdentification? {
        BytesOnce(a, b, 2, mei.data);
      }
    case Custom(_, data) => BytesOnce(a, b, 1, data);
    case _ =>
  }

  /**
   * The encoder, in full: its output for a request is exactly the byte string the format prescribes, for exactly the
   * requests that may be sent.
   */
  lemma {:induction false} RequestEncoding(p: RequestPdu, s: Bytes)
    ensures EncodeRequest(p) == Ok(s) <==> RequestLegal(p) && RequestOnWire(p, s)
  {
    hide EncodeRequest;
    hide RequestLegal;
    hide RequestOnWire;
    RequestEncodable(p);
    if EncodeRequest(p).Ok? {
      RequestSpelled(p);
      if RequestOnWire(p, s) {
        RequestOnce(p, s, EncodeRequest(p).value);
      }
    }
  }

  /** The decoder, in full: it accepts exactly the byte strings that spell a legal request, and yields that request. */
  lemma {:induction false} RequestDecoding(p: RequestPdu, s: Bytes)
    ensures DecodeRequest(s) == Ok(p) <==> p.Canonical() && RequestLegal(p) && RequestOnWire(p, s)
  {
    hide EncodeRequest;
    hide DecodeRequest;
    hide RequestLegal;
    hide RequestOnWire;
    RequestEncoding(p, s);
    if DecodeRequest(s).Ok? {
      RequestRead(s);
    }
    if EncodeRequest(p).Ok? {
      RequestWritten(p);
    }
  }
}
