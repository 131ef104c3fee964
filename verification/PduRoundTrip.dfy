/** Decoding and encoding PDUs are inverse: on every accepted byte string, and on exactly the canonical PDUs. */
module PduRoundTrip {
  import opened Basics
  import opened Bits
  import opened Parsing
  import opened FileRecords
  import opened Mei
  import opened Pdu
  import opened PduShapes
  import Codes

  // ---- Requests ----

  lemma {:induction false} WriteCoilsWritten(address: Word, coils: seq<bool>)
    requires QuantifiedBytes(address, |coils|, PackBits(coils), MAX_WRITE_BITS).Ok?
    ensures WriteCoilsBody(QuantifiedBytes(address, |coils|, PackBits(coils), MAX_WRITE_BITS).value)
            == Got(RequestPdu.WriteMultipleCoils(address, coils), [])
  {
    hide U16;
    hide Quantified;
    hide QuantifiedBytes;
    hide PackBits;
    hide PackedBits;
    hide PackedLen;
    CoilsWritten(coils);
    QuantifiedWritten(address, |coils|, PackBits(coils), MAX_WRITE_BITS, true);
  }

  lemma {:induction false} WriteRegistersWritten(address: Word, registers: seq<Word>)
    requires QuantifiedBytes(address, |registers|, FromWords(registers), MAX_WRITE_REGISTERS).Ok?
    ensures WriteRegistersBody(QuantifiedBytes(address, |registers|, FromWords(registers), MAX_WRITE_REGISTERS).value)
            == Got(RequestPdu.WriteMultipleRegisters(address, registers), [])
  {
    hide U16;
    hide Quantified;
    hide QuantifiedBytes;
    hide FromWords;
    hide WordsOf;
    QuantifiedWritten(address, |registers|, FromWords(registers), MAX_WRITE_REGISTERS, false);
    WordsWritten(registers);
  }

  lemma {:induction false} ReadWriteWritten(p: RequestPdu)
    requires p.ReadWriteMultipleRegisters?
    requires ReadWriteBytes(p.readAddress, p.readQuantity, p.writeAddress, p.registers).Ok?
    ensures ReadWriteBody(ReadWriteBytes(p.readAddress, p.readQuantity, p.writeAddress, p.registers).value) == Got(p, [])
  {
    hide U16;
    hide ReadBytes;
    hide ReadRequest;
    hide Quantified;
    hide QuantifiedBytes;
    hide FromWords;
    hide WordsOf;
    var write := QuantifiedBytes(p.writeAddress, |p.registers|, FromWords(p.registers), MAX_RW_WRITE_REGISTERS);
    ReadRequestWritten(p.readAddress, p.readQuantity, MAX_READ_REGISTERS, write.value);
    QuantifiedWritten(p.writeAddress, |p.registers|, FromWords(p.registers), MAX_RW_WRITE_REGISTERS, false);
    WordsWritten(p.registers);
  }

  lemma {:induction false} WordWritten(a: Word)
    ensures U16(Be(a)) == Got(a, [])
  {
    hide U16;
    hide Be;
    U16Writes(a, []);
    assert Be(a) + [] == Be(a);
  }

  /** The fields of a request decode back to it under its own function code exactly when it is canonical. */
  lemma {:induction false} RequestFieldsWritten(p: RequestPdu)
    requires RequestFields(p).Ok?
    ensures RequestBody(p.Function(), RequestFields(p).value) == Got(p, []) <==> p.Canonical()
  {
    hide U16;
    hide Be;
    hide ReadBytes;
    hide ReadRequest;
    hide WordPair;
    hide WordTriple;
    hide SingleCoil;
    hide CoilWord;
    hide WriteCoilsBody;
    hide WriteRegistersBody;
    hide ReadWriteBody;
    hide ReadWriteBytes;
    hide QuantifiedBytes;
    hide PackBits;
    hide FromWords;
    hide DiagnosticBody;
    hide DiagnosticBytes;
    hide DecodeReads;
    hide EncodeReads;
    hide DecodeWrites;
    hide EncodeWrites;
    hide DecodeMeiRequest;
    hide EncodeMeiRequest;
    var s := RequestFields(p).value;
    match p
    case ReadCoils(address, quantity) => ReadWritten(address, quantity, MAX_READ_BITS);
    case ReadDiscreteInputs(address, quantity) => ReadWritten(address, quantity, MAX_READ_BITS);
    case ReadHoldingRegisters(address, quantity) => ReadWritten(address, quantity, MAX_READ_REGISTERS);
    case ReadInputRegisters(address, quantity) => ReadWritten(address, quantity, MAX_READ_REGISTERS);
    case WriteSingleCoil(address, on) => SingleCoilWritten(address, on);
    case WriteSingleRegister(address, value) => PairWritten(address, value);
    case WriteMultipleCoils(address, coils) => WriteCoilsWritten(address, coils);
    case WriteMultipleRegisters(address, registers) => WriteRegistersWritten(address, registers);
    case MaskWriteRegister(address, andMask, orMask) => WordTripleWritten(address, andMask, orMask);
    case ReadWriteMultipleRegisters(_, _, _, _) => ReadWriteWritten(p);
    case Diagnostics(subFunction, words) => DiagnosticWritten(subFunction, words);
    case ReadFileRecord(records) =>
      ReadsWritten(records, []);
      assert s + [] == s;
    case WriteFileRecord(records) =>
      WritesWritten(records, []);
      assert s + [] == s;
    case ReadFifoQueue(address) => WordWritten(address);
    case EncapsulatedInterfaceTransport(mei) => MeiRequestWritten(mei);
    case _ =>
  }

  /** `DecodeRequest` undoes `EncodeRequest`, whenever it succeeds, on exactly the canonical requests. */
  lemma {:induction false} RequestWritten(p: RequestPdu)
    requires EncodeRequest(p).Ok?
    ensures DecodeRequest(EncodeRequest(p).value) == Ok(p) <==> p.Canonical()
  {
    hide RequestFields;
    hide RequestBody;
    var code := Codes.EncodeFunction(p.Function()).value;
    Codes.FunctionRoundTrip(code, p.Function());
    var fields := RequestFields(p).value;
    assert ([code] + fields)[1..] == fields;
    RequestFieldsWritten(p);
  }

  lemma {:induction false} ReadWriteRead(s: Bytes)
    requires ReadWriteBody(s).Got?
    ensures var p := ReadWriteBody(s);
            && p.value.ReadWriteMultipleRegisters?
            && var v := p.value;
            && ReadWriteBytes(v.readAddress, v.readQuantity, v.writeAddress, v.registers).Ok?
            && s == ReadWriteBytes(v.readAddress, v.readQuantity, v.writeAddress, v.registers).value + p.rest
  {
    hide U16;
    hide ReadBytes;
    hide ReadRequest;
    hide Quantified;
    hide QuantifiedBytes;
    hide FromWords;
    hide WordsOf;
    ReadRequestRead(s, MAX_READ_REGISTERS);
    var s0 := ReadRequest(s, MAX_READ_REGISTERS).rest;
    QuantifiedRead(s0, MAX_RW_WRITE_REGISTERS, false);
    WordsRead(Quantified(U16(s0).rest, MAX_RW_WRITE_REGISTERS, false).value.1);
    var p := ReadWriteBody(s);
    var read := ReadBytes(p.value.readAddress, p.value.readQuantity, MAX_READ_REGISTERS).value;
    var write := QuantifiedBytes(p.value.writeAddress, |p.value.registers|, FromWords(p.value.registers),
                                 MAX_RW_WRITE_REGISTERS).value;
    assert s == read + (write + p.rest);
    assert read + (write + p.rest) == read + write + p.rest;
  }

  lemma {:induction false} WriteCoilsRead(s: Bytes)
    requires WriteCoilsBody(s).Got?
    ensures var p := WriteCoilsBody(s);
            && p.value.WriteMultipleCoils?
            && var v := p.value;
            && QuantifiedBytes(v.address, |v.coils|, PackBits(v.coils), MAX_WRITE_BITS).Ok?
            && s == QuantifiedBytes(v.address, |v.coils|, PackBits(v.coils), MAX_WRITE_BITS).value + p.rest
  {
    hide U16;
    hide Quantified;
    hide QuantifiedBytes;
    hide PackBits;
    hide PackedBits;
    QuantifiedRead(s, MAX_WRITE_BITS, true);
    var q := Quantified(U16(s).rest, MAX_WRITE_BITS, true).value;
    CoilsRead(q.1, q.0);
  }

  lemma {:induction false} WriteRegistersRead(s: Bytes)
    requires WriteRegistersBody(s).Got?
    ensures var p := WriteRegistersBody(s);
            && p.value.WriteMultipleRegisters?
            && var v := p.value;
            && QuantifiedBytes(v.address, |v.registers|, FromWords(v.registers), MAX_WRITE_REGISTERS).Ok?
            && s == QuantifiedBytes(v.address, |v.registers|, FromWords(v.registers), MAX_WRITE_REGISTERS).value + p.rest
  {
    hide U16;
    hide Quantified;
    hide QuantifiedBytes;
    hide FromWords;
    hide WordsOf;
    QuantifiedRead(s, MAX_WRITE_REGISTERS, false);
    WordsRead(Quantified(U16(s).rest, MAX_WRITE_REGISTERS, false).value.1);
  }

  /** Whatever a request body decodes to re-encodes to the bytes it consumed, and is canonical. */
  lemma {:induction false} RequestBodyRead(code: Codes.FunctionCode, s: Bytes)
    requires RequestBody(code, s).Got?
    ensures var p := RequestBody(code, s);
            && p.value.Function() == code && p.value.Canonical()
            && RequestFields(p.value).Ok? && s == RequestFields(p.value).value + p.rest
  {
    hide U16;
    hide Be;
    hide ReadBytes;
    hide ReadRequest;
    hide WordPair;
    hide WordTriple;
    hide SingleCoil;
    hide CoilWord;
    hide WriteCoilsBody;
    hide WriteRegistersBody;
    hide ReadWriteBody;
    hide ReadWriteBytes;
    hide QuantifiedBytes;
    hide PackBits;
    hide FromWords;
    hide DiagnosticBody;
    hide DiagnosticBytes;
    hide DecodeReads;
    hide EncodeReads;
    hide DecodeWrites;
    hide EncodeWrites;
    hide DecodeMeiRequest;
    hide EncodeMeiRequest;
    match code
    case ReadCoils => ReadRequestRead(s, MAX_READ_BITS);
    case ReadDiscreteInputs => ReadRequestRead(s, MAX_READ_BITS);
    case ReadHoldingRegisters => ReadRequestRead(s, MAX_READ_REGISTERS);
    case ReadInputRegisters => ReadRequestRead(s, MAX_READ_REGISTERS);
    case WriteSingleCoil => SingleCoilRead(s);
    case WriteSingleRegister => WordPairRead(s);
    case WriteMultipleCoils => WriteCoilsRead(s);
    case WriteMultipleRegisters => WriteRegistersRead(s);
    case MaskWriteRegister => WordTripleRead(s);
    case ReadWriteMultipleRegisters => ReadWriteRead(s);
    case Diagnostics =>
      DiagnosticRead(s);
      assert s + [] == s;
    case ReadFileRecord => ReadsRead(s);
    case WriteFileRecord => WritesRead(s);
    case ReadFifoQueue => U16Reads(s);
    case EncapsulatedInterfaceTransport => MeiRequestRead(s);
    case Custom(_) => assert s + [] == s;
    case _ => assert [] + s == s;
  }

  /** Every byte string the request decoder accepts is the encoding of what it decodes to. */
  lemma {:induction false} RequestRead(pdu: Bytes)
    requires DecodeRequest(pdu).Ok?
    ensures EncodeRequest(DecodeRequest(pdu).value) == Ok(pdu) && DecodeRequest(pdu).value.Canonical()
  {
    hide RequestFields;
    hide RequestBody;
    var code := Codes.DecodeFunction(pdu[0]).value;
    Codes.FunctionRoundTrip(pdu[0], code);
    RequestBodyRead(code, pdu[1..]);
    var p := DecodeRequest(pdu).value;
    assert RequestFields(p).value + [] == RequestFields(p).value;
    assert pdu == [pdu[0]] + pdu[1..];
  }

  /** No two canonical requests share an encoding. */
  lemma {:induction false} RequestInjective(p: RequestPdu, q: RequestPdu)
    requires p.Canonical() && q.Canonical()
    requires EncodeRequest(p).Ok? && EncodeRequest(p) == EncodeRequest(q)
    ensures p == q
  {
    RequestWritten(p);
    RequestWritten(q);
  }

  // ---- Responses ----

  lemma {:induction false} BitsWritten(bits: seq<bool>)
    requires CountedBytes(PackBits(bits)).Ok?
    ensures Counted(CountedBytes(PackBits(bits)).value) == Got(PackBits(bits), [])
    ensures AllBits(PackBits(bits)) == bits <==> |bits| % 8 == 0
  {
    CountedWritten(PackBits(bits));
    BitReadWritten(bits);
  }

  /** The fields of a response decode back to it under its own function code exactly when it is canonical. */
  lemma {:induction false} ResponseFieldsWritten(p: ResponsePdu)
    requires ResponseFields(p).Ok? && !p.Exception?
    ensures ResponseBody(p.Function(), ResponseFields(p).value) == Got(p, []) <==> p.Canonical()
  {
    hide U8;
    hide U16;
    hide Be;
    hide WordPair;
    hide WordTriple;
    hide SingleCoil;
    hide CoilWord;
    hide Counted;
    hide CountedBytes;
    hide Registers;
    hide PackBits;
    hide AllBits;
    hide FromWords;
    hide DiagnosticBody;
    hide DiagnosticBytes;
    hide FifoValues;
    hide FifoBytes;
    hide EventLog;
    hide EventLogBytes;
    hide DecodeReadResponses;
    hide EncodeReadResponses;
    hide DecodeWrites;
    hide EncodeWrites;
    hide DecodeMeiResponse;
    hide EncodeMeiResponse;
    var s := ResponseFields(p).value;
    match p
    case ReadCoils(coils) => BitsWritten(coils);
    case ReadDiscreteInputs(inputs) => BitsWritten(inputs);
    case ReadHoldingRegisters(registers) => RegistersWritten(registers);
    case ReadInputRegisters(registers) => RegistersWritten(registers);
    case WriteSingleCoil(address, on) => SingleCoilWritten(address, on);
    case WriteSingleRegister(address, value) => PairWritten(address, value);
    case WriteMultipleCoils(address, quantity) => PairWritten(address, quantity);
    case WriteMultipleRegisters(address, quantity) => PairWritten(address, quantity);
    case MaskWriteRegister(address, andMask, orMask) => WordTripleWritten(address, andMask, orMask);
    case ReadWriteMultipleRegisters(registers) => RegistersWritten(registers);
    case ReadExceptionStatus(outputs) =>
      U8Writes(outputs, []);
      assert [outputs] + [] == [outputs];
    case Diagnostics(subFunction, words) => DiagnosticWritten(subFunction, words);
    case GetCommEventCounter(status, eventCount) => PairWritten(status, eventCount);
    case GetCommEventLog(status, eventCount, messageCount, events) =>
      EventLogWritten(status, eventCount, messageCount, events);
    case ReportServerId(data) => CountedWritten(data);
    case ReadFileRecord(records) =>
      ReadResponsesWritten(records, []);
      assert s + [] == s;
    case WriteFileRecord(records) =>
      WritesWritten(records, []);
      assert s + [] == s;
    case ReadFifoQueue(values) => FifoWritten(values);
    case EncapsulatedInterfaceTransport(mei) => MeiResponseWritten(mei);
    case Custom(_, _) =>
  }

  lemma {:induction false} ExceptionWritten(p: ResponsePdu)
    requires p.Exception? && EncodeResponse(p).Ok?
    ensures DecodeResponse(EncodeResponse(p).value) == Ok(p)
  {
    var code := Codes.EncodeFunction(p.of).value;
    var raw := Codes.EncodeException(p.exception).value;
    EncodeFunctionBound(p.of);
    Codes.FunctionRoundTrip(code, p.of);
    Codes.ExceptionRoundTrip(raw, p.exception);
  }

  /** `DecodeResponse` undoes `EncodeResponse`, whenever it succeeds, on exactly the canonical responses. */
  lemma {:induction false} ResponseWritten(p: ResponsePdu)
    requires EncodeResponse(p).Ok?
    ensures DecodeResponse(EncodeResponse(p).value) == Ok(p) <==> p.Canonical()
  {
    hide ResponseFields;
    hide ResponseBody;
    if p.Exception? {
      ExceptionWritten(p);
    } else {
      var code := Codes.EncodeFunction(p.Function()).value;
      EncodeFunctionBound(p.Function());
      Codes.FunctionRoundTrip(code, p.Function());
      var fields := ResponseFields(p).value;
      assert ([code] + fields)[1..] == fields;
      ResponseFieldsWritten(p);
    }
  }

  /** Whatever a response body decodes to re-encodes to the bytes it consumed, and is canonical. */
  lemma {:induction false} ResponseBodyRead(code: Codes.FunctionCode, s: Bytes)
    requires ResponseBody(code, s).Got?
    ensures var p := ResponseBody(code, s);
            && p.value.Function() == code && p.value.Canonical() && !p.value.Exception?
            && ResponseFields(p.value).Ok? && s == ResponseFields(p.value).value + p.rest
  {
    hide U8;
    hide U16;
    hide Be;
    hide WordPair;
    hide WordTriple;
    hide SingleCoil;
    hide CoilWord;
    hide Counted;
    hide CountedBytes;
    hide Registers;
    hide PackBits;
    hide AllBits;
    hide FromWords;
    hide DiagnosticBody;
    hide DiagnosticBytes;
    hide FifoValues;
    hide FifoBytes;
    hide EventLog;
    hide EventLogBytes;
    hide DecodeReadResponses;
    hide EncodeReadResponses;
    hide DecodeWrites;
    hide EncodeWrites;
    hide DecodeMeiResponse;
    hide EncodeMeiResponse;
    assert s + [] == s;
    match code
    case ReadCoils =>
      CountedRead(s);
      BitReadRead(Counted(s).value);
    case ReadDiscreteInputs =>
      CountedRead(s);
      BitReadRead(Counted(s).value);
    case ReadHoldingRegisters => RegistersRead(s);
    case ReadInputRegisters => RegistersRead(s);
    case WriteSingleCoil => SingleCoilRead(s);
    case WriteSingleRegister => WordPairRead(s);
    case WriteMultipleCoils => WordPairRead(s);
    case WriteMultipleRegisters => WordPairRead(s);
    case MaskWriteRegister => WordTripleRead(s);
    case ReadWriteMultipleRegisters => RegistersRead(s);
    case ReadExceptionStatus => U8Reads(s);
    case Diagnostics => DiagnosticRead(s);
    case GetCommEventCounter => WordPairRead(s);
    case GetCommEventLog => EventLogRead(s);
    case ReportServerId => CountedRead(s);
    case ReadFileRecord => ReadResponsesRead(s);
    case WriteFileRecord => WritesRead(s);
    case ReadFifoQueue => FifoRead(s);
    case EncapsulatedInterfaceTransport => MeiResponseRead(s);
    case Custom(_) =>
  }

  lemma {:induction false} ExceptionRead(pdu: Bytes)
    requires DecodeExceptionResponse(pdu).Ok?
    ensures EncodeResponse(DecodeExceptionResponse(pdu).value) == Ok(pdu)
  {
    var code := Codes.DecodeFunction(pdu[0] - 0x80).value;
    Codes.FunctionRoundTrip(pdu[0] - 0x80, code);
    Codes.ExceptionRoundTrip(pdu[1], Codes.DecodeException(pdu[1]));
    assert pdu == [pdu[0]] + [pdu[1]];
  }

  /** Every byte string the response decoder accepts is the encoding of what it decodes to. */
  lemma {:induction false} ResponseRead(pdu: Bytes)
    requires DecodeResponse(pdu).Ok?
    ensures EncodeResponse(DecodeResponse(pdu).value) == Ok(pdu) && DecodeResponse(pdu).value.Canonical()
  {
    hide ResponseFields;
    hide ResponseBody;
    if pdu[0] >= 0x80 {
      ExceptionRead(pdu);
    } else {
      var code := Codes.DecodeFunction(pdu[0]).value;
      Codes.FunctionRoundTrip(pdu[0], code);
      ResponseBodyRead(code, pdu[1..]);
      var p := DecodeResponse(pdu).value;
      assert ResponseFields(p).value + [] == ResponseFields(p).value;
      assert pdu == [pdu[0]] + pdu[1..];
    }
  }

  /** No two canonical responses share an encoding. */
  lemma {:induction false} ResponseInjective(p: ResponsePdu, q: ResponsePdu)
    requires p.Canonical() && q.Canonical()
    requires EncodeResponse(p).Ok? && EncodeResponse(p) == EncodeResponse(q)
    ensures p == q
  {
    ResponseWritten(p);
    ResponseWritten(q);
  }

  // ---- Bounds every framing relies on ----

  /** A single coil is padded to a byte on the wire, so it comes back as eight: the condition is not empty. */
  lemma {:induction false} PaddingIsNotDropped()
    ensures var p := ResponsePdu.ReadCoils([true]);
            EncodeResponse(p).Ok? && DecodeResponse(EncodeResponse(p).value) != Ok(p)
  {
    var p := ResponsePdu.ReadCoils([true]);
    assert |PackBits([true])| == PackedLen(1) == 1;
    hide PackBits;
    ResponseWritten(p);
  }

  /** An unnamed MEI body that carries a named type encodes, and comes back as something else. */
  lemma {:induction false} NamedTypeIsReread(data: Bytes)
    requires |data| <= 251
    ensures var p := RequestPdu.EncapsulatedInterfaceTransport(OtherRequest(CANOPEN, data));
            EncodeRequest(p).Ok? && DecodeRequest(EncodeRequest(p).value) != Ok(p)
  {
    RequestWritten(RequestPdu.EncapsulatedInterfaceTransport(OtherRequest(CANOPEN, data)));
  }

  lemma {:induction false} EncodedRequestBounds(p: RequestPdu)
    requires EncodeRequest(p).Ok?
    ensures 1 <= |EncodeRequest(p).value| <= MAX_PDU_LEN
  {
  }

  lemma {:induction false} EncodedResponseBounds(p: ResponsePdu)
    requires EncodeResponse(p).Ok?
    ensures 1 <= |EncodeResponse(p).value| <= MAX_PDU_LEN
  {
  }
}
