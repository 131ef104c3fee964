/** The decoders as they run: one cursor advanced through the PDU (src/frame/{pdu,file,mei}.rs). */
module PduDecoder {
  import opened Basics
  import opened Bits
  import opened Parsing
  import opened Items
  import opened FileRecords
  import opened Mei
  import opened Pdu
  import Codes

  method NextReadRequest(input: Input, max: nat) returns (r: Result<(Word, Word)>)
    modifies input
    ensures Agrees(ReadRequest(old(input.rest), max), r, input.rest)
  {
    var address :- input.NextU16();
    var quantity :- input.NextU16();
    if !(1 <= quantity <= max) {
      return Err(OutOfRange);
    }
    r := Ok((address, quantity));
  }

  method NextSingleCoil(input: Input) returns (r: Result<(Word, bool)>)
    modifies input
    ensures Agrees(SingleCoil(old(input.rest)), r, input.rest)
  {
    var address :- input.NextU16();
    var raw :- input.NextU16();
    if raw == COIL_ON {
      return Ok((address, true));
    }
    if raw == COIL_OFF {
      return Ok((address, false));
    }
    r := Err(IllegalValue);
  }

  method NextQuantified(input: Input, max: nat, bits: bool) returns (r: Result<(Word, Bytes)>)
    modifies input
    ensures Agrees(Quantified(old(input.rest), max, bits), r, input.rest)
  {
    var quantity :- input.NextU16();
    if !(1 <= quantity <= max) {
      return Err(OutOfRange);
    }
    var expected := Width(bits, quantity);
    var count :- input.NextU8();
    if count != expected {
      return Err(ByteCountMismatch);
    }
    if |input.rest| < expected {
      return Err(ByteCountMismatch);
    }
    var data := input.NextTake(expected);
    r := Ok((quantity, data.value));
  }

  method NextCounted(input: Input) returns (r: Result<Bytes>)
    modifies input
    ensures Agrees(Counted(old(input.rest)), r, input.rest)
  {
    var count :- input.NextU8();
    if |input.rest| != count {
      return Err(ByteCountMismatch);
    }
    r := input.NextTake(count);
  }

  method NextRegisters(input: Input) returns (r: Result<seq<Word>>)
    modifies input
    ensures Agrees(Registers(old(input.rest)), r, input.rest)
  {
    var data :- NextCounted(input);
    if |data| % 2 != 0 {
      return Err(IllegalValue);
    }
    r := Ok(WordsOf(data));
  }

  method NextDiagnostic(input: Input) returns (r: Result<(Codes.DiagnosticSubFunction, seq<Word>)>)
    modifies input
    ensures Agrees(DiagnosticBody(old(input.rest)), r, input.rest)
  {
    var raw :- input.NextU16();
    var data := input.TakeRest();
    if |data| % 2 != 0 {
      return Err(IllegalValue);
    }
    r := Ok((Codes.DecodeSubFunction(raw), WordsOf(data)));
  }

  method NextFifo(input: Input) returns (r: Result<seq<Word>>)
    modifies input
    ensures Agrees(FifoValues(old(input.rest)), r, input.rest)
  {
    var byteCount :- input.NextU16();
    var count :- input.NextU16();
    if count > MAX_FIFO_COUNT {
      return Err(OutOfRange);
    }
    if byteCount != count * 2 + 2 {
      return Err(ByteCountMismatch);
    }
    var data :- input.NextTake(2 * (count as nat));
    r := Ok(WordsOf(data));
  }

  method NextEventLog(input: Input) returns (r: Result<ResponsePdu>)
    modifies input
    ensures Agrees(EventLog(old(input.rest)), r, input.rest)
  {
    hide FromBe;
    var byteCount :- input.NextU8();
    if !(EVENT_LOG_FIXED_BYTES <= byteCount <= EVENT_LOG_FIXED_BYTES + MAX_EVENT_BYTES) {
      return Err(OutOfRange);
    }
    var status :- input.NextU16();
    var eventCount :- input.NextU16();
    var messageCount :- input.NextU16();
    var events :- input.NextTake(byteCount - EVENT_LOG_FIXED_BYTES);
    r := Ok(ResponsePdu.GetCommEventLog(status, eventCount, messageCount, events));
  }

  /** `region` followed by `run_all`. */
  method NextBody<T(!new)>(input: Input, parse: Bytes -> Parsed<T>, min: nat, max: nat, multiple: nat)
    returns (r: Result<seq<T>>)
    requires multiple > 0 && Progress(parse)
    modifies input
    ensures Agrees(ParseBody(parse, old(input.rest), min, max, multiple), r, input.rest)
  {
    var length :- input.NextU8();
    if !(min <= length <= max) {
      return Err(OutOfRange);
    }
    if length % multiple != 0 {
      return Err(IllegalValue);
    }
    var region :- input.NextTake(length);
    r := ParseLoop(parse, region);
  }

  method NextMeiRequest(input: Input) returns (r: Result<MeiRequest>)
    modifies input
    ensures Agrees(DecodeMeiRequest(old(input.rest)), r, input.rest)
  {
    var meiType :- input.NextU8();
    if meiType == CANOPEN {
      var data := input.TakeRest();
      return Ok(CanOpenRequest(data));
    }
    if meiType == READ_DEVICE_ID {
      var raw :- input.NextU8();
      var code :- DecodeIdCode(raw);
      var objectId :- input.NextU8();
      return Ok(ReadDeviceIdentification(code, objectId));
    }
    var data := input.TakeRest();
    r := Ok(OtherRequest(meiType, data));
  }

  method NextIdentification(input: Input) returns (r: Result<MeiResponse>)
    modifies input
    ensures Agrees(DecodeIdentification(old(input.rest)), r, input.rest)
  {
    var raw :- input.NextU8();
    var code :- DecodeIdCode(raw);
    var level :- input.NextU8();
    var more :- input.NextU8();
    var moreFollows :- DecodeMoreFollows(more);
    var next :- input.NextU8();
    var count :- input.NextU8();
    var body := input.TakeRest();
    ObjectInverse();
    var objects :- ParseLoop(ParseObject, body);
    if |objects| != count {
      return Err(ByteCountMismatch);
    }
    r := Ok(DeviceIdentification(code, level, moreFollows, next, objects));
  }

  method NextMeiResponse(input: Input) returns (r: Result<MeiResponse>)
    modifies input
    ensures Agrees(DecodeMeiResponse(old(input.rest)), r, input.rest)
  {
    var meiType :- input.NextU8();
    if meiType == CANOPEN {
      var data := input.TakeRest();
      return Ok(CanOpenResponse(data));
    }
    if meiType == READ_DEVICE_ID {
      r := NextIdentification(input);
      return;
    }
    var data := input.TakeRest();
    r := Ok(OtherResponse(meiType, data));
  }

  method NextRequestBody(input: Input, code: Codes.FunctionCode) returns (r: Result<RequestPdu>)
    modifies input
    ensures Agrees(RequestBody(code, old(input.rest)), r, input.rest)
  {
    hide U16;
    hide ReadRequest;
    hide SingleCoil;
    hide Quantified;
    hide DiagnosticBody;
    hide DecodeMeiRequest;
    hide PackedBits;
    hide WordsOf;
    match code
    case ReadCoils =>
      var p :- NextReadRequest(input, MAX_READ_BITS);
      r := Ok(RequestPdu.ReadCoils(p.0, p.1));
    case ReadDiscreteInputs =>
      var p :- NextReadRequest(input, MAX_READ_BITS);
      r := Ok(RequestPdu.ReadDiscreteInputs(p.0, p.1));
    case ReadHoldingRegisters =>
      var p :- NextReadRequest(input, MAX_READ_REGISTERS);
      r := Ok(RequestPdu.ReadHoldingRegisters(p.0, p.1));
    case ReadInputRegisters =>
      var p :- NextReadRequest(input, MAX_READ_REGISTERS);
      r := Ok(RequestPdu.ReadInputRegisters(p.0, p.1));
    case WriteSingleCoil =>
      var p :- NextSingleCoil(input);
      r := Ok(RequestPdu.WriteSingleCoil(p.0, p.1));
    case WriteSingleRegister =>
      var address :- input.NextU16();
      var value :- input.NextU16();
      r := Ok(RequestPdu.WriteSingleRegister(address, value));
    case WriteMultipleCoils =>
      r := NextWriteCoils(input);
    case WriteMultipleRegisters =>
      r := NextWriteRegisters(input);
    case MaskWriteRegister =>
      var address :- input.NextU16();
      var andMask :- input.NextU16();
      var orMask :- input.NextU16();
      r := Ok(RequestPdu.MaskWriteRegister(address, andMask, orMask));
    case ReadWriteMultipleRegisters =>
      r := NextReadWrite(input);
    case ReadExceptionStatus => r := Ok(RequestPdu.ReadExceptionStatus);
    case Diagnostics =>
      var d :- NextDiagnostic(input);
      r := Ok(RequestPdu.Diagnostics(d.0, d.1));
    case GetCommEventCounter => r := Ok(RequestPdu.GetCommEventCounter);
    case GetCommEventLog => r := Ok(RequestPdu.GetCommEventLog);
    case ReportServerId => r := Ok(RequestPdu.ReportServerId);
    case ReadFileRecord =>
      ReadInverse();
      var records :- NextBody(input, ParseRead, 7, 245, 7);
      r := Ok(RequestPdu.ReadFileRecord(records));
    case WriteFileRecord =>
      WriteInverse();
      var records :- NextBody(input, ParseWrite, 9, 251, 1);
      r := Ok(RequestPdu.WriteFileRecord(records));
    case ReadFifoQueue =>
      var address :- input.NextU16();
      r := Ok(RequestPdu.ReadFifoQueue(address));
    case EncapsulatedInterfaceTransport =>
      var mei :- NextMeiRequest(input);
      r := Ok(RequestPdu.EncapsulatedInterfaceTransport(mei));
    case Custom(raw) =>
      var data := input.TakeRest();
      r := Ok(RequestPdu.Custom(raw, data));
  }

  method NextWriteCoils(input: Input) returns (r: Result<RequestPdu>)
    modifies input
    ensures Agrees(WriteCoilsBody(old(input.rest)), r, input.rest)
  {
    var address :- input.NextU16();
    var q :- NextQuantified(input, MAX_WRITE_BITS, true);
    var coils :- PackedBits(q.1, q.0);
    r := Ok(RequestPdu.WriteMultipleCoils(address, coils));
  }

  method NextWriteRegisters(input: Input) returns (r: Result<RequestPdu>)
    modifies input
    ensures Agrees(WriteRegistersBody(old(input.rest)), r, input.rest)
  {
    var address :- input.NextU16();
    var q :- NextQuantified(input, MAX_WRITE_REGISTERS, false);
    r := Ok(RequestPdu.WriteMultipleRegisters(address, WordsOf(q.1)));
  }

  method NextReadWrite(input: Input) returns (r: Result<RequestPdu>)
    modifies input
    ensures Agrees(ReadWriteBody(old(input.rest)), r, input.rest)
  {
    var p :- NextReadRequest(input, MAX_READ_REGISTERS);
    var writeAddress :- input.NextU16();
    var q :- NextQuantified(input, MAX_RW_WRITE_REGISTERS, false);
    r := Ok(RequestPdu.ReadWriteMultipleRegisters(p.0, p.1, writeAddress, WordsOf(q.1)));
  }

  /** `RequestPdu::decode`. */
  method DecodeRequestPdu(pdu: Bytes) returns (r: Result<RequestPdu>)
    ensures r == DecodeRequest(pdu)
  {
    hide RequestBody;
    if |pdu| > MAX_PDU_LEN {
      return Err(PduTooLarge);
    }
    var input := new Input(pdu);
    var byte :- input.NextU8();
    var code :- Codes.DecodeFunction(byte);
    var request :- NextRequestBody(input, code);
    if input.rest != [] {
      return Err(TrailingBytes);
    }
    r := Ok(request);
  }

  method NextResponseBody(input: Input, code: Codes.FunctionCode) returns (r: Result<ResponsePdu>)
    modifies input
    ensures Agrees(ResponseBody(code, old(input.rest)), r, input.rest)
  {
    hide U16;
    hide SingleCoil;
    hide Counted;
    hide Registers;
    hide DiagnosticBody;
    hide FifoValues;
    hide EventLog;
    hide DecodeMeiResponse;
    hide AllBits;
    match code
    case ReadCoils =>
      var data :- NextCounted(input);
      r := Ok(ResponsePdu.ReadCoils(AllBits(data)));
    case ReadDiscreteInputs =>
      var data :- NextCounted(input);
      r := Ok(ResponsePdu.ReadDiscreteInputs(AllBits(data)));
    case ReadHoldingRegisters =>
      var registers :- NextRegisters(input);
      r := Ok(ResponsePdu.ReadHoldingRegisters(registers));
    case ReadInputRegisters =>
      var registers :- NextRegisters(input);
      r := Ok(ResponsePdu.ReadInputRegisters(registers));
    case WriteSingleCoil =>
      var p :- NextSingleCoil(input);
      r := Ok(ResponsePdu.WriteSingleCoil(p.0, p.1));
    case WriteSingleRegister =>
      var address :- input.NextU16();
      var value :- input.NextU16();
      r := Ok(ResponsePdu.WriteSingleRegister(address, value));
    case WriteMultipleCoils =>
      var address :- input.NextU16();
      var quantity :- input.NextU16();
      r := Ok(ResponsePdu.WriteMultipleCoils(address, quantity));
    case WriteMultipleRegisters =>
      var address :- input.NextU16();
      var quantity :- input.NextU16();
      r := Ok(ResponsePdu.WriteMultipleRegisters(address, quantity));
    case MaskWriteRegister =>
      var address :- input.NextU16();
      var andMask :- input.NextU16();
      var orMask :- input.NextU16();
      r := Ok(ResponsePdu.MaskWriteRegister(address, andMask, orMask));
    case ReadWriteMultipleRegisters =>
      var registers :- NextRegisters(input);
      r := Ok(ResponsePdu.ReadWriteMultipleRegisters(registers));
    case ReadExceptionStatus =>
      var outputs :- input.NextU8();
      r := Ok(ResponsePdu.ReadExceptionStatus(outputs));
    case Diagnostics =>
      var d :- NextDiagnostic(input);
      r := Ok(ResponsePdu.Diagnostics(d.0, d.1));
    case GetCommEventCounter =>
      var status :- input.NextU16();
      var eventCount :- input.NextU16();
      r := Ok(ResponsePdu.GetCommEventCounter(status, eventCount));
    case GetCommEventLog => r := NextEventLog(input);
    case ReportServerId =>
      var data :- NextCounted(input);
      r := Ok(ResponsePdu.ReportServerId(data));
    case ReadFileRecord =>
      ReadResponseInverse();
      var records :- NextBody(input, ParseReadResponse, 7, 245, 1);
      r := Ok(ResponsePdu.ReadFileRecord(records));
    case WriteFileRecord =>
      WriteInverse();
      var records :- NextBody(input, ParseWrite, 9, 251, 1);
      r := Ok(ResponsePdu.WriteFileRecord(records));
    case ReadFifoQueue =>
      var values :- NextFifo(input);
      r := Ok(ResponsePdu.ReadFifoQueue(values));
    case EncapsulatedInterfaceTransport =>
      var mei :- NextMeiResponse(input);
      r := Ok(ResponsePdu.EncapsulatedInterfaceTransport(mei));
    case Custom(raw) =>
      var data := input.TakeRest();
      r := Ok(ResponsePdu.Custom(raw, data));
  }

  /** `ResponsePdu::decode`. */
  method DecodeResponsePdu(pdu: Bytes) returns (r: Result<ResponsePdu>)
    ensures r == DecodeResponse(pdu)
  {
    hide ResponseBody;
    if |pdu| > MAX_PDU_LEN {
      return Err(PduTooLarge);
    }
    if |pdu| > 0 && pdu[0] >= 0x80 {
      return DecodeExceptionResponse(pdu);
    }
    var input := new Input(pdu);
    var byte :- input.NextU8();
    var code :- Codes.DecodeFunction(byte);
    var response :- NextResponseBody(input, code);
    if input.rest != [] {
      return Err(TrailingBytes);
    }
    r := Ok(response);
  }
}
