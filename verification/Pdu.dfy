/** Request and response PDUs: what each layout carries and how it decodes (src/frame/pdu.rs). */
module Pdu {
  import opened Basics
  import opened Bits
  import opened Parsing
  import opened FileRecords
  import opened Mei
  import Codes

  const MAX_PDU_LEN := 253
  const COIL_ON: Word := 0xFF00
  const COIL_OFF: Word := 0x0000
  const MAX_READ_BITS := 2000
  const MAX_READ_REGISTERS := 125
  const MAX_WRITE_BITS := 1968
  const MAX_WRITE_REGISTERS := 123
  const MAX_RW_WRITE_REGISTERS := 121
  const MAX_FIFO_COUNT := 31
  const EVENT_LOG_FIXED_BYTES := 6
  const MAX_EVENT_BYTES := 64

  datatype RequestPdu =
    | ReadCoils(address: Word, quantity: Word)
    | ReadDiscreteInputs(address: Word, quantity: Word)
    | ReadHoldingRegisters(address: Word, quantity: Word)
    | ReadInputRegisters(address: Word, quantity: Word)
    | WriteSingleCoil(address: Word, on: bool)
    | WriteSingleRegister(address: Word, value: Word)
    | WriteMultipleCoils(address: Word, coils: seq<bool>)
    | WriteMultipleRegisters(address: Word, registers: seq<Word>)
    | MaskWriteRegister(address: Word, andMask: Word, orMask: Word)
    | ReadWriteMultipleRegisters(readAddress: Word, readQuantity: Word, writeAddress: Word, registers: seq<Word>)
    | ReadExceptionStatus
    | Diagnostics(subFunction: Codes.DiagnosticSubFunction, words: seq<Word>)
    | GetCommEventCounter
    | GetCommEventLog
    | ReportServerId
    | ReadFileRecord(readRecords: seq<FileRecordRead>)
    | WriteFileRecord(writeRecords: seq<FileRecordWrite>)
    | ReadFifoQueue(address: Word)
    | EncapsulatedInterfaceTransport(mei: MeiRequest)
    | Custom(code: Byte, data: Bytes)
  {
    function Function(): Codes.FunctionCode {
      match this
      case ReadCoils(_, _) => Codes.ReadCoils
      case ReadDiscreteInputs(_, _) => Codes.ReadDiscreteInputs
      case ReadHoldingRegisters(_, _) => Codes.ReadHoldingRegisters
      case ReadInputRegisters(_, _) => Codes.ReadInputRegisters
      case WriteSingleCoil(_, _) => Codes.WriteSingleCoil
      case WriteSingleRegister(_, _) => Codes.WriteSingleRegister
      case WriteMultipleCoils(_, _) => Codes.WriteMultipleCoils
      case WriteMultipleRegisters(_, _) => Codes.WriteMultipleRegisters
      case MaskWriteRegister(_, _, _) => Codes.MaskWriteRegister
      case ReadWriteMultipleRegisters(_, _, _, _) => Codes.ReadWriteMultipleRegisters
      case ReadExceptionStatus => Codes.ReadExceptionStatus
      case Diagnostics(_, _) => Codes.Diagnostics
      case GetCommEventCounter => Codes.GetCommEventCounter
      case GetCommEventLog => Codes.GetCommEventLog
      case ReportServerId => Codes.ReportServerId
      case ReadFileRecord(_) => Codes.ReadFileRecord
      case WriteFileRecord(_) => Codes.WriteFileRecord
      case ReadFifoQueue(_) => Codes.ReadFifoQueue
      case EncapsulatedInterfaceTransport(_) => Codes.EncapsulatedInterfaceTransport
      case Custom(code, _) => Codes.Custom(code)
    }

    predicate Canonical() {
      EncapsulatedInterfaceTransport? ==> CanonicalMeiRequest(mei)
    }
  }

  datatype ResponsePdu =
    | ReadCoils(coils: seq<bool>)
    | ReadDiscreteInputs(inputs: seq<bool>)
    | ReadHoldingRegisters(registers: seq<Word>)
    | ReadInputRegisters(registers: seq<Word>)
    | WriteSingleCoil(address: Word, on: bool)
    | WriteSingleRegister(address: Word, value: Word)
    | WriteMultipleCoils(address: Word, quantity: Word)
    | WriteMultipleRegisters(address: Word, quantity: Word)
    | MaskWriteRegister(address: Word, andMask: Word, orMask: Word)
    | ReadWriteMultipleRegisters(registers: seq<Word>)
    | ReadExceptionStatus(outputs: Byte)
    | Diagnostics(subFunction: Codes.DiagnosticSubFunction, words: seq<Word>)
    | GetCommEventCounter(status: Word, eventCount: Word)
    | GetCommEventLog(status: Word, eventCount: Word, messageCount: Word, events: Bytes)
    | ReportServerId(data: Bytes)
    | ReadFileRecord(readRecords: seq<FileRecordReadResponse>)
    | WriteFileRecord(writeRecords: seq<FileRecordWrite>)
    | ReadFifoQueue(values: seq<Word>)
    | EncapsulatedInterfaceTransport(mei: MeiResponse)
    | Custom(code: Byte, data: Bytes)
    | Exception(of: Codes.FunctionCode, exception: Codes.ExceptionCode)
  {
    function Function(): Codes.FunctionCode {
      match this
      case ReadCoils(_) => Codes.ReadCoils
      case ReadDiscreteInputs(_) => Codes.ReadDiscreteInputs
      case ReadHoldingRegisters(_) => Codes.ReadHoldingRegisters
      case ReadInputRegisters(_) => Codes.ReadInputRegisters
      case WriteSingleCoil(_, _) => Codes.WriteSingleCoil
      case WriteSingleRegister(_, _) => Codes.WriteSingleRegister
      case WriteMultipleCoils(_, _) => Codes.WriteMultipleCoils
      case WriteMultipleRegisters(_, _) => Codes.WriteMultipleRegisters
      case MaskWriteRegister(_, _, _) => Codes.MaskWriteRegister
      case ReadWriteMultipleRegisters(_) => Codes.ReadWriteMultipleRegisters
      case ReadExceptionStatus(_) => Codes.ReadExceptionStatus
      case Diagnostics(_, _) => Codes.Diagnostics
      case GetCommEventCounter(_, _) => Codes.GetCommEventCounter
      case GetCommEventLog(_, _, _, _) => Codes.GetCommEventLog
      case ReportServerId(_) => Codes.ReportServerId
      case ReadFileRecord(_) => Codes.ReadFileRecord
      case WriteFileRecord(_) => Codes.WriteFileRecord
      case ReadFifoQueue(_) => Codes.ReadFifoQueue
      case EncapsulatedInterfaceTransport(_) => Codes.EncapsulatedInterfaceTransport
      case Custom(code, _) => Codes.Custom(code)
      case Exception(of, _) => of
    }

    /** Bit reads hold whole bytes, and an unnamed MEI body does not carry a named type. */
    predicate Canonical() {
      && (ReadCoils? ==> |coils| % 8 == 0)
      && (ReadDiscreteInputs? ==> |inputs| % 8 == 0)
      && (EncapsulatedInterfaceTransport? ==> CanonicalMeiResponse(mei))
    }
  }

  // ---- Shared layouts ----

  function WordPair(s: Bytes): Parsed<(Word, Word)> {
    var (a, s0) :- U16(s);
    var (b, s1) :- U16(s0);
    Got((a, b), s1)
  }

  function WordTriple(s: Bytes): Parsed<(Word, Word, Word)> {
    var (a, s0) :- U16(s);
    var (b, s1) :- U16(s0);
    var (c, s2) :- U16(s1);
    Got((a, b, c), s2)
  }

  /** `read_request`. */
  function ReadRequest(s: Bytes, max: nat): Parsed<(Word, Word)> {
    var (p, rest) :- WordPair(s);
    if !(1 <= p.1 <= max) then Bad(OutOfRange) else Got(p, rest)
  }

  /** `single_coil`. */
  function SingleCoil(s: Bytes): Parsed<(Word, bool)> {
    var (p, rest) :- WordPair(s);
    if p.1 == COIL_ON then Got((p.0, true), rest)
    else if p.1 == COIL_OFF then Got((p.0, false), rest)
    else Bad(IllegalValue)
  }

  /** Bytes `quantity` bits, or else registers, occupy. */
  function Width(bits: bool, quantity: nat): nat {
    if bits then PackedLen(quantity) else 2 * quantity
  }

  /** `quantified_bytes`. */
  function Quantified(s: Bytes, max: nat, bits: bool): Parsed<(Word, Bytes)> {
    var (quantity, s0) :- U16(s);
    if !(1 <= quantity <= max) then Bad(OutOfRange)
    else
      var (count, s1) :- U8(s0);
      var expected := Width(bits, quantity);
      if count != expected || |s1| < expected then Bad(ByteCountMismatch)
      else
        var (data, s2) :- Take(s1, expected);
        Got((quantity, data), s2)
  }

  /** `packed_bits`: exactly `quantity` bits, the padding above them clear. */
  function PackedBits(data: Bytes, quantity: nat): Result<seq<bool>>
    requires quantity <= 8 * |data|
  {
    if AllClear(AllBits(data)[quantity..]) then Ok(AllBits(data)[..quantity]) else Err(IllegalValue)
  }

  /** `counted_bytes`: a byte count and exactly that many bytes, which end the PDU. */
  function Counted(s: Bytes): Parsed<Bytes> {
    var (count, s0) :- U8(s);
    if |s0| != count then Bad(ByteCountMismatch) else Take(s0, count)
  }

  /** `registers`. */
  function Registers(s: Bytes): Parsed<seq<Word>> {
    var (data, rest) :- Counted(s);
    if |data| % 2 != 0 then Bad(IllegalValue) else Got(WordsOf(data), rest)
  }

  /** `diagnostic_body`. */
  function DiagnosticBody(s: Bytes): Parsed<(Codes.DiagnosticSubFunction, seq<Word>)> {
    var (raw, data) :- U16(s);
    if |data| % 2 != 0 then Bad(IllegalValue) else Got((Codes.DecodeSubFunction(raw), WordsOf(data)), [])
  }

  /** `fifo_values`. */
  function FifoValues(s: Bytes): Parsed<seq<Word>> {
    var (byteCount, s0) :- U16(s);
    var (count, s1) :- U16(s0);
    if count > MAX_FIFO_COUNT then Bad(OutOfRange)
    else if byteCount != count * 2 + 2 then Bad(ByteCountMismatch)
    else
      var (data, s2) :- Take(s1, 2 * (count as nat));
      Got(WordsOf(data), s2)
  }

  function EventLog(s: Bytes): Parsed<ResponsePdu> {
    var (byteCount, s0) :- U8(s);
    if !(EVENT_LOG_FIXED_BYTES <= byteCount <= EVENT_LOG_FIXED_BYTES + MAX_EVENT_BYTES) then Bad(OutOfRange)
    else
      var (status, s1) :- U16(s0);
      var (eventCount, s2) :- U16(s1);
      var (messageCount, s3) :- U16(s2);
      var (events, s4) :- Take(s3, byteCount - EVENT_LOG_FIXED_BYTES);
      Got(ResponsePdu.GetCommEventLog(status, eventCount, messageCount, events), s4)
  }

  function WriteCoilsBody(s: Bytes): Parsed<RequestPdu> {
    var (address, s0) :- U16(s);
    var (q, s1) :- Quantified(s0, MAX_WRITE_BITS, true);
    var (coils, s2) :- Lift(PackedBits(q.1, q.0), s1);
    Got(RequestPdu.WriteMultipleCoils(address, coils), s2)
  }

  function WriteRegistersBody(s: Bytes): Parsed<RequestPdu> {
    var (address, s0) :- U16(s);
    var (q, s1) :- Quantified(s0, MAX_WRITE_REGISTERS, false);
    Got(RequestPdu.WriteMultipleRegisters(address, WordsOf(q.1)), s1)
  }

  function ReadWriteBody(s: Bytes): Parsed<RequestPdu> {
    var (p, s0) :- ReadRequest(s, MAX_READ_REGISTERS);
    var (writeAddress, s1) :- U16(s0);
    var (q, s2) :- Quantified(s1, MAX_RW_WRITE_REGISTERS, false);
    Got(RequestPdu.ReadWriteMultipleRegisters(p.0, p.1, writeAddress, WordsOf(q.1)), s2)
  }

  // ---- Decoding ----

  /** The request body behind a function code. */
  function RequestBody(code: Codes.FunctionCode, s: Bytes): Parsed<RequestPdu> {
    match code
    case ReadCoils =>
      var (p, rest) :- ReadRequest(s, MAX_READ_BITS);
      Got(RequestPdu.ReadCoils(p.0, p.1), rest)
    case ReadDiscreteInputs =>
      var (p, rest) :- ReadRequest(s, MAX_READ_BITS);
      Got(RequestPdu.ReadDiscreteInputs(p.0, p.1), rest)
    case ReadHoldingRegisters =>
      var (p, rest) :- ReadRequest(s, MAX_READ_REGISTERS);
      Got(RequestPdu.ReadHoldingRegisters(p.0, p.1), rest)
    case ReadInputRegisters =>
      var (p, rest) :- ReadRequest(s, MAX_READ_REGISTERS);
      Got(RequestPdu.ReadInputRegisters(p.0, p.1), rest)
    case WriteSingleCoil =>
      var (p, rest) :- SingleCoil(s);
      Got(RequestPdu.WriteSingleCoil(p.0, p.1), rest)
    case WriteSingleRegister =>
      var (p, rest) :- WordPair(s);
      Got(RequestPdu.WriteSingleRegister(p.0, p.1), rest)
    case WriteMultipleCoils => WriteCoilsBody(s)
    case WriteMultipleRegisters => WriteRegistersBody(s)
    case MaskWriteRegister =>
      var (p, rest) :- WordTriple(s);
      Got(RequestPdu.MaskWriteRegister(p.0, p.1, p.2), rest)
    case ReadWriteMultipleRegisters => ReadWriteBody(s)
    case ReadExceptionStatus => Got(RequestPdu.ReadExceptionStatus, s)
    case Diagnostics =>
      var (d, rest) :- DiagnosticBody(s);
      Got(RequestPdu.Diagnostics(d.0, d.1), rest)
    case GetCommEventCounter => Got(RequestPdu.GetCommEventCounter, s)
    case GetCommEventLog => Got(RequestPdu.GetCommEventLog, s)
    case ReportServerId => Got(RequestPdu.ReportServerId, s)
    case ReadFileRecord =>
      var (records, rest) :- DecodeReads(s);
      Got(RequestPdu.ReadFileRecord(records), rest)
    case WriteFileRecord =>
      var (records, rest) :- DecodeWrites(s);
      Got(RequestPdu.WriteFileRecord(records), rest)
    case ReadFifoQueue =>
      var (address, rest) :- U16(s);
      Got(RequestPdu.ReadFifoQueue(address), rest)
    case EncapsulatedInterfaceTransport =>
      var (mei, rest) :- DecodeMeiRequest(s);
      Got(RequestPdu.EncapsulatedInterfaceTransport(mei), rest)
    case Custom(code) => Got(RequestPdu.Custom(code, s), [])
  }

  /** `RequestPdu::decode`. */
  function DecodeRequest(pdu: Bytes): Result<RequestPdu> {
    if |pdu| > MAX_PDU_LEN then Err(PduTooLarge)
    else if pdu == [] then Err(Truncated)
    else
      var code :- Codes.DecodeFunction(pdu[0]);
      RequestBody(code, pdu[1..]).Finished()
  }

  /** The response body behind a function code. */
  function ResponseBody(code: Codes.FunctionCode, s: Bytes): Parsed<ResponsePdu> {
    match code
    case ReadCoils =>
      var (data, rest) :- Counted(s);
      Got(ResponsePdu.ReadCoils(AllBits(data)), rest)
    case ReadDiscreteInputs =>
      var (data, rest) :- Counted(s);
      Got(ResponsePdu.ReadDiscreteInputs(AllBits(data)), rest)
    case ReadHoldingRegisters =>
      var (registers, rest) :- Registers(s);
      Got(ResponsePdu.ReadHoldingRegisters(registers), rest)
    case ReadInputRegisters =>
      var (registers, rest) :- Registers(s);
      Got(ResponsePdu.ReadInputRegisters(registers), rest)
    case WriteSingleCoil =>
      var (p, rest) :- SingleCoil(s);
      Got(ResponsePdu.WriteSingleCoil(p.0, p.1), rest)
    case WriteSingleRegister =>
      var (p, rest) :- WordPair(s);
      Got(ResponsePdu.WriteSingleRegister(p.0, p.1), rest)
    case WriteMultipleCoils =>
      var (p, rest) :- WordPair(s);
      Got(ResponsePdu.WriteMultipleCoils(p.0, p.1), rest)
    case WriteMultipleRegisters =>
      var (p, rest) :- WordPair(s);
      Got(ResponsePdu.WriteMultipleRegisters(p.0, p.1), rest)
    case MaskWriteRegister =>
      var (p, rest) :- WordTriple(s);
      Got(ResponsePdu.MaskWriteRegister(p.0, p.1, p.2), rest)
    case ReadWriteMultipleRegisters =>
      var (registers, rest) :- Registers(s);
      Got(ResponsePdu.ReadWriteMultipleRegisters(registers), rest)
    case ReadExceptionStatus =>
      var (outputs, rest) :- U8(s);
      Got(ResponsePdu.ReadExceptionStatus(outputs), rest)
    case Diagnostics =>
      var (d, rest) :- DiagnosticBody(s);
      Got(ResponsePdu.Diagnostics(d.0, d.1), rest)
    case GetCommEventCounter =>
      var (p, rest) :- WordPair(s);
      Got(ResponsePdu.GetCommEventCounter(p.0, p.1), rest)
    case GetCommEventLog => EventLog(s)
    case ReportServerId =>
      var (data, rest) :- Counted(s);
      Got(ResponsePdu.ReportServerId(data), rest)
    case ReadFileRecord =>
      var (records, rest) :- DecodeReadResponses(s);
      Got(ResponsePdu.ReadFileRecord(records), rest)
    case WriteFileRecord =>
      var (records, rest) :- DecodeWrites(s);
      Got(ResponsePdu.WriteFileRecord(records), rest)
    case ReadFifoQueue =>
      var (values, rest) :- FifoValues(s);
      Got(ResponsePdu.ReadFifoQueue(values), rest)
    case EncapsulatedInterfaceTransport =>
      var (mei, rest) :- DecodeMeiResponse(s);
      Got(ResponsePdu.EncapsulatedInterfaceTransport(mei), rest)
    case Custom(code) => Got(ResponsePdu.Custom(code, s), [])
  }

  /** `ExceptionResponse::decode`, reached only with the exception bit set. */
  function DecodeExceptionResponse(pdu: Bytes): Result<ResponsePdu> {
    if |pdu| != 2 then Err(InvalidLength)
    else if pdu[0] < 0x80 then Err(InvalidFunctionCode(pdu[0]))
    else
      var code :- Codes.DecodeFunction(pdu[0] - 0x80);
      Ok(Exception(code, Codes.DecodeException(pdu[1])))
  }

  /** `ResponsePdu::decode`. */
  function DecodeResponse(pdu: Bytes): Result<ResponsePdu> {
    if |pdu| > MAX_PDU_LEN then Err(PduTooLarge)
    else if pdu == [] then Err(Truncated)
    else if pdu[0] >= 0x80 then DecodeExceptionResponse(pdu)
    else
      var code :- Codes.DecodeFunction(pdu[0]);
      ResponseBody(code, pdu[1..]).Finished()
  }

  // ---- Encoding ----

  function CoilWord(on: bool): Word {
    if on then COIL_ON else COIL_OFF
  }

  /** An address, a quantity, a byte count and the data it counts. */
  function QuantifiedBytes(address: Word, quantity: nat, data: Bytes, max: nat): Result<Bytes>
    requires max <= 0xFFFF
  {
    if !(1 <= quantity <= max) then Err(OutOfRange)
    else if |data| > 255 then Err(PduTooLarge)
    else Ok(Be(address) + (Be(quantity) + ([|data|] + data)))
  }

  /** A byte count and the data it counts. */
  function CountedBytes(data: Bytes): Result<Bytes> {
    if |data| > 255 then Err(PduTooLarge) else Ok([|data|] + data)
  }

  function ReadBytes(address: Word, quantity: Word, max: nat): Result<Bytes> {
    if !(1 <= quantity <= max) then Err(OutOfRange) else Ok(Be(address) + Be(quantity))
  }

  function DiagnosticBytes(subFunction: Codes.DiagnosticSubFunction, words: seq<Word>): Result<Bytes> {
    var raw :- Codes.EncodeSubFunction(subFunction);
    Ok(Be(raw) + FromWords(words))
  }

  /** A read and a write, one after the other. */
  function ReadWriteBytes(readAddress: Word, readQuantity: Word, writeAddress: Word, registers: seq<Word>): Result<Bytes> {
    var read :- ReadBytes(readAddress, readQuantity, MAX_READ_REGISTERS);
    var write :- QuantifiedBytes(writeAddress, |registers|, FromWords(registers), MAX_RW_WRITE_REGISTERS);
    Ok(read + write)
  }

  function EventLogBytes(status: Word, eventCount: Word, messageCount: Word, events: Bytes): Result<Bytes> {
    if |events| > MAX_EVENT_BYTES then Err(OutOfRange)
    else Ok([EVENT_LOG_FIXED_BYTES + |events|] + (Be(status) + (Be(eventCount) + (Be(messageCount) + events))))
  }

  function FifoBytes(values: seq<Word>): Result<Bytes> {
    if |values| > MAX_FIFO_COUNT then Err(OutOfRange)
    else Ok(Be(2 * |values| + 2) + (Be(|values|) + FromWords(values)))
  }

  /** What follows a request's function code on the wire. */
  function RequestFields(p: RequestPdu): Result<Bytes> {
    match p
    case ReadCoils(address, quantity) => ReadBytes(address, quantity, MAX_READ_BITS)
    case ReadDiscreteInputs(address, quantity) => ReadBytes(address, quantity, MAX_READ_BITS)
    case ReadHoldingRegisters(address, quantity) => ReadBytes(address, quantity, MAX_READ_REGISTERS)
    case ReadInputRegisters(address, quantity) => ReadBytes(address, quantity, MAX_READ_REGISTERS)
    case WriteSingleCoil(address, on) => Ok(Be(address) + Be(CoilWord(on)))
    case WriteSingleRegister(address, value) => Ok(Be(address) + Be(value))
    case WriteMultipleCoils(address, coils) => QuantifiedBytes(address, |coils|, PackBits(coils), MAX_WRITE_BITS)
    case WriteMultipleRegisters(address, registers) =>
      QuantifiedBytes(address, |registers|, FromWords(registers), MAX_WRITE_REGISTERS)
    case MaskWriteRegister(address, andMask, orMask) => Ok(Be(address) + (Be(andMask) + Be(orMask)))
    case ReadWriteMultipleRegisters(readAddress, readQuantity, writeAddress, registers) =>
      ReadWriteBytes(readAddress, readQuantity, writeAddress, registers)
    case ReadExceptionStatus => Ok([])
    case Diagnostics(subFunction, words) => DiagnosticBytes(subFunction, words)
    case GetCommEventCounter => Ok([])
    case GetCommEventLog => Ok([])
    case ReportServerId => Ok([])
    case ReadFileRecord(records) => EncodeReads(records)
    case WriteFileRecord(records) => EncodeWrites(records)
    case ReadFifoQueue(address) => Ok(Be(address))
    case EncapsulatedInterfaceTransport(mei) => Ok(EncodeMeiRequest(mei))
    case Custom(_, data) => Ok(data)
  }

  /** What follows a response's function code on the wire; an exception response carries its code. */
  function ResponseFields(p: ResponsePdu): Result<Bytes> {
    match p
    case ReadCoils(coils) => CountedBytes(PackBits(coils))
    case ReadDiscreteInputs(inputs) => CountedBytes(PackBits(inputs))
    case ReadHoldingRegisters(registers) => CountedBytes(FromWords(registers))
    case ReadInputRegisters(registers) => CountedBytes(FromWords(registers))
    case WriteSingleCoil(address, on) => Ok(Be(address) + Be(CoilWord(on)))
    case WriteSingleRegister(address, value) => Ok(Be(address) + Be(value))
    case WriteMultipleCoils(address, quantity) => Ok(Be(address) + Be(quantity))
    case WriteMultipleRegisters(address, quantity) => Ok(Be(address) + Be(quantity))
    case MaskWriteRegister(address, andMask, orMask) => Ok(Be(address) + (Be(andMask) + Be(orMask)))
    case ReadWriteMultipleRegisters(registers) => CountedBytes(FromWords(registers))
    case ReadExceptionStatus(outputs) => Ok([outputs])
    case Diagnostics(subFunction, words) => DiagnosticBytes(subFunction, words)
    case GetCommEventCounter(status, eventCount) => Ok(Be(status) + Be(eventCount))
    case GetCommEventLog(status, eventCount, messageCount, events) =>
      EventLogBytes(status, eventCount, messageCount, events)
    case ReportServerId(data) => CountedBytes(data)
    case ReadFileRecord(records) => EncodeReadResponses(records)
    case WriteFileRecord(records) => EncodeWrites(records)
    case ReadFifoQueue(values) => FifoBytes(values)
    case EncapsulatedInterfaceTransport(mei) => EncodeMeiResponse(mei)
    case Custom(_, data) => Ok(data)
    case Exception(_, exception) =>
      var raw :- Codes.EncodeException(exception);
      Ok([raw])
  }

  /** `finish`: nothing longer than a PDU may be emitted. */
  function Finish(pdu: Bytes): Result<Bytes> {
    if |pdu| > MAX_PDU_LEN then Err(PduTooLarge) else Ok(pdu)
  }

  /** `RequestPdu::encode`. */
  function EncodeRequest(p: RequestPdu): Result<Bytes> {
    var code :- Codes.EncodeFunction(p.Function());
    var fields :- RequestFields(p);
    Finish([code] + fields)
  }

  /** `ResponsePdu::encode`. */
  function EncodeResponse(p: ResponsePdu): Result<Bytes> {
    var code :- Codes.EncodeFunction(p.Function());
    var fields :- ResponseFields(p);
    if p.Exception? then EncodeFunctionBound(p.Function()); Ok([0x80 + code] + fields)
    else Finish([code] + fields)
  }

  lemma {:induction false} EncodeFunctionBound(f: Codes.FunctionCode)
    ensures Codes.EncodeFunction(f).Ok? ==> 1 <= Codes.EncodeFunction(f).value < 0x80
  {
  }
}
