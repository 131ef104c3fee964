/**
 * The PDU formats of sections 6 and 7 of MODBUS Application Protocol V1.1b3 as byte positions and literal values, apart
 * from any encoder or decoder: which PDUs can be sent at all, and what stands where.
 */
module WireFormat {
  import opened Basics
  import opened FileRecords
  import opened Mei
  import opened Pdu
  import Codes

  // ---- What stands at a position ----

  /** A 16-bit number, its high byte first. */
  ghost predicate WordAt(s: Bytes, i: nat, w: nat) {
    i + 2 <= |s| && s[i] == w / 256 && s[i + 1] == w % 256
  }

  ghost predicate WordsAt(s: Bytes, i: nat, words: seq<Word>) {
    && i + 2 * |words| <= |s|
    && forall k :: 0 <= k < |words| ==> s[i + 2 * k] == words[k] / 256 && s[i + 2 * k + 1] == words[k] % 256
  }

  ghost predicate BytesAt(s: Bytes, i: nat, data: Bytes) {
    && i + |data| <= |s|
    && forall k :: 0 <= k < |data| ==> s[i + k] == data[k]
  }

  /** Bit `k` of a number: whether it is odd once halved `k` times. */
  predicate Bit(n: nat, k: nat) {
    if k == 0 then n % 2 == 1 else Bit(n / 2, k - 1)
  }

  /** The byte holds the eight bits from `from` on, clear where there are none. */
  ghost predicate HoldsBits(b: Byte, bits: seq<bool>, from: nat) {
    forall k :: 0 <= k < 8 ==> Bit(b, k) == (from + k < |bits| && bits[from + k])
  }

  /** Bits in as many bytes as they need: the first in bit 0 of the first byte, those above the last one clear. */
  ghost predicate BitsAt(s: Bytes, i: nat, bits: seq<bool>) {
    && i + (|bits| + 7) / 8 <= |s|
    && forall j :: 0 <= j < (|bits| + 7) / 8 ==> HoldsBits(s[i + j], bits, 8 * j)
  }

  // ---- Codes ----

  function FunctionByte(f: Codes.FunctionCode): Byte {
    match f
    case ReadCoils => 1
    case ReadDiscreteInputs => 2
    case ReadHoldingRegisters => 3
    case ReadInputRegisters => 4
    case WriteSingleCoil => 5
    case WriteSingleRegister => 6
    case ReadExceptionStatus => 7
    case Diagnostics => 8
    case GetCommEventCounter => 11
    case GetCommEventLog => 12
    case WriteMultipleCoils => 15
    case WriteMultipleRegisters => 16
    case ReportServerId => 17
    case ReadFileRecord => 20
    case WriteFileRecord => 21
    case MaskWriteRegister => 22
    case ReadWriteMultipleRegisters => 23
    case ReadFifoQueue => 24
    case EncapsulatedInterfaceTransport => 43
    case Custom(code) => code
  }

  predicate CustomLegal(code: Byte) {
    1 <= code <= 127 && code !in {1, 2, 3, 4, 5, 6, 7, 8, 11, 12, 15, 16, 17, 20, 21, 22, 23, 24, 43}
  }

  predicate FunctionLegal(f: Codes.FunctionCode) {
    f.Custom? ==> CustomLegal(f.code)
  }

  function ExceptionByte(e: Codes.ExceptionCode): Byte {
    match e
    case IllegalFunction => 1
    case IllegalDataAddress => 2
    case IllegalDataValue => 3
    case ServerDeviceFailure => 4
    case Acknowledge => 5
    case ServerDeviceBusy => 6
    case MemoryParityError => 8
    case GatewayPathUnavailable => 10
    case GatewayTargetDeviceFailedToRespond => 11
    case OtherException(raw) => raw
  }

  predicate ExceptionLegal(e: Codes.ExceptionCode) {
    e.OtherException? ==> e.raw !in {1, 2, 3, 4, 5, 6, 8, 10, 11}
  }

  function SubFunctionWord(d: Codes.DiagnosticSubFunction): Word {
    match d
    case ReturnQueryData => 0
    case RestartCommunicationsOption => 1
    case ReturnDiagnosticRegister => 2
    case ChangeAsciiInputDelimiter => 3
    case ForceListenOnlyMode => 4
    case ClearCountersAndDiagnosticRegister => 10
    case ReturnBusMessageCount => 11
    case ReturnBusCommunicationErrorCount => 12
    case ReturnBusExceptionErrorCount => 13
    case ReturnServerMessageCount => 14
    case ReturnServerNoResponseCount => 15
    case ReturnServerNakCount => 16
    case ReturnServerBusyCount => 17
    case ReturnBusCharacterOverrunCount => 18
    case ClearOverrunCounterAndFlag => 20
    case OtherSubFunction(raw) => raw
  }

  predicate SubFunctionLegal(d: Codes.DiagnosticSubFunction) {
    d.OtherSubFunction? ==> d.raw !in {0, 1, 2, 3, 4, 10, 11, 12, 13, 14, 15, 16, 17, 18, 20}
  }

  function IdCodeByte(c: ReadDeviceIdCode): Byte {
    match c
    case Basic => 1
    case Regular => 2
    case Extended => 3
    case Individual => 4
  }

  // ---- Lists, each ending the PDU ----

  ghost predicate ReadsAt(s: Bytes, at: nat, records: seq<FileRecordRead>)
    decreases |records|
  {
    if records == [] then at == |s|
    else
      && at + 7 <= |s| && s[at] == 6
      && WordAt(s, at + 1, records[0].fileNumber)
      && WordAt(s, at + 3, records[0].recordNumber)
      && WordAt(s, at + 5, records[0].recordLength)
      && ReadsAt(s, at + 7, records[1..])
  }

  ghost predicate ReadResponsesAt(s: Bytes, at: nat, records: seq<FileRecordReadResponse>)
    decreases |records|
  {
    if records == [] then at == |s|
    else
      var n := |records[0].values|;
      && at + 2 + 2 * n <= |s| && s[at] == 2 * n + 1 && s[at + 1] == 6
      && WordsAt(s, at + 2, records[0].values)
      && ReadResponsesAt(s, at + 2 + 2 * n, records[1..])
  }

  ghost predicate WritesAt(s: Bytes, at: nat, records: seq<FileRecordWrite>)
    decreases |records|
  {
    if records == [] then at == |s|
    else
      var n := |records[0].values|;
      && at + 7 + 2 * n <= |s| && s[at] == 6
      && WordAt(s, at + 1, records[0].fileNumber)
      && WordAt(s, at + 3, records[0].recordNumber)
      && WordAt(s, at + 5, n)
      && WordsAt(s, at + 7, records[0].values)
      && WritesAt(s, at + 7 + 2 * n, records[1..])
  }

  ghost predicate ObjectsAt(s: Bytes, at: nat, objects: seq<DeviceIdObject>)
    decreases |objects|
  {
    if objects == [] then at == |s|
    else
      var n := |objects[0].value|;
      && at + 2 + n <= |s| && s[at] == objects[0].id && s[at + 1] == n
      && BytesAt(s, at + 2, objects[0].value)
      && ObjectsAt(s, at + 2 + n, objects[1..])
  }

  // ---- Recurring formats ----

  /** A code and two words. */
  ghost predicate PairOn(s: Bytes, code: Byte, a: Word, b: Word) {
    |s| == 5 && s[0] == code && WordAt(s, 1, a) && WordAt(s, 3, b)
  }

  ghost predicate MaskOn(s: Bytes, address: Word, andMask: Word, orMask: Word) {
    |s| == 7 && s[0] == 22 && WordAt(s, 1, address) && WordAt(s, 3, andMask) && WordAt(s, 5, orMask)
  }

  /** A code, an address, a quantity, and a byte count for the `n` bytes that end the PDU. */
  ghost predicate QuantifiedOn(s: Bytes, code: Byte, address: Word, quantity: nat, n: nat) {
    |s| == 6 + n && s[0] == code && WordAt(s, 1, address) && WordAt(s, 3, quantity) && s[5] == n
  }

  /** A code, and a byte count for everything behind it. */
  ghost predicate CountedOn(s: Bytes, code: Byte) {
    2 <= |s| && s[0] == code && s[1] == |s| - 2
  }

  ghost predicate DiagnosticsOn(s: Bytes, subFunction: Codes.DiagnosticSubFunction, words: seq<Word>) {
    |s| == 3 + 2 * |words| && s[0] == 8 && WordAt(s, 1, SubFunctionWord(subFunction)) && WordsAt(s, 3, words)
  }

  /** An interface transport of this type around opaque data. */
  ghost predicate OpaqueOn(s: Bytes, meiType: Byte, data: Bytes) {
    |s| == 2 + |data| && s[0] == 43 && s[1] == meiType && BytesAt(s, 2, data)
  }

  // ---- Requests ----

  ghost predicate RequestOnWire(p: RequestPdu, s: Bytes) {
    match p
    case ReadCoils(address, quantity) => PairOn(s, 1, address, quantity)
    case ReadDiscreteInputs(address, quantity) => PairOn(s, 2, address, quantity)
    case ReadHoldingRegisters(address, quantity) => PairOn(s, 3, address, quantity)
    case ReadInputRegisters(address, quantity) => PairOn(s, 4, address, quantity)
    case WriteSingleCoil(address, on) => PairOn(s, 5, address, if on then 0xFF00 else 0x0000)
    case WriteSingleRegister(address, value) => PairOn(s, 6, address, value)
    case WriteMultipleCoils(address, coils) =>
      QuantifiedOn(s, 15, address, |coils|, (|coils| + 7) / 8) && BitsAt(s, 6, coils)
    case WriteMultipleRegisters(address, registers) =>
      QuantifiedOn(s, 16, address, |registers|, 2 * |registers|) && WordsAt(s, 6, registers)
    case MaskWriteRegister(address, andMask, orMask) => MaskOn(s, address, andMask, orMask)
    case ReadWriteMultipleRegisters(readAddress, readQuantity, writeAddress, registers) =>
      && |s| == 10 + 2 * |registers| && s[0] == 23
      && WordAt(s, 1, readAddress) && WordAt(s, 3, readQuantity)
      && WordAt(s, 5, writeAddress) && WordAt(s, 7, |registers|) && s[9] == 2 * |registers|
      && WordsAt(s, 10, registers)
    case ReadExceptionStatus => s == [7]
    case Diagnostics(subFunction, words) => DiagnosticsOn(s, subFunction, words)
    case GetCommEventCounter => s == [11]
    case GetCommEventLog => s == [12]
    case ReportServerId => s == [17]
    case ReadFileRecord(records) => CountedOn(s, 20) && ReadsAt(s, 2, records)
    case WriteFileRecord(records) => CountedOn(s, 21) && WritesAt(s, 2, records)
    case ReadFifoQueue(address) => |s| == 3 && s[0] == 24 && WordAt(s, 1, address)
    case EncapsulatedInterfaceTransport(mei) => MeiRequestOnWire(mei, s)
    case Custom(code, data) => |s| == 1 + |data| && s[0] == code && BytesAt(s, 1, data)
  }

  ghost predicate MeiRequestOnWire(m: MeiRequest, s: Bytes) {
    match m
    case CanOpenRequest(data) => OpaqueOn(s, 13, data)
    case ReadDeviceIdentification(code, objectId) => s == [43, 14, IdCodeByte(code), objectId]
    case OtherRequest(meiType, data) => OpaqueOn(s, meiType, data)
  }

  predicate NumbersLegal(fileNumber: Word, recordNumber: Word) {
    1 <= fileNumber && recordNumber <= 9999
  }

  function WritesLength(records: seq<FileRecordWrite>): nat {
    if records == [] then 0 else 7 + 2 * |records[0].values| + WritesLength(records[1..])
  }

  /** Both directions of a file record write. */
  predicate WritesLegal(records: seq<FileRecordWrite>) {
    && (forall i :: 0 <= i < |records| ==> NumbersLegal(records[i].fileNumber, records[i].recordNumber))
    && 9 <= WritesLength(records) <= 251
  }

  /** The requests that can be sent. */
  predicate RequestLegal(p: RequestPdu) {
    match p
    case ReadCoils(_, quantity) => 1 <= quantity <= 2000
    case ReadDiscreteInputs(_, quantity) => 1 <= quantity <= 2000
    case ReadHoldingRegisters(_, quantity) => 1 <= quantity <= 125
    case ReadInputRegisters(_, quantity) => 1 <= quantity <= 125
    case WriteMultipleCoils(_, coils) => 1 <= |coils| <= 1968
    case WriteMultipleRegisters(_, registers) => 1 <= |registers| <= 123
    case ReadWriteMultipleRegisters(_, readQuantity, _, registers) =>
      1 <= readQuantity <= 125 && 1 <= |registers| <= 121
    case Diagnostics(subFunction, words) => SubFunctionLegal(subFunction) && |words| <= 125
    case ReadFileRecord(records) =>
      && 1 <= |records| <= 35
      && forall i :: 0 <= i < |records| ==> NumbersLegal(records[i].fileNumber, records[i].recordNumber)
    case WriteFileRecord(records) => WritesLegal(records)
    case EncapsulatedInterfaceTransport(mei) => mei.ReadDeviceIdentification? || |mei.data| <= 251
    case Custom(code, data) => CustomLegal(code) && |data| <= 252
    case _ => true
  }

  /** Why a request cannot be sent. */
  function RequestRefusal(p: RequestPdu): Error {
    match p
    case Diagnostics(subFunction, _) => if SubFunctionLegal(subFunction) then PduTooLarge else ReservedCode
    case EncapsulatedInterfaceTransport(_) => PduTooLarge
    case Custom(code, _) => CustomRefusal(code)
    case _ => OutOfRange
  }

  function CustomRefusal(code: Byte): Error {
    if code == 0 || 128 <= code then InvalidFunctionCode(code)
    else if CustomLegal(code) then PduTooLarge
    else ReservedCode
  }

  // ---- Responses ----

  ghost predicate ResponseOnWire(p: ResponsePdu, s: Bytes) {
    match p
    case ReadCoils(coils) => CountedOn(s, 1) && |s| == 2 + (|coils| + 7) / 8 && BitsAt(s, 2, coils)
    case ReadDiscreteInputs(inputs) => CountedOn(s, 2) && |s| == 2 + (|inputs| + 7) / 8 && BitsAt(s, 2, inputs)
    case ReadHoldingRegisters(registers) => RegistersOn(s, 3, registers)
    case ReadInputRegisters(registers) => RegistersOn(s, 4, registers)
    case WriteSingleCoil(address, on) => PairOn(s, 5, address, if on then 0xFF00 else 0x0000)
    case WriteSingleRegister(address, value) => PairOn(s, 6, address, value)
    case WriteMultipleCoils(address, quantity) => PairOn(s, 15, address, quantity)
    case WriteMultipleRegisters(address, quantity) => PairOn(s, 16, address, quantity)
    case MaskWriteRegister(address, andMask, orMask) => MaskOn(s, address, andMask, orMask)
    case ReadWriteMultipleRegisters(registers) => RegistersOn(s, 23, registers)
    case ReadExceptionStatus(outputs) => s == [7, outputs]
    case Diagnostics(subFunction, words) => DiagnosticsOn(s, subFunction, words)
    case GetCommEventCounter(status, eventCount) => PairOn(s, 11, status, eventCount)
    case GetCommEventLog(status, eventCount, messageCount, events) =>
      && CountedOn(s, 12) && |s| == 8 + |events|
      && WordAt(s, 2, status) && WordAt(s, 4, eventCount) && WordAt(s, 6, messageCount) && BytesAt(s, 8, events)
    case ReportServerId(data) => CountedOn(s, 17) && |s| == 2 + |data| && BytesAt(s, 2, data)
    case ReadFileRecord(records) => CountedOn(s, 20) && ReadResponsesAt(s, 2, records)
    case WriteFileRecord(records) => CountedOn(s, 21) && WritesAt(s, 2, records)
    case ReadFifoQueue(values) =>
      && |s| == 5 + 2 * |values| && s[0] == 24
      && WordAt(s, 1, 2 * |values| + 2) && WordAt(s, 3, |values|) && WordsAt(s, 5, values)
    case EncapsulatedInterfaceTransport(mei) => MeiResponseOnWire(mei, s)
    case Custom(code, data) => |s| == 1 + |data| && s[0] == code && BytesAt(s, 1, data)
    case Exception(of, exception) => |s| == 2 && s[0] == 128 + FunctionByte(of) && s[1] == ExceptionByte(exception)
  }

  ghost predicate RegistersOn(s: Bytes, code: Byte, registers: seq<Word>) {
    CountedOn(s, code) && |s| == 2 + 2 * |registers| && WordsAt(s, 2, registers)
  }

  ghost predicate MeiResponseOnWire(m: MeiResponse, s: Bytes) {
    match m
    case CanOpenResponse(data) => OpaqueOn(s, 13, data)
    case DeviceIdentification(code, level, more, next, objects) =>
      && 7 <= |s| && s[0] == 43 && s[1] == 14 && s[2] == IdCodeByte(code) && s[3] == level
      && s[4] == (if more then 0xFF else 0x00) && s[5] == next && s[6] == |objects|
      && ObjectsAt(s, 7, objects)
    case OtherResponse(meiType, data) => OpaqueOn(s, meiType, data)
  }

  function ReadResponsesLength(records: seq<FileRecordReadResponse>): nat {
    if records == [] then 0 else 2 + 2 * |records[0].values| + ReadResponsesLength(records[1..])
  }

  function ObjectsLength(objects: seq<DeviceIdObject>): nat {
    if objects == [] then 0 else 2 + |objects[0].value| + ObjectsLength(objects[1..])
  }

  /** The responses that can be sent. */
  predicate ResponseLegal(p: ResponsePdu) {
    match p
    case ReadCoils(coils) => |coils| <= 2008
    case ReadDiscreteInputs(inputs) => |inputs| <= 2008
    case ReadHoldingRegisters(registers) => |registers| <= 125
    case ReadInputRegisters(registers) => |registers| <= 125
    case ReadWriteMultipleRegisters(registers) => |registers| <= 125
    case Diagnostics(subFunction, words) => SubFunctionLegal(subFunction) && |words| <= 125
    case GetCommEventLog(_, _, _, events) => |events| <= 64
    case ReportServerId(data) => |data| <= 251
    case ReadFileRecord(records) => 7 <= ReadResponsesLength(records) <= 245
    case WriteFileRecord(records) => WritesLegal(records)
    case ReadFifoQueue(values) => |values| <= 31
    case EncapsulatedInterfaceTransport(mei) =>
      if mei.DeviceIdentification? then ObjectsLength(mei.objects) <= 246 else |mei.data| <= 251
    case Custom(code, data) => CustomLegal(code) && |data| <= 252
    case Exception(of, exception) => FunctionLegal(of) && ExceptionLegal(exception)
    case _ => true
  }

  /** Why a response cannot be sent. */
  function ResponseRefusal(p: ResponsePdu): Error {
    match p
    case Diagnostics(subFunction, _) => if SubFunctionLegal(subFunction) then PduTooLarge else ReservedCode
    case GetCommEventLog(_, _, _, _) => OutOfRange
    case ReadFileRecord(_) => OutOfRange
    case WriteFileRecord(_) => OutOfRange
    case ReadFifoQueue(_) => OutOfRange
    case EncapsulatedInterfaceTransport(mei) =>
      if mei.DeviceIdentification? && !ObjectsCountable(mei.objects) then OutOfRange else PduTooLarge
    case Custom(code, _) => CustomRefusal(code)
    case Exception(of, _) => if FunctionLegal(of) then ReservedCode else CustomRefusal(of.code)
    case _ => PduTooLarge
  }

  /** Number and lengths that fit the bytes that count them. */
  predicate ObjectsCountable(objects: seq<DeviceIdObject>) {
    |objects| <= 255 && forall i :: 0 <= i < |objects| ==> |objects[i].value| <= 255
  }
}
