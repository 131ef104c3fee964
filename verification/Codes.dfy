/** Function codes, exception codes and diagnostic sub-functions (src/frame/{function,exception,diagnostics}.rs). */
module Codes {
  import opened Basics

  datatype FunctionCode =
    | ReadCoils | ReadDiscreteInputs | ReadHoldingRegisters | ReadInputRegisters
    | WriteSingleCoil | WriteSingleRegister | ReadExceptionStatus | Diagnostics
    | GetCommEventCounter | GetCommEventLog | WriteMultipleCoils | WriteMultipleRegisters
    | ReportServerId | ReadFileRecord | WriteFileRecord | MaskWriteRegister
    | ReadWriteMultipleRegisters | ReadFifoQueue | EncapsulatedInterfaceTransport
    | Custom(code: Byte)

  predicate NamedFunction(b: Byte) {
    1 <= b <= 8 || 11 <= b <= 12 || 15 <= b <= 17 || 20 <= b <= 24 || b == 43
  }

  /** Codes 0 and 128-255 denote no request; the rest is named or custom. */
  function DecodeFunction(b: Byte): Result<FunctionCode> {
    if b == 0 || b >= 0x80 then Err(InvalidFunctionCode(b))
    else Ok(match b
            case 1 => ReadCoils
            case 2 => ReadDiscreteInputs
            case 3 => ReadHoldingRegisters
            case 4 => ReadInputRegisters
            case 5 => WriteSingleCoil
            case 6 => WriteSingleRegister
            case 7 => ReadExceptionStatus
            case 8 => Diagnostics
            case 11 => GetCommEventCounter
            case 12 => GetCommEventLog
            case 15 => WriteMultipleCoils
            case 16 => WriteMultipleRegisters
            case 17 => ReportServerId
            case 20 => ReadFileRecord
            case 21 => WriteFileRecord
            case 22 => MaskWriteRegister
            case 23 => ReadWriteMultipleRegisters
            case 24 => ReadFifoQueue
            case 43 => EncapsulatedInterfaceTransport
            case _ => Custom(b))
  }

  function EncodeFunction(f: FunctionCode): Result<Byte> {
    match f
    case ReadCoils => Ok(1)
    case ReadDiscreteInputs => Ok(2)
    case ReadHoldingRegisters => Ok(3)
    case ReadInputRegisters => Ok(4)
    case WriteSingleCoil => Ok(5)
    case WriteSingleRegister => Ok(6)
    case ReadExceptionStatus => Ok(7)
    case Diagnostics => Ok(8)
    case GetCommEventCounter => Ok(11)
    case GetCommEventLog => Ok(12)
    case WriteMultipleCoils => Ok(15)
    case WriteMultipleRegisters => Ok(16)
    case ReportServerId => Ok(17)
    case ReadFileRecord => Ok(20)
    case WriteFileRecord => Ok(21)
    case MaskWriteRegister => Ok(22)
    case ReadWriteMultipleRegisters => Ok(23)
    case ReadFifoQueue => Ok(24)
    case EncapsulatedInterfaceTransport => Ok(43)
    case Custom(b) =>
      if b == 0 || b >= 0x80 then Err(InvalidFunctionCode(b))
      else if NamedFunction(b) then Err(ReservedCode)
      else Ok(b)
  }

  /** One wire byte has one function code and back. */
  lemma {:induction false} FunctionRoundTrip(b: Byte, f: FunctionCode)
    ensures DecodeFunction(b) == Ok(f) <==> EncodeFunction(f) == Ok(b)
  {
  }

  datatype ExceptionCode =
    | IllegalFunction | IllegalDataAddress | IllegalDataValue | ServerDeviceFailure
    | Acknowledge | ServerDeviceBusy | MemoryParityError | GatewayPathUnavailable
    | GatewayTargetDeviceFailedToRespond | OtherException(raw: Byte)

  function DecodeException(b: Byte): ExceptionCode {
    match b
    case 1 => IllegalFunction
    case 2 => IllegalDataAddress
    case 3 => IllegalDataValue
    case 4 => ServerDeviceFailure
    case 5 => Acknowledge
    case 6 => ServerDeviceBusy
    case 8 => MemoryParityError
    case 10 => GatewayPathUnavailable
    case 11 => GatewayTargetDeviceFailedToRespond
    case _ => OtherException(b)
  }

  function EncodeException(e: ExceptionCode): Result<Byte> {
    match e
    case IllegalFunction => Ok(1)
    case IllegalDataAddress => Ok(2)
    case IllegalDataValue => Ok(3)
    case ServerDeviceFailure => Ok(4)
    case Acknowledge => Ok(5)
    case ServerDeviceBusy => Ok(6)
    case MemoryParityError => Ok(8)
    case GatewayPathUnavailable => Ok(10)
    case GatewayTargetDeviceFailedToRespond => Ok(11)
    case OtherException(b) =>
      if 1 <= b <= 6 || b == 8 || 10 <= b <= 11 then Err(ReservedCode) else Ok(b)
  }

  lemma {:induction false} ExceptionRoundTrip(b: Byte, e: ExceptionCode)
    ensures DecodeException(b) == e <==> EncodeException(e) == Ok(b)
  {
  }

  datatype DiagnosticSubFunction =
    | ReturnQueryData | RestartCommunicationsOption | ReturnDiagnosticRegister
    | ChangeAsciiInputDelimiter | ForceListenOnlyMode | ClearCountersAndDiagnosticRegister
    | ReturnBusMessageCount | ReturnBusCommunicationErrorCount | ReturnBusExceptionErrorCount
    | ReturnServerMessageCount | ReturnServerNoResponseCount | ReturnServerNakCount
    | ReturnServerBusyCount | ReturnBusCharacterOverrunCount | ClearOverrunCounterAndFlag
    | OtherSubFunction(raw: Word)

  function DecodeSubFunction(w: Word): DiagnosticSubFunction {
    match w
    case 0 => ReturnQueryData
    case 1 => RestartCommunicationsOption
    case 2 => ReturnDiagnosticRegister
    case 3 => ChangeAsciiInputDelimiter
    case 4 => ForceListenOnlyMode
    case 10 => ClearCountersAndDiagnosticRegister
    case 11 => ReturnBusMessageCount
    case 12 => ReturnBusCommunicationErrorCount
    case 13 => ReturnBusExceptionErrorCount
    case 14 => ReturnServerMessageCount
    case 15 => ReturnServerNoResponseCount
    case 16 => ReturnServerNakCount
    case 17 => ReturnServerBusyCount
    case 18 => ReturnBusCharacterOverrunCount
    case 20 => ClearOverrunCounterAndFlag
    case _ => OtherSubFunction(w)
  }

  function EncodeSubFunction(d: DiagnosticSubFunction): Result<Word> {
    match d
    case ReturnQueryData => Ok(0)
    case RestartCommunicationsOption => Ok(1)
    case ReturnDiagnosticRegister => Ok(2)
    case ChangeAsciiInputDelimiter => Ok(3)
    case ForceListenOnlyMode => Ok(4)
    case ClearCountersAndDiagnosticRegister => Ok(10)
    case ReturnBusMessageCount => Ok(11)
    case ReturnBusCommunicationErrorCount => Ok(12)
    case ReturnBusExceptionErrorCount => Ok(13)
    case ReturnServerMessageCount => Ok(14)
    case ReturnServerNoResponseCount => Ok(15)
    case ReturnServerNakCount => Ok(16)
    case ReturnServerBusyCount => Ok(17)
    case ReturnBusCharacterOverrunCount => Ok(18)
    case ClearOverrunCounterAndFlag => Ok(20)
    case OtherSubFunction(w) =>
      if w <= 4 || 10 <= w <= 18 || w == 20 then Err(ReservedCode) else Ok(w)
  }

  lemma {:induction false} SubFunctionRoundTrip(w: Word, d: DiagnosticSubFunction)
    ensures DecodeSubFunction(w) == d <==> EncodeSubFunction(d) == Ok(w)
  {
  }
}
