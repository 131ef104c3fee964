/** What does not decode or encode is a failure of a frame: no codec ever reports a failure of the stream. */
module FrameErrors {
  import opened Basics
  import opened Bits
  import opened Parsing
  import opened Items
  import opened FileRecords
  import opened Mei
  import opened Pdu
  import opened Ascii
  import opened Framings
  import Crc
  import Codes

  /** The parser, if it fails, fails on the frame. */
  ghost predicate OfFrame<T>(p: Parsed<T>) {
    p.Bad? ==> !p.error.EndsStream()
  }

  lemma {:induction false} LayoutErrors(s: Bytes, max: nat, bits: bool)
    ensures OfFrame(WordPair(s)) && OfFrame(WordTriple(s)) && OfFrame(ReadRequest(s, max)) && OfFrame(SingleCoil(s))
    ensures OfFrame(Quantified(s, max, bits)) && OfFrame(Counted(s))
  {
    hide FromBe;
  }

  lemma {:induction false} WriteErrors(s: Bytes)
    ensures OfFrame(WriteCoilsBody(s)) && OfFrame(WriteRegistersBody(s)) && OfFrame(ReadWriteBody(s))
  {
    hide Quantified;
    hide ReadRequest;
    hide AllBits;
    hide FromBe;
    hide WordsOf;
    LayoutErrors(s, MAX_READ_REGISTERS, true);
    if U16(s).Got? {
      LayoutErrors(U16(s).rest, MAX_WRITE_BITS, true);
      LayoutErrors(U16(s).rest, MAX_WRITE_REGISTERS, false);
    }
    var p := ReadRequest(s, MAX_READ_REGISTERS);
    if p.Got? && U16(p.rest).Got? {
      LayoutErrors(U16(p.rest).rest, MAX_RW_WRITE_REGISTERS, false);
    }
  }

  lemma {:induction false} OtherErrors(s: Bytes)
    ensures OfFrame(Registers(s)) && OfFrame(DiagnosticBody(s)) && OfFrame(FifoValues(s)) && OfFrame(EventLog(s))
  {
    hide FromBe;
    hide WordsOf;
  }

  lemma {:induction false} ItemErrors(s: Bytes)
    ensures OfFrame(ParseRead(s)) && OfFrame(ParseReadResponse(s)) && OfFrame(ParseWrite(s)) && OfFrame(ParseObject(s))
  {
    hide FromBe;
    hide WordsOf;
  }

  lemma {:induction false} AllErrors<T(!new)>(parse: Bytes -> Parsed<T>, s: Bytes)
    requires Progress(parse) && forall t :: OfFrame(parse(t))
    ensures ParseAll(parse, s).Err? ==> !ParseAll(parse, s).error.EndsStream()
    decreases |s|
  {
    if s == [] {
    } else {
      assert OfFrame(parse(s));
      if parse(s).Got? {
        AllErrors(parse, parse(s).rest);
      }
    }
  }

  lemma {:induction false} BodyErrors<T(!new)>(
    parse: Bytes -> Parsed<T>, s: Bytes, min: nat, max: nat, multiple: nat)
    requires multiple > 0 && Progress(parse) && forall t :: OfFrame(parse(t))
    ensures OfFrame(ParseBody(parse, s, min, max, multiple))
  {
    hide ParseAll;
    var region := Region(s, min, max, multiple);
    if region.Got? {
      AllErrors(parse, region.value);
    }
  }

  lemma {:induction false} RecordErrors(s: Bytes)
    ensures OfFrame(DecodeReads(s)) && OfFrame(DecodeReadResponses(s)) && OfFrame(DecodeWrites(s))
  {
    hide ParseBody;
    hide ParseRead;
    hide ParseReadResponse;
    hide ParseWrite;
    ReadInverse();
    ReadResponseInverse();
    WriteInverse();
    forall t
      ensures OfFrame(ParseRead(t)) && OfFrame(ParseReadResponse(t)) && OfFrame(ParseWrite(t))
    {
      ItemErrors(t);
    }
    BodyErrors(ParseRead, s, 7, 245, 7);
    BodyErrors(ParseReadResponse, s, 7, 245, 1);
    BodyErrors(ParseWrite, s, 9, 251, 1);
  }

  lemma {:induction false} MeiErrors(s: Bytes)
    ensures OfFrame(DecodeMeiRequest(s)) && OfFrame(DecodeMeiResponse(s))
  {
    hide ParseAll;
    hide ParseObject;
    ObjectInverse();
    forall t
      ensures OfFrame(ParseObject(t))
    {
      ItemErrors(t);
    }
    forall t
      ensures ParseAll(ParseObject, t).Err? ==> !ParseAll(ParseObject, t).error.EndsStream()
    {
      AllErrors(ParseObject, t);
    }
  }

  lemma {:induction false} RequestBodyErrors(code: Codes.FunctionCode, s: Bytes)
    ensures OfFrame(RequestBody(code, s))
  {
    hide WordPair;
    hide WordTriple;
    hide ReadRequest;
    hide SingleCoil;
    hide WriteCoilsBody;
    hide WriteRegistersBody;
    hide ReadWriteBody;
    hide DiagnosticBody;
    hide DecodeReads;
    hide DecodeWrites;
    hide DecodeMeiRequest;
    match code {
      case WriteMultipleCoils => WriteErrors(s);
      case WriteMultipleRegisters => WriteErrors(s);
      case ReadWriteMultipleRegisters => WriteErrors(s);
      case Diagnostics => OtherErrors(s);
      case ReadFileRecord => RecordErrors(s);
      case WriteFileRecord => RecordErrors(s);
      case EncapsulatedInterfaceTransport => MeiErrors(s);
      case ReadHoldingRegisters => LayoutErrors(s, MAX_READ_REGISTERS, true);
      case ReadInputRegisters => LayoutErrors(s, MAX_READ_REGISTERS, true);
      case _ => LayoutErrors(s, MAX_READ_BITS, true);
    }
  }

  lemma {:induction false} RequestErrors(pdu: Bytes)
    ensures DecodeRequest(pdu).Err? ==> !DecodeRequest(pdu).error.EndsStream()
  {
    hide RequestBody;
    if pdu != [] && Codes.DecodeFunction(pdu[0]).Ok? {
      RequestBodyErrors(Codes.DecodeFunction(pdu[0]).value, pdu[1..]);
    }
  }

  lemma {:induction false} ResponseBodyErrors(code: Codes.FunctionCode, s: Bytes)
    ensures OfFrame(ResponseBody(code, s))
  {
    hide WordPair;
    hide WordTriple;
    hide SingleCoil;
    hide Counted;
    hide Registers;
    hide DiagnosticBody;
    hide FifoValues;
    hide EventLog;
    hide AllBits;
    hide DecodeReadResponses;
    hide DecodeWrites;
    hide DecodeMeiResponse;
    match code {
      case ReadFileRecord => RecordErrors(s);
      case WriteFileRecord => RecordErrors(s);
      case EncapsulatedInterfaceTransport => MeiErrors(s);
      case _ =>
        LayoutErrors(s, MAX_READ_BITS, true);
        OtherErrors(s);
    }
  }

  lemma {:induction false} ResponseErrors(pdu: Bytes)
    ensures DecodeResponse(pdu).Err? ==> !DecodeResponse(pdu).error.EndsStream()
  {
    hide ResponseBody;
    if pdu != [] && pdu[0] < 0x80 && Codes.DecodeFunction(pdu[0]).Ok? {
      ResponseBodyErrors(Codes.DecodeFunction(pdu[0]).value, pdu[1..]);
    }
  }

  lemma {:induction false} HexErrors(chars: Bytes)
    requires |chars| % 2 == 0
    ensures DecodeHex(chars).Err? ==> !DecodeHex(chars).error.EndsStream()
  {
    if chars == [] {
    } else {
      HexErrors(chars[2..]);
    }
  }

  lemma {:induction false} SplitErrors(f: Framing, bytes: Bytes)
    ensures Split(f, bytes).Err? ==> !Split(f, bytes).error.EndsStream()
  {
    hide Crc.Crc16;
    hide DecodeHex;
    hide Checked;
    if f.Ascii? && 9 <= |bytes| && |Characters(bytes)| % 2 == 0 {
      var chars := Characters(bytes);
      HexErrors(chars);
      DecodedLength(chars);
      if DecodeHex(chars).Ok? && 3 <= |DecodeHex(chars).value| {
        CheckedErrors(DecodeHex(chars).value);
      }
    }
  }

  lemma {:induction false} CheckedErrors(decoded: Bytes)
    requires 3 <= |decoded|
    ensures Checked(decoded).Err? ==> !Checked(decoded).error.EndsStream()
  {
    hide Lrc;
  }

  // ---- Encoding ----

  lemma {:induction false} RenderErrors<T>(render: T -> Result<Bytes>, items: seq<T>)
    requires forall x :: render(x).Err? ==> !render(x).error.EndsStream()
    ensures RenderAll(render, items).Err? ==> !RenderAll(render, items).error.EndsStream()
  {
    if items != [] {
      RenderErrors(render, items[1..]);
    }
  }

  lemma {:induction false} ResponseFieldErrors(p: ResponsePdu)
    ensures ResponseFields(p).Err? ==> !ResponseFields(p).error.EndsStream()
  {
    hide RenderAll;
    hide Be;
    hide FromWords;
    hide PackBits;
    hide Identification;
    match p {
      case ReadFileRecord(records) => RenderErrors(RenderReadResponse, records);
      case WriteFileRecord(records) => RenderErrors(RenderWrite, records);
      case EncapsulatedInterfaceTransport(mei) =>
        if mei.DeviceIdentification? {
          RenderErrors(RenderObject, mei.objects);
        }
      case _ =>
    }
  }

  /** Failing to encode a response is not a failure of the stream. */
  lemma {:induction false} ResponseEncodeErrors(p: ResponsePdu)
    ensures EncodeResponse(p).Err? ==> !EncodeResponse(p).error.EndsStream()
  {
    hide ResponseFields;
    ResponseFieldErrors(p);
  }

  lemma {:induction false} RequestFieldErrors(p: RequestPdu)
    ensures RequestFields(p).Err? ==> !RequestFields(p).error.EndsStream()
  {
    hide RenderAll;
    hide Be;
    hide FromWords;
    hide PackBits;
    match p {
      case ReadFileRecord(records) => RenderErrors(RenderRead, records);
      case WriteFileRecord(records) => RenderErrors(RenderWrite, records);
      case _ =>
    }
  }

  /** Failing to encode a request is not a failure of the stream. */
  lemma {:induction false} RequestEncodeErrors(p: RequestPdu)
    ensures EncodeRequest(p).Err? ==> !EncodeRequest(p).error.EndsStream()
  {
    hide RequestFields;
    RequestFieldErrors(p);
  }
}
