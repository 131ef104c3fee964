/** A PDU together with the direction the caller states for it; what the framings wrap (src/frame/framing.rs). */
module Messages {
  import opened Basics
  import opened Pdu
  import opened PduRoundTrip
  import opened PduEncoder

  datatype Direction = Request | Response

  datatype Message = RequestMessage(request: RequestPdu) | ResponseMessage(response: ResponsePdu) {
    function Direction(): Direction {
      if RequestMessage? then Request else Response
    }

    /** Whether the message is one a decoder can yield. */
    predicate Canonical() {
      match this
      case RequestMessage(p) => p.Canonical()
      case ResponseMessage(p) => p.Canonical()
    }
  }

  function EncodeMessage(m: Message): Result<Bytes> {
    match m
    case RequestMessage(p) => EncodeRequest(p)
    case ResponseMessage(p) => EncodeResponse(p)
  }

  function DecodeMessage(direction: Direction, pdu: Bytes): Result<Message> {
    match direction
    case Request =>
      var p :- DecodeRequest(pdu);
      Ok(RequestMessage(p))
    case Response =>
      var p :- DecodeResponse(pdu);
      Ok(ResponseMessage(p))
  }

  /** An encoded message decodes to itself exactly when it is canonical, and fits a PDU. */
  lemma {:induction false} MessageWritten(m: Message)
    requires EncodeMessage(m).Ok?
    ensures DecodeMessage(m.Direction(), EncodeMessage(m).value) == Ok(m) <==> m.Canonical()
    ensures 1 <= |EncodeMessage(m).value| <= MAX_PDU_LEN
  {
    hide EncodeRequest;
    hide EncodeResponse;
    hide DecodeRequest;
    hide DecodeResponse;
    match m
    case RequestMessage(p) =>
      RequestWritten(p);
      EncodedRequestBounds(p);
    case ResponseMessage(p) =>
      ResponseWritten(p);
      EncodedResponseBounds(p);
  }

  /** Bytes that decode are the encoding of what they decode to. */
  lemma {:induction false} MessageRead(direction: Direction, pdu: Bytes)
    requires DecodeMessage(direction, pdu).Ok?
    ensures var m := DecodeMessage(direction, pdu).value;
            EncodeMessage(m) == Ok(pdu) && m.Canonical() && m.Direction() == direction
  {
    hide EncodeRequest;
    hide EncodeResponse;
    hide DecodeRequest;
    hide DecodeResponse;
    match direction
    case Request => RequestRead(pdu);
    case Response => ResponseRead(pdu);
  }

  /** The closure a framing's `wrap_into` is given. */
  method EncodeMessageInto(out: OutBuffer, m: Message) returns (r: Result<()>)
    modifies out
    ensures Transacted(old(out.data), out.data, r, EncodeMessage(m))
  {
    match m
    case RequestMessage(p) => r := EncodeRequestInto(out, p);
    case ResponseMessage(p) => r := EncodeResponseInto(out, p);
  }
}
