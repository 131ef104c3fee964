/** `Client::call` in its own form: state updated around a receive loop over the transport (src/client/mod.rs). */
module ClientCall {
  import opened Basics
  import opened TransactionIds
  import opened Messages
  import opened PduEncoder
  import opened PduDecoder
  import opened Framings
  import opened Stream
  import opened Delivery
  import opened Transport
  import opened Clients
  import Codes
  import Pdu

  class ModbusClient {
    const framing: Framing
    const transport: FrameTransport
    var next: Word
    var state: ClientState
    /** The writes begun so far. */
    var attempts: seq<Attempt>

    constructor (t: FrameTransport)
      requires t.buffer == [] && !t.receiving
      ensures transport == t && Valid() && Abstract() == NewClient(t.framing)
    {
      framing, transport, next, state, attempts := t.framing, t, 1, Untried, [];
    }

    ghost predicate Valid() {
      transport.framing == framing
    }

    ghost function Abstract(): Client
      reads this, transport
    {
      Clients.Client(framing, next, state, Receiver(transport.buffer, transport.receiving), attempts)
    }

    /** `decode_response`. */
    method Decode(adu: Bytes) returns (r: Result<(Header, Pdu.ResponsePdu)>)
      ensures r == DecodeResponseAdu(framing, adu)
    {
      hide Split;
      var parts :- SplitAdu(framing, adu);
      var response :- DecodeResponsePdu(parts.1);
      r := Ok((parts.0, response));
    }

    /** The receive loop. */
    method AwaitLoop(header: Header, expected: Codes.FunctionCode, end: End) returns (result: CallResult)
      requires Valid()
      modifies this`state, transport
      ensures Waited(result, state, Receiver(transport.buffer, transport.receiving), transport.events)
              == old(AwaitResponse(framing, header, expected, state, Receiver(transport.buffer, transport.receiving),
                                   transport.events, end))
    {
      hide RecvAdu;
      hide DecodeResponseAdu;
      while true
        invariant state == old(state)
        invariant AwaitResponse(framing, header, expected, state, Receiver(transport.buffer, transport.receiving),
                                transport.events, end)
                  == old(AwaitResponse(framing, header, expected, state, Receiver(transport.buffer, transport.receiving),
                                       transport.events, end))
        decreases |transport.buffer| + |Payload(transport.events)|
      {
        ReceiveShrinks(framing, Receiver(transport.buffer, transport.receiving), transport.events);
        var r := transport.ReceiveAdu(Response);
        match r
        case Pending =>
          if end.Dropped? {
            return Abandoned;
          }
          state := Unusable(Silent);
          return Returned(Err(Timeout(ResponseWait)));
        case Ready(Err(error)) =>
          state := AfterFailure(framing, error);
          return Returned(Err(error));
        case Ready(Ok(adu)) =>
          var decoded := Decode(adu);
          match decoded
          case Err(error) =>
            state := AfterFailure(framing, error);
            return Returned(Err(error));
          case Ok((headerIn, response)) =>
            if headerIn == header {
              state := Answered;
              return Accepted(response, expected);
            }
      }
    }

    /** From the write on. */
    method Carry(header: Header, request: Pdu.RequestPdu, adu: Bytes, w: World) returns (result: CallResult)
      requires Valid()
      modifies this, transport
      ensures Outcome(result, Abstract()) == old(Transmit(Abstract(), header, request, adu, w))
    {
      hide AwaitResponse;
      attempts := attempts + [Attempt(header, adu, w.sending.Written?)];
      match w.sending
      case WriteDropped =>
        return Abandoned;
      case WriteFailed(kind) =>
        state := Unusable(Classify(Io(kind)));
        return Returned(Err(Io(kind)));
      case Written =>
        next := Next(next);
        if IsBroadcast(framing, header.unit) {
          return Returned(Ok(None));
        }
        transport.events := w.events;
        result := AwaitLoop(header, request.Function(), w.end);
    }

    /** `call`; `w` is what the stream and the caller do meanwhile. */
    method Issue(unit: Byte, request: Pdu.RequestPdu, w: World) returns (result: CallResult)
      requires Valid()
      modifies this, transport
      ensures Outcome(result, Abstract()) == old(Call(Abstract(), unit, request, w))
    {
      hide Pdu.EncodeRequest;
      hide EncodeAdu;
      hide Transmit;
      if state.Unusable? {
        return Returned(Err(Desynchronized));
      }
      var trial := new OutBuffer();
      var encoded := EncodeRequestInto(trial, request);
      if encoded.Err? {
        return Returned(Err(encoded.error));
      }
      var header := RequestHeader(framing, unit, next);
      var outgoing := new OutBuffer();
      encoded := EncodeAduInto(framing, outgoing, header, RequestMessage(request));
      if encoded.Err? {
        state := Unusable(Classify(encoded.error));
        return Returned(Err(encoded.error));
      }
      Nothing(EncodeAdu(framing, header, RequestMessage(request)).value);
      result := Carry(header, request, outgoing.data, w);
    }
  }
}
