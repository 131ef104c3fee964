/** The framings over one another: headers, boundaries, and ADUs that carry a message (src/frame/framing.rs). */
module Framings {
  import opened Basics
  import opened PduEncoder
  import opened Messages
  import opened Rtu
  import opened Ascii
  import opened Tcp

  datatype Framing = Tcp | Rtu | Ascii | RtuOverTcp

  /** What identifies the peer; a serial line carries the address only. */
  datatype Header = Mbap(transaction: Word, unit: Byte) | Address(unit: Byte)

  datatype Boundary = Prefixed | Delimited | Silence | ContentLength {
    /** `is_self_locating`: the next boundary is on the wire, not in the frame that failed. */
    predicate SelfLocating() {
      Delimited? || Silence?
    }
  }

  function BoundaryOf(f: Framing): Boundary {
    match f
    case Tcp => Prefixed
    case Rtu => Silence
    case Ascii => Delimited
    case RtuOverTcp => ContentLength
  }

  function MaxAdu(f: Framing): nat {
    match f
    case Tcp => MAX_TCP_ADU
    case Rtu => MAX_RTU_ADU
    case Ascii => MAX_ASCII_ADU
    case RtuOverTcp => MAX_RTU_ADU
  }

  predicate HeaderOf(f: Framing, h: Header) {
    f.Tcp? <==> h.Mbap?
  }

  /** `is_broadcast`: address 0, on a serial line only. */
  predicate IsBroadcast(f: Framing, unit: Byte) {
    !f.Tcp? && unit == 0
  }

  function Wrap(f: Framing, h: Header, pdu: Bytes): Bytes
    requires HeaderOf(f, h) && |pdu| <= 253
  {
    match f
    case Tcp => WrapTcp(MbapHeader(h.transaction, h.unit), pdu)
    case Ascii => WrapAscii(h.unit, pdu)
    case Rtu => WrapRtu(h.unit, pdu)
    case RtuOverTcp => WrapRtu(h.unit, pdu)
  }

  function Split(f: Framing, bytes: Bytes): Result<(Header, Bytes)> {
    match f
    case Tcp =>
      var (h, pdu) :- SplitTcp(bytes);
      Ok((Mbap(h.transaction, h.unit), pdu))
    case Ascii =>
      var (address, pdu) :- SplitAscii(bytes);
      Ok((Address(address), pdu))
    case _ =>
      var (address, pdu) :- SplitRtu(bytes);
      Ok((Address(address), pdu))
  }

  /** `encode_request` and `encode_response`. */
  function EncodeAdu(f: Framing, h: Header, m: Message): Result<Bytes>
    requires HeaderOf(f, h)
  {
    var pdu :- EncodeMessage(m);
    MessageWritten(m);
    Ok(Wrap(f, h, pdu))
  }

  /** `decode_request` and `decode_response`. */
  function DecodeAdu(f: Framing, direction: Direction, bytes: Bytes): Result<(Header, Message)> {
    var (h, pdu) :- Split(f, bytes);
    var m :- DecodeMessage(direction, pdu);
    Ok((h, m))
  }

  /** The one spelling of an ADU its framing would write: only ASCII accepts more than one. */
  function NormalForm(f: Framing, bytes: Bytes): Bytes {
    if f.Ascii? then Uppercased(bytes) else bytes
  }

  lemma {:induction false} SplitWrapped(f: Framing, h: Header, pdu: Bytes)
    requires HeaderOf(f, h) && 1 <= |pdu| <= 253
    ensures Split(f, Wrap(f, h, pdu)) == Ok((h, pdu))
    ensures |Wrap(f, h, pdu)| <= MaxAdu(f)
  {
    hide WrapTcp;
    hide WrapAscii;
    hide SplitTcp;
    hide SplitAscii;
    match f
    case Tcp => SplitWrappedTcp(MbapHeader(h.transaction, h.unit), pdu);
    case Ascii => SplitWrappedAscii(h.unit, pdu);
    case Rtu => SplitWrappedRtu(h.unit, pdu);
    case RtuOverTcp => SplitWrappedRtu(h.unit, pdu);
  }

  lemma {:induction false} WrapSplit(f: Framing, bytes: Bytes)
    requires Split(f, bytes).Ok?
    ensures var (h, pdu) := Split(f, bytes).value;
            HeaderOf(f, h) && 1 <= |pdu| <= 253 && Wrap(f, h, pdu) == NormalForm(f, bytes)
  {
    hide WrapTcp;
    hide WrapAscii;
    hide WrapRtu;
    hide SplitTcp;
    hide SplitAscii;
    hide SplitRtu;
    match f
    case Tcp => WrapSplitTcp(bytes);
    case Ascii => WrapSplitAscii(bytes);
    case _ => WrapSplitRtu(bytes);
  }

  /** Every message that encodes fits an ADU of every framing, and comes back with its header exactly when canonical. */
  lemma {:induction false} AduWritten(f: Framing, h: Header, m: Message)
    requires HeaderOf(f, h) && EncodeMessage(m).Ok?
    ensures EncodeAdu(f, h, m).Ok? && |EncodeAdu(f, h, m).value| <= MaxAdu(f)
    ensures DecodeAdu(f, m.Direction(), EncodeAdu(f, h, m).value) == Ok((h, m)) <==> m.Canonical()
  {
    hide EncodeMessage;
    hide DecodeMessage;
    hide Wrap;
    hide Split;
    MessageWritten(m);
    SplitWrapped(f, h, EncodeMessage(m).value);
  }

  /** Every accepted ADU re-encodes to itself, up to the case of ASCII's hexadecimal letters. */
  lemma {:induction false} AduRead(f: Framing, direction: Direction, bytes: Bytes)
    requires DecodeAdu(f, direction, bytes).Ok?
    ensures var (h, m) := DecodeAdu(f, direction, bytes).value;
            && HeaderOf(f, h) && m.Canonical() && m.Direction() == direction
            && EncodeAdu(f, h, m) == Ok(NormalForm(f, bytes))
  {
    hide EncodeMessage;
    hide DecodeMessage;
    hide Wrap;
    hide Split;
    WrapSplit(f, bytes);
    MessageRead(direction, Split(f, bytes).value.1);
  }

  /** One ADU carries one header and one canonical message. */
  lemma {:induction false} AduInjective(f: Framing, h: Header, m: Message, h': Header, m': Message)
    requires HeaderOf(f, h) && HeaderOf(f, h') && m.Canonical() && m'.Canonical() && m.Direction() == m'.Direction()
    requires EncodeAdu(f, h, m).Ok? && EncodeAdu(f, h, m) == EncodeAdu(f, h', m')
    ensures h == h' && m == m'
  {
    hide EncodeMessage;
    hide DecodeAdu;
    hide Wrap;
    AduWritten(f, h, m);
    AduWritten(f, h', m');
  }

  /** The framing's `split`, loops and all. */
  method SplitAdu(f: Framing, bytes: Bytes) returns (r: Result<(Header, Bytes)>)
    ensures r == Split(f, bytes)
  {
    hide SplitAscii;
    if f.Ascii? {
      var parts :- SplitAsciiAdu(bytes);
      return Ok((Address(parts.0), parts.1));
    }
    r := Split(f, bytes);
  }

  /** `encode_request_into` and `encode_response_into`: the whole ADU is appended, or the buffer is as it was. */
  method EncodeAduInto(f: Framing, out: OutBuffer, h: Header, m: Message) returns (r: Result<()>)
    requires HeaderOf(f, h)
    modifies out
    ensures Transacted(old(out.data), out.data, r, EncodeAdu(f, h, m))
  {
    hide EncodeMessage;
    hide WrapTcp;
    hide WrapAscii;
    hide WrapRtu;
    match f
    case Tcp => r := WrapTcpInto(out, MbapHeader(h.transaction, h.unit), m);
    case Ascii => r := WrapAsciiInto(out, h.unit, m);
    case _ => r := WrapRtuInto(out, h.unit, m);
  }
}
