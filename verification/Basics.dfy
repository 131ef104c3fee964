/** Bytes, 16-bit words, and the error kinds of src/error.rs. */
module Basics {

  type Byte = x: int | 0 <= x < 0x100
  type Word = x: int | 0 <= x < 0x1_0000

  type Bytes = seq<Byte>

  /** What the operating system reported; only the end-of-file kind is singled out by the crate. */
  datatype IoKind = UnexpectedEof | OtherIo(code: nat)

  /** What was waited for when time ran out; a receive refused after an abandoned one says so, too. */
  datatype Wait = AbandonedReceive | InterCharacterGap | ResponseWait

  /** The failure kinds of the crate, without the fields that only serve its messages. */
  datatype Error =
    | Truncated
    | TrailingBytes
    | InvalidFunctionCode(code: Byte)
    | ReservedCode
    | InvalidLength
    | OutOfRange
    | Checksum
    | MalformedFraming
    | InvalidCharacter(character: Byte)
    | ProtocolIdentifier(protocol: Word)
    | AduTooLarge
    | ReferenceType(found: Byte)
    | IllegalValue
    | ByteCountMismatch
    | PduTooLarge
    | Io(kind: IoKind)
    | Timeout(what: Wait)
    | ConnectionClosed
    | UnexpectedFunction
    | IndeterminateLength(fc: Byte)
    | Desynchronized
  {
    /** Whether the failure ends the byte stream itself rather than costing one frame. */
    predicate EndsStream() {
      Io? || ConnectionClosed? || Timeout?
    }
  }

  datatype Option<+T> = None | Some(value: T)

  datatype Result<+T> = Ok(value: T) | Err(error: Error) {
    predicate IsFailure() {
      Err?
    }

    function PropagateFailure<U>(): Result<U>
      requires Err?
    {
      Err(error)
    }

    function Extract(): T
      requires Ok?
    {
      value
    }
  }

  /** `u16::to_be_bytes`. */
  function Be(w: Word): Bytes {
    [w / 0x100, w % 0x100]
  }

  /** `u16::from_be_bytes`. */
  function FromBe(hi: Byte, lo: Byte): Word {
    hi * 0x100 + lo
  }

  lemma {:induction false} BeOfFrom(hi: Byte, lo: Byte)
    ensures Be(FromBe(hi, lo)) == [hi, lo]
  {
  }

  lemma {:induction false} FromBeInjective(a: Byte, b: Byte, c: Byte, d: Byte)
    ensures FromBe(a, b) == FromBe(c, d) <==> (a == c && b == d)
  {
  }

  /** Concatenation may be regrouped. */
  lemma {:induction false} Assoc<T>(a: seq<T>, b: seq<T>, c: seq<T>)
    ensures a + b + c == a + (b + c)
  {
  }

  /** Nothing before or after changes nothing. */
  lemma {:induction false} Nothing<T>(a: seq<T>)
    ensures [] + a == a && a + [] == a
  {
  }

  function Flatten(chunks: seq<Bytes>): Bytes {
    if chunks == [] then [] else chunks[0] + Flatten(chunks[1..])
  }
}
