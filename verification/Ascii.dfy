/** ASCII framing: a colon, hexadecimal pairs, an LRC, CR LF (src/frame/ascii.rs). */
module Ascii {
  import opened Basics
  import opened Items
  import opened PduEncoder
  import opened Messages

  const MAX_ASCII_ADU := 513

  const START: Byte := 0x3A
  const CR: Byte := 0x0D
  const LF: Byte := 0x0A

  /** `nibble`: one hexadecimal character, either case. */
  function Nibble(c: Byte): Result<Byte> {
    if 0x30 <= c <= 0x39 then Ok(c - 0x30)
    else if 0x41 <= c <= 0x46 then Ok(c - 0x41 + 10)
    else if 0x61 <= c <= 0x66 then Ok(c - 0x61 + 10)
    else Err(InvalidCharacter(c))
  }

  /** `hex_digit`: one upper-case hexadecimal character. */
  function HexDigit(nibble: Byte): Byte
    requires nibble < 16
  {
    if nibble <= 9 then 0x30 + nibble else 0x41 + nibble - 10
  }

  function Pair(b: Byte): Bytes {
    [HexDigit(b / 16), HexDigit(b % 16)]
  }

  function Hex(bytes: Bytes): (chars: Bytes)
    ensures |chars| == 2 * |bytes|
  {
    if bytes == [] then [] else Pair(bytes[0]) + Hex(bytes[1..])
  }

  /** The byte two characters stand for; the high one is looked at first. */
  function FromPair(high: Byte, low: Byte): Result<Byte> {
    var h :- Nibble(high);
    var l :- Nibble(low);
    NibbleBound(high);
    NibbleBound(low);
    Ok(h * 16 + l)
  }

  /** `decode_hex`. */
  function DecodeHex(chars: Bytes): Result<Bytes>
    requires |chars| % 2 == 0
  {
    if chars == [] then Ok([])
    else
      var b :- FromPair(chars[0], chars[1]);
      After([b], DecodeHex(chars[2..]))
  }

  /** The loop of `decode_hex`. */
  method DecodeHexPairs(chars: Bytes) returns (r: Result<Bytes>)
    requires |chars| % 2 == 0
    ensures r == DecodeHex(chars)
  {
    var bytes: Bytes := [];
    var i := 0;
    assert chars[0..] == chars;
    AfterOne(bytes, 0, DecodeHex(chars));
    while i < |chars|
      invariant 0 <= i <= |chars| && i % 2 == 0
      invariant After(bytes, DecodeHex(chars[i..])) == DecodeHex(chars)
    {
      assert chars[i..][2..] == chars[i + 2..];
      var b :- FromPair(chars[i], chars[i + 1]);
      AfterOne(bytes, b, DecodeHex(chars[i + 2..]));
      bytes := bytes + [b];
      i := i + 2;
    }
    assert chars[i..] == [];
    assert bytes + [] == bytes;
    r := Ok(bytes);
  }

  /** `u8::wrapping_add`. */
  function Add(a: Byte, b: Byte): Byte {
    if a + b < 0x100 then a + b else a + b - 0x100
  }

  /** The sum of bytes in eight bits. */
  function Sum(bytes: Bytes): Byte {
    if bytes == [] then 0 else Add(bytes[0], Sum(bytes[1..]))
  }

  /** `lrc`: the two's complement of that sum. */
  function Lrc(bytes: Bytes): Byte {
    if Sum(bytes) == 0 then 0 else 0x100 - Sum(bytes)
  }

  function WrapAscii(address: Byte, pdu: Bytes): Bytes {
    var covered := [address] + pdu;
    [START] + (Hex(covered + [Lrc(covered)]) + [CR, LF])
  }

  /** `split`. */
  function SplitAscii(bytes: Bytes): Result<(Byte, Bytes)> {
    if |bytes| > MAX_ASCII_ADU then Err(AduTooLarge)
    else if |bytes| < 9 then Err(Truncated)
    else if bytes[0] != START then Err(MalformedFraming)
    else if bytes[|bytes| - 2..] != [CR, LF] then Err(MalformedFraming)
    else if |Characters(bytes)| % 2 != 0 then Err(MalformedFraming)
    else
      var decoded :- DecodeHex(Characters(bytes));
      DecodedLength(Characters(bytes));
      Checked(decoded)
  }

  /** What stands between the start character and the terminator. */
  function Characters(bytes: Bytes): Bytes
    requires 3 <= |bytes|
  {
    bytes[1..|bytes| - 2]
  }

  /** The LRC is verified before the address and PDU are taken apart. */
  function Checked(decoded: Bytes): Result<(Byte, Bytes)>
    requires 3 <= |decoded|
  {
    var n := |decoded| - 1;
    if Lrc(decoded[..n]) != decoded[n] then Err(Checksum)
    else Ok((decoded[0], decoded[1..n]))
  }

  /** `split`, with its decoding loop. */
  method SplitAsciiAdu(bytes: Bytes) returns (r: Result<(Byte, Bytes)>)
    ensures r == SplitAscii(bytes)
  {
    if |bytes| > MAX_ASCII_ADU {
      return Err(AduTooLarge);
    }
    if |bytes| < 9 {
      return Err(Truncated);
    }
    if bytes[0] != START || bytes[|bytes| - 2..] != [CR, LF] || |Characters(bytes)| % 2 != 0 {
      return Err(MalformedFraming);
    }
    var decoded :- DecodeHexPairs(Characters(bytes));
    DecodedLength(Characters(bytes));
    r := Checked(decoded);
  }

  /** `encode_hex`. */
  method PushHex(out: OutBuffer, b: Byte)
    modifies out
    ensures out.data == old(out.data) + Pair(b)
  {
    out.Push(HexDigit(b / 16));
    out.Push(HexDigit(b % 16));
  }

  /** `wrap_into`: the binary form is built aside, so a failure has not touched the buffer. */
  method WrapAsciiInto(out: OutBuffer, address: Byte, m: Message) returns (r: Result<()>)
    modifies out
    ensures Transacted(old(out.data), out.data, r,
                       match EncodeMessage(m)
                       case Ok(pdu) => Ok(WrapAscii(address, pdu))
                       case Err(error) => Err(error))
  {
    hide EncodeMessage;
    hide Lrc;
    hide Pair;
    var covered := new OutBuffer();
    covered.Push(address);
    var encoded := EncodeMessageInto(covered, m);
    if encoded.Err? {
      return encoded;
    }
    ghost var pdu := EncodeMessage(m).value;
    assert covered.data == [address] + pdu;
    out.Push(START);
    PushAllHex(out, covered.data);
    PushHex(out, Lrc(covered.data));
    out.Extend([CR, LF]);
    HexAppend(covered.data, Lrc(covered.data));
    Assoc(old(out.data) + [START], Hex(covered.data), Pair(Lrc(covered.data)));
    Assoc(old(out.data) + [START], Hex(covered.data) + Pair(Lrc(covered.data)), [CR, LF]);
    Assoc(old(out.data), [START], Hex(covered.data + [Lrc(covered.data)]) + [CR, LF]);
    r := Ok(());
  }

  /** The loop of `wrap_into`. */
  method PushAllHex(out: OutBuffer, bytes: Bytes)
    modifies out
    ensures out.data == old(out.data) + Hex(bytes)
  {
    assert bytes[0..] == bytes;
    for i := 0 to |bytes|
      invariant out.data + Hex(bytes[i..]) == old(out.data) + Hex(bytes)
    {
      assert bytes[i..][1..] == bytes[i + 1..];
      Assoc(out.data, Pair(bytes[i]), Hex(bytes[i + 1..]));
      PushHex(out, bytes[i]);
    }
    assert Hex(bytes[|bytes|..]) == [];
  }

  lemma {:induction false} HexAppend(bytes: Bytes, b: Byte)
    ensures Hex(bytes + [b]) == Hex(bytes) + Pair(b)
  {
    if bytes == [] {
      assert bytes + [b] == [b] && [b][1..] == [] && Pair(b) + [] == Pair(b) && [] + Pair(b) == Pair(b);
    } else {
      assert (bytes + [b])[1..] == bytes[1..] + [b];
      HexAppend(bytes[1..], b);
      Assoc(Pair(bytes[0]), Hex(bytes[1..]), Pair(b));
    }
  }

  lemma {:induction false} NibbleBound(c: Byte)
    ensures Nibble(c).Ok? ==> Nibble(c).value < 16
  {
  }

  lemma {:induction false} DecodedLength(chars: Bytes)
    requires |chars| % 2 == 0
    ensures DecodeHex(chars).Ok? ==> 2 * |DecodeHex(chars).value| == |chars|
  {
    if chars == [] {
    } else {
      DecodedLength(chars[2..]);
    }
  }

  // ---- Characters and bytes ----

  /** An upper-case hexadecimal letter for a lower-case one; other characters stay. */
  function Upper(c: Byte): Byte {
    if 0x61 <= c <= 0x66 then c - 0x20 else c
  }

  function Uppercased(chars: Bytes): (u: Bytes)
    ensures |u| == |chars|
    ensures forall i :: 0 <= i < |chars| ==> u[i] == Upper(chars[i])
  {
    seq(|chars|, i requires 0 <= i < |chars| => Upper(chars[i]))
  }

  lemma {:induction false} DigitReads(n: Byte)
    requires n < 16
    ensures Nibble(HexDigit(n)) == Ok(n)
  {
  }

  lemma {:induction false} PairWritten(b: Byte)
    ensures FromPair(Pair(b)[0], Pair(b)[1]) == Ok(b)
  {
    DigitReads(b / 16);
    DigitReads(b % 16);
  }

  lemma {:induction false} PairRead(high: Byte, low: Byte)
    requires FromPair(high, low).Ok?
    ensures Pair(FromPair(high, low).value) == [Upper(high), Upper(low)]
  {
    var h, l := Nibble(high).value, Nibble(low).value;
    NibbleBound(high);
    NibbleBound(low);
    assert (h * 16 + l) / 16 == h && (h * 16 + l) % 16 == l;
  }

  lemma {:induction false} HexWritten(bytes: Bytes)
    ensures DecodeHex(Hex(bytes)) == Ok(bytes)
  {
    if bytes == [] {
    } else {
      hide FromPair;
      hide HexDigit;
      PairWritten(bytes[0]);
      HexWritten(bytes[1..]);
      assert Hex(bytes)[2..] == Hex(bytes[1..]);
      assert bytes == [bytes[0]] + bytes[1..];
    }
  }

  lemma {:induction false} HexRead(chars: Bytes)
    requires |chars| % 2 == 0 && DecodeHex(chars).Ok?
    ensures Hex(DecodeHex(chars).value) == Uppercased(chars)
  {
    if chars == [] {
    } else {
      hide FromPair;
      hide Pair;
      hide Upper;
      PairRead(chars[0], chars[1]);
      HexRead(chars[2..]);
      var bytes := DecodeHex(chars).value;
      assert bytes[1..] == DecodeHex(chars[2..]).value;
      assert Uppercased(chars) == [Upper(chars[0]), Upper(chars[1])] + Uppercased(chars[2..]);
    }
  }

  // ---- The checksum ----

  lemma {:induction false} SumConcat(a: Bytes, b: Bytes)
    ensures Sum(a + b) == Add(Sum(a), Sum(b))
  {
    if a == [] {
      assert a + b == b;
    } else {
      assert (a + b)[1..] == a[1..] + b;
      SumConcat(a[1..], b);
    }
  }

  /** A byte is the LRC of those before it exactly when all of them sum to zero. */
  lemma {:induction false} LrcBalances(covered: Bytes, b: Byte)
    ensures Lrc(covered) == b <==> Sum(covered + [b]) == 0
  {
    SumConcat(covered, [b]);
    assert [b][1..] == [];
  }

  lemma {:induction false} CheckedIffBalanced(decoded: Bytes)
    requires 3 <= |decoded|
    ensures Checked(decoded) == if Sum(decoded) == 0 then Ok((decoded[0], decoded[1..|decoded| - 1])) else Err(Checksum)
  {
    var n := |decoded| - 1;
    LrcBalances(decoded[..n], decoded[n]);
    assert decoded == decoded[..n] + [decoded[n]];
  }

  // ---- Splitting and wrapping ----

  /** Framing that `split` gets past before it looks at the characters. */
  predicate WellFramed(bytes: Bytes) {
    && 9 <= |bytes| <= MAX_ASCII_ADU
    && bytes[0] == START
    && bytes[|bytes| - 2..] == [CR, LF]
    && |Characters(bytes)| % 2 == 0
  }

  /** A frame is accepted exactly when its characters are hexadecimal pairs whose bytes, LRC included, sum to zero. */
  lemma {:induction false} AcceptedIffBalanced(bytes: Bytes)
    ensures SplitAscii(bytes).Ok?
            <==> (WellFramed(bytes) && DecodeHex(Characters(bytes)).Ok? && Sum(DecodeHex(Characters(bytes)).value) == 0)
  {
    hide DecodeHex;
    hide Sum;
    hide Checked;
    if WellFramed(bytes) && DecodeHex(Characters(bytes)).Ok? {
      DecodedLength(Characters(bytes));
      CheckedIffBalanced(DecodeHex(Characters(bytes)).value);
    }
  }

  /** A wrapped PDU splits into the address and PDU that were wrapped. */
  lemma {:induction false} SplitWrappedAscii(address: Byte, pdu: Bytes)
    requires 1 <= |pdu| <= 253
    ensures SplitAscii(WrapAscii(address, pdu)) == Ok((address, pdu))
    ensures |WrapAscii(address, pdu)| == 2 * |pdu| + 7
  {
    hide DecodeHex;
    hide Hex;
    hide Lrc;
    var covered := [address] + pdu;
    var decoded := covered + [Lrc(covered)];
    var bytes := WrapAscii(address, pdu);
    HexWritten(decoded);
    assert Characters(bytes) == Hex(decoded);
    assert bytes[|bytes| - 2..] == [CR, LF];
    assert decoded[..|decoded| - 1] == covered && decoded[1..|decoded| - 1] == pdu;
  }

  /** Whatever splits is, once its letters are upper-cased, the wrapping of the parts. */
  lemma {:induction false} WrapSplitAscii(bytes: Bytes)
    requires SplitAscii(bytes).Ok?
    ensures var (address, pdu) := SplitAscii(bytes).value;
            WrapAscii(address, pdu) == Uppercased(bytes) && 1 <= |pdu| <= 253
  {
    hide DecodeHex;
    hide Hex;
    hide Lrc;
    var chars := Characters(bytes);
    DecodedLength(chars);
    HexRead(chars);
    var decoded := DecodeHex(chars).value;
    var n := |decoded| - 1;
    assert decoded[..n] == [decoded[0]] + decoded[1..n];
    assert decoded == decoded[..n] + [decoded[n]];
    assert bytes == [START] + (chars + [CR, LF]);
    assert Uppercased(bytes) == [START] + (Uppercased(chars) + [CR, LF]);
  }

  lemma {:induction false} SumReplaced(bytes: Bytes, i: nat, b: Byte)
    requires i < |bytes|
    ensures Sum(bytes[i := b]) == Sum(bytes) <==> b == bytes[i]
  {
    if i == 0 {
      assert bytes[0 := b][1..] == bytes[1..];
    } else {
      assert bytes[i := b][1..] == bytes[1..][i - 1 := b];
      SumReplaced(bytes[1..], i - 1, b);
    }
  }

  /** Replacing any one decoded byte of an accepted frame, the LRC's own included, is noticed. */
  lemma {:induction false} ReplacementRejected(sent: Bytes, received: Bytes, i: nat, b: Byte)
    requires SplitAscii(sent).Ok? && WellFramed(received)
    requires i < |DecodeHex(Characters(sent)).value| && DecodeHex(Characters(sent)).value[i] != b
    requires DecodeHex(Characters(received)) == Ok(DecodeHex(Characters(sent)).value[i := b])
    ensures SplitAscii(received) == Err(Checksum)
  {
    hide DecodeHex;
    hide Sum;
    hide Checked;
    var decoded := DecodeHex(Characters(sent)).value;
    AcceptedIffBalanced(sent);
    SumReplaced(decoded, i, b);
    DecodedLength(Characters(received));
    CheckedIffBalanced(decoded[i := b]);
  }

  // ---- Where a frame ends ----

  lemma {:induction false} DecodedAreHex(chars: Bytes)
    requires |chars| % 2 == 0 && DecodeHex(chars).Ok?
    ensures forall i :: 0 <= i < |chars| ==> Nibble(chars[i]).Ok?
  {
    if chars == [] {
    } else {
      DecodedAreHex(chars[2..]);
      assert chars == [chars[0], chars[1]] + chars[2..];
    }
  }

  /** Inside an accepted frame neither a start character nor a carriage return occurs, only at its ends. */
  lemma {:induction false} Delimiters(bytes: Bytes)
    requires SplitAscii(bytes).Ok?
    ensures 9 <= |bytes| <= MAX_ASCII_ADU
    ensures bytes[0] == START && bytes[|bytes| - 2..] == [CR, LF]
    ensures forall i :: 1 <= i < |bytes| - 2 ==> bytes[i] != START && bytes[i] != CR
  {
    hide DecodeHex;
    var chars := Characters(bytes);
    DecodedAreHex(chars);
    forall i | 1 <= i < |bytes| - 2
      ensures bytes[i] != START && bytes[i] != CR
    {
      assert bytes[i] == chars[i - 1];
    }
  }
}
