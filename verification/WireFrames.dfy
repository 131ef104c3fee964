/**
 * The three frames around a PDU as byte positions and literal values: section 3.1.3 of the MODBUS Messaging on TCP/IP
 * Implementation Guide V1.0b, sections 2.5.1 and 2.5.2 of MODBUS over Serial Line V1.02.
 */
module WireFrames {
  import opened Basics
  import opened WireFormat
  import opened Rtu
  import opened Ascii
  import opened Tcp
  import opened CrcReference
  import Crc

  // ---- RTU ----

  /** Address, PDU, and the checksum of both, its low byte first. */
  ghost predicate RtuOnWire(address: Byte, pdu: Bytes, s: Bytes) {
    && |s| == |pdu| + 3 && s[0] == address && BytesAt(s, 1, pdu)
    && var crc := CrcNumber([address] + pdu);
    && s[|pdu| + 1] == crc % 256 && s[|pdu| + 2] == crc / 256
  }

  lemma {:induction false} RtuWrapping(address: Byte, pdu: Bytes, s: Bytes)
    ensures WrapRtu(address, pdu) == s <==> RtuOnWire(address, pdu, s)
  {
    hide Crc.Crc16;
    hide CrcNumber;
    CrcIsNumber([address] + pdu);
    var w := WrapRtu(address, pdu);
    assert |w| == |pdu| + 3;
    if RtuOnWire(address, pdu, s) {
      assert forall k :: 0 <= k < |pdu| ==> s[1 + k] == pdu[k];
      forall i | 0 <= i < |s|
        ensures s[i] == w[i]
      {
        assert 1 <= i <= |pdu| ==> s[i] == pdu[i - 1];
      }
    }
  }

  /** A frame splits into this address and PDU if and only if it is spelled so; otherwise this is why not. */
  lemma {:induction false} RtuSplitting(address: Byte, pdu: Bytes, s: Bytes)
    ensures SplitRtu(s) == Ok((address, pdu)) <==> 1 <= |pdu| <= 253 && RtuOnWire(address, pdu, s)
    ensures SplitRtu(s).Err?
            ==> SplitRtu(s).error == if 256 < |s| then AduTooLarge else if |s| < 4 then Truncated else Checksum
  {
    hide Crc.Crc16;
    hide RtuOnWire;
    hide WrapRtu;
    RtuWrapping(address, pdu, s);
    if SplitRtu(s).Ok? {
      WrapSplitRtu(s);
    }
    if 1 <= |pdu| <= 253 {
      SplitWrappedRtu(address, pdu);
    }
  }

  // ---- TCP ----

  /** Transaction, protocol 0, the length of what follows, unit, PDU. */
  ghost predicate TcpOnWire(header: MbapHeader, pdu: Bytes, s: Bytes) {
    && |s| == |pdu| + 7
    && WordAt(s, 0, header.transaction) && s[2] == 0 && s[3] == 0 && WordAt(s, 4, |pdu| + 1)
    && s[6] == header.unit && BytesAt(s, 7, pdu)
  }

  lemma {:induction false} TcpWrapping(header: MbapHeader, pdu: Bytes, s: Bytes)
    requires |pdu| <= 253
    ensures WrapTcp(header, pdu) == s <==> TcpOnWire(header, pdu, s)
  {
    var t, n := header.transaction, |pdu| + 1;
    var w := [t / 256, t % 256, 0, 0, n / 256, n % 256, header.unit] + pdu;
    assert WrapTcp(header, pdu) == w;
    if TcpOnWire(header, pdu, s) {
      assert forall k :: 0 <= k < |pdu| ==> s[7 + k] == pdu[k];
      forall i | 0 <= i < |s|
        ensures s[i] == w[i]
      {
        assert 7 <= i ==> s[i] == pdu[i - 7];
      }
    }
  }

  lemma {:induction false} TcpSplitting(header: MbapHeader, pdu: Bytes, s: Bytes)
    ensures SplitTcp(s) == Ok((header, pdu)) <==> 1 <= |pdu| <= 253 && TcpOnWire(header, pdu, s)
  {
    hide SplitTcp;
    hide WrapTcp;
    hide TcpOnWire;
    if 1 <= |pdu| <= 253 {
      TcpWrapping(header, pdu, s);
      SplitWrappedTcp(header, pdu);
    }
    if SplitTcp(s).Ok? {
      WrapSplitTcp(s);
    }
  }

  /** The 16-bit number that stands at a position, its high byte first. */
  function NumberAt(s: Bytes, i: nat): (w: Word)
    requires i + 2 <= |s|
    ensures WordAt(s, i, w)
  {
    (s[i] as int) * 256 + s[i + 1] as int
  }

  /** Why a frame does not split. */
  lemma {:induction false} TcpRefusals(s: Bytes)
    ensures SplitTcp(s).Err?
            ==> SplitTcp(s).error
                == if 260 < |s| then AduTooLarge
                   else if |s| < 8 then Truncated
                   else if NumberAt(s, 2) != 0 then ProtocolIdentifier(NumberAt(s, 2))
                   else if NumberAt(s, 4) == 0 || 254 < NumberAt(s, 4) then OutOfRange
                   else InvalidLength
  {
  }

  /** The length is read off the fifth and sixth byte, and must be one a frame can have. */
  lemma {:induction false} TcpLength(s: Bytes)
    ensures AduLen(s) == if |s| < 6 then Err(Truncated)
                         else if 1 <= NumberAt(s, 4) <= 254 then Ok(6 + NumberAt(s, 4))
                         else Err(OutOfRange)
  {
  }

  // ---- ASCII ----

  /** The character for a number below 16. */
  function HexCharacter(n: nat): int
    requires n < 16
  {
    if n < 10 then '0' as int + n else 'A' as int + n - 10
  }

  /** The sum of bytes, unbounded. */
  function Total(s: Bytes): nat {
    if s == [] then 0 else s[0] + Total(s[1..])
  }

  /** A byte as two characters, the high half first. */
  ghost predicate HexAt(s: Bytes, i: nat, b: Byte) {
    i + 2 <= |s| && s[i] == HexCharacter(b / 16) && s[i + 1] == HexCharacter(b % 16)
  }

  /** A colon, the address, the PDU and a byte that makes them sum to zero, all as character pairs, then CR LF. */
  ghost predicate AsciiOnWire(address: Byte, pdu: Bytes, lrc: Byte, s: Bytes) {
    && |s| == 2 * |pdu| + 7
    && s[0] == ':' as int && s[|s| - 2] == '\r' as int && s[|s| - 1] == '\n' as int
    && HexAt(s, 1, address)
    && (forall k :: 0 <= k < |pdu| ==> HexAt(s, 3 + 2 * k, pdu[k]))
    && HexAt(s, 3 + 2 * |pdu|, lrc)
    && (address + Total(pdu) + lrc) % 256 == 0
  }

  lemma {:induction false} TotalIsSum(s: Bytes)
    ensures Total(s) % 256 == Sum(s)
  {
    if s == [] {
    } else {
      TotalIsSum(s[1..]);
      Wrapped(s[0], Total(s[1..]));
    }
  }

  lemma {:induction false} Wrapped(a: Byte, b: nat)
    ensures (a + b) % 256 == Add(a, b % 256)
  {
    assert b == 256 * (b / 256) + b % 256;
    var r := a + b % 256;
    if r < 256 {
      assert a + b == 256 * (b / 256) + r;
    } else {
      assert a + b == 256 * (b / 256 + 1) + (r - 256);
    }
  }

  lemma {:induction false} LrcIsComplement(address: Byte, pdu: Bytes, lrc: Byte)
    ensures Lrc([address] + pdu) == lrc <==> (address + Total(pdu) + lrc) % 256 == 0
  {
    hide Lrc;
    var covered := [address] + pdu;
    LrcBalances(covered, lrc);
    TotalIsSum(covered + [lrc]);
    assert (covered + [lrc])[1..] == pdu + [lrc];
    TotalEnd(pdu, lrc);
  }

  lemma {:induction false} TotalEnd(s: Bytes, b: Byte)
    ensures Total(s + [b]) == Total(s) + b
  {
    if s == [] {
      assert s + [b] == [b] && [b][1..] == [];
    } else {
      assert (s + [b])[1..] == s[1..] + [b];
      TotalEnd(s[1..], b);
    }
  }

  lemma {:induction false} PairCharacters(b: Byte)
    ensures Pair(b) == [HexCharacter(b / 16), HexCharacter(b % 16)]
  {
  }

  /** Where a byte string stands once it is spelled in pairs. */
  lemma {:induction false} HexStands(bytes: Bytes, k: nat)
    requires k < |bytes|
    ensures HexAt(Hex(bytes), 2 * k, bytes[k])
    decreases k
  {
    hide Pair;
    PairCharacters(bytes[0]);
    if k == 0 {
    } else {
      HexStands(bytes[1..], k - 1);
      assert Hex(bytes)[2..] == Hex(bytes[1..]);
      assert forall i :: 0 <= i < |Hex(bytes[1..])| ==> Hex(bytes)[2 + i] == Hex(bytes[1..])[i];
    }
  }

  lemma {:induction false} AsciiSpelled(address: Byte, pdu: Bytes)
    ensures AsciiOnWire(address, pdu, Lrc([address] + pdu), WrapAscii(address, pdu))
  {
    hide Hex;
    hide Lrc;
    hide HexAt;
    var lrc, s := Lrc([address] + pdu), WrapAscii(address, pdu);
    var bytes := [address] + pdu + [lrc];
    LrcIsComplement(address, pdu, lrc);
    forall k | 0 <= k < |bytes|
      ensures HexAt(s, 1 + 2 * k, bytes[k])
    {
      HexStands(bytes, k);
      HexMoved(Hex(bytes), s, 2 * k, bytes[k]);
    }
    assert HexAt(s, 1 + 2 * 0, bytes[0]);
    forall k | 0 <= k < |pdu|
      ensures HexAt(s, 3 + 2 * k, pdu[k])
    {
      assert HexAt(s, 1 + 2 * (k + 1), bytes[k + 1]);
    }
    assert HexAt(s, 1 + 2 * (|pdu| + 1), bytes[|pdu| + 1]);
  }

  lemma {:induction false} HexMoved(chars: Bytes, s: Bytes, i: nat, b: Byte)
    requires HexAt(chars, i, b) && s == [START] + (chars + [CR, LF])
    ensures HexAt(s, 1 + i, b)
  {
  }

  lemma {:induction false} AsciiOnce(address: Byte, pdu: Bytes, lrc: Byte, a: Bytes, b: Bytes)
    requires AsciiOnWire(address, pdu, lrc, a) && AsciiOnWire(address, pdu, lrc, b)
    ensures a == b
  {
    forall i | 0 <= i < |a|
      ensures a[i] == b[i]
    {
      if 3 <= i < 3 + 2 * |pdu| {
        var k := (i - 3) / 2;
        assert HexAt(a, 3 + 2 * k, pdu[k]) && HexAt(b, 3 + 2 * k, pdu[k]);
        assert i == 3 + 2 * k || i == 3 + 2 * k + 1;
      }
    }
  }

  lemma {:induction false} AsciiWrapping(address: Byte, pdu: Bytes, s: Bytes)
    ensures WrapAscii(address, pdu) == s <==> exists lrc :: AsciiOnWire(address, pdu, lrc, s)
  {
    hide WrapAscii;
    hide Lrc;
    AsciiSpelled(address, pdu);
    if lrc :| AsciiOnWire(address, pdu, lrc, s) {
      LrcIsComplement(address, pdu, lrc);
      AsciiOnce(address, pdu, lrc, s, WrapAscii(address, pdu));
    }
  }

  // ---- Either case is read ----

  lemma {:induction false} NibbleUpper(c: Byte)
    ensures Nibble(Upper(c)).Ok? <==> Nibble(c).Ok?
    ensures Nibble(c).Ok? ==> Nibble(Upper(c)) == Nibble(c)
  {
  }

  lemma {:induction false} DecodeUpper(chars: Bytes)
    requires |chars| % 2 == 0 && DecodeHex(Uppercased(chars)).Ok?
    ensures DecodeHex(chars) == DecodeHex(Uppercased(chars))
  {
    if chars == [] {
    } else {
      hide Nibble;
      hide Upper;
      NibbleUpper(chars[0]);
      NibbleUpper(chars[1]);
      assert Uppercased(chars)[2..] == Uppercased(chars[2..]);
      DecodeUpper(chars[2..]);
    }
  }

  lemma {:induction false} SplitUpper(s: Bytes)
    requires SplitAscii(Uppercased(s)).Ok?
    ensures SplitAscii(s) == SplitAscii(Uppercased(s))
  {
    hide DecodeHex;
    hide Checked;
    var u := Uppercased(s);
    assert Characters(u) == Uppercased(Characters(s));
    DecodeUpper(Characters(s));
    assert u[|u| - 2..] == [u[|u| - 2], u[|u| - 1]] && s[|s| - 2..] == [s[|s| - 2], s[|s| - 1]];
  }

  /** A frame splits into this address and PDU if and only if, its letters upper-cased, it is spelled so. */
  lemma {:induction false} AsciiSplitting(address: Byte, pdu: Bytes, s: Bytes)
    ensures SplitAscii(s) == Ok((address, pdu))
            <==> 1 <= |pdu| <= 253 && exists lrc :: AsciiOnWire(address, pdu, lrc, Uppercased(s))
  {
    hide SplitAscii;
    hide WrapAscii;
    hide AsciiOnWire;
    AsciiWrapping(address, pdu, Uppercased(s));
    if SplitAscii(s).Ok? {
      WrapSplitAscii(s);
    }
    if 1 <= |pdu| <= 253 && WrapAscii(address, pdu) == Uppercased(s) {
      SplitWrappedAscii(address, pdu);
      SplitUpper(s);
    }
  }

  /** Why a frame does not split, up to its characters. */
  lemma {:induction false} AsciiRefusals(s: Bytes)
    ensures 513 < |s| ==> SplitAscii(s) == Err(AduTooLarge)
    ensures |s| < 9 ==> SplitAscii(s) == Err(Truncated)
    ensures 9 <= |s| <= 513
            && (s[0] != ':' as int || s[|s| - 2] != '\r' as int || s[|s| - 1] != '\n' as int || |s| % 2 == 0)
            ==> SplitAscii(s) == Err(MalformedFraming)
  {
    if 9 <= |s| <= 513 {
      assert s[|s| - 2..] == [s[|s| - 2], s[|s| - 1]];
    }
  }

  /** The first character that is not hexadecimal is named. */
  lemma {:induction false} AsciiCharacters(s: Bytes, i: nat)
    requires |s| % 2 == 0 && i < |s| && Nibble(s[i]).Err?
    requires forall k :: 0 <= k < i ==> Nibble(s[k]).Ok?
    ensures DecodeHex(s) == Err(InvalidCharacter(s[i]))
    decreases |s|
  {
    hide Nibble;
    NibbleRefused(s[i]);
    if i < 2 {
    } else {
      AsciiCharacters(s[2..], i - 2);
    }
  }

  lemma {:induction false} NibbleRefused(c: Byte)
    ensures Nibble(c).Err? ==> Nibble(c).error == InvalidCharacter(c)
    ensures Nibble(c).Ok? <==> exists n :: 0 <= n < 16 && Upper(c) == HexCharacter(n)
  {
    if Nibble(c).Ok? {
      assert Upper(c) == HexCharacter(Nibble(c).value);
    }
  }
}
