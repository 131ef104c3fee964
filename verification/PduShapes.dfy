/** Each shared PDU layout reads back what it writes and writes back what it reads. */
module PduShapes {
  import opened Basics
  import opened Bits
  import opened Parsing
  import opened Pdu
  import Codes

  lemma {:induction false} WordPairWritten(a: Word, b: Word, rest: Bytes)
    ensures WordPair(Be(a) + Be(b) + rest) == Got((a, b), rest)
  {
    hide U16;
    hide Be;
    assert Be(a) + Be(b) + rest == Be(a) + (Be(b) + rest);
    U16Writes(a, Be(b) + rest);
    U16Writes(b, rest);
  }

  lemma {:induction false} PairWritten(a: Word, b: Word)
    ensures WordPair(Be(a) + Be(b)) == Got((a, b), [])
  {
    hide WordPair;
    WordPairWritten(a, b, []);
    assert Be(a) + Be(b) + [] == Be(a) + Be(b);
  }

  lemma {:induction false} WordPairRead(s: Bytes)
    requires WordPair(s).Got?
    ensures s == Be(WordPair(s).value.0) + Be(WordPair(s).value.1) + WordPair(s).rest
  {
    hide U16;
    hide Be;
    U16Reads(s);
    U16Reads(U16(s).rest);
    var p := WordPair(s);
    assert s == Be(p.value.0) + (Be(p.value.1) + p.rest);
  }

  lemma {:induction false} WordTripleWritten(a: Word, b: Word, c: Word)
    ensures WordTriple(Be(a) + (Be(b) + Be(c))) == Got((a, b, c), [])
  {
    hide U16;
    hide Be;
    U16Writes(a, Be(b) + Be(c));
    U16Writes(b, Be(c));
    U16Writes(c, []);
    assert Be(c) + [] == Be(c);
  }

  lemma {:induction false} WordTripleRead(s: Bytes)
    requires WordTriple(s).Got?
    ensures var p := WordTriple(s); s == Be(p.value.0) + (Be(p.value.1) + Be(p.value.2)) + p.rest
  {
    hide U16;
    hide Be;
    U16Reads(s);
    U16Reads(U16(s).rest);
    U16Reads(U16(U16(s).rest).rest);
    var p := WordTriple(s);
    assert s == Be(p.value.0) + (Be(p.value.1) + (Be(p.value.2) + p.rest));
    assert Be(p.value.1) + (Be(p.value.2) + p.rest) == Be(p.value.1) + Be(p.value.2) + p.rest;
  }

  lemma {:induction false} ReadRequestWritten(address: Word, quantity: Word, max: nat, rest: Bytes)
    requires ReadBytes(address, quantity, max).Ok?
    ensures ReadRequest(ReadBytes(address, quantity, max).value + rest, max) == Got((address, quantity), rest)
  {
    hide WordPair;
    WordPairWritten(address, quantity, rest);
  }

  lemma {:induction false} ReadWritten(address: Word, quantity: Word, max: nat)
    requires ReadBytes(address, quantity, max).Ok?
    ensures ReadRequest(ReadBytes(address, quantity, max).value, max) == Got((address, quantity), [])
  {
    hide WordPair;
    PairWritten(address, quantity);
  }

  lemma {:induction false} ReadRequestRead(s: Bytes, max: nat)
    requires ReadRequest(s, max).Got?
    ensures var p := ReadRequest(s, max);
            ReadBytes(p.value.0, p.value.1, max).Ok? && s == ReadBytes(p.value.0, p.value.1, max).value + p.rest
  {
    hide WordPair;
    WordPairRead(s);
  }

  lemma {:induction false} SingleCoilWritten(address: Word, on: bool)
    ensures SingleCoil(Be(address) + Be(CoilWord(on))) == Got((address, on), [])
  {
    hide WordPair;
    hide Be;
    PairWritten(address, CoilWord(on));
  }

  lemma {:induction false} SingleCoilRead(s: Bytes)
    requires SingleCoil(s).Got?
    ensures var p := SingleCoil(s); s == Be(p.value.0) + Be(CoilWord(p.value.1)) + p.rest
  {
    hide WordPair;
    hide Be;
    WordPairRead(s);
  }

  /** What `quantified_bytes` reads after the address that precedes it. */
  lemma {:induction false} QuantifiedWritten(address: Word, quantity: nat, data: Bytes, max: nat, bits: bool)
    requires max <= 0xFFFF && |data| == Width(bits, quantity)
    requires QuantifiedBytes(address, quantity, data, max).Ok?
    ensures var s := QuantifiedBytes(address, quantity, data, max).value;
            U16(s).Got? && U16(s).value == address && Quantified(U16(s).rest, max, bits) == Got((quantity, data), [])
  {
    hide U8;
    hide U16;
    hide Be;
    hide Take;
    var t := [|data|] + data;
    U16Writes(address, Be(quantity) + t);
    U16Writes(quantity, t);
    U8Writes(|data|, data);
    TakeWrites(data, []);
    assert data + [] == data;
  }

  lemma {:induction false} QuantifiedRead(s: Bytes, max: nat, bits: bool)
    requires max <= 0xFFFF
    requires U16(s).Got? && Quantified(U16(s).rest, max, bits).Got?
    ensures var q := Quantified(U16(s).rest, max, bits);
            && |q.value.1| == Width(bits, q.value.0)
            && QuantifiedBytes(U16(s).value, q.value.0, q.value.1, max).Ok?
            && s == QuantifiedBytes(U16(s).value, q.value.0, q.value.1, max).value + q.rest
  {
    hide U8;
    hide U16;
    hide Be;
    hide Take;
    hide Width;
    U16Reads(s);
    var s0 := U16(s).rest;
    U16Reads(s0);
    var s1 := U16(s0).rest;
    U8Reads(s1);
    TakeReads(U8(s1).rest, Width(bits, U16(s0).value));
    var q := Quantified(s0, max, bits);
    var a, b, c, d := Be(U16(s).value), Be(q.value.0), [|q.value.1|], q.value.1;
    assert s == a + (b + (c + (d + q.rest)));
    Nested(a, b, c, d, q.rest);
  }

  /** Concatenation may be regrouped. */
  lemma {:induction false} Nested(a: Bytes, b: Bytes, c: Bytes, d: Bytes, rest: Bytes)
    ensures a + (b + (c + (d + rest))) == a + (b + (c + d)) + rest
  {
    assert c + (d + rest) == c + d + rest;
    assert b + (c + d + rest) == b + (c + d) + rest;
  }

  lemma {:induction false} CountedWritten(data: Bytes)
    requires CountedBytes(data).Ok?
    ensures Counted(CountedBytes(data).value) == Got(data, [])
  {
    U8Writes(|data|, data);
    TakeWrites(data, []);
    assert data + [] == data;
  }

  lemma {:induction false} CountedRead(s: Bytes)
    requires Counted(s).Got?
    ensures Counted(s).rest == [] && CountedBytes(Counted(s).value) == Ok(s)
  {
    U8Reads(s);
    TakeReads(U8(s).rest, U8(s).value);
    assert Counted(s).value == U8(s).rest;
  }

  lemma {:induction false} RegistersWritten(registers: seq<Word>)
    requires CountedBytes(FromWords(registers)).Ok?
    ensures Registers(CountedBytes(FromWords(registers)).value) == Got(registers, [])
  {
    CountedWritten(FromWords(registers));
    WordsWritten(registers);
  }

  lemma {:induction false} RegistersRead(s: Bytes)
    requires Registers(s).Got?
    ensures Registers(s).rest == [] && CountedBytes(FromWords(Registers(s).value)) == Ok(s)
  {
    CountedRead(s);
    WordsRead(Counted(s).value);
  }

  lemma {:induction false} DiagnosticWritten(d: Codes.DiagnosticSubFunction, words: seq<Word>)
    requires DiagnosticBytes(d, words).Ok?
    ensures DiagnosticBody(DiagnosticBytes(d, words).value) == Got((d, words), [])
  {
    var raw := Codes.EncodeSubFunction(d).value;
    Codes.SubFunctionRoundTrip(raw, d);
    U16Writes(raw, FromWords(words));
    WordsWritten(words);
  }

  lemma {:induction false} DiagnosticRead(s: Bytes)
    requires DiagnosticBody(s).Got?
    ensures var p := DiagnosticBody(s); p.rest == [] && DiagnosticBytes(p.value.0, p.value.1) == Ok(s)
  {
    U16Reads(s);
    Codes.SubFunctionRoundTrip(U16(s).value, Codes.DecodeSubFunction(U16(s).value));
    WordsRead(U16(s).rest);
  }

  lemma {:induction false} FifoWritten(values: seq<Word>)
    requires FifoBytes(values).Ok?
    ensures FifoValues(FifoBytes(values).value) == Got(values, [])
  {
    hide U16;
    hide Be;
    hide Take;
    hide FromWords;
    hide WordsOf;
    var data := FromWords(values);
    U16Writes(2 * |values| + 2, Be(|values|) + data);
    U16Writes(|values|, data);
    TakeWrites(data, []);
    assert data + [] == data;
    WordsWritten(values);
  }

  lemma {:induction false} FifoRead(s: Bytes)
    requires FifoValues(s).Got?
    ensures var p := FifoValues(s); FifoBytes(p.value).Ok? && s == FifoBytes(p.value).value + p.rest
  {
    hide U16;
    hide Be;
    hide Take;
    hide FromWords;
    hide WordsOf;
    U16Reads(s);
    var s0 := U16(s).rest;
    U16Reads(s0);
    var count: nat, s1 := U16(s0).value, U16(s0).rest;
    TakeReads(s1, 2 * count);
    WordsRead(Take(s1, 2 * count).value);
    var p := FifoValues(s);
    var a, b, c := Be(2 * count + 2), Be(count), FromWords(p.value);
    assert s == a + (b + (c + p.rest));
    assert b + (c + p.rest) == b + c + p.rest;
    assert a + (b + c + p.rest) == a + (b + c) + p.rest;
  }

  lemma {:induction false} EventLogWritten(status: Word, eventCount: Word, messageCount: Word, events: Bytes)
    requires EventLogBytes(status, eventCount, messageCount, events).Ok?
    ensures EventLog(EventLogBytes(status, eventCount, messageCount, events).value)
            == Got(ResponsePdu.GetCommEventLog(status, eventCount, messageCount, events), [])
  {
    hide U8;
    hide U16;
    hide Be;
    hide Take;
    var t2 := Be(messageCount) + events;
    var t1 := Be(eventCount) + t2;
    var t0 := Be(status) + t1;
    U8Writes(EVENT_LOG_FIXED_BYTES + |events|, t0);
    U16Writes(status, t1);
    U16Writes(eventCount, t2);
    U16Writes(messageCount, events);
    TakeWrites(events, []);
    assert events + [] == events;
  }

  lemma {:induction false} EventLogRead(s: Bytes)
    requires EventLog(s).Got?
    ensures var p := EventLog(s);
            && p.value.GetCommEventLog?
            && var v := p.value;
            && EventLogBytes(v.status, v.eventCount, v.messageCount, v.events).Ok?
            && s == EventLogBytes(v.status, v.eventCount, v.messageCount, v.events).value + p.rest
  {
    hide U8;
    hide U16;
    hide Be;
    hide Take;
    U8Reads(s);
    var s0 := U8(s).rest;
    U16Reads(s0);
    var s1 := U16(s0).rest;
    U16Reads(s1);
    var s2 := U16(s1).rest;
    U16Reads(s2);
    var s3 := U16(s2).rest;
    TakeReads(s3, U8(s).value - EVENT_LOG_FIXED_BYTES);
    var p := EventLog(s);
    var v := p.value;
    assert s == [6 + |v.events|] + (Be(v.status) + (Be(v.eventCount) + (Be(v.messageCount) + (v.events + p.rest))));
    Nested(Be(v.status), Be(v.eventCount), Be(v.messageCount), v.events, p.rest);
    var t := Be(v.status) + (Be(v.eventCount) + (Be(v.messageCount) + v.events));
    assert [6 + |v.events|] + (t + p.rest) == [6 + |v.events|] + t + p.rest;
  }

  /** Coils pack into as many bytes as their number needs, and unpack with clear padding. */
  lemma {:induction false} CoilsWritten(coils: seq<bool>)
    ensures |PackBits(coils)| == Width(true, |coils|)
    ensures PackedBits(PackBits(coils), |coils|) == Ok(coils)
  {
    Packed(coils);
  }

  lemma {:induction false} CoilsRead(data: Bytes, quantity: nat)
    requires |data| == Width(true, quantity)
    requires PackedBits(data, quantity).Ok?
    ensures |PackedBits(data, quantity).value| == quantity && PackBits(PackedBits(data, quantity).value) == data
  {
    Unpacked(data, quantity);
  }

  lemma {:induction false} WholeBytes(n: nat)
    ensures 8 * PackedLen(n) == n <==> n % 8 == 0
  {
  }

  /** Whole bytes of bits survive packing; anything else comes back longer. */
  lemma {:induction false} BitReadWritten(bits: seq<bool>)
    ensures AllBits(PackBits(bits)) == bits <==> |bits| % 8 == 0
  {
    hide AllBits;
    hide PackBits;
    hide PackedLen;
    Packed(bits);
    WholeBytes(|bits|);
    var back := AllBits(PackBits(bits));
    if |bits| % 8 == 0 {
      assert back[..|bits|] == back;
    }
  }

  lemma {:induction false} BitReadRead(data: Bytes)
    ensures PackBits(AllBits(data)) == data && |AllBits(data)| % 8 == 0
  {
    hide AllBits;
    hide PackBits;
    Unpacked(data, 8 * |data|);
    assert AllBits(data)[..8 * |data|] == AllBits(data);
  }
}
