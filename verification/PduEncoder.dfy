/**
 * Appending encoders over one growing buffer (`encode_into` and `write` of src/frame/{pdu,file,mei,exception}.rs).
 * A failing writer may leave part of its bytes behind; `encode_into` restores the buffer.
 */
module PduEncoder {
  import opened Basics
  import opened Bits
  import opened Parsing
  import opened Items
  import opened FileRecords
  import opened Mei
  import opened Pdu
  import Codes

  class OutBuffer {
    var data: Bytes

    constructor ()
      ensures data == []
    {
      data := [];
    }

    method Push(b: Byte)
      modifies this
      ensures data == old(data) + [b]
    {
      data := data + [b];
    }

    method Extend(bytes: Bytes)
      modifies this
      ensures data == old(data) + bytes
    {
      data := data + bytes;
    }

    method Truncate(len: nat)
      requires len <= |data|
      modifies this
      ensures data == old(data)[..len]
    {
      data := data[..len];
    }

    method Patch(at: nat, b: Byte)
      requires at < |data|
      modifies this
      ensures data == old(data)[at := b]
    {
      data := data[at := b];
    }
  }

  /** A writer did what the encoding says: it appended exactly that, or failed having only appended. */
  ghost predicate Wrote(before: Bytes, after: Bytes, r: Result<()>, encoding: Result<Bytes>) {
    match encoding
    case Ok(bytes) => r == Ok(()) && after == before + bytes
    case Err(error) => r == Err(error) && before <= after
  }

  /** `finish`: measured against what this PDU wrote, not against the buffer. */
  method FinishPdu(out: OutBuffer, at: nat) returns (r: Result<()>)
    requires at <= |out.data|
    ensures r == if |out.data| - at > MAX_PDU_LEN then Err(PduTooLarge) else Ok(())
  {
    if |out.data| - at > MAX_PDU_LEN {
      return Err(PduTooLarge);
    }
    return Ok(());
  }

  /** `push_registers` and `push_words`. */
  method PushWords(out: OutBuffer, words: seq<Word>)
    modifies out
    ensures out.data == old(out.data) + FromWords(words)
  {
    for i := 0 to |words|
      invariant out.data + FromWords(words[i..]) == old(out.data) + FromWords(words)
    {
      assert words[i..][1..] == words[i + 1..];
      assert out.data + FromWords(words[i..]) == out.data + Be(words[i]) + FromWords(words[i + 1..]);
      out.Extend(Be(words[i]));
    }
    assert FromWords(words[|words|..]) == [];
  }

  /** `push_bits`: one byte for every eight bits. */
  method PushBits(out: OutBuffer, bits: seq<bool>)
    modifies out
    ensures out.data == old(out.data) + PackBits(bits)
  {
    var i := 0;
    while i < |bits|
      invariant 0 <= i <= |bits|
      invariant out.data + PackBits(bits[i..]) == old(out.data) + PackBits(bits)
    {
      var chunk := if i + 8 <= |bits| then bits[i..i + 8] else bits[i..];
      PackChunk(bits[i..], chunk);
      assert bits[i..][|chunk|..] == bits[i + |chunk|..];
      assert out.data + PackBits(bits[i..]) == out.data + [ByteFromBits(chunk)] + PackBits(bits[i + |chunk|..]);
      out.Push(ByteFromBits(chunk));
      i := i + |chunk|;
    }
    assert PackBits(bits[i..]) == [];
  }

  lemma {:induction false} PackChunk(bits: seq<bool>, chunk: seq<bool>)
    requires bits != [] && chunk == if 8 <= |bits| then bits[..8] else bits
    ensures PackBits(bits) == [ByteFromBits(chunk)] + PackBits(bits[|chunk|..])
  {
    if |bits| <= 8 {
      assert chunk == bits && bits[|chunk|..] == [];
    }
  }

  /** `encode_single` and `encode_echo_quantity`: a code and two words. */
  method WritePair(out: OutBuffer, code: Byte, a: Word, b: Word) returns (r: Result<()>)
    modifies out
    ensures Wrote(old(out.data), out.data, r, Finish([code] + (Be(a) + Be(b))))
  {
    var at := |out.data|;
    out.Push(code);
    out.Extend(Be(a));
    out.Extend(Be(b));
    assert out.data == old(out.data) + ([code] + (Be(a) + Be(b)));
    r := FinishPdu(out, at);
  }

  /** `encode_read`. */
  method WriteRead(out: OutBuffer, code: Byte, address: Word, quantity: Word, max: nat) returns (r: Result<()>)
    modifies out
    ensures Wrote(old(out.data), out.data, r, Behind(code, ReadBytes(address, quantity, max)))
  {
    if !(1 <= quantity <= max) {
      return Err(OutOfRange);
    }
    r := WritePair(out, code, address, quantity);
  }

  /** A PDU of this code and these fields. */
  function Behind(code: Byte, fields: Result<Bytes>): Result<Bytes> {
    var bytes :- fields;
    Finish([code] + bytes)
  }

  /** `encode_quantified` for registers. */
  method WriteRegisters(out: OutBuffer, code: Byte, address: Word, registers: seq<Word>, max: nat)
    returns (r: Result<()>)
    requires max <= 0xFFFF
    modifies out
    ensures Wrote(old(out.data), out.data, r,
                  Behind(code, QuantifiedBytes(address, |registers|, FromWords(registers), max)))
  {
    if !(1 <= |registers| <= max) {
      return Err(OutOfRange);
    }
    if 2 * |registers| > 255 {
      return Err(PduTooLarge);
    }
    var at := |out.data|;
    out.Push(code);
    out.Extend(Be(address));
    out.Extend(Be(|registers|));
    out.Push(2 * |registers|);
    PushWords(out, registers);
    assert out.data == old(out.data)
                       + ([code] + (Be(address) + (Be(|registers|) + ([2 * |registers|] + FromWords(registers)))));
    r := FinishPdu(out, at);
  }

  /** `encode_quantified` for coils. */
  method WriteCoils(out: OutBuffer, address: Word, coils: seq<bool>) returns (r: Result<()>)
    modifies out
    ensures Wrote(old(out.data), out.data, r,
                  Behind(15, QuantifiedBytes(address, |coils|, PackBits(coils), MAX_WRITE_BITS)))
  {
    if !(1 <= |coils| <= MAX_WRITE_BITS) {
      return Err(OutOfRange);
    }
    var length := PackedLen(|coils|);
    var at := |out.data|;
    out.Push(15);
    out.Extend(Be(address));
    out.Extend(Be(|coils|));
    out.Push(length);
    PushBits(out, coils);
    assert out.data == old(out.data) + ([15] + (Be(address) + (Be(|coils|) + ([length] + PackBits(coils)))));
    r := FinishPdu(out, at);
  }

  /** `MaskWriteRegister` in either direction. */
  method WriteMask(out: OutBuffer, address: Word, andMask: Word, orMask: Word) returns (r: Result<()>)
    modifies out
    ensures Wrote(old(out.data), out.data, r, Finish([22] + (Be(address) + (Be(andMask) + Be(orMask)))))
  {
    var at := |out.data|;
    out.Push(22);
    out.Extend(Be(address));
    out.Extend(Be(andMask));
    out.Extend(Be(orMask));
    assert out.data == old(out.data) + ([22] + (Be(address) + (Be(andMask) + Be(orMask))));
    r := FinishPdu(out, at);
  }

  method WriteReadWrite(
    out: OutBuffer, readAddress: Word, readQuantity: Word, writeAddress: Word, registers: seq<Word>)
    returns (r: Result<()>)
    modifies out
    ensures Wrote(old(out.data), out.data, r,
                  Behind(23, ReadWriteBytes(readAddress, readQuantity, writeAddress, registers)))
  {
    if !(1 <= readQuantity <= MAX_READ_REGISTERS) || !(1 <= |registers| <= MAX_RW_WRITE_REGISTERS) {
      return Err(OutOfRange);
    }
    var at := |out.data|;
    out.Push(23);
    out.Extend(Be(readAddress));
    out.Extend(Be(readQuantity));
    out.Extend(Be(writeAddress));
    out.Extend(Be(|registers|));
    out.Push(2 * |registers|);
    PushWords(out, registers);
    assert out.data == old(out.data)
                       + ([23] + ((Be(readAddress) + Be(readQuantity))
                                  + (Be(writeAddress) + (Be(|registers|) + ([2 * |registers|] + FromWords(registers))))));
    r := FinishPdu(out, at);
  }

  /** `encode_bare`. */
  method WriteBare(out: OutBuffer, code: Byte) returns (r: Result<()>)
    modifies out
    ensures Wrote(old(out.data), out.data, r, Finish([code] + []))
  {
    var at := |out.data|;
    out.Push(code);
    assert [code] + [] == [code];
    r := FinishPdu(out, at);
  }

  /** `encode_diagnostics`: the code goes down before the sub-function is known to encode. */
  method WriteDiagnostics(out: OutBuffer, subFunction: Codes.DiagnosticSubFunction, words: seq<Word>)
    returns (r: Result<()>)
    modifies out
    ensures Wrote(old(out.data), out.data, r, Behind(8, DiagnosticBytes(subFunction, words)))
  {
    var at := |out.data|;
    out.Push(8);
    var raw :- Codes.EncodeSubFunction(subFunction);
    out.Extend(Be(raw));
    PushWords(out, words);
    assert out.data == old(out.data) + ([8] + (Be(raw) + FromWords(words)));
    r := FinishPdu(out, at);
  }

  function CustomBytes(code: Byte, data: Bytes): Result<Bytes> {
    var byte :- Codes.EncodeFunction(Codes.Custom(code));
    Finish([byte] + data)
  }

  /** `encode_custom`. */
  method WriteCustom(out: OutBuffer, code: Byte, data: Bytes) returns (r: Result<()>)
    modifies out
    ensures Wrote(old(out.data), out.data, r, CustomBytes(code, data))
  {
    var at := |out.data|;
    var byte :- Codes.EncodeFunction(Codes.Custom(code));
    out.Push(byte);
    out.Extend(data);
    assert out.data == old(out.data) + ([byte] + data);
    r := FinishPdu(out, at);
  }

  /** Every item's bytes in turn, until one does not encode. */
  method AppendAll<T>(out: OutBuffer, render: T -> Result<Bytes>, items: seq<T>) returns (r: Result<()>)
    modifies out
    ensures Wrote(old(out.data), out.data, r, RenderAll(render, items))
  {
    ghost var all := RenderAll(render, items);
    assert items[0..] == items;
    for i := 0 to |items|
      invariant old(out.data) <= out.data
      invariant Before(out.data, RenderAll(render, items[i..])) == Before(old(out.data), all)
    {
      assert items[i..][1..] == items[i + 1..];
      match render(items[i])
      case Err(error) =>
        return Err(error);
      case Ok(bytes) =>
        BeforeStep(out.data, bytes, RenderAll(render, items[i + 1..]));
        out.Extend(bytes);
    }
    AllWritten(render, out.data, items[|items|..]);
    r := Ok(());
  }

  lemma {:induction false} AllWritten<T>(render: T -> Result<Bytes>, data: Bytes, items: seq<T>)
    requires items == []
    ensures Before(data, RenderAll(render, items)) == Ok(data)
  {
    assert data + [] == data;
  }

  /** `body`: a placeholder length, the items, then the length patched in. */
  method WriteBody<T>(out: OutBuffer, render: T -> Result<Bytes>, items: seq<T>, min: nat, max: nat)
    returns (r: Result<()>)
    requires max <= 255
    modifies out
    ensures Wrote(old(out.data), out.data, r, RenderBody(render, items, min, max))
  {
    hide RenderAll;
    var at := |out.data|;
    out.Push(0);
    var _ :- AppendAll(out, render, items);
    ghost var body := RenderAll(render, items).value;
    var length := |out.data| - at - 1;
    if !(min <= length <= max) {
      return Err(OutOfRange);
    }
    Patched(old(out.data), body, length);
    out.Patch(at, length);
    r := Ok(());
  }

  lemma {:induction false} Patched(before: Bytes, body: Bytes, length: Byte)
    ensures (before + [0] + body)[|before| := length] == before + ([length] + body)
  {
  }

  /** A byte result with `prefix` put before it. */
  function Before(prefix: Bytes, r: Result<Bytes>): Result<Bytes> {
    match r
    case Ok(bytes) => Ok(prefix + bytes)
    case Err(error) => Err(error)
  }

  lemma {:induction false} BeforeStep(prefix: Bytes, head: Bytes, tail: Result<Bytes>)
    ensures Before(prefix, Before(head, tail)) == Before(prefix + head, tail)
  {
    if tail.Ok? {
      assert prefix + (head + tail.value) == prefix + head + tail.value;
    }
  }

  /** `mei::encode_request_into`. */
  method WriteMeiRequest(out: OutBuffer, m: MeiRequest)
    modifies out
    ensures out.data == old(out.data) + EncodeMeiRequest(m)
  {
    match m
    case CanOpenRequest(data) =>
      out.Push(CANOPEN);
      out.Extend(data);
    case ReadDeviceIdentification(code, objectId) =>
      out.Push(READ_DEVICE_ID);
      out.Push(EncodeIdCode(code));
      out.Push(objectId);
    case OtherRequest(meiType, data) =>
      out.Push(meiType);
      out.Extend(data);
  }

  /** The object list of a device identification, one object at a time. */
  method WriteObjects(out: OutBuffer, objects: seq<DeviceIdObject>) returns (r: Result<()>)
    modifies out
    ensures Wrote(old(out.data), out.data, r, RenderAll(RenderObject, objects))
  {
    ghost var all := RenderAll(RenderObject, objects);
    assert objects[0..] == objects;
    for i := 0 to |objects|
      invariant old(out.data) <= out.data
      invariant Before(out.data, RenderAll(RenderObject, objects[i..])) == Before(old(out.data), all)
    {
      assert objects[i..][1..] == objects[i + 1..];
      var item := objects[i];
      if |item.value| > 255 {
        return Err(OutOfRange);
      }
      BeforeStep(out.data, RenderObject(item).value, RenderAll(RenderObject, objects[i + 1..]));
      Assoc(out.data, [item.id], [|item.value|] + item.value);
      Assoc(out.data + [item.id], [|item.value|], item.value);
      out.Push(item.id);
      out.Push(|item.value|);
      out.Extend(item.value);
    }
    AllWritten(RenderObject, out.data, objects[|objects|..]);
    r := Ok(());
  }

  /** The fixed head of a device identification and its object list. */
  method WriteIdentification(
    out: OutBuffer, code: ReadDeviceIdCode, level: Byte, moreFollows: bool, next: Byte, objects: seq<DeviceIdObject>)
    returns (r: Result<()>)
    modifies out
    ensures Wrote(old(out.data), out.data, r,
                  EncodeMeiResponse(DeviceIdentification(code, level, moreFollows, next, objects)))
  {
    if |objects| > 255 {
      return Err(OutOfRange);
    }
    out.Push(READ_DEVICE_ID);
    out.Push(EncodeIdCode(code));
    out.Push(level);
    out.Push(if moreFollows then 0xFF else 0x00);
    out.Push(next);
    out.Push(|objects|);
    ghost var t := old(out.data) + [READ_DEVICE_ID];
    assert t + [EncodeIdCode(code)] + [level] + [MoreFollows(moreFollows)] + [next] + [|objects|] == out.data;
    r := WriteObjects(out, objects);
    if r.Ok? {
      ghost var list := RenderAll(RenderObject, objects).value;
      Assoc(t + [EncodeIdCode(code)] + [level] + [MoreFollows(moreFollows)] + [next], [|objects|], list);
      Assoc(t + [EncodeIdCode(code)] + [level] + [MoreFollows(moreFollows)], [next], [|objects|] + list);
      Assoc(t + [EncodeIdCode(code)] + [level], [MoreFollows(moreFollows)], [next] + ([|objects|] + list));
      Assoc(t + [EncodeIdCode(code)], [level], [MoreFollows(moreFollows)] + ([next] + ([|objects|] + list)));
      Assoc(t, [EncodeIdCode(code)], [level] + ([MoreFollows(moreFollows)] + ([next] + ([|objects|] + list))));
      Assoc(old(out.data), [READ_DEVICE_ID], Identification(code, level, moreFollows, next, |objects|, list));
    }
  }

  /** `mei::encode_response_into`. */
  method WriteMeiResponse(out: OutBuffer, m: MeiResponse) returns (r: Result<()>)
    modifies out
    ensures Wrote(old(out.data), out.data, r, EncodeMeiResponse(m))
  {
    match m
    case CanOpenResponse(data) =>
      out.Push(CANOPEN);
      out.Extend(data);
      assert out.data == old(out.data) + ([CANOPEN] + data);
      return Ok(());
    case DeviceIdentification(code, level, moreFollows, next, objects) =>
      r := WriteIdentification(out, code, level, moreFollows, next, objects);
    case OtherResponse(meiType, data) =>
      out.Push(meiType);
      out.Extend(data);
      assert out.data == old(out.data) + ([meiType] + data);
      return Ok(());
  }

  /** `encode_body` around a list of file records. */
  method WriteRecords<T>(out: OutBuffer, code: Byte, render: T -> Result<Bytes>, items: seq<T>, min: nat, max: nat)
    returns (r: Result<()>)
    requires max <= 255
    modifies out
    ensures Wrote(old(out.data), out.data, r, Behind(code, RenderBody(render, items, min, max)))
  {
    var at := |out.data|;
    out.Push(code);
    var _ :- WriteBody(out, render, items, min, max);
    Assoc(old(out.data), [code], RenderBody(render, items, min, max).value);
    r := FinishPdu(out, at);
  }

  /** A code, its fields already rendered. */
  method WriteFields(out: OutBuffer, code: Byte, fields: Bytes) returns (r: Result<()>)
    modifies out
    ensures Wrote(old(out.data), out.data, r, Finish([code] + fields))
  {
    var at := |out.data|;
    out.Push(code);
    out.Extend(fields);
    Assoc(old(out.data), [code], fields);
    r := FinishPdu(out, at);
  }

  /** `encode_body` around an MEI request. */
  method WriteTransportRequest(out: OutBuffer, mei: MeiRequest) returns (r: Result<()>)
    modifies out
    ensures Wrote(old(out.data), out.data, r, Finish([43] + EncodeMeiRequest(mei)))
  {
    var at := |out.data|;
    out.Push(43);
    WriteMeiRequest(out, mei);
    Assoc(old(out.data), [43], EncodeMeiRequest(mei));
    r := FinishPdu(out, at);
  }

  /** `encode_body` around an MEI response. */
  method WriteTransportResponse(out: OutBuffer, mei: MeiResponse) returns (r: Result<()>)
    modifies out
    ensures Wrote(old(out.data), out.data, r, Behind(43, EncodeMeiResponse(mei)))
  {
    var at := |out.data|;
    out.Push(43);
    var _ :- WriteMeiResponse(out, mei);
    Assoc(old(out.data), [43], EncodeMeiResponse(mei).value);
    r := FinishPdu(out, at);
  }

  /** The diagnostic, file record and transport requests. */
  method WriteRequestTail(out: OutBuffer, p: RequestPdu) returns (r: Result<()>)
    requires p.ReadExceptionStatus? || p.Diagnostics? || p.GetCommEventCounter? || p.GetCommEventLog? || p.ReportServerId?
             || p.ReadFileRecord? || p.WriteFileRecord? || p.ReadFifoQueue? || p.EncapsulatedInterfaceTransport? || p.Custom?
    modifies out
    ensures Wrote(old(out.data), out.data, r, EncodeRequest(p))
  {
    hide Be;
    hide Finish;
    hide ReadBytes;
    hide QuantifiedBytes;
    hide CountedBytes;
    hide DiagnosticBytes;
    hide FromWords;
    hide PackBits;
    hide RenderBody;
    hide EncodeMeiRequest;
    hide EncodeMeiResponse;
    hide Wrote;
    hide ReadWriteBytes;
    match p
    case ReadExceptionStatus => r := WriteBare(out, 7);
    case Diagnostics(subFunction, words) => r := WriteDiagnostics(out, subFunction, words);
    case GetCommEventCounter => r := WriteBare(out, 11);
    case GetCommEventLog => r := WriteBare(out, 12);
    case ReportServerId => r := WriteBare(out, 17);
    case ReadFileRecord(records) => r := WriteRecords(out, 20, RenderRead, records, 7, 245);
    case WriteFileRecord(records) => r := WriteRecords(out, 21, RenderWrite, records, 9, 251);
    case ReadFifoQueue(address) => r := WriteFields(out, 24, Be(address));
    case EncapsulatedInterfaceTransport(mei) => r := WriteTransportRequest(out, mei);
    case Custom(code, data) => r := WriteCustom(out, code, data);
  }

  /** `RequestPdu::write`. */
  method WriteRequest(out: OutBuffer, p: RequestPdu) returns (r: Result<()>)
    modifies out
    ensures Wrote(old(out.data), out.data, r, EncodeRequest(p))
  {
    hide Be;
    hide Finish;
    hide ReadBytes;
    hide QuantifiedBytes;
    hide CountedBytes;
    hide DiagnosticBytes;
    hide FromWords;
    hide PackBits;
    hide RenderBody;
    hide EncodeMeiRequest;
    hide EncodeMeiResponse;
    hide Wrote;
    hide ReadWriteBytes;
    match p
    case ReadCoils(address, quantity) => r := WriteRead(out, 1, address, quantity, MAX_READ_BITS);
    case ReadDiscreteInputs(address, quantity) => r := WriteRead(out, 2, address, quantity, MAX_READ_BITS);
    case ReadHoldingRegisters(address, quantity) => r := WriteRead(out, 3, address, quantity, MAX_READ_REGISTERS);
    case ReadInputRegisters(address, quantity) => r := WriteRead(out, 4, address, quantity, MAX_READ_REGISTERS);
    case WriteSingleCoil(address, on) => r := WritePair(out, 5, address, if on then COIL_ON else COIL_OFF);
    case WriteSingleRegister(address, value) => r := WritePair(out, 6, address, value);
    case WriteMultipleCoils(address, coils) => r := WriteCoils(out, address, coils);
    case WriteMultipleRegisters(address, registers) =>
      r := WriteRegisters(out, 16, address, registers, MAX_WRITE_REGISTERS);
    case MaskWriteRegister(address, andMask, orMask) => r := WriteMask(out, address, andMask, orMask);
    case ReadWriteMultipleRegisters(readAddress, readQuantity, writeAddress, registers) =>
      r := WriteReadWrite(out, readAddress, readQuantity, writeAddress, registers);
    case _ => r := WriteRequestTail(out, p);
  }

  /** `RequestPdu::encode_into`: append the whole encoding, or leave the buffer as it was. */
  method EncodeRequestInto(out: OutBuffer, p: RequestPdu) returns (r: Result<()>)
    modifies out
    ensures Transacted(old(out.data), out.data, r, EncodeRequest(p))
  {
    var at := |out.data|;
    r := WriteRequest(out, p);
    if r.Err? {
      out.Truncate(at);
    }
  }

  /** An encoder appended exactly the encoding, or failed and restored the buffer. */
  ghost predicate Transacted(before: Bytes, after: Bytes, r: Result<()>, encoding: Result<Bytes>) {
    match encoding
    case Ok(bytes) => r == Ok(()) && after == before + bytes
    case Err(error) => r == Err(error) && after == before
  }

  /** `encode_counted` for bits. */
  method WriteCountedBits(out: OutBuffer, code: Byte, bits: seq<bool>) returns (r: Result<()>)
    modifies out
    ensures Wrote(old(out.data), out.data, r, Behind(code, CountedBytes(PackBits(bits))))
  {
    var length := PackedLen(|bits|);
    if length > 255 {
      return Err(PduTooLarge);
    }
    var at := |out.data|;
    out.Push(code);
    out.Push(length);
    PushBits(out, bits);
    assert out.data == old(out.data) + ([code] + ([length] + PackBits(bits)));
    r := FinishPdu(out, at);
  }

  /** `encode_counted` for registers. */
  method WriteCountedRegisters(out: OutBuffer, code: Byte, registers: seq<Word>) returns (r: Result<()>)
    modifies out
    ensures Wrote(old(out.data), out.data, r, Behind(code, CountedBytes(FromWords(registers))))
  {
    var length := 2 * |registers|;
    if length > 255 {
      return Err(PduTooLarge);
    }
    var at := |out.data|;
    out.Push(code);
    out.Push(length);
    PushWords(out, registers);
    assert out.data == old(out.data) + ([code] + ([length] + FromWords(registers)));
    r := FinishPdu(out, at);
  }

  method WriteServerId(out: OutBuffer, data: Bytes) returns (r: Result<()>)
    modifies out
    ensures Wrote(old(out.data), out.data, r, Behind(17, CountedBytes(data)))
  {
    if |data| > 255 {
      return Err(PduTooLarge);
    }
    var at := |out.data|;
    out.Push(17);
    out.Push(|data|);
    out.Extend(data);
    assert out.data == old(out.data) + ([17] + ([|data|] + data));
    r := FinishPdu(out, at);
  }

  method WriteEventLog(out: OutBuffer, status: Word, eventCount: Word, messageCount: Word, events: Bytes)
    returns (r: Result<()>)
    modifies out
    ensures Wrote(old(out.data), out.data, r,
                  Behind(12, EventLogBytes(status, eventCount, messageCount, events)))
  {
    if |events| > MAX_EVENT_BYTES {
      return Err(OutOfRange);
    }
    var at := |out.data|;
    out.Push(12);
    out.Push(EVENT_LOG_FIXED_BYTES + |events|);
    out.Extend(Be(status));
    out.Extend(Be(eventCount));
    out.Extend(Be(messageCount));
    out.Extend(events);
    assert out.data == old(out.data)
                       + ([12] + ([6 + |events|] + (Be(status) + (Be(eventCount) + (Be(messageCount) + events)))));
    r := FinishPdu(out, at);
  }

  method WriteFifo(out: OutBuffer, values: seq<Word>) returns (r: Result<()>)
    modifies out
    ensures Wrote(old(out.data), out.data, r, Behind(24, FifoBytes(values)))
  {
    if |values| > MAX_FIFO_COUNT {
      return Err(OutOfRange);
    }
    var at := |out.data|;
    out.Push(24);
    out.Extend(Be(2 * |values| + 2));
    out.Extend(Be(|values|));
    PushWords(out, values);
    assert out.data == old(out.data) + ([24] + (Be(2 * |values| + 2) + (Be(|values|) + FromWords(values))));
    r := FinishPdu(out, at);
  }

  /** `ExceptionResponse::encode_into`: both fields are checked before either is written. */
  method WriteException(out: OutBuffer, of: Codes.FunctionCode, exception: Codes.ExceptionCode) returns (r: Result<()>)
    modifies out
    ensures Wrote(old(out.data), out.data, r, EncodeResponse(Exception(of, exception)))
  {
    EncodeFunctionBound(of);
    var code :- Codes.EncodeFunction(of);
    var raw :- Codes.EncodeException(exception);
    out.Push(0x80 + code);
    out.Push(raw);
    r := Ok(());
  }

  /** The diagnostic, file record and transport responses. */
  method WriteResponseTail(out: OutBuffer, p: ResponsePdu) returns (r: Result<()>)
    requires p.ReadExceptionStatus? || p.Diagnostics? || p.GetCommEventCounter? || p.GetCommEventLog? || p.ReportServerId?
             || p.ReadFileRecord?
             || p.WriteFileRecord? || p.ReadFifoQueue? || p.EncapsulatedInterfaceTransport? || p.Custom? || p.Exception?
    modifies out
    ensures Wrote(old(out.data), out.data, r, EncodeResponse(p))
  {
    hide Be;
    hide Finish;
    hide ReadBytes;
    hide QuantifiedBytes;
    hide CountedBytes;
    hide DiagnosticBytes;
    hide FromWords;
    hide PackBits;
    hide RenderBody;
    hide EncodeMeiRequest;
    hide EncodeMeiResponse;
    hide Wrote;
    hide EventLogBytes;
    hide FifoBytes;
    match p
    case ReadExceptionStatus(outputs) => r := WriteFields(out, 7, [outputs]);
    case Diagnostics(subFunction, words) => r := WriteDiagnostics(out, subFunction, words);
    case GetCommEventCounter(status, eventCount) => r := WritePair(out, 11, status, eventCount);
    case GetCommEventLog(status, eventCount, messageCount, events) =>
      r := WriteEventLog(out, status, eventCount, messageCount, events);
    case ReportServerId(data) => r := WriteServerId(out, data);
    case ReadFileRecord(records) => r := WriteRecords(out, 20, RenderReadResponse, records, 7, 245);
    case WriteFileRecord(records) => r := WriteRecords(out, 21, RenderWrite, records, 9, 251);
    case ReadFifoQueue(values) => r := WriteFifo(out, values);
    case EncapsulatedInterfaceTransport(mei) => r := WriteTransportResponse(out, mei);
    case Custom(code, data) => r := WriteCustom(out, code, data);
    case Exception(of, exception) => r := WriteException(out, of, exception);
  }

  /** `ResponsePdu::write`. */
  method WriteResponse(out: OutBuffer, p: ResponsePdu) returns (r: Result<()>)
    modifies out
    ensures Wrote(old(out.data), out.data, r, EncodeResponse(p))
  {
    hide Be;
    hide Finish;
    hide ReadBytes;
    hide QuantifiedBytes;
    hide CountedBytes;
    hide DiagnosticBytes;
    hide FromWords;
    hide PackBits;
    hide RenderBody;
    hide EncodeMeiRequest;
    hide EncodeMeiResponse;
    hide Wrote;
    hide EventLogBytes;
    hide FifoBytes;
    match p
    case ReadCoils(coils) => r := WriteCountedBits(out, 1, coils);
    case ReadDiscreteInputs(inputs) => r := WriteCountedBits(out, 2, inputs);
    case ReadHoldingRegisters(registers) => r := WriteCountedRegisters(out, 3, registers);
    case ReadInputRegisters(registers) => r := WriteCountedRegisters(out, 4, registers);
    case WriteSingleCoil(address, on) => r := WritePair(out, 5, address, if on then COIL_ON else COIL_OFF);
    case WriteSingleRegister(address, value) => r := WritePair(out, 6, address, value);
    case WriteMultipleCoils(address, quantity) => r := WritePair(out, 15, address, quantity);
    case WriteMultipleRegisters(address, quantity) => r := WritePair(out, 16, address, quantity);
    case MaskWriteRegister(address, andMask, orMask) => r := WriteMask(out, address, andMask, orMask);
    case ReadWriteMultipleRegisters(registers) => r := WriteCountedRegisters(out, 23, registers);
    case _ => r := WriteResponseTail(out, p);
  }

  /** `ResponsePdu::encode_into`. */
  method EncodeResponseInto(out: OutBuffer, p: ResponsePdu) returns (r: Result<()>)
    modifies out
    ensures Transacted(old(out.data), out.data, r, EncodeResponse(p))
  {
    var at := |out.data|;
    r := WriteResponse(out, p);
    if r.Err? {
      out.Truncate(at);
    }
  }
}
