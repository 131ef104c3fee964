/** File record bodies: a length byte, then exactly that many bytes of sub-items (src/frame/file.rs). */
module FileRecords {
  import opened Basics
  import opened Parsing
  import opened Items

  const REFERENCE_TYPE: Byte := 6
  const MAX_RECORD_NUMBER := 9_999

  datatype FileRecordRead = FileRecordRead(fileNumber: Word, recordNumber: Word, recordLength: Word)
  datatype FileRecordReadResponse = FileRecordReadResponse(values: seq<Word>)
  datatype FileRecordWrite = FileRecordWrite(fileNumber: Word, recordNumber: Word, values: seq<Word>)

  /** `check_numbers`. */
  predicate NumbersInRange(fileNumber: Word, recordNumber: Word) {
    1 <= fileNumber && recordNumber <= MAX_RECORD_NUMBER
  }

  /** `reference_type`: consume the byte 6. */
  function ReferenceByte(s: Bytes): Parsed<()> {
    var (found, rest) :- U8(s);
    if found != REFERENCE_TYPE then Bad(ReferenceType(found)) else Got((), rest)
  }

  // ---- One sub-item, parsed and rendered ----

  function ParseRead(s: Bytes): Parsed<FileRecordRead> {
    var (_, s0) :- ReferenceByte(s);
    var (file, s1) :- U16(s0);
    var (record, s2) :- U16(s1);
    var (length, s3) :- U16(s2);
    if !NumbersInRange(file, record) then Bad(OutOfRange) else Got(FileRecordRead(file, record, length), s3)
  }

  function RenderRead(r: FileRecordRead): Result<Bytes> {
    if !NumbersInRange(r.fileNumber, r.recordNumber) then Err(OutOfRange)
    else Ok([REFERENCE_TYPE] + (Be(r.fileNumber) + (Be(r.recordNumber) + Be(r.recordLength))))
  }

  function ParseReadResponse(s: Bytes): Parsed<FileRecordReadResponse> {
    var (length, s0) :- U8(s);
    if length % 2 == 0 then Bad(IllegalValue)
    else
      var (_, s1) :- ReferenceByte(s0);
      var (data, s2) :- Take(s1, length - 1);
      Got(FileRecordReadResponse(WordsOf(data)), s2)
  }

  function RenderReadResponse(r: FileRecordReadResponse): Result<Bytes> {
    var length := 2 * |r.values| + 1;
    if length > 255 then Err(OutOfRange)
    else Ok([length] + ([REFERENCE_TYPE] + FromWords(r.values)))
  }

  function ParseWrite(s: Bytes): Parsed<FileRecordWrite> {
    var (_, s0) :- ReferenceByte(s);
    var (file, s1) :- U16(s0);
    var (record, s2) :- U16(s1);
    var (length, s3) :- U16(s2);
    if !NumbersInRange(file, record) then Bad(OutOfRange)
    else
      var (data, s4) :- Take(s3, 2 * length);
      Got(FileRecordWrite(file, record, WordsOf(data)), s4)
  }

  function RenderWrite(r: FileRecordWrite): Result<Bytes> {
    if !NumbersInRange(r.fileNumber, r.recordNumber) then Err(OutOfRange)
    else if |r.values| > 0xFFFF then Err(OutOfRange)
    else Ok([REFERENCE_TYPE] + (Be(r.fileNumber) + (Be(r.recordNumber) + (Be(|r.values|) + FromWords(r.values)))))
  }

  // ---- Bodies ----

  /** `region`: the length byte, its bounds, and the bytes it covers. */
  function Region(s: Bytes, min: nat, max: nat, multiple: nat): Parsed<Bytes>
    requires multiple > 0
  {
    var (length, rest) :- U8(s);
    if !(min <= length <= max) then Bad(OutOfRange)
    else if length % multiple != 0 then Bad(IllegalValue)
    else Take(rest, length)
  }

  /** A region of items, parsed to its end. */
  function ParseBody<T(!new)>(parse: Bytes -> Parsed<T>, s: Bytes, min: nat, max: nat, multiple: nat): Parsed<seq<T>>
    requires multiple > 0 && Progress(parse)
  {
    var (region, rest) :- Region(s, min, max, multiple);
    match ParseAll(parse, region)
    case Ok(items) => Got(items, rest)
    case Err(error) => Bad(error)
  }

  /** `body`: the items behind their own length. */
  function RenderBody<T>(render: T -> Result<Bytes>, items: seq<T>, min: nat, max: nat): Result<Bytes>
    requires max <= 255
  {
    var data :- RenderAll(render, items);
    if !(min <= |data| <= max) then Err(OutOfRange) else Ok([|data|] + data)
  }

  lemma {:induction false} BodyWritten<T(!new)>(
    parse: Bytes -> Parsed<T>, render: T -> Result<Bytes>, items: seq<T>, rest: Bytes, min: nat, max: nat, multiple: nat)
    requires max <= 255 && multiple > 0 && Inverse(parse, render) && Progress(parse)
    requires RenderBody(render, items, min, max).Ok?
    requires |RenderAll(render, items).value| % multiple == 0
    ensures ParseBody(parse, RenderBody(render, items, min, max).value + rest, min, max, multiple) == Got(items, rest)
  {
    var data := RenderAll(render, items).value;
    assert ([|data|] + data + rest)[1..] == data + rest;
    TakeWrites(data, rest);
    RenderThenParse(parse, render, items);
  }

  lemma {:induction false} BodyRead<T(!new)>(
    parse: Bytes -> Parsed<T>, render: T -> Result<Bytes>, s: Bytes, min: nat, max: nat, multiple: nat)
    requires max <= 255 && multiple > 0 && Inverse(parse, render) && Progress(parse)
    requires ParseBody(parse, s, min, max, multiple).Got?
    ensures var p := ParseBody(parse, s, min, max, multiple);
            && RenderBody(render, p.value, min, max).Ok?
            && s == RenderBody(render, p.value, min, max).value + p.rest
  {
    var region := Region(s, min, max, multiple);
    TakeReads(s[1..], s[0]);
    assert s == [s[0]] + region.value + region.rest;
    ParseThenRender(parse, render, region.value);
  }

  // ---- The sub-item codecs are inverse ----

  lemma {:induction false} ReferenceReads(s: Bytes)
    ensures ReferenceByte(s).Got? ==> s == [REFERENCE_TYPE] + ReferenceByte(s).rest
  {
  }

  lemma {:induction false} ReadWrites(r: FileRecordRead, rest: Bytes)
    requires RenderRead(r).Ok?
    ensures ParseRead(RenderRead(r).value + rest) == Got(r, rest)
  {
    var t3 := rest;
    var t2 := Be(r.recordLength) + rest;
    var t1 := Be(r.recordNumber) + t2;
    var t0 := Be(r.fileNumber) + t1;
    assert RenderRead(r).value + rest == [REFERENCE_TYPE] + t0;
    assert ([REFERENCE_TYPE] + t0)[1..] == t0;
    U16Writes(r.fileNumber, t1);
    U16Writes(r.recordNumber, t2);
    U16Writes(r.recordLength, t3);
  }

  lemma {:induction false} ReadReads(s: Bytes)
    requires ParseRead(s).Got?
    ensures RenderRead(ParseRead(s).value).Ok?
    ensures s == RenderRead(ParseRead(s).value).value + ParseRead(s).rest
  {
    ReferenceReads(s);
    var s0 := ReferenceByte(s).rest;
    U16Reads(s0);
    var s1 := U16(s0).rest;
    U16Reads(s1);
    var s2 := U16(s1).rest;
    U16Reads(s2);
    var r, s3 := ParseRead(s).value, U16(s2).rest;
    assert s == [REFERENCE_TYPE] + (Be(r.fileNumber) + (Be(r.recordNumber) + (Be(r.recordLength) + s3)));
  }

  lemma {:induction false} ReadInverse()
    ensures Inverse(ParseRead, RenderRead) && Progress(ParseRead)
  {
    forall r, rest
      ensures Reparses(ParseRead, RenderRead, r, rest)
    {
      if RenderRead(r).Ok? {
        ReadWrites(r, rest);
      }
    }
    forall s
      ensures Rerenders(ParseRead, RenderRead, s)
    {
      if ParseRead(s).Got? {
        ReadReads(s);
      }
    }
    InverseProgress(ParseRead, RenderRead);
  }

  lemma {:induction false} ReadResponseWrites(r: FileRecordReadResponse, rest: Bytes)
    requires RenderReadResponse(r).Ok?
    ensures ParseReadResponse(RenderReadResponse(r).value + rest) == Got(r, rest)
  {
    var length, data := 2 * |r.values| + 1, FromWords(r.values);
    var t1 := data + rest;
    var t0 := [REFERENCE_TYPE] + t1;
    assert RenderReadResponse(r).value + rest == [length] + t0;
    assert ([length] + t0)[1..] == t0 && t0[1..] == t1;
    TakeWrites(data, rest);
    WordsWritten(r.values);
  }

  lemma {:induction false} ReadResponseReads(s: Bytes)
    requires ParseReadResponse(s).Got?
    ensures RenderReadResponse(ParseReadResponse(s).value).Ok?
    ensures s == RenderReadResponse(ParseReadResponse(s).value).value + ParseReadResponse(s).rest
  {
    var length, s0 := s[0], s[1..];
    assert s == [length] + s0;
    ReferenceReads(s0);
    var s1 := ReferenceByte(s0).rest;
    TakeReads(s1, length - 1);
    var data, s2 := Take(s1, length - 1).value, Take(s1, length - 1).rest;
    WordsRead(data);
    assert s == [length] + ([REFERENCE_TYPE] + (data + s2));
    assert s == [length] + ([REFERENCE_TYPE] + data) + s2;
  }

  lemma {:induction false} ReadResponseInverse()
    ensures Inverse(ParseReadResponse, RenderReadResponse) && Progress(ParseReadResponse)
  {
    forall r, rest
      ensures Reparses(ParseReadResponse, RenderReadResponse, r, rest)
    {
      if RenderReadResponse(r).Ok? {
        ReadResponseWrites(r, rest);
      }
    }
    forall s
      ensures Rerenders(ParseReadResponse, RenderReadResponse, s)
    {
      if ParseReadResponse(s).Got? {
        ReadResponseReads(s);
      }
    }
    InverseProgress(ParseReadResponse, RenderReadResponse);
  }

  lemma {:induction false} WriteWrites(r: FileRecordWrite, rest: Bytes)
    requires RenderWrite(r).Ok?
    ensures ParseWrite(RenderWrite(r).value + rest) == Got(r, rest)
  {
    var data := FromWords(r.values);
    var t3 := data + rest;
    var t2 := Be(|r.values|) + t3;
    var t1 := Be(r.recordNumber) + t2;
    var t0 := Be(r.fileNumber) + t1;
    assert RenderWrite(r).value + rest == [REFERENCE_TYPE] + t0;
    assert ([REFERENCE_TYPE] + t0)[1..] == t0;
    U16Writes(r.fileNumber, t1);
    U16Writes(r.recordNumber, t2);
    U16Writes(|r.values|, t3);
    TakeWrites(data, rest);
    WordsWritten(r.values);
  }

  lemma {:induction false} WriteReads(s: Bytes)
    requires ParseWrite(s).Got?
    ensures RenderWrite(ParseWrite(s).value).Ok?
    ensures s == RenderWrite(ParseWrite(s).value).value + ParseWrite(s).rest
  {
    hide U16;
    hide Be;
    hide Take;
    hide WordsOf;
    hide FromWords;
    hide ReferenceByte;
    ReferenceReads(s);
    var s0 := ReferenceByte(s).rest;
    U16Reads(s0);
    var s1 := U16(s0).rest;
    U16Reads(s1);
    var s2 := U16(s1).rest;
    U16Reads(s2);
    var length: nat, s3 := U16(s2).value, U16(s2).rest;
    TakeReads(s3, 2 * length);
    var data, s4 := Take(s3, 2 * length).value, Take(s3, 2 * length).rest;
    WordsRead(data);
    var r := ParseWrite(s).value;
    assert s == [REFERENCE_TYPE] + (Be(r.fileNumber) + (Be(r.recordNumber) + (Be(length) + (data + s4))));
    assert s == [REFERENCE_TYPE] + (Be(r.fileNumber) + (Be(r.recordNumber) + (Be(length) + data))) + s4;
  }

  lemma {:induction false} WriteInverse()
    ensures Inverse(ParseWrite, RenderWrite) && Progress(ParseWrite)
  {
    forall r, rest
      ensures Reparses(ParseWrite, RenderWrite, r, rest)
    {
      if RenderWrite(r).Ok? {
        WriteWrites(r, rest);
      }
    }
    forall s
      ensures Rerenders(ParseWrite, RenderWrite, s)
    {
      if ParseWrite(s).Got? {
        WriteReads(s);
      }
    }
    InverseProgress(ParseWrite, RenderWrite);
  }

  // ---- The three bodies ----

  /** `decode_read_requests`. */
  function DecodeReads(s: Bytes): Parsed<seq<FileRecordRead>> {
    ReadInverse();
    ParseBody(ParseRead, s, 7, 245, 7)
  }

  function EncodeReads(records: seq<FileRecordRead>): Result<Bytes> {
    RenderBody(RenderRead, records, 7, 245)
  }

  /** `decode_read_responses`. */
  function DecodeReadResponses(s: Bytes): Parsed<seq<FileRecordReadResponse>> {
    ReadResponseInverse();
    ParseBody(ParseReadResponse, s, 7, 245, 1)
  }

  function EncodeReadResponses(records: seq<FileRecordReadResponse>): Result<Bytes> {
    RenderBody(RenderReadResponse, records, 7, 245)
  }

  /** `decode_write_records`. */
  function DecodeWrites(s: Bytes): Parsed<seq<FileRecordWrite>> {
    WriteInverse();
    ParseBody(ParseWrite, s, 9, 251, 1)
  }

  function EncodeWrites(records: seq<FileRecordWrite>): Result<Bytes> {
    RenderBody(RenderWrite, records, 9, 251)
  }

  lemma {:induction false} ReadsLength(records: seq<FileRecordRead>)
    requires RenderAll(RenderRead, records).Ok?
    ensures |RenderAll(RenderRead, records).value| == 7 * |records|
  {
    if records == [] {
    } else {
      ReadsLength(records[1..]);
    }
  }

  lemma {:induction false} ReadsWritten(records: seq<FileRecordRead>, rest: Bytes)
    requires EncodeReads(records).Ok?
    ensures DecodeReads(EncodeReads(records).value + rest) == Got(records, rest)
  {
    ReadInverse();
    ReadsLength(records);
    BodyWritten(ParseRead, RenderRead, records, rest, 7, 245, 7);
  }

  lemma {:induction false} ReadsRead(s: Bytes)
    requires DecodeReads(s).Got?
    ensures EncodeReads(DecodeReads(s).value).Ok? && s == EncodeReads(DecodeReads(s).value).value + DecodeReads(s).rest
  {
    ReadInverse();
    BodyRead(ParseRead, RenderRead, s, 7, 245, 7);
  }

  lemma {:induction false} ReadResponsesWritten(records: seq<FileRecordReadResponse>, rest: Bytes)
    requires EncodeReadResponses(records).Ok?
    ensures DecodeReadResponses(EncodeReadResponses(records).value + rest) == Got(records, rest)
  {
    ReadResponseInverse();
    BodyWritten(ParseReadResponse, RenderReadResponse, records, rest, 7, 245, 1);
  }

  lemma {:induction false} ReadResponsesRead(s: Bytes)
    requires DecodeReadResponses(s).Got?
    ensures var p := DecodeReadResponses(s);
            EncodeReadResponses(p.value).Ok? && s == EncodeReadResponses(p.value).value + p.rest
  {
    ReadResponseInverse();
    BodyRead(ParseReadResponse, RenderReadResponse, s, 7, 245, 1);
  }

  lemma {:induction false} WritesWritten(records: seq<FileRecordWrite>, rest: Bytes)
    requires EncodeWrites(records).Ok?
    ensures DecodeWrites(EncodeWrites(records).value + rest) == Got(records, rest)
  {
    WriteInverse();
    BodyWritten(ParseWrite, RenderWrite, records, rest, 9, 251, 1);
  }

  lemma {:induction false} WritesRead(s: Bytes)
    requires DecodeWrites(s).Got?
    ensures EncodeWrites(DecodeWrites(s).value).Ok?
    ensures s == EncodeWrites(DecodeWrites(s).value).value + DecodeWrites(s).rest
  {
    WriteInverse();
    BodyRead(ParseWrite, RenderWrite, s, 9, 251, 1);
  }
}
