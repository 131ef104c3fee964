/** Encapsulated Interface Transport bodies (src/frame/mei.rs). */
module Mei {
  import opened Basics
  import opened Parsing
  import opened Items

  const CANOPEN: Byte := 13
  const READ_DEVICE_ID: Byte := 14

  datatype ReadDeviceIdCode = Basic | Regular | Extended | Individual

  datatype DeviceIdObject = DeviceIdObject(id: Byte, value: Bytes)

  datatype MeiRequest =
    | CanOpenRequest(data: Bytes)
    | ReadDeviceIdentification(code: ReadDeviceIdCode, objectId: Byte)
    | OtherRequest(meiType: Byte, data: Bytes)

  datatype MeiResponse =
    | CanOpenResponse(data: Bytes)
    | DeviceIdentification(
        code: ReadDeviceIdCode, conformityLevel: Byte, moreFollows: bool, nextObjectId: Byte,
        objects: seq<DeviceIdObject>)
    | OtherResponse(meiType: Byte, data: Bytes)

  function DecodeIdCode(raw: Byte): Result<ReadDeviceIdCode> {
    match raw
    case 1 => Ok(Basic)
    case 2 => Ok(Regular)
    case 3 => Ok(Extended)
    case 4 => Ok(Individual)
    case _ => Err(OutOfRange)
  }

  function EncodeIdCode(code: ReadDeviceIdCode): Byte {
    match code
    case Basic => 1
    case Regular => 2
    case Extended => 3
    case Individual => 4
  }

  function DecodeMoreFollows(raw: Byte): Result<bool> {
    match raw
    case 0x00 => Ok(false)
    case 0xFF => Ok(true)
    case _ => Err(IllegalValue)
  }

  function Lift<T>(r: Result<T>, rest: Bytes): Parsed<T> {
    match r
    case Ok(value) => Got(value, rest)
    case Err(error) => Bad(error)
  }

  /** `decode_request`. */
  function DecodeMeiRequest(s: Bytes): Parsed<MeiRequest> {
    var (meiType, s0) :- U8(s);
    if meiType == CANOPEN then Got(CanOpenRequest(s0), [])
    else if meiType == READ_DEVICE_ID then
      var (raw, s1) :- U8(s0);
      var (code, s2) :- Lift(DecodeIdCode(raw), s1);
      var (objectId, s3) :- U8(s2);
      Got(ReadDeviceIdentification(code, objectId), s3)
    else Got(OtherRequest(meiType, s0), [])
  }

  /** `encode_request_into`; nothing here can fail. */
  function EncodeMeiRequest(m: MeiRequest): Bytes {
    match m
    case CanOpenRequest(data) => [CANOPEN] + data
    case ReadDeviceIdentification(code, objectId) => [READ_DEVICE_ID, EncodeIdCode(code), objectId]
    case OtherRequest(meiType, data) => [meiType] + data
  }

  /** `parse_object`. */
  function ParseObject(s: Bytes): Parsed<DeviceIdObject> {
    var (id, s0) :- U8(s);
    var (length, s1) :- U8(s0);
    var (value, s2) :- Take(s1, length);
    Got(DeviceIdObject(id, value), s2)
  }

  function RenderObject(o: DeviceIdObject): Result<Bytes> {
    if |o.value| > 255 then Err(OutOfRange) else Ok([o.id] + ([|o.value|] + o.value))
  }

  /** `decode_device_identification`: the objects fill what is left, and their number is checked afterwards. */
  function DecodeIdentification(s: Bytes): Parsed<MeiResponse> {
    var (raw, s0) :- U8(s);
    var (code, s1) :- Lift(DecodeIdCode(raw), s0);
    var (level, s2) :- U8(s1);
    var (more, s3) :- U8(s2);
    var (moreFollows, s4) :- Lift(DecodeMoreFollows(more), s3);
    var (next, s5) :- U8(s4);
    var (count, s6) :- U8(s5);
    ObjectInverse();
    var (objects, s7) :- Lift(ParseAll(ParseObject, s6), []);
    if |objects| != count then Bad(ByteCountMismatch)
    else Got(DeviceIdentification(code, level, moreFollows, next, objects), s7)
  }

  /** `decode_response`. */
  function DecodeMeiResponse(s: Bytes): Parsed<MeiResponse> {
    var (meiType, s0) :- U8(s);
    if meiType == CANOPEN then Got(CanOpenResponse(s0), [])
    else if meiType == READ_DEVICE_ID then DecodeIdentification(s0)
    else Got(OtherResponse(meiType, s0), [])
  }

  function MoreFollows(more: bool): Byte {
    if more then 0xFF else 0x00
  }

  function Identification(code: ReadDeviceIdCode, level: Byte, more: bool, next: Byte, count: Byte, list: Bytes): Bytes {
    [EncodeIdCode(code)] + ([level] + ([MoreFollows(more)] + ([next] + ([count] + list))))
  }

  /** `encode_response_into`. */
  function EncodeMeiResponse(m: MeiResponse): Result<Bytes> {
    match m
    case CanOpenResponse(data) => Ok([CANOPEN] + data)
    case DeviceIdentification(code, level, moreFollows, next, objects) =>
      if |objects| > 255 then Err(OutOfRange)
      else
        var list :- RenderAll(RenderObject, objects);
        Ok([READ_DEVICE_ID] + Identification(code, level, moreFollows, next, |objects|, list))
    case OtherResponse(meiType, data) => Ok([meiType] + data)
  }

  /** A body whose type byte is its own: an unnamed body does not carry a named type. */
  predicate CanonicalMeiRequest(m: MeiRequest) {
    m.OtherRequest? ==> m.meiType != CANOPEN && m.meiType != READ_DEVICE_ID
  }

  predicate CanonicalMeiResponse(m: MeiResponse) {
    m.OtherResponse? ==> m.meiType != CANOPEN && m.meiType != READ_DEVICE_ID
  }

  lemma {:induction false} ObjectWrites(o: DeviceIdObject, rest: Bytes)
    requires RenderObject(o).Ok?
    ensures ParseObject(RenderObject(o).value + rest) == Got(o, rest)
  {
    var t0 := [|o.value|] + (o.value + rest);
    assert RenderObject(o).value + rest == [o.id] + t0;
    assert ([o.id] + t0)[1..] == t0 && t0[1..] == o.value + rest;
    TakeWrites(o.value, rest);
  }

  lemma {:induction false} ObjectReads(s: Bytes)
    requires ParseObject(s).Got?
    ensures RenderObject(ParseObject(s).value).Ok?
    ensures s == RenderObject(ParseObject(s).value).value + ParseObject(s).rest
  {
    TakeReads(s[1..][1..], s[1]);
    assert s == [s[0]] + ([s[1]] + (ParseObject(s).value.value + ParseObject(s).rest));
  }

  lemma {:induction false} ObjectInverse()
    ensures Inverse(ParseObject, RenderObject) && Progress(ParseObject)
  {
    forall o, rest
      ensures Reparses(ParseObject, RenderObject, o, rest)
    {
      if RenderObject(o).Ok? {
        ObjectWrites(o, rest);
      }
    }
    forall s
      ensures Rerenders(ParseObject, RenderObject, s)
    {
      if ParseObject(s).Got? {
        ObjectReads(s);
      }
    }
    InverseProgress(ParseObject, RenderObject);
  }

  /** A request body survives encoding and decoding exactly when it is canonical. */
  lemma {:induction false} MeiRequestWritten(m: MeiRequest)
    ensures DecodeMeiRequest(EncodeMeiRequest(m)) == Got(m, []) <==> CanonicalMeiRequest(m)
  {
    var s := EncodeMeiRequest(m);
    match m
    case CanOpenRequest(data) =>
      assert s[1..] == data;
    case ReadDeviceIdentification(code, objectId) =>
      assert s[1..] == [EncodeIdCode(code), objectId];
      assert s[1..][1..] == [objectId] && s[1..][1..][1..] == [];
    case OtherRequest(meiType, data) =>
      assert s[1..] == data;
  }

  lemma {:induction false} MeiRequestRead(s: Bytes)
    requires DecodeMeiRequest(s).Got?
    ensures var p := DecodeMeiRequest(s);
            CanonicalMeiRequest(p.value) && s == EncodeMeiRequest(p.value) + p.rest
  {
    assert s == [s[0]] + s[1..];
    if s[0] == READ_DEVICE_ID {
      assert s == [s[0], s[1], s[2]] + s[1..][1..][1..];
    }
  }

  lemma {:induction false} IdentificationWritten(m: MeiResponse)
    requires m.DeviceIdentification? && EncodeMeiResponse(m).Ok?
    ensures DecodeMeiResponse(EncodeMeiResponse(m).value) == Got(m, [])
  {
    hide U8;
    var list := RenderAll(RenderObject, m.objects).value;
    var t5 := [|m.objects|] + list;
    var t4 := [m.nextObjectId] + t5;
    var t3 := [MoreFollows(m.moreFollows)] + t4;
    var t2 := [m.conformityLevel] + t3;
    var t1 := [EncodeIdCode(m.code)] + t2;
    U8Writes(READ_DEVICE_ID, t1);
    U8Writes(EncodeIdCode(m.code), t2);
    U8Writes(m.conformityLevel, t3);
    U8Writes(MoreFollows(m.moreFollows), t4);
    U8Writes(m.nextObjectId, t5);
    U8Writes(|m.objects|, list);
    ObjectInverse();
    RenderThenParse(ParseObject, RenderObject, m.objects);
  }

  /** A response body that encodes survives decoding exactly when it is canonical. */
  lemma {:induction false} MeiResponseWritten(m: MeiResponse)
    requires EncodeMeiResponse(m).Ok?
    ensures DecodeMeiResponse(EncodeMeiResponse(m).value) == Got(m, []) <==> CanonicalMeiResponse(m)
  {
    var s := EncodeMeiResponse(m).value;
    match m
    case CanOpenResponse(data) =>
      assert s[1..] == data;
    case DeviceIdentification(_, _, _, _, _) =>
      IdentificationWritten(m);
    case OtherResponse(meiType, data) =>
      assert s[1..] == data;
  }

  lemma {:induction false} IdentificationRead(s: Bytes)
    requires DecodeIdentification(s).Got?
    ensures var p := DecodeIdentification(s);
            && p.rest == [] && EncodeMeiResponse(p.value) == Ok([READ_DEVICE_ID] + s)
  {
    hide U8;
    ObjectInverse();
    U8Reads(s);
    var s0 := U8(s).rest;
    U8Reads(s0);
    var s2 := U8(s0).rest;
    U8Reads(s2);
    var s3 := U8(s2).rest;
    U8Reads(s3);
    var s5 := U8(s3).rest;
    U8Reads(s5);
    ParseThenRender(ParseObject, RenderObject, U8(s5).rest);
  }

  lemma {:induction false} MeiResponseRead(s: Bytes)
    requires DecodeMeiResponse(s).Got?
    ensures var p := DecodeMeiResponse(s);
            && CanonicalMeiResponse(p.value) && p.rest == [] && EncodeMeiResponse(p.value) == Ok(s)
  {
    assert s == [s[0]] + s[1..];
    if s[0] == READ_DEVICE_ID {
      IdentificationRead(s[1..]);
    }
  }
}
