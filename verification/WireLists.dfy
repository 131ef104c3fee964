/** The lists and layouts of the codec stand where the wire format says, and nothing else does. */
module WireLists {
  import opened Basics
  import opened Bits
  import opened Parsing
  import opened Items
  import opened FileRecords
  import opened Mei
  import opened Pdu
  import opened WireFormat

  // ---- Words and bits ----

  lemma {:induction false} FromWordsAt(words: seq<Word>, k: nat)
    requires k < |words|
    ensures 2 * k + 1 < |FromWords(words)|
    ensures FromWords(words)[2 * k] == words[k] / 256 && FromWords(words)[2 * k + 1] == words[k] % 256
    decreases k
  {
    if k == 0 {
    } else {
      FromWordsAt(words[1..], k - 1);
    }
  }

  lemma {:induction false} WordsStand(pre: Bytes, words: seq<Word>, post: Bytes)
    ensures WordsAt(pre + FromWords(words) + post, |pre|, words)
  {
    hide FromWords;
    var s := pre + FromWords(words) + post;
    forall k | 0 <= k < |words|
      ensures s[|pre| + 2 * k] == words[k] / 256 && s[|pre| + 2 * k + 1] == words[k] % 256
    {
      FromWordsAt(words, k);
    }
  }

  lemma {:induction false} BitsAreBits(n: nat, count: nat, k: nat)
    requires k < count
    ensures BitsOf(n, count)[k] == Bit(n, k)
    decreases k
  {
    if k == 0 {
    } else {
      BitsAreBits(n / 2, count - 1, k - 1);
    }
  }

  lemma {:induction false} BitsOfByte(b: Byte)
    ensures forall k :: 0 <= k < 8 ==> ByteBits(b)[k] == Bit(b, k)
  {
    hide Bit;
    forall k | 0 <= k < 8
      ensures ByteBits(b)[k] == Bit(b, k)
    {
      BitsAreBits(b, 8, k);
    }
  }

  /** A byte made of up to eight bits holds them. */
  lemma {:induction false} PackedByteHolds(chunk: seq<bool>, bits: seq<bool>, from: nat)
    requires |chunk| <= 8 && from + |chunk| <= |bits| && chunk == bits[from..from + |chunk|]
    requires |chunk| < 8 ==> from + |chunk| == |bits|
    ensures HoldsBits(ByteFromBits(chunk), bits, from)
  {
    hide ByteFromBits;
    hide ByteBits;
    hide Bit;
    var b := ByteFromBits(chunk);
    ShortByte(chunk);
    BitsOfByte(b);
    forall k | 0 <= k < 8
      ensures Bit(b, k) == (from + k < |bits| && bits[from + k])
    {
      if k < |chunk| {
        assert ByteBits(b)[..|chunk|][k] == ByteBits(b)[k];
      } else {
        assert ByteBits(b)[|chunk|..][k - |chunk|] == ByteBits(b)[k];
      }
    }
  }

  /** The packed bits from `from` on, in the place of theirs. */
  lemma {:induction false} BitsStandFrom(bits: seq<bool>, from: nat, j: nat)
    requires from <= |bits| && from % 8 == 0 && j < |PackBits(bits[from..])|
    ensures HoldsBits(PackBits(bits[from..])[j], bits, from + 8 * j)
    decreases |bits| - from
  {
    hide ByteFromBits;
    hide HoldsBits;
    var rest := bits[from..];
    if |rest| <= 8 {
      PackedByteHolds(rest, bits, from);
    } else {
      PackedByteHolds(rest[..8], bits, from);
      assert rest[8..] == bits[from + 8..];
      if j > 0 {
        BitsStandFrom(bits, from + 8, j - 1);
      }
    }
  }

  lemma {:induction false} BitsStand(pre: Bytes, bits: seq<bool>)
    ensures |PackBits(bits)| == (|bits| + 7) / 8
    ensures BitsAt(pre + PackBits(bits), |pre|, bits)
  {
    hide PackBits;
    hide HoldsBits;
    assert bits[0..] == bits;
    forall j | 0 <= j < (|bits| + 7) / 8
      ensures HoldsBits((pre + PackBits(bits))[|pre| + j], bits, 8 * j)
    {
      BitsStandFrom(bits, 0, j);
    }
  }

  // ---- One place, one content ----

  lemma {:induction false} WordsOnce(a: Bytes, b: Bytes, i: nat, words: seq<Word>)
    requires WordsAt(a, i, words) && WordsAt(b, i, words)
    ensures forall k :: i <= k < i + 2 * |words| ==> a[k] == b[k]
  {
    forall k | i <= k < i + 2 * |words|
      ensures a[k] == b[k]
    {
      var m := (k - i) / 2;
      assert words[m] / 256 == a[i + 2 * m];
      assert k == i + 2 * m || k == i + 2 * m + 1;
    }
  }

  lemma {:induction false} HoldsOnce(a: Byte, b: Byte, bits: seq<bool>, from: nat)
    requires HoldsBits(a, bits, from) && HoldsBits(b, bits, from)
    ensures a == b
  {
    hide Bit;
    hide ByteBits;
    BitsOfByte(a);
    BitsOfByte(b);
    assert ByteBits(a) == ByteBits(b);
    ByteRoundTrip(a, ByteBits(a));
    ByteRoundTrip(b, ByteBits(b));
  }

  lemma {:induction false} BitsOnce(a: Bytes, b: Bytes, i: nat, bits: seq<bool>)
    requires BitsAt(a, i, bits) && BitsAt(b, i, bits)
    ensures forall k :: i <= k < i + (|bits| + 7) / 8 ==> a[k] == b[k]
  {
    hide HoldsBits;
    forall k | i <= k < i + (|bits| + 7) / 8
      ensures a[k] == b[k]
    {
      var j := k - i;
      assert HoldsBits(a[i + j], bits, 8 * j) && HoldsBits(b[i + j], bits, 8 * j);
      HoldsOnce(a[k], b[k], bits, 8 * j);
    }
  }

  lemma {:induction false} BytesOnce(a: Bytes, b: Bytes, i: nat, data: Bytes)
    requires BytesAt(a, i, data) && BytesAt(b, i, data)
    ensures forall k :: i <= k < i + |data| ==> a[k] == b[k]
  {
    forall k | i <= k < i + |data|
      ensures a[k] == b[k]
    {
      assert data[k - i] == a[i + (k - i)];
    }
  }

  /** From `at` on the two are the same. */
  ghost predicate SameFrom(a: Bytes, b: Bytes, at: nat) {
    |a| == |b| && forall k :: at <= k < |a| ==> a[k] == b[k]
  }

  lemma {:induction false} ReadsOnce(a: Bytes, b: Bytes, at: nat, records: seq<FileRecordRead>)
    requires ReadsAt(a, at, records) && ReadsAt(b, at, records)
    ensures SameFrom(a, b, at)
    decreases |records|
  {
    if records == [] {
    } else {
      ReadsOnce(a, b, at + 7, records[1..]);
    }
  }

  lemma {:induction false} ReadResponsesOnce(a: Bytes, b: Bytes, at: nat, records: seq<FileRecordReadResponse>)
    requires ReadResponsesAt(a, at, records) && ReadResponsesAt(b, at, records)
    ensures SameFrom(a, b, at)
    decreases |records|
  {
    if records == [] {
    } else {
      WordsOnce(a, b, at + 2, records[0].values);
      hide WordsAt;
      ReadResponsesOnce(a, b, at + 2 + 2 * |records[0].values|, records[1..]);
    }
  }

  lemma {:induction false} WritesOnce(a: Bytes, b: Bytes, at: nat, records: seq<FileRecordWrite>)
    requires WritesAt(a, at, records) && WritesAt(b, at, records)
    ensures SameFrom(a, b, at)
    decreases |records|
  {
    if records == [] {
    } else {
      WordsOnce(a, b, at + 7, records[0].values);
      hide WordsAt;
      WritesOnce(a, b, at + 7 + 2 * |records[0].values|, records[1..]);
    }
  }

  lemma {:induction false} ObjectsOnce(a: Bytes, b: Bytes, at: nat, objects: seq<DeviceIdObject>)
    requires ObjectsAt(a, at, objects) && ObjectsAt(b, at, objects)
    ensures SameFrom(a, b, at)
    decreases |objects|
  {
    if objects == [] {
    } else {
      BytesOnce(a, b, at + 2, objects[0].value);
      hide BytesAt;
      ObjectsOnce(a, b, at + 2 + |objects[0].value|, objects[1..]);
    }
  }

  // ---- Lists as they are rendered ----

  /** Every record has legal numbers. */
  predicate ReadsNumbered(records: seq<FileRecordRead>) {
    forall i :: 0 <= i < |records| ==> NumbersLegal(records[i].fileNumber, records[i].recordNumber)
  }

  predicate WritesNumbered(records: seq<FileRecordWrite>) {
    forall i :: 0 <= i < |records| ==> NumbersLegal(records[i].fileNumber, records[i].recordNumber)
  }

  lemma {:induction false} ReadsRendered(records: seq<FileRecordRead>)
    ensures RenderAll(RenderRead, records).Ok? <==> ReadsNumbered(records)
    ensures RenderAll(RenderRead, records).Ok? ==> |RenderAll(RenderRead, records).value| == 7 * |records|
    ensures RenderAll(RenderRead, records).Err? ==> RenderAll(RenderRead, records).error == OutOfRange
  {
    if records == [] {
    } else {
      ReadsRendered(records[1..]);
      assert records == [records[0]] + records[1..];
    }
  }

  lemma {:induction false} ReadsStand(pre: Bytes, records: seq<FileRecordRead>)
    requires RenderAll(RenderRead, records).Ok?
    ensures ReadsAt(pre + RenderAll(RenderRead, records).value, |pre|, records)
    decreases |records|
  {
    if records == [] {
      Nothing(pre);
    } else {
      var head, tail := RenderRead(records[0]).value, RenderAll(RenderRead, records[1..]).value;
      Assoc(pre, head, tail);
      ReadsStand(pre + head, records[1..]);
    }
  }

  lemma {:induction false} ReadResponsesRendered(records: seq<FileRecordReadResponse>)
    ensures RenderAll(RenderReadResponse, records).Ok?
            ==> |RenderAll(RenderReadResponse, records).value| == ReadResponsesLength(records)
    ensures RenderAll(RenderReadResponse, records).Err?
            ==> RenderAll(RenderReadResponse, records).error == OutOfRange && 245 < ReadResponsesLength(records)
  {
    if records == [] {
    } else {
      hide FromWords;
      ReadResponsesRendered(records[1..]);
    }
  }

  lemma {:induction false} ReadResponsesStand(pre: Bytes, records: seq<FileRecordReadResponse>)
    requires RenderAll(RenderReadResponse, records).Ok?
    ensures ReadResponsesAt(pre + RenderAll(RenderReadResponse, records).value, |pre|, records)
    decreases |records|
  {
    if records == [] {
      Nothing(pre);
    } else {
      hide FromWords;
      hide WordsAt;
      hide ReadResponsesAt;
      var r, tail := records[0], RenderAll(RenderReadResponse, records[1..]).value;
      var head := RenderReadResponse(r).value;
      Assoc(pre, head, tail);
      ReadResponsesStand(pre + head, records[1..]);
      ReadResponseStands(pre, r, tail);
      ReadResponsesCons(pre + head + tail, |pre|, records);
    }
  }

  lemma {:induction false} ReadResponsesCons(s: Bytes, at: nat, records: seq<FileRecordReadResponse>)
    requires records != []
    requires var n := |records[0].values|;
             && at + 2 + 2 * n <= |s| && s[at] == 2 * n + 1 && s[at + 1] == 6
             && WordsAt(s, at + 2, records[0].values) && ReadResponsesAt(s, at + 2 + 2 * n, records[1..])
    ensures ReadResponsesAt(s, at, records)
  {
  }

  lemma {:induction false} ReadResponseStands(pre: Bytes, r: FileRecordReadResponse, tail: Bytes)
    requires RenderReadResponse(r).Ok?
    ensures var head, n := RenderReadResponse(r).value, |r.values|;
            var s := pre + head + tail;
            && |head| == 2 + 2 * n && s[|pre|] == 2 * n + 1 && s[|pre| + 1] == 6 && WordsAt(s, |pre| + 2, r.values)
  {
    hide FromWords;
    hide WordsAt;
    var front, words := pre + [2 * |r.values| + 1, 6], FromWords(r.values);
    WordsStand(front, r.values, tail);
    assert pre + RenderReadResponse(r).value == front + words;
  }

  lemma {:induction false} WritesRendered(records: seq<FileRecordWrite>)
    ensures RenderAll(RenderWrite, records).Ok?
            ==> WritesNumbered(records) && |RenderAll(RenderWrite, records).value| == WritesLength(records)
    ensures RenderAll(RenderWrite, records).Err?
            ==> && RenderAll(RenderWrite, records).error == OutOfRange
                && (!WritesNumbered(records) || 251 < WritesLength(records))
  {
    if records == [] {
    } else {
      hide FromWords;
      hide Be;
      WritesRendered(records[1..]);
      BeTwo(records[0].fileNumber);
      BeTwo(records[0].recordNumber);
      if |records[0].values| <= 0xFFFF {
        BeTwo(|records[0].values|);
      }
      assert records == [records[0]] + records[1..];
    }
  }

  lemma {:induction false} BeTwo(w: Word)
    ensures |Be(w)| == 2
  {
  }

  lemma {:induction false} WritesStand(pre: Bytes, records: seq<FileRecordWrite>)
    requires RenderAll(RenderWrite, records).Ok?
    ensures WritesAt(pre + RenderAll(RenderWrite, records).value, |pre|, records)
    decreases |records|
  {
    if records == [] {
      Nothing(pre);
    } else {
      hide RenderWrite;
      hide WritesAt;
      var head, tail := RenderWrite(records[0]).value, RenderAll(RenderWrite, records[1..]).value;
      WritesStand(pre + head, records[1..]);
      WritesOn(pre, head, tail, records);
    }
  }

  lemma {:induction false} WritesOn(pre: Bytes, head: Bytes, tail: Bytes, records: seq<FileRecordWrite>)
    requires records != [] && RenderWrite(records[0]) == Ok(head)
    requires WritesAt(pre + head + tail, |pre + head|, records[1..])
    ensures WritesAt(pre + (head + tail), |pre|, records)
  {
    hide *;
    Assoc(pre, head, tail);
    WriteStands(pre, records[0], tail);
    WritesCons(pre + head + tail, |pre|, records);
  }

  lemma {:induction false} WritesCons(s: Bytes, at: nat, records: seq<FileRecordWrite>)
    requires records != []
    requires var n := |records[0].values|;
             && at + 7 + 2 * n <= |s| && s[at] == 6
             && WordAt(s, at + 1, records[0].fileNumber) && WordAt(s, at + 3, records[0].recordNumber)
             && WordAt(s, at + 5, n) && WordsAt(s, at + 7, records[0].values)
             && WritesAt(s, at + 7 + 2 * n, records[1..])
    ensures WritesAt(s, at, records)
  {
  }

  lemma {:induction false} WriteStands(pre: Bytes, r: FileRecordWrite, tail: Bytes)
    requires RenderWrite(r).Ok?
    ensures var head, n, at := RenderWrite(r).value, |r.values|, |pre|;
            var s := pre + head + tail;
            && |head| == 7 + 2 * n && s[at] == 6
            && WordAt(s, at + 1, r.fileNumber) && WordAt(s, at + 3, r.recordNumber) && WordAt(s, at + 5, n)
            && WordsAt(s, at + 7, r.values)
  {
    hide FromWords;
    hide WordsAt;
    var f, g, n := r.fileNumber, r.recordNumber, |r.values|;
    var fixed := [6, f / 256, f % 256, g / 256, g % 256, n / 256, n % 256];
    assert RenderWrite(r).value == fixed + FromWords(r.values);
    WordsStand(pre + fixed, r.values, tail);
    Assoc(pre, fixed, FromWords(r.values));
    var s := pre + fixed + FromWords(r.values) + tail;
    assert s[|pre|..|pre| + 7] == fixed;
    assert forall k :: 0 <= k < 7 ==> s[|pre| + k] == fixed[k];
  }

  lemma {:induction false} ObjectsRendered(objects: seq<DeviceIdObject>)
    ensures RenderAll(RenderObject, objects).Ok? <==> forall i :: 0 <= i < |objects| ==> |objects[i].value| <= 255
    ensures RenderAll(RenderObject, objects).Ok? ==> |RenderAll(RenderObject, objects).value| == ObjectsLength(objects)
    ensures RenderAll(RenderObject, objects).Err?
            ==> RenderAll(RenderObject, objects).error == OutOfRange && 255 < ObjectsLength(objects)
    ensures 2 * |objects| <= ObjectsLength(objects)
  {
    if objects == [] {
    } else {
      ObjectsRendered(objects[1..]);
      assert objects == [objects[0]] + objects[1..];
    }
  }

  lemma {:induction false} ObjectsStand(pre: Bytes, objects: seq<DeviceIdObject>)
    requires RenderAll(RenderObject, objects).Ok?
    ensures ObjectsAt(pre + RenderAll(RenderObject, objects).value, |pre|, objects)
    decreases |objects|
  {
    if objects == [] {
      Nothing(pre);
    } else {
      var head, tail := RenderObject(objects[0]).value, RenderAll(RenderObject, objects[1..]).value;
      Assoc(pre, head, tail);
      ObjectsStand(pre + head, objects[1..]);
    }
  }
}
