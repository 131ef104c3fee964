/** The parsing primitives of src/parse.rs: a shrinking slice, exact consumption, and the item loop. */
module Parsing {
  import opened Basics

  /** What one parser step yields: its value and the bytes left over, or the failure. */
  datatype Parsed<+T> = Got(value: T, rest: Bytes) | Bad(error: Error) {
    predicate IsFailure() {
      Bad?
    }

    function PropagateFailure<U>(): Parsed<U>
      requires Bad?
    {
      Bad(error)
    }

    function Extract(): (T, Bytes)
      requires Got?
    {
      (value, rest)
    }

    /** `run`: the whole input must have been consumed. */
    function Finished(): Result<T> {
      match this
      case Got(value, rest) => if rest == [] then Ok(value) else Err(TrailingBytes)
      case Bad(error) => Err(error)
    }
  }

  function U8(s: Bytes): Parsed<Byte> {
    if |s| < 1 then Bad(Truncated) else Got(s[0], s[1..])
  }

  function U16(s: Bytes): Parsed<Word> {
    if |s| < 2 then Bad(Truncated) else Got(FromBe(s[0], s[1]), s[2..])
  }

  function Take(s: Bytes, n: nat): Parsed<Bytes> {
    if |s| < n then Bad(Truncated) else Got(s[..n], s[n..])
  }

  lemma {:induction false} U8Writes(b: Byte, rest: Bytes)
    ensures U8([b] + rest) == Got(b, rest)
  {
    assert ([b] + rest)[1..] == rest;
  }

  lemma {:induction false} U8Reads(s: Bytes)
    ensures U8(s).Got? ==> s == [U8(s).value] + U8(s).rest
  {
  }

  lemma {:induction false} U16Writes(w: Word, rest: Bytes)
    ensures U16(Be(w) + rest) == Got(w, rest)
  {
    assert (Be(w) + rest)[2..] == rest;
  }

  lemma {:induction false} U16Reads(s: Bytes)
    ensures U16(s).Got? ==> s == Be(U16(s).value) + U16(s).rest
  {
    if U16(s).Got? {
      BeOfFrom(s[0], s[1]);
      assert s == [s[0], s[1]] + s[2..];
    }
  }

  lemma {:induction false} TakeWrites(data: Bytes, rest: Bytes)
    ensures Take(data + rest, |data|) == Got(data, rest)
  {
    assert (data + rest)[..|data|] == data && (data + rest)[|data|..] == rest;
  }

  lemma {:induction false} TakeReads(s: Bytes, n: nat)
    ensures Take(s, n).Got? ==> s == Take(s, n).value + Take(s, n).rest && |Take(s, n).value| == n
  {
  }

  // ---- Big-endian word lists ----

  function WordsOf(data: Bytes): (ws: seq<Word>)
    requires |data| % 2 == 0
    ensures |ws| == |data| / 2
  {
    if data == [] then [] else [FromBe(data[0], data[1])] + WordsOf(data[2..])
  }

  function FromWords(ws: seq<Word>): (data: Bytes)
    ensures |data| == 2 * |ws|
  {
    if ws == [] then [] else Be(ws[0]) + FromWords(ws[1..])
  }

  lemma {:induction false} WordsRead(data: Bytes)
    requires |data| % 2 == 0
    ensures FromWords(WordsOf(data)) == data
  {
    if data == [] {
    } else {
      hide Be;
      hide FromBe;
      WordsRead(data[2..]);
      BeOfFrom(data[0], data[1]);
      assert WordsOf(data)[1..] == WordsOf(data[2..]);
      assert data == [data[0], data[1]] + data[2..];
    }
  }

  lemma {:induction false} WordsWritten(ws: seq<Word>)
    ensures WordsOf(FromWords(ws)) == ws
  {
    if ws == [] {
    } else {
      WordsWritten(ws[1..]);
      assert FromWords(ws)[2..] == FromWords(ws[1..]);
      assert ws == [ws[0]] + ws[1..];
    }
  }

  // ---- The cursor ----

  /** The slice a decoder advances over. */
  class Input {
    var rest: Bytes

    constructor (bytes: Bytes)
      ensures rest == bytes
    {
      rest := bytes;
    }

    /** `be_u8`. */
    method NextU8() returns (r: Result<Byte>)
      modifies this
      ensures Agrees(U8(old(rest)), r, rest)
    {
      if |rest| < 1 {
        return Err(Truncated);
      }
      r := Ok(rest[0]);
      rest := rest[1..];
    }

    /** `be_u16`. */
    method NextU16() returns (r: Result<Word>)
      modifies this
      ensures Agrees(U16(old(rest)), r, rest)
    {
      if |rest| < 2 {
        return Err(Truncated);
      }
      r := Ok(FromBe(rest[0], rest[1]));
      rest := rest[2..];
    }

    /** `take`. */
    method NextTake(n: nat) returns (r: Result<Bytes>)
      modifies this
      ensures Agrees(Take(old(rest), n), r, rest)
    {
      if |rest| < n {
        return Err(Truncated);
      }
      r := Ok(rest[..n]);
      rest := rest[n..];
    }

    /** `rest`: everything that is left. */
    method TakeRest() returns (data: Bytes)
      modifies this
      ensures data == old(rest) && rest == []
    {
      data := rest;
      rest := [];
    }
  }

  /** A step over the cursor did what the parser says. */
  ghost predicate Agrees<T>(p: Parsed<T>, r: Result<T>, rest: Bytes) {
    match p
    case Got(value, left) => r == Ok(value) && rest == left
    case Bad(error) => r == Err(error)
  }
}
