/** The object files of a sample: records behind a length prefix, or one JSON document a line. */
module Framing {
  import opened Wrappers
  import opened Strings

  type Byte = x: int | 0 <= x < 256

  type Record = seq<Byte>

  const WORD := 0x1_0000_0000

  const NEWLINE: Byte := 10

  /** PutUint32 of the record's length, which the conversion to 32 bits has truncated. */
  function LittleEndian(n: nat): (b: seq<Byte>)
    ensures |b| == 4 && Value(b) == n % WORD
  {
    var m := n % WORD;
    var m1 := m / 256;
    var m2 := m1 / 256;
    [m % 256, m1 % 256, m2 % 256, m2 / 256]
  }

  function Value(b: seq<Byte>): (n: nat)
    requires |b| == 4
    ensures n < WORD
  {
    b[0] as int + 256 * (b[1] as int + 256 * (b[2] as int + 256 * (b[3] as int)))
  }

  /** The least significant byte comes first. */
  lemma LeastFirst(n: nat)
    requires n < WORD
    ensures
      var b := LittleEndian(n);
      n == b[0] as int + 256 * (b[1] as int) + 65536 * (b[2] as int) + 16777216 * (b[3] as int)
  {
  }

  lemma ValueDetermines(b: seq<Byte>)
    requires |b| == 4
    ensures LittleEndian(Value(b)) == b
  {
    var m2 := b[2] as int + 256 * (b[3] as int);
    var m1 := b[1] as int + 256 * m2;
    assert Value(b) / 256 == m1 && m1 / 256 == m2 && m2 / 256 == b[3] as int;
  }

  function Marshal(asJson: bool, record: Record): seq<Byte> {
    if asJson then record + [NEWLINE] else LittleEndian(|record|) + record
  }

  /** What a file holds after its records have been written one after the other. */
  function Stream(asJson: bool, records: seq<Record>): seq<Byte> {
    if records == [] then []
    else Stream(asJson, records[..|records| - 1]) + Marshal(asJson, records[|records| - 1])
  }

  function Decode(bytes: seq<Byte>): Option<seq<Record>> {
    if bytes == [] then Some([])
    else if |bytes| < 4 then None
    else
      var n := Value(bytes[..4]);
      if |bytes| < 4 + n then None
      else
        var rest := Decode(bytes[4 + n..]);
        if rest == None then None else Some([bytes[4..4 + n]] + rest.value)
  }

  predicate FitsWord(record: Record) {
    |record| < WORD
  }

  lemma SumsAssociate(a: seq<Byte>, b: seq<Byte>, c: seq<Byte>)
    ensures (a + b) + c == a + (b + c)
  {
  }

  /** The same file, read from its front. */
  lemma {:induction false} StreamFront(asJson: bool, records: seq<Record>)
    requires records != []
    ensures Stream(asJson, records) == Marshal(asJson, records[0]) + Stream(asJson, records[1..])
  {
    var n := |records| - 1;
    if n == 0 {
      assert records[..0] == [] && records[1..] == [];
    } else {
      var rest := records[1..];
      StreamFront(asJson, records[..n]);
      assert records[..n][1..] == rest[..n - 1] && rest[n - 1] == records[n];
      SumsAssociate(Marshal(asJson, records[0]), Stream(asJson, rest[..n - 1]), Marshal(asJson, records[n]));
    }
  }

  lemma DecodeFront(prefix: seq<Byte>, first: Record, rest: seq<Byte>)
    requires |prefix| == 4 && Value(prefix) == |first|
    ensures Decode(prefix + first + rest)
            == if Decode(rest) == None then None else Some([first] + Decode(rest).value)
  {
    var bytes := prefix + first + rest;
    assert bytes[..4] == prefix;
    assert bytes[4..4 + |first|] == first;
    assert bytes[4 + |first|..] == rest;
  }

  lemma DecodeRecord(first: Record, rest: seq<Byte>)
    requires FitsWord(first)
    ensures Decode(Marshal(false, first) + rest)
            == if Decode(rest) == None then None else Some([first] + Decode(rest).value)
  {
    DecodeFront(LittleEndian(|first|), first, rest);
  }

  lemma {:induction false} DecodeStream(records: seq<Record>)
    requires forall r :: r in records ==> FitsWord(r)
    ensures Decode(Stream(false, records)) == Some(records)
  {
    if records != [] {
      var first, rest := records[0], records[1..];
      assert first in records;
      DecodeStream(rest);
      StreamFront(false, records);
      DecodeRecord(first, Stream(false, rest));
      assert records == [first] + rest;
    }
  }

  /** Whatever decodes is the file of the records it decodes to: no two files hold the same records. */
  lemma {:induction false} DecodedIsStream(bytes: seq<Byte>)
    ensures Decode(bytes).Some? ==> Stream(false, Decode(bytes).value) == bytes
    ensures Decode(bytes).Some? ==> forall r :: r in Decode(bytes).value ==> FitsWord(r)
  {
    if Decode(bytes).Some? && bytes != [] {
      var n := Value(bytes[..4]);
      var first, rest := bytes[4..4 + n], bytes[4 + n..];
      DecodedIsStream(rest);
      ValueDetermines(bytes[..4]);
      var records := Decode(bytes).value;
      assert records[1..] == Decode(rest).value;
      StreamFront(false, records);
    }
  }

  /** The records come back if and only if the length of every one fits its 32-bit prefix. */
  lemma {:induction false} DecodeExactly(records: seq<Record>)
    ensures Decode(Stream(false, records)) == Some(records) <==> forall r :: r in records ==> FitsWord(r)
  {
    if forall r :: r in records ==> FitsWord(r) {
      DecodeStream(records);
    } else {
      var r :| r in records && !FitsWord(r);
      DecodedIsStream(Stream(false, records));
    }
  }

  function Empties(n: nat): seq<Record> {
    seq(n, _ => [])
  }

  function Zeros(n: nat): Record {
    seq(n, _ => 0)
  }

  lemma {:induction false} EmptyRecords(n: nat)
    ensures Stream(false, Empties(n)) == Zeros(4 * n)
  {
    if n > 0 {
      assert Empties(n)[..n - 1] == Empties(n - 1);
      EmptyRecords(n - 1);
      assert Marshal(false, []) == LittleEndian(0) == Zeros(4);
      assert Zeros(4 * n) == Zeros(4 * (n - 1)) + Zeros(4);
    }
  }

  /** A record of 4 GiB reads as a list of empty ones. */
  lemma LongRecordReadsAsOthers()
    ensures Stream(false, [Zeros(WORD)]) == Stream(false, Empties(WORD / 4 + 1))
  {
    EmptyRecords(WORD / 4 + 1);
    assert [Zeros(WORD)][..0] == [];
    assert LittleEndian(WORD) == Zeros(4);
    assert Zeros(4) + Zeros(WORD) == Zeros(4 + WORD);
  }

  function Lines(bytes: seq<Byte>): seq<Record> {
    if NEWLINE !in bytes then []
    else
      var n := IndexOf(bytes, NEWLINE);
      [bytes[..n]] + Lines(bytes[n + 1..])
  }

  lemma LinesFront(first: Record, rest: seq<Byte>)
    requires NEWLINE !in first
    ensures Lines(first + [NEWLINE] + rest) == [first] + Lines(rest)
  {
    var bytes := first + [NEWLINE] + rest;
    assert bytes[|first|] == NEWLINE;
    var n := IndexOf(bytes, NEWLINE);
    assert n <= |first| ==> n == |first|;
    assert n >= |first| ==> bytes[..n + 1][|first|] == NEWLINE;
    assert bytes[..n] == first && bytes[n + 1..] == rest;
  }

  lemma {:induction false} LinesOfStream(records: seq<Record>)
    requires forall r :: r in records ==> NEWLINE !in r
    ensures Lines(Stream(true, records)) == records
  {
    if records != [] {
      var first, rest := records[0], records[1..];
      assert first in records;
      LinesOfStream(rest);
      StreamFront(true, records);
      LinesFront(first, Stream(true, rest));
      assert records == [first] + rest;
    }
  }

  lemma {:induction false} LinesHaveNoBreak(bytes: seq<Byte>)
    ensures forall r :: r in Lines(bytes) ==> NEWLINE !in r
  {
    if NEWLINE in bytes {
      LinesHaveNoBreak(bytes[IndexOf(bytes, NEWLINE) + 1..]);
    }
  }

  /** JSON documents come back if and only if none of them has a line break in it. */
  lemma {:induction false} LinesExactly(records: seq<Record>)
    ensures Lines(Stream(true, records)) == records <==> forall r :: r in records ==> NEWLINE !in r
  {
    if forall r :: r in records ==> NEWLINE !in r {
      LinesOfStream(records);
    } else {
      var r :| r in records && NEWLINE in r;
      LinesHaveNoBreak(Stream(true, records));
    }
  }
}
