/** The binary copy format byte by byte: where each number of a sample stands
    and how its bytes are ordered. */
module CopyLayout {
  import opened Arithmetic
  import opened Framing
  import opened Codec

  /** Byte k of a number of n bytes, the most significant first. */
  function ByteOf(v: nat, n: nat, k: nat): nat
    requires k < n
  {
    v / Pow256(n - 1 - k) % 256
  }

  /** The n bytes from `at` on are those of v. */
  ghost predicate Number(b: Bytes, at: nat, n: nat, v: nat) {
    at + n <= |b| && forall k :: 0 <= k < n ==> b[at + k] == ByteOf(v, n, k)
  }

  // ---- one number --------------------------------------------------------

  lemma DivTwice(v: nat, p: nat)
    requires p > 0
    ensures v / 256 / p == v / (256 * p)
  {
    var q, r, s := v / 256 / p, v / 256 % p, v % 256;
    assert v == 256 * (p * q + r) + s;
    MulOrder(r, p - 1, 256);
    assert 256 * (p * q) == q * (256 * p);
    DivUnique(v, 256 * p, q, 256 * r + s);
  }

  lemma {:induction false} BigEndianAt(v: nat, n: nat, k: nat)
    requires k < n
    ensures BigEndian(v, n)[k] == ByteOf(v, n, k)
  {
    if k < n - 1 {
      BigEndianAt(v / 256, n - 1, k);
      DivTwice(v, Pow256(n - 2 - k));
    }
  }

  lemma BigEndianIs(v: nat, n: nat)
    ensures Number(BigEndian(v, n), 0, n, v)
  {
    forall k | 0 <= k < n ensures BigEndian(v, n)[0 + k] == ByteOf(v, n, k) {
      BigEndianAt(v, n, k);
    }
  }

  /** Bytes are those of the number they are read as. */
  lemma FromBigEndianIs(b: Bytes)
    ensures Number(b, 0, |b|, FromBigEndian(b)) && FromBigEndian(b) < Pow256(|b|)
  {
    BytesRoundTrip(b);
    BigEndianIs(FromBigEndian(b), |b|);
  }

  lemma NumberInside(a: Bytes, b: Bytes, c: Bytes, at: nat, n: nat, v: nat)
    requires Number(b, at, n, v)
    ensures Number(a + b + c, |a| + at, n, v)
  {
    var all := a + b + c;
    forall k | 0 <= k < n ensures all[|a| + at + k] == ByteOf(v, n, k) {
      assert all[|a| + (at + k)] == b[at + k];
    }
  }

  lemma NumberLater(a: Bytes, b: Bytes, at: nat, n: nat, v: nat)
    requires Number(b, at, n, v)
    ensures Number(a + b, |a| + at, n, v)
  {
    NumberInside(a, b, [], at, n, v);
    assert a + b + [] == a + b;
  }

  lemma NumberInRest(b: Bytes, from: nat, at: nat, n: nat, v: nat)
    requires from <= |b| && Number(b[from..], at, n, v)
    ensures Number(b, from + at, n, v)
  {
    NumberLater(b[..from], b[from..], at, n, v);
    assert b[..from] + b[from..] == b;
  }

  lemma NumberOfPart(b: Bytes, from: nat, n: nat, v: nat)
    requires from + n <= |b| && Number(b[from..from + n], 0, n, v)
    ensures Number(b, from, n, v)
  {
    assert b == b[..from] + b[from..from + n] + b[from + n..];
    NumberInside(b[..from], b[from..from + n], b[from + n..], 0, n, v);
  }

  // ---- one row -----------------------------------------------------------

  /** The time of a row as an unsigned number: microseconds from the start of
      the year 2000, modulo 2^64. */
  function TimeNumber(ts: int): nat {
    (ts - 946_684_800_000_000) % 0x1_0000_0000_0000_0000
  }

  /** Where element j begins in a row. */
  function FieldAt(layout: Layout, j: nat): (at: nat)
    ensures at == 14 + j * (4 + layout.size)
  {
    FieldsSize(layout.size, j);
    14 + FieldBytes(layout.size, j)
  }

  /** The values of a row of bytes from `at` on: the time after six bytes, and
      each element after four more. */
  ghost predicate Reads(layout: Layout, b: Bytes, at: nat, row: Sample) {
    && -0x8000_0000_0000_0000 <= row.ts < 0x8000_0000_0000_0000 && |row.elements| == layout.width
    && Number(b, at + 6, 8, TimeNumber(row.ts))
    && forall j :: 0 <= j < layout.width ==> ElementAt(layout, b, at, j, row.elements[j])
  }

  ghost predicate ElementAt(layout: Layout, b: Bytes, at: nat, j: nat, v: nat) {
    v < Pow256(layout.size) && Number(b, at + FieldAt(layout, j) + 4, layout.size, v)
  }

  /** What stands in front of the values: the number of fields, and the length
      of each, which is 8 for the time. */
  ghost predicate Counted(layout: Layout, b: Bytes, at: nat) {
    && Number(b, at, 2, layout.width + 1) && Number(b, at + 2, 4, 8)
    && forall j :: 0 <= j < layout.width ==> LengthAt(layout, b, at, j)
  }

  ghost predicate LengthAt(layout: Layout, b: Bytes, at: nat, j: nat) {
    Number(b, at + FieldAt(layout, j), 4, layout.size)
  }

  lemma FieldLater(head: Bytes, fields: Bytes, at: nat, size: nat, v: nat)
    requires Number(fields, at, 4, size) && Number(fields, at + 4, size, v)
    ensures Number(head + fields, |head| + at, 4, size) && Number(head + fields, |head| + at + 4, size, v)
  {
    NumberLater(head, fields, at, 4, size);
    NumberLater(head, fields, at + 4, size, v);
  }

  lemma {:induction false} FieldsAt(size: nat, elements: seq<nat>, j: nat)
    requires j < |elements|
    ensures Number(EncodeFields(size, elements), FieldBytes(size, j), 4, size)
    ensures Number(EncodeFields(size, elements), FieldBytes(size, j) + 4, size, elements[j])
  {
    var head, value, rest := BigEndian(size, 4), BigEndian(elements[0], size), EncodeFields(size, elements[1..]);
    if j == 0 {
      BigEndianIs(size, 4);
      BigEndianIs(elements[0], size);
      NumberInside([], head, value + rest, 0, 4, size);
      assert [] + head + (value + rest) == EncodeFields(size, elements);
      NumberInside(head, value, rest, 0, size, elements[0]);
    } else {
      FieldsAt(size, elements[1..], j - 1);
      FieldLater(head + value, rest, FieldBytes(size, j - 1), size, elements[j]);
    }
  }

  lemma HeadAt(layout: Layout, rest: Bytes)
    ensures Number(RowHead(layout) + rest, 0, 2, layout.width + 1) && Number(RowHead(layout) + rest, 2, 4, 8)
  {
    var count, length := BigEndian(layout.width + 1, 2), BigEndian(8, 4);
    BigEndianIs(layout.width + 1, 2);
    BigEndianIs(8, 4);
    NumberInside([], count, length + rest, 0, 2, layout.width + 1);
    NumberInside(count, length, rest, 0, 4, 8);
    assert [] + count + (length + rest) == RowHead(layout) + rest == count + length + rest;
  }

  lemma TimeAt(layout: Layout, row: Sample)
    ensures Number(EncodeRow(layout, row), 6, 8, TimeNumber(row.ts))
  {
    BigEndianIs(TimeNumber(row.ts), 8);
    NumberInside(RowHead(layout), TimeBytes(row.ts), EncodeFields(layout.size, row.elements), 0, 8, TimeNumber(row.ts));
  }

  lemma FieldOfRow(layout: Layout, row: Sample, j: nat)
    requires Fits(layout, row) && j < layout.width
    ensures LengthAt(layout, EncodeRow(layout, row), 0, j)
    ensures ElementAt(layout, EncodeRow(layout, row), 0, j, row.elements[j])
  {
    var head, fields := RowHead(layout) + TimeBytes(row.ts), EncodeFields(layout.size, row.elements);
    FieldsAt(layout.size, row.elements, j);
    FieldLater(head, fields, FieldBytes(layout.size, j), layout.size, row.elements[j]);
  }

  lemma RowLaidOut(layout: Layout, row: Sample)
    requires Fits(layout, row)
    ensures Counted(layout, EncodeRow(layout, row), 0) && Reads(layout, EncodeRow(layout, row), 0, row)
  {
    CountsOfRow(layout, row);
    TimeAt(layout, row);
    FieldsOfRow(layout, row);
  }

  lemma CountsOfRow(layout: Layout, row: Sample)
    ensures Number(EncodeRow(layout, row), 0, 2, layout.width + 1) && Number(EncodeRow(layout, row), 2, 4, 8)
  {
    var rest := TimeBytes(row.ts) + EncodeFields(layout.size, row.elements);
    HeadAt(layout, rest);
    assert RowHead(layout) + rest == EncodeRow(layout, row);
  }

  lemma FieldsOfRow(layout: Layout, row: Sample)
    requires Fits(layout, row)
    ensures forall j :: 0 <= j < layout.width ==> LengthAt(layout, EncodeRow(layout, row), 0, j)
    ensures forall j :: 0 <= j < layout.width ==> ElementAt(layout, EncodeRow(layout, row), 0, j, row.elements[j])
  {
    forall j | 0 <= j < layout.width
      ensures LengthAt(layout, EncodeRow(layout, row), 0, j)
      ensures ElementAt(layout, EncodeRow(layout, row), 0, j, row.elements[j])
    {
      FieldOfRow(layout, row, j);
    }
  }

  // ---- the whole copy ----------------------------------------------------

  /** The bytes of i rows. */
  function RowsBytes(layout: Layout, i: nat): nat {
    if i == 0 then 0 else RowBytes(layout) + RowsBytes(layout, i - 1)
  }

  lemma {:induction false} RowsBytesIs(layout: Layout, i: nat)
    ensures RowsBytes(layout, i) == i * RowBytes(layout)
  {
    if i > 0 {
      RowsBytesIs(layout, i - 1);
      assert (i - 1) * RowBytes(layout) + RowBytes(layout) == i * RowBytes(layout);
    }
  }

  /** Where row i begins. */
  function RowAt(layout: Layout, i: nat): (at: nat)
    ensures at == 19 + i * (14 + layout.width * (4 + layout.size))
  {
    FieldsSize(layout.size, layout.width);
    RowsBytesIs(layout, i);
    19 + RowsBytes(layout, i)
  }

  lemma RowInside(layout: Layout, a: Bytes, b: Bytes, c: Bytes, row: Sample)
    requires Counted(layout, b, 0) && Reads(layout, b, 0, row)
    ensures Counted(layout, a + b + c, |a|) && Reads(layout, a + b + c, |a|, row)
  {
    var all := a + b + c;
    NumberInside(a, b, c, 0, 2, layout.width + 1);
    NumberInside(a, b, c, 2, 4, 8);
    NumberInside(a, b, c, 6, 8, TimeNumber(row.ts));
    forall j | 0 <= j < layout.width
      ensures LengthAt(layout, all, |a|, j) && ElementAt(layout, all, |a|, j, row.elements[j])
    {
      assert LengthAt(layout, b, 0, j) && ElementAt(layout, b, 0, j, row.elements[j]);
      NumberInside(a, b, c, FieldAt(layout, j), 4, layout.size);
      NumberInside(a, b, c, FieldAt(layout, j) + 4, layout.size, row.elements[j]);
    }
  }

  lemma {:induction false} EncodeRowsAppend(layout: Layout, a: seq<Sample>, b: seq<Sample>)
    ensures EncodeRows(layout, a + b) == EncodeRows(layout, a) + EncodeRows(layout, b)
  {
    if a == [] {
      assert a + b == b;
    } else {
      assert (a + b)[1..] == a[1..] + b && (a + b)[0] == a[0];
      EncodeRowsAppend(layout, a[1..], b);
    }
  }

  /** The copy of the rows up to row i, row i, and the rest. */
  lemma CopySplits(layout: Layout, rows: seq<Sample>, i: nat) returns (a: Bytes, c: Bytes)
    requires AllFit(layout, rows) && i < |rows|
    ensures EncodeCopy(layout, rows) == a + EncodeRow(layout, rows[i]) + c && |a| == RowAt(layout, i)
  {
    var before, rest := EncodeRows(layout, rows[..i]), EncodeRows(layout, rows[i + 1..]);
    RowsSplit(layout, rows, i);
    RowsRoundTrip(layout, rows[..i]);
    RowsBytesIs(layout, i);
    a, c := Header() + before, rest + Footer();
    FiveParts(Header(), before, EncodeRow(layout, rows[i]), rest, Footer());
  }

  lemma RowsSplit(layout: Layout, rows: seq<Sample>, i: nat)
    requires i < |rows|
    ensures EncodeRows(layout, rows)
        == EncodeRows(layout, rows[..i]) + (EncodeRow(layout, rows[i]) + EncodeRows(layout, rows[i + 1..]))
  {
    var before, from, rest := rows[..i], rows[i..], rows[i + 1..];
    assert rows == before + from && from == [rows[i]] + rest;
    EncodeRowsAppend(layout, before, from);
    EncodeCons(layout, rows[i], rest);
  }

  lemma FiveParts(a: Bytes, b: Bytes, c: Bytes, d: Bytes, e: Bytes)
    ensures a + (b + (c + d)) + e == (a + b) + c + (d + e)
  {
  }

  /** Every number of a copy stands where the format says, the most significant
      byte first: row i begins after 19 bytes and i rows, with the number of its
      fields and the length 8; its time counts from the year 2000; and each
      element follows its length. */
  lemma CopyLaidOut(layout: Layout, rows: seq<Sample>, i: nat)
    requires AllFit(layout, rows) && i < |rows|
    ensures var b := EncodeCopy(layout, rows);
      Counted(layout, b, RowAt(layout, i)) && Reads(layout, b, RowAt(layout, i), rows[i])
  {
    var a, c := CopySplits(layout, rows, i);
    RowLaidOut(layout, rows[i]);
    RowInside(layout, a, EncodeRow(layout, rows[i]), c, rows[i]);
  }

  /** Before the rows there are the signature and eight zeros, and after them
      two bytes of all ones. */
  lemma CopyEnds(layout: Layout, rows: seq<Sample>)
    requires AllFit(layout, rows)
    ensures var b := EncodeCopy(layout, rows);
      && |b| == RowAt(layout, |rows|) + 2
      && b[..19] == [80, 71, 67, 79, 80, 89, 10, 255, 13, 10, 0, 0, 0, 0, 0, 0, 0, 0, 0]
      && b[|b| - 2..] == [255, 255]
  {
    CopyRoundTrip(layout, rows);
    CopyAgain(layout, EncodeCopy(layout, rows));
  }

  // ---- reading a copy ----------------------------------------------------

  lemma {:induction false} FieldRead(size: nat, width: nat, b: Bytes, j: nat)
    requires |b| == FieldBytes(size, width) && j < width
    ensures var v := DecodeFields(size, width, b)[j];
      v < Pow256(size) && Number(b, FieldBytes(size, j) + 4, size, v)
  {
    var v, part, rest := DecodeFields(size, width, b)[j], b[4..4 + size], b[4 + size..];
    if j == 0 {
      FromBigEndianIs(part);
      NumberOfPart(b, 4, size, v);
    } else {
      FieldRead(size, width - 1, rest, j - 1);
      NumberInRest(b, 4 + size, FieldBytes(size, j - 1) + 4, size, v);
    }
  }

  lemma TimeRead(b: Bytes)
    requires |b| == 8
    ensures Number(b, 0, 8, TimeNumber(TimeOf(b))) && Int64(TimeOf(b))
  {
    TimeFieldAgain(b);
    BigEndianIs(TimeNumber(TimeOf(b)), 8);
  }

  lemma RowRead(layout: Layout, b: Bytes)
    requires |b| == RowBytes(layout)
    ensures Reads(layout, b, 0, DecodeRow(layout, b))
  {
    var row, fields := DecodeRow(layout, b), b[14..];
    TimeRead(b[6..14]);
    NumberOfPart(b, 6, 8, TimeNumber(row.ts));
    assert b == b[..14] + fields;
    forall j | 0 <= j < layout.width ensures ElementAt(layout, b, 0, j, row.elements[j]) {
      FieldRead(layout.size, layout.width, fields, j);
      NumberLater(b[..14], fields, FieldBytes(layout.size, j) + 4, layout.size, row.elements[j]);
    }
  }

  lemma {:induction false} RowsRead(layout: Layout, b: Bytes, i: nat)
    requires |b| % RowBytes(layout) == 0 && i < |DecodeRows(layout, b)|
    ensures Reads(layout, b, RowsBytes(layout, i), DecodeRows(layout, b)[i])
    decreases |b|
  {
    var n := RowBytes(layout);
    DropAligned(n, b);
    if i == 0 {
      RowRead(layout, b[..n]);
      ReadsEarlier(layout, b[..n], b[n..], 0, DecodeRow(layout, b[..n]));
      assert b[..n] + b[n..] == b;
    } else {
      RowsRead(layout, b[n..], i - 1);
      ReadsInRest(layout, b, n, RowsBytes(layout, i - 1), DecodeRows(layout, b)[i]);
    }
  }

  lemma ReadsInRest(layout: Layout, b: Bytes, from: nat, at: nat, row: Sample)
    requires from <= |b| && Reads(layout, b[from..], at, row)
    ensures Reads(layout, b, from + at, row)
  {
    ReadsLater(layout, b[..from], b[from..], at, row);
    assert b[..from] + b[from..] == b;
  }

  lemma ReadsLater(layout: Layout, a: Bytes, b: Bytes, at: nat, row: Sample)
    requires Reads(layout, b, at, row)
    ensures Reads(layout, a + b, |a| + at, row)
  {
    NumberLater(a, b, at + 6, 8, TimeNumber(row.ts));
    forall j | 0 <= j < layout.width ensures ElementAt(layout, a + b, |a| + at, j, row.elements[j]) {
      assert ElementAt(layout, b, at, j, row.elements[j]);
      NumberLater(a, b, at + FieldAt(layout, j) + 4, layout.size, row.elements[j]);
    }
  }

  lemma {:induction false} RowsReadCount(layout: Layout, b: Bytes)
    requires |b| % RowBytes(layout) == 0
    ensures |DecodeRows(layout, b)| * RowBytes(layout) == |b|
    decreases |b|
  {
    var n := RowBytes(layout);
    if b != [] {
      SmallAligned(n, b);
      DropAligned(n, b);
      RowsReadCount(layout, b[n..]);
      assert (|DecodeRows(layout, b[n..])| + 1) * n == |DecodeRows(layout, b[n..])| * n + n;
    }
  }

  /** The first check that fails decides the error ... */
  lemma CopyErrors(layout: Layout, b: Bytes)
    ensures var signed := |b| >= 19 && b[..19] == [80, 71, 67, 79, 80, 89, 10, 255, 13, 10, 0, 0, 0, 0, 0, 0, 0, 0, 0];
      var sized := |b| >= 21 && (|b| - 21) % (14 + layout.width * (4 + layout.size)) == 0;
      && (DecodeCopy(layout, b) == Error(BadHeader) <==> !signed)
      && (DecodeCopy(layout, b) == Error(BadSize) <==> signed && !sized)
      && (DecodeCopy(layout, b) == Error(BadFooter) <==> signed && sized && b[|b| - 2..] != [255, 255])
  {
    FieldsSize(layout.size, layout.width);
  }

  /** ... and without an error there is a sample for each row of bytes, with the
      numbers that stand there. */
  lemma CopyRead(layout: Layout, b: Bytes, i: nat)
    requires DecodeCopy(layout, b).Samples?
    ensures |b| == RowAt(layout, |DecodeCopy(layout, b).rows|) + 2
    ensures i < |DecodeCopy(layout, b).rows| ==> Reads(layout, b, RowAt(layout, i), DecodeCopy(layout, b).rows[i])
  {
    var body, rows := b[19..|b| - 2], DecodeCopy(layout, b).rows;
    RowsReadCount(layout, body);
    RowsBytesIs(layout, |rows|);
    if i < |rows| {
      RowsRead(layout, body, i);
      ReadsInBody(layout, b, RowsBytes(layout, i), rows[i]);
    }
  }

  lemma ReadsInBody(layout: Layout, b: Bytes, at: nat, row: Sample)
    requires |b| >= 21 && Reads(layout, b[19..|b| - 2], at, row)
    ensures Reads(layout, b, 19 + at, row)
  {
    var head, body, foot := b[..19], b[19..|b| - 2], b[|b| - 2..];
    ReadsLater(layout, head, body, at, row);
    ReadsEarlier(layout, head + body, foot, 19 + at, row);
    assert head + body + foot == b;
  }

  lemma ReadsEarlier(layout: Layout, a: Bytes, b: Bytes, at: nat, row: Sample)
    requires Reads(layout, a, at, row)
    ensures Reads(layout, a + b, at, row)
  {
    NumberEarlier(a, b, at + 6, 8, TimeNumber(row.ts));
    forall j | 0 <= j < layout.width ensures ElementAt(layout, a + b, at, j, row.elements[j]) {
      assert ElementAt(layout, a, at, j, row.elements[j]);
      NumberEarlier(a, b, at + FieldAt(layout, j) + 4, layout.size, row.elements[j]);
    }
  }

  lemma NumberEarlier(a: Bytes, b: Bytes, at: nat, n: nat, v: nat)
    requires Number(a, at, n, v)
    ensures Number(a + b, at, n, v)
  {
    NumberInside([], a, b, at, n, v);
    assert [] + a + b == a + b;
  }
}
