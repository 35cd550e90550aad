/** The binary copy format of PostgreSQL, in which samples enter and leave the
    database ("Binary Format" in its documentation of COPY). */
module Codec {
  import opened Arithmetic
  import opened Segments
  import opened Framing

  /** Microseconds from 1970 to 2000, where the database counts from. */
  const EPOCH := 946684800000000
  const TWO_63 := 0x8000_0000_0000_0000
  const TWO_64 := 0x1_0000_0000_0000_0000

  /** Samples have `width` elements of `size` bytes each. */
  datatype Layout = Layout(width: nat, size: nat)

  /** Elements are bit patterns. */
  datatype Sample = Sample(ts: int, elements: seq<nat>)

  datatype CopyError = BadHeader | BadSize | BadFooter
  datatype Decoded = Samples(rows: seq<Sample>) | Error(error: CopyError)

  function Pow256(n: nat): (p: nat)
    ensures p > 0
  {
    if n == 0 then 1 else 256 * Pow256(n - 1)
  }

  predicate Int64(x: int) { -TWO_63 <= x < TWO_63 }

  ghost predicate Fits(layout: Layout, row: Sample) {
    && Int64(row.ts) && |row.elements| == layout.width
    && forall i :: 0 <= i < |row.elements| ==> row.elements[i] < Pow256(layout.size)
  }

  ghost predicate AllFit(layout: Layout, rows: seq<Sample>) {
    forall i :: 0 <= i < |rows| ==> Fits(layout, rows[i])
  }

  // ---- numbers -----------------------------------------------------------

  function BigEndian(v: nat, n: nat): (b: Bytes)
    ensures |b| == n
  {
    if n == 0 then [] else BigEndian(v / 256, n - 1) + [v % 256]
  }

  function FromBigEndian(b: Bytes): (v: nat) {
    if b == [] then 0 else FromBigEndian(b[..|b| - 1]) * 256 + b[|b| - 1]
  }

  lemma {:induction false} NumberRoundTrip(v: nat, n: nat)
    requires v < Pow256(n)
    ensures FromBigEndian(BigEndian(v, n)) == v
  {
    if n > 0 {
      NumberRoundTrip(v / 256, n - 1);
      var b := BigEndian(v, n);
      assert b[..|b| - 1] == BigEndian(v / 256, n - 1);
    }
  }

  lemma {:induction false} BytesRoundTrip(b: Bytes)
    ensures BigEndian(FromBigEndian(b), |b|) == b && FromBigEndian(b) < Pow256(|b|)
  {
    if b != [] {
      BytesRoundTrip(b[..|b| - 1]);
      var v := FromBigEndian(b);
      assert v / 256 == FromBigEndian(b[..|b| - 1]) && v % 256 == b[|b| - 1];
      assert b[..|b| - 1] + [b[|b| - 1]] == b;
    }
  }

  lemma EightBytes()
    ensures Pow256(8) == TWO_64
  {
    assert Pow256(4) == 256 * Pow256(3) == 0x1_0000_0000;
    assert Pow256(8) == 256 * Pow256(7) && Pow256(7) == 256 * Pow256(6) && Pow256(6) == 256 * Pow256(5);
  }

  /** The pattern of a number in eight bytes, and the number of a pattern. */
  function Pattern64(x: int): (v: nat)
    ensures v < TWO_64
  {
    x % TWO_64
  }

  function Signed64(v: nat): int {
    var r := v % TWO_64; if r < TWO_63 then r else r - TWO_64
  }

  /** Moving a timestamp to the epoch of the database and back is exact, even
      where the difference does not fit in eight bytes. */
  lemma TimeRoundTrip(ts: int)
    requires Int64(ts)
    ensures Signed64(Pattern64(Signed64(Pattern64(ts - EPOCH)) + EPOCH)) == ts
  {
    if ts - EPOCH >= -TWO_63 {
    } else {
      assert Pattern64(ts - EPOCH) == ts - EPOCH + TWO_64;
    }
  }

  // ---- rows --------------------------------------------------------------

  function EncodeFields(size: nat, elements: seq<nat>): Bytes {
    if elements == [] then []
    else BigEndian(size, 4) + BigEndian(elements[0], size) + EncodeFields(size, elements[1..])
  }

  function FieldBytes(size: nat, width: nat): nat {
    if width == 0 then 0 else 4 + size + FieldBytes(size, width - 1)
  }

  function DecodeFields(size: nat, width: nat, b: Bytes): (elements: seq<nat>)
    requires |b| == FieldBytes(size, width)
    ensures |elements| == width
  {
    if width == 0 then []
    else [FromBigEndian(b[4..4 + size])] + DecodeFields(size, width - 1, b[4 + size..])
  }

  function TimeBytes(ts: int): (b: Bytes)
    ensures |b| == 8
  {
    BigEndian(Pattern64(ts - EPOCH), 8)
  }

  function TimeOf(b: Bytes): int {
    Signed64(Pattern64(Signed64(FromBigEndian(b)) + EPOCH))
  }

  function RowHead(layout: Layout): (b: Bytes)
    ensures |b| == 6
  {
    BigEndian(layout.width + 1, 2) + BigEndian(8, 4)
  }

  /** Field count, then each field after its length; the first is the time. */
  function EncodeRow(layout: Layout, row: Sample): Bytes {
    RowHead(layout) + TimeBytes(row.ts) + EncodeFields(layout.size, row.elements)
  }

  function RowBytes(layout: Layout): (n: nat)
    ensures n > 0
  {
    14 + FieldBytes(layout.size, layout.width)
  }

  /** Field count and lengths are not looked at. */
  function DecodeRow(layout: Layout, b: Bytes): Sample
    requires |b| == RowBytes(layout)
  {
    Sample(TimeOf(b[6..14]), DecodeFields(layout.size, layout.width, b[14..]))
  }

  lemma {:induction false} FieldsSize(size: nat, width: nat)
    ensures FieldBytes(size, width) == width * (4 + size)
  {
    if width > 0 {
      FieldsSize(size, width - 1);
    }
  }

  lemma {:induction false} FieldsRoundTrip(size: nat, elements: seq<nat>)
    requires forall i :: 0 <= i < |elements| ==> elements[i] < Pow256(size)
    ensures |EncodeFields(size, elements)| == FieldBytes(size, |elements|)
    ensures DecodeFields(size, |elements|, EncodeFields(size, elements)) == elements
  {
    if elements != [] {
      FieldsRoundTrip(size, elements[1..]);
      NumberRoundTrip(elements[0], size);
      var b := EncodeFields(size, elements);
      assert b[4..4 + size] == BigEndian(elements[0], size);
      assert b[4 + size..] == EncodeFields(size, elements[1..]);
    }
  }

  lemma RowRoundTrip(layout: Layout, row: Sample)
    requires Fits(layout, row)
    ensures |EncodeRow(layout, row)| == RowBytes(layout)
    ensures DecodeRow(layout, EncodeRow(layout, row)) == row
  {
    FieldsRoundTrip(layout.size, row.elements);
    MiddlePart(RowHead(layout), TimeBytes(row.ts), EncodeFields(layout.size, row.elements));
    TimeField(row.ts);
  }

  lemma MiddlePart(a: Bytes, b: Bytes, c: Bytes)
    ensures (a + b + c)[|a|..|a| + |b|] == b && (a + b + c)[|a| + |b|..] == c
  {
  }

  lemma TimeField(ts: int)
    requires Int64(ts)
    ensures TimeOf(TimeBytes(ts)) == ts
  {
    var n := 8;
    EightBytes();
    NumberRoundTrip(Pattern64(ts - EPOCH), n);
    TimeRoundTrip(ts);
  }

  // ---- the whole copy ----------------------------------------------------

  /** Signature, flags and length of the header extension, both zero. */
  function Header(): (b: Bytes)
    ensures |b| == 19
  {
    [80, 71, 67, 79, 80, 89, 10, 255, 13, 10, 0] + [0, 0, 0, 0] + [0, 0, 0, 0]
  }

  /** A field count of -1. */
  function Footer(): (b: Bytes)
    ensures |b| == 2
  {
    [255, 255]
  }

  function EncodeRows(layout: Layout, rows: seq<Sample>): Bytes {
    if rows == [] then [] else EncodeRow(layout, rows[0]) + EncodeRows(layout, rows[1..])
  }

  function DecodeRows(layout: Layout, b: Bytes): seq<Sample> {
    var n := RowBytes(layout);
    if |b| < n then [] else [DecodeRow(layout, b[..n])] + DecodeRows(layout, b[n..])
  }

  function EncodeCopy(layout: Layout, rows: seq<Sample>): Bytes {
    Header() + EncodeRows(layout, rows) + Footer()
  }

  function DecodeCopy(layout: Layout, b: Bytes): Decoded {
    if |b| < 19 || b[..19] != Header() then Error(BadHeader)
    else if |b| < 21 || (|b| - 21) % RowBytes(layout) != 0 then Error(BadSize)
    else if b[|b| - 2..] != Footer() then Error(BadFooter)
    else Samples(DecodeRows(layout, b[19..|b| - 2]))
  }

  lemma {:induction false} RowsRoundTrip(layout: Layout, rows: seq<Sample>)
    requires AllFit(layout, rows)
    ensures |EncodeRows(layout, rows)| == |rows| * RowBytes(layout)
    ensures DecodeRows(layout, EncodeRows(layout, rows)) == rows
  {
    if rows != [] {
      RowRoundTrip(layout, rows[0]);
      RowsRoundTrip(layout, rows[1..]);
      var first, rest, n := EncodeRow(layout, rows[0]), EncodeRows(layout, rows[1..]), RowBytes(layout);
      assert (first + rest)[..n] == first && (first + rest)[n..] == rest;
      assert |rows| * n == (|rows| - 1) * n + n;
    }
  }

  /** Decoding undoes encoding, for every number of rows, width and element
      size; and the size of the copy is as the format says. */
  lemma CopyRoundTrip(layout: Layout, rows: seq<Sample>)
    requires AllFit(layout, rows)
    ensures DecodeCopy(layout, EncodeCopy(layout, rows)) == Samples(rows)
    ensures |EncodeCopy(layout, rows)| == 21 + |rows| * (14 + layout.width * (4 + layout.size))
  {
    RowsRoundTrip(layout, rows);
    FieldsSize(layout.size, layout.width);
    var n := RowBytes(layout);
    ModUnique(|rows| * n, n, |rows|, 0);
    var b, body := EncodeCopy(layout, rows), EncodeRows(layout, rows);
    assert b[..19] == Header() && b[|b| - 2..] == Footer() && b[19..|b| - 2] == body;
  }

  // ---- copies from elsewhere ---------------------------------------------

  /** The lengths in front of the elements are those of the layout. */
  ghost predicate RightFields(size: nat, width: nat, b: Bytes)
    requires |b| == FieldBytes(size, width)
  {
    width == 0 || (b[..4] == BigEndian(size, 4) && RightFields(size, width - 1, b[4 + size..]))
  }

  /** The field count and all lengths are right. */
  ghost predicate RightRow(layout: Layout, b: Bytes)
    requires |b| == RowBytes(layout)
  {
    b[..6] == RowHead(layout) && RightFields(layout.size, layout.width, b[14..])
  }

  ghost predicate RightRows(layout: Layout, b: Bytes) {
    var n := RowBytes(layout);
    |b| < n || (RightRow(layout, b[..n]) && RightRows(layout, b[n..]))
  }

  /** The first field again, in front of the others. */
  lemma FieldAgain(size: nat, width: nat, b: Bytes)
    requires |b| == FieldBytes(size, width) && width > 0
    ensures EncodeFields(size, DecodeFields(size, width, b))
        == BigEndian(size, 4) + b[4..4 + size] + EncodeFields(size, DecodeFields(size, width - 1, b[4 + size..]))
  {
    BytesRoundTrip(b[4..4 + size]);
    assert DecodeFields(size, width, b)[1..] == DecodeFields(size, width - 1, b[4 + size..]);
  }

  lemma {:induction false} FieldsAgain(size: nat, width: nat, b: Bytes)
    requires |b| == FieldBytes(size, width)
    ensures EncodeFields(size, DecodeFields(size, width, b)) == b <==> RightFields(size, width, b)
    ensures |EncodeFields(size, DecodeFields(size, width, b))| == |b|
    decreases width
  {
    if width > 0 {
      var rest := b[4 + size..];
      FieldsAgain(size, width - 1, rest);
      FieldAgain(size, width, b);
      SameParts(BigEndian(size, 4), b, 4, 4 + size, EncodeFields(size, DecodeFields(size, width - 1, rest)));
    }
  }

  /** Bytes with other ends, but the same middle. */
  lemma SameParts(a: Bytes, b: Bytes, i: nat, j: nat, c: Bytes)
    requires |a| == i <= j <= |b| && |c| == |b| - j
    ensures |a + b[i..j] + c| == |b|
    ensures a + b[i..j] + c == b <==> a == b[..i] && c == b[j..]
  {
    var x := a + b[i..j] + c;
    assert x[..i] == a && x[i..j] == b[i..j] && x[j..] == c;
    assert b == b[..i] + b[i..j] + b[j..];
  }

  lemma TimeAgain(v: nat)
    requires v < TWO_64
    ensures Pattern64(Signed64(Pattern64(Signed64(v) + EPOCH)) - EPOCH) == v
  {
  }

  lemma PairParts(a: Bytes, b: Bytes, c: Bytes, d: Bytes)
    requires |a| == |b|
    ensures a + c == b + d <==> a == b && c == d
  {
    assert (a + c)[..|a|] == a && (b + d)[..|a|] == b && (a + c)[|a|..] == c && (b + d)[|a|..] == d;
  }

  lemma TimeFieldAgain(time: Bytes)
    requires |time| == 8
    ensures TimeBytes(TimeOf(time)) == time
  {
    var n := |time|;
    BytesRoundTrip(time);
    EightBytes();
    TimeAgain(FromBigEndian(time));
    assert BigEndian(FromBigEndian(time), n) == time;
  }

  lemma RowAgain(layout: Layout, b: Bytes)
    requires |b| == RowBytes(layout)
    ensures EncodeRow(layout, DecodeRow(layout, b)) == b <==> RightRow(layout, b)
    ensures |EncodeRow(layout, DecodeRow(layout, b))| == |b|
  {
    var time, rest := b[6..14], b[14..];
    TimeFieldAgain(time);
    FieldsAgain(layout.size, layout.width, rest);
    var fields := DecodeFields(layout.size, layout.width, rest);
    SameParts(RowHead(layout), b, 6, 14, EncodeFields(layout.size, fields));
  }

  lemma EncodeCons(layout: Layout, row: Sample, rows: seq<Sample>)
    ensures EncodeRows(layout, [row] + rows) == EncodeRow(layout, row) + EncodeRows(layout, rows)
  {
    assert ([row] + rows)[1..] == rows;
  }

  lemma {:induction false} RowsAgain(layout: Layout, b: Bytes)
    requires |b| % RowBytes(layout) == 0
    ensures EncodeRows(layout, DecodeRows(layout, b)) == b <==> RightRows(layout, b)
    ensures |EncodeRows(layout, DecodeRows(layout, b))| == |b|
    decreases |b|
  {
    var n := RowBytes(layout);
    if b != [] {
      SmallAligned(n, b);
      DropAligned(n, b);
      var first, rest := b[..n], b[n..];
      RowAgain(layout, first);
      RowsAgain(layout, rest);
      EncodeCons(layout, DecodeRow(layout, first), DecodeRows(layout, rest));
      assert b == first + rest;
      PairParts(EncodeRow(layout, DecodeRow(layout, first)), first, EncodeRows(layout, DecodeRows(layout, rest)), rest);
    }
  }

  /** Any bytes are decoded exactly when they have the header, whole rows and
      the footer. Encoding the samples again gives the same bytes exactly when
      the counts and lengths in them, which are not looked at, are right. */
  lemma CopyAgain(layout: Layout, b: Bytes)
    ensures DecodeCopy(layout, b).Samples? <==>
      |b| >= 21 && b[..19] == Header() && b[|b| - 2..] == Footer() && (|b| - 21) % RowBytes(layout) == 0
    ensures DecodeCopy(layout, b).Samples? ==>
      (EncodeCopy(layout, DecodeCopy(layout, b).rows) == b <==> RightRows(layout, b[19..|b| - 2]))
  {
    if DecodeCopy(layout, b).Samples? {
      var body := b[19..|b| - 2];
      RowsAgain(layout, body);
      assert b == Header() + body + Footer();
      var again := EncodeRows(layout, DecodeRows(layout, body));
      var x := Header() + again + Footer();
      assert x[19..|x| - 2] == again;
    }
  }

  // ---- the two operations ------------------------------------------------

  /** The bytes to copy into the database, a row at a time and within it a
      column at a time. */
  method DataToBytes(layout: Layout, rows: seq<Sample>) returns (b: Bytes)
    requires AllFit(layout, rows)
    ensures b == EncodeCopy(layout, rows) && DecodeCopy(layout, b) == Samples(rows)
  {
    CopyRoundTrip(layout, rows);
    b := Header();
    for i := 0 to |rows|
      invariant b + EncodeRows(layout, rows[i..]) == Header() + EncodeRows(layout, rows)
    {
      assert rows[i..][1..] == rows[i + 1..] && Fits(layout, rows[i]);
      var row := RowToBytes(layout, rows[i]);
      Assoc(b, row, EncodeRows(layout, rows[i + 1..]));
      b := b + row;
    }
    var rest := rows[|rows|..];
    assert rest == [] && b + EncodeRows(layout, rest) == b;
    b := b + Footer();
  }

  method RowToBytes(layout: Layout, row: Sample) returns (b: Bytes)
    requires Fits(layout, row)
    ensures b == EncodeRow(layout, row)
  {
    b := RowHead(layout) + TimeBytes(row.ts);
    ghost var head, elements := b, row.elements;
    for i := 0 to layout.width
      invariant b + EncodeFields(layout.size, elements[i..]) == head + EncodeFields(layout.size, elements)
    {
      assert elements[i..][1..] == elements[i + 1..];
      var field := BigEndian(layout.size, 4) + BigEndian(row.elements[i], layout.size);
      Assoc(b, field, EncodeFields(layout.size, elements[i + 1..]));
      b := b + field;
    }
    ghost var rest := elements[layout.width..];
    assert rest == [] && b + EncodeFields(layout.size, rest) == b;
  }

  method BytesToData(layout: Layout, b: Bytes) returns (result: Decoded)
    ensures result == DecodeCopy(layout, b)
  {
    if |b| < 19 || b[..19] != Header() {
      return Error(BadHeader);
    }
    var n := RowBytes(layout);
    if |b| < 21 || (|b| - 21) % n != 0 {
      return Error(BadSize);
    }
    var body, rows: seq<Sample> := b[19..|b| - 2], [];
    var left := body;
    while |left| >= n
      invariant rows + DecodeRows(layout, left) == DecodeRows(layout, body)
      decreases |left|
    {
      Assoc(rows, [DecodeRow(layout, left[..n])], DecodeRows(layout, left[n..]));
      rows, left := rows + [DecodeRow(layout, left[..n])], left[n..];
    }
    if b[|b| - 2..] != Footer() {
      return Error(BadFooter);
    }
    return Samples(rows);
  }
}
