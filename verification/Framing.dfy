/** Rows on the wire. A row is the fixed number of bytes its layout gives it;
    a row of zero bytes, the interval token, marks the end of an interval. */
module Framing {
  import opened Arithmetic
  import opened Rows
  import opened Segments

  type byte = x: int | 0 <= x < 256
  type Bytes = seq<byte>

  /** What a stream carries: rows and interval breaks. */
  datatype Item = Data(row: Bytes) | Gap

  function Token(rb: nat): Bytes {
    seq(rb, _ => 0)
  }

  function EncodeItem(rb: nat, x: Item): Bytes {
    match x case Data(row) => row case Gap => Token(rb)
  }

  function Encode(rb: nat, items: seq<Item>): Bytes {
    if items == [] then [] else EncodeItem(rb, items[0]) + Encode(rb, items[1..])
  }

  /** The rows of aligned bytes. */
  function ToRows(rb: nat, bytes: Bytes): (rows: seq<Bytes>)
    requires rb > 0
  {
    if |bytes| < rb then [] else [bytes[..rb]] + ToRows(rb, bytes[rb..])
  }

  function Decode(rb: nat, bytes: Bytes): seq<Item>
    requires rb > 0
  {
    if |bytes| < rb then []
    else [if bytes[..rb] == Token(rb) then Gap else Data(bytes[..rb])] + Decode(rb, bytes[rb..])
  }

  /** Every row has its full width and none is the token. */
  ghost predicate Clean(rb: nat, items: seq<Item>) {
    forall i :: 0 <= i < |items| ==> CleanItem(rb, items[i])
  }

  predicate CleanItem(rb: nat, x: Item) {
    x.Data? ==> |x.row| == rb && x.row != Token(rb)
  }

  ghost predicate Wide(rb: nat, rows: seq<Bytes>) {
    forall i :: 0 <= i < |rows| ==> |rows[i]| == rb
  }

  ghost predicate Aligned(rb: nat, bytes: Bytes)
    requires rb > 0
  {
    |bytes| % rb == 0
  }

  function AsData(rows: seq<Bytes>): seq<Item> {
    seq(|rows|, i requires 0 <= i < |rows| => Data(rows[i]))
  }

  /** The rows alone. */
  function RowsOf(items: seq<Item>): seq<Bytes> {
    if items == [] then [] else (if items[0].Data? then [items[0].row] else []) + RowsOf(items[1..])
  }

  lemma {:induction false} RowsOfAppend(a: seq<Item>, b: seq<Item>)
    ensures RowsOf(a + b) == RowsOf(a) + RowsOf(b)
  {
    if a == [] {
      assert a + b == b;
    } else {
      assert (a + b)[1..] == a[1..] + b;
      RowsOfAppend(a[1..], b);
    }
  }

  lemma {:induction false} RowsOfData(rows: seq<Bytes>)
    ensures RowsOf(AsData(rows)) == rows
  {
    if rows != [] {
      RowsOfData(rows[1..]);
      assert AsData(rows)[1..] == AsData(rows[1..]);
    }
  }

  lemma RowsOfGap()
    ensures RowsOf([Gap]) == []
  {
    var none := [Gap][1..];
    assert RowsOf(none) == [];
  }

  // ---- encoding ----------------------------------------------------------

  lemma {:induction false} EncodeAppend(rb: nat, a: seq<Item>, b: seq<Item>)
    ensures Encode(rb, a + b) == Encode(rb, a) + Encode(rb, b)
  {
    if a == [] {
      assert a + b == b;
    } else {
      assert (a + b)[1..] == a[1..] + b;
      EncodeAppend(rb, a[1..], b);
      Assoc(EncodeItem(rb, a[0]), Encode(rb, a[1..]), Encode(rb, b));
    }
  }

  lemma EncodeOne(rb: nat, x: Item)
    ensures Encode(rb, [x]) == EncodeItem(rb, x)
  {
    var none: seq<Item> := [x][1..];
    assert none == [];
    assert Encode(rb, [x]) == EncodeItem(rb, x) + Encode(rb, none);
  }

  lemma {:induction false} EncodeData(rb: nat, rows: seq<Bytes>)
    ensures Encode(rb, AsData(rows)) == Concat(rows)
  {
    if rows != [] {
      EncodeData(rb, rows[1..]);
      assert AsData(rows)[1..] == AsData(rows[1..]);
    }
  }

  lemma {:induction false} EncodeAligned(rb: nat, items: seq<Item>)
    requires rb > 0 && Clean(rb, items)
    ensures Aligned(rb, Encode(rb, items))
  {
    if items != [] {
      EncodeAligned(rb, items[1..]);
      assert CleanItem(rb, items[0]);
      ModUnique(rb, rb, 1, 0);
      ModAdd(rb, |Encode(rb, items[1..])|, rb);
    }
  }

  /** Decoding undoes encoding. */
  lemma {:induction false} DecodeEncode(rb: nat, items: seq<Item>)
    requires rb > 0 && Clean(rb, items)
    ensures Decode(rb, Encode(rb, items)) == items
  {
    if items != [] {
      assert CleanItem(rb, items[0]);
      DecodeEncode(rb, items[1..]);
      var first, rest := EncodeItem(rb, items[0]), Encode(rb, items[1..]);
      assert |first| == rb && (first + rest)[..rb] == first && (first + rest)[rb..] == rest;
    }
  }

  lemma {:induction false} DecodeAppend(rb: nat, a: Bytes, b: Bytes)
    requires rb > 0 && Aligned(rb, a)
    ensures Decode(rb, a + b) == Decode(rb, a) + Decode(rb, b)
    decreases |a|
  {
    if a == [] {
      assert a + b == b;
    } else {
      SmallAligned(rb, a);
      assert (a + b)[..rb] == a[..rb] && (a + b)[rb..] == a[rb..] + b;
      DropAligned(rb, a);
      DecodeAppend(rb, a[rb..], b);
    }
  }

  /** Aligned bytes that are not empty hold at least a row. */
  lemma SmallAligned(rb: nat, a: Bytes)
    requires rb > 0 && Aligned(rb, a) && a != []
    ensures |a| >= rb
  {
    if |a| < rb {
      ModUnique(|a|, rb, 0, |a|);
    }
  }

  lemma DropAligned(rb: nat, a: Bytes)
    requires rb > 0 && Aligned(rb, a) && |a| >= rb
    ensures Aligned(rb, a[rb..])
  {
    ModUnique(rb, rb, 1, 0);
    ModAdd(rb, |a| - rb, rb);
  }

  /** What was received is a prefix of what was sent if the bytes are. */
  lemma PrefixReceived(rb: nat, got: seq<Item>, rest: Bytes, sent: seq<Item>)
    requires rb > 0 && Clean(rb, got) && Clean(rb, sent)
    requires Encode(rb, got) + rest == Encode(rb, sent)
    ensures got <= sent && (rest == [] ==> got == sent)
  {
    EncodeAligned(rb, got);
    DecodeEncode(rb, got);
    DecodeEncode(rb, sent);
    DecodeAppend(rb, Encode(rb, got), rest);
  }

  // ---- rows of aligned bytes ---------------------------------------------

  lemma {:induction false} ToRowsWhole(rb: nat, bytes: Bytes)
    requires rb > 0 && Aligned(rb, bytes)
    ensures Concat(ToRows(rb, bytes)) == bytes && Wide(rb, ToRows(rb, bytes))
    ensures |ToRows(rb, bytes)| * rb == |bytes|
    decreases |bytes|
  {
    if bytes != [] {
      SmallAligned(rb, bytes);
      DropAligned(rb, bytes);
      ToRowsWhole(rb, bytes[rb..]);
      var rest := ToRows(rb, bytes[rb..]);
      assert ToRows(rb, bytes)[1..] == rest;
      assert (|rest| + 1) * rb == |rest| * rb + rb;
    }
  }

  lemma {:induction false} ToRowsAppend(rb: nat, a: Bytes, b: Bytes)
    requires rb > 0 && Aligned(rb, a)
    ensures ToRows(rb, a + b) == ToRows(rb, a) + ToRows(rb, b)
    decreases |a|
  {
    if a == [] {
      assert a + b == b;
    } else {
      SmallAligned(rb, a);
      assert (a + b)[..rb] == a[..rb] && (a + b)[rb..] == a[rb..] + b;
      DropAligned(rb, a);
      ToRowsAppend(rb, a[rb..], b);
    }
  }

  /** The index of the first row that is the token, or the number of rows. */
  function TokenIndex(rb: nat, rows: seq<Bytes>): (k: nat)
    ensures k <= |rows|
    ensures k < |rows| ==> rows[k] == Token(rb)
    ensures forall i :: 0 <= i < k ==> rows[i] != Token(rb)
  {
    if rows == [] || rows[0] == Token(rb) then 0 else 1 + TokenIndex(rb, rows[1..])
  }

  predicate Contains(bytes: Bytes, part: Bytes) {
    exists k :: 0 <= k <= |bytes| - |part| && FoundAt(bytes, part, k)
  }

  predicate FoundAt(bytes: Bytes, part: Bytes, k: int) {
    0 <= k <= |bytes| - |part| && bytes[k..k + |part|] == part
  }

  /** Where the first token aligned to a row begins and ends. */
  method FindIntervalToken(rb: nat, raw: Bytes) returns (loc: Option<(nat, nat)>)
    requires rb > 0 && Aligned(rb, raw)
    ensures var rows := ToRows(rb, raw); var k := TokenIndex(rb, rows);
      loc == if k < |rows| then Some((k * rb, (k + 1) * rb)) else None
    ensures loc.Some? ==> loc.value.0 <= loc.value.1 <= |raw|
  {
    var rows := ToRows(rb, raw);
    ToRowsWhole(rb, raw);
    if !Contains(raw, Token(rb)) {
      NoTokenInside(rb, raw);
      return None;
    }
    var i := 0;
    while i < |rows|
      invariant 0 <= i <= |rows|
      invariant forall n :: 0 <= n < i ==> rows[n] != Token(rb)
    {
      if rows[i] == Token(rb) {
        assert TokenIndex(rb, rows) == i;
        RowEnds(rb, raw, i);
        return Some((i * rb, (i + 1) * rb));
      }
      i := i + 1;
    }
    return None;
  }

  lemma {:induction false} RowEnds(rb: nat, bytes: Bytes, i: nat)
    requires rb > 0 && Aligned(rb, bytes) && i < |ToRows(rb, bytes)|
    ensures 0 <= i * rb <= (i + 1) * rb <= |bytes|
    ensures ToRows(rb, bytes)[i] == bytes[i * rb..(i + 1) * rb]
    decreases |bytes|
  {
    SmallAligned(rb, bytes);
    assert (i + 1) * rb == i * rb + rb;
    if i > 0 {
      DropAligned(rb, bytes);
      RowEnds(rb, bytes[rb..], i - 1);
      assert i * rb == (i - 1) * rb + rb;
      assert bytes[rb..][(i - 1) * rb..i * rb] == bytes[i * rb..(i + 1) * rb];
    }
  }

  lemma NoTokenInside(rb: nat, raw: Bytes)
    requires rb > 0 && Aligned(rb, raw) && !Contains(raw, Token(rb))
    ensures TokenIndex(rb, ToRows(rb, raw)) == |ToRows(rb, raw)|
  {
    var rows := ToRows(rb, raw);
    forall i | 0 <= i < |rows| ensures rows[i] != Token(rb) {
      RowEnds(rb, raw, i);
      assert (i + 1) * rb == i * rb + rb;
      assert rows[i] == Token(rb) ==> FoundAt(raw, Token(rb), i * rb);
    }
  }

  lemma {:induction false} EncodeSize(rb: nat, items: seq<Item>)
    requires Clean(rb, items)
    ensures |Encode(rb, items)| == |items| * rb
  {
    if items != [] {
      EncodeSize(rb, items[1..]);
      assert CleanItem(rb, items[0]);
      assert |items| * rb == (|items| - 1) * rb + rb;
    }
  }

  /** Item i stands in the i-th row of bytes: a row as it is, a break as as many
      zeros. */
  lemma ItemAt(rb: nat, items: seq<Item>, i: nat)
    requires Clean(rb, items) && i < |items|
    ensures 0 <= i * rb <= i * rb + rb <= |Encode(rb, items)|
    ensures Encode(rb, items)[i * rb..i * rb + rb] == if items[i].Data? then items[i].row else seq(rb, _ => 0)
  {
    var before, one, rest := items[..i], [items[i]], items[i + 1..];
    assert CleanItem(rb, items[i]);
    assert items == before + (one + rest);
    EncodeAppend(rb, before, one + rest);
    EncodeAppend(rb, one, rest);
    EncodeOne(rb, items[i]);
    EncodeSize(rb, before);
    PartAt(Encode(rb, before), EncodeItem(rb, items[i]), Encode(rb, rest), i * rb, rb);
  }

  lemma PartAt(a: Bytes, b: Bytes, c: Bytes, at: nat, n: nat)
    requires |a| == at && |b| == n
    ensures at + n <= |a + (b + c)| && (a + (b + c))[at..at + n] == b
  {
  }
}
