/**
 Which bytes an encoding is. A message is taken apart into its fields in the order they are read, and
 the shortest bytes with given fields in a given order are unique.
 */
module WireRecords {
  import opened Prelude
  import opened Varints
  import opened Wire

  /** A field as it is read: its number and its bytes, or its number and its value. */
  datatype Record = ChunkRecord(field: int, bytes: Bytes) | NumberRecord(field: int, value: U64)

  /** Reads a message as the list of its fields. */
  function RecordSchema(kind: int -> Kind): (s: Schema<seq<Record>>) {
    Schema(
      kind,
      (m: seq<Record>, n, v) => m + [NumberRecord(n, v)],
      (m: seq<Record>, n, b) => Decoded(m + [ChunkRecord(n, b)], true))
  }

  /** The varint of `n` bytes at the start of `data` has no superfluous last byte. */
  predicate Shortest(data: Bytes, n: nat)
    requires 1 <= n <= |data|
  {
    n == 1 || data[n - 1] != 0
  }

  /** Known fields only, with tags, lengths and numbers in their shortest form. */
  predicate Canonical(kind: int -> Kind, data: Bytes)
    decreases |data|
  {
    data == [] ||
    var tag := ReadVarint(data, MAX_BYTES);
    && tag.Some? && tag.value.0 < 0x1_0000_0000 && Shortest(data, tag.value.1)
    && var v, rest := tag.value.0, data[tag.value.1..];
       var x := ReadVarint(rest, MAX_BYTES);
       && x.Some? && Shortest(rest, x.value.1)
       && (if v % 8 == 0 && kind(v / 8).Number? then
             x.value.0 < TWO_64 && Canonical(kind, rest[x.value.1..])
           else
             && v % 8 == 2 && kind(v / 8).Chunk?
             && x.value.0 < TWO_63 && x.value.0 <= |rest| - x.value.1
             && Canonical(kind, rest[x.value.1 + x.value.0..]))
  }

  /** `data` holds exactly these fields, in this order and in the shortest form. */
  predicate Encodes(kind: int -> Kind, records: seq<Record>, data: Bytes) {
    Canonical(kind, data) && Decode(RecordSchema(kind), data, []) == Decoded(records, true)
  }

  // ---------------------------------------------------------------- the bytes of a list of fields

  /** A field that the message type knows, with a one-byte tag. */
  predicate Fits(kind: int -> Kind, r: Record) {
    && 1 <= r.field < 16
    && match r
       case ChunkRecord(_, b) => kind(r.field).Chunk? && |b| < TWO_63
       case NumberRecord(_, _) => kind(r.field).Number?
  }

  function RecordBytes(r: Record): (b: Bytes) {
    if !(1 <= r.field < 16) then []
    else
      match r
      case ChunkRecord(field, b) => ChunkField(8 * field + 2, b)
      case NumberRecord(field, v) => NumberField(8 * field, v)
  }

  function RecordsBytes(rs: seq<Record>): (b: Bytes) {
    if rs == [] then [] else RecordBytes(rs[0]) + RecordsBytes(rs[1..])
  }

  lemma {:induction false} VarintShortest(v: nat)
    ensures Shortest(Varint(v), |Varint(v)|) && (v > 0 ==> Varint(v)[|Varint(v)| - 1] != 0)
  {
    if v < 128 {
    } else {
      VarintShortest(v / 128);
    }
  }

  /** The shortest varint with a given value is the one that is written. */
  lemma {:induction false} ShortestIsVarint(data: Bytes, budget: nat)
    requires
      var r := ReadVarint(data, budget);
      r.Some? && Shortest(data, r.value.1)
    ensures
      var (v, n) := ReadVarint(data, budget).value;
      data[..n] == Varint(v) && (n > 1 ==> v > 0)
    decreases budget
  {
    var (v, n) := ReadVarint(data, budget).value;
    if n == 1 {
    } else {
      var (v', n') := ReadVarint(data[1..], budget - 1).value;
      ShortestIsVarint(data[1..], budget - 1);
      assert v' > 0;
      assert v % 128 == data[0] - 128 && v / 128 == v';
      assert data[..n] == [data[0]] + data[1..][..n'];
    }
  }

  lemma RecordRead(kind: int -> Kind, r: Record, rest: Bytes, acc: seq<Record>)
    requires Fits(kind, r)
    ensures Decode(RecordSchema(kind), RecordBytes(r) + rest, acc) == Decode(RecordSchema(kind), rest, acc + [r])
  {
    hide Decode, ChunkField, NumberField;
    match r
    case ChunkRecord(field, b) => DecodeChunkField(RecordSchema(kind), 8 * field + 2, b, rest, acc);
    case NumberRecord(field, v) => DecodeNumberField(RecordSchema(kind), 8 * field, v, rest, acc);
  }

  lemma VarintAt(v: nat, rest: Bytes)
    requires v < TWO_64
    ensures ReadVarint(Varint(v) + rest, MAX_BYTES) == Some((v, |Varint(v)|))
    ensures (Varint(v) + rest)[|Varint(v)|..] == rest && Shortest(Varint(v) + rest, |Varint(v)|)
  {
    U64Fits(v);
    VarintRoundTrip(v, rest, MAX_BYTES);
    VarintShortest(v);
  }

  /** What it takes for a first field, read as tag and varint, to be part of canonical bytes. */
  predicate CanonicalFrom(kind: int -> Kind, v: nat, x: nat, body: Bytes) {
    if v % 8 == 0 && kind(v / 8).Number? then x < TWO_64 && Canonical(kind, body)
    else v % 8 == 2 && kind(v / 8).Chunk? && x < TWO_63 && x <= |body| && Canonical(kind, body[x..])
  }

  lemma CanonicalField(kind: int -> Kind, tag: byte, x: nat, body: Bytes)
    requires tag < 128 && x < TWO_64
    ensures Canonical(kind, [tag] + (Varint(x) + body)) <==> CanonicalFrom(kind, tag, x, body)
  {
    hide Varint, ReadVarint;
    var rest := Varint(x) + body;
    var data := [tag] + rest;
    ReadTag(tag, rest);
    VarintAt(x, body);
    assert data[1..] == rest;
    assert x <= |body| ==> rest[|Varint(x)| + x..] == body[x..];
  }

  lemma RecordCanonical(kind: int -> Kind, r: Record, rest: Bytes)
    requires Fits(kind, r) && Canonical(kind, rest)
    ensures Canonical(kind, RecordBytes(r) + rest)
  {
    hide Varint, Canonical;
    match r
    case ChunkRecord(field, b) =>
      CanonicalField(kind, 8 * field + 2, |b|, b + rest);
      assert (b + rest)[|b|..] == rest;
      assert RecordBytes(r) + rest == [8 * field + 2] + (Varint(|b|) + (b + rest));
    case NumberRecord(field, v) =>
      CanonicalField(kind, 8 * field, v, rest);
      assert RecordBytes(r) + rest == [8 * field] + (Varint(v) + rest);
  }

  lemma CanonicalNothing(kind: int -> Kind)
    ensures Canonical(kind, [])
  {
  }

  lemma {:induction false} RecordsEncode(kind: int -> Kind, rs: seq<Record>, acc: seq<Record>)
    requires forall i :: 0 <= i < |rs| ==> Fits(kind, rs[i])
    ensures Canonical(kind, RecordsBytes(rs))
    ensures Decode(RecordSchema(kind), RecordsBytes(rs), acc) == Decoded(acc + rs, true)
    decreases |rs|
  {
    hide Decode, Canonical, RecordBytes;
    if rs == [] {
      DecodeNothing(RecordSchema(kind), acc);
      assert acc + rs == acc;
      assert Canonical(kind, []) by {
        CanonicalNothing(kind);
      }
    } else {
      RecordsEncode(kind, rs[1..], acc + [rs[0]]);
      RecordRead(kind, rs[0], RecordsBytes(rs[1..]), acc);
      RecordCanonical(kind, rs[0], RecordsBytes(rs[1..]));
      assert acc + [rs[0]] + rs[1..] == acc + rs;
    }
  }

  lemma {:induction false} RecordsConcat(a: seq<Record>, b: seq<Record>)
    ensures RecordsBytes(a + b) == RecordsBytes(a) + RecordsBytes(b)
    decreases |a|
  {
    hide RecordBytes;
    if a == [] {
      assert a + b == b;
    } else {
      RecordsConcat(a[1..], b);
      assert (a + b)[1..] == a[1..] + b;
    }
  }

  /** A list that starts with `head` and goes on with `tail`. */
  lemma HeadAndTail(head: seq<Record>, tail: seq<Record>, rs: seq<Record>)
    requires |rs| == |head| + |tail|
    ensures rs == head + tail <==>
            rs[..|head|] == head && forall i :: 0 <= i < |tail| ==> rs[|head| + i] == tail[i]
  {
    if rs[..|head|] == head && forall i :: 0 <= i < |tail| ==> rs[|head| + i] == tail[i] {
      assert rs[|head|..] == tail;
      assert rs == rs[..|head|] + rs[|head|..];
    }
  }

  /** Fields of bytes that fit into memory fit, too. */
  lemma {:induction false} RecordsFit(kind: int -> Kind, rs: seq<Record>, i: nat)
    requires i < |rs| && 1 <= rs[i].field < 16 && |RecordsBytes(rs)| < TWO_63
    requires if rs[i].ChunkRecord? then kind(rs[i].field).Chunk? else kind(rs[i].field).Number?
    ensures Fits(kind, rs[i])
    decreases i
  {
    if i == 0 {
    } else {
      RecordsFit(kind, rs[1..], i - 1);
    }
  }

  // ---------------------------------------------------------------- no other bytes

  /** All known fields have one-byte tags. */
  ghost predicate SmallFields(kind: int -> Kind) {
    forall f: int :: kind(f) != Unknown ==> 1 <= f < 16
  }

  lemma FirstTag(kind: int -> Kind, data: Bytes)
    requires SmallFields(kind) && Canonical(kind, data) && data != []
    ensures
      var tag := ReadVarint(data, MAX_BYTES);
      && tag.Some? && tag.value == (data[0] as nat, 1) && data[0] < 128 && 1 <= data[0] / 8 < 16
      && var x := ReadVarint(data[1..], MAX_BYTES);
         x.Some? && x.value.0 < TWO_64 && Shortest(data[1..], x.value.1)
  {
    var (v, n) := ReadVarint(data, MAX_BYTES).value;
    assert kind(v / 8) != Unknown by {
      hide ReadVarint;
    }
    assert 1 <= v / 8 < 16;
    assert data[..n] == Varint(v) by {
      ShortestIsVarint(data, MAX_BYTES);
    }
    assert Varint(v) == [v];
    assert |data[..n]| == 1 && data[..n][0] == v;
    hide ReadVarint, SmallFields;
  }

  /** Canonical bytes start with a one-byte tag and a varint as it is written. */
  lemma FirstVarints(kind: int -> Kind, data: Bytes) returns (tag: byte, x: nat, body: Bytes)
    requires SmallFields(kind) && Canonical(kind, data) && data != []
    ensures tag < 128 && 1 <= tag / 8 < 16 && x < TWO_64 && data == [tag] + (Varint(x) + body)
  {
    hide Varint, ReadVarint, Canonical, SmallFields;
    FirstTag(kind, data);
    var rest := data[1..];
    ShortestIsVarint(rest, MAX_BYTES);
    var k := ReadVarint(rest, MAX_BYTES).value.1;
    tag, x, body := data[0], ReadVarint(rest, MAX_BYTES).value.0, rest[k..];
    assert rest == rest[..k] + body;
  }

  lemma BytesOfChunk(tag: byte, x: nat, body: Bytes)
    requires tag < 128 && 1 <= tag / 8 < 16 && tag % 8 == 2 && x <= |body|
    ensures [tag] + (Varint(x) + body) == RecordBytes(ChunkRecord(tag / 8, body[..x])) + body[x..]
  {
    hide Varint;
    assert 8 * (tag / 8) + 2 == tag;
    assert body == body[..x] + body[x..];
    assert [tag] + (Varint(x) + (body[..x] + body[x..])) == [tag] + Varint(x) + body[..x] + body[x..];
  }

  lemma BytesOfNumber(tag: byte, x: U64, body: Bytes)
    requires tag < 128 && 1 <= tag / 8 < 16 && tag % 8 == 0
    ensures [tag] + (Varint(x) + body) == RecordBytes(NumberRecord(tag / 8, x)) + body
  {
    hide Varint;
    assert 8 * (tag / 8) == tag;
    assert [tag] + (Varint(x) + body) == [tag] + Varint(x) + body;
  }

  /** The first field of canonical bytes, and what follows it. */
  lemma FirstRecord(kind: int -> Kind, data: Bytes) returns (r: Record, rest: Bytes)
    requires SmallFields(kind) && Canonical(kind, data) && data != []
    ensures Fits(kind, r) && data == RecordBytes(r) + rest && Canonical(kind, rest) && |rest| < |data|
  {
    var tag, x, body := FirstVarints(kind, data);
    CanonicalField(kind, tag, x, body);
    hide Varint, Canonical, SmallFields, RecordBytes;
    if tag % 8 == 0 && kind(tag / 8).Number? {
      r, rest := NumberRecord(tag / 8, x), body;
      BytesOfNumber(tag, x, body);
    } else {
      r, rest := ChunkRecord(tag / 8, body[..x]), body[x..];
      BytesOfChunk(tag, x, body);
    }
  }

  lemma {:induction false} CanonicalRecords(kind: int -> Kind, data: Bytes) returns (rs: seq<Record>)
    requires SmallFields(kind) && Canonical(kind, data)
    ensures (forall i :: 0 <= i < |rs| ==> Fits(kind, rs[i])) && data == RecordsBytes(rs)
    decreases |data|
  {
    hide Canonical, RecordBytes;
    if data == [] {
      rs := [];
    } else {
      var r, rest := FirstRecord(kind, data);
      var more := CanonicalRecords(kind, rest);
      rs := [r] + more;
      assert rs[1..] == more;
    }
  }

  /** Fields, order and shortest form leave one byte string. */
  lemma EncodesOnce(kind: int -> Kind, records: seq<Record>, a: Bytes, b: Bytes)
    requires SmallFields(kind) && Encodes(kind, records, a) && Encodes(kind, records, b)
    ensures a == b
  {
    hide Canonical, Decode, SmallFields;
    var ra := CanonicalRecords(kind, a);
    var rb := CanonicalRecords(kind, b);
    RecordsEncode(kind, ra, []);
    RecordsEncode(kind, rb, []);
    assert [] + ra == ra && [] + rb == rb;
  }
}
