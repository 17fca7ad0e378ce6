/**
 The protobuf wire format as the generated `Unmarshal` functions read it, for an arbitrary message
 type: fields are read one after the other, and a field the message does not know is skipped. A
 decoding error leaves the message with the fields that were read before it.
 */
module Wire {
  import opened Prelude
  import opened Varints

  datatype Kind = Unknown | Number | Chunk

  /** A message and whether decoding it succeeded; if not, it is partly filled. */
  datatype Decoded<+M> = Decoded(message: M, ok: bool)

  /** Which field numbers a message type knows, and how a field changes the message. */
  datatype Schema<!M> = Schema(
    kind: int -> Kind,
    number: (M, int, U64) -> M,
    chunk: (M, int, Bytes) -> Decoded<M>)

  /** The field number and the wire type of a tag, cut to 32 and 3 bits. */
  function FieldNumber(tag: nat): (n: int) {
    ToI32(ToU64(tag) / 8)
  }

  function WireType(tag: nat): (t: nat)
    ensures t < 8
  {
    ToU64(tag) % 8
  }

  /** A length and that many bytes; also the number of bytes read. */
  function ReadChunk(data: Bytes): (r: Option<(Bytes, nat)>)
    ensures r.Some? ==> 1 <= r.value.1 <= |data|
  {
    var len := ReadVarint(data, MAX_BYTES);
    if len.None? then None
    else
      var (v, n) := len.value;
      if ToU64(v) > |data| - n then None else Some((data[n..n + ToU64(v)], n + ToU64(v)))
  }

  /** Skipping one tag and its payload: the bytes read and the new group depth. */
  function SkipStep(data: Bytes, depth: nat): (r: Option<(nat, nat)>)
    ensures r.Some? ==> 1 <= r.value.0 <= |data|
  {
    var tag := ReadVarint(data, MAX_BYTES);
    if tag.None? then None
    else
      var (v, n) := tag.value;
      var rest := data[n..];
      match WireType(v)
      case 0 =>
        var number := ReadVarint(rest, MAX_BYTES);
        if number.None? then None else Some((n + number.value.1, depth))
      case 1 => if |rest| < 8 then None else Some((n + 8, depth))
      case 2 =>
        var chunk := ReadChunk(rest);
        if chunk.None? then None else Some((n + chunk.value.1, depth))
      case 3 => Some((n, depth + 1))
      case 4 => if depth == 0 then None else Some((n, depth - 1))
      case 5 => if |rest| < 4 then None else Some((n + 4, depth))
      case _ => None
  }

  function Plus(n: nat, r: Option<nat>): (s: Option<nat>) {
    if r.None? then None else Some(n + r.value)
  }

  /** The length of the field that `data` starts with, groups included. */
  function Skip(data: Bytes, depth: nat): (r: Option<nat>)
    ensures r.Some? ==> 1 <= r.value <= |data|
    decreases |data|
  {
    var step := SkipStep(data, depth);
    if step.None? then None
    else
      var (n, d) := step.value;
      if d == 0 then Some(n) else Plus(n, Skip(data[n..], d))
  }

  /** A varint is put together in the field itself, so an error leaves its first bytes there. */
  function ReadNumber<M>(schema: Schema<M>, field: int, data: Bytes, n: nat, m: M): (r: (Decoded<M>, nat))
    requires n <= |data|
    ensures r.0.ok ==> n <= r.1 <= |data|
  {
    var number := ReadVarint(data[n..], MAX_BYTES);
    var m' := schema.number(m, field, ToU64(VarintSoFar(data[n..], MAX_BYTES)));
    if number.None? then (Decoded(m', false), 0) else (Decoded(m', true), n + number.value.1)
  }

  function ReadBytes<M>(schema: Schema<M>, field: int, data: Bytes, n: nat, m: M): (r: (Decoded<M>, nat))
    requires n <= |data|
    ensures r.0.ok ==> n <= r.1 <= |data|
  {
    var chunk := ReadChunk(data[n..]);
    if chunk.None? then (Decoded(m, false), 0)
    else (schema.chunk(m, field, chunk.value.0), n + chunk.value.1)
  }

  /** Reading one field into a message; also the number of bytes read if that succeeds. */
  function ReadField<M>(schema: Schema<M>, data: Bytes, m: M): (r: (Decoded<M>, nat))
    ensures r.0.ok ==> 1 <= r.1 <= |data|
  {
    var tag := ReadVarint(data, MAX_BYTES);
    if tag.None? then (Decoded(m, false), 0)
    else
      var (v, n) := tag.value;
      if WireType(v) == 4 || FieldNumber(v) <= 0 then (Decoded(m, false), 0)
      else
        match schema.kind(FieldNumber(v))
        case Number =>
          if WireType(v) != 0 then (Decoded(m, false), 0) else ReadNumber(schema, FieldNumber(v), data, n, m)
        case Chunk =>
          if WireType(v) != 2 then (Decoded(m, false), 0) else ReadBytes(schema, FieldNumber(v), data, n, m)
        case Unknown =>
          var k := Skip(data, 0);
          if k.None? then (Decoded(m, false), 0) else (Decoded(m, true), k.value)
  }

  /** Reading all fields. */
  function Decode<M>(schema: Schema<M>, data: Bytes, m: M): (r: Decoded<M>)
    decreases |data|
  {
    if data == [] then Decoded(m, true)
    else
      var (d, n) := ReadField(schema, data, m);
      if !d.ok then d else Decode(schema, data[n..], d.message)
  }

  // ---------------------------------------------------------------- fields are self-delimiting

  lemma ReadChunkMore(data: Bytes, more: Bytes)
    requires ReadChunk(data).Some?
    ensures ReadChunk(data + more) == ReadChunk(data)
  {
    hide ReadVarint, ToU64;
    ReadVarintMore(data, more, MAX_BYTES);
    var (v, n) := ReadVarint(data, MAX_BYTES).value;
    assert (data + more)[n..n + ToU64(v)] == data[n..n + ToU64(v)];
  }

  lemma SkipStepMore(data: Bytes, more: Bytes, depth: nat)
    requires SkipStep(data, depth).Some?
    ensures SkipStep(data + more, depth) == SkipStep(data, depth)
  {
    hide ReadVarint, ReadChunk, WireType;
    ReadVarintMore(data, more, MAX_BYTES);
    var (v, n) := ReadVarint(data, MAX_BYTES).value;
    assert (data + more)[n..] == data[n..] + more;
    if WireType(v) == 0 {
      ReadVarintMore(data[n..], more, MAX_BYTES);
    } else if WireType(v) == 2 {
      ReadChunkMore(data[n..], more);
    }
  }

  lemma {:induction false} SkipMore(data: Bytes, more: Bytes, depth: nat)
    requires Skip(data, depth).Some?
    ensures Skip(data + more, depth) == Skip(data, depth)
    decreases |data|
  {
    hide SkipStep;
    SkipStepMore(data, more, depth);
    var (n, d) := SkipStep(data, depth).value;
    if d == 0 {
    } else {
      assert (data + more)[n..] == data[n..] + more;
      SkipMore(data[n..], more, d);
    }
  }

  lemma ReadFieldMore<M>(schema: Schema<M>, data: Bytes, more: Bytes, m: M)
    requires ReadField(schema, data, m).0.ok
    ensures ReadField(schema, data + more, m) == ReadField(schema, data, m)
  {
    hide ReadVarint, VarintSoFar, ReadChunk, Skip, WireType, FieldNumber, ToU64;
    ReadVarintMore(data, more, MAX_BYTES);
    var (v, n) := ReadVarint(data, MAX_BYTES).value;
    assert (data + more)[n..] == data[n..] + more;
    match schema.kind(FieldNumber(v))
    case Number => ReadVarintMore(data[n..], more, MAX_BYTES);
    case Chunk => ReadChunkMore(data[n..], more);
    case Unknown => SkipMore(data, more, 0);
  }

  /** Decoding a concatenation is decoding the parts one after the other. */
  lemma {:induction false} DecodeConcat<M>(schema: Schema<M>, p: Bytes, q: Bytes, m: M)
    requires Decode(schema, p, m).ok
    ensures Decode(schema, p + q, m) == Decode(schema, q, Decode(schema, p, m).message)
    decreases |p|
  {
    hide ReadField;
    if p == [] {
      assert p + q == q;
    } else {
      ReadFieldMore(schema, p, q, m);
      var (d, n) := ReadField(schema, p, m);
      assert (p + q)[n..] == p[n..] + q;
      DecodeConcat(schema, p[n..], q, d.message);
    }
  }

  // ---------------------------------------------------------------- known fields, as written

  /** A length-delimited field with a one-byte tag. */
  function ChunkField(tag: byte, b: Bytes): (r: Bytes) {
    [tag] + Varint(|b|) + b
  }

  function NumberField(tag: byte, v: nat): (r: Bytes) {
    [tag] + Varint(v)
  }

  lemma ChunkFits(tag: byte, b: Bytes)
    ensures |ChunkField(tag, b)| > |b|
  {
  }

  lemma DecodeNothing<M>(schema: Schema<M>, m: M)
    ensures Decode(schema, [], m) == Decoded(m, true)
  {
  }

  lemma DecodeUnfold<M>(schema: Schema<M>, data: Bytes, m: M)
    requires data != []
    ensures !ReadField(schema, data, m).0.ok ==> Decode(schema, data, m) == ReadField(schema, data, m).0
  {
  }

  lemma ReadTag(tag: byte, rest: Bytes)
    requires tag < 128
    ensures ReadVarint([tag] + rest, MAX_BYTES) == Some((tag as nat, 1))
    ensures FieldNumber(tag) == tag / 8 && WireType(tag) == tag % 8
  {
  }

  lemma ReadWrittenChunk(b: Bytes, rest: Bytes)
    requires |b| < TWO_63
    ensures ReadChunk(Varint(|b|) + b + rest) == Some((b, |Varint(|b|)| + |b|))
  {
    hide Varint, ReadVarint;
    U64Fits(|b|);
    VarintRoundTrip(|b|, b + rest, MAX_BYTES);
    var data := Varint(|b|) + b + rest;
    assert data == Varint(|b|) + (b + rest);
    var n := |Varint(|b|)|;
    assert data[n..n + |b|] == b;
  }

  /** Decoding a written chunk hands exactly its bytes to the message and goes on behind it. */
  lemma DecodeChunkField<M>(schema: Schema<M>, tag: byte, b: Bytes, rest: Bytes, m: M)
    requires 8 <= tag < 128 && tag % 8 == 2 && schema.kind(tag / 8) == Chunk && |b| < TWO_63
    ensures
      var d := schema.chunk(m, tag / 8, b);
      Decode(schema, ChunkField(tag, b) + rest, m) == if !d.ok then d else Decode(schema, rest, d.message)
  {
    hide Varint, ReadVarint, ReadChunk, FieldNumber, WireType, Skip;
    var data := ChunkField(tag, b) + rest;
    var body := Varint(|b|) + b + rest;
    assert data == [tag] + body;
    ReadTag(tag, body);
    ReadWrittenChunk(b, rest);
    assert data[1..] == body;
    assert data[|ChunkField(tag, b)|..] == rest;
  }

  lemma DecodeNumberField<M>(schema: Schema<M>, tag: byte, v: nat, rest: Bytes, m: M)
    requires 8 <= tag < 128 && tag % 8 == 0 && schema.kind(tag / 8) == Number && v < TWO_64
    ensures Decode(schema, NumberField(tag, v) + rest, m) == Decode(schema, rest, schema.number(m, tag / 8, v))
  {
    hide Varint, ReadVarint, ReadChunk, FieldNumber, WireType, Skip, ToU64;
    var data := NumberField(tag, v) + rest;
    assert data == [tag] + (Varint(v) + rest);
    ReadTag(tag, Varint(v) + rest);
    U64Fits(v);
    VarintRoundTrip(v, rest, MAX_BYTES);
    assert data[1..] == Varint(v) + rest;
    assert data[|NumberField(tag, v)|..] == rest;
  }

  // ---------------------------------------------------------------- unknown fields

  /** A field of any kind. Varints may be padded; a group holds fields and ends with any end tag. */
  datatype Item = Item(tag: Bytes, payload: Payload)

  datatype Payload =
    | VarintItem(raw: Bytes)
    | Fixed64(fixed: Bytes)
    | ChunkItem(len: Bytes, chunk: Bytes)
    | Group(items: seq<Item>, end: Bytes)
    | Fixed32(fixed: Bytes)

  predicate IsVarint(b: Bytes) {
    var r := ReadVarint(b, MAX_BYTES);
    r.Some? && r.value.1 == |b|
  }

  function VarintValue(b: Bytes): (v: nat)
    requires IsVarint(b)
  {
    ReadVarint(b, MAX_BYTES).value.0
  }

  predicate HasType(tag: Bytes, t: nat) {
    IsVarint(tag) && WireType(VarintValue(tag)) == t
  }

  predicate WellFormed(item: Item)
    decreases item
  {
    match item.payload
    case VarintItem(raw) => HasType(item.tag, 0) && IsVarint(raw)
    case Fixed64(fixed) => HasType(item.tag, 1) && |fixed| == 8
    case ChunkItem(len, chunk) => HasType(item.tag, 2) && IsVarint(len) && ToU64(VarintValue(len)) == |chunk|
    case Group(items, end) =>
      HasType(item.tag, 3) && HasType(end, 4) && forall i :: 0 <= i < |items| ==> WellFormed(items[i])
    case Fixed32(fixed) => HasType(item.tag, 5) && |fixed| == 4
  }

  function Render(item: Item): (b: Bytes)
    decreases item, 0
  {
    item.tag + match item.payload
               case VarintItem(raw) => raw
               case Fixed64(fixed) => fixed
               case ChunkItem(len, chunk) => len + chunk
               case Group(items, end) => RenderAll(items) + end
               case Fixed32(fixed) => fixed
  }

  function RenderAll(items: seq<Item>): (b: Bytes)
    decreases items, |items|
  {
    if items == [] then [] else Render(items[0]) + RenderAll(items[1..])
  }

  lemma ReadRaw(b: Bytes, more: Bytes)
    requires IsVarint(b)
    ensures ReadVarint(b + more, MAX_BYTES) == Some((VarintValue(b), |b|))
    ensures (b + more)[|b|..] == more
  {
    ReadVarintMore(b, more, MAX_BYTES);
  }

  lemma ReadRawChunk(len: Bytes, chunk: Bytes, more: Bytes)
    requires IsVarint(len) && ToU64(VarintValue(len)) == |chunk|
    ensures ReadChunk(len + chunk + more) == Some((chunk, |len| + |chunk|))
  {
    hide ReadVarint, IsVarint, VarintValue, ToU64;
    assert len + chunk + more == len + (chunk + more);
    ReadRaw(len, chunk + more);
    assert (len + chunk + more)[|len|..|len| + |chunk|] == chunk;
  }

  /** One step over a field that is not a group. */
  lemma SkipLeaf(item: Item, more: Bytes, depth: nat)
    requires WellFormed(item) && !item.payload.Group?
    ensures SkipStep(Render(item) + more, depth) == Some((|Render(item)|, depth))
  {
    hide ReadVarint, IsVarint, VarintValue, WireType, ToU64, ReadChunk;
    var body := Render(item)[|item.tag|..];
    assert Render(item) + more == item.tag + (body + more);
    ReadRaw(item.tag, body + more);
    match item.payload
    case VarintItem(raw) => ReadRaw(raw, more);
    case ChunkItem(len, chunk) => ReadRawChunk(len, chunk, more);
    case _ =>
  }

  /** `Skip` after a first step over `head`. */
  lemma SkipAfter(head: Bytes, more: Bytes, depth: nat, d: nat)
    requires SkipStep(head + more, depth) == Some((|head|, d))
    ensures Skip(head + more, depth) == if d == 0 then Some(|head|) else Plus(|head|, Skip(more, d))
  {
    hide SkipStep;
    assert (head + more)[|head|..] == more;
  }

  /** Group tags only move the depth. */
  lemma SkipTag(tag: Bytes, t: nat, more: Bytes, depth: nat)
    requires HasType(tag, t) && (t == 3 || (t == 4 && depth > 0))
    ensures SkipStep(tag + more, depth) == Some((|tag|, if t == 3 then depth + 1 else depth - 1))
  {
    hide ReadVarint, IsVarint, VarintValue, WireType;
    ReadRaw(tag, more);
  }

  lemma {:induction false} SkipItem(item: Item, more: Bytes, depth: nat)
    requires WellFormed(item)
    ensures Skip(Render(item) + more, depth)
         == if depth == 0 then Some(|Render(item)|) else Plus(|Render(item)|, Skip(more, depth))
    decreases item, 0
  {
    hide SkipStep, Skip, HasType;
    match item.payload
    case Group(items, end) =>
      var inner := RenderAll(items) + (end + more);
      assert Render(item) + more == item.tag + inner;
      SkipTag(item.tag, 3, inner, depth);
      SkipAfter(item.tag, inner, depth, depth + 1);
      SkipItems(items, end + more, depth + 1);
      SkipTag(end, 4, more, depth + 1);
      SkipAfter(end, more, depth + 1, depth);
    case _ =>
      SkipLeaf(item, more, depth);
      SkipAfter(Render(item), more, depth, depth);
  }

  lemma {:induction false} SkipItems(items: seq<Item>, more: Bytes, depth: nat)
    requires (forall i :: 0 <= i < |items| ==> WellFormed(items[i])) && depth > 0
    ensures Skip(RenderAll(items) + more, depth) == Plus(|RenderAll(items)|, Skip(more, depth))
    decreases items, |items|
  {
    hide SkipStep, Skip, WellFormed;
    if items == [] {
      assert RenderAll(items) + more == more;
    } else {
      var rest := RenderAll(items[1..]) + more;
      assert RenderAll(items) + more == Render(items[0]) + rest;
      SkipItem(items[0], rest, depth);
      SkipItems(items[1..], more, depth);
    }
  }

  predicate IsUnknown<M>(schema: Schema<M>, item: Item) {
    && WellFormed(item) && IsVarint(item.tag)
    && FieldNumber(VarintValue(item.tag)) > 0
    && schema.kind(FieldNumber(VarintValue(item.tag))) == Unknown
  }

  /** An unknown field leaves no trace. */
  lemma DecodeUnknown<M>(schema: Schema<M>, item: Item, rest: Bytes, m: M)
    requires IsUnknown(schema, item)
    ensures Decode(schema, Render(item) + rest, m) == Decode(schema, rest, m)
  {
    hide ReadVarint, IsVarint, VarintValue, WireType, FieldNumber, Skip;
    var data := Render(item) + rest;
    var body := Render(item)[|item.tag|..] + rest;
    assert data == item.tag + body;
    ReadRaw(item.tag, body);
    SkipItem(item, rest, 0);
    assert |Render(item)| >= 1;
    assert data[|Render(item)|..] == rest;
  }

  /**
   Forward compatibility: an unknown field between two fields does not change the decoded message,
   nor, when what follows is malformed, the message that is left partly filled.
   */
  lemma InsertUnknown<M>(schema: Schema<M>, p: Bytes, item: Item, q: Bytes, m: M)
    requires Decode(schema, p, m).ok && IsUnknown(schema, item)
    ensures Decode(schema, p + Render(item) + q, m) == Decode(schema, p + q, m)
  {
    hide Decode, IsUnknown, Render;
    assert p + Render(item) + q == p + (Render(item) + q);
    DecodeConcat(schema, p, Render(item) + q, m);
    DecodeConcat(schema, p, q, m);
    DecodeUnknown(schema, item, q, Decode(schema, p, m).message);
  }
}
