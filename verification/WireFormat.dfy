/**
 The wire format as a grammar. Decoding succeeds exactly on concatenations of well-formed fields whose
 known ones have the right wire type and are accepted by the message, and then it applies them in order.
 */
module WireFormat {
  import opened Prelude
  import opened Varints
  import opened Wire

  // ---------------------------------------------------------------- what decoding a list of fields means

  function FieldOf(item: Item): (f: int)
    requires IsVarint(item.tag)
  {
    FieldNumber(VarintValue(item.tag))
  }

  /** A well-formed field with a positive number and, if the message knows the number, the wire type it has there. */
  predicate Admissible<M>(schema: Schema<M>, item: Item) {
    && WellFormed(item) && IsVarint(item.tag) && FieldOf(item) > 0
    && (schema.kind(FieldOf(item)).Number? ==> item.payload.VarintItem?)
    && (schema.kind(FieldOf(item)).Chunk? ==> item.payload.ChunkItem?)
  }

  predicate AllAdmissible<M>(schema: Schema<M>, items: seq<Item>) {
    forall i :: 0 <= i < |items| ==> Admissible(schema, items[i])
  }

  function Apply<M>(schema: Schema<M>, item: Item, m: M): (d: Decoded<M>)
    requires Admissible(schema, item)
  {
    match schema.kind(FieldOf(item))
    case Unknown => Decoded(m, true)
    case Number => Decoded(schema.number(m, FieldOf(item), ToU64(VarintValue(item.payload.raw))), true)
    case Chunk => schema.chunk(m, FieldOf(item), item.payload.chunk)
  }

  /** The fields one after the other, up to the first that the message does not accept. */
  function ApplyAll<M>(schema: Schema<M>, items: seq<Item>, m: M): (d: Decoded<M>)
    requires AllAdmissible(schema, items)
  {
    if items == [] then Decoded(m, true)
    else
      var d := Apply(schema, items[0], m);
      if !d.ok then d else ApplyAll(schema, items[1..], d.message)
  }

  lemma DecodeItem<M>(schema: Schema<M>, item: Item, rest: Bytes, m: M)
    requires Admissible(schema, item)
    ensures
      var d := Apply(schema, item, m);
      Decode(schema, Render(item) + rest, m) == if !d.ok then d else Decode(schema, rest, d.message)
  {
    hide ReadVarint, VarintSoFar, IsVarint, VarintValue, WireType, FieldNumber, Skip, ToU64, ReadChunk;
    if schema.kind(FieldOf(item)).Unknown? {
      DecodeUnknown(schema, item, rest, m);
    } else {
      var data, body := Render(item) + rest, Render(item)[|item.tag|..];
      assert data == item.tag + (body + rest);
      ReadRaw(item.tag, body + rest);
      if item.payload.VarintItem? {
        ReadRaw(item.payload.raw, rest);
      } else {
        ReadRawChunk(item.payload.len, item.payload.chunk, rest);
      }
      assert data[|Render(item)|..] == rest;
    }
  }

  /** Decoding well-formed fields applies them in order. */
  lemma {:induction false} DecodeApplies<M>(schema: Schema<M>, items: seq<Item>, m: M)
    requires AllAdmissible(schema, items)
    ensures Decode(schema, RenderAll(items), m) == ApplyAll(schema, items, m)
    decreases |items|
  {
    hide Decode, Render, Admissible;
    if items == [] {
      DecodeNothing(schema, m);
    } else {
      DecodeItem(schema, items[0], RenderAll(items[1..]), m);
      var d := Apply(schema, items[0], m);
      if d.ok {
        DecodeApplies(schema, items[1..], d.message);
      }
    }
  }

  // ---------------------------------------------------------------- what is read is well-formed

  lemma {:induction false} ReadVarintPrefix(data: Bytes, budget: nat)
    requires ReadVarint(data, budget).Some?
    ensures
      var (v, n) := ReadVarint(data, budget).value;
      ReadVarint(data[..n], budget) == Some((v, n))
    decreases budget
  {
    var n := ReadVarint(data, budget).value.1;
    if data[0] < 128 {
    } else {
      ReadVarintPrefix(data[1..], budget - 1);
      assert data[..n][1..] == data[1..][..n - 1];
    }
  }

  lemma VarintRead(data: Bytes)
    requires ReadVarint(data, MAX_BYTES).Some?
    ensures
      var (v, n) := ReadVarint(data, MAX_BYTES).value;
      IsVarint(data[..n]) && VarintValue(data[..n]) == v && data == data[..n] + data[n..]
  {
    ReadVarintPrefix(data, MAX_BYTES);
  }

  /** A step of `Skip` that is not over a group tag is over a well-formed field. */
  lemma LeafRead(data: Bytes, depth: nat) returns (item: Item)
    requires SkipStep(data, depth).Some?
    requires
      var t := WireType(ReadVarint(data, MAX_BYTES).value.0);
      t != 3 && t != 4
    ensures SkipStep(data, depth).value.1 == depth
    ensures WellFormed(item) && !item.payload.Group? && data[..SkipStep(data, depth).value.0] == Render(item)
    ensures item.tag == data[..ReadVarint(data, MAX_BYTES).value.1]
  {
    hide ReadVarint, WireType, IsVarint, VarintValue, ToU64;
    VarintRead(data);
    var (v, n) := ReadVarint(data, MAX_BYTES).value;
    var tag, rest := data[..n], data[n..];
    var k := SkipStep(data, depth).value.0;
    assert data[..k] == tag + rest[..k - n];
    match WireType(v)
    case 0 =>
      VarintRead(rest);
      item := Item(tag, VarintItem(rest[..k - n]));
    case 1 =>
      item := Item(tag, Fixed64(rest[..8]));
    case 2 =>
      VarintRead(rest);
      var (x, j) := ReadVarint(rest, MAX_BYTES).value;
      item := Item(tag, ChunkItem(rest[..j], rest[j..j + ToU64(x)]));
      assert rest[..k - n] == rest[..j] + rest[j..j + ToU64(x)];
    case _ =>
      item := Item(tag, Fixed32(rest[..4]));
  }

  /** The fields up to the end tag of a group. */
  datatype Level = Level(items: seq<Item>, end: Bytes)

  predicate LevelOk(l: Level) {
    HasType(l.end, 4) && forall i :: 0 <= i < |l.items| ==> WellFormed(l.items[i])
  }

  function RenderLevels(levels: seq<Level>): (b: Bytes) {
    if levels == [] then [] else RenderAll(levels[0].items) + levels[0].end + RenderLevels(levels[1..])
  }

  /** One more field in front. */
  lemma Prepend(item: Item, levels: seq<Level>) returns (r: seq<Level>)
    requires WellFormed(item) && levels != [] && forall i :: 0 <= i < |levels| ==> LevelOk(levels[i])
    ensures |r| == |levels| && (forall i :: 0 <= i < |r| ==> LevelOk(r[i]))
    ensures RenderLevels(r) == Render(item) + RenderLevels(levels)
  {
    hide Render, HasType;
    var first := Level([item] + levels[0].items, levels[0].end);
    r := [first] + levels[1..];
    assert r[1..] == levels[1..];
    assert first.items[1..] == levels[0].items;
    assert RenderAll(first.items) == Render(item) + RenderAll(levels[0].items);
    assert LevelOk(first);
  }

  /** A group tag, the fields of the group and its end tag make one field. */
  lemma Enclose(tag: Bytes, levels: seq<Level>) returns (item: Item)
    requires HasType(tag, 3) && levels != [] && LevelOk(levels[0])
    ensures WellFormed(item) && item.tag == tag && tag + RenderLevels(levels) == Render(item) + RenderLevels(levels[1..])
  {
    hide HasType;
    item := Item(tag, Group(levels[0].items, levels[0].end));
    var inner := RenderAll(levels[0].items) + levels[0].end;
    assert Render(item) == tag + inner;
    assert tag + (inner + RenderLevels(levels[1..])) == tag + inner + RenderLevels(levels[1..]);
  }

  /** What a step of `Skip` is over: an open tag, an end tag, or a field. */
  lemma StepOver(data: Bytes, depth: nat)
    requires SkipStep(data, depth).Some?
    ensures ReadVarint(data, MAX_BYTES).Some?
    ensures
      var (v, k) := ReadVarint(data, MAX_BYTES).value;
      var (n, d) := SkipStep(data, depth).value;
      match WireType(v)
      case 3 => HasType(data[..n], 3) && d == depth + 1 && n == k
      case 4 => HasType(data[..n], 4) && d == depth - 1 && n == k
      case _ => d == depth
  {
    VarintRead(data);
    hide ReadVarint, WireType, IsVarint, VarintValue, ReadChunk;
  }

  lemma NoLevels()
    ensures RenderLevels([]) == []
  {
  }

  /** An end tag closes an empty group. */
  lemma Closed(end: Bytes, rest: seq<Level>) returns (levels: seq<Level>)
    requires HasType(end, 4) && forall i :: 0 <= i < |rest| ==> LevelOk(rest[i])
    ensures |levels| == |rest| + 1 && forall i :: 0 <= i < |levels| ==> LevelOk(levels[i])
    ensures RenderLevels(levels) == end + RenderLevels(rest)
  {
    hide HasType;
    levels := [Level([], end)] + rest;
    assert levels[1..] == rest;
    assert RenderAll([]) + end == end;
    assert LevelOk(levels[0]);
  }

  /** Inside groups, `Skip` passes well-formed fields and the end tags of all open groups. */
  lemma {:induction false} SkipRead(data: Bytes, depth: nat) returns (levels: seq<Level>)
    requires depth > 0 && Skip(data, depth).Some?
    ensures |levels| == depth && forall i :: 0 <= i < depth ==> LevelOk(levels[i])
    ensures data[..Skip(data, depth).value] == RenderLevels(levels)
    decreases |data|
  {
    hide ReadVarint, WireType, SkipStep, HasType, IsVarint, VarintValue, Render, LevelOk, RenderLevels, WellFormed;
    StepOver(data, depth);
    var (n, d) := SkipStep(data, depth).value;
    var k := Skip(data, depth).value;
    var v := ReadVarint(data, MAX_BYTES).value.0;
    var rest: seq<Level> := [];
    if d > 0 {
      rest := SkipRead(data[n..], d);
      assert data[..k] == data[..n] + data[n..][..k - n];
    } else {
      NoLevels();
      assert data[..k] == data[..n] + [];
    }
    if WireType(v) == 3 {
      var item := Enclose(data[..n], rest);
      levels := Prepend(item, rest[1..]);
    } else if WireType(v) == 4 {
      levels := Closed(data[..n], rest);
    } else {
      var item := LeafRead(data, depth);
      levels := Prepend(item, rest);
    }
  }

  /** What `Skip` passes is one well-formed field. */
  lemma SkippedField(data: Bytes) returns (item: Item)
    requires Skip(data, 0).Some?
    ensures WellFormed(item) && data[..Skip(data, 0).value] == Render(item)
    ensures ReadVarint(data, MAX_BYTES).Some? && item.tag == data[..ReadVarint(data, MAX_BYTES).value.1]
  {
    hide ReadVarint, WireType, SkipStep, HasType, IsVarint, VarintValue, Render, LevelOk, RenderLevels, WellFormed;
    StepOver(data, 0);
    var (n, d) := SkipStep(data, 0).value;
    var k := Skip(data, 0).value;
    var v := ReadVarint(data, MAX_BYTES).value.0;
    if WireType(v) == 3 {
      var levels := SkipRead(data[n..], 1);
      assert data[..k] == data[..n] + data[n..][..k - n];
      item := Enclose(data[..n], levels);
      NoLevels();
      assert levels[1..] == [];
      assert Render(item) + [] == Render(item);
    } else {
      item := LeafRead(data, 0);
    }
  }

  /** A field that is read is well-formed, and what reading does is to apply it. */
  lemma FieldRead<M>(schema: Schema<M>, data: Bytes, m: M) returns (item: Item)
    requires ReadField(schema, data, m).0.ok
    ensures Admissible(schema, item) && data[..ReadField(schema, data, m).1] == Render(item)
    ensures Apply(schema, item, m) == ReadField(schema, data, m).0
  {
    hide ReadVarint, VarintSoFar, IsVarint, VarintValue, WireType, FieldNumber, Skip, ToU64;
    VarintRead(data);
    var (v, n) := ReadVarint(data, MAX_BYTES).value;
    var k := ReadField(schema, data, m).1;
    var tag, rest := data[..n], data[n..];
    assert data[..k] == if k >= n then tag + rest[..k - n] else data[..k];
    match schema.kind(FieldNumber(v))
    case Unknown => item := SkippedField(data);
    case Number =>
      VarintRead(rest);
      item := Item(tag, VarintItem(rest[..k - n]));
    case Chunk =>
      VarintRead(rest);
      var (x, j) := ReadVarint(rest, MAX_BYTES).value;
      item := Item(tag, ChunkItem(rest[..j], rest[j..j + ToU64(x)]));
      assert rest[..k - n] == rest[..j] + rest[j..j + ToU64(x)];
  }

  /** What decodes is a list of well-formed fields. */
  lemma {:induction false} DecodedFields<M>(schema: Schema<M>, data: Bytes, m: M) returns (items: seq<Item>)
    requires Decode(schema, data, m).ok
    ensures AllAdmissible(schema, items) && data == RenderAll(items)
    decreases |data|
  {
    hide ReadField, Render, Admissible;
    if data == [] {
      items := [];
    } else {
      var (d, n) := ReadField(schema, data, m);
      var item := FieldRead(schema, data, m);
      var rest := DecodedFields(schema, data[n..], d.message);
      items := [item] + rest;
      assert items[1..] == rest && data == data[..n] + data[n..];
    }
  }

  /** `data` is a list of well-formed fields that turn `m` into `m'`. */
  ghost predicate Spells<M>(schema: Schema<M>, data: Bytes, m: M, m': M) {
    exists items: seq<Item> ::
      AllAdmissible(schema, items) && data == RenderAll(items) && ApplyAll(schema, items, m) == Decoded(m', true)
  }

  /** Decoding succeeds exactly on well-formed input, with exactly the message it spells. */
  lemma DecodeExactly<M>(schema: Schema<M>, data: Bytes, m: M, m': M)
    ensures Decode(schema, data, m) == Decoded(m', true) <==> Spells(schema, data, m, m')
  {
    hide Decode, Admissible, RenderAll, ApplyAll;
    if Decode(schema, data, m) == Decoded(m', true) {
      var items := DecodedFields(schema, data, m);
      DecodeApplies(schema, items, m);
    }
    if Spells(schema, data, m, m') {
      var items: seq<Item> :|
        AllAdmissible(schema, items) && data == RenderAll(items) && ApplyAll(schema, items, m) == Decoded(m', true);
      DecodeApplies(schema, items, m);
    }
  }
}
