/** The generated codec of the nested messages `Attribute`, `StringEvent` and `ABCIMessageLog`. */
module AbciCodec {
  import opened Prelude
  import opened Varints
  import opened Wire
  import opened WireBuffer
  import opened WireRecords

  datatype Attribute = Attribute(key: Bytes, value: Bytes)

  datatype StringEvent = StringEvent(typ: Bytes, attributes: seq<Attribute>)

  datatype MessageLog = MessageLog(msgIndex: U32, log: Bytes, events: seq<StringEvent>)

  type U32 = x: int | 0 <= x < 0x1_0000_0000

  const NO_ATTRIBUTE: Attribute := Attribute([], [])
  const NO_EVENT: StringEvent := StringEvent([], [])
  const NO_LOG: MessageLog := MessageLog(0, [], [])

  // ---------------------------------------------------------------- encodings

  /** Empty strings are not written. */
  function Optional(tag: byte, b: Bytes): (r: Bytes) {
    if b == [] then [] else ChunkField(tag, b)
  }

  function EncodeAttribute(m: Attribute): (b: Bytes) {
    Optional(0x0a, m.key) + Optional(0x12, m.value)
  }

  function EncodeAttributes(ms: seq<Attribute>): (b: Bytes) {
    if ms == [] then [] else ChunkField(0x12, EncodeAttribute(ms[0])) + EncodeAttributes(ms[1..])
  }

  function EncodeEvent(m: StringEvent): (b: Bytes) {
    Optional(0x0a, m.typ) + EncodeAttributes(m.attributes)
  }

  function EncodeEvents(ms: seq<StringEvent>): (b: Bytes) {
    if ms == [] then [] else ChunkField(0x1a, EncodeEvent(ms[0])) + EncodeEvents(ms[1..])
  }

  function EncodeLog(m: MessageLog): (b: Bytes) {
    (if m.msgIndex == 0 then [] else NumberField(0x08, m.msgIndex)) + Optional(0x12, m.log) + EncodeEvents(m.events)
  }

  // ---------------------------------------------------------------- schemas

  function AttributeSchema(): (s: Schema<Attribute>) {
    Schema(
      n => if n == 1 || n == 2 then Chunk else Unknown,
      (m: Attribute, n, v) => m,
      (m: Attribute, n, b) => Decoded(if n == 1 then m.(key := b) else m.(value := b), true))
  }

  function EventSchema(): (s: Schema<StringEvent>) {
    Schema(
      n => if n == 1 || n == 2 then Chunk else Unknown,
      (m: StringEvent, n, v) => m,
      (m: StringEvent, n, b) =>
        if n == 1 then Decoded(m.(typ := b), true)
        else
          var attribute := Decode(AttributeSchema(), b, NO_ATTRIBUTE);
          Decoded(m.(attributes := m.attributes + [attribute.message]), attribute.ok))
  }

  function LogSchema(): (s: Schema<MessageLog>) {
    Schema(
      n => if n == 1 then Number else if n == 2 || n == 3 then Chunk else Unknown,
      (m: MessageLog, n, v) => m.(msgIndex := v as int % 0x1_0000_0000),
      (m: MessageLog, n, b) =>
        if n == 2 then Decoded(m.(log := b), true)
        else
          var event := Decode(EventSchema(), b, NO_EVENT);
          Decoded(m.(events := m.events + [event.message]), event.ok))
  }

  // ---------------------------------------------------------------- round trips

  /** Reading an optional field: when it is absent, the message keeps its empty value. */
  lemma DecodeOptional<M>(schema: Schema<M>, tag: byte, b: Bytes, rest: Bytes, m: M, m': M)
    requires 8 <= tag < 128 && tag % 8 == 2 && schema.kind(tag / 8) == Chunk && |b| < TWO_63
    requires if b == [] then m' == m else schema.chunk(m, tag / 8, b) == Decoded(m', true)
    ensures Decode(schema, Optional(tag, b) + rest, m) == Decode(schema, rest, m')
  {
    hide Decode, ChunkField;
    if b == [] {
      assert Optional(tag, b) + rest == rest;
    } else {
      DecodeChunkField(schema, tag, b, rest, m);
    }
  }

  lemma OptionalFits(tag: byte, b: Bytes)
    ensures |Optional(tag, b)| >= |b|
  {
    ChunkFits(tag, b);
  }

  lemma AttributeRoundTrip(m: Attribute)
    requires |EncodeAttribute(m)| < TWO_63
    ensures Decode(AttributeSchema(), EncodeAttribute(m), NO_ATTRIBUTE) == Decoded(m, true)
  {
    hide Decode, Optional;
    var schema := AttributeSchema();
    OptionalFits(0x0a, m.key);
    OptionalFits(0x12, m.value);
    DecodeOptional(schema, 0x0a, m.key, Optional(0x12, m.value), NO_ATTRIBUTE, Attribute(m.key, []));
    DecodeOptional(schema, 0x12, m.value, [], Attribute(m.key, []), m);
    assert Optional(0x12, m.value) + [] == Optional(0x12, m.value);
    DecodeNothing(schema, m);
  }

  lemma {:induction false} AttributesRoundTrip(ms: seq<Attribute>, m: StringEvent)
    requires |EncodeAttributes(ms)| < TWO_63
    ensures Decode(EventSchema(), EncodeAttributes(ms), m) == Decoded(m.(attributes := m.attributes + ms), true)
    decreases |ms|
  {
    hide Decode, EncodeAttribute, ChunkField;
    if ms == [] {
      DecodeNothing(EventSchema(), m);
      assert m.attributes + ms == m.attributes;
    } else {
      var b, rest := EncodeAttribute(ms[0]), EncodeAttributes(ms[1..]);
      ChunkFits(0x12, b);
      AttributeRoundTrip(ms[0]);
      DecodeChunkField(EventSchema(), 0x12, b, rest, m);
      var m' := m.(attributes := m.attributes + [ms[0]]);
      AttributesRoundTrip(ms[1..], m');
      assert m.attributes + ms == m.attributes + [ms[0]] + ms[1..];
    }
  }

  lemma EventRoundTrip(m: StringEvent)
    requires |EncodeEvent(m)| < TWO_63
    ensures Decode(EventSchema(), EncodeEvent(m), NO_EVENT) == Decoded(m, true)
  {
    hide Decode, Optional, EncodeAttributes;
    OptionalFits(0x0a, m.typ);
    DecodeOptional(EventSchema(), 0x0a, m.typ, EncodeAttributes(m.attributes), NO_EVENT, StringEvent(m.typ, []));
    AttributesRoundTrip(m.attributes, StringEvent(m.typ, []));
    assert [] + m.attributes == m.attributes;
  }

  lemma {:induction false} EventsRoundTrip(ms: seq<StringEvent>, m: MessageLog)
    requires |EncodeEvents(ms)| < TWO_63
    ensures Decode(LogSchema(), EncodeEvents(ms), m) == Decoded(m.(events := m.events + ms), true)
    decreases |ms|
  {
    hide Decode, EncodeEvent, ChunkField;
    if ms == [] {
      DecodeNothing(LogSchema(), m);
      assert m.events + ms == m.events;
    } else {
      var b, rest := EncodeEvent(ms[0]), EncodeEvents(ms[1..]);
      ChunkFits(0x1a, b);
      EventRoundTrip(ms[0]);
      DecodeChunkField(LogSchema(), 0x1a, b, rest, m);
      var m' := m.(events := m.events + [ms[0]]);
      EventsRoundTrip(ms[1..], m');
      assert m.events + ms == m.events + [ms[0]] + ms[1..];
    }
  }

  /** Decoding the encoded log gives it back, with every event and attribute in place. */
  lemma LogRoundTrip(m: MessageLog)
    requires |EncodeLog(m)| < TWO_63
    ensures Decode(LogSchema(), EncodeLog(m), NO_LOG) == Decoded(m, true)
  {
    hide Decode, Optional, EncodeEvents, NumberField;
    var events, indexed := EncodeEvents(m.events), NO_LOG.(msgIndex := m.msgIndex);
    OptionalFits(0x12, m.log);
    DecodeOptional(LogSchema(), 0x12, m.log, events, indexed, indexed.(log := m.log));
    EventsRoundTrip(m.events, indexed.(log := m.log));
    assert [] + m.events == m.events;
    var rest := Optional(0x12, m.log) + events;
    if m.msgIndex == 0 {
      assert EncodeLog(m) == rest;
    } else {
      DecodeNumberField(LogSchema(), 0x08, m.msgIndex, rest, NO_LOG);
      assert EncodeLog(m) == NumberField(0x08, m.msgIndex) + rest;
    }
  }

  // ---------------------------------------------------------------- the bytes

  const PAIR_KIND: int -> Kind := (n: int) => if n == 1 || n == 2 then Chunk else Unknown

  const LOG_KIND: int -> Kind := (n: int) => if n == 1 then Number else if n == 2 || n == 3 then Chunk else Unknown

  /** An empty string is not a field. */
  function TextRecord(field: int, b: Bytes): (rs: seq<Record>) {
    if b == [] then [] else [ChunkRecord(field, b)]
  }

  /** The bytes of an attribute are its key and its value, in this order and in shortest form. */
  predicate IsAttribute(m: Attribute, data: Bytes) {
    Encodes(PAIR_KIND, TextRecord(1, m.key) + TextRecord(2, m.value), data)
  }

  /** The fields of an event: its type, and then every attribute in order. */
  predicate EventFields(m: StringEvent, rs: seq<Record>) {
    var head := TextRecord(1, m.typ);
    && |rs| == |head| + |m.attributes| && rs[..|head|] == head
    && forall i :: 0 <= i < |m.attributes| ==>
         var r := rs[|head| + i]; r.ChunkRecord? && r.field == 2 && IsAttribute(m.attributes[i], r.bytes)
  }

  predicate IsEvent(m: StringEvent, data: Bytes) {
    var rs := Decode(RecordSchema(PAIR_KIND), data, []).message;
    Encodes(PAIR_KIND, rs, data) && EventFields(m, rs)
  }

  /** The fields of a log: its index unless that is zero, its text, and then every event in order. */
  function LogHead(m: MessageLog): (rs: seq<Record>) {
    (if m.msgIndex == 0 then [] else [NumberRecord(1, m.msgIndex)]) + TextRecord(2, m.log)
  }

  predicate LogFields(m: MessageLog, rs: seq<Record>) {
    var head := LogHead(m);
    && |rs| == |head| + |m.events| && rs[..|head|] == head
    && forall i :: 0 <= i < |m.events| ==>
         var r := rs[|head| + i]; r.ChunkRecord? && r.field == 3 && IsEvent(m.events[i], r.bytes)
  }

  predicate IsLog(m: MessageLog, data: Bytes) {
    var rs := Decode(RecordSchema(LOG_KIND), data, []).message;
    Encodes(LOG_KIND, rs, data) && LogFields(m, rs)
  }

  lemma TextBytes(field: int, b: Bytes)
    requires 1 <= field < 16
    ensures RecordsBytes(TextRecord(field, b)) == Optional(8 * field + 2, b)
  {
    hide ChunkField;
    if b != [] {
      assert RecordsBytes([]) == [];
    }
  }

  /** Fields whose bytes are `data` are what `data` encodes, and no other bytes encode them. */
  lemma FieldsEncode(kind: int -> Kind, rs: seq<Record>, data: Bytes)
    requires SmallFields(kind) && |data| < TWO_63 && data == RecordsBytes(rs)
    requires forall i :: 0 <= i < |rs| ==>
               1 <= rs[i].field < 16 && if rs[i].ChunkRecord? then kind(rs[i].field).Chunk? else kind(rs[i].field).Number?
    ensures Encodes(kind, rs, data)
    ensures forall other: Bytes :: Encodes(kind, rs, other) ==> other == data
  {
    hide Decode, Canonical, RecordsBytes, SmallFields;
    forall i | 0 <= i < |rs|
      ensures WireRecords.Fits(kind, rs[i])
    {
      RecordsFit(kind, rs, i);
    }
    RecordsEncode(kind, rs, []);
    assert [] + rs == rs;
    forall other: Bytes | Encodes(kind, rs, other)
      ensures other == data
    {
      EncodesOnce(kind, rs, other, data);
    }
  }

  /** The bytes of an attribute, and no others. */
  lemma OnlyAttribute(m: Attribute, data: Bytes)
    requires |EncodeAttribute(m)| < TWO_63
    ensures IsAttribute(m, data) <==> data == EncodeAttribute(m)
  {
    hide Encodes, RecordsBytes, Optional;
    TextBytes(1, m.key);
    TextBytes(2, m.value);
    RecordsConcat(TextRecord(1, m.key), TextRecord(2, m.value));
    FieldsEncode(PAIR_KIND, TextRecord(1, m.key) + TextRecord(2, m.value), EncodeAttribute(m));
  }

  function AttributeRecords(ms: seq<Attribute>): (rs: seq<Record>)
    ensures |rs| == |ms| && forall i :: 0 <= i < |ms| ==> rs[i] == ChunkRecord(2, EncodeAttribute(ms[i]))
  {
    seq(|ms|, i requires 0 <= i < |ms| => ChunkRecord(2, EncodeAttribute(ms[i])))
  }

  lemma {:induction false} AttributesBytes(ms: seq<Attribute>)
    ensures RecordsBytes(AttributeRecords(ms)) == EncodeAttributes(ms)
    decreases |ms|
  {
    hide ChunkField, EncodeAttribute;
    if ms == [] {
    } else {
      AttributesBytes(ms[1..]);
      assert AttributeRecords(ms)[1..] == AttributeRecords(ms[1..]);
    }
  }

  /** The attributes inside an event are shorter than the event. */
  lemma {:induction false} AttributeFits(ms: seq<Attribute>, i: nat)
    requires i < |ms|
    ensures |EncodeAttribute(ms[i])| < |EncodeAttributes(ms)|
    decreases i
  {
    hide EncodeAttribute;
    if i == 0 {
    } else {
      AttributeFits(ms[1..], i - 1);
    }
  }

  lemma AttributeField(m: StringEvent, i: nat, r: Record)
    requires |EncodeEvent(m)| < TWO_63 && i < |m.attributes|
    ensures r.ChunkRecord? && r.field == 2 && IsAttribute(m.attributes[i], r.bytes) <==> r == ChunkRecord(2, EncodeAttribute(m.attributes[i]))
  {
    hide IsAttribute, EncodeAttribute, EncodeAttributes, Optional;
    AttributeFits(m.attributes, i);
    if r.ChunkRecord? {
      OnlyAttribute(m.attributes[i], r.bytes);
    }
  }

  /** The fields of an event are one list. */
  lemma EventFieldsAre(m: StringEvent, rs: seq<Record>)
    requires |EncodeEvent(m)| < TWO_63
    ensures EventFields(m, rs) <==> rs == TextRecord(1, m.typ) + AttributeRecords(m.attributes)
  {
    hide TextRecord, IsAttribute, EncodeAttribute, EncodeEvent;
    var head, tail := TextRecord(1, m.typ), AttributeRecords(m.attributes);
    if |rs| == |head| + |tail| {
      HeadAndTail(head, tail, rs);
      forall i | 0 <= i < |tail|
        ensures
          var r := rs[|head| + i];
          r.ChunkRecord? && r.field == 2 && IsAttribute(m.attributes[i], r.bytes) <==> r == tail[i]
      {
        AttributeField(m, i, rs[|head| + i]);
      }
    }
  }

  /** The bytes of an event, and no others. */
  lemma OnlyEvent(m: StringEvent, data: Bytes)
    requires |EncodeEvent(m)| < TWO_63
    ensures IsEvent(m, data) <==> data == EncodeEvent(m)
  {
    hide RecordsBytes, Optional, EncodeAttributes, EventFields, Canonical, Decode;
    var head, tail := TextRecord(1, m.typ), AttributeRecords(m.attributes);
    TextBytes(1, m.typ);
    AttributesBytes(m.attributes);
    RecordsConcat(head, tail);
    FieldsEncode(PAIR_KIND, head + tail, EncodeEvent(m));
    EventFieldsAre(m, Decode(RecordSchema(PAIR_KIND), data, []).message);
  }

  function EventRecords(ms: seq<StringEvent>): (rs: seq<Record>)
    ensures |rs| == |ms| && forall i :: 0 <= i < |ms| ==> rs[i] == ChunkRecord(3, EncodeEvent(ms[i]))
  {
    seq(|ms|, i requires 0 <= i < |ms| => ChunkRecord(3, EncodeEvent(ms[i])))
  }

  lemma {:induction false} EventsBytes(ms: seq<StringEvent>)
    ensures RecordsBytes(EventRecords(ms)) == EncodeEvents(ms)
    decreases |ms|
  {
    hide ChunkField, EncodeEvent;
    if ms == [] {
    } else {
      EventsBytes(ms[1..]);
      assert EventRecords(ms)[1..] == EventRecords(ms[1..]);
    }
  }

  lemma {:induction false} EventFits(ms: seq<StringEvent>, i: nat)
    requires i < |ms|
    ensures |EncodeEvent(ms[i])| < |EncodeEvents(ms)|
    decreases i
  {
    hide EncodeEvent;
    if i == 0 {
    } else {
      EventFits(ms[1..], i - 1);
    }
  }

  lemma EventField(m: MessageLog, i: nat, r: Record)
    requires |EncodeLog(m)| < TWO_63 && i < |m.events|
    ensures r.ChunkRecord? && r.field == 3 && IsEvent(m.events[i], r.bytes) <==> r == ChunkRecord(3, EncodeEvent(m.events[i]))
  {
    hide IsEvent, EncodeEvent, EncodeEvents, Optional, NumberField;
    EventFits(m.events, i);
    if r.ChunkRecord? {
      OnlyEvent(m.events[i], r.bytes);
    }
  }

  /** The fields of a log are one list. */
  lemma LogFieldsAre(m: MessageLog, rs: seq<Record>)
    requires |EncodeLog(m)| < TWO_63
    ensures LogFields(m, rs) <==> rs == LogHead(m) + EventRecords(m.events)
  {
    hide LogHead, IsEvent, EncodeEvent, EncodeLog;
    var head, tail := LogHead(m), EventRecords(m.events);
    if |rs| == |head| + |tail| {
      HeadAndTail(head, tail, rs);
      forall i | 0 <= i < |tail|
        ensures
          var r := rs[|head| + i];
          r.ChunkRecord? && r.field == 3 && IsEvent(m.events[i], r.bytes) <==> r == tail[i]
      {
        EventField(m, i, rs[|head| + i]);
      }
    }
  }

  lemma HeadBytes(m: MessageLog)
    ensures RecordsBytes(LogHead(m)) ==
            (if m.msgIndex == 0 then [] else NumberField(0x08, m.msgIndex)) + Optional(0x12, m.log)
  {
    hide NumberField, Optional, TextRecord;
    TextBytes(2, m.log);
    if m.msgIndex == 0 {
      assert LogHead(m) == TextRecord(2, m.log);
    } else {
      var index := [NumberRecord(1, m.msgIndex)];
      RecordsConcat(index, TextRecord(2, m.log));
      assert RecordsBytes(index) == NumberField(0x08, m.msgIndex) + RecordsBytes([]);
    }
  }

  /** The bytes of a log, and no others. */
  lemma OnlyLog(m: MessageLog, data: Bytes)
    requires |EncodeLog(m)| < TWO_63
    ensures IsLog(m, data) <==> data == EncodeLog(m)
  {
    hide RecordsBytes, Optional, EncodeEvents, LogFields, Canonical, Decode, NumberField;
    var head, tail := LogHead(m), EventRecords(m.events);
    HeadBytes(m);
    EventsBytes(m.events);
    RecordsConcat(head, tail);
    FieldsEncode(LOG_KIND, head + tail, EncodeLog(m));
    LogFieldsAre(m, Decode(RecordSchema(LOG_KIND), data, []).message);
  }

  // ---------------------------------------------------------------- sizes

  /** The size of a field with a one-byte tag. */
  function FieldSize(l: nat): (n: nat) {
    1 + l + Sov(l)
  }

  lemma FieldSizeIsLength(tag: byte, b: Bytes)
    ensures FieldSize(|b|) == |ChunkField(tag, b)|
  {
    hide Sov, Varint;
    SovIsLength(|b|);
  }

  method SizeAttribute(m: Attribute) returns (n: nat)
    ensures n == |EncodeAttribute(m)|
  {
    hide FieldSize, ChunkField;
    n := 0;
    FieldSizeIsLength(0x0a, m.key);
    FieldSizeIsLength(0x12, m.value);
    if |m.key| > 0 {
      n := n + FieldSize(|m.key|);
    }
    if |m.value| > 0 {
      n := n + FieldSize(|m.value|);
    }
  }

  method SizeEvent(m: StringEvent) returns (n: nat)
    ensures n == |EncodeEvent(m)|
  {
    hide FieldSize, ChunkField, EncodeAttribute;
    n := 0;
    FieldSizeIsLength(0x0a, m.typ);
    if |m.typ| > 0 {
      n := n + FieldSize(|m.typ|);
    }
    var ms := m.attributes;
    for k := 0 to |ms|
      invariant n + |EncodeAttributes(ms[k..])| == |EncodeEvent(m)|
    {
      var l := SizeAttribute(ms[k]);
      FieldSizeIsLength(0x12, EncodeAttribute(ms[k]));
      assert ms[k..][1..] == ms[k + 1..];
      n := n + FieldSize(l);
    }
  }

  method SizeLog(m: MessageLog) returns (n: nat)
    ensures n == |EncodeLog(m)|
  {
    hide FieldSize, ChunkField, EncodeEvent, Sov, Varint;
    n := 0;
    if m.msgIndex != 0 {
      SovIsLength(m.msgIndex);
      n := n + 1 + Sov(m.msgIndex);
    }
    FieldSizeIsLength(0x12, m.log);
    if |m.log| > 0 {
      n := n + FieldSize(|m.log|);
    }
    var ms := m.events;
    for k := 0 to |ms|
      invariant n + |EncodeEvents(ms[k..])| == |EncodeLog(m)|
    {
      var l := SizeEvent(ms[k]);
      FieldSizeIsLength(0x1a, EncodeEvent(ms[k]));
      assert ms[k..][1..] == ms[k + 1..];
      n := n + FieldSize(l);
    }
  }

  // ---------------------------------------------------------------- writing backwards

  /** An optional field before what was placed last. */
  method PutOptional(a: array<byte>, hi: nat, tag: byte, b: Bytes) returns (lo: nat)
    requires |Optional(tag, b)| <= hi <= a.Length && |b| < TWO_63
    modifies a
    ensures lo + |Optional(tag, b)| == hi
    ensures a[..] == Placed(old(a[..]), lo, Optional(tag, b), hi)
  {
    hide ChunkField, Placed;
    lo := hi;
    PlacedNothing(a[..], hi);
    if |b| > 0 {
      lo := PutChunk(a, hi, tag, b);
    }
  }

  method MarshalAttribute(m: Attribute, a: array<byte>, hi: nat) returns (n: nat)
    requires |EncodeAttribute(m)| <= hi <= a.Length && |EncodeAttribute(m)| < TWO_63
    modifies a
    ensures n == |EncodeAttribute(m)|
    ensures a[..] == Placed(old(a[..]), hi - n, EncodeAttribute(m), hi)
    ensures IsAttribute(m, a[hi - n..hi])
  {
    hide Optional, Placed, IsAttribute;
    OnlyAttribute(m, EncodeAttribute(m));
    OptionalFits(0x0a, m.key);
    OptionalFits(0x12, m.value);
    var mid := PutOptional(a, hi, 0x12, m.value);
    var i := PutOptional(a, mid, 0x0a, m.key);
    PlacedBefore(old(a[..]), i, Optional(0x0a, m.key), mid, Optional(0x12, m.value), hi);
    n := hi - i;
    PlacedThere(old(a[..]), i, EncodeAttribute(m), hi);
    assert a[i..hi] == a[..][i..hi];
  }

  /** The length and tag of a nested message that has just been placed from `mid` to `hi`. */
  method PutHeader(a: array<byte>, ghost before: Bytes, mid: nat, tag: byte, ghost b: Bytes, size: nat, ghost hi: nat)
    returns (lo: nat)
    requires size == |b| < TWO_63 && mid + |b| == hi <= |before| == a.Length && |ChunkField(tag, b)| <= hi
    requires a[..] == Placed(before, mid, b, hi)
    modifies a
    ensures lo + |ChunkField(tag, b)| == hi
    ensures a[..] == Placed(before, lo, ChunkField(tag, b), hi)
  {
    hide Placed, Varint;
    assert ChunkField(tag, b) == NumberField(tag, |b|) + b;
    lo := PutNumber(a, mid, tag, size);
    PlacedBefore(before, lo, NumberField(tag, |b|), mid, b, hi);
  }

  lemma {:induction false} AttributesSuffix(ms: seq<Attribute>, k: nat)
    requires k <= |ms|
    ensures |EncodeAttributes(ms[k..])| <= |EncodeAttributes(ms)|
    decreases k
  {
    hide ChunkField, EncodeAttribute;
    if k == 0 {
      assert ms[k..] == ms;
    } else {
      assert ms[1..][k - 1..] == ms[k..];
      AttributesSuffix(ms[1..], k - 1);
    }
  }

  method PutAttributes(ms: seq<Attribute>, a: array<byte>, hi: nat) returns (i: nat)
    requires |EncodeAttributes(ms)| <= hi <= a.Length && |EncodeAttributes(ms)| < TWO_63
    modifies a
    ensures i + |EncodeAttributes(ms)| == hi
    ensures a[..] == Placed(old(a[..]), i, EncodeAttributes(ms), hi)
  {
    hide Placed, ChunkField, EncodeAttribute, IsAttribute;
    i := hi;
    PlacedNothing(a[..], hi);
    for k := |ms| downto 0
      invariant i + |EncodeAttributes(ms[k..])| == hi
      invariant a[..] == Placed(old(a[..]), i, EncodeAttributes(ms[k..]), hi)
    {
      ghost var b, done := EncodeAttribute(ms[k]), EncodeAttributes(ms[k + 1..]);
      assert ms[k..][1..] == ms[k + 1..];
      AttributesSuffix(ms, k);
      ChunkFits(0x12, b);
      ghost var before := a[..];
      var size := MarshalAttribute(ms[k], a, i);
      var lo := PutHeader(a, before, i - size, 0x12, b, size, i);
      PlacedBefore(old(a[..]), lo, ChunkField(0x12, b), i, done, hi);
      i := lo;
    }
    assert ms[0..] == ms;
  }

  method MarshalEvent(m: StringEvent, a: array<byte>, hi: nat) returns (n: nat)
    requires |EncodeEvent(m)| <= hi <= a.Length && |EncodeEvent(m)| < TWO_63
    modifies a
    ensures n == |EncodeEvent(m)|
    ensures a[..] == Placed(old(a[..]), hi - n, EncodeEvent(m), hi)
    ensures IsEvent(m, a[hi - n..hi])
  {
    hide Optional, Placed, EncodeAttributes, IsEvent;
    OnlyEvent(m, EncodeEvent(m));
    OptionalFits(0x0a, m.typ);
    var mid := PutAttributes(m.attributes, a, hi);
    var i := PutOptional(a, mid, 0x0a, m.typ);
    PlacedBefore(old(a[..]), i, Optional(0x0a, m.typ), mid, EncodeAttributes(m.attributes), hi);
    n := hi - i;
    PlacedThere(old(a[..]), i, EncodeEvent(m), hi);
    assert a[i..hi] == a[..][i..hi];
  }

  lemma {:induction false} EventsSuffix(ms: seq<StringEvent>, k: nat)
    requires k <= |ms|
    ensures |EncodeEvents(ms[k..])| <= |EncodeEvents(ms)|
    decreases k
  {
    hide ChunkField, EncodeEvent;
    if k == 0 {
      assert ms[k..] == ms;
    } else {
      assert ms[1..][k - 1..] == ms[k..];
      EventsSuffix(ms[1..], k - 1);
    }
  }

  method PutEvents(ms: seq<StringEvent>, a: array<byte>, hi: nat) returns (i: nat)
    requires |EncodeEvents(ms)| <= hi <= a.Length && |EncodeEvents(ms)| < TWO_63
    modifies a
    ensures i + |EncodeEvents(ms)| == hi
    ensures a[..] == Placed(old(a[..]), i, EncodeEvents(ms), hi)
  {
    hide Placed, ChunkField, EncodeEvent, IsEvent;
    i := hi;
    PlacedNothing(a[..], hi);
    for k := |ms| downto 0
      invariant i + |EncodeEvents(ms[k..])| == hi
      invariant a[..] == Placed(old(a[..]), i, EncodeEvents(ms[k..]), hi)
    {
      ghost var b, done := EncodeEvent(ms[k]), EncodeEvents(ms[k + 1..]);
      assert ms[k..][1..] == ms[k + 1..];
      EventsSuffix(ms, k);
      ChunkFits(0x1a, b);
      ghost var before := a[..];
      var size := MarshalEvent(ms[k], a, i);
      var lo := PutHeader(a, before, i - size, 0x1a, b, size, i);
      PlacedBefore(old(a[..]), lo, ChunkField(0x1a, b), i, done, hi);
      i := lo;
    }
    assert ms[0..] == ms;
  }

  /** Fills the end of the buffer, up to `hi`, with exactly the encoding; the rest stays as it was. */
  method MarshalToSizedBuffer(m: MessageLog, a: array<byte>, hi: nat) returns (n: nat)
    requires |EncodeLog(m)| <= hi <= a.Length && |EncodeLog(m)| < TWO_63
    modifies a
    ensures n == |EncodeLog(m)|
    ensures a[..] == Placed(old(a[..]), hi - n, EncodeLog(m), hi)
    ensures IsLog(m, a[hi - n..hi])
  {
    hide Optional, Placed, EncodeEvents, NumberField, IsLog;
    OnlyLog(m, EncodeLog(m));
    ghost var events, log := EncodeEvents(m.events), Optional(0x12, m.log);
    OptionalFits(0x12, m.log);
    var mid := PutEvents(m.events, a, hi);
    var i := PutOptional(a, mid, 0x12, m.log);
    PlacedBefore(old(a[..]), i, log, mid, events, hi);
    if m.msgIndex != 0 {
      ghost var number, at := NumberField(0x08, m.msgIndex), i;
      i := PutNumber(a, i, 0x08, m.msgIndex);
      PlacedBefore(old(a[..]), i, number, at, log + events, hi);
      assert number + (log + events) == EncodeLog(m);
    } else {
      assert log + events == EncodeLog(m);
    }
    n := hi - i;
    PlacedThere(old(a[..]), i, EncodeLog(m), hi);
    assert a[i..hi] == a[..][i..hi];
  }

  method Marshal(m: MessageLog) returns (data: Bytes)
    requires |EncodeLog(m)| < TWO_63
    ensures data == EncodeLog(m)
    ensures IsLog(m, data)
  {
    hide EncodeLog, IsLog;
    OnlyLog(m, EncodeLog(m));
    var size := SizeLog(m);
    var a := new byte[size];
    var n := MarshalToSizedBuffer(m, a, size);
    data := a[..n];
  }

  // ---------------------------------------------------------------- reading

  method UnmarshalAttribute(data: Bytes, into: Attribute) returns (m: Attribute, err: Option<WireError>)
    requires |data| < TWO_63
    ensures Decoded(m, err.None?) == Decode(AttributeSchema(), data, into)
  {
    hide ReadVarint, ReadChunk, FieldNumber, WireType, Skip, Decode;
    ghost var schema := AttributeSchema();
    var i := 0;
    m := into;
    assert data[0..] == data;
    while i < |data|
      invariant i <= |data|
      invariant Decode(schema, data[i..], m) == Decode(schema, data, into)
    {
      var tag := DecodeTag(data, i);
      DecodeUnfold(schema, data[i..], m);
      if tag.Err? {
        return m, Some(tag.error);
      }
      var (fieldNum, wireType, at) := tag.value;
      assert data[i..][at - i..] == data[at..];
      if fieldNum == 1 || fieldNum == 2 {
        if wireType != 2 {
          return m, Some(WrongWireType);
        }
        var span := DecodeLength(data, at);
        if span.Err? {
          return m, Some(span.error);
        }
        var b := data[span.value.0..span.value.1];
        ghost var before := m;
        m := if fieldNum == 1 then m.(key := b) else m.(value := b);
        Advance(schema, data, i, before, span.value.1, m);
        i := span.value.1;
      } else {
        var next := SkipUnknown(data, i);
        if next.Err? {
          return m, Some(next.error);
        }
        Advance(schema, data, i, m, next.value, m);
        i := next.value;
      }
    }
    assert data[i..] == [];
    DecodeNothing(schema, m);
    err := None;
  }

  method UnmarshalEvent(data: Bytes, into: StringEvent) returns (m: StringEvent, err: Option<WireError>)
    requires |data| < TWO_63
    ensures Decoded(m, err.None?) == Decode(EventSchema(), data, into)
  {
    hide ReadVarint, ReadChunk, FieldNumber, WireType, Skip, Decode;
    ghost var schema := EventSchema();
    var i := 0;
    m := into;
    assert data[0..] == data;
    while i < |data|
      invariant i <= |data|
      invariant Decode(schema, data[i..], m) == Decode(schema, data, into)
    {
      var tag := DecodeTag(data, i);
      DecodeUnfold(schema, data[i..], m);
      if tag.Err? {
        return m, Some(tag.error);
      }
      var (fieldNum, wireType, at) := tag.value;
      assert data[i..][at - i..] == data[at..];
      if fieldNum == 1 || fieldNum == 2 {
        if wireType != 2 {
          return m, Some(WrongWireType);
        }
        var span := DecodeLength(data, at);
        if span.Err? {
          return m, Some(span.error);
        }
        var b := data[span.value.0..span.value.1];
        ghost var before := m;
        if fieldNum == 1 {
          m := m.(typ := b);
        } else {
          var attribute, nested := UnmarshalAttribute(b, NO_ATTRIBUTE);
          m := m.(attributes := m.attributes + [attribute]);
          if nested.Some? {
            return m, nested;
          }
        }
        Advance(schema, data, i, before, span.value.1, m);
        i := span.value.1;
      } else {
        var next := SkipUnknown(data, i);
        if next.Err? {
          return m, Some(next.error);
        }
        Advance(schema, data, i, m, next.value, m);
        i := next.value;
      }
    }
    assert data[i..] == [];
    DecodeNothing(schema, m);
    err := None;
  }

  lemma CutTwice(v: nat)
    ensures Cut(Bits32, v) == ToU64(v) as int % 0x1_0000_0000
  {
  }

  /**
   `ABCIMessageLog.Unmarshal`. Every input, however malformed, gives a message or an error; with an
   error, the message holds what was read before it, down to a partly filled last event.
   */
  method Unmarshal(data: Bytes, into: MessageLog) returns (m: MessageLog, err: Option<WireError>)
    requires |data| < TWO_63
    ensures Decoded(m, err.None?) == Decode(LogSchema(), data, into)
  {
    hide ReadVarint, VarintSoFar, ReadChunk, FieldNumber, WireType, Skip, Decode, Cut, ToU64;
    ghost var schema := LogSchema();
    var i := 0;
    m := into;
    assert data[0..] == data;
    while i < |data|
      invariant i <= |data|
      invariant Decode(schema, data[i..], m) == Decode(schema, data, into)
    {
      var tag := DecodeTag(data, i);
      DecodeUnfold(schema, data[i..], m);
      if tag.Err? {
        return m, Some(tag.error);
      }
      var (fieldNum, wireType, at) := tag.value;
      assert data[i..][at - i..] == data[at..];
      ghost var before := m;
      var end;
      if fieldNum == 1 {
        if wireType != 0 {
          return m, Some(WrongWireType);
        }
        var index, number := DecodeVarint(data, at, Bits32);
        CutTwice(VarintSoFar(data[at..], MAX_BYTES));
        m := m.(msgIndex := index);
        if number.Err? {
          return m, Some(number.error);
        }
        end := number.value;
      } else if fieldNum == 2 || fieldNum == 3 {
        if wireType != 2 {
          return m, Some(WrongWireType);
        }
        var span := DecodeLength(data, at);
        if span.Err? {
          return m, Some(span.error);
        }
        var b := data[span.value.0..span.value.1];
        if fieldNum == 2 {
          m := m.(log := b);
        } else {
          var event, nested := UnmarshalEvent(b, NO_EVENT);
          m := m.(events := m.events + [event]);
          if nested.Some? {
            return m, nested;
          }
        }
        end := span.value.1;
      } else {
        var next := SkipUnknown(data, i);
        if next.Err? {
          return m, Some(next.error);
        }
        end := next.value;
      }
      Advance(schema, data, i, before, end, m);
      i := end;
    }
    assert data[i..] == [];
    DecodeNothing(schema, m);
    err := None;
  }

  /** Unmarshal after Marshal. */
  method MarshalThenUnmarshal(m: MessageLog) returns (m': MessageLog, err: Option<WireError>)
    requires |EncodeLog(m)| < TWO_63
    ensures m' == m && err.None?
  {
    hide EncodeLog, Decode, LogSchema;
    var data := Marshal(m);
    LogRoundTrip(m);
    m', err := Unmarshal(data, NO_LOG);
  }
}
