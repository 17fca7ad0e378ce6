/** The generated codec of `Coin`. */
module CoinCodec {
  import opened Prelude
  import opened Texts
  import opened Varints
  import opened Wire
  import opened WireBuffer
  import opened WireRecords

  /** Go strings are byte strings. A nil amount is zero. */
  datatype CoinMessage = CoinMessage(denom: Bytes, amount: int)

  const EMPTY: CoinMessage := CoinMessage([], 0)

  /** How the amount field is read: the old amount and the field's bytes give the new amount, or an error and what it leaves. */
  type AmountReader = (int, Bytes) -> Decoded<int>

  // ---------------------------------------------------------------- amounts

  function Ascii(s: string): (b: Bytes)
    requires forall i :: 0 <= i < |s| ==> s[i] < 128 as char
    ensures |b| == |s|
  {
    seq(|s|, i requires 0 <= i < |s| => s[i] as int)
  }

  function FromAscii(b: Bytes): (s: string) {
    seq(|b|, i requires 0 <= i < |b| => b[i] as char)
  }

  /** Amounts are written as decimal text. */
  function AmountText(x: int): (b: Bytes)
    ensures |b| >= 1
  {
    Ascii(BigString(x))
  }

  /** Integers have at most 256 bits. */
  const INT_LIMIT: int := 4 * TWO_63 * TWO_63 * TWO_63 * TWO_63 * 4

  /** Reading decimal text; an empty field leaves the amount as it is. */
  function DecimalReader(previous: int, b: Bytes): (r: Decoded<int>) {
    if b == [] then Decoded(previous, true)
    else
      var x := BigFromString(FromAscii(b));
      if x.None? then Decoded(previous, false)
      else Decoded(x.value, -INT_LIMIT < x.value < INT_LIMIT)
  }

  lemma DecimalRoundTrip(previous: int, x: int)
    requires -INT_LIMIT < x < INT_LIMIT
    ensures DecimalReader(previous, AmountText(x)) == Decoded(x, true)
  {
    hide Digits, BigFromString;
    BigRoundTrip(x);
    assert FromAscii(AmountText(x)) == BigString(x);
  }

  // ---------------------------------------------------------------- the message

  function CoinSchema(read: AmountReader): (s: Schema<CoinMessage>) {
    Schema(
      n => if n == 1 || n == 2 then Chunk else Unknown,
      (m: CoinMessage, n, v) => m,
      (m: CoinMessage, n, b) =>
        if n == 1 then Decoded(m.(denom := b), true)
        else
          var amount := read(m.amount, b);
          Decoded(m.(amount := amount.message), amount.ok))
  }

  function Encode(m: CoinMessage): (b: Bytes) {
    (if m.denom == [] then [] else ChunkField(0x0a, m.denom)) + ChunkField(0x12, AmountText(m.amount))
  }

  /** Decoding the encoded coin gives it back. */
  lemma CoinRoundTrip(read: AmountReader, m: CoinMessage)
    requires |Encode(m)| < TWO_63 && read(0, AmountText(m.amount)) == Decoded(m.amount, true)
    ensures Decode(CoinSchema(read), Encode(m), EMPTY) == Decoded(m, true)
  {
    hide AmountText, Decode, ChunkField;
    var schema, text := CoinSchema(read), AmountText(m.amount);
    var amount := ChunkField(0x12, text);
    ChunkFits(0x12, text);
    ChunkFits(0x0a, m.denom);
    var withDenom := EMPTY.(denom := m.denom);
    DecodeChunkField(schema, 0x12, text, [], withDenom);
    assert amount + [] == amount;
    DecodeNothing(schema, m);
    if m.denom == [] {
      assert Encode(m) == amount;
    } else {
      DecodeChunkField(schema, 0x0a, m.denom, amount, EMPTY);
    }
  }

  /** With the decimal text of the integer library, every coin whose amount is in range. */
  lemma DecimalCoinRoundTrip(m: CoinMessage)
    requires |Encode(m)| < TWO_63 && -INT_LIMIT < m.amount < INT_LIMIT
    ensures Decode(CoinSchema(DecimalReader), Encode(m), EMPTY) == Decoded(m, true)
  {
    hide Encode, Decode, CoinSchema;
    DecimalRoundTrip(0, m.amount);
    CoinRoundTrip(DecimalReader, m);
  }

  // ---------------------------------------------------------------- the bytes

  const COIN_KIND: int -> Kind := (n: int) => if n == 1 || n == 2 then Chunk else Unknown

  /** The fields of a coin in the order they are written: the denomination unless it is empty, and the amount. */
  function CoinRecords(m: CoinMessage): (rs: seq<Record>) {
    (if m.denom == [] then [] else [ChunkRecord(1, m.denom)]) + [ChunkRecord(2, AmountText(m.amount))]
  }

  /** A coin is written as its fields in that order, each in its shortest form. */
  lemma CoinEncodes(m: CoinMessage)
    requires |Encode(m)| < TWO_63
    ensures Encodes(COIN_KIND, CoinRecords(m), Encode(m))
  {
    hide AmountText, Decode, Canonical, ChunkField;
    var rs, text := CoinRecords(m), ChunkRecord(2, AmountText(m.amount));
    ChunkFits(0x12, text.bytes);
    ChunkFits(0x0a, m.denom);
    assert RecordsBytes([text]) == RecordBytes(text);
    if m.denom == [] {
      assert rs == [text] && Encode(m) == RecordBytes(text);
    } else {
      assert rs[1..] == [text];
      assert RecordBytes(rs[0]) == ChunkField(0x0a, m.denom);
    }
    assert RecordsBytes(rs) == Encode(m);
    RecordsEncode(COIN_KIND, rs, []);
    assert [] + rs == rs;
  }

  /** No other bytes are a coin's fields in that order and in shortest form. */
  lemma OnlyEncoding(m: CoinMessage, data: Bytes)
    requires |Encode(m)| < TWO_63
    ensures Encodes(COIN_KIND, CoinRecords(m), data) <==> data == Encode(m)
  {
    hide Encode, Encodes, CoinRecords;
    CoinEncodes(m);
    if Encodes(COIN_KIND, CoinRecords(m), data) {
      EncodesOnce(COIN_KIND, CoinRecords(m), data, Encode(m));
    }
  }

  // ---------------------------------------------------------------- writing

  method Size(m: CoinMessage) returns (n: nat)
    ensures n == |Encode(m)|
  {
    hide Varint, Sov, AmountText;
    n := 0;
    var l := |m.denom|;
    SovIsLength(l);
    if l > 0 {
      n := n + 1 + l + Sov(l);
    }
    l := |AmountText(m.amount)|;
    SovIsLength(l);
    n := n + 1 + l + Sov(l);
  }

  /** Fills the end of the buffer, up to `hi`, with exactly the encoding; the rest stays as it was. */
  method MarshalToSizedBuffer(m: CoinMessage, a: array<byte>, hi: nat) returns (n: nat)
    requires |Encode(m)| <= hi <= a.Length && |Encode(m)| < TWO_63
    modifies a
    ensures n == |Encode(m)|
    ensures a[..] == Placed(old(a[..]), hi - n, Encode(m), hi)
    ensures Encodes(COIN_KIND, CoinRecords(m), a[hi - n..hi])
  {
    CoinEncodes(m);
    var text := AmountText(m.amount);
    ghost var denom, amount := if m.denom == [] then [] else ChunkField(0x0a, m.denom), ChunkField(0x12, text);
    assert Encode(m) == denom + amount;
    ChunkFits(0x12, text);
    ChunkFits(0x0a, m.denom);
    hide AmountText, ChunkField, Placed, Encodes, CoinRecords, Encode;
    var i := PutChunk(a, hi, 0x12, text);
    ghost var mid := i;
    if |m.denom| > 0 {
      i := PutChunk(a, i, 0x0a, m.denom);
      PlacedBefore(old(a[..]), i, denom, mid, amount, hi);
    } else {
      assert denom + amount == amount;
    }
    n := hi - i;
    PlacedThere(old(a[..]), i, Encode(m), hi);
    assert a[i..hi] == a[..][i..hi];
  }

  method Marshal(m: CoinMessage) returns (data: Bytes)
    requires |Encode(m)| < TWO_63
    ensures data == Encode(m)
    ensures Encodes(COIN_KIND, CoinRecords(m), data)
  {
    CoinEncodes(m);
    hide Encode, Encodes, CoinRecords;
    var size := Size(m);
    var a := new byte[size];
    var n := MarshalToSizedBuffer(m, a, size);
    data := a[..n];
  }

  // ---------------------------------------------------------------- reading

  /**
   `Unmarshal` into an existing message. Every input, however malformed, gives a message or an
   error; with an error, the message holds what was read before it.
   */
  method Unmarshal(read: AmountReader, data: Bytes, into: CoinMessage)
    returns (m: CoinMessage, err: Option<WireError>)
    requires |data| < TWO_63
    ensures Decoded(m, err.None?) == Decode(CoinSchema(read), data, into)
  {
    hide ReadVarint, ReadChunk, FieldNumber, WireType, Skip, Decode;
    ghost var schema := CoinSchema(read);
    var i := 0;
    m := into;
    assert data[0..] == data;
    while i < |data|
      invariant i <= |data|
      invariant Decode(schema, data[i..], m) == Decode(schema, data, into)
    {
      var tag := DecodeTag(data, i);
      DecodeUnfold(schema, data[i..], m);
      if tag.Err? {
        return m, Some(tag.error);
      }
      var (fieldNum, wireType, at) := tag.value;
      assert data[i..][at - i..] == data[at..];
      if fieldNum == 1 || fieldNum == 2 {
        if wireType != 2 {
          return m, Some(WrongWireType);
        }
        var span := DecodeLength(data, at);
        if span.Err? {
          return m, Some(span.error);
        }
        var b := data[span.value.0..span.value.1];
        ghost var before := m;
        if fieldNum == 1 {
          m := m.(denom := b);
        } else {
          var amount := read(m.amount, b);
          m := m.(amount := amount.message);
          if !amount.ok {
            return m, Some(BadField);
          }
        }
        Advance(schema, data, i, before, span.value.1, m);
        i := span.value.1;
      } else {
        var next := SkipUnknown(data, i);
        if next.Err? {
          return m, Some(next.error);
        }
        Advance(schema, data, i, m, next.value, m);
        i := next.value;
      }
    }
    assert data[i..] == [];
    DecodeNothing(schema, m);
    err := None;
  }

  /** Unmarshal after Marshal. */
  method MarshalThenUnmarshal(m: CoinMessage) returns (m': CoinMessage, err: Option<WireError>)
    requires |Encode(m)| < TWO_63 && -INT_LIMIT < m.amount < INT_LIMIT
    ensures m' == m && err.None?
  {
    hide Encode, Decode, CoinSchema;
    var data := Marshal(m);
    DecimalCoinRoundTrip(m);
    m', err := Unmarshal(DecimalReader, data, EMPTY);
  }
}
