/**
 The loops of the generated code: varints written into a buffer from its end backwards, and the
 readers, which advance an index through the input with wrapping 64-bit arithmetic. The readers
 return errors where the input is malformed; that they index only inside the input is checked for
 every input.
 */
module WireBuffer {
  import opened Prelude
  import opened Varints
  import opened Wire

  datatype WireError =
    | IntOverflow
    | UnexpectedEof
    | InvalidLength
    | EndGroupForNonGroup
    | IllegalTag
    | WrongWireType
    | UnexpectedEndOfGroup
    | IllegalWireType
    | BadField

  // ---------------------------------------------------------------- writing

  /** `before` with `b` in place of everything from `lo` to `hi`. */
  function Placed(before: Bytes, lo: nat, b: Bytes, hi: nat): (r: Bytes)
    requires lo <= hi <= |before|
  {
    before[..lo] + b + before[hi..]
  }

  /** Placing `x` directly before what was placed last. */
  lemma PlacedBefore(before: Bytes, lo: nat, x: Bytes, mid: nat, b: Bytes, hi: nat)
    requires lo + |x| == mid && mid + |b| == hi <= |before|
    ensures Placed(Placed(before, mid, b, hi), lo, x, mid) == Placed(before, lo, x + b, hi)
  {
  }

  lemma PlacedThere(before: Bytes, lo: nat, b: Bytes, hi: nat)
    requires lo + |b| == hi <= |before|
    ensures |Placed(before, lo, b, hi)| == |before| && Placed(before, lo, b, hi)[lo..hi] == b
  {
  }

  lemma PlacedNothing(before: Bytes, lo: nat)
    requires lo <= |before|
    ensures Placed(before, lo, [], lo) == before
  {
  }

  /** One more byte, behind what was placed last. */
  lemma PlacedOneMore(before: Bytes, lo: nat, b: Bytes, x: byte)
    requires lo + |b| < |before|
    ensures
      var placed := Placed(before, lo, b, lo + |b|);
      |placed| == |before| && placed[lo + |b| := x] == Placed(before, lo, b + [x], lo + |b| + 1)
  {
  }

  method Copy(a: array<byte>, lo: nat, b: Bytes)
    requires lo + |b| <= a.Length
    modifies a
    ensures a[..] == Placed(old(a[..]), lo, b, lo + |b|)
  {
    hide Placed;
    PlacedNothing(a[..], lo);
    for k := 0 to |b|
      invariant a[..] == Placed(old(a[..]), lo, b[..k], lo + k)
    {
      PlacedOneMore(old(a[..]), lo, b[..k], b[k]);
      a[lo + k] := b[k];
      assert b[..k + 1] == b[..k] + [b[k]];
    }
    assert b[..|b|] == b;
  }

  lemma VarintUnfold(v: nat)
    ensures Varint(v) == if v < 128 then [v] else [v % 128 + 128] + Varint(v / 128)
  {
  }

  /** `encodeVarint`: step back by the size, then write forwards; the new start of the buffer is returned. */
  method EncodeVarint(a: array<byte>, offset: nat, value: U64) returns (base: nat)
    requires Sov(value) <= offset <= a.Length
    modifies a
    ensures base + |Varint(value)| == offset
    ensures a[..] == Placed(old(a[..]), base, Varint(value), offset)
  {
    hide Sov, Varint, Placed;
    SovIsLength(value);
    var at := offset - Sov(value);
    base := at;
    var v: nat := value;
    ghost var done: Bytes := [];
    PlacedNothing(a[..], base);
    while v >= 128
      invariant done + Varint(v) == Varint(value)
      invariant at == base + |done|
      invariant a[..] == Placed(old(a[..]), base, done, at)
    {
      ghost var next: byte := v % 128 + 128;
      VarintUnfold(v);
      assert done + ([next] + Varint(v / 128)) == done + [next] + Varint(v / 128);
      PlacedOneMore(old(a[..]), base, done, next);
      a[at] := v % 128 + 128;
      done := done + [next];
      v := v / 128;
      at := at + 1;
    }
    VarintUnfold(v);
    PlacedOneMore(old(a[..]), base, done, v);
    a[at] := v;
  }

  /** A varint with a one-byte tag before it. */
  method PutNumber(a: array<byte>, hi: nat, tag: byte, v: U64) returns (lo: nat)
    requires |NumberField(tag, v)| <= hi <= a.Length
    modifies a
    ensures lo + |NumberField(tag, v)| == hi
    ensures a[..] == Placed(old(a[..]), lo, NumberField(tag, v), hi)
  {
    hide Varint, Sov, Placed;
    SovIsLength(v);
    var mid := EncodeVarint(a, hi, v);
    lo := mid - 1;
    PlacedNothing(a[..], lo);
    PlacedOneMore(a[..], lo, [], tag);
    assert [] + [tag] == [tag];
    a[lo] := tag;
    PlacedBefore(old(a[..]), lo, [tag], mid, Varint(v), hi);
  }

  /** A chunk, its length and its tag. */
  method PutChunk(a: array<byte>, hi: nat, tag: byte, b: Bytes) returns (lo: nat)
    requires |ChunkField(tag, b)| <= hi <= a.Length && |b| < TWO_63
    modifies a
    ensures lo + |ChunkField(tag, b)| == hi
    ensures a[..] == Placed(old(a[..]), lo, ChunkField(tag, b), hi)
  {
    hide Varint, Placed;
    var mid := hi - |b|;
    Copy(a, mid, b);
    lo := PutNumber(a, mid, tag, |b|);
    assert ChunkField(tag, b) == NumberField(tag, |b|) + b;
    PlacedBefore(old(a[..]), lo, NumberField(tag, |b|), mid, b, hi);
  }

  // ---------------------------------------------------------------- reading

  /** The integer types a varint is read into. */
  datatype Width = Bits32 | Bits64

  function Cut(width: Width, x: nat): (r: nat) {
    match width
    case Bits32 => x % 0x1_0000_0000
    case Bits64 => ToU64(x)
  }

  lemma RemainderUnique(n: nat, q: nat, r: nat, m: nat)
    requires m > 0 && n == q * m + r && r < m
    ensures n % m == r
  {
    var d: int := n / m - q;
    assert d * m == r - n % m;
    assert d > 0 ==> d * m >= m;
    assert d < 0 ==> d * m + m <= 0;
  }

  /** A multiple of the modulus does not change the remainder. */
  lemma RemainderOfSum(a: nat, x: nat, m: nat)
    requires m > 0
    ensures (a % m + x) % m == (a + x) % m
  {
    var r := (a % m + x) % m;
    var q := (a % m + x) / m;
    assert a == a / m * m + a % m;
    assert a + x == (a / m + q) * m + r;
    RemainderUnique(a + x, a / m + q, r, m);
  }

  lemma CutOfSum(width: Width, a: nat, x: nat)
    ensures Cut(width, Cut(width, a) + x) == Cut(width, a + x)
  {
    RemainderOfSum(a, x, if width.Bits32? then 0x1_0000_0000 else 0x1_0000_0000_0000_0000);
  }

  /** `x << 7k`. */
  function Shifted(x: nat, k: nat): (r: nat) {
    x * Pow128(k)
  }

  lemma ShiftedSum(b: nat, v: nat, k: nat)
    ensures Shifted(b + 128 * v, k) == Shifted(b, k) + Shifted(v, k + 1)
  {
    var p := Pow128(k);
    assert (b + 128 * v) * p == b * p + v * (128 * p);
  }

  lemma ShiftedNothing(x: nat)
    ensures Shifted(x, 0) == x
  {
  }

  /** What the first `k` bytes of a varint and the rest of it make together. */
  function Joined(acc: nat, k: nat, rest: Option<(nat, nat)>): (r: Option<(nat, nat)>) {
    if rest.None? then None else Some((acc + Shifted(rest.value.0, k), k + rest.value.1))
  }

  lemma ReadVarintUnfold(data: Bytes, budget: nat)
    requires data != [] && budget > 0
    ensures data[0] < 128 ==> ReadVarint(data, budget) == Some((data[0] as nat, 1))
    ensures data[0] >= 128 ==>
              var rest := ReadVarint(data[1..], budget - 1);
              ReadVarint(data, budget) ==
              if rest.None? then None else Some((data[0] - 128 + 128 * rest.value.0, rest.value.1 + 1))
  {
  }

  lemma JoinedStep(acc: nat, k: nat, data: Bytes)
    requires k < MAX_BYTES && data != []
    ensures
      var acc' := acc + Shifted(data[0] % 128, k);
      Joined(acc, k, ReadVarint(data, MAX_BYTES - k))
      == if data[0] < 128 then Some((acc', k + 1)) else Joined(acc', k + 1, ReadVarint(data[1..], MAX_BYTES - k - 1))
    ensures
      var acc' := acc + Shifted(data[0] % 128, k);
      acc + Shifted(VarintSoFar(data, MAX_BYTES - k), k)
      == if data[0] < 128 then acc' else acc' + Shifted(VarintSoFar(data[1..], MAX_BYTES - k - 1), k + 1)
  {
    hide Shifted, ReadVarint;
    var rest := ReadVarint(data[1..], MAX_BYTES - k - 1);
    ReadVarintUnfold(data, MAX_BYTES - k);
    if data[0] >= 128 {
      ShiftedSum(data[0] % 128, VarintSoFar(data[1..], MAX_BYTES - k - 1), k);
    }
  }

  lemma JoinedStart(r: Option<(nat, nat)>)
    ensures Joined(0, 0, r) == r
  {
    if r.Some? {
      ShiftedNothing(r.value.0);
    }
  }

  lemma JoinedNone(acc: nat, k: nat, data: Bytes)
    requires k <= MAX_BYTES && (k == MAX_BYTES || data == [])
    ensures Joined(acc, k, ReadVarint(data, MAX_BYTES - k)).None?
    ensures Shifted(VarintSoFar(data, MAX_BYTES - k), k) == 0
  {
  }

  /** The varint loop, into an integer of the given width: what it has put together, and where it ends. */
  method DecodeVarint(data: Bytes, start: nat, width: Width) returns (value: nat, r: Result<nat, WireError>)
    requires start <= |data|
    ensures value == Cut(width, VarintSoFar(data[start..], MAX_BYTES))
    ensures
      var number := ReadVarint(data[start..], MAX_BYTES);
      if number.None? then r.Err? else r == Ok(start + number.value.1)
  {
    hide ReadVarint, Joined, Shifted, VarintSoFar;
    var i, shift, k: nat := start, 0, 0;
    value := 0;
    ghost var acc: nat := 0;
    JoinedStart(ReadVarint(data[start..], MAX_BYTES));
    ShiftedNothing(VarintSoFar(data[start..], MAX_BYTES));
    while true
      invariant shift == 7 * k && k <= MAX_BYTES && i == start + k <= |data|
      invariant value == Cut(width, acc)
      invariant ReadVarint(data[start..], MAX_BYTES) == Joined(acc, k, ReadVarint(data[i..], MAX_BYTES - k))
      invariant VarintSoFar(data[start..], MAX_BYTES) == acc + Shifted(VarintSoFar(data[i..], MAX_BYTES - k), k)
      decreases MAX_BYTES - k
    {
      if shift >= 64 {
        JoinedNone(acc, k, data[i..]);
        r := Err(IntOverflow);
        return;
      }
      if i >= |data| {
        JoinedNone(acc, k, data[i..]);
        r := Err(UnexpectedEof);
        return;
      }
      var b := data[i];
      JoinedStep(acc, k, data[i..]);
      var bits := Shifted(b % 128, k);
      CutOfSum(width, acc, bits);
      assert data[i..][1..] == data[i + 1..];
      i := i + 1;
      value := Cut(width, value + bits);
      acc := acc + bits;
      if b < 128 {
        r := Ok(i);
        return;
      }
      shift, k := shift + 7, k + 1;
    }
  }

  /** A length and its range check: the bytes lie between the two indices returned. */
  method DecodeLength(data: Bytes, start: nat) returns (r: Result<(nat, nat), WireError>)
    requires start <= |data| < TWO_63
    ensures r.Ok? ==> start < r.value.0 <= r.value.1 <= |data|
    ensures ReadChunk(data[start..]).None? ==> r.Err?
    ensures ReadChunk(data[start..]).Some? ==>
              r.Ok? && ReadChunk(data[start..]) == Some((data[r.value.0..r.value.1], r.value.1 - start))
  {
    hide ReadVarint, VarintSoFar;
    var v, len := DecodeVarint(data, start, Bits64);
    if len.Err? {
      return Err(len.error);
    }
    var i := len.value;
    var intLen := ToI64(v);
    if intLen < 0 {
      return Err(InvalidLength);
    }
    var postIndex := ToI64(i + intLen);
    if postIndex < 0 {
      return Err(InvalidLength);
    }
    if postIndex > |data| {
      return Err(UnexpectedEof);
    }
    assert data[start..][i - start..i - start + intLen] == data[i..postIndex];
    r := Ok((i, postIndex));
  }

  /** The length case of the skipping loop adds the length without a range check. */
  method SkipLength(data: Bytes, start: nat) returns (r: Result<int, WireError>)
    requires start <= |data| < TWO_63
    ensures r.Ok? ==> r.value < TWO_63
    ensures ReadChunk(data[start..]).Some? ==> r == Ok(start + ReadChunk(data[start..]).value.1)
    ensures ReadChunk(data[start..]).None? ==> r.Err? || r.value < 0 || r.value > |data|
  {
    hide ReadVarint, VarintSoFar;
    var v, len := DecodeVarint(data, start, Bits64);
    if len.Err? {
      return Err(len.error);
    }
    var length := ToI64(v);
    if length < 0 {
      return Err(InvalidLength);
    }
    r := Ok(ToI64(len.value + length));
  }

  /** One round of the skipping loop: the new index, which may lie beyond the input, and the new depth. */
  method SkipRound(data: Bytes, start: nat, depth: nat) returns (r: Result<(nat, nat), WireError>)
    requires start < |data| < TWO_63
    ensures r.Ok? ==> r.value.0 < TWO_63
    ensures SkipStep(data[start..], depth).Some? ==>
              var (n, d) := SkipStep(data[start..], depth).value; r == Ok((start + n, d))
    ensures SkipStep(data[start..], depth).None? ==> r.Err? || r.value.0 > |data|
  {
    hide ReadVarint, ReadChunk, VarintSoFar;
    var wire, tag := DecodeVarint(data, start, Bits64);
    if tag.Err? {
      return Err(tag.error);
    }
    var at := tag.value;
    var i: int, d := at, depth;
    assert data[start..][at - start..] == data[at..];
    match wire % 8 {
      case 0 =>
        var _, number := DecodeVarint(data, at, Bits64);
        if number.Err? {
          return Err(number.error);
        }
        i := number.value;
      case 1 =>
        i := ToI64(i + 8);
      case 2 =>
        var chunk := SkipLength(data, at);
        if chunk.Err? {
          return Err(chunk.error);
        }
        i := chunk.value;
      case 3 =>
        d := d + 1;
      case 4 =>
        if d == 0 {
          return Err(UnexpectedEndOfGroup);
        }
        d := d - 1;
      case 5 =>
        i := ToI64(i + 4);
      case _ =>
        return Err(IllegalWireType);
    }
    if i < 0 {
      return Err(InvalidLength);
    }
    r := Ok((i, d));
  }

  lemma SkipNothing(depth: nat)
    ensures Skip([], depth).None?
  {
  }

  /** `skip`: the length of the field the input starts with. It may point beyond the input; callers check. */
  method SkipField(data: Bytes) returns (r: Result<nat, WireError>)
    requires |data| < TWO_63
    ensures r.Ok? ==> r.value < TWO_63
    ensures Skip(data, 0).Some? ==> r == Ok(Skip(data, 0).value)
    ensures Skip(data, 0).None? ==> r.Err? || r.value > |data|
  {
    hide SkipStep;
    var i, depth := 0, 0;
    assert data[0..] == data;
    while i < |data|
      invariant i <= |data| ==> Skip(data, 0) == Plus(i, Skip(data[i..], depth))
      invariant i > |data| ==> Skip(data, 0).None?
      decreases |data| - i
    {
      var round := SkipRound(data, i, depth);
      if round.Err? {
        return Err(round.error);
      }
      var (next, d) := round.value;
      if next <= |data| {
        assert data[i..][next - i..] == data[next..];
      }
      if d == 0 {
        return Ok(next);
      }
      i, depth := next, d;
    }
    if i == |data| {
      SkipNothing(depth);
    }
    r := Err(UnexpectedEof);
  }

  /** The default case of the field switch: skip, then check the index. */
  method SkipUnknown(data: Bytes, start: nat) returns (r: Result<nat, WireError>)
    requires start <= |data| < TWO_63
    ensures r.Ok? ==> start < r.value <= |data|
    ensures Skip(data[start..], 0).None? ==> r.Err?
    ensures Skip(data[start..], 0).Some? ==> r == Ok(start + Skip(data[start..], 0).value)
  {
    hide Skip;
    var skippy := SkipField(data[start..]);
    if skippy.Err? {
      return Err(skippy.error);
    }
    var end := ToI64(start + skippy.value);
    if end < 0 {
      return Err(InvalidLength);
    }
    if end > |data| {
      return Err(UnexpectedEof);
    }
    r := Ok(end);
  }

  /** The tag at the start of every field, with its checks: field number, wire type, and the index behind it. */
  method DecodeTag(data: Bytes, start: nat) returns (r: Result<(int, nat, nat), WireError>)
    requires start <= |data|
    ensures r.Ok? ==>
              && var (field, wireType, next) := r.value;
              && field > 0 && wireType != 4 && start < next <= |data|
              && var tag := ReadVarint(data[start..], MAX_BYTES);
              && tag.Some? && FieldNumber(tag.value.0) == field && WireType(tag.value.0) == wireType
              && next == start + tag.value.1
    ensures r.Err? ==>
              var tag := ReadVarint(data[start..], MAX_BYTES);
              tag.None? || FieldNumber(tag.value.0) <= 0 || WireType(tag.value.0) == 4
  {
    hide ReadVarint, VarintSoFar;
    var wire, tag := DecodeVarint(data, start, Bits64);
    if tag.Err? {
      return Err(tag.error);
    }
    var fieldNum := ToI32(wire / 8);
    var wireType := wire % 8;
    if wireType == 4 {
      return Err(EndGroupForNonGroup);
    }
    if fieldNum <= 0 {
      return Err(IllegalTag);
    }
    r := Ok((fieldNum, wireType, tag.value));
  }

  /** After one field, decoding goes on behind it. */
  lemma Advance<M>(schema: Schema<M>, data: Bytes, start: nat, m: M, next: nat, m': M)
    requires start < next <= |data| && ReadField(schema, data[start..], m) == (Decoded(m', true), next - start)
    ensures Decode(schema, data[start..], m) == Decode(schema, data[next..], m')
  {
    hide ReadField;
    assert data[start..][next - start..] == data[next..];
  }
}
