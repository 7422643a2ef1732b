/**
 The Protocol Buffers wire format as the generated API code reads and writes it
 (pkg/apis/kynomesh/v1alpha1/generated.pb.go): base 128 varints, fields, groups and the skipping of
 unknown fields. A reader yields None where the generated code returns an error.
 */
module Wire {
  import opened Prelude

  type byte = b: int | 0 <= b < 256
  type Bytes = seq<byte>

  const U32: nat := 0x1_0000_0000
  const U64: nat := 0x1_0000_0000_0000_0000
  const I63: nat := 0x8000_0000_0000_0000

  // ---------------------------------------------------------------- varints

  /** Base 128, least significant group first, no leading zero group. */
  function Varint(v: nat): (s: Bytes)
    ensures |s| >= 1
  {
    if v < 128 then [v] else [v % 128 + 128] + Varint(v / 128)
  }

  /** math/bits.Len64 */
  function BitLen(v: nat): nat {
    if v == 0 then 0 else 1 + BitLen(v / 2)
  }

  /** sovGenerated; x|1 sets the lowest bit. */
  function Sov(v: nat): nat {
    (BitLen(v - v % 2 + 1) + 6) / 7
  }

  /** The varint at the start of `d` and its length, when at most 10 - k bytes long. */
  function ReadVarint(d: Bytes, k: nat): (r: Option<(nat, nat)>)
    ensures r.Some? ==> 1 <= r.value.1 <= |d|
  {
    if k >= 10 || d == [] then None
    else if d[0] < 128 then Some((d[0], 1))
    else
      var rest := ReadVarint(d[1..], k + 1);
      if rest.None? then None else Some((d[0] - 128 + 128 * rest.value.0, 1 + rest.value.1))
  }

  lemma {:induction false} BitLenSplit(v: nat)
    requires v >= 128
    ensures BitLen(v) == 7 + BitLen(v / 128)
  {
    var a := v / 2;
    var b := a / 2;
    var c := b / 2;
    var d := c / 2;
    var e := d / 2;
    var f := e / 2;
    assert f / 2 == v / 128;
    assert BitLen(v) == 1 + BitLen(a) && BitLen(a) == 1 + BitLen(b) && BitLen(b) == 1 + BitLen(c);
    assert BitLen(c) == 1 + BitLen(d) && BitLen(d) == 1 + BitLen(e) && BitLen(e) == 1 + BitLen(f);
  }

  lemma {:induction false} BitLenSmall(v: nat, k: nat, p: nat)
    requires 1 <= v < p && p == Pow2(k)
    ensures 1 <= BitLen(v) <= k
  {
    if v >= 2 {
      BitLenSmall(v / 2, k - 1, Pow2(k - 1));
    }
  }

  function Pow2(k: nat): nat {
    if k == 0 then 1 else 2 * Pow2(k - 1)
  }

  lemma Pow2Seven()
    ensures Pow2(7) == 128
  {
    assert Pow2(3) == 8;
    assert Pow2(5) == 32;
  }

  lemma {:induction false} BitLenOr1(v: nat)
    requires v >= 1
    ensures BitLen(v - v % 2 + 1) == BitLen(v)
  {
    assert (v - v % 2 + 1) / 2 == v / 2;
  }

  /** sovGenerated is the number of bytes the varint takes. */
  lemma {:induction false} SovIsLength(v: nat)
    ensures |Varint(v)| == Sov(v)
  {
    hide BitLen, Pow2;
    if v < 128 {
      Pow2Seven();
      BitLenSmall(v - v % 2 + 1, 7, 128);
    } else {
      SovIsLength(v / 128);
      BitLenOr1(v);
      BitLenOr1(v / 128);
      BitLenSplit(v);
    }
  }

  function Pow128(k: nat): nat {
    if k == 0 then 1 else 128 * Pow128(k - 1)
  }

  lemma {:induction false} VarintLength(v: nat, k: nat)
    requires v < Pow128(k) && k >= 1
    ensures |Varint(v)| <= k
  {
    if v >= 128 {
      assert Pow128(1) == 128 * Pow128(0);
      VarintLength(v / 128, k - 1);
    }
  }

  lemma {:induction false} ReadWritten(v: nat, rest: Bytes, k: nat)
    requires k + |Varint(v)| <= 10
    ensures ReadVarint(Varint(v) + rest, k) == Some((v, |Varint(v)|))
  {
    var d := Varint(v) + rest;
    if v >= 128 {
      ReadWritten(v / 128, rest, k + 1);
      assert d[1..] == Varint(v / 128) + rest;
    }
  }

  /** Every uint64 is read back, whatever follows it. */
  lemma {:induction false} ReadUint64(v: nat, rest: Bytes)
    requires v < U64
    ensures ReadVarint(Varint(v) + rest, 0) == Some((v, |Varint(v)|))
  {
    Pow128Ten();
    VarintLength(v, 10);
    ReadWritten(v, rest, 0);
  }

  lemma Pow128Ten()
    ensures Pow128(10) > U64
  {
    assert Pow128(2) == 0x4000;
    assert Pow128(4) == 0x1000_0000;
    assert Pow128(6) == 0x400_0000_0000;
    assert Pow128(8) == 0x100_0000_0000_0000;
  }

  lemma {:induction false} ReadPrefix(d: Bytes, e: Bytes, k: nat)
    requires ReadVarint(d, k).Some?
    ensures ReadVarint(d + e, k) == ReadVarint(d, k)
  {
    if d[0] >= 128 {
      ReadPrefix(d[1..], e, k + 1);
      assert (d + e)[1..] == d[1..] + e;
    }
  }

  // ---------------------------------------------------------------- skipping a field

  /** An unsigned value below 2^32 read as int32. */
  function Signed32(v: nat): int
    requires v < U32
  {
    if v < 0x8000_0000 then v else v - U32
  }

  function WireType(raw: nat): nat {
    raw % U64 % 8
  }

  /** int32(wire >> 3) */
  function FieldNumber(raw: nat): int {
    Signed32(raw % U64 / 8 % U32)
  }

  /** One turn of skipGenerated's loop: the bytes it moves over (possibly past the end) and its change of depth. */
  function SkipOne(d: Bytes): (r: Option<(nat, int)>)
    ensures r.Some? ==> r.value.0 >= 1 && -1 <= r.value.1 <= 1
  {
    var tag := ReadVarint(d, 0);
    if tag.None? then None
    else
      var n := tag.value.1;
      match WireType(tag.value.0)
      case 0 =>
        var v := ReadVarint(d[n..], 0);
        if v.None? then None else Some((n + v.value.1, 0))
      case 1 => Some((n + 8, 0))
      case 2 =>
        var v := ReadVarint(d[n..], 0);
        if v.None? || v.value.0 % U64 >= I63 then None else Some((n + v.value.1 + v.value.0 % U64, 0))
      case 3 => Some((n, 1))
      case 4 => Some((n, -1))
      case 5 => Some((n + 4, 0))
      case _ => None
  }

  /** skipGenerated inside `depth` open groups. */
  function Skip(d: Bytes, depth: nat): (r: Option<nat>)
    ensures r.Some? ==> r.value >= 1
    decreases |d|
  {
    var one := if d == [] then None else SkipOne(d);
    if one.None? || (depth == 0 && one.value.1 < 0) then None
    else
      var n, depth' := one.value.0, depth + one.value.1;
      if depth' == 0 then Some(n)
      else if n > |d| then None
      else Plus(n, Skip(d[n..], depth'))
  }

  function Plus(n: nat, r: Option<nat>): Option<nat> {
    if r.None? then None else Some(n + r.value)
  }

  /** A field as the wire format defines it, with the bytes of each varint; a varint need not be minimal. */
  datatype Field =
    | VarintField(tag: Bytes, value: Bytes)
    | Fixed64(tag: Bytes, data: Bytes)
    | Record(tag: Bytes, length: Bytes, data: Bytes)
    | Group(tag: Bytes, fields: seq<Field>, end: Bytes)
    | Fixed32(tag: Bytes, data: Bytes)

  ghost predicate IsVarint(b: Bytes) {
    ReadVarint(b, 0).Some? && ReadVarint(b, 0).value.1 == |b|
  }

  ghost function Value(b: Bytes): nat
    requires IsVarint(b)
  {
    ReadVarint(b, 0).value.0
  }

  ghost predicate WellFormed(f: Field) {
    IsVarint(f.tag) &&
    match f
    case VarintField(tag, value) => WireType(Value(tag)) == 0 && IsVarint(value)
    case Fixed64(tag, data) => WireType(Value(tag)) == 1 && |data| == 8
    case Record(tag, length, data) =>
      WireType(Value(tag)) == 2 && IsVarint(length) && Value(length) % U64 == |data| && |data| < I63
    case Group(tag, fields, end) =>
      && WireType(Value(tag)) == 3 && IsVarint(end) && WireType(Value(end)) == 4
      && forall g :: g in fields ==> WellFormed(g)
    case Fixed32(tag, data) => WireType(Value(tag)) == 5 && |data| == 4
  }

  function Encoded(f: Field): Bytes {
    match f
    case VarintField(tag, value) => tag + value
    case Fixed64(tag, data) => tag + data
    case Record(tag, length, data) => tag + length + data
    case Group(tag, fields, end) => tag + EncodedAll(fields) + end
    case Fixed32(tag, data) => tag + data
  }

  function EncodedAll(fs: seq<Field>): Bytes {
    if fs == [] then [] else Encoded(fs[0]) + EncodedAll(fs[1..])
  }

  ghost function SkipAfter(d: Bytes, depth: nat): Option<nat> {
    if depth == 0 then Some(0) else Skip(d, depth)
  }

  /** A complete varint is read as such whatever follows. */
  lemma {:induction false} ReadComplete(b: Bytes, rest: Bytes)
    requires IsVarint(b)
    ensures ReadVarint(b + rest, 0) == Some((Value(b), |b|))
    ensures (b + rest)[|b|..] == rest
  {
    ReadPrefix(b, rest, 0);
  }

  lemma {:induction false} SkipOneField(f: Field, e: Bytes)
    requires WellFormed(f) && !f.Group?
    ensures SkipOne(Encoded(f) + e) == Some((|Encoded(f)|, 0))
  {
    hide ReadVarint, EncodedAll;
    var d := Encoded(f) + e;
    match f
    case VarintField(tag, value) =>
      assert d == tag + (value + e);
      ReadComplete(tag, value + e);
      ReadComplete(value, e);
    case Record(tag, length, data) =>
      assert d == tag + (length + (data + e));
      ReadComplete(tag, length + (data + e));
      ReadComplete(length, data + e);
    case Fixed64(tag, data) =>
      assert d == tag + (data + e);
      ReadComplete(tag, data + e);
    case Fixed32(tag, data) =>
      assert d == tag + (data + e);
      ReadComplete(tag, data + e);
  }

  lemma {:induction false} SkipOneBracket(tag: Bytes, rest: Bytes)
    requires IsVarint(tag) && 3 <= WireType(Value(tag)) <= 4
    ensures SkipOne(tag + rest) == Some((|tag|, if WireType(Value(tag)) == 3 then 1 else -1))
  {
    hide ReadVarint;
    ReadComplete(tag, rest);
  }

  lemma {:induction false} SkipTurn(d: Bytes, e: Bytes, depth: nat, change: int)
    requires d != [] && SkipOne(d + e) == Some((|d|, change)) && depth + change >= 0
    ensures Skip(d + e, depth) == Plus(|d|, SkipAfter(e, depth + change))
  {
    hide SkipOne;
    assert (d + e)[|d|..] == e;
  }

  /** skipGenerated moves over exactly one field, groups nested to any depth included, whatever follows. */
  lemma {:induction false} SkipField(f: Field, e: Bytes, depth: nat)
    requires WellFormed(f)
    ensures Skip(Encoded(f) + e, depth) == Plus(|Encoded(f)|, SkipAfter(e, depth))
    decreases f, 1
  {
    hide SkipOne, ReadVarint, EncodedAll, Skip, WireType;
    if f.Group? {
      var inner, last := EncodedAll(f.fields), f.end + e;
      assert Encoded(f) + e == f.tag + (inner + last);
      SkipOneBracket(f.tag, inner + last);
      SkipTurn(f.tag, inner + last, depth, 1);
      SkipFields(f.fields, last, depth + 1);
      SkipOneBracket(f.end, e);
      SkipTurn(f.end, e, depth + 1, -1);
    } else {
      SkipOneField(f, e);
      SkipTurn(Encoded(f), e, depth, 0);
    }
  }

  lemma {:induction false} SkipFields(fs: seq<Field>, e: Bytes, depth: nat)
    requires depth >= 1 && forall f :: f in fs ==> WellFormed(f)
    ensures Skip(EncodedAll(fs) + e, depth) == Plus(|EncodedAll(fs)|, Skip(e, depth))
    decreases fs, 0
  {
    hide Skip, Encoded, WellFormed;
    if fs == [] {
      assert EncodedAll(fs) + e == e;
    } else {
      var rest := EncodedAll(fs[1..]) + e;
      SkipField(fs[0], rest, depth);
      SkipFields(fs[1..], e, depth);
      assert EncodedAll(fs) + e == Encoded(fs[0]) + rest;
    }
  }

  /** A skip that stays inside `d` does not look past its end. */
  lemma {:induction false} SkipPrefix(d: Bytes, e: Bytes, depth: nat)
    requires Skip(d, depth).Some? && Skip(d, depth).value <= |d|
    ensures Skip(d + e, depth) == Skip(d, depth)
    decreases |d|
  {
    hide SkipOne, ReadVarint;
    SkipOnePrefix(d, e);
    var n, depth' := SkipOne(d).value.0, depth + SkipOne(d).value.1;
    if depth' != 0 {
      SkipPrefix(d[n..], e, depth');
      assert (d + e)[n..] == d[n..] + e;
    }
  }

  lemma {:induction false} SkipOnePrefix(d: Bytes, e: Bytes)
    requires SkipOne(d).Some?
    ensures SkipOne(d + e) == SkipOne(d)
  {
    hide ReadVarint;
    ReadPrefix(d, e, 0);
    var n := ReadVarint(d, 0).value.1;
    assert (d + e)[n..] == d[n..] + e;
    if ReadVarint(d[n..], 0).Some? {
      ReadPrefix(d[n..], e, 0);
    }
  }

  // ---------------------------------------------------------------- decoding a message

  /** How a known field is carried: a varint, or a length and bytes. */
  datatype Kind = Number | Text

  datatype Event = Unknown | NumberField(num: int, value: nat) | TextField(num: int, bytes: Bytes)

  /** The known fields of a message type, by field number. */
  type Schema = int -> Option<Kind>

  /** A length and that many bytes. */
  function ReadBytes(d: Bytes): (r: Option<(Bytes, nat)>)
    ensures r.Some? ==> 1 <= r.value.1 <= |d| && |r.value.0| < r.value.1
  {
    var len := ReadVarint(d, 0);
    if len.None? then None
    else
      var n, l := len.value.1, len.value.0 % U64;
      if l >= I63 || n + l > |d| then None else Some((d[n..n + l], n + l))
  }

  /** The next field of a message and its length. */
  function Next(schema: Schema, d: Bytes): (r: Option<(Event, nat)>)
    ensures r.Some? ==> 1 <= r.value.1 <= |d|
    ensures r.Some? && r.value.0.TextField? ==> schema(r.value.0.num) == Some(Text) && |r.value.0.bytes| < |d|
    ensures r.Some? && r.value.0.NumberField? ==> schema(r.value.0.num) == Some(Number)
  {
    var tag := ReadVarint(d, 0);
    if tag.None? then None
    else
      var n, num, wt := tag.value.1, FieldNumber(tag.value.0), WireType(tag.value.0);
      if wt == 4 || num <= 0 then None
      else match schema(num)
        case Some(Number) =>
          var v := ReadVarint(d[n..], 0);
          if wt != 0 || v.None? then None else Some((NumberField(num, v.value.0 % U64), n + v.value.1))
        case Some(Text) =>
          var b := ReadBytes(d[n..]);
          if wt != 2 || b.None? then None else Some((TextField(num, b.value.0), n + b.value.1))
        case None =>
          var skipped := Skip(d, 0);
          if skipped.None? || skipped.value > |d| then None else Some((Unknown, skipped.value))
  }

  /** How a message takes in a known field; None rejects the input. */
  type Merge<!M> = (M, Event) -> Option<M>

  /** An Unmarshal loop: fold the fields of `d` into `m`. */
  function Decode<M>(schema: Schema, merge: Merge<M>, m: M, d: Bytes): Option<M>
    decreases |d|
  {
    if d == [] then Some(m)
    else
      var next := Next(schema, d);
      if next.None? then None
      else
        var (event, n) := next.value;
        var m' := if event.Unknown? then Some(m) else merge(m, event);
        if m'.None? then None else Decode(schema, merge, m'.value, d[n..])
  }

  lemma {:induction false} ReadBytesPrefix(d: Bytes, e: Bytes)
    requires ReadBytes(d).Some?
    ensures ReadBytes(d + e) == ReadBytes(d)
  {
    hide ReadVarint;
    ReadPrefix(d, e, 0);
    var n, l := ReadVarint(d, 0).value.1, ReadVarint(d, 0).value.0 % U64;
    assert (d + e)[n..n + l] == d[n..n + l];
  }

  lemma {:induction false} NextPrefix(schema: Schema, d: Bytes, e: Bytes)
    requires Next(schema, d).Some?
    ensures Next(schema, d + e) == Next(schema, d)
  {
    hide ReadVarint, Skip, ReadBytes, FieldNumber, WireType;
    ReadPrefix(d, e, 0);
    var n := ReadVarint(d, 0).value.1;
    assert (d + e)[n..] == d[n..] + e;
    if ReadVarint(d[n..], 0).Some? {
      ReadPrefix(d[n..], e, 0);
    }
    if ReadBytes(d[n..]).Some? {
      ReadBytesPrefix(d[n..], e);
    }
    if Skip(d, 0).Some? && Skip(d, 0).value <= |d| {
      SkipPrefix(d, e, 0);
    }
  }

  /** Concatenated encodings are decoded one after the other into the same message. */
  lemma {:induction false} DecodeConcat<M>(schema: Schema, merge: Merge<M>, m: M, a: Bytes, b: Bytes)
    requires Decode(schema, merge, m, a).Some?
    ensures Decode(schema, merge, m, a + b) == Decode(schema, merge, Decode(schema, merge, m, a).value, b)
    decreases |a|
  {
    hide Next;
    if a == [] {
      assert a + b == b;
    } else {
      NextPrefix(schema, a, b);
      var (event, n) := Next(schema, a).value;
      assert (a + b)[n..] == a[n..] + b;
      var m' := if event.Unknown? then m else merge(m, event).value;
      DecodeConcat(schema, merge, m', a[n..], b);
    }
  }

  /** A field that the schema does not know: a positive field number outside it. */
  ghost predicate IsUnknown(schema: Schema, f: Field) {
    WellFormed(f) && FieldNumber(Value(f.tag)) > 0 && schema(FieldNumber(Value(f.tag))).None?
  }

  lemma {:induction false} TagFirst(f: Field) returns (after: Bytes)
    requires WellFormed(f)
    ensures Encoded(f) == f.tag + after && WireType(Value(f.tag)) != 4
  {
    hide ReadVarint, EncodedAll, WireType;
    after := match f
      case VarintField(_, value) => value
      case Record(_, length, data) => length + data
      case Group(_, fields, end) => EncodedAll(fields) + end
      case Fixed64(_, data) => data
      case Fixed32(_, data) => data;
    assert Encoded(f) == f.tag + after;
  }

  lemma {:induction false} NextUnknown(schema: Schema, f: Field, e: Bytes)
    requires IsUnknown(schema, f)
    ensures Encoded(f) != []
    ensures Next(schema, Encoded(f) + e) == Some((Unknown, |Encoded(f)|))
  {
    hide ReadVarint, Encoded, Skip, FieldNumber, WireType;
    SkipField(f, e, 0);
    var after := TagFirst(f);
    assert Encoded(f) + e == f.tag + (after + e);
    ReadComplete(f.tag, after + e);
  }

  /** Unknown fields, nested groups included, can be put between any two fields without changing the result. */
  lemma {:induction false} UnknownFieldIgnored<M>(schema: Schema, merge: Merge<M>, m: M, a: Bytes, f: Field, b: Bytes)
    requires IsUnknown(schema, f) && Decode(schema, merge, m, a).Some?
    ensures Decode(schema, merge, m, a + Encoded(f) + b) == Decode(schema, merge, m, a + b)
  {
    hide Next, Encoded, IsUnknown;
    var m' := Decode(schema, merge, m, a).value;
    var rest := Encoded(f) + b;
    assert a + Encoded(f) + b == a + rest;
    DecodeConcat(schema, merge, m, a, rest);
    DecodeConcat(schema, merge, m, a, b);
    NextUnknown(schema, f, b);
    assert rest[|Encoded(f)|..] == b;
  }

  lemma {:induction false} DecodeUnknowns<M>(schema: Schema, merge: Merge<M>, m: M, fs: seq<Field>, e: Bytes)
    requires forall f :: f in fs ==> IsUnknown(schema, f)
    ensures Decode(schema, merge, m, EncodedAll(fs) + e) == Decode(schema, merge, m, e)
  {
    hide IsUnknown, Encoded, Next;
    if fs == [] {
      assert EncodedAll(fs) + e == e;
    } else {
      var rest := EncodedAll(fs[1..]) + e;
      assert EncodedAll(fs) + e == [] + Encoded(fs[0]) + rest;
      assert [] + rest == rest;
      UnknownFieldIgnored(schema, merge, m, [], fs[0], rest);
      DecodeUnknowns(schema, merge, m, fs[1..], e);
    }
  }
}
