/**
 The language that the generated Unmarshal code accepts (pkg/apis/kynomesh/v1alpha1/generated.pb.go), byte by byte:
 what a varint is, that only well-formed fields are ever skipped, and that a message is accepted exactly when it
 is a sequence of well-formed fields of which the known ones carry their own wire type.
 */
module Grammar {
  import opened Prelude
  import opened Wire

  // ---------------------------------------------------------------- varints

  lemma {:induction false} DivideTwice(v: nat, p: nat)
    requires p > 0
    ensures v / 128 / p == v / (128 * p)
  {
    var a := v / 128;
    var q, r := a / p, a % p;
    assert a == p * q + r;
    assert v == 128 * a + v % 128;
    assert v == 128 * p * q + (128 * r + v % 128);
    QuotientUnique(v, 128 * p, q, 128 * r + v % 128);
  }

  lemma {:induction false} QuotientUnique(v: nat, d: nat, q: nat, r: nat)
    requires d > 0 && v == d * q + r && r < d
    ensures v / d == q
  {
    var q', r' := v / d, v % d;
    assert v == d * q' + r';
    assert d * (q - q') == r' - r;
    if q > q' {
      Product(d, q - q');
    } else if q < q' {
      Product(d, q' - q);
    }
  }

  lemma Product(d: nat, k: int)
    requires d > 0 && k >= 1
    ensures d * k >= d
  {
  }

  /** Byte i of a varint holds seven bits, least significant group first, and says whether another byte follows. */
  lemma {:induction false} VarintBytes(v: nat, i: nat)
    requires i < |Varint(v)|
    ensures Pow128(i) > 0 && Varint(v)[i] == v / Pow128(i) % 128 + if i + 1 < |Varint(v)| then 128 else 0
  {
    if i == 0 {
      assert Pow128(0) == 1;
    } else {
      VarintBytes(v / 128, i - 1);
      DivideTwice(v, Pow128(i - 1));
    }
  }

  /** The number whose groups of seven bits are in `b`, least significant first. */
  function Groups(b: Bytes): nat {
    if b == [] then 0 else b[0] % 128 + 128 * Groups(b[1..])
  }

  /** The first n bytes are a varint: only the last of them says that nothing follows. */
  ghost predicate EndsAt(d: Bytes, n: nat) {
    1 <= n <= |d| && d[n - 1] < 128 && forall i :: 0 <= i < n - 1 ==> d[i] >= 128
  }

  /** A varint that ends within the bytes that are left is read as the number its groups make. */
  lemma {:induction false} ReadGroups(d: Bytes, k: nat, n: nat)
    requires EndsAt(d, n) && k + n <= 10
    ensures ReadVarint(d, k) == Some((Groups(d[..n]), n))
  {
    assert d[..n][1..] == d[1..][..n - 1];
    if n == 1 {
      assert Groups(d[..1][1..]) == 0;
    } else {
      ReadGroups(d[1..], k + 1, n - 1);
    }
  }

  /** Without an end within ten bytes, or within the input, there is no varint. */
  lemma {:induction false} NoVarint(d: Bytes, k: nat)
    requires forall i :: 0 <= i < |d| && k + i < 10 ==> d[i] >= 128
    ensures ReadVarint(d, k).None?
  {
    if k < 10 && d != [] {
      NoVarint(d[1..], k + 1);
    }
  }

  lemma {:induction false} ReadOwnPrefix(d: Bytes, k: nat)
    requires ReadVarint(d, k).Some?
    ensures var (v, n) := ReadVarint(d, k).value; ReadVarint(d[..n], k) == Some((v, n))
  {
    var (v, n) := ReadVarint(d, k).value;
    if d[0] >= 128 {
      ReadOwnPrefix(d[1..], k + 1);
      assert d[..n][1..] == d[1..][..n - 1];
    }
  }

  /** What a reader has read is a complete varint by itself. */
  lemma {:induction false} ReadIsVarint(d: Bytes)
    requires ReadVarint(d, 0).Some?
    ensures var (v, n) := ReadVarint(d, 0).value; IsVarint(d[..n]) && Value(d[..n]) == v
  {
    hide ReadVarint;
    ReadOwnPrefix(d, 0);
  }

  /** A tag is eight times the field number plus the wire type. */
  lemma {:induction false} TagMeans(num: nat, wireType: nat)
    requires 1 <= num < 0x2000_0000 && wireType < 8
    ensures FieldNumber(8 * num + wireType) == num && WireType(8 * num + wireType) == wireType
  {
  }

  // ---------------------------------------------------------------- what is skipped is a field

  /** A turn that leaves the depth alone has moved over one field. */
  lemma {:induction false} SkippedOne(d: Bytes) returns (f: Field)
    requires SkipOne(d).Some? && SkipOne(d).value.1 == 0 && SkipOne(d).value.0 <= |d|
    ensures WellFormed(f) && Encoded(f) == d[..SkipOne(d).value.0] && TagOf(f, d)
  {
    hide ReadVarint, EncodedAll;
    var (raw, n) := ReadVarint(d, 0).value;
    var end := SkipOne(d).value.0;
    ReadIsVarint(d);
    var tag, rest := d[..n], d[n..];
    match WireType(raw)
    case 0 =>
      var k := ReadVarint(rest, 0).value.1;
      ReadIsVarint(rest);
      f := VarintField(tag, rest[..k]);
      assert d[..end] == tag + rest[..k];
    case 1 =>
      f := Fixed64(tag, d[n..end]);
      assert d[..end] == tag + d[n..end];
    case 2 =>
      var k := ReadVarint(rest, 0).value.1;
      ReadIsVarint(rest);
      f := Record(tag, rest[..k], d[n + k..end]);
      assert d[..end] == tag + rest[..k] + d[n + k..end];
    case _ =>
      f := Fixed32(tag, d[n..end]);
      assert d[..end] == tag + d[n..end];
  }

  /** The field starts with the tag at the start of `d`. */
  ghost predicate TagOf(f: Field, d: Bytes) {
    ReadVarint(d, 0).Some? && f.tag == d[..ReadVarint(d, 0).value.1]
  }

  /** A turn that opens or closes a group has moved over its tag. */
  lemma {:induction false} SkippedBracket(d: Bytes)
    requires SkipOne(d).Some? && SkipOne(d).value.1 != 0
    ensures var (n, change) := SkipOne(d).value;
            && n <= |d| && ReadVarint(d, 0).Some? && ReadVarint(d, 0).value.1 == n
            && IsVarint(d[..n]) && WireType(Value(d[..n])) == if change == 1 then 3 else 4
  {
    hide ReadVarint;
    ReadIsVarint(d);
  }

  lemma SkipUnfolds(d: Bytes, depth: nat)
    requires Skip(d, depth).Some? && depth >= 1
    ensures d != [] && SkipOne(d).Some?
    ensures var (n, change) := SkipOne(d).value;
            && (depth + change == 0 ==> Skip(d, depth) == Some(n))
            && (depth + change > 0 ==> n <= |d| && Skip(d, depth) == Plus(n, Skip(d[n..], depth + change)))
  {
    hide SkipOne;
  }

  /** The rest of a group: some fields, the end tag, and then the skip goes on one level further out. */
  lemma {:induction false} SkippedGroup(d: Bytes, depth: nat) returns (fs: seq<Field>, end: Bytes, m: nat)
    requires depth >= 1 && Skip(d, depth).Some? && Skip(d, depth).value <= |d|
    ensures (forall f :: f in fs ==> WellFormed(f)) && IsVarint(end) && WireType(Value(end)) == 4
    ensures 1 <= m <= |d| && d[..m] == EncodedAll(fs) + end && Skip(d, depth) == Plus(m, SkipAfter(d[m..], depth - 1))
    decreases |d|, 2
  {
    hide SkipOne, Skip, ReadVarint, WellFormed, Encoded, WireType;
    SkipUnfolds(d, depth);
    var (n, change) := SkipOne(d).value;
    if change == -1 {
      SkippedBracket(d);
      fs, end, m := [], d[..n], n;
      assert d[..m] == [] + end;
    } else {
      var g, k := SkippedInner(d, depth);
      var rest, e, l := SkippedGroup(d[k..], depth);
      fs, end, m := [g] + rest, e, k + l;
      OneMore(d, g, k, rest, e, l);
      assert d[k..][l..] == d[m..];
    }
  }

  /** A field or a whole group inside a group. */
  lemma {:induction false} SkippedInner(d: Bytes, depth: nat) returns (g: Field, k: nat)
    requires depth >= 1 && Skip(d, depth).Some? && Skip(d, depth).value <= |d|
    requires SkipOne(d).Some? && SkipOne(d).value.1 != -1
    ensures WellFormed(g) && 1 <= k <= |d| && Encoded(g) == d[..k] && TagOf(g, d)
    ensures Skip(d, depth) == Plus(k, Skip(d[k..], depth))
    decreases |d|, 1
  {
    hide SkipOne, Skip, ReadVarint, WellFormed, WireType;
    SkipUnfolds(d, depth);
    var (n, change) := SkipOne(d).value;
    if change == 0 {
      g := SkippedOne(d);
      k := n;
    } else {
      g, k := SkippedWhole(d, depth);
    }
  }

  lemma {:induction false} SkippedWhole(d: Bytes, depth: nat) returns (g: Field, k: nat)
    requires SkipOne(d).Some? && SkipOne(d).value.1 == 1 && SkipOne(d).value.0 <= |d|
    requires var n := SkipOne(d).value.0;
             Skip(d[n..], depth + 1).Some? && Skip(d[n..], depth + 1).value <= |d| - n
    ensures WellFormed(g) && 1 <= k <= |d| && Encoded(g) == d[..k] && TagOf(g, d)
    ensures var n := SkipOne(d).value.0;
            Plus(n, Skip(d[n..], depth + 1)) == Plus(k, SkipAfter(d[k..], depth))
    decreases |d|, 0
  {
    hide SkipOne, Skip, ReadVarint, WireType;
    var n := SkipOne(d).value.0;
    SkippedBracket(d);
    var fs, end, m := SkippedGroup(d[n..], depth + 1);
    g, k := Group(d[..n], fs, end), n + m;
    assert d[..k] == d[..n] + d[n..][..m];
    assert d[n..][m..] == d[k..];
  }

  lemma {:induction false} OneMore(d: Bytes, g: Field, k: nat, fs: seq<Field>, end: Bytes, l: nat)
    requires k <= |d| && l <= |d| - k && Encoded(g) == d[..k] && d[k..][..l] == EncodedAll(fs) + end
    ensures d[..k + l] == EncodedAll([g] + fs) + end
  {
    assert ([g] + fs)[1..] == fs;
    assert d[..k + l] == d[..k] + d[k..][..l];
  }

  /** The skipper moves over nothing but well-formed fields: what it skips inside its input is one. */
  lemma {:induction false} SkippedIsField(d: Bytes) returns (f: Field)
    requires Skip(d, 0).Some? && Skip(d, 0).value <= |d|
    ensures WellFormed(f) && Encoded(f) == d[..Skip(d, 0).value] && TagOf(f, d)
  {
    hide SkipOne, ReadVarint, WellFormed, Encoded, WireType, TagOf;
    var (n, change) := SkipOne(d).value;
    if change == 0 {
      f := SkippedOne(d);
    } else {
      var k;
      f, k := SkippedWhole(d, 0);
    }
  }

  /** So a field is what the skipper skips, and what the skipper skips is a field. */
  lemma {:induction false} SkipIff(d: Bytes, n: nat)
    requires n <= |d|
    ensures Skip(d, 0) == Some(n) <==> exists f :: WellFormed(f) && Encoded(f) == d[..n]
  {
    hide Skip, WellFormed, Encoded;
    if Skip(d, 0) == Some(n) {
      var f := SkippedIsField(d);
    }
    if f :| WellFormed(f) && Encoded(f) == d[..n] {
      assert d == Encoded(f) + d[n..];
      SkipField(f, d[n..], 0);
    }
  }

  // ---------------------------------------------------------------- what is decoded is a sequence of fields

  /** A positive field number and, if the number is known, the wire type that goes with it. */
  ghost predicate Acceptable(schema: Schema, f: Field) {
    && WellFormed(f) && FieldNumber(Value(f.tag)) > 0
    && match schema(FieldNumber(Value(f.tag)))
       case None => true
       case Some(Number) => f.VarintField?
       case Some(Text) => f.Record?
  }

  /** What a message gets to see of a field. */
  ghost function EventOf(schema: Schema, f: Field): Event
    requires Acceptable(schema, f)
  {
    var num := FieldNumber(Value(f.tag));
    match schema(num)
    case None => Unknown
    case Some(Number) => NumberField(num, Value(f.value) % U64)
    case Some(Text) => TextField(num, f.data)
  }

  ghost function Fold<M>(schema: Schema, merge: Merge<M>, m: M, fs: seq<Field>): Option<M>
    requires forall f :: f in fs ==> Acceptable(schema, f)
  {
    if fs == [] then Some(m)
    else
      var event := EventOf(schema, fs[0]);
      var m' := if event.Unknown? then Some(m) else merge(m, event);
      if m'.None? then None else Fold(schema, merge, m'.value, fs[1..])
  }

  lemma {:induction false} NextOf(schema: Schema, f: Field, e: Bytes)
    requires Acceptable(schema, f)
    ensures Encoded(f) != [] && Next(schema, Encoded(f) + e) == Some((EventOf(schema, f), |Encoded(f)|))
  {
    hide ReadVarint, Skip, FieldNumber, EncodedAll;
    if schema(FieldNumber(Value(f.tag))).None? {
      NextUnknown(schema, f, e);
    } else {
      NextKnown(schema, f, e);
    }
  }

  lemma {:induction false} NextKnown(schema: Schema, f: Field, e: Bytes)
    requires Acceptable(schema, f) && schema(FieldNumber(Value(f.tag))).Some?
    ensures Encoded(f) != [] && Next(schema, Encoded(f) + e) == Some((EventOf(schema, f), |Encoded(f)|))
  {
    hide ReadVarint, Skip, FieldNumber, EncodedAll;
    if f.VarintField? {
      assert Encoded(f) + e == f.tag + (f.value + e);
      ReadComplete(f.tag, f.value + e);
      ReadComplete(f.value, e);
    } else {
      assert Encoded(f) + e == f.tag + (f.length + (f.data + e));
      ReadComplete(f.tag, f.length + (f.data + e));
      ReadComplete(f.length, f.data + e);
      var d, n := f.length + (f.data + e), |f.length|;
      assert d[n..n + |f.data|] == f.data;
    }
  }

  /** A sequence of acceptable fields is decoded by folding them, in order. */
  lemma {:induction false} DecodeFields<M>(schema: Schema, merge: Merge<M>, m: M, fs: seq<Field>)
    requires forall f :: f in fs ==> Acceptable(schema, f)
    ensures Decode(schema, merge, m, EncodedAll(fs)) == Fold(schema, merge, m, fs)
    decreases |fs|
  {
    hide Next, Encoded, Acceptable, EventOf;
    if fs != [] {
      var rest := EncodedAll(fs[1..]);
      NextOf(schema, fs[0], rest);
      var event := EventOf(schema, fs[0]);
      assert EncodedAll(fs) == Encoded(fs[0]) + rest && (Encoded(fs[0]) + rest)[|Encoded(fs[0])|..] == rest;
      var m' := if event.Unknown? then Some(m) else merge(m, event);
      if m'.Some? {
        DecodeFields(schema, merge, m'.value, fs[1..]);
      }
    }
  }

  lemma {:induction false} NextIsField(schema: Schema, d: Bytes) returns (f: Field)
    requires Next(schema, d).Some?
    ensures Acceptable(schema, f) && Encoded(f) == d[..Next(schema, d).value.1]
  {
    hide ReadVarint, Skip, FieldNumber, EncodedAll;
    var (raw, n) := ReadVarint(d, 0).value;
    var num, end := FieldNumber(raw), Next(schema, d).value.1;
    var tag, rest := d[..n], d[n..];
    ReadIsVarint(d);
    match schema(num)
    case None =>
      f := SkippedIsField(d);
    case Some(Number) =>
      var k := ReadVarint(rest, 0).value.1;
      ReadIsVarint(rest);
      f := VarintField(tag, rest[..k]);
      assert d[..end] == tag + rest[..k];
    case Some(Text) =>
      var k := ReadVarint(rest, 0).value.1;
      ReadIsVarint(rest);
      f := Record(tag, rest[..k], d[n + k..end]);
      assert d[..end] == tag + rest[..k] + d[n + k..end];
  }

  /** Whatever is decoded is such a sequence. */
  lemma {:induction false} DecodedIsFields<M>(schema: Schema, merge: Merge<M>, m: M, d: Bytes) returns (fs: seq<Field>)
    requires Decode(schema, merge, m, d).Some?
    ensures (forall f :: f in fs ==> Acceptable(schema, f)) && EncodedAll(fs) == d
    decreases |d|
  {
    hide Next, Encoded, Acceptable;
    if d == [] {
      fs := [];
    } else {
      var (event, n) := Next(schema, d).value;
      var f := NextIsField(schema, d);
      var m' := if event.Unknown? then m else merge(m, event).value;
      var rest := DecodedIsFields(schema, merge, m', d[n..]);
      fs := [f] + rest;
      assert fs[1..] == rest && d == d[..n] + d[n..];
    }
  }

  /**
   A message is accepted exactly when it is a sequence of acceptable fields that the message can take in, and then
   it is what taking them in makes of it.
   */
  lemma {:induction false} DecodeIff<M>(schema: Schema, merge: Merge<M>, m: M, d: Bytes, result: M)
    ensures Decode(schema, merge, m, d) == Some(result) <==>
              exists fs :: (forall f :: f in fs ==> Acceptable(schema, f)) && EncodedAll(fs) == d
                           && Fold(schema, merge, m, fs) == Some(result)
  {
    hide Acceptable, Fold, Decode;
    if Decode(schema, merge, m, d) == Some(result) {
      var fs := DecodedIsFields(schema, merge, m, d);
      DecodeFields(schema, merge, m, fs);
    }
    if fs: seq<Field> :| (forall f :: f in fs ==> Acceptable(schema, f)) && EncodedAll(fs) == d
                         && Fold(schema, merge, m, fs) == Some(result) {
      DecodeFields(schema, merge, m, fs);
    }
  }
}
