/**
 The generated Marshal and Unmarshal code itself (pkg/apis/kynomesh/v1alpha1/generated.pb.go): a printer that
 fills a buffer from its end backwards, and parsers that walk an index over the input.
 */
module Codec {
  import opened Prelude
  import opened ApiTypes
  import opened Wire
  import opened Messages

  // ---------------------------------------------------------------- marshalling

  lemma SplitAt(a: array<byte>, lo: nat, mid: nat, hi: nat)
    requires lo <= mid <= hi <= a.Length
    ensures a[lo..hi] == a[lo..mid] + a[mid..hi]
  {
  }

  lemma VarintStep(v: nat)
    ensures Varint(v) == if v < 128 then [v] else [v % 128 + 128] + Varint(v / 128)
  {
  }

  /** encodeVarintGenerated: write v so that it ends just before `offset`. */
  method EncodeVarint(dAtA: array<byte>, offset: nat, v: nat) returns (base: nat)
    requires Sov(v) <= offset <= dAtA.Length
    modifies dAtA
    ensures base == offset - Sov(v)
    ensures dAtA[base..offset] == Varint(v)
    ensures forall k :: 0 <= k < base || offset <= k < dAtA.Length ==> dAtA[k] == old(dAtA[k])
  {
    hide Sov, Varint;
    SovIsLength(v);
    base := offset - Sov(v);
    var at, rest := base, v;
    while rest >= 128
      invariant base <= at && at + |Varint(rest)| == offset
      invariant dAtA[base..at] + Varint(rest) == Varint(v)
      invariant forall k :: 0 <= k < base || offset <= k < dAtA.Length ==> dAtA[k] == old(dAtA[k])
      decreases rest
    {
      VarintStep(rest);
      ghost var written := dAtA[base..at];
      dAtA[at] := rest % 128 + 128;
      assert dAtA[base..at + 1] == written + [rest % 128 + 128];
      rest := rest / 128;
      at := at + 1;
    }
    VarintStep(rest);
    ghost var written := dAtA[base..at];
    dAtA[at] := rest;
    assert dAtA[base..offset] == written + [rest];
  }

  /** A string field: its bytes, their length and the tag, written backwards. */
  method WriteText(dAtA: array<byte>, end: nat, tag: byte, s: Bytes) returns (i: nat)
    requires SizeText(|s|) <= end <= dAtA.Length
    modifies dAtA
    ensures i == end - SizeText(|s|)
    ensures dAtA[i..end] == TextBytes(tag, s)
    ensures forall k :: 0 <= k < i || end <= k < dAtA.Length ==> dAtA[k] == old(dAtA[k])
  {
    hide Sov, Varint;
    i := end - |s|;
    forall k | 0 <= k < |s| {
      dAtA[i + k] := s[k];
    }
    assert dAtA[i..end] == s;
    ghost var text := i;
    i := EncodeVarint(dAtA, i, |s|);
    assert dAtA[text..end] == s;
    assert dAtA[i..end] == Varint(|s|) + s;
    i := i - 1;
    dAtA[i] := tag;
    assert dAtA[i..end] == [tag] + dAtA[i + 1..end];
  }

  /** A varint field, written backwards. */
  method WriteNumber(dAtA: array<byte>, end: nat, tag: byte, v: nat) returns (i: nat)
    requires 1 + Sov(v) <= end <= dAtA.Length
    modifies dAtA
    ensures i == end - 1 - Sov(v)
    ensures dAtA[i..end] == NumberBytes(tag, v)
    ensures forall k :: 0 <= k < i || end <= k < dAtA.Length ==> dAtA[k] == old(dAtA[k])
  {
    hide Sov, Varint;
    i := EncodeVarint(dAtA, end, v);
    i := i - 1;
    dAtA[i] := tag;
    assert dAtA[i..end] == [tag] + dAtA[i + 1..end];
  }

  /** A bool field, written backwards. */
  method WriteBool(dAtA: array<byte>, end: nat, tag: byte, b: bool) returns (i: nat)
    requires 2 <= end <= dAtA.Length
    modifies dAtA
    ensures i == end - 2
    ensures dAtA[i..end] == [tag, BoolByte(b)]
    ensures forall k :: 0 <= k < i || end <= k < dAtA.Length ==> dAtA[k] == old(dAtA[k])
  {
    i := end - 1;
    dAtA[i] := BoolByte(b);
    i := i - 1;
    dAtA[i] := tag;
  }

  /** Peer.MarshalToSizedBuffer on dAtA[:end]. */
  method MarshalPeer(p: PeerMsg, dAtA: array<byte>, end: nat) returns (size: nat)
    requires SizePeer(p) <= end <= dAtA.Length
    modifies dAtA
    ensures size == SizePeer(p)
    ensures dAtA[end - size..end] == EncodePeer(p)
    ensures forall k :: 0 <= k < end - size || end <= k < dAtA.Length ==> dAtA[k] == old(dAtA[k])
  {
    hide TextBytes, SizeText;
    var i := WriteText(dAtA, end, 0x1a, p.url);
    ghost var afterUrl := dAtA[i..end];
    ghost var url := i;
    i := WriteText(dAtA, i, 0x12, p.kind);
    assert dAtA[url..end] == afterUrl;
    SplitAt(dAtA, i, url, end);
    ghost var kind := i;
    i := WriteText(dAtA, i, 0x0a, p.name);
    assert dAtA[kind..end] == TextBytes(0x12, p.kind) + afterUrl;
    SplitAt(dAtA, i, kind, end);
    size := end - i;
  }

  /** Topology.MarshalToSizedBuffer on dAtA[:end]; the peers go in from the last to the first. */
  method MarshalTopology(t: TopologyMsg, dAtA: array<byte>, end: nat) returns (size: nat)
    requires SizeTopology(t) <= end <= dAtA.Length
    modifies dAtA
    ensures size == SizeTopology(t)
    ensures dAtA[end - size..end] == EncodeTopology(t)
    ensures forall k :: 0 <= k < end - size || end <= k < dAtA.Length ==> dAtA[k] == old(dAtA[k])
  {
    hide TextBytes, EncodePeer, SizePeer, EncodePeers, SizePeers, SizeText;
    var i := MarshalPeers(t.peers, dAtA, end);
    ghost var peers, peersAt := dAtA[i..end], i;
    i := WriteBool(dAtA, i, 0x10, t.isEntry);
    assert dAtA[peersAt..end] == peers;
    SplitAt(dAtA, i, peersAt, end);
    ghost var rest, restAt := dAtA[i..end], i;
    i := WriteText(dAtA, i, 0x0a, t.pattern);
    assert dAtA[restAt..end] == rest;
    SplitAt(dAtA, i, restAt, end);
    size := end - i;
  }

  method MarshalPeers(ps: seq<PeerMsg>, dAtA: array<byte>, end: nat) returns (i: nat)
    requires SizePeers(ps) <= end <= dAtA.Length
    modifies dAtA
    ensures i == end - SizePeers(ps)
    ensures dAtA[i..end] == EncodePeers(ps)
    ensures forall k :: 0 <= k < i || end <= k < dAtA.Length ==> dAtA[k] == old(dAtA[k])
  {
    hide TextBytes, EncodePeer, SizePeer, SizeText, EncodePeers, SizePeers;
    i := end;
    NoPeers(ps);
    for k := |ps| downto 0
      invariant 0 <= i <= end && i == end - SizePeers(ps[k..])
      invariant dAtA[i..end] == EncodePeers(ps[k..])
      invariant forall j :: 0 <= j < i || end <= j < dAtA.Length ==> dAtA[j] == old(dAtA[j])
    {
      PeersSuffix(ps, k);
      ghost var tail, tailAt := dAtA[i..end], i;
      i := MarshalOne(ps[k], dAtA, i);
      assert dAtA[tailAt..end] == tail;
      SplitAt(dAtA, i, tailAt, end);
    }
    assert ps[0..] == ps;
  }

  lemma NoPeers(ps: seq<PeerMsg>)
    ensures SizePeers(ps[|ps|..]) == 0 && EncodePeers(ps[|ps|..]) == []
  {
  }

  /** One nested peer: its bytes, their number and the tag. */
  method MarshalOne(p: PeerMsg, dAtA: array<byte>, end: nat) returns (i: nat)
    requires SizeText(SizePeer(p)) <= end <= dAtA.Length
    modifies dAtA
    ensures i == end - SizeText(SizePeer(p))
    ensures dAtA[i..end] == TextBytes(0x1a, EncodePeer(p))
    ensures forall k :: 0 <= k < i || end <= k < dAtA.Length ==> dAtA[k] == old(dAtA[k])
  {
    hide EncodePeer, SizePeer, Varint, Sov;
    var size := MarshalPeer(p, dAtA, end);
    i := end - size;
    ghost var text := i;
    i := EncodeVarint(dAtA, i, size);
    assert dAtA[text..end] == EncodePeer(p);
    SplitAt(dAtA, i, text, end);
    ghost var sized := dAtA[i..end];
    i := i - 1;
    dAtA[i] := 0x1a;
    assert dAtA[i + 1..end] == sized;
    assert dAtA[i..end] == [0x1a] + dAtA[i + 1..end];
  }

  /** The peers from `k` on need no more room than all of them. */
  lemma {:induction false} PeersSuffix(ps: seq<PeerMsg>, k: nat)
    requires k < |ps|
    ensures SizePeers(ps[k..]) == SizeText(SizePeer(ps[k])) + SizePeers(ps[k + 1..])
    ensures EncodePeers(ps[k..]) == TextBytes(0x1a, EncodePeer(ps[k])) + EncodePeers(ps[k + 1..])
    ensures SizePeers(ps[k..]) <= SizePeers(ps)
  {
    hide SizePeer, SizeText, TextBytes, EncodePeer;
    assert ps[k..][1..] == ps[k + 1..];
    if k == 0 {
      assert ps[0..] == ps;
    } else {
      PeersSuffix(ps[1..], k - 1);
      assert ps[1..][k - 1..] == ps[k..];
    }
  }

  /** Topology.Marshal: a buffer of exactly Size bytes, filled completely. */
  method TopologyMarshal(t: TopologyMsg) returns (d: Bytes)
    ensures |d| == SizeTopology(t) && d == EncodeTopology(t)
  {
    var size := SizeTopology(t);
    var dAtA := new byte[size];
    var n := MarshalTopology(t, dAtA, size);
    d := dAtA[..n];
  }

  /** An optional varint field in front of what is already written at [i, end). */
  method MarshalOption(dAtA: array<byte>, i: nat, ghost end: nat, tag: byte, v: Option<int>) returns (i': nat)
    requires v.Some? ==> -0x8000_0000 <= v.value < U32
    requires SizeOption(v) <= i <= end <= dAtA.Length
    modifies dAtA
    ensures i' == i - SizeOption(v)
    ensures dAtA[i'..end] == OptionBytes(tag, v) + old(dAtA[i..end])
    ensures forall k :: 0 <= k < i' || end <= k < dAtA.Length ==> dAtA[k] == old(dAtA[k])
  {
    hide NumberBytes, Sov;
    i' := i;
    if v.Some? {
      i' := WriteNumber(dAtA, i, tag, Uint64(v.value));
      assert dAtA[i..end] == old(dAtA[i..end]);
      SplitAt(dAtA, i', i, end);
    }
  }

  /** Scale.MarshalToSizedBuffer on dAtA[:end]. */
  method MarshalScale(s: Scale, dAtA: array<byte>, end: nat) returns (size: nat)
    requires SizeScale(s) <= end <= dAtA.Length
    modifies dAtA
    ensures size == SizeScale(s)
    ensures dAtA[end - size..end] == EncodeScale(s)
    ensures forall k :: 0 <= k < end - size || end <= k < dAtA.Length ==> dAtA[k] == old(dAtA[k])
  {
    hide ScaleOptions, SizeOption;
    var i := MarshalOptions(s, dAtA, end);
    ghost var options, optionsAt := dAtA[i..end], i;
    i := WriteBool(dAtA, i, 0x08, s.disabled);
    assert dAtA[optionsAt..end] == options;
    SplitAt(dAtA, i, optionsAt, end);
    size := end - i;
  }

  method MarshalOptions(s: Scale, dAtA: array<byte>, end: nat) returns (i: nat)
    requires SizeScale(s) <= end <= dAtA.Length
    modifies dAtA
    ensures i == end - (SizeScale(s) - 2)
    ensures dAtA[i..end] == ScaleOptions(s)
    ensures forall k :: 0 <= k < i || end <= k < dAtA.Length ==> dAtA[k] == old(dAtA[k])
  {
    hide OptionBytes, SizeOption, EncodeScale;
    i := MarshalTailOptions(s, dAtA, end);
    i := MarshalOption(dAtA, i, end, 0x20, s.targetSaturationPercentage);
    i := MarshalOption(dAtA, i, end, 0x18, s.max);
    i := MarshalOption(dAtA, i, end, 0x10, s.min);
  }

  /** Fields 5 to 8, the last one first. */
  method MarshalTailOptions(s: Scale, dAtA: array<byte>, end: nat) returns (i: nat)
    requires SizeScale(s) <= end <= dAtA.Length
    modifies dAtA
    ensures end - i == SizeOption(s.scaleUpCooldownSeconds) + SizeOption(s.scaleDownCooldownSeconds)
                       + SizeOption(s.replicasPerScaleUp) + SizeOption(s.replicasPerScaleDown)
    ensures dAtA[i..end] == OptionBytes(0x28, s.scaleUpCooldownSeconds)
                            + (OptionBytes(0x30, s.scaleDownCooldownSeconds)
                            + (OptionBytes(0x38, s.replicasPerScaleUp)
                            + (OptionBytes(0x40, s.replicasPerScaleDown)
                            + [])))
    ensures forall k :: 0 <= k < i || end <= k < dAtA.Length ==> dAtA[k] == old(dAtA[k])
  {
    hide OptionBytes, SizeOption;
    i := MarshalOption(dAtA, end, end, 0x40, s.replicasPerScaleDown);
    i := MarshalOption(dAtA, i, end, 0x38, s.replicasPerScaleUp);
    i := MarshalOption(dAtA, i, end, 0x30, s.scaleDownCooldownSeconds);
    i := MarshalOption(dAtA, i, end, 0x28, s.scaleUpCooldownSeconds);
  }

  /** Scale.Marshal */
  method ScaleMarshal(s: Scale) returns (d: Bytes)
    ensures |d| == SizeScale(s) && d == EncodeScale(s)
  {
    hide EncodeScale, SizeScale;
    ScaleSize(s);
    var size := SizeScale(s);
    var dAtA := new byte[size];
    var n := MarshalScale(s, dAtA, size);
    d := dAtA[..n];
  }

  // ---------------------------------------------------------------- unmarshalling

  datatype Error =
    | IntOverflow | UnexpectedEOF | InvalidLength | EndGroup | IllegalTag | WrongWireType
    | UnexpectedEndOfGroup | IllegalWireType

  ghost function Shifted(r: Option<(nat, nat)>, raw: nat, scale: nat, k: nat): Option<(nat, nat)> {
    if r.None? then None else Some((raw + scale * r.value.0, k + r.value.1))
  }

  lemma {:induction false} ShiftStep(d: Bytes, raw: nat, scale: nat, k: nat)
    requires d != [] && k < 10 && d[0] >= 128
    ensures Shifted(ReadVarint(d, k), raw, scale, k)
            == Shifted(ReadVarint(d[1..], k + 1), raw + d[0] % 128 * scale, scale * 128, k + 1)
  {
    var rest := ReadVarint(d[1..], k + 1);
    if rest.Some? {
      Distribute(scale, d[0] % 128, rest.value.0);
    }
  }

  lemma Distribute(scale: nat, low: nat, high: nat)
    ensures scale * (low + 128 * high) == low * scale + scale * 128 * high
  {
  }

  lemma {:induction false} AddModulo(raw: nat, x: nat, m: nat)
    requires m > 0
    ensures (raw % m + x) % m == (raw + x) % m
  {
    var q, r := raw / m, (raw % m + x) % m;
    var t := (raw % m + x) / m;
    assert raw == m * q + raw % m;
    assert raw + x == m * (q + t) + r;
    ModuloUnique(raw + x, m, q + t, r);
  }

  lemma {:induction false} ModuloUnique(a: nat, m: nat, q: nat, r: nat)
    requires m > 0 && a == m * q + r && r < m
    ensures a % m == r
  {
    var apart := a / m - q;
    assert m * apart == m * (a / m) - m * q;
    assert m * apart == r - a % m;
    Multiple(m, apart);
  }

  lemma Multiple(m: nat, x: int)
    requires m > 0
    ensures x >= 1 ==> m * x >= m
    ensures x <= -1 ==> m * x + m <= 0
  {
  }

  /** The varint loop that every Unmarshal repeats; `|=` with a shift adds, and keeps the low 64 bits. */
  method DecodeVarint(d: Bytes, start: nat) returns (err: Option<Error>, v: nat, iNdEx: nat)
    requires start <= |d|
    ensures err.None? <==> ReadVarint(d[start..], 0).Some?
    ensures err.None? ==> var r := ReadVarint(d[start..], 0).value; v == r.0 % U64 && iNdEx == start + r.1 <= |d|
  {
    hide ReadVarint, Shifted;
    var k, scale: nat := 0, 1;
    err, v, iNdEx := None, 0, start;
    ghost var raw: nat := 0;
    ShiftNone(ReadVarint(d[start..], 0));
    while true
      invariant err.None? && iNdEx == start + k <= |d| && k <= 10
      invariant v == raw % U64
      invariant Shifted(ReadVarint(d[iNdEx..], k), raw, scale, k) == ReadVarint(d[start..], 0)
      decreases |d| - iNdEx
    {
      ReadCases(d[iNdEx..], raw, scale, k);
      if 7 * k >= 64 {
        err := Some(IntOverflow);
        return;
      }
      if iNdEx >= |d| {
        err := Some(UnexpectedEOF);
        return;
      }
      var b := d[iNdEx];
      iNdEx := iNdEx + 1;
      ghost var x := b % 128 * scale;
      AddModulo(raw, x, U64);
      v := (v + b % 128 * scale) % U64;
      if b < 128 {
        return;
      }
      ShiftStep(d[iNdEx - 1..], raw, scale, k);
      assert d[iNdEx - 1..][1..] == d[iNdEx..];
      raw, scale, k := raw + x, scale * 128, k + 1;
    }
  }

  lemma ReadCases(d: Bytes, raw: nat, scale: nat, k: nat)
    ensures k >= 10 || d == [] ==> Shifted(ReadVarint(d, k), raw, scale, k).None?
    ensures k < 10 && d != [] && d[0] < 128 ==>
              Shifted(ReadVarint(d, k), raw, scale, k) == Some((raw + d[0] % 128 * scale, k + 1))
  {
  }

  lemma ShiftNone(r: Option<(nat, nat)>)
    ensures Shifted(r, 0, 1, 0) == r
  {
  }

  /** skipGenerated: the length of a field with all its groups, unless its end is beyond the int range. */
  method SkipGenerated(d: Bytes) returns (err: Option<Error>, iNdEx: nat)
    requires |d| < I63
    ensures err.None? <==> Skip(d, 0).Some? && Skip(d, 0).value < I63
    ensures err.None? ==> Skip(d, 0) == Some(iNdEx)
  {
    hide ReadVarint, Skip, SkipOne;
    var depth: nat := 0;
    err, iNdEx := None, 0;
    assert d[0..] == d;
    while iNdEx < |d|
      invariant err.None?
      invariant iNdEx <= |d| ==> Skip(d, 0) == Plus(iNdEx, Skip(d[iNdEx..], depth))
      invariant iNdEx > |d| ==> Skip(d, 0).None?
      decreases |d| - iNdEx
    {
      ghost var from, depth0 := iNdEx, depth;
      var change;
      SkipStuck(d[from..], depth);
      err, change, iNdEx := SkipTurnOnce(d, iNdEx);
      if err.Some? {
        return;
      }
      if depth == 0 && change < 0 {
        err := Some(UnexpectedEndOfGroup);
        return;
      }
      depth := depth + change;
      SkipUnfold(d[from..], depth0, iNdEx - from, change);
      if iNdEx >= I63 {
        err := Some(InvalidLength);
        return;
      }
      if depth == 0 {
        return;
      }
      assert iNdEx <= |d| ==> d[from..][iNdEx - from..] == d[iNdEx..];
    }
    assert iNdEx == |d| ==> d[iNdEx..] == [];
    SkipNothing(depth);
    err := Some(UnexpectedEOF);
  }

  lemma {:induction false} SkipUnfold(d: Bytes, depth: nat, n: nat, change: int)
    requires d != [] && SkipOne(d) == Some((n, change)) && depth + change >= 0
    ensures depth + change == 0 ==> Skip(d, depth) == Some(n)
    ensures depth + change > 0 && n <= |d| ==> Skip(d, depth) == Plus(n, Skip(d[n..], depth + change))
    ensures depth + change > 0 && n > |d| ==> Skip(d, depth).None?
  {
    hide SkipOne;
  }

  lemma SkipStuck(d: Bytes, depth: nat)
    requires d != []
    ensures SkipOne(d).None? || (depth == 0 && SkipOne(d).value.1 < 0) ==> Skip(d, depth).None?
  {
    hide SkipOne;
  }

  lemma SkipNothing(depth: nat)
    ensures Skip([], depth).None?
  {
  }

  /** The body of skipGenerated's loop: one tag and what its wire type says follows. */
  method SkipTurnOnce(d: Bytes, from: nat) returns (err: Option<Error>, change: int, iNdEx: nat)
    requires from < |d|
    ensures err.None? <==> SkipOne(d[from..]).Some?
    ensures err.None? ==> SkipOne(d[from..]) == Some((iNdEx - from, change)) && from < iNdEx
  {
    hide ReadVarint;
    var wire;
    change := 0;
    err, wire, iNdEx := DecodeVarint(d, from);
    if err.Some? {
      return;
    }
    ghost var at := iNdEx;
    assert d[from..][at - from..] == d[at..];
    match wire % 8
    case 0 =>
      var ignored;
      err, ignored, iNdEx := DecodeVarint(d, iNdEx);
    case 1 =>
      iNdEx := iNdEx + 8;
    case 2 =>
      var length;
      err, length, iNdEx := DecodeVarint(d, iNdEx);
      if err.None? && length >= I63 {
        err := Some(InvalidLength);
      }
      if err.None? {
        iNdEx := iNdEx + length;
      }
    case 3 =>
      change := 1;
    case 4 =>
      change := -1;
    case 5 =>
      iNdEx := iNdEx + 4;
    case _ =>
      err := Some(IllegalWireType);
  }

  /** A length and that many bytes; the sum of index and length must stay in the int range. */
  method DecodeBytes(d: Bytes, start: nat) returns (err: Option<Error>, b: Bytes, iNdEx: nat)
    requires start <= |d| < I63
    ensures err.None? <==> ReadBytes(d[start..]).Some?
    ensures err.None? ==> iNdEx <= |d| && ReadBytes(d[start..]) == Some((b, iNdEx - start))
  {
    hide ReadVarint;
    var length;
    b := [];
    err, length, iNdEx := DecodeVarint(d, start);
    if err.Some? {
      return;
    }
    if length >= I63 || iNdEx + length >= I63 {
      err := Some(InvalidLength);
      return;
    }
    var postIndex := iNdEx + length;
    if postIndex > |d| {
      err := Some(UnexpectedEOF);
      return;
    }
    b := d[iNdEx..postIndex];
    assert d[start..][iNdEx - start..postIndex - start] == b;
    iNdEx := postIndex;
  }

  /** One turn of an Unmarshal loop: the tag, then the payload of a known field or the skipping of an unknown one. */
  method DecodeField(schema: Schema, d: Bytes, preIndex: nat) returns (err: Option<Error>, event: Event, iNdEx: nat)
    requires preIndex < |d| < I63
    ensures err.None? <==> Next(schema, d[preIndex..]).Some?
    ensures err.None? ==> preIndex < iNdEx <= |d| && Next(schema, d[preIndex..]) == Some((event, iNdEx - preIndex))
  {
    hide ReadVarint, Skip, ReadBytes;
    var wire;
    event := Unknown;
    err, wire, iNdEx := DecodeVarint(d, preIndex);
    if err.Some? {
      return;
    }
    assert d[preIndex..][iNdEx - preIndex..] == d[iNdEx..];
    var fieldNum, wireType := Signed32(wire / 8 % U32), wire % 8;
    if wireType == 4 {
      err := Some(EndGroup);
      return;
    }
    if fieldNum <= 0 {
      err := Some(IllegalTag);
      return;
    }
    match schema(fieldNum)
    case Some(Number) =>
      if wireType != 0 {
        err := Some(WrongWireType);
        return;
      }
      var v;
      err, v, iNdEx := DecodeVarint(d, iNdEx);
      event := NumberField(fieldNum, v);
    case Some(Text) =>
      if wireType != 2 {
        err := Some(WrongWireType);
        return;
      }
      var b;
      err, b, iNdEx := DecodeBytes(d, iNdEx);
      event := TextField(fieldNum, b);
    case None =>
      var skippy;
      err, skippy := SkipGenerated(d[preIndex..]);
      if err.Some? {
        return;
      }
      if preIndex + skippy > |d| {
        err := Some(UnexpectedEOF);
        return;
      }
      iNdEx := preIndex + skippy;
  }

  /** What a Decode of the rest makes of the next field. */
  lemma {:induction false} DecodeTurn<M>(schema: Schema, merge: Merge<M>, m: M, d: Bytes, i: nat, event: Event, n: nat)
    requires i < n <= |d| && Next(schema, d[i..]) == Some((event, n - i))
    ensures Decode(schema, merge, m, d[i..])
            == (var m' := if event.Unknown? then Some(m) else merge(m, event);
                if m'.None? then None else Decode(schema, merge, m'.value, d[n..]))
  {
    hide Next;
    assert d[i..][n - i..] == d[n..];
  }

  /** Peer.Unmarshal into m0 */
  method UnmarshalPeer(m0: PeerMsg, d: Bytes) returns (err: Option<Error>, m: PeerMsg)
    requires |d| < I63
    ensures err.None? <==> DecodePeer(m0, d).Some?
    ensures err.None? ==> DecodePeer(m0, d) == Some(m)
  {
    hide Next;
    err, m := None, m0;
    var iNdEx := 0;
    assert d[0..] == d;
    while iNdEx < |d|
      invariant iNdEx <= |d| && err.None?
      invariant DecodePeer(m, d[iNdEx..]) == DecodePeer(m0, d)
      decreases |d| - iNdEx
    {
      var event, next;
      err, event, next := DecodeField(PeerSchema, d, iNdEx);
      if err.Some? {
        return;
      }
      DecodeTurn(PeerSchema, PeerMerge, m, d, iNdEx, event, next);
      if event.TextField? {
        if event.num == 1 {
          m := m.(name := event.bytes);
        } else if event.num == 2 {
          m := m.(kind := event.bytes);
        } else {
          m := m.(url := event.bytes);
        }
      }
      iNdEx := next;
    }
  }

  /** Topology.Unmarshal into m0 */
  method UnmarshalTopology(m0: TopologyMsg, d: Bytes) returns (err: Option<Error>, m: TopologyMsg)
    requires |d| < I63
    ensures err.None? <==> DecodeTopology(m0, d).Some?
    ensures err.None? ==> DecodeTopology(m0, d) == Some(m)
  {
    hide Next, DecodePeer;
    err, m := None, m0;
    var iNdEx := 0;
    assert d[0..] == d;
    while iNdEx < |d|
      invariant iNdEx <= |d| && err.None?
      invariant DecodeTopology(m, d[iNdEx..]) == DecodeTopology(m0, d)
      decreases |d| - iNdEx
    {
      var event, next;
      err, event, next := DecodeField(TopologySchema, d, iNdEx);
      if err.Some? {
        return;
      }
      DecodeTurn(TopologySchema, TopologyMerge, m, d, iNdEx, event, next);
      if event.NumberField? {
        m := m.(isEntry := event.value != 0);
      } else if event.TextField? && event.num == 1 {
        m := m.(pattern := event.bytes);
      } else if event.TextField? {
        var p;
        err, p := UnmarshalPeer(EMPTY_PEER, event.bytes);
        if err.Some? {
          return;
        }
        m := m.(peers := m.peers + [p]);
      }
      iNdEx := next;
    }
  }

  /** Scale.Unmarshal into m0 */
  method UnmarshalScale(m0: Scale, d: Bytes) returns (err: Option<Error>, m: Scale)
    requires |d| < I63
    ensures err.None? <==> DecodeScale(m0, d).Some?
    ensures err.None? ==> DecodeScale(m0, d) == Some(m)
  {
    hide Next;
    err, m := None, m0;
    var iNdEx := 0;
    assert d[0..] == d;
    while iNdEx < |d|
      invariant iNdEx <= |d| && err.None?
      invariant DecodeScale(m, d[iNdEx..]) == DecodeScale(m0, d)
      decreases |d| - iNdEx
    {
      var event, next;
      err, event, next := DecodeField(ScaleSchema, d, iNdEx);
      if err.Some? {
        return;
      }
      DecodeTurn(ScaleSchema, ScaleMerge, m, d, iNdEx, event, next);
      if event.NumberField? {
        var v := event.value;
        match event.num
        case 1 => m := m.(disabled := v != 0);
        case 2 => m := m.(min := Some(Signed32(v % U32)));
        case 3 => m := m.(max := Some(Signed32(v % U32)));
        case 4 => m := m.(targetSaturationPercentage := Some(v % U32));
        case 5 => m := m.(scaleUpCooldownSeconds := Some(v % U32));
        case 6 => m := m.(scaleDownCooldownSeconds := Some(v % U32));
        case 7 => m := m.(replicasPerScaleUp := Some(v % U32));
        case _ => m := m.(replicasPerScaleDown := Some(v % U32));
      }
      iNdEx := next;
    }
  }

  /** Marshal, then Unmarshal into a zero value. */
  method TopologyThereAndBack(t: TopologyMsg) returns (err: Option<Error>, m: TopologyMsg)
    requires SizeTopology(t) < I63
    ensures err == None && m == t
  {
    hide Decode, EncodeTopology;
    TopologyRoundTrip(t);
    var d := TopologyMarshal(t);
    err, m := UnmarshalTopology(EMPTY_TOPOLOGY, d);
  }

  method ScaleThereAndBack(s: Scale) returns (err: Option<Error>, m: Scale)
    ensures err == None && m == s
  {
    hide SizeScale, EncodeScale, DecodeScale;
    ScaleRoundTrip(s);
    ScaleFits(s);
    var d := ScaleMarshal(s);
    err, m := UnmarshalScale(EMPTY_SCALE, d);
  }

  lemma {:induction false} OptionFits(v: Option<int>)
    requires v.Some? ==> -0x8000_0000 <= v.value < U32
    ensures SizeOption(v) <= 11
  {
    hide Sov, Varint, Pow128;
    if v.Some? {
      Pow128Ten();
      VarintLength(Uint64(v.value), 10);
      SovIsLength(Uint64(v.value));
    }
  }

  /** A Scale takes at most 2 + 7 * 11 bytes. */
  lemma {:induction false} ScaleFits(s: Scale)
    ensures SizeScale(s) <= 79
  {
    hide SizeOption, EncodeScale;
    OptionFits(s.min);
    OptionFits(s.max);
    OptionFits(s.targetSaturationPercentage);
    OptionFits(s.scaleUpCooldownSeconds);
    OptionFits(s.scaleDownCooldownSeconds);
    OptionFits(s.replicasPerScaleUp);
    OptionFits(s.replicasPerScaleDown);
  }
}
