/**
 The generated codec of the API messages Peer, Topology and Scale
 (pkg/apis/kynomesh/v1alpha1/generated.pb.go): encodings, sizes, decoding and the round trips between them.
 A Go string is its bytes.
 */
module Messages {
  import opened Prelude
  import opened ApiTypes
  import opened Wire

  type PeerMsg = Peer<Bytes>
  type TopologyMsg = Topology<Bytes>

  const EMPTY_PEER: PeerMsg := Peer([], [], [])
  const EMPTY_TOPOLOGY: TopologyMsg := Topology([], false, [])
  const EMPTY_SCALE: Scale := Scale(false, None, None, None, None, None, None, None)

  // ---------------------------------------------------------------- encoding

  function TextBytes(tag: byte, s: Bytes): Bytes {
    [tag] + Varint(|s|) + s
  }

  function NumberBytes(tag: byte, v: nat): Bytes {
    [tag] + Varint(v)
  }

  function BoolByte(b: bool): byte {
    if b then 1 else 0
  }

  /** uint64(v) for an int32 or uint32: sign extension. */
  function Uint64(v: int): nat
    requires -0x8000_0000 <= v < U32
  {
    if v >= 0 then v else U64 + v
  }

  function OptionBytes(tag: byte, v: Option<int>): Bytes
    requires v.Some? ==> -0x8000_0000 <= v.value < U32
  {
    if v.None? then [] else NumberBytes(tag, Uint64(v.value))
  }

  function EncodePeer(p: PeerMsg): Bytes {
    TextBytes(0x0a, p.name) + TextBytes(0x12, p.kind) + TextBytes(0x1a, p.url)
  }

  function EncodePeers(ps: seq<PeerMsg>): Bytes {
    if ps == [] then [] else TextBytes(0x1a, EncodePeer(ps[0])) + EncodePeers(ps[1..])
  }

  function EncodeTopology(t: TopologyMsg): Bytes {
    TextBytes(0x0a, t.pattern) + [0x10, BoolByte(t.isEntry)] + EncodePeers(t.peers)
  }

  /** The optional fields of a Scale in the order of their numbers. */
  function ScaleOptions(s: Scale): Bytes {
    OptionBytes(0x10, s.min)
    + (OptionBytes(0x18, s.max)
    + (OptionBytes(0x20, s.targetSaturationPercentage)
    + (OptionBytes(0x28, s.scaleUpCooldownSeconds)
    + (OptionBytes(0x30, s.scaleDownCooldownSeconds)
    + (OptionBytes(0x38, s.replicasPerScaleUp)
    + (OptionBytes(0x40, s.replicasPerScaleDown)
    + []))))))
  }

  function EncodeScale(s: Scale): Bytes {
    [0x08, BoolByte(s.disabled)] + ScaleOptions(s)
  }

  // ---------------------------------------------------------------- sizes

  function SizeText(l: nat): nat {
    1 + l + Sov(l)
  }

  function SizeOption(v: Option<int>): nat
    requires v.Some? ==> -0x8000_0000 <= v.value < U32
  {
    if v.None? then 0 else 1 + Sov(Uint64(v.value))
  }

  /** Peer.Size */
  function SizePeer(p: PeerMsg): (n: nat)
    ensures n == |EncodePeer(p)|
  {
    SovIsLength(|p.name|);
    SovIsLength(|p.kind|);
    SovIsLength(|p.url|);
    SizeText(|p.name|) + SizeText(|p.kind|) + SizeText(|p.url|)
  }

  function SizePeers(ps: seq<PeerMsg>): (n: nat)
    ensures n == |EncodePeers(ps)|
  {
    if ps == [] then 0
    else
      SovIsLength(SizePeer(ps[0]));
      SizeText(SizePeer(ps[0])) + SizePeers(ps[1..])
  }

  /** Topology.Size */
  function SizeTopology(t: TopologyMsg): (n: nat)
    ensures n == |EncodeTopology(t)|
  {
    SovIsLength(|t.pattern|);
    SizeText(|t.pattern|) + 2 + SizePeers(t.peers)
  }

  lemma OptionSize(tag: byte, v: Option<int>)
    requires v.Some? ==> -0x8000_0000 <= v.value < U32
    ensures SizeOption(v) == |OptionBytes(tag, v)|
  {
    if v.Some? {
      SovIsLength(Uint64(v.value));
    }
  }

  /** Scale.Size */
  function SizeScale(s: Scale): nat {
    2 + SizeOption(s.min) + SizeOption(s.max) + SizeOption(s.targetSaturationPercentage)
    + SizeOption(s.scaleUpCooldownSeconds) + SizeOption(s.scaleDownCooldownSeconds)
    + SizeOption(s.replicasPerScaleUp) + SizeOption(s.replicasPerScaleDown)
  }

  lemma {:induction false} ScaleSize(s: Scale)
    ensures SizeScale(s) == |EncodeScale(s)|
  {
    hide OptionBytes, SizeOption;
    OptionSize(0x10, s.min);
    OptionSize(0x18, s.max);
    OptionSize(0x20, s.targetSaturationPercentage);
    OptionSize(0x28, s.scaleUpCooldownSeconds);
    OptionSize(0x30, s.scaleDownCooldownSeconds);
    OptionSize(0x38, s.replicasPerScaleUp);
    OptionSize(0x40, s.replicasPerScaleDown);
  }

  // ---------------------------------------------------------------- decoding

  function PeerSchema(num: int): Option<Kind> {
    if 1 <= num <= 3 then Some(Text) else None
  }

  function PeerMerge(m: PeerMsg, event: Event): Option<PeerMsg> {
    match event
    case TextField(1, b) => Some(m.(name := b))
    case TextField(2, b) => Some(m.(kind := b))
    case TextField(3, b) => Some(m.(url := b))
    case _ => None
  }

  function DecodePeer(m: PeerMsg, d: Bytes): Option<PeerMsg> {
    Decode(PeerSchema, PeerMerge, m, d)
  }

  function TopologySchema(num: int): Option<Kind> {
    if num == 2 then Some(Number) else if num == 1 || num == 3 then Some(Text) else None
  }

  /** A nested peer is decoded into a fresh Peer appended to the list. */
  function TopologyMerge(m: TopologyMsg, event: Event): Option<TopologyMsg> {
    match event
    case TextField(1, b) => Some(m.(pattern := b))
    case NumberField(2, v) => Some(m.(isEntry := v != 0))
    case TextField(3, b) =>
      var p := DecodePeer(EMPTY_PEER, b);
      if p.None? then None else Some(m.(peers := m.peers + [p.value]))
    case _ => None
  }

  function DecodeTopology(m: TopologyMsg, d: Bytes): Option<TopologyMsg> {
    Decode(TopologySchema, TopologyMerge, m, d)
  }

  function ScaleSchema(num: int): Option<Kind> {
    if 1 <= num <= 8 then Some(Number) else None
  }

  /** Accumulating into an int32 or a uint32 keeps the low 32 bits of the varint. */
  function ScaleMerge(m: Scale, event: Event): Option<Scale> {
    match event
    case NumberField(1, v) => Some(m.(disabled := v != 0))
    case NumberField(2, v) => Some(m.(min := Some(Signed32(v % U32))))
    case NumberField(3, v) => Some(m.(max := Some(Signed32(v % U32))))
    case NumberField(4, v) => Some(m.(targetSaturationPercentage := Some(v % U32)))
    case NumberField(5, v) => Some(m.(scaleUpCooldownSeconds := Some(v % U32)))
    case NumberField(6, v) => Some(m.(scaleDownCooldownSeconds := Some(v % U32)))
    case NumberField(7, v) => Some(m.(replicasPerScaleUp := Some(v % U32)))
    case NumberField(8, v) => Some(m.(replicasPerScaleDown := Some(v % U32)))
    case _ => None
  }

  function DecodeScale(m: Scale, d: Bytes): Option<Scale> {
    Decode(ScaleSchema, ScaleMerge, m, d)
  }

  // ---------------------------------------------------------------- round trips

  lemma {:induction false} ReadTag(tag: byte, rest: Bytes)
    requires tag < 128
    ensures ReadVarint([tag] + rest, 0) == Some((tag, 1)) && ([tag] + rest)[1..] == rest
    ensures WireType(tag) == tag % 8 && FieldNumber(tag) == tag / 8
  {
  }

  lemma {:induction false} NextText(schema: Schema, tag: byte, s: Bytes, e: Bytes)
    requires 8 <= tag < 128 && tag % 8 == 2 && schema(tag / 8) == Some(Text) && |s| < I63
    ensures Next(schema, TextBytes(tag, s) + e) == Some((TextField(tag / 8, s), |TextBytes(tag, s)|))
  {
    hide ReadVarint, Varint, WireType, FieldNumber;
    var l := Varint(|s|);
    assert TextBytes(tag, s) + e == [tag] + (l + (s + e));
    ReadTag(tag, l + (s + e));
    ReadUint64(|s|, s + e);
    assert (l + (s + e))[|l|..|l| + |s|] == s;
  }

  lemma {:induction false} NextNumber(schema: Schema, tag: byte, v: nat, e: Bytes)
    requires 8 <= tag < 128 && tag % 8 == 0 && schema(tag / 8) == Some(Number) && v < U64
    ensures Next(schema, NumberBytes(tag, v) + e) == Some((NumberField(tag / 8, v), |NumberBytes(tag, v)|))
  {
    hide ReadVarint, Varint, WireType, FieldNumber;
    assert NumberBytes(tag, v) + e == [tag] + (Varint(v) + e);
    ReadTag(tag, Varint(v) + e);
    ReadUint64(v, e);
  }

  lemma {:induction false} DecodeText<M>(schema: Schema, merge: Merge<M>, m: M, tag: byte, s: Bytes, e: Bytes)
    requires 8 <= tag < 128 && tag % 8 == 2 && schema(tag / 8) == Some(Text) && |s| < I63
    requires merge(m, TextField(tag / 8, s)).Some?
    ensures Decode(schema, merge, m, TextBytes(tag, s) + e)
            == Decode(schema, merge, merge(m, TextField(tag / 8, s)).value, e)
  {
    hide Next;
    NextText(schema, tag, s, e);
    assert (TextBytes(tag, s) + e)[|TextBytes(tag, s)|..] == e;
  }

  lemma {:induction false} DecodeNumber<M>(schema: Schema, merge: Merge<M>, m: M, tag: byte, v: nat, e: Bytes)
    requires 8 <= tag < 128 && tag % 8 == 0 && schema(tag / 8) == Some(Number) && v < U64
    requires merge(m, NumberField(tag / 8, v)).Some?
    ensures Decode(schema, merge, m, NumberBytes(tag, v) + e)
            == Decode(schema, merge, merge(m, NumberField(tag / 8, v)).value, e)
  {
    hide Next;
    NextNumber(schema, tag, v, e);
    assert (NumberBytes(tag, v) + e)[|NumberBytes(tag, v)|..] == e;
  }

  /** Unmarshal of a marshalled Peer gives it back, whatever the bytes of its strings. */
  lemma {:induction false} PeerRoundTrip(p: PeerMsg)
    requires SizePeer(p) < I63
    ensures DecodePeer(EMPTY_PEER, EncodePeer(p)) == Some(p)
  {
    hide Decode, TextBytes;
    var a, b, c := TextBytes(0x0a, p.name), TextBytes(0x12, p.kind), TextBytes(0x1a, p.url);
    assert EncodePeer(p) == a + (b + (c + []));
    DecodeText(PeerSchema, PeerMerge, EMPTY_PEER, 0x0a, p.name, b + (c + []));
    DecodeText(PeerSchema, PeerMerge, Peer(p.name, [], []), 0x12, p.kind, c + []);
    DecodeText(PeerSchema, PeerMerge, Peer(p.name, p.kind, []), 0x1a, p.url, []);
    DecodeNothing(PeerSchema, PeerMerge, p);
  }

  /** The same with any unknown fields before, between and after the known ones. */
  lemma {:induction false} PeerAmidUnknownFields(
      p: PeerMsg, u0: seq<Field>, u1: seq<Field>, u2: seq<Field>, u3: seq<Field>)
    requires SizePeer(p) < I63
    requires forall f :: f in u0 + u1 + u2 + u3 ==> IsUnknown(PeerSchema, f)
    ensures DecodePeer(EMPTY_PEER,
                       EncodedAll(u0) + TextBytes(0x0a, p.name) + EncodedAll(u1) + TextBytes(0x12, p.kind)
                       + EncodedAll(u2) + TextBytes(0x1a, p.url) + EncodedAll(u3)) == Some(p)
  {
    hide Decode, TextBytes, EncodedAll, IsUnknown;
    var d3 := EncodedAll(u3) + [];
    var d2 := EncodedAll(u2) + (TextBytes(0x1a, p.url) + d3);
    var d1 := EncodedAll(u1) + (TextBytes(0x12, p.kind) + d2);
    var d0 := EncodedAll(u0) + (TextBytes(0x0a, p.name) + d1);
    assert d0 == EncodedAll(u0) + TextBytes(0x0a, p.name) + EncodedAll(u1) + TextBytes(0x12, p.kind)
              + EncodedAll(u2) + TextBytes(0x1a, p.url) + EncodedAll(u3);
    DecodeUnknowns(PeerSchema, PeerMerge, EMPTY_PEER, u0, TextBytes(0x0a, p.name) + d1);
    DecodeText(PeerSchema, PeerMerge, EMPTY_PEER, 0x0a, p.name, d1);
    DecodeUnknowns(PeerSchema, PeerMerge, Peer(p.name, [], []), u1, TextBytes(0x12, p.kind) + d2);
    DecodeText(PeerSchema, PeerMerge, Peer(p.name, [], []), 0x12, p.kind, d2);
    DecodeUnknowns(PeerSchema, PeerMerge, Peer(p.name, p.kind, []), u2, TextBytes(0x1a, p.url) + d3);
    DecodeText(PeerSchema, PeerMerge, Peer(p.name, p.kind, []), 0x1a, p.url, d3);
    DecodeUnknowns(PeerSchema, PeerMerge, p, u3, []);
    DecodeNothing(PeerSchema, PeerMerge, p);
  }

  lemma DecodeNothing<M>(schema: Schema, merge: Merge<M>, m: M)
    ensures Decode(schema, merge, m, []) == Some(m)
  {
  }

  lemma {:induction false} DecodePeers(m: TopologyMsg, ps: seq<PeerMsg>)
    requires SizePeers(ps) < I63
    ensures DecodeTopology(m, EncodePeers(ps)) == Some(m.(peers := m.peers + ps))
    decreases |ps|
  {
    hide Decode, TextBytes, EncodePeer, SizePeer, DecodePeer;
    if ps == [] {
      DecodeNothing(TopologySchema, TopologyMerge, m);
      assert m.peers + ps == m.peers;
    } else {
      var s, m' := EncodePeer(ps[0]), m.(peers := m.peers + [ps[0]]);
      PeerRoundTrip(ps[0]);
      DecodeText(TopologySchema, TopologyMerge, m, 0x1a, s, EncodePeers(ps[1..]));
      DecodePeers(m', ps[1..]);
      assert m.peers + ps == m'.peers + ps[1..];
    }
  }

  /** Unmarshal of a marshalled Topology gives it back: any peers, any strings. */
  lemma {:induction false} TopologyRoundTrip(t: TopologyMsg)
    requires SizeTopology(t) < I63
    ensures DecodeTopology(EMPTY_TOPOLOGY, EncodeTopology(t)) == Some(t)
  {
    hide Decode, TextBytes, EncodePeers;
    var a, v, c := TextBytes(0x0a, t.pattern), BoolByte(t.isEntry), EncodePeers(t.peers);
    assert NumberBytes(0x10, v) == [0x10, v];
    assert EncodeTopology(t) == a + (NumberBytes(0x10, v) + c);
    DecodeText(TopologySchema, TopologyMerge, EMPTY_TOPOLOGY, 0x0a, t.pattern, NumberBytes(0x10, v) + c);
    DecodeNumber(TopologySchema, TopologyMerge, Topology(t.pattern, false, []), 0x10, v, c);
    DecodePeers(Topology(t.pattern, t.isEntry, []), t.peers);
    assert [] + t.peers == t.peers;
  }

  /** The low 32 bits of a sign extension give the number back. */
  lemma {:induction false} LowBits(v: int)
    requires -0x8000_0000 <= v < U32
    ensures v >= 0 ==> Uint64(v) % U32 == v
    ensures v < 0x8000_0000 ==> Signed32(Uint64(v) % U32) == v
  {
  }

  predicate Fits(tag: byte, v: int) {
    if tag in {0x10, 0x18} then -0x8000_0000 <= v < 0x8000_0000
    else tag in {0x20, 0x28, 0x30, 0x38, 0x40} && 0 <= v < U32
  }

  /** Scale with the optional field of a tag set. */
  ghost function With(m: Scale, tag: byte, v: int): Scale
    requires Fits(tag, v)
  {
    match tag
    case 0x10 => m.(min := Some(v))
    case 0x18 => m.(max := Some(v))
    case 0x20 => m.(targetSaturationPercentage := Some(v))
    case 0x28 => m.(scaleUpCooldownSeconds := Some(v))
    case 0x30 => m.(scaleDownCooldownSeconds := Some(v))
    case 0x38 => m.(replicasPerScaleUp := Some(v))
    case _ => m.(replicasPerScaleDown := Some(v))
  }

  lemma {:induction false} MergeWith(m: Scale, tag: byte, v: int)
    requires Fits(tag, v)
    ensures ScaleMerge(m, NumberField(tag / 8, Uint64(v))) == Some(With(m, tag, v))
  {
    LowBits(v);
  }

  lemma {:induction false} DecodeOption(m: Scale, tag: byte, v: Option<int>, e: Bytes)
    requires v.Some? ==> Fits(tag, v.value)
    ensures DecodeScale(m, OptionBytes(tag, v) + e) == DecodeScale(if v.Some? then With(m, tag, v.value) else m, e)
  {
    hide Decode, NumberBytes, ScaleMerge, With;
    if v.Some? {
      MergeWith(m, tag, v.value);
      DecodeNumber(ScaleSchema, ScaleMerge, m, tag, Uint64(v.value), e);
    } else {
      assert OptionBytes(tag, v) + e == e;
    }
  }

  /** Unmarshal of a marshalled Scale gives it back, unset and negative fields included. */
  lemma {:induction false} ScaleRoundTrip(s: Scale)
    ensures DecodeScale(EMPTY_SCALE, EncodeScale(s)) == Some(s)
  {
    hide DecodeScale, OptionBytes;
    var h := OptionBytes(0x40, s.replicasPerScaleDown) + [];
    var g := OptionBytes(0x38, s.replicasPerScaleUp) + h;
    var f := OptionBytes(0x30, s.scaleDownCooldownSeconds) + g;
    var e := OptionBytes(0x28, s.scaleUpCooldownSeconds) + f;
    var d := OptionBytes(0x20, s.targetSaturationPercentage) + e;
    var c := OptionBytes(0x18, s.max) + d;
    var b := OptionBytes(0x10, s.min) + c;
    assert EncodeScale(s) == [0x08, BoolByte(s.disabled)] + b;
    var m1 := EMPTY_SCALE.(disabled := s.disabled);
    var m2 := m1.(min := s.min);
    var m3 := m2.(max := s.max);
    var m4 := m3.(targetSaturationPercentage := s.targetSaturationPercentage);
    var m5 := m4.(scaleUpCooldownSeconds := s.scaleUpCooldownSeconds);
    var m6 := m5.(scaleDownCooldownSeconds := s.scaleDownCooldownSeconds);
    var m7 := m6.(replicasPerScaleUp := s.replicasPerScaleUp);
    DecodeDisabled(s.disabled, b);
    DecodeOption(m1, 0x10, s.min, c);
    DecodeOption(m2, 0x18, s.max, d);
    DecodeOption(m3, 0x20, s.targetSaturationPercentage, e);
    DecodeOption(m4, 0x28, s.scaleUpCooldownSeconds, f);
    DecodeOption(m5, 0x30, s.scaleDownCooldownSeconds, g);
    DecodeOption(m6, 0x38, s.replicasPerScaleUp, h);
    DecodeOption(m7, 0x40, s.replicasPerScaleDown, []);
    DecodeNoScale(s);
  }

  lemma {:induction false} DecodeDisabled(disabled: bool, e: Bytes)
    ensures DecodeScale(EMPTY_SCALE, [0x08, BoolByte(disabled)] + e)
            == DecodeScale(EMPTY_SCALE.(disabled := disabled), e)
  {
    hide Decode;
    assert NumberBytes(0x08, BoolByte(disabled)) == [0x08, BoolByte(disabled)];
    DecodeNumber(ScaleSchema, ScaleMerge, EMPTY_SCALE, 0x08, BoolByte(disabled), e);
  }

  lemma DecodeNoScale(m: Scale)
    ensures DecodeScale(m, []) == Some(m)
  {
  }

  // ---------------------------------------------------------------- the bytes themselves

  /** The bytes of a Peer: its three strings under the tags 0x0a, 0x12 and 0x1a, each behind its length. */
  lemma PeerBytes(p: PeerMsg)
    ensures EncodePeer(p)
            == [0x0a] + Varint(|p.name|) + p.name + ([0x12] + Varint(|p.kind|) + p.kind)
               + ([0x1a] + Varint(|p.url|) + p.url)
  {
  }

  /** The bytes of a Topology: pattern, entry flag as one byte 0 or 1, then each peer behind its length. */
  lemma TopologyBytes(t: TopologyMsg)
    ensures EncodeTopology(t)
            == [0x0a] + Varint(|t.pattern|) + t.pattern + [0x10, if t.isEntry then 1 else 0] + EncodePeers(t.peers)
    ensures EncodePeers([]) == []
    ensures t.peers != [] ==>
              EncodePeers(t.peers)
              == [0x1a] + Varint(|EncodePeer(t.peers[0])|) + EncodePeer(t.peers[0]) + EncodePeers(t.peers[1..])
  {
  }

  /** A number under a one-byte tag, negative ones as their 64-bit two's complement; nothing for an unset field. */
  ghost function Tagged(tag: byte, v: Option<int>): Bytes
    requires v.Some? ==> -0x8000_0000 <= v.value < 0x1_0000_0000
  {
    if v.None? then []
    else [tag] + Varint(if v.value >= 0 then v.value else 18446744073709551616 + v.value)
  }

  /** The bytes of a Scale: the flag as one byte 0 or 1, then the set fields in the order of their numbers. */
  lemma {:induction false} ScaleBytes(s: Scale)
    ensures EncodeScale(s)
            == [0x08, if s.disabled then 1 else 0]
               + (Tagged(0x10, s.min)
               + (Tagged(0x18, s.max)
               + (Tagged(0x20, s.targetSaturationPercentage)
               + (Tagged(0x28, s.scaleUpCooldownSeconds)
               + (Tagged(0x30, s.scaleDownCooldownSeconds)
               + (Tagged(0x38, s.replicasPerScaleUp)
               + (Tagged(0x40, s.replicasPerScaleDown)
               + [])))))))
  {
    hide Varint;
    TaggedIsOption(0x10, s.min);
    TaggedIsOption(0x18, s.max);
    TaggedIsOption(0x20, s.targetSaturationPercentage);
    TaggedIsOption(0x28, s.scaleUpCooldownSeconds);
    TaggedIsOption(0x30, s.scaleDownCooldownSeconds);
    TaggedIsOption(0x38, s.replicasPerScaleUp);
    TaggedIsOption(0x40, s.replicasPerScaleDown);
    hide Tagged, OptionBytes;
  }

  lemma TaggedIsOption(tag: byte, v: Option<int>)
    requires v.Some? ==> -0x8000_0000 <= v.value < U32
    ensures Tagged(tag, v) == OptionBytes(tag, v)
  {
    hide Varint;
  }

  /** Which field each tag of a Scale sets, and that it sets no other. */
  lemma {:induction false} ScaleFields(v: int)
    requires -0x8000_0000 <= v < 0x1_0000_0000
    ensures v < 0x8000_0000 ==> DecodeScale(EMPTY_SCALE, Tagged(0x10, Some(v))) == Some(EMPTY_SCALE.(min := Some(v)))
    ensures v < 0x8000_0000 ==> DecodeScale(EMPTY_SCALE, Tagged(0x18, Some(v))) == Some(EMPTY_SCALE.(max := Some(v)))
    ensures v >= 0 ==>
              && DecodeScale(EMPTY_SCALE, Tagged(0x20, Some(v)))
                 == Some(EMPTY_SCALE.(targetSaturationPercentage := Some(v)))
              && DecodeScale(EMPTY_SCALE, Tagged(0x28, Some(v)))
                 == Some(EMPTY_SCALE.(scaleUpCooldownSeconds := Some(v)))
              && DecodeScale(EMPTY_SCALE, Tagged(0x30, Some(v)))
                 == Some(EMPTY_SCALE.(scaleDownCooldownSeconds := Some(v)))
              && DecodeScale(EMPTY_SCALE, Tagged(0x38, Some(v))) == Some(EMPTY_SCALE.(replicasPerScaleUp := Some(v)))
              && DecodeScale(EMPTY_SCALE, Tagged(0x40, Some(v))) == Some(EMPTY_SCALE.(replicasPerScaleDown := Some(v)))
  {
    hide Tagged;
    if v < 0x8000_0000 {
      ScaleField(0x10, v);
      ScaleField(0x18, v);
    }
    if v >= 0 {
      ScaleField(0x20, v);
      ScaleField(0x28, v);
      ScaleField(0x30, v);
      ScaleField(0x38, v);
      ScaleField(0x40, v);
    }
  }

  lemma {:induction false} ScaleField(tag: byte, v: int)
    requires Fits(tag, v)
    ensures DecodeScale(EMPTY_SCALE, Tagged(tag, Some(v))) == Some(With(EMPTY_SCALE, tag, v))
  {
    hide OptionBytes, Tagged, DecodeScale;
    TaggedIsOption(tag, Some(v));
    assert Tagged(tag, Some(v)) + [] == Tagged(tag, Some(v));
    DecodeOption(EMPTY_SCALE, tag, Some(v), []);
    DecodeNoScale(With(EMPTY_SCALE, tag, v));
  }

  /** A flag is set by every number but 0. */
  lemma {:induction false} FlagFields(v: nat)
    requires v < U64
    ensures DecodeScale(EMPTY_SCALE, [0x08] + Varint(v)) == Some(EMPTY_SCALE.(disabled := v != 0))
    ensures DecodeTopology(EMPTY_TOPOLOGY, [0x10] + Varint(v)) == Some(EMPTY_TOPOLOGY.(isEntry := v != 0))
  {
    hide Varint, Decode;
    assert NumberBytes(0x08, v) + [] == [0x08] + Varint(v);
    assert NumberBytes(0x10, v) + [] == [0x10] + Varint(v);
    DecodeNumber(ScaleSchema, ScaleMerge, EMPTY_SCALE, 0x08, v, []);
    DecodeNumber(TopologySchema, TopologyMerge, EMPTY_TOPOLOGY, 0x10, v, []);
    DecodeNothing(ScaleSchema, ScaleMerge, EMPTY_SCALE.(disabled := v != 0));
    DecodeNothing(TopologySchema, TopologyMerge, EMPTY_TOPOLOGY.(isEntry := v != 0));
  }

  /** Which string each tag of a Peer and of a Topology sets; a later one replaces an earlier one. */
  lemma {:induction false} TextFields(p: PeerMsg, t: TopologyMsg, b: Bytes)
    requires |b| < I63
    ensures DecodePeer(p, [0x0a] + Varint(|b|) + b) == Some(p.(name := b))
    ensures DecodePeer(p, [0x12] + Varint(|b|) + b) == Some(p.(kind := b))
    ensures DecodePeer(p, [0x1a] + Varint(|b|) + b) == Some(p.(url := b))
    ensures DecodeTopology(t, [0x0a] + Varint(|b|) + b) == Some(t.(pattern := b))
  {
    hide Varint, Decode;
    OneText(PeerSchema, PeerMerge, p, 0x0a, b);
    OneText(PeerSchema, PeerMerge, p, 0x12, b);
    OneText(PeerSchema, PeerMerge, p, 0x1a, b);
    OneText(TopologySchema, TopologyMerge, t, 0x0a, b);
  }

  lemma {:induction false} OneText<M>(schema: Schema, merge: Merge<M>, m: M, tag: byte, b: Bytes)
    requires 8 <= tag < 128 && tag % 8 == 2 && schema(tag / 8) == Some(Text) && |b| < I63
    requires merge(m, TextField(tag / 8, b)).Some?
    ensures Decode(schema, merge, m, [tag] + Varint(|b|) + b) == merge(m, TextField(tag / 8, b))
  {
    hide Varint, Decode;
    assert TextBytes(tag, b) + [] == [tag] + Varint(|b|) + b;
    DecodeText(schema, merge, m, tag, b, []);
    DecodeNothing(schema, merge, merge(m, TextField(tag / 8, b)).value);
  }

  /** The field numbers that each message does not know. */
  lemma UnknownNumbers(f: Field)
    ensures IsUnknown(PeerSchema, f) <==> WellFormed(f) && FieldNumber(Value(f.tag)) >= 4
    ensures IsUnknown(TopologySchema, f) <==> WellFormed(f) && FieldNumber(Value(f.tag)) >= 4
    ensures IsUnknown(ScaleSchema, f) <==> WellFormed(f) && FieldNumber(Value(f.tag)) >= 9
  {
    hide WellFormed, FieldNumber;
  }
}
