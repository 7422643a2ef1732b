/** API types that several components share (pkg/apis/kynomesh/v1alpha1). */
module ApiTypes {
  import opened Prelude

  type int32 = x: int | -0x8000_0000 <= x < 0x8000_0000
  type uint32 = x: int | 0 <= x < 0x1_0000_0000

  /** Scale: pointer fields are optional. */
  datatype Scale = Scale(
    disabled: bool,
    min: Option<int32>,
    max: Option<int32>,
    targetSaturationPercentage: Option<uint32>,
    scaleUpCooldownSeconds: Option<uint32>,
    scaleDownCooldownSeconds: Option<uint32>,
    replicasPerScaleUp: Option<uint32>,
    replicasPerScaleDown: Option<uint32>)

  /** Peer and Topology, over whatever represents a Go string. */
  datatype Peer<S> = Peer(name: S, kind: S, url: S)

  datatype Topology<S> = Topology(pattern: S, isEntry: bool, peers: seq<Peer<S>>)
}
