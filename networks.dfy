// The range-checked repair-bandwidth pool of simulator/libc/network.cpp:
// one cross-rack scalar shared by the whole cluster and one intra-rack scalar
// per rack. An update outside the accepted range is only reported, and the
// stored value stays as it was.
module Networks {

  /** Slack allowed above the cross-rack maximum when bandwidth is handed back. */
  const Tolerance: real := 0.00001

  /** The accepted range of UpdateAvailCrossRackRepairBwth. */
  predicate CrossInRange(maxCross: real, v: real) {
    0.0 <= v <= maxCross + Tolerance
  }

  /** The cross-rack value after an update to v: v when accepted, else the old value. */
  function CrossUpdated(maxCross: real, current: real, v: real): (r: real)
    ensures CrossInRange(maxCross, v) ==> r == v
    ensures !CrossInRange(maxCross, v) ==> r == current
  {
    if v <= maxCross + Tolerance && v >= 0.0 then v else current
  }

  /** Every update keeps an in-range value in range. */
  lemma CrossUpdatedStaysInRange(maxCross: real, current: real, v: real)
    requires CrossInRange(maxCross, current)
    ensures CrossInRange(maxCross, CrossUpdated(maxCross, current, v))
  {
  }

  /** Handing back a share never pushes the value past what was accepted:
      the result is never above both the old value and the new one. */
  lemma CrossUpdatedBounded(maxCross: real, current: real, v: real)
    ensures CrossUpdated(maxCross, current, v) <= (if v > current then v else current)
  {
  }

  class Network {
    const numRacks: nat
    const nodesPerRack: int
    const maxCross: real
    const maxIntra: real
    var availCross: real
    var availIntra: seq<real>

    /** The cross-rack value is in its accepted range. */
    ghost predicate Valid()
      reads this
    {
      CrossInRange(maxCross, availCross) && |availIntra| == numRacks
    }

    /** Network(num_racks, nodes_per_rack, setting): setting is
        [cross-rack maximum, intra-rack maximum]; everything starts full. */
    constructor (racks: nat, nodes: int, crossSetting: real, intraSetting: real)
      ensures numRacks == racks && nodesPerRack == nodes
      ensures maxCross == crossSetting && maxIntra == intraSetting
      ensures availCross == crossSetting
      ensures availIntra == seq(racks, _ => intraSetting)
      ensures crossSetting >= 0.0 ==> Valid()
    {
      numRacks := racks;
      nodesPerRack := nodes;
      maxCross := crossSetting;
      maxIntra := intraSetting;
      availCross := crossSetting;
      availIntra := seq(racks, _ => intraSetting);
    }

    method UpdateAvailCrossRackRepairBwth(v: real)
      modifies this`availCross
      ensures availCross == CrossUpdated(maxCross, old(availCross), v)
      ensures old(Valid()) ==> Valid()
    {
      if v <= maxCross + Tolerance && v >= 0.0 {
        availCross := v;
      }
    }

    /** The bound checked here is the cross-rack maximum (without the
        tolerance), not the intra-rack one. */
    method UpdateAvailIntraRackRepairBwth(rack: nat, v: real)
      requires rack < |availIntra|
      modifies this`availIntra
      ensures 0.0 <= v <= maxCross ==> availIntra == old(availIntra)[rack := v]
      ensures !(0.0 <= v <= maxCross) ==> availIntra == old(availIntra)
      ensures old(Valid()) ==> Valid()
    {
      if v <= maxCross && v >= 0.0 {
        availIntra := availIntra[rack := v];
      }
    }

    method GetAvailCrossRackRepairBwth() returns (v: real)
      ensures v == availCross
    {
      v := availCross;
    }

    method GetAvailIntraRackRepairBwth(rack: nat) returns (v: real)
      requires rack < |availIntra|
      ensures v == availIntra[rack]
    {
      v := availIntra[rack];
    }
  }
}
