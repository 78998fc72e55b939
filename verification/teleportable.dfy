/** The portal-crossing component (entities/components/portal/teleportable.cpp):
    near a portal, the body stops colliding with the portal's wall group so
    that it can pass through; far from it, the group is restored.  Positions
    are parameters (they come from the transforms of the body and the two
    portal nodes); the teleport itself and the clone drawing are physics and
    rendering, recorded here only as the events they cause. */
module Teleportable {
  import opened Common

  /** The group value that means "not set". */
  const Unset: bv32 := 0xFFFF_FFFF

  datatype PortalId = Portal1 | Portal2

  datatype StartError = PortalNotSet | RigidBodyNotSet | AllowPortalGroupNotSet

  /** Collision with a portal is disabled while the body is strictly closer
      to it than the threshold distance. */
  predicate NeedDisable(portalPosition: Vec3, position: Vec3, threshold: real)
  {
    var d := Sub(portalPosition, position);
    Dot(d, d) < threshold * threshold
  }

  /** The mask after the collision flag went from `before` to `after`. */
  function MaskAfter(mask: bv32, group: bv32, before: bool, after: bool): bv32
  {
    if after && !before then mask & !group
    else if !after && before then mask | group
    else mask
  }

  lemma MaskAfterDisable(mask: bv32, group: bv32)
    ensures MaskAfter(mask, group, false, true) == mask & !group
  {
  }

  lemma MaskAfterEnable(mask: bv32, group: bv32)
    ensures MaskAfter(mask, group, true, false) == mask | group
  {
  }

  lemma MaskAfterSame(mask: bv32, group: bv32, b: bool)
    ensures MaskAfter(mask, group, b, b) == mask
  {
  }

  /** Disabling clears every bit of the group. */
  lemma DisableClearsGroup(mask: bv32, group: bv32)
    ensures (mask & !group) & group == 0
  {
  }

  /** Enabling sets every bit of the group. */
  lemma EnableSetsGroup(mask: bv32, group: bv32)
    ensures (mask | group) & group == group
  {
  }

  /** Disabling and then enabling restores a mask that had the group's
      bits: the round trip changes nothing else. */
  lemma DisableEnableRestores(mask: bv32, group: bv32)
    requires mask & group == group
    ensures (mask & !group) | group == mask
  {
  }

  class Teleportable {
    var portalSet: bool
    var rigidBodySet: bool
    var allowPortalGroup: bv32
    const thresholdDistance: real
    var disabledPortal1Collision: bool
    var disabledPortal2Collision: bool
    /** The rigid body's collision mask and how often it was re-registered. */
    var mask: bv32
    var reinits: nat

    constructor (mask0: bv32)
      ensures !portalSet && !rigidBodySet && allowPortalGroup == Unset && thresholdDistance == 1.0
      ensures !disabledPortal1Collision && !disabledPortal2Collision && mask == mask0 && reinits == 0
    {
      portalSet := false;
      rigidBodySet := false;
      allowPortalGroup := Unset;
      thresholdDistance := 1.0;
      disabledPortal1Collision := false;
      disabledPortal2Collision := false;
      mask := mask0;
      reinits := 0;
    }

    /** The checks made when the component starts, in order. */
    function StartCheck(): (r: Result<(), StartError>)
      reads this
      ensures r.Ok? <==> portalSet && rigidBodySet && allowPortalGroup != Unset
      ensures !portalSet ==> r == Err(PortalNotSet)
      ensures portalSet && !rigidBodySet ==> r == Err(RigidBodyNotSet)
      ensures portalSet && rigidBodySet && allowPortalGroup == Unset ==> r == Err(AllowPortalGroupNotSet)
    {
      if !portalSet then Err(PortalNotSet)
      else if !rigidBodySet then Err(RigidBodyNotSet)
      else if allowPortalGroup == Unset then Err(AllowPortalGroupNotSet)
      else Ok(())
    }

    method OnStart() returns (r: Result<(), StartError>)
      ensures r == StartCheck()
    {
      if !portalSet {
        return Err(PortalNotSet);
      }
      if !rigidBodySet {
        return Err(RigidBodyNotSet);
      }
      if allowPortalGroup == Unset {
        return Err(AllowPortalGroupNotSet);
      }
      r := Ok(());
    }

    /** The flag follows the distance test; only a change of the flag
        touches the mask (clearing the group's bits when disabling, setting
        them when enabling) and re-registers the body. */
    method ToggleCollisionIfNeed(portalPosition: Vec3, position: Vec3, disabled: bool) returns (disabledAfter: bool)
      modifies `mask, `reinits
      ensures disabledAfter == NeedDisable(portalPosition, position, thresholdDistance)
      ensures mask == MaskAfter(old(mask), allowPortalGroup, disabled, disabledAfter)
      ensures reinits == old(reinits) + (if disabledAfter != disabled then 1 else 0)
    {
      var needDisableCollision := NeedDisable(portalPosition, position, thresholdDistance);
      disabledAfter := disabled;
      MaskAfterSame(mask, allowPortalGroup, disabled);
      if needDisableCollision && !disabled {
        MaskAfterDisable(mask, allowPortalGroup);
        disabledAfter := true;
        mask := mask & !allowPortalGroup;
        reinits := reinits + 1;
      }
      if !needDisableCollision && disabled {
        MaskAfterEnable(mask, allowPortalGroup);
        disabledAfter := false;
        mask := mask | allowPortalGroup;
        reinits := reinits + 1;
      }
    }

    /** One update: teleport checks for the portals whose collision was
        disabled before this update (portal 1 first), then both toggles. */
    method OnUpdate(position: Vec3, portal1: Vec3, portal2: Vec3) returns (teleportChecks: seq<PortalId>)
      modifies `mask, `reinits, `disabledPortal1Collision, `disabledPortal2Collision
      ensures teleportChecks == (if old(disabledPortal1Collision) then [Portal1] else []) +
                                (if old(disabledPortal2Collision) then [Portal2] else [])
      ensures disabledPortal1Collision == NeedDisable(portal1, position, thresholdDistance)
      ensures disabledPortal2Collision == NeedDisable(portal2, position, thresholdDistance)
      ensures mask == MaskAfter(MaskAfter(old(mask), allowPortalGroup, old(disabledPortal1Collision), disabledPortal1Collision),
                                allowPortalGroup, old(disabledPortal2Collision), disabledPortal2Collision)
      ensures reinits == old(reinits) + (if disabledPortal1Collision != old(disabledPortal1Collision) then 1 else 0)
                                      + (if disabledPortal2Collision != old(disabledPortal2Collision) then 1 else 0)
    {
      teleportChecks := [];
      if disabledPortal1Collision {
        teleportChecks := teleportChecks + [Portal1];
      }
      if disabledPortal2Collision {
        teleportChecks := teleportChecks + [Portal2];
      }
      disabledPortal1Collision := ToggleCollisionIfNeed(portal1, position, disabledPortal1Collision);
      disabledPortal2Collision := ToggleCollisionIfNeed(portal2, position, disabledPortal2Collision);
    }

    /** A clone is drawn through each portal whose collision is disabled. */
    function Clones(): (r: seq<PortalId>)
      reads this
      ensures Portal1 in r <==> disabledPortal1Collision
      ensures Portal2 in r <==> disabledPortal2Collision
      ensures |r| <= 2
    {
      (if disabledPortal1Collision then [Portal1] else []) + (if disabledPortal2Collision then [Portal2] else [])
    }
  }
}
