/** The mask: whether the player holds it and wears it (MaskStateModel),
    the two world roots it switches between (DualWorldLevel), and the
    animation steps of one toggle (MaskToggleSequencePlanner). */
module Mask {

  /** The pair of flags of MaskStateModel. */
  datatype MaskState = MaskState(hasMask: bool, isMaskOn: bool)

  /** The mask is worn only while it is held. */
  predicate Worn(s: MaskState) {
    s.isMaskOn ==> s.hasMask
  }

  /** The MaskStateModel constructor: the mask is worn only when it is both
      held and asked to be worn. */
  function Initial(startHasMask: bool, startMaskOn: bool): (s: MaskState)
    ensures Worn(s)
    ensures s.hasMask == startHasMask
    ensures s.isMaskOn <==> startHasMask && startMaskOn
  {
    MaskState(startHasMask, startHasMask && startMaskOn)
  }

  /** TryAcquireMask: refused when the mask is already held; otherwise the
      mask becomes held and is not worn. */
  function AcquireMask(s: MaskState): (r: (bool, MaskState))
    ensures r.0 <==> !s.hasMask
    ensures r.0 ==> r.1 == MaskState(true, false)
    ensures !r.0 ==> r.1 == s
    ensures Worn(s) ==> Worn(r.1)
    ensures r.1.hasMask
  {
    if s.hasMask then (false, s) else (true, MaskState(true, false))
  }

  /** TrySetMaskOn: refused without the mask or when nothing would change;
      otherwise the worn flag takes the requested value. */
  function SetMaskOn(s: MaskState, isMaskOn: bool): (r: (bool, MaskState))
    ensures r.0 <==> s.hasMask && s.isMaskOn != isMaskOn
    ensures r.0 ==> r.1 == s.(isMaskOn := isMaskOn)
    ensures !r.0 ==> r.1 == s
    ensures Worn(s) ==> Worn(r.1)
    ensures r.1.hasMask == s.hasMask
  {
    if !s.hasMask then (false, s)
    else if s.isMaskOn == isMaskOn then (false, s)
    else (true, s.(isMaskOn := isMaskOn))
  }

  /** TryToggleMask: refused without the mask; otherwise the worn flag flips. */
  function ToggleMask(s: MaskState): (r: (bool, MaskState))
    ensures r.0 <==> s.hasMask
    ensures r.0 ==> r.1 == s.(isMaskOn := !s.isMaskOn)
    ensures !r.0 ==> r.1 == s
    ensures Worn(s) ==> Worn(r.1)
    ensures r.1.hasMask == s.hasMask
  {
    if !s.hasMask then (false, s) else (true, s.(isMaskOn := !s.isMaskOn))
  }

  /** The operations of MaskStateModel. */
  datatype MaskOp = Acquire | SetOn(value: bool) | Toggle

  function Perform(s: MaskState, op: MaskOp): MaskState {
    match op
    case Acquire => AcquireMask(s).1
    case SetOn(v) => SetMaskOn(s, v).1
    case Toggle => ToggleMask(s).1
  }

  function PerformAll(s: MaskState, ops: seq<MaskOp>): MaskState
    decreases |ops|
  {
    if ops == [] then s else PerformAll(Perform(s, ops[0]), ops[1..])
  }

  /** Over any series of operations the mask is worn only while held, and
      once held it stays held. */
  lemma {:induction false} PerformAllKeepsInvariant(s: MaskState, ops: seq<MaskOp>)
    requires Worn(s)
    ensures Worn(PerformAll(s, ops))
    ensures s.hasMask ==> PerformAll(s, ops).hasMask
    decreases |ops|
  {
    if ops != [] {
      PerformAllKeepsInvariant(Perform(s, ops[0]), ops[1..]);
    }
  }

  /** Toggling twice restores the state. */
  lemma ToggleTwice(s: MaskState)
    ensures ToggleMask(ToggleMask(s).1).1 == s
  {
  }

  /** MaskStateModel */
  class MaskStateModel {
    var hasMask: bool
    var isMaskOn: bool

    function State(): MaskState
      reads this
    {
      MaskState(hasMask, isMaskOn)
    }

    constructor (startHasMask: bool, startMaskOn: bool)
      ensures State() == Initial(startHasMask, startMaskOn)
    {
      hasMask := startHasMask;
      isMaskOn := startHasMask && startMaskOn;
    }

    /** MaskStateModel.TryAcquireMask */
    method TryAcquireMask() returns (ok: bool)
      modifies this
      ensures (ok, State()) == AcquireMask(old(State()))
    {
      if hasMask {
        return false;
      }
      hasMask := true;
      isMaskOn := false;
      return true;
    }

    /** MaskStateModel.TrySetMaskOn */
    method TrySetMaskOn(value: bool) returns (ok: bool)
      modifies this
      ensures (ok, State()) == SetMaskOn(old(State()), value)
    {
      if !hasMask {
        return false;
      }
      if isMaskOn == value {
        return false;
      }
      isMaskOn := value;
      return true;
    }

    /** MaskStateModel.TryToggleMask */
    method TryToggleMask() returns (ok: bool)
      modifies this
      ensures (ok, State()) == ToggleMask(old(State()))
    {
      if !hasMask {
        return false;
      }
      isMaskOn := !isMaskOn;
      return true;
    }
  }

  /** A world root: missing, or present with its active flag. */
  datatype World = Missing | Present(active: bool)

  /** DualWorldLevel.Apply: a present no-mask world is active exactly when
      the mask is off, a present mask world exactly when it is on; a
      missing world stays missing. */
  function ApplyWorlds(isMaskOn: bool, withoutMask: World, withMask: World): (r: (World, World))
    ensures r.0.Present? == withoutMask.Present? && r.1.Present? == withMask.Present?
    ensures r.0.Present? ==> (r.0.active <==> !isMaskOn)
    ensures r.1.Present? ==> (r.1.active <==> isMaskOn)
  {
    (if withoutMask.Present? then Present(!isMaskOn) else Missing,
     if withMask.Present? then Present(isMaskOn) else Missing)
  }

  /** With both worlds present, exactly one of them is active after Apply. */
  lemma ExactlyOneWorldActive(isMaskOn: bool, withoutMask: World, withMask: World)
    requires withoutMask.Present? && withMask.Present?
    ensures ApplyWorlds(isMaskOn, withoutMask, withMask).0.active
            != ApplyWorlds(isMaskOn, withoutMask, withMask).1.active
  {
  }

  /** DualWorldLevel, with the two world roots it toggles. */
  class DualWorldLevel {
    var isMaskOn: bool
    var worldWithoutMask: World
    var worldWithMask: World

    /** The worlds show the current mask state. */
    predicate Shown()
      reads this
    {
      (worldWithoutMask, worldWithMask) == ApplyWorlds(isMaskOn, worldWithoutMask, worldWithMask)
    }

    /** The component with its roots as wired after TryAutoWire, followed by
        Awake's Apply with the mask off. */
    constructor (withoutMask: World, withMask: World)
      ensures !isMaskOn
      ensures (worldWithoutMask, worldWithMask) == ApplyWorlds(false, withoutMask, withMask)
      ensures Shown()
    {
      isMaskOn := false;
      worldWithoutMask := withoutMask;
      worldWithMask := withMask;
      new;
      Apply();
    }

    /** DualWorldLevel.Apply */
    method Apply()
      modifies this
      ensures isMaskOn == old(isMaskOn)
      ensures (worldWithoutMask, worldWithMask) == ApplyWorlds(isMaskOn, old(worldWithoutMask), old(worldWithMask))
      ensures Shown()
    {
      if worldWithoutMask.Present? {
        worldWithoutMask := Present(!isMaskOn);
      }
      if worldWithMask.Present? {
        worldWithMask := Present(isMaskOn);
      }
    }

    /** DualWorldLevel.SetMaskOn: the current value changes nothing;
        another value is taken and shown. */
    method SetMaskOn(value: bool)
      modifies this
      ensures isMaskOn == value
      ensures old(isMaskOn) == value ==>
                worldWithoutMask == old(worldWithoutMask) && worldWithMask == old(worldWithMask)
      ensures old(isMaskOn) != value ==>
                (worldWithoutMask, worldWithMask) == ApplyWorlds(value, old(worldWithoutMask), old(worldWithMask))
      ensures old(Shown()) ==> Shown()
    {
      if isMaskOn == value {
        return;
      }
      isMaskOn := value;
      Apply();
    }
  }

  /** The animation steps of one mask toggle. */
  datatype ToggleStep = PlayWearAndHold | ShowWornPose | SwitchWorld | FadeOutAndHide | PlayRemovalAndHide

  /** The steps that belong to putting the mask on, and to taking it off. */
  predicate IsWearStep(step: ToggleStep) {
    step == PlayWearAndHold || step == FadeOutAndHide
  }

  predicate IsRemovalStep(step: ToggleStep) {
    step == ShowWornPose || step == PlayRemovalAndHide
  }

  /** MaskToggleSequencePlanner.Build: three steps with the world switch
      exactly once, in the middle; putting the mask on (from off) uses only
      wear steps around it, taking it off only removal steps. */
  function Build(currentIsMaskOn: bool): (plan: seq<ToggleStep>)
    ensures |plan| == 3 && plan[1] == SwitchWorld
    ensures plan[0] != SwitchWorld && plan[2] != SwitchWorld
    ensures !currentIsMaskOn ==> IsWearStep(plan[0]) && IsWearStep(plan[2])
    ensures currentIsMaskOn ==> IsRemovalStep(plan[0]) && IsRemovalStep(plan[2])
    ensures !currentIsMaskOn ==> plan == [PlayWearAndHold, SwitchWorld, FadeOutAndHide]
    ensures currentIsMaskOn ==> plan == [ShowWornPose, SwitchWorld, PlayRemovalAndHide]
  {
    if !currentIsMaskOn then [PlayWearAndHold, SwitchWorld, FadeOutAndHide]
    else [ShowWornPose, SwitchWorld, PlayRemovalAndHide]
  }

  /** The two plans share no step except the world switch. */
  lemma PlansDisjoint(step: ToggleStep)
    requires step in Build(false) && step in Build(true)
    ensures step == SwitchWorld
  {
  }
}
