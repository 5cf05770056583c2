/** Level sequencing (LevelIndexSequence) and the component that shows one
    level root at a time (LevelRootSwitcher). */
module Level {
  import opened Text

  const NoLevelsError: string := "未配置关卡数量。"
  const LastLevelError: string := "已到最后一关。"
  const SwitcherPrefix: string := "LevelRootSwitcher: "
  const NoRootsError: string := "LevelRootSwitcher: 未配置关卡根节点列表。"

  /** The error of an index outside the level range. */
  function OutOfRangeError(currentIndex: int, levelCount: int): string {
    "当前关卡下标越界：" + IntText(currentIndex) + "（关卡数=" + IntText(levelCount) + "）。"
  }

  /** LevelIndexSequence.TryGetNextIndex, as (succeeded, nextIndex, error).
      It succeeds exactly when the current index is a level before the last
      one; success gives the following index and no error, failure gives -1
      and a non-empty error naming the reason. */
  function TryGetNextIndex(currentIndex: int, levelCount: int): (r: (bool, int, Option<string>))
    ensures r.0 <==> 0 <= currentIndex && currentIndex + 1 < levelCount
    ensures r.0 ==> r.1 == currentIndex + 1 && 0 < r.1 < levelCount && r.2.None?
    ensures !r.0 ==> r.1 == -1 && r.2.Some? && r.2.value != ""
    ensures levelCount <= 0 ==> r.2 == Some(NoLevelsError)
    ensures 0 < levelCount && (currentIndex < 0 || currentIndex >= levelCount) ==>
              r.2 == Some(OutOfRangeError(currentIndex, levelCount))
    ensures 0 < levelCount && currentIndex == levelCount - 1 ==> r.2 == Some(LastLevelError)
  {
    if levelCount <= 0 then (false, -1, Some(NoLevelsError))
    else if currentIndex < 0 || currentIndex >= levelCount then
      (false, -1, Some(OutOfRangeError(currentIndex, levelCount)))
    else if currentIndex + 1 >= levelCount then (false, -1, Some(LastLevelError))
    else (true, currentIndex + 1, None)
  }

  /** Walking the sequence from level 0 visits every level in order:
      index k is reached after exactly k successful steps. */
  lemma {:induction false} StepsReachEveryLevel(k: nat, levelCount: int)
    requires k < levelCount
    ensures Walk(0, k, levelCount) == Some(k)
  {
    if k > 0 {
      StepsReachEveryLevel(k - 1, levelCount);
    }
  }

  /** The index after `steps` successful calls from `start`, none once a
      call fails. */
  function Walk(start: int, steps: nat, levelCount: int): Option<int> {
    if steps == 0 then Some(start)
    else match Walk(start, steps - 1, levelCount)
      case None => None
      case Some(i) =>
        var r := TryGetNextIndex(i, levelCount);
        if r.0 then Some(r.1) else None
  }

  /** Mathf.Clamp(value, lo, hi), for lo <= hi. */
  function Clamp(value: int, lo: int, hi: int): (r: int)
    requires lo <= hi
    ensures lo <= r <= hi
    ensures lo <= value <= hi ==> r == value
    ensures value < lo ==> r == lo
    ensures value > hi ==> r == hi
  {
    if value < lo then lo else if value > hi then hi else value
  }

  /** The start index Awake picks: the configured one clamped to the
      levels, or 0 when there are none. */
  function StartIndex(startLevelIndex: int, levelCount: nat): (r: int)
    ensures levelCount > 0 ==> 0 <= r < levelCount
    ensures levelCount == 0 ==> r == 0
    ensures 0 <= startLevelIndex < levelCount ==> r == startLevelIndex
  {
    Clamp(startLevelIndex, 0, if levelCount > 0 then levelCount - 1 else 0)
  }

  /** A slot of the level root array: unassigned, or a root with its
      active flag. */
  datatype LevelRoot = Unassigned | Assigned(active: bool)

  /** The roots after ApplyActiveState(activeIndex). */
  function Activated(roots: seq<LevelRoot>, activeIndex: int): (r: seq<LevelRoot>)
    ensures |r| == |roots|
    ensures forall i :: 0 <= i < |r| ==> (r[i].Assigned? <==> roots[i].Assigned?)
    ensures forall i :: 0 <= i < |r| && r[i].Assigned? ==> (r[i].active <==> i == activeIndex)
  {
    seq(|roots|, i requires 0 <= i < |roots| => if roots[i].Assigned? then Assigned(i == activeIndex) else Unassigned)
  }

  /** After ApplyActiveState at most one root is active, and it is the one
      at the active index; that one is active whenever it is assigned. */
  lemma ActivatedShowsOneLevel(roots: seq<LevelRoot>, activeIndex: int, i: int, j: int)
    requires 0 <= i < |roots| && 0 <= j < |roots|
    requires Activated(roots, activeIndex)[i] == Assigned(true)
    requires Activated(roots, activeIndex)[j] == Assigned(true)
    ensures i == j == activeIndex
  {
  }

  /** LevelRootSwitcher; a null root array is `null`. */
  class LevelRootSwitcher {
    const levelRoots: array?<LevelRoot>
    const startLevelIndex: int
    var currentLevelIndex: int

    /** LevelRootSwitcher.LevelCount */
    function LevelCount(): (n: nat)
      ensures levelRoots == null ==> n == 0
      ensures levelRoots != null ==> n == levelRoots.Length
    {
      if levelRoots == null then 0 else levelRoots.Length
    }

    /** The roots as a sequence, empty for a null array. */
    function Roots(): (s: seq<LevelRoot>)
      reads levelRoots
      ensures |s| == LevelCount()
    {
      if levelRoots == null then [] else levelRoots[..]
    }

    /** The component as configured, after Awake. */
    constructor (roots: array?<LevelRoot>, startIndex: int)
      modifies roots
      ensures levelRoots == roots && startLevelIndex == startIndex
      ensures currentLevelIndex == StartIndex(startIndex, LevelCount())
      ensures Roots() == Activated(old(if roots == null then [] else roots[..]), currentLevelIndex)
    {
      levelRoots := roots;
      startLevelIndex := startIndex;
      currentLevelIndex := 0;
      new;
      Awake();
    }

    /** LevelRootSwitcher.Awake */
    method Awake()
      modifies this, levelRoots
      ensures currentLevelIndex == StartIndex(startLevelIndex, LevelCount())
      ensures Roots() == Activated(old(Roots()), currentLevelIndex)
    {
      currentLevelIndex := StartIndex(startLevelIndex, LevelCount());
      ApplyActiveState(currentLevelIndex);
    }

    /** LevelRootSwitcher.TryGoToNextLevel: without roots, or when the
        sequence refuses, the index and the roots stay and the error is
        reported with the component's prefix; otherwise the index moves one
        on and only that level is shown. */
    method TryGoToNextLevel() returns (ok: bool, error: Option<string>)
      modifies this, levelRoots
      ensures LevelCount() == 0 ==> !ok && error == Some(NoRootsError)
      ensures LevelCount() > 0 ==> ok == TryGetNextIndex(old(currentLevelIndex), LevelCount()).0
      ensures ok ==> error.None? && currentLevelIndex == old(currentLevelIndex) + 1
      ensures ok ==> Roots() == Activated(old(Roots()), currentLevelIndex)
      ensures !ok ==> error.Some? && currentLevelIndex == old(currentLevelIndex) && Roots() == old(Roots())
      ensures LevelCount() > 0 && !ok ==>
                error == Some(SwitcherPrefix + TryGetNextIndex(old(currentLevelIndex), LevelCount()).2.value)
    {
      if LevelCount() <= 0 {
        return false, Some(NoRootsError);
      }
      var r := TryGetNextIndex(currentLevelIndex, LevelCount());
      if !r.0 {
        return false, Some(SwitcherPrefix + r.2.value);
      }
      currentLevelIndex := r.1;
      ApplyActiveState(currentLevelIndex);
      return true, None;
    }

    /** LevelRootSwitcher.ApplyActiveState */
    method ApplyActiveState(activeIndex: int)
      modifies levelRoots
      ensures Roots() == Activated(old(Roots()), activeIndex)
    {
      if levelRoots == null {
        return;
      }
      var i := 0;
      while i < levelRoots.Length
        invariant 0 <= i <= levelRoots.Length
        invariant levelRoots[..i] == Activated(old(levelRoots[..]), activeIndex)[..i]
        invariant levelRoots[i..] == old(levelRoots[..])[i..]
      {
        if levelRoots[i].Assigned? {
          levelRoots[i] := Assigned(i == activeIndex);
        }
        i := i + 1;
      }
    }
  }
}
