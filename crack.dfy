/** MaskCrackProgression: the crack stage the mask shows after a number of
    completed levels.  Stage 0 has no crack; each completed level adds one
    stage until the last. */
module Crack {

  /** MaskCrackProgression.GetStageIndex */
  function StageIndex(completedLevelCount: int, stageCount: int): (r: int)
    ensures stageCount <= 0 ==> r == 0
    ensures stageCount > 0 ==> 0 <= r < stageCount
    ensures completedLevelCount <= 0 ==> r == 0
    ensures 0 < completedLevelCount < stageCount ==> r == completedLevelCount
    ensures 0 < stageCount <= completedLevelCount ==> r == stageCount - 1
  {
    if stageCount <= 0 then 0
    else if completedLevelCount <= 0 then 0
    else if completedLevelCount >= stageCount then stageCount - 1
    else completedLevelCount
  }

  /** Completing more levels never shows an earlier stage. */
  lemma StageIndexMonotone(c1: int, c2: int, stageCount: int)
    requires c1 <= c2
    ensures StageIndex(c1, stageCount) <= StageIndex(c2, stageCount)
  {
  }

  /** The stage is the completed count clamped to the stage range. */
  lemma StageIndexIsClamp(completedLevelCount: int, stageCount: int)
    requires stageCount > 0
    ensures StageIndex(completedLevelCount, stageCount)
            == if completedLevelCount < 0 then 0
               else if completedLevelCount > stageCount - 1 then stageCount - 1
               else completedLevelCount
  {
  }
}
