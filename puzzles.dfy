/** Which puzzles are solved (PuzzleProgress), and the pickup condition
    that asks for one (PuzzleSolvedCondition).  Ids are compared after
    trimming; a blank id names no puzzle. */
module Puzzles {
  import opened Text

  /** PuzzleProgress.TryNormalizeId: the trimmed id, none for a blank one. */
  function NormalizeId(puzzleId: string): (r: Option<string>)
    ensures r.Some? <==> !IsBlank(puzzleId)
    ensures r.Some? ==> r.value == Trim(puzzleId) && r.value != "" && IsTrimmed(r.value)
  {
    if IsBlank(puzzleId) then None
    else
      var normalized := Trim(puzzleId);
      TrimOfNonBlank(puzzleId);
      if |normalized| > 0 then Some(normalized) else None
  }

  /** PuzzleProgress.IsSolved, on the dictionary it reads. */
  function SolvedIn(solvedById: map<string, bool>, puzzleId: string): bool {
    match NormalizeId(puzzleId)
    case None => false
    case Some(id) => id in solvedById && solvedById[id]
  }

  /** The dictionary after PuzzleProgress.SetSolved. */
  function WithSolved(solvedById: map<string, bool>, puzzleId: string, solved: bool): map<string, bool> {
    match NormalizeId(puzzleId)
    case None => solvedById
    case Some(id) => solvedById[id := solved]
  }

  /** A blank id is never solved, and any spelling of an id that trims to
      the same text reads the same entry. */
  lemma SolvedIgnoresSurroundingSpace(solvedById: map<string, bool>, puzzleId: string)
    ensures IsBlank(puzzleId) ==> !SolvedIn(solvedById, puzzleId)
    ensures SolvedIn(solvedById, puzzleId) == SolvedIn(solvedById, Trim(puzzleId))
  {
    BlankIffTrimEmpty(puzzleId);
    BlankIffTrimEmpty(Trim(puzzleId));
    TrimIdempotent(puzzleId);
  }

  /** After SetSolved, every spelling of that id reads the new flag, and
      every other id reads what it read before. */
  lemma SetSolvedEffect(solvedById: map<string, bool>, puzzleId: string, solved: bool, other: string)
    requires !IsBlank(puzzleId)
    ensures Trim(other) == Trim(puzzleId) ==> SolvedIn(WithSolved(solvedById, puzzleId, solved), other) == solved
    ensures Trim(other) != Trim(puzzleId) ==>
      SolvedIn(WithSolved(solvedById, puzzleId, solved), other) == SolvedIn(solvedById, other)
  {
    BlankIffTrimEmpty(puzzleId);
    BlankIffTrimEmpty(other);
  }

  /** SetSolved with a blank id changes nothing. */
  lemma SetSolvedBlankIgnored(solvedById: map<string, bool>, puzzleId: string, solved: bool)
    requires IsBlank(puzzleId)
    ensures WithSolved(solvedById, puzzleId, solved) == solvedById
  {
  }

  /** The id "  p2  " is stored as "p2". */
  lemma SetSolvedTrimsId(solvedById: map<string, bool>)
    ensures SolvedIn(WithSolved(solvedById, "  p2  ", true), "p2")
  {
    var s := "  p2  ";
    assert LeadingSpaces(s[2..]) == 0;
    assert LeadingSpaces(s[1..]) == 1;
    assert LeadingSpaces(s) == 2;
    var t := TrimStart(s);
    assert t == "p2  ";
    assert EndOfText(t[..2]) == 2;
    assert EndOfText(t[..3]) == 2;
    assert EndOfText(t) == 2;
    assert Trim(s) == "p2";
    assert IsTrimmed("p2");
    TrimOfTrimmed("p2");
    SetSolvedEffect(solvedById, s, true, "p2");
  }

  /** PuzzleProgress: process-wide, in memory only. */
  class PuzzleProgress {
    var solvedById: map<string, bool>

    constructor ()
      ensures solvedById == map[]
    {
      solvedById := map[];
    }

    /** PuzzleProgress.IsSolved */
    method IsSolved(puzzleId: string) returns (b: bool)
      ensures b == SolvedIn(solvedById, puzzleId)
      ensures b ==> !IsBlank(puzzleId) && Trim(puzzleId) in solvedById
    {
      var id := NormalizeId(puzzleId);
      if id.None? {
        return false;
      }
      b := id.value in solvedById && solvedById[id.value];
    }

    /** PuzzleProgress.SetSolved */
    method SetSolved(puzzleId: string, solved: bool)
      modifies this
      ensures solvedById == WithSolved(old(solvedById), puzzleId, solved)
    {
      var id := NormalizeId(puzzleId);
      if id.None? {
        return;
      }
      solvedById := solvedById[id.value := solved];
    }

    /** PuzzleProgress.MarkSolved */
    method MarkSolved(puzzleId: string)
      modifies this
      ensures solvedById == WithSolved(old(solvedById), puzzleId, true)
    {
      SetSolved(puzzleId, true);
    }

    /** PuzzleProgress.ResetAll */
    method ResetAll()
      modifies this
      ensures solvedById == map[]
    {
      solvedById := map[];
    }
  }

  const BlockedPrefix: string := "需要先解开谜题："

  /** PuzzleSolvedCondition.CanPickup: allowed exactly when the puzzle is
      solved; otherwise the reason is the trimmed override, or the default
      text naming the puzzle when the override is blank. */
  function CanPickup(solvedById: map<string, bool>, puzzleId: string, blockedReasonOverride: string)
    : (r: (bool, Option<string>))
    ensures r.0 <==> SolvedIn(solvedById, puzzleId)
    ensures r.0 ==> r.1.None?
    ensures !r.0 ==> r.1.Some? && r.1.value != "" && !IsBlank(r.1.value)
    ensures !r.0 && IsBlank(blockedReasonOverride) ==> r.1 == Some(BlockedPrefix + puzzleId)
    ensures !r.0 && !IsBlank(blockedReasonOverride) ==> r.1 == Some(Trim(blockedReasonOverride))
  {
    if SolvedIn(solvedById, puzzleId) then (true, None)
    else if IsBlank(blockedReasonOverride) then
      assert (BlockedPrefix + puzzleId)[0] == BlockedPrefix[0];
      (false, Some(BlockedPrefix + puzzleId))
    else
      TrimOfNonBlank(blockedReasonOverride);
      (false, Some(Trim(blockedReasonOverride)))
  }
}
