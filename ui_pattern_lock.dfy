/** The older copy of the nine-point lock (UI/GridPatternLock): the same
    input handling as the decryption lock, two fixed answers, and a check
    that first demands exactly five points. */
module UiPatternLock {
  import opened PatternLock

  const Password1: seq<int> := [3, 0, 7, 2, 5]
  const Password2: seq<int> := [5, 2, 7, 0, 3]

  /** GridPatternLock.SequenceEquals: equal counts and equal elements at
      every index. */
  method SequenceEquals(a: seq<int>, b: seq<int>) returns (r: bool)
    ensures r <==> |a| == |b| && forall i :: 0 <= i < |a| ==> a[i] == b[i]
    ensures r <==> a == b
  {
    if |a| != |b| {
      return false;
    }
    var i := 0;
    while i < |a|
      invariant 0 <= i <= |a|
      invariant forall k :: 0 <= k < i ==> a[k] == b[k]
    {
      if a[i] != b[i] {
        return false;
      }
      i := i + 1;
    }
    return true;
  }

  /** The answers this lock accepts, as a function of the pattern. */
  predicate Accepted(points: seq<int>) {
    |points| == 5 && (points == Password1 || points == Password2)
  }

  /** The five-point guard never rejects an answer: a pattern is accepted
      exactly when it is one of the two passwords. */
  lemma AcceptedIffPassword(points: seq<int>)
    ensures Accepted(points) <==> points == Password1 || points == Password2
  {
  }

  /** UI/GridPatternLock, its pattern state only. */
  class GridPatternLock {
    var input: Input
    var isOpen: bool
    /** Whether a hint text label is set, or found under the window, when
        the lock starts. */
    const hasHintText: bool

    predicate Valid()
      reads this
    {
      Drawable(input)
    }

    constructor (hintText: bool)
      ensures Valid() && input == Cleared && isOpen && hasHintText == hintText
    {
      hasHintText := hintText;
      input := Cleared;
      isOpen := true;
    }

    /** GridPatternLock.OnPointDown */
    method OnPointDown(index: int)
      modifies this
      ensures input == PointDown(old(input), index)
      ensures old(Valid()) ==> Valid()
      ensures isOpen == old(isOpen)
    {
      if !input.dragging {
        ClearPattern();
      }
      if index in input.points {
        return;
      }
      input := Input(input.points + [index], true);
    }

    /** GridPatternLock.OnPointEnter */
    method OnPointEnter(index: int)
      modifies this
      ensures input == PointEnter(old(input), index)
      ensures old(Valid()) ==> Valid()
      ensures isOpen == old(isOpen)
    {
      if !input.dragging || index in input.points {
        return;
      }
      input := input.(points := input.points + [index]);
    }

    /** GridPatternLock.Update, its release check: the drag ends once the
        mouse button is up.  The line container it first tests for is
        created at setup when missing, so that early return is not taken. */
    method Update(mouseHeld: bool)
      modifies this
      ensures input == Release(old(input), mouseHeld)
      ensures old(Valid()) ==> Valid()
      ensures isOpen == old(isOpen)
    {
      if input.dragging && !mouseHeld {
        input := input.(dragging := false);
      }
    }

    /** GridPatternLock.ClearPattern */
    method ClearPattern()
      modifies this
      ensures input == Cleared && Valid()
      ensures isOpen == old(isOpen)
    {
      input := Cleared;
    }

    /** GridPatternLock.OnReset */
    method OnReset()
      modifies this
      ensures input == Cleared && Valid()
      ensures isOpen == old(isOpen)
    {
      ClearPattern();
    }

    /** GridPatternLock.CheckPassword */
    method CheckPassword() returns (b: bool)
      ensures b <==> Accepted(input.points)
      ensures b ==> |input.points| == 5
    {
      if |input.points| != 5 {
        return false;
      }
      var m1 := SequenceEquals(input.points, Password1);
      if m1 {
        return true;
      }
      b := SequenceEquals(input.points, Password2);
    }

    /** GridPatternLock.OnConfirm: an accepted pattern closes the window
        and keeps the pattern; a rejected one starts the error feedback,
        which without a hint text clears the pattern at once and otherwise
        after a delay that is not part of this model. */
    method OnConfirm() returns (accepted: bool)
      modifies this
      ensures accepted <==> Accepted(old(input.points))
      ensures input == if accepted || hasHintText then old(input) else Cleared
      ensures isOpen == (old(isOpen) && !accepted)
    {
      accepted := CheckPassword();
      if accepted {
        isOpen := false;
      } else if !hasHintText {
        ClearPattern();
      }
    }
  }
}
