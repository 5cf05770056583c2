/** The nine-point pattern lock of the decryption puzzle: the validator
    (PatternLockValidator), the input state shared by both lock components
    (points pressed and dragged over, each at most once), and the
    decryption component (Decryption/GridPatternLock) with its replaceable
    accepted patterns. */
module PatternLock {
  import opened Text

  /** Every point of the pattern occurs once. */
  predicate Distinct(s: seq<int>) {
    forall i, j :: 0 <= i < j < |s| ==> s[i] != s[j]
  }

  /** The input being drawn: the points linked so far and whether a drag
      is in progress. */
  datatype Input = Input(points: seq<int>, dragging: bool)

  /** A drawing state the lock can reach: distinct points, and a drag only
      over a non-empty pattern. */
  predicate Drawable(p: Input) {
    Distinct(p.points) && (p.dragging ==> |p.points| > 0)
  }

  /** ClearPattern: no points and no drag. */
  const Cleared: Input := Input([], false)

  /** OnPointDown: outside a drag the pattern restarts with the pressed
      point; inside a drag the point is added unless already linked.
      Either way a drag is in progress and the point is linked. */
  function PointDown(p: Input, index: int): (r: Input)
    ensures r.dragging && index in r.points
    ensures !p.dragging ==> r.points == [index]
    ensures p.dragging && index in p.points ==> r == p
    ensures p.dragging && index !in p.points ==> r.points == p.points + [index]
    ensures Drawable(p) ==> Drawable(r)
  {
    var start := if p.dragging then p else Cleared;
    if index in start.points then start
    else Input(start.points + [index], true)
  }

  /** OnPointEnter: during a drag a point not yet linked is added; anything
      else leaves the input as it is. */
  function PointEnter(p: Input, index: int): (r: Input)
    ensures r.dragging == p.dragging
    ensures r != p <==> p.dragging && index !in p.points
    ensures r != p ==> r.points == p.points + [index]
    ensures p.dragging ==> index in r.points
    ensures Drawable(p) ==> Drawable(r)
  {
    if !p.dragging || index in p.points then p
    else Input(p.points + [index], true)
  }

  /** Update's release check: the drag ends when the mouse button is up;
      the points stay. */
  function Release(p: Input, mouseHeld: bool): (r: Input)
    ensures r.points == p.points
    ensures r.dragging <==> p.dragging && mouseHeld
    ensures Drawable(p) ==> Drawable(r)
  {
    if p.dragging && !mouseHeld then p.(dragging := false) else p
  }

  /** The input events of the grid. */
  datatype Event = Down(index: int) | Enter(index: int) | Up | Clear

  function Handle(p: Input, e: Event): Input {
    match e
    case Down(i) => PointDown(p, i)
    case Enter(i) => PointEnter(p, i)
    case Up => Release(p, false)
    case Clear => Cleared
  }

  function HandleAll(p: Input, events: seq<Event>): Input
    decreases |events|
  {
    if events == [] then p else HandleAll(Handle(p, events[0]), events[1..])
  }

  /** From a cleared lock, any series of input events leaves a pattern
      in which every point is linked at most once. */
  lemma {:induction false} EventsKeepPatternDistinct(p: Input, events: seq<Event>)
    requires Drawable(p)
    ensures Drawable(HandleAll(p, events))
    decreases |events|
  {
    if events != [] {
      EventsKeepPatternDistinct(Handle(p, events[0]), events[1..]);
    }
  }

  /** A pattern of distinct points drawn from a set of grid points has at
      most as many points as the grid. */
  lemma {:induction false} DistinctPatternBound(s: seq<int>, grid: set<int>)
    requires Distinct(s)
    requires forall k :: 0 <= k < |s| ==> s[k] in grid
    ensures |s| <= |grid|
    decreases |s|
  {
    if s != [] {
      var last := s[|s| - 1];
      var init := s[..|s| - 1];
      forall k | 0 <= k < |init|
        ensures init[k] in grid - {last}
      {
        assert init[k] == s[k] && s[k] != s[|s| - 1];
      }
      DistinctPatternBound(init, grid - {last});
    }
  }

  /** PatternLockValidator.IsMatch, where `None` is a null list: true
      exactly when both lists exist and are equal element by element. */
  method IsMatch(input: Option<seq<int>>, expected: Option<seq<int>>) returns (b: bool)
    ensures b <==> input.Some? && expected.Some? && input.value == expected.value
  {
    if input.None? || expected.None? {
      return false;
    }
    var a, e := input.value, expected.value;
    if |a| != |e| {
      return false;
    }
    var i := 0;
    while i < |a|
      invariant 0 <= i <= |a|
      invariant a[..i] == e[..i]
    {
      if a[i] != e[i] {
        return false;
      }
      i := i + 1;
    }
    assert a == a[..i] && e == e[..i];
    return true;
  }

  /** The serialized default answers of the decryption lock. */
  const DefaultPattern1: seq<int> := [3, 0, 7, 2, 5]
  const DefaultPattern2: seq<int> := [5, 2, 7, 0, 3]

  /** An accepted pattern: the override when one is set, else the default. */
  function Effective(overridePattern: Option<seq<int>>, defaultPattern: seq<int>): (r: seq<int>)
    ensures overridePattern.None? ==> r == defaultPattern
    ensures overridePattern.Some? ==> r == overridePattern.value
  {
    if overridePattern.Some? then overridePattern.value else defaultPattern
  }

  /** Only the two default answers open a lock without overrides. */
  lemma DefaultAnswers(points: seq<int>)
    ensures points == Effective(None, DefaultPattern1) || points == Effective(None, DefaultPattern2)
            <==> points == [3, 0, 7, 2, 5] || points == [5, 2, 7, 0, 3]
  {
  }

  /** Decryption/GridPatternLock, its pattern state only. */
  class GridPatternLock {
    var input: Input
    var isOpen: bool
    var overrideAcceptedPattern1: Option<seq<int>>
    var overrideAcceptedPattern2: Option<seq<int>>
    /** Whether a hint text label is wired, or found under the lock, when
        the lock initialises. */
    const hasHintText: bool

    predicate Valid()
      reads this
    {
      Drawable(input)
    }

    constructor (hintText: bool)
      ensures Valid() && input == Cleared && isOpen && hasHintText == hintText
      ensures overrideAcceptedPattern1.None? && overrideAcceptedPattern2.None?
    {
      hasHintText := hintText;
      input := Cleared;
      isOpen := true;
      overrideAcceptedPattern1 := None;
      overrideAcceptedPattern2 := None;
    }

    /** GridPatternLock.OverrideAcceptedPatterns; `None` restores a default. */
    method OverrideAcceptedPatterns(pattern1: Option<seq<int>>, pattern2: Option<seq<int>>)
      modifies this
      ensures overrideAcceptedPattern1 == pattern1 && overrideAcceptedPattern2 == pattern2
      ensures input == old(input) && isOpen == old(isOpen)
    {
      overrideAcceptedPattern1 := pattern1;
      overrideAcceptedPattern2 := pattern2;
    }

    /** GridPatternLock.OnPointDown */
    method OnPointDown(index: int)
      modifies this
      ensures input == PointDown(old(input), index)
      ensures old(Valid()) ==> Valid()
      ensures isOpen == old(isOpen)
      ensures overrideAcceptedPattern1 == old(overrideAcceptedPattern1)
      ensures overrideAcceptedPattern2 == old(overrideAcceptedPattern2)
    {
      if !input.dragging {
        ClearPattern();
      }
      if index in input.points {
        return;
      }
      input := Input(input.points + [index], true);
    }

    /** GridPatternLock.OnPointEnter */
    method OnPointEnter(index: int)
      modifies this
      ensures input == PointEnter(old(input), index)
      ensures old(Valid()) ==> Valid()
      ensures isOpen == old(isOpen)
      ensures overrideAcceptedPattern1 == old(overrideAcceptedPattern1)
      ensures overrideAcceptedPattern2 == old(overrideAcceptedPattern2)
    {
      if !input.dragging || index in input.points {
        return;
      }
      input := input.(points := input.points + [index]);
    }

    /** GridPatternLock.Update, its release check: the drag ends once the
        mouse button is up.  The line container it first tests for is
        created at setup when missing, so that early return is not taken. */
    method Update(mouseHeld: bool)
      modifies this
      ensures input == Release(old(input), mouseHeld)
      ensures old(Valid()) ==> Valid()
      ensures isOpen == old(isOpen)
      ensures overrideAcceptedPattern1 == old(overrideAcceptedPattern1)
      ensures overrideAcceptedPattern2 == old(overrideAcceptedPattern2)
    {
      if input.dragging && !mouseHeld {
        input := input.(dragging := false);
      }
    }

    /** GridPatternLock.ClearPattern */
    method ClearPattern()
      modifies this
      ensures input == Cleared && Valid()
      ensures isOpen == old(isOpen)
      ensures overrideAcceptedPattern1 == old(overrideAcceptedPattern1)
      ensures overrideAcceptedPattern2 == old(overrideAcceptedPattern2)
    {
      input := Cleared;
    }

    /** GridPatternLock.Hide: the pattern is cleared and the window closed. */
    method Hide()
      modifies this
      ensures input == Cleared && Valid() && !isOpen
      ensures overrideAcceptedPattern1 == old(overrideAcceptedPattern1)
      ensures overrideAcceptedPattern2 == old(overrideAcceptedPattern2)
    {
      ClearPattern();
      isOpen := false;
    }

    /** GridPatternLock.CheckPassword: the pattern matches the first or the
        second accepted pattern. */
    method CheckPassword() returns (b: bool)
      ensures b <==> input.points == Effective(overrideAcceptedPattern1, DefaultPattern1)
                     || input.points == Effective(overrideAcceptedPattern2, DefaultPattern2)
    {
      var p1 := Effective(overrideAcceptedPattern1, DefaultPattern1);
      var p2 := Effective(overrideAcceptedPattern2, DefaultPattern2);
      var m1 := IsMatch(Some(input.points), Some(p1));
      if m1 {
        return true;
      }
      b := IsMatch(Some(input.points), Some(p2));
    }

    /** GridPatternLock.CopyPattern: a new array holding the pattern. */
    method CopyPattern() returns (arr: array<int>)
      ensures fresh(arr) && arr[..] == input.points
    {
      arr := new int[|input.points|];
      var i := 0;
      while i < |input.points|
        invariant 0 <= i <= |input.points|
        invariant arr[..i] == input.points[..i]
        modifies arr
      {
        arr[i] := input.points[i];
        i := i + 1;
      }
    }

    /** GridPatternLock.OnConfirm: an accepted pattern is copied, then the
        lock is hidden, and the copy is what the solved event receives
        (`null` when nothing is raised).  A rejected pattern starts the
        error feedback, which without a hint text clears the pattern at
        once and otherwise after a delay that is not part of this model. */
    method OnConfirm() returns (solvedPattern: array?<int>)
      modifies this
      ensures solvedPattern != null <==>
                old(input.points) == Effective(overrideAcceptedPattern1, DefaultPattern1)
                || old(input.points) == Effective(overrideAcceptedPattern2, DefaultPattern2)
      ensures solvedPattern != null ==>
                fresh(solvedPattern) && solvedPattern[..] == old(input.points) && input == Cleared && !isOpen
      ensures solvedPattern == null ==>
                input == (if hasHintText then old(input) else Cleared) && isOpen == old(isOpen)
      ensures overrideAcceptedPattern1 == old(overrideAcceptedPattern1)
      ensures overrideAcceptedPattern2 == old(overrideAcceptedPattern2)
    {
      var ok := CheckPassword();
      if ok {
        var copy := CopyPattern();
        Hide();
        return copy;
      }
      if !hasHintText {
        ClearPattern();
      }
      return null;
    }
  }

  /** A drawn pattern survives the release, and the next press starts a new
      pattern: linking 1 and 2, releasing the mouse and pressing 3 leaves
      only 3, again in a drag. */
  method PressReleaseRestart() returns (released: seq<int>, restarted: Input)
    ensures released == [1, 2]
    ensures restarted == Input([3], true)
  {
    var lock := new GridPatternLock(true);
    lock.OnPointDown(1);
    lock.OnPointEnter(2);
    lock.Update(false);
    released := lock.input.points;
    lock.OnPointDown(3);
    restarted := lock.input;
  }
}
