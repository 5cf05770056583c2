/** GamePrologueStateModel: the opening sequence of the game as a linear
    state machine NotStarted, ShowingInfo, PlayingGift, WaitingConfirm,
    Completed.  Each of the four confirmations succeeds only from the
    state just before it and moves one state on. */
module Prologue {

  datatype State = NotStarted | ShowingInfo | PlayingGift | WaitingConfirm | Completed

  /** The enum's numeric value. */
  function Ordinal(s: State): nat {
    match s
    case NotStarted => 0
    case ShowingInfo => 1
    case PlayingGift => 2
    case WaitingConfirm => 3
    case Completed => 4
  }

  /** The four confirmations: TryBegin, TryConfirmInfo, TryFinishGift,
      TryConfirmAcquireMask. */
  datatype Step = Begin | ConfirmInfo | FinishGift | ConfirmAcquireMask

  /** The state a step must start from. */
  function From(step: Step): State {
    match step
    case Begin => NotStarted
    case ConfirmInfo => ShowingInfo
    case FinishGift => PlayingGift
    case ConfirmAcquireMask => WaitingConfirm
  }

  /** The state a successful step leads to. */
  function To(step: Step): State {
    match step
    case Begin => ShowingInfo
    case ConfirmInfo => PlayingGift
    case FinishGift => WaitingConfirm
    case ConfirmAcquireMask => Completed
  }

  /** One Try* call: it succeeds exactly from its own start state, then
      moves exactly one ordinal on; a refused call keeps the state. */
  function Try(s: State, step: Step): (r: (bool, State))
    ensures r.0 <==> s == From(step)
    ensures r.0 ==> Ordinal(r.1) == Ordinal(s) + 1
    ensures !r.0 ==> r.1 == s
    ensures r.1 == Completed ==> r.0 || s == Completed
  {
    if s == From(step) then (true, To(step)) else (false, s)
  }

  /** The state after a series of Try* calls. */
  function Run(s: State, steps: seq<Step>): State
    decreases |steps|
  {
    if steps == [] then s else Run(Try(s, steps[0]).1, steps[1..])
  }

  /** The state ordinal never decreases, and grows by at most one per call. */
  lemma {:induction false} RunOrdinal(s: State, steps: seq<Step>)
    ensures Ordinal(s) <= Ordinal(Run(s, steps)) <= Ordinal(s) + |steps|
    decreases |steps|
  {
    if steps != [] {
      RunOrdinal(Try(s, steps[0]).1, steps[1..]);
    }
  }

  /** Completed is absorbing: no call leaves it. */
  lemma {:induction false} CompletedAbsorbing(steps: seq<Step>)
    ensures Run(Completed, steps) == Completed
    decreases |steps|
  {
    if steps != [] {
      CompletedAbsorbing(steps[1..]);
    }
  }

  /** From the start, Completed is reached only after at least four calls. */
  lemma CompletedNeedsFourCalls(steps: seq<Step>)
    requires Run(NotStarted, steps) == Completed
    ensures |steps| >= 4
  {
    RunOrdinal(NotStarted, steps);
  }

  /** The four calls in order all succeed and end in Completed. */
  lemma FullFlowCompletes()
    ensures Try(NotStarted, Begin) == (true, ShowingInfo)
    ensures Try(ShowingInfo, ConfirmInfo) == (true, PlayingGift)
    ensures Try(PlayingGift, FinishGift) == (true, WaitingConfirm)
    ensures Try(WaitingConfirm, ConfirmAcquireMask) == (true, Completed)
    ensures Run(NotStarted, [Begin, ConfirmInfo, FinishGift, ConfirmAcquireMask]) == Completed
  {
    var steps := [Begin, ConfirmInfo, FinishGift, ConfirmAcquireMask];
    assert steps[1..] == [ConfirmInfo, FinishGift, ConfirmAcquireMask];
    assert steps[1..][1..] == [FinishGift, ConfirmAcquireMask];
    assert steps[1..][1..][1..] == [ConfirmAcquireMask];
  }

  /** The state machine object; Current starts at NotStarted. */
  class GamePrologueStateModel {
    var current: State

    constructor ()
      ensures current == NotStarted
    {
      current := NotStarted;
    }

    /** GamePrologueStateModel.IsCompleted */
    predicate IsCompleted()
      reads this
    {
      current == Completed
    }

    /** GamePrologueStateModel.TryBegin */
    method TryBegin() returns (ok: bool)
      modifies this
      ensures (ok, current) == Try(old(current), Begin)
    {
      if current != NotStarted {
        return false;
      }
      current := ShowingInfo;
      return true;
    }

    /** GamePrologueStateModel.TryConfirmInfo */
    method TryConfirmInfo() returns (ok: bool)
      modifies this
      ensures (ok, current) == Try(old(current), ConfirmInfo)
    {
      if current != ShowingInfo {
        return false;
      }
      current := PlayingGift;
      return true;
    }

    /** GamePrologueStateModel.TryFinishGift */
    method TryFinishGift() returns (ok: bool)
      modifies this
      ensures (ok, current) == Try(old(current), FinishGift)
    {
      if current != PlayingGift {
        return false;
      }
      current := WaitingConfirm;
      return true;
    }

    /** GamePrologueStateModel.TryConfirmAcquireMask */
    method TryConfirmAcquireMask() returns (ok: bool)
      modifies this
      ensures (ok, current) == Try(old(current), ConfirmAcquireMask)
    {
      if current != WaitingConfirm {
        return false;
      }
      current := Completed;
      return true;
    }
  }

  /** The prologue flow on a fresh object: confirming the info first is
      refused, and the four calls in order end completed. */
  method PrologueFlow() returns (early: bool, b: bool, i: bool, g: bool, m: bool, done: bool)
    ensures !early
    ensures b && i && g && m && done
  {
    var model := new GamePrologueStateModel();
    early := model.TryConfirmInfo();
    b := model.TryBegin();
    i := model.TryConfirmInfo();
    g := model.TryFinishGift();
    m := model.TryConfirmAcquireMask();
    done := model.IsCompleted();
  }
}
