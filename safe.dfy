/** The safe's two locks (SafeUI): a four-digit code typed on number
    buttons, which must be 1027, and three rollers of three symbols each
    (square, triangle, circle), which must show triangle, circle,
    triangle. */
module Safe {

  const FirstPassword: string := "1027"
  const Symbols: seq<char> := ['■', '▲', '●']
  const SecondPassword: seq<int> := [1, 2, 1]
  const RollerCount: nat := 3
  const MaxDigits: nat := 4

  /** The character a number button adds: '0' + digit. */
  function DigitChar(digit: int): (c: char)
    requires 0 <= digit <= 9
    ensures '0' <= c <= '9' && c as int - '0' as int == digit
  {
    (48 + digit) as char
  }

  /** The digit buffer after one number button: full buffers ignore it. */
  function Type(buffer: seq<char>, digit: int): (r: seq<char>)
    requires 0 <= digit <= 9
    ensures |buffer| >= MaxDigits ==> r == buffer
    ensures |buffer| < MaxDigits ==> r == buffer + [DigitChar(digit)]
    ensures |buffer| <= MaxDigits ==> |r| <= MaxDigits
  {
    if |buffer| >= MaxDigits then buffer else buffer + [DigitChar(digit)]
  }

  predicate AllDigits(ds: seq<int>) {
    forall k :: 0 <= k < |ds| ==> 0 <= ds[k] <= 9
  }

  /** The characters of a series of digits. */
  function DigitsText(ds: seq<int>): (s: string)
    requires AllDigits(ds)
    ensures |s| == |ds|
  {
    if ds == [] then [] else [DigitChar(ds[0])] + DigitsText(ds[1..])
  }

  /** The buffer after a series of number buttons. */
  function TypeAll(buffer: seq<char>, ds: seq<int>): seq<char>
    requires AllDigits(ds)
    decreases |ds|
  {
    if ds == [] then buffer else TypeAll(Type(buffer, ds[0]), ds[1..])
  }

  /** A full buffer ignores every further digit. */
  lemma {:induction false} TypeAllFull(buffer: seq<char>, ds: seq<int>)
    requires AllDigits(ds) && |buffer| >= MaxDigits
    ensures TypeAll(buffer, ds) == buffer
    decreases |ds|
  {
    if ds != [] {
      TypeAllFull(buffer, ds[1..]);
    }
  }

  /** The safe keeps the digits typed while its buffer has room, that is
      the first `n` of them, and ignores the rest. */
  lemma {:induction false} TypeAllKeepsFirstDigits(buffer: seq<char>, ds: seq<int>, n: nat)
    requires AllDigits(ds) && |buffer| <= MaxDigits
    requires n == if |buffer| + |ds| <= MaxDigits then |ds| else MaxDigits - |buffer|
    ensures TypeAll(buffer, ds) == buffer + DigitsText(ds[..n])
    decreases |ds|
  {
    if ds == [] || |buffer| == MaxDigits {
      if ds != [] {
        TypeAllFull(buffer, ds);
      }
      assert ds[..n] == [];
    } else {
      var c, rest := DigitChar(ds[0]), ds[1..];
      assert AllDigits(rest);
      assert TypeAll(buffer, ds) == TypeAll(buffer + [c], rest);
      TypeAllKeepsFirstDigits(buffer + [c], rest, n - 1);
      DigitsTextOfPrefix(ds, n);
      var tail := DigitsText(rest[..n - 1]);
      assert (buffer + [c]) + tail == buffer + ([c] + tail);
    }
  }

  /** The text of a non-empty prefix starts with its first digit. */
  lemma DigitsTextOfPrefix(ds: seq<int>, n: nat)
    requires AllDigits(ds) && 0 < n <= |ds|
    ensures DigitsText(ds[..n]) == [DigitChar(ds[0])] + DigitsText(ds[1..][..n - 1])
  {
    assert ds[..n][1..] == ds[1..][..n - 1];
  }

  /** The code 1027 is the digits 1, 0, 2, 7. */
  lemma FirstPasswordDigits()
    ensures DigitsText([1, 0, 2, 7]) == FirstPassword
  {
  }

  /** The roller states after clicking roller `index` with `buttonCount`
      roller buttons: an index outside the rollers or the buttons changes
      nothing; otherwise that roller moves to the next symbol. */
  function Click(states: seq<int>, index: int, buttonCount: nat): (r: seq<int>)
    ensures |r| == |states|
    ensures !(0 <= index < |states| && index < buttonCount) ==> r == states
    ensures 0 <= index < |states| && index < buttonCount ==>
              r[index] == (states[index] + 1) % |Symbols|
              && forall k :: 0 <= k < |states| && k != index ==> r[k] == states[k]
  {
    if index < 0 || index >= |states| || index >= buttonCount then states
    else states[index := (states[index] + 1) % |Symbols|]
  }

  /** Every roller shows one of the three symbols. */
  predicate InRange(states: seq<int>) {
    forall k :: 0 <= k < |states| ==> 0 <= states[k] < |Symbols|
  }

  /** Clicking keeps every roller on a symbol, and three clicks on the
      same roller bring it back. */
  lemma ClickCycles(states: seq<int>, index: int, buttonCount: nat)
    requires InRange(states)
    ensures InRange(Click(states, index, buttonCount))
    ensures Click(Click(Click(states, index, buttonCount), index, buttonCount), index, buttonCount) == states
  {
    if 0 <= index < |states| && index < buttonCount {
      var s1 := Click(states, index, buttonCount);
      var s3 := Click(Click(s1, index, buttonCount), index, buttonCount);
      assert s3[index] == states[index];
      assert forall k :: 0 <= k < |states| ==> s3[k] == states[k];
    }
  }

  /** From the reset rollers, one click on the first and the last roller
      and two on the middle one open the second lock. */
  lemma SecondPasswordReachable()
    ensures Click(Click(Click(Click([0, 0, 0], 0, 3), 1, 3), 1, 3), 2, 3) == SecondPassword
  {
  }

  /** SafeUI */
  class SafeUI {
    const rollerButtonCount: nat
    const rollerStates: array<int>
    var firstInput: seq<char>
    var isOpen: bool

    predicate Valid()
      reads this, rollerStates
    {
      rollerStates.Length == RollerCount && |firstInput| <= MaxDigits && InRange(rollerStates[..])
    }

    /** A shown safe with `rollerButtonCount` roller buttons. */
    constructor (rollerButtonCount: nat)
      ensures Valid() && fresh(rollerStates)
      ensures this.rollerButtonCount == rollerButtonCount
      ensures firstInput == [] && rollerStates[..] == [0, 0, 0] && isOpen
    {
      this.rollerButtonCount := rollerButtonCount;
      rollerStates := new int[3](_ => 0);
      firstInput := [];
      isOpen := true;
      new;
      assert rollerStates[..] == [0, 0, 0];
    }

    /** SafeUI.OnNumberClicked, for the digit buttons 0 to 9: the digit is
        added to a buffer of fewer than four; the fourth digit triggers the
        first-password check, `checked` says so and `correct` gives its
        result. */
    method OnNumberClicked(digit: int) returns (checked: bool, correct: bool)
      requires Valid() && 0 <= digit <= 9
      modifies this
      ensures Valid()
      ensures firstInput == Type(old(firstInput), digit)
      ensures checked <==> |old(firstInput)| == MaxDigits - 1
      ensures correct <==> checked && firstInput == FirstPassword
      ensures isOpen == (old(isOpen) && !(checked && !correct))
    {
      checked, correct := false, false;
      if |firstInput| >= MaxDigits {
        return;
      }
      firstInput := firstInput + [DigitChar(digit)];
      if |firstInput| == MaxDigits {
        checked := true;
        correct := CheckFirstPassword();
      }
    }

    /** SafeUI.CheckFirstPassword: a wrong code closes the safe. */
    method CheckFirstPassword() returns (correct: bool)
      modifies this
      ensures correct <==> firstInput == FirstPassword
      ensures firstInput == old(firstInput)
      ensures isOpen == (old(isOpen) && correct)
    {
      if firstInput != FirstPassword {
        isOpen := false;
        return false;
      }
      return true;
    }

    /** SafeUI.OnRollerClicked: the roller moves to its next symbol and the
        second password is checked; an index outside the rollers or the
        buttons changes nothing. */
    method OnRollerClicked(index: int) returns (secondCorrect: bool)
      requires Valid()
      modifies rollerStates
      ensures Valid()
      ensures rollerStates[..] == Click(old(rollerStates[..]), index, rollerButtonCount)
      ensures secondCorrect <==> 0 <= index < RollerCount && index < rollerButtonCount
                                 && rollerStates[..] == SecondPassword
    {
      if index < 0 || index >= rollerStates.Length || index >= rollerButtonCount {
        return false;
      }
      rollerStates[index] := (rollerStates[index] + 1) % |Symbols|;
      secondCorrect := CheckSecondPassword();
    }

    /** SafeUI.CheckSecondPassword */
    method CheckSecondPassword() returns (correct: bool)
      requires rollerStates.Length == RollerCount
      ensures correct <==> rollerStates[..] == SecondPassword
    {
      correct := rollerStates[0] == 1 && rollerStates[1] == 2 && rollerStates[2] == 1;
      assert correct ==> rollerStates[..] == [rollerStates[0], rollerStates[1], rollerStates[2]];
    }

    /** SafeUI.Close */
    method Close()
      modifies this
      ensures !isOpen && firstInput == old(firstInput)
    {
      isOpen := false;
    }

    /** SafeUI.OnEnable: the digit buffer is emptied and every roller
        shows the square again. */
    method OnEnable()
      requires rollerStates.Length == RollerCount
      modifies this, rollerStates
      ensures Valid()
      ensures firstInput == [] && rollerStates[..] == [0, 0, 0] && isOpen == old(isOpen)
    {
      firstInput := [];
      var i := 0;
      while i < rollerStates.Length
        invariant 0 <= i <= rollerStates.Length
        invariant forall k :: 0 <= k < i ==> rollerStates[k] == 0
        modifies rollerStates
      {
        rollerStates[i] := 0;
        i := i + 1;
      }
      assert rollerStates[..] == [rollerStates[0], rollerStates[1], rollerStates[2]];
    }
  }
}
