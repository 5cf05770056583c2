/** EditorUtils.SanitizeSheetName: turns a worksheet name into the identifier
    part of a payload name.  The .NET predicates char.IsLetter and
    char.IsDigit are Unicode tables; they are passed in as `isLetter` and
    `isDigit`. */
module SheetNames {

  /** The first character survives if it is a letter or an underscore. */
  function MapFirst(c: char, isLetter: char -> bool): char {
    if isLetter(c) || c == '_' then c else '_'
  }

  /** Every later character survives if it is a letter, a digit or an
      underscore (char.IsLetterOrDigit). */
  function MapRest(c: char, isLetter: char -> bool, isDigit: char -> bool): char {
    if isLetter(c) || isDigit(c) || c == '_' then c else '_'
  }

  /** What the StringBuilder holds after the character loop. */
  function Identify(s: string, isLetter: char -> bool, isDigit: char -> bool): (r: string)
    ensures |r| == |s|
    ensures |r| > 0 ==> isLetter(r[0]) || r[0] == '_'
    ensures forall k :: 0 <= k < |r| ==> IdentChar(r[k], isLetter, isDigit)
  {
    seq(|s|, k requires 0 <= k < |s| =>
      if k == 0 then MapFirst(s[0], isLetter) else MapRest(s[k], isLetter, isDigit))
  }

  predicate IdentChar(c: char, isLetter: char -> bool, isDigit: char -> bool) {
    isLetter(c) || isDigit(c) || c == '_'
  }

  predicate AllIdentChars(s: string, isLetter: char -> bool, isDigit: char -> bool) {
    forall k :: 0 <= k < |s| ==> IdentChar(s[k], isLetter, isDigit)
  }

  /** result.Contains("__") */
  predicate HasDoubleUnderscore(s: string) {
    exists k :: 0 <= k < |s| - 1 && s[k] == '_' && s[k + 1] == '_'
  }

  /** result.Replace("__", "_"): one left-to-right pass over non-overlapping
      occurrences, so "___" becomes "__". */
  function ReplaceDouble(s: string): (r: string)
    ensures |r| <= |s|
    ensures |s| > 0 ==> |r| > 0 && r[0] == s[0]
    ensures forall c :: c in r ==> c in s
    decreases |s|
  {
    if |s| >= 2 && s[0] == '_' && s[1] == '_' then ['_'] + ReplaceDouble(s[2..])
    else if s == [] then []
    else [s[0]] + ReplaceDouble(s[1..])
  }

  /** A pass shortens exactly the strings that contain "__". */
  lemma {:induction false} ReplaceDoubleShrinks(s: string)
    ensures HasDoubleUnderscore(s) <==> |ReplaceDouble(s)| < |s|
    decreases |s|
  {
    if |s| >= 2 && s[0] == '_' && s[1] == '_' {
      assert HasDoubleUnderscore(s) by {
        assert s[0] == '_' && s[0 + 1] == '_';
      }
    } else if s != [] {
      ReplaceDoubleShrinks(s[1..]);
      if HasDoubleUnderscore(s) {
        var k :| 0 <= k < |s| - 1 && s[k] == '_' && s[k + 1] == '_';
        assert k != 0;
        assert s[1..][k - 1] == '_' && s[1..][k - 1 + 1] == '_';
      }
      if HasDoubleUnderscore(s[1..]) {
        var k :| 0 <= k < |s| - 2 && s[1..][k] == '_' && s[1..][k + 1] == '_';
        assert s[k + 1] == '_' && s[k + 1 + 1] == '_';
      }
    }
  }

  /** The while loop of the source: replace until no "__" is left. */
  function CollapseUnderscores(s: string): (r: string)
    ensures !HasDoubleUnderscore(r)
    ensures |r| <= |s|
    ensures |s| > 0 ==> |r| > 0 && r[0] == s[0]
    ensures forall c :: c in r ==> c in s
    decreases |s|
  {
    if HasDoubleUnderscore(s) then
      ReplaceDoubleShrinks(s);
      CollapseUnderscores(ReplaceDouble(s))
    else s
  }

  /** String.TrimEnd(c) */
  function TrimEndChar(s: string, c: char): (r: string)
    ensures |r| <= |s| && r == s[..|r|]
    ensures |r| > 0 ==> r[|r| - 1] != c
    ensures forall k :: |r| <= k < |s| ==> s[k] == c
  {
    if |s| > 0 && s[|s| - 1] == c then TrimEndChar(s[..|s| - 1], c) else s
  }

  /** SanitizeSheetName as a function of its input. */
  function Sanitize(name: string, isLetter: char -> bool, isDigit: char -> bool): string {
    if name == "" then "Sheet"
    else
      var r := TrimEndChar(CollapseUnderscores(Identify(name, isLetter, isDigit)), '_');
      if r == "" then "Sheet" else r
  }

  /** EditorUtils.SanitizeSheetName (a null name is modelled as ""). */
  method SanitizeSheetName(sheetName: string, isLetter: char -> bool, isDigit: char -> bool)
    returns (name: string)
    ensures name == Sanitize(sheetName, isLetter, isDigit)
  {
    if sheetName == "" {
      return "Sheet";
    }
    var sb: string;
    var firstChar := sheetName[0];
    if isLetter(firstChar) || firstChar == '_' {
      sb := [firstChar];
    } else {
      sb := ['_'];
    }
    for i := 1 to |sheetName|
      invariant |sb| == i
      invariant forall k :: 0 <= k < i ==> sb[k] == Identify(sheetName, isLetter, isDigit)[k]
    {
      var c := sheetName[i];
      if isLetter(c) || isDigit(c) || c == '_' {
        sb := sb + [c];
      } else {
        sb := sb + ['_'];
      }
    }
    assert sb == Identify(sheetName, isLetter, isDigit);
    var result := sb;
    while HasDoubleUnderscore(result)
      invariant CollapseUnderscores(result) == CollapseUnderscores(sb)
      decreases |result|
    {
      ReplaceDoubleShrinks(result);
      result := ReplaceDouble(result);
    }
    result := TrimEndChar(result, '_');
    name := if result == "" then "Sheet" else result;
  }

  /** The fallback name is itself an identifier only if char.IsLetter holds
      for its letters, as it does in .NET. */
  predicate SheetIsLetters(isLetter: char -> bool) {
    isLetter('S') && isLetter('h') && isLetter('e') && isLetter('t')
  }

  /** What the source promises of its result: a non-empty identifier made of
      letters, digits and underscores, starting with a letter or an
      underscore, without "__" and without a trailing underscore. */
  predicate WellFormedName(r: string, isLetter: char -> bool, isDigit: char -> bool) {
    && |r| > 0
    && (isLetter(r[0]) || r[0] == '_')
    && AllIdentChars(r, isLetter, isDigit)
    && !HasDoubleUnderscore(r)
    && r[|r| - 1] != '_'
  }

  lemma {:induction false} SanitizeWellFormed(name: string, isLetter: char -> bool, isDigit: char -> bool)
    requires SheetIsLetters(isLetter)
    ensures WellFormedName(Sanitize(name, isLetter, isDigit), isLetter, isDigit)
  {
    var r := Sanitize(name, isLetter, isDigit);
    if r == "Sheet" {
      assert !HasDoubleUnderscore(r) by {
        forall k | 0 <= k < |r| - 1 ensures r[k] != '_' {
        }
      }
    } else {
      var id := Identify(name, isLetter, isDigit);
      var col := CollapseUnderscores(id);
      assert r == TrimEndChar(col, '_') && r == col[..|r|];
      assert r[0] == id[0];
      forall k | 0 <= k < |r| ensures IdentChar(r[k], isLetter, isDigit) {
        assert r[k] in col;
        var j :| 0 <= j < |id| && id[j] == r[k];
      }
      forall k | 0 <= k < |r| - 1 ensures !(r[k] == '_' && r[k + 1] == '_') {
        assert r[k] == col[k] && r[k + 1] == col[k + 1];
      }
    }
  }

  lemma {:induction false} ReplaceDoubleOfClean(s: string)
    requires !HasDoubleUnderscore(s)
    ensures ReplaceDouble(s) == s
    decreases |s|
  {
    if |s| >= 2 {
      assert !(s[0] == '_' && s[0 + 1] == '_');
    }
    if s != [] {
      forall k | 0 <= k < |s| - 2 ensures !(s[1..][k] == '_' && s[1..][k + 1] == '_') {
        assert s[1..][k] == s[k + 1] && s[1..][k + 1] == s[k + 1 + 1];
      }
      ReplaceDoubleOfClean(s[1..]);
    }
  }

  /** Sanitising a sanitised name changes nothing. */
  lemma SanitizeIdempotent(name: string, isLetter: char -> bool, isDigit: char -> bool)
    requires SheetIsLetters(isLetter)
    ensures Sanitize(Sanitize(name, isLetter, isDigit), isLetter, isDigit)
         == Sanitize(name, isLetter, isDigit)
  {
    var r := Sanitize(name, isLetter, isDigit);
    SanitizeWellFormed(name, isLetter, isDigit);
    var id := Identify(r, isLetter, isDigit);
    assert id == r by {
      forall k | 0 <= k < |r| ensures id[k] == r[k] {
        assert IdentChar(r[k], isLetter, isDigit);
      }
    }
    assert CollapseUnderscores(id) == r;
    assert TrimEndChar(r, '_') == r;
  }
}
