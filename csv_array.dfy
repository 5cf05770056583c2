/** The CSV-style parser that the spreadsheet compiler runs on the text of a
    `string[]` cell (EditorUtils.ParseCsvStyleArray). */
module CsvArray {
  import opened Text

  /** Where a scan over the input stands: the finished items and the text of
      the item being read. */
  datatype Scanned = Scanned(items: seq<string>, pending: string)

  /** The character loop of the parser, from the front of `s`, given the
      quote state, the current item and the items already finished.  A `""`
      pair always stands for one literal quote; a lone `"` only toggles the
      quote state; a comma outside quotes finishes the current item,
      trimmed. */
  function Scan(s: string, inQuotes: bool, current: string, items: seq<string>): Scanned
    decreases |s|
  {
    if s == [] then Scanned(items, current)
    else if s[0] == '"' then
      if |s| > 1 && s[1] == '"' then Scan(s[2..], inQuotes, current + ['"'], items)
      else Scan(s[1..], !inQuotes, current, items)
    else if s[0] == ',' && !inQuotes then Scan(s[1..], inQuotes, [], items + [Trim(current)])
    else Scan(s[1..], inQuotes, current + [s[0]], items)
  }

  /** The last item is added only if its untrimmed text is non-empty. */
  function Finish(sc: Scanned): seq<string> {
    if |sc.pending| > 0 then sc.items + [Trim(sc.pending)] else sc.items
  }

  /** What ParseCsvStyleArray returns for `input`. */
  function Parse(input: string): seq<string> {
    if input == "" then [] else Finish(Scan(input, false, "", []))
  }

  /** EditorUtils.ParseCsvStyleArray, the loop of the source. */
  method ParseCsvStyleArray(input: string) returns (result: seq<string>)
    ensures result == Parse(input)
    ensures AllTrimmed(result)
  {
    ParseItemsTrimmed(input);
    if input == "" {
      return [];
    }
    result := [];
    var inQuotes := false;
    var currentItem := "";
    var i := 0;
    while i < |input|
      invariant 0 <= i <= |input|
      invariant Finish(Scan(input[i..], inQuotes, currentItem, result)) == Parse(input)
    {
      var c := input[i];
      ghost var rest := input[i..];
      assert rest[0] == c;
      if c == '"' {
        if i + 1 < |input| && input[i + 1] == '"' {
          assert rest[1] == '"' && rest[2..] == input[i + 2..];
          assert Scan(rest, inQuotes, currentItem, result)
              == Scan(input[i + 2..], inQuotes, currentItem + ['"'], result);
          currentItem := currentItem + ['"'];
          i := i + 1;
        } else {
          assert rest[1..] == input[i + 1..];
          assert Scan(rest, inQuotes, currentItem, result)
              == Scan(input[i + 1..], !inQuotes, currentItem, result);
          inQuotes := !inQuotes;
        }
      } else if c == ',' && !inQuotes {
        assert rest[1..] == input[i + 1..];
        assert Scan(rest, inQuotes, currentItem, result)
            == Scan(input[i + 1..], inQuotes, [], result + [Trim(currentItem)]);
        result := result + [Trim(currentItem)];
        currentItem := "";
      } else {
        assert rest[1..] == input[i + 1..];
        assert Scan(rest, inQuotes, currentItem, result)
            == Scan(input[i + 1..], inQuotes, currentItem + [c], result);
        currentItem := currentItem + [c];
      }
      i := i + 1;
    }
    assert input[i..] == [];
    if |currentItem| > 0 {
      result := result + [Trim(currentItem)];
    }
  }

  predicate AllTrimmed(items: seq<string>) {
    forall k :: 0 <= k < |items| ==> IsTrimmed(items[k])
  }

  lemma {:induction false} ScanItemsTrimmed(s: string, inQuotes: bool, current: string, items: seq<string>)
    requires AllTrimmed(items)
    ensures AllTrimmed(Scan(s, inQuotes, current, items).items)
    decreases |s|
  {
    if s != [] {
      if s[0] == '"' {
        if |s| > 1 && s[1] == '"' {
          ScanItemsTrimmed(s[2..], inQuotes, current + ['"'], items);
        } else {
          ScanItemsTrimmed(s[1..], !inQuotes, current, items);
        }
      } else if s[0] == ',' && !inQuotes {
        var t := Trim(current);
        assert IsTrimmed(t);
        assert AllTrimmed(items + [t]) by {
          forall k | 0 <= k < |items| + 1 ensures IsTrimmed((items + [t])[k]) {
            if k < |items| { assert (items + [t])[k] == items[k]; }
          }
        }
        ScanItemsTrimmed(s[1..], inQuotes, [], items + [t]);
      } else {
        ScanItemsTrimmed(s[1..], inQuotes, current + [s[0]], items);
      }
    }
  }

  /** Every element the parser returns is trimmed. */
  lemma ParseItemsTrimmed(input: string)
    ensures AllTrimmed(Parse(input))
  {
    ScanItemsTrimmed(input, false, "", []);
    var sc := Scan(input, false, "", []);
    if |sc.pending| > 0 {
      var t := Trim(sc.pending);
      assert IsTrimmed(t);
      forall k | 0 <= k < |sc.items| + 1 ensures IsTrimmed((sc.items + [t])[k]) {
        if k < |sc.items| { assert (sc.items + [t])[k] == sc.items[k]; }
      }
    }
  }

  /** Text without separators or quotes. */
  predicate Plain(e: string) {
    ',' !in e && '"' !in e
  }

  /** Outside quotes, plain text just extends the current item. */
  lemma {:induction false} ScanPlain(e: string, t: string, current: string, items: seq<string>)
    requires Plain(e)
    ensures Scan(e + t, false, current, items) == Scan(t, false, current + e, items)
  {
    if e == [] {
      assert e + t == t && current + e == current;
    } else {
      assert (e + t)[0] == e[0] && (e + t)[1..] == e[1..] + t;
      ScanPlain(e[1..], t, current + [e[0]], items);
      assert current + [e[0]] + e[1..] == current + e;
    }
  }

  /** Inside quotes, text without quotes (commas included) just extends the
      current item. */
  lemma {:induction false} ScanInsideQuotes(e: string, t: string, current: string, items: seq<string>)
    requires '"' !in e
    ensures Scan(e + t, true, current, items) == Scan(t, true, current + e, items)
  {
    if e == [] {
      assert e + t == t && current + e == current;
    } else {
      assert (e + t)[0] == e[0] && (e + t)[1..] == e[1..] + t;
      ScanInsideQuotes(e[1..], t, current + [e[0]], items);
      assert current + [e[0]] + e[1..] == current + e;
    }
  }

  function TrimAll(parts: seq<string>): (r: seq<string>)
    ensures |r| == |parts|
    ensures forall k :: 0 <= k < |parts| ==> r[k] == Trim(parts[k])
  {
    if parts == [] then [] else [Trim(parts[0])] + TrimAll(parts[1..])
  }

  lemma JoinCons(parts: seq<string>, sep: string)
    requires |parts| > 1
    ensures Join(parts, sep) == parts[0] + (sep + Join(parts[1..], sep))
  {
  }

  /** Parse in terms of the scan of the whole input. */
  lemma ParseOfScan(input: string, items: seq<string>, pending: string)
    requires Scan(input, false, "", []) == Scanned(items, pending)
    ensures Parse(input) == if pending == "" then items else items + [Trim(pending)]
  {
    if input == "" {
      assert pending == "" && items == [];
    }
  }

  lemma TrimAllLast(parts: seq<string>)
    requires |parts| > 0
    ensures TrimAll(parts) == TrimAll(parts[..|parts| - 1]) + [Trim(parts[|parts| - 1])]
  {
    var n := |parts|;
    var init := parts[..n - 1];
    var lhs, front := TrimAll(parts), TrimAll(init);
    var rhs := front + [Trim(parts[n - 1])];
    assert |lhs| == |rhs|;
    forall k | 0 <= k < n
      ensures lhs[k] == rhs[k]
    {
      if k < n - 1 {
        assert init[k] == parts[k] && rhs[k] == front[k];
      }
    }
    assert lhs == rhs;
  }

  /** A comma outside quotes finishes the current item. */
  lemma ScanComma(rest: string, current: string, items: seq<string>)
    ensures Scan("," + rest, false, current, items) == Scan(rest, false, [], items + [Trim(current)])
  {
    assert ("," + rest)[0] == ',' && ("," + rest)[1..] == rest;
  }

  lemma TrimAllCons(parts: seq<string>)
    requires |parts| > 1
    ensures TrimAll(parts[..|parts| - 1]) == [Trim(parts[0])] + TrimAll(parts[1..][..|parts| - 2])
  {
    assert parts[..|parts| - 1][1..] == parts[1..][..|parts| - 2];
  }

  /** The finished items after the first text, in terms of all texts. */
  lemma ItemsAfterFirst(items: seq<string>, parts: seq<string>)
    requires |parts| > 1
    ensures items + [Trim(parts[0])] + TrimAll(parts[1..][..|parts| - 2]) == items + TrimAll(parts[..|parts| - 1])
  {
    TrimAllCons(parts);
  }

  predicate AllPlain(parts: seq<string>) {
    forall k :: 0 <= k < |parts| ==> Plain(parts[k])
  }

  lemma {:induction false} ScanJoinPlain(parts: seq<string>, items: seq<string>)
    requires |parts| > 0 && AllPlain(parts)
    ensures Scan(Join(parts, ","), false, "", items)
         == Scanned(items + TrimAll(parts[..|parts| - 1]), parts[|parts| - 1])
    decreases |parts|
  {
    if |parts| == 1 {
      assert Plain(parts[0]);
      ScanPlain(parts[0], "", "", items);
      assert parts[0] + "" == parts[0] && "" + parts[0] == parts[0];
      assert parts[..0] == [];
    } else {
      var n := |parts|;
      var e, rest := parts[0], Join(parts[1..], ",");
      assert Plain(e);
      assert Join(parts, ",") == e + ("," + rest);
      ScanPlain(e, "," + rest, "", items);
      assert "" + e == e;
      ScanComma(rest, e, items);
      assert AllPlain(parts[1..]) by {
        forall k | 0 <= k < n - 1 ensures Plain(parts[1..][k]) {
          assert parts[1..][k] == parts[k + 1];
        }
      }
      ScanJoinPlain(parts[1..], items + [Trim(e)]);
      ItemsAfterFirst(items, parts);
      assert parts[1..][n - 2] == parts[n - 1];
    }
  }

  /** Joining plain texts with commas and parsing gives back each text
      trimmed; a last text that is empty yields no element. */
  lemma {:induction false} JoinPlainRoundTrip(parts: seq<string>)
    requires |parts| > 0 && AllPlain(parts)
    ensures Parse(Join(parts, ",")) ==
      if parts[|parts| - 1] == "" then TrimAll(parts[..|parts| - 1]) else TrimAll(parts)
  {
    ScanJoinPlain(parts, []);
    ParseOfScan(Join(parts, ","), TrimAll(parts[..|parts| - 1]), parts[|parts| - 1]);
    TrimAllLast(parts);
  }

  /** For trimmed plain texts whose last one is non-empty, the parser inverts
      String.Join(",", ...). */
  lemma {:induction false} JoinTrimmedRoundTrip(parts: seq<string>)
    requires |parts| > 0 && parts[|parts| - 1] != ""
    requires AllPlain(parts)
    requires forall k :: 0 <= k < |parts| ==> IsTrimmed(parts[k])
    ensures Parse(Join(parts, ",")) == parts
  {
    JoinPlainRoundTrip(parts);
    forall k | 0 <= k < |parts| ensures Trim(parts[k]) == parts[k] {
      TrimOfTrimmed(parts[k]);
    }
  }

  function Quoted(e: string): string {
    "\"" + e + "\""
  }

  function QuoteAll(parts: seq<string>): (r: seq<string>)
    ensures |r| == |parts|
    ensures forall k :: 0 <= k < |parts| ==> r[k] == Quoted(parts[k])
  {
    if parts == [] then [] else [Quoted(parts[0])] + QuoteAll(parts[1..])
  }

  /** A quoted text (non-empty, without quotes) followed by nothing or by a
      comma is read as that text, its commas included. */
  lemma ScanQuoted(e: string, t: string, items: seq<string>)
    requires e != [] && '"' !in e
    requires t == [] || t[0] == ','
    ensures Scan(Quoted(e) + t, false, "", items) == Scan(t, false, e, items)
  {
    var s := Quoted(e) + t;
    assert s == "\"" + (e + ("\"" + t));
    assert s[1] == e[0];
    assert s[1..] == e + ("\"" + t);
    ScanInsideQuotes(e, "\"" + t, "", items);
    assert "" + e == e;
    assert ("\"" + t)[1..] == t;
  }

  /** Texts that can be quoted: non-empty and free of quotes. */
  predicate AllQuotable(parts: seq<string>) {
    forall k :: 0 <= k < |parts| ==> parts[k] != [] && '"' !in parts[k]
  }

  lemma {:induction false} ScanJoinQuoted(parts: seq<string>, items: seq<string>)
    requires |parts| > 0 && AllQuotable(parts)
    ensures Scan(Join(QuoteAll(parts), ","), false, "", items)
         == Scanned(items + TrimAll(parts[..|parts| - 1]), parts[|parts| - 1])
    decreases |parts|
  {
    if |parts| == 1 {
      assert Join(QuoteAll(parts), ",") == Quoted(parts[0]) + "";
      ScanQuoted(parts[0], "", items);
      assert parts[..0] == [];
    } else {
      var n := |parts|;
      var e, rest := parts[0], Join(QuoteAll(parts[1..]), ",");
      assert QuoteAll(parts)[1..] == QuoteAll(parts[1..]);
      JoinCons(QuoteAll(parts), ",");
      assert Join(QuoteAll(parts), ",") == Quoted(e) + ("," + rest);
      ScanQuoted(e, "," + rest, items);
      ScanComma(rest, e, items);
      assert AllQuotable(parts[1..]) by {
        forall k | 0 <= k < n - 1 ensures parts[1..][k] != [] && '"' !in parts[1..][k] {
          assert parts[1..][k] == parts[k + 1];
        }
      }
      ScanJoinQuoted(parts[1..], items + [Trim(e)]);
      ItemsAfterFirst(items, parts);
      assert parts[1..][n - 2] == parts[n - 1];
    }
  }

  /** Commas inside quotes do not split: quoting every text and joining with
      commas parses back to the texts, trimmed. */
  lemma {:induction false} JoinQuotedRoundTrip(parts: seq<string>)
    requires |parts| > 0 && AllQuotable(parts)
    ensures Parse(Join(QuoteAll(parts), ",")) == TrimAll(parts)
  {
    ScanJoinQuoted(parts, []);
    ParseOfScan(Join(QuoteAll(parts), ","), TrimAll(parts[..|parts| - 1]), parts[|parts| - 1]);
    TrimAllLast(parts);
    assert parts[|parts| - 1] != [];
  }

  /** A doubled quote stands for one literal quote, inside quotes or not,
      and leaves the quote state as it was. */
  lemma DoubledQuoteIsLiteral(t: string, inQuotes: bool, current: string, items: seq<string>)
    ensures Scan("\"\"" + t, inQuotes, current, items) == Scan(t, inQuotes, current + ['"'], items)
  {
    var s := "\"\"" + t;
    assert s[0] == '"' && s[1] == '"' && s[2..] == t;
  }

  /** So an empty quoted element `""` at the front is read as a one-quote
      element, not as an empty one. */
  lemma {:induction false} EmptyQuotedElement(rest: string)
    requires Plain(rest)
    ensures Parse("\"\"," + rest) == if rest == "" then ["\""] else ["\"", Trim(rest)]
  {
    var s := "\"\"," + rest;
    assert s == "\"\"" + ("," + rest);
    DoubledQuoteIsLiteral("," + rest, false, "", []);
    assert "" + ['"'] == "\"";
    calc {
      Scan(s, false, "", []);
      Scan("," + rest, false, "\"", []);
      { ScanComma(rest, "\"", []);
        assert [] + [Trim("\"")] == [Trim("\"")]; }
      Scan(rest, false, [], [Trim("\"")]);
      { ScanPlain(rest, "", [], [Trim("\"")]);
        assert rest + "" == rest && [] + rest == rest; }
      Scan("", false, rest, [Trim("\"")]);
      Scanned([Trim("\"")], rest);
    }
    assert IsTrimmed("\"") by {
      assert !IsWhiteSpace('"');
    }
    TrimOfTrimmed("\"");
    ParseOfScan(s, ["\""], rest);
  }
}
