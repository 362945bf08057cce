/** The text normaliser `process_content` of app.py: a fixed list of punctuation, bracket,
    whitespace and subword-marker symbols is deleted from a transcript, one
    delete-every-occurrence pass per symbol, in list order. */
module Normalizer {

  import opened Sequences

  /** The symbols the normaliser deletes, in the order it deletes them: Latin brackets and
      angle brackets, curly quotation marks, guillemets, the comma, CJK corner brackets, the
      subword marker U+2581, the hyphen, the Khmer signs camnuc pii kuuh, khan, riel and
      bariyoosan, the exclamation mark, a zero-width space, an en dash, the space, and finally
      an empty string. */
  const SymbolsToRemove: seq<string> := [
    "(", ")", "[", "]", "{", "}", "<", ">",
    "\U{201C}", "\U{201D}", "\U{2018}", "\U{2019}", "\U{00AB}", "\U{00BB}", ",",
    "\U{300C}", "\U{300D}", "\U{300E}", "\U{300F}", "\U{2581}", "-",
    "\U{17D6}", "\U{17D4}", "\U{17DB}", "\U{17D5}", "!", "\U{200B}", "\U{2013}", " ", ""
  ]

  /** True iff every symbol is a single character or empty, the only shapes the list uses. */
  predicate AtMostOneChar(symbols: seq<string>)
  {
    forall i :: 0 <= i < |symbols| ==> |symbols[i]| <= 1
  }

  /** The characters named by the one-character symbols of a list. */
  function CharsOf(symbols: seq<string>): set<char>
  {
    set i | 0 <= i < |symbols| && |symbols[i]| == 1 :: symbols[i][0]
  }

  /** The set of characters the normaliser removes. */
  const RemovedChars: set<char> := CharsOf(SymbolsToRemove)

  /** Reference definition: `s` with every character of `removed` filtered out, all other
      characters kept in their original order. */
  function Strip(s: string, removed: set<char>): (r: string)
    ensures forall i :: 0 <= i < |r| ==> r[i] !in removed
    ensures |r| <= |s|
  {
    if |s| == 0 then []
    else if s[0] in removed then Strip(s[1..], removed)
    else [s[0]] + Strip(s[1..], removed)
  }

  /** One `content.replace(symbol, '')` step for a symbol of at most one character: deleting
      the empty string changes nothing, deleting a character removes each occurrence of it. */
  function Delete(content: string, symbol: string): (r: string)
    requires |symbol| <= 1
    ensures |symbol| == 0 ==> r == content
    ensures |symbol| == 1 ==> IsSubsequence(r, content)
    ensures |symbol| == 1 ==> forall x :: multiset(r)[x] == if x == symbol[0] then 0 else multiset(content)[x]
  {
    if |symbol| == 0 then content
    else
      var r := Strip(content, {symbol[0]});
      StripIsSubsequence(content, {symbol[0]});
      assert forall x :: multiset(r)[x] == if x == symbol[0] then 0 else multiset(content)[x] by {
        forall x ensures multiset(r)[x] == if x == symbol[0] then 0 else multiset(content)[x] {
          StripCounts(content, {symbol[0]}, x);
        }
      }
      r
  }

  /** Filtering out `a` and then `b` is the same as filtering out their union at once. */
  lemma {:induction false} StripStrip(s: string, a: set<char>, b: set<char>)
    ensures Strip(Strip(s, a), b) == Strip(s, a + b)
  {
    if |s| > 0 {
      StripStrip(s[1..], a, b);
      if s[0] !in a {
        assert ([s[0]] + Strip(s[1..], a))[1..] == Strip(s[1..], a);
      }
    }
  }

  /** Filtering out nothing changes nothing. */
  lemma {:induction false} StripNothing(s: string)
    ensures Strip(s, {}) == s
  {
    if |s| > 0 {
      StripNothing(s[1..]);
    }
  }

  /** Extending a symbol list by one entry adds that entry's character, if it has one. */
  lemma CharsOfExtend(symbols: seq<string>, symbol: string)
    ensures CharsOf(symbols + [symbol]) == CharsOf(symbols) + (if |symbol| == 1 then {symbol[0]} else {})
  {
    var extended := symbols + [symbol];
    forall c | c in CharsOf(extended)
      ensures c in CharsOf(symbols) + (if |symbol| == 1 then {symbol[0]} else {})
    {
      var i :| 0 <= i < |extended| && |extended[i]| == 1 && extended[i][0] == c;
      if i < |symbols| {
        assert extended[i] == symbols[i];
      }
    }
    forall c | c in CharsOf(symbols)
      ensures c in CharsOf(extended)
    {
      var i :| 0 <= i < |symbols| && |symbols[i]| == 1 && symbols[i][0] == c;
      assert extended[i] == symbols[i];
    }
    if |symbol| == 1 {
      assert extended[|symbols|] == symbol;
    }
  }

  /** What `process_content` computes: the input filtered to the characters outside the
      removal set, in their original order. */
  function Normalize(content: string): (r: string)
    ensures forall i :: 0 <= i < |r| ==> r[i] !in RemovedChars
    ensures |r| <= |content|
  {
    Strip(content, RemovedChars)
  }

  /** The loop of `process_content` over any list of symbols: one deletion pass per symbol,
      in list order, removes exactly the characters the list names. */
  method DeleteSymbols(content: string, symbols: seq<string>) returns (r: string)
    requires AtMostOneChar(symbols)
    ensures r == Strip(content, CharsOf(symbols))
  {
    r := content;
    StripNothing(content);
    assert CharsOf(symbols[..0]) == {};
    for i := 0 to |symbols|
      invariant r == Strip(content, CharsOf(symbols[..i]))
    {
      var symbol := symbols[i];
      var done := CharsOf(symbols[..i]);
      r := Delete(r, symbol);
      assert symbols[..i + 1] == symbols[..i] + [symbol];
      CharsOfExtend(symbols[..i], symbol);
      if |symbol| == 1 {
        StripStrip(content, done, {symbol[0]});
      } else {
        assert done + {} == done;
      }
    }
    assert symbols[..|symbols|] == symbols;
  }

  /** The normaliser `process_content`: the deletion loop over the fixed symbol list. */
  method ProcessContent(content: string) returns (r: string)
    ensures r == Normalize(content)
  {
    assert AtMostOneChar(SymbolsToRemove);
    r := DeleteSymbols(content, SymbolsToRemove);
  }

  /** Filtering leaves a string that has nothing to filter unchanged. */
  lemma {:induction false} StripUntouched(s: string, removed: set<char>)
    requires forall i :: 0 <= i < |s| ==> s[i] !in removed
    ensures Strip(s, removed) == s
  {
    if |s| > 0 {
      StripUntouched(s[1..], removed);
    }
  }

  /** Filtering a string made only of removed characters leaves nothing. */
  lemma {:induction false} StripEverything(s: string, removed: set<char>)
    requires forall i :: 0 <= i < |s| ==> s[i] in removed
    ensures Strip(s, removed) == []
  {
    if |s| > 0 {
      StripEverything(s[1..], removed);
    }
  }

  /** Filtering only deletes: the result is a subsequence of the input. */
  lemma {:induction false} StripIsSubsequence(s: string, removed: set<char>)
    ensures IsSubsequence(Strip(s, removed), s)
  {
    if |s| > 0 {
      StripIsSubsequence(s[1..], removed);
      if s[0] !in removed {
        var r := Strip(s, removed);
        assert r[0] == s[0] && r[1..] == Strip(s[1..], removed);
      }
    }
  }

  /** Filtering keeps every occurrence of a kept character and none of a removed one. */
  lemma {:induction false} StripCounts(s: string, removed: set<char>, c: char)
    ensures multiset(Strip(s, removed))[c] == if c in removed then 0 else multiset(s)[c]
  {
    if |s| > 0 {
      StripCounts(s[1..], removed, c);
      assert s == [s[0]] + s[1..];
      if s[0] !in removed {
        assert multiset(Strip(s, removed)) == multiset{s[0]} + multiset(Strip(s[1..], removed));
      }
    }
  }

  /** Filtering distributes over concatenation. */
  lemma {:induction false} StripAppend(a: string, b: string, removed: set<char>)
    ensures Strip(a + b, removed) == Strip(a, removed) + Strip(b, removed)
  {
    if |a| == 0 {
      assert a + b == b;
    } else {
      StripAppend(a[1..], b, removed);
      assert (a + b)[0] == a[0] && (a + b)[1..] == a[1..] + b;
      var rest, tail := Strip(a[1..], removed), Strip(b, removed);
      if a[0] !in removed {
        assert [a[0]] + (rest + tail) == ([a[0]] + rest) + tail;
      }
    }
  }

  /** The normaliser is idempotent. */
  lemma NormalizeIdempotent(s: string)
    ensures Normalize(Normalize(s)) == Normalize(s)
  {
    StripUntouched(Normalize(s), RemovedChars);
  }

  /** The normaliser only deletes characters and never reorders the ones it keeps. */
  lemma NormalizeIsSubsequence(s: string)
    ensures IsSubsequence(Normalize(s), s)
  {
    StripIsSubsequence(s, RemovedChars);
  }

  /** Every occurrence of a character outside the removal set survives normalisation, and no
      occurrence of a character inside it does. */
  lemma NormalizeCounts(s: string, c: char)
    ensures multiset(Normalize(s))[c] == if c in RemovedChars then 0 else multiset(s)[c]
  {
    StripCounts(s, RemovedChars, c);
  }

  /** A string made only of listed symbols normalises to the empty string. */
  lemma NormalizeOnlySymbols(s: string)
    requires forall i :: 0 <= i < |s| ==> s[i] in RemovedChars
    ensures Normalize(s) == ""
  {
    StripEverything(s, RemovedChars);
  }

  /** A string without listed symbols is already normal. */
  lemma NormalizeNoSymbols(s: string)
    requires forall i :: 0 <= i < |s| ==> s[i] !in RemovedChars
    ensures Normalize(s) == s
  {
    StripUntouched(s, RemovedChars);
  }

  /** Normalisation distributes over concatenation. */
  lemma NormalizeAppend(a: string, b: string)
    ensures Normalize(a + b) == Normalize(a) + Normalize(b)
  {
    StripAppend(a, b, RemovedChars);
  }

}
