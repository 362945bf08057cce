/** Concrete facts about the normaliser's fixed symbol list and a worked example. */
module NormalizerExamples {

  import opened Normalizer

  /** The removal set written out: the 29 characters of the one-character symbols. */
  const ListedChars: set<char> := {
      '(', ')', '[', ']', '{', '}', '<', '>',
      '\U{201C}', '\U{201D}', '\U{2018}', '\U{2019}', '\U{00AB}', '\U{00BB}', ',',
      '\U{300C}', '\U{300D}', '\U{300E}', '\U{300F}', '\U{2581}', '-',
      '\U{17D6}', '\U{17D4}', '\U{17DB}', '\U{17D5}', '!', '\U{200B}', '\U{2013}', ' '}

  /** Every character the symbol list names is in the written-out set. */
  lemma RemovedCharsWithinListed()
    ensures RemovedChars <= ListedChars
  {
  }

  /** The Latin brackets and angle brackets are removed. */
  lemma LatinBracketsRemoved()
    ensures '(' in RemovedChars && ')' in RemovedChars && '[' in RemovedChars && ']' in RemovedChars
    ensures '{' in RemovedChars && '}' in RemovedChars && '<' in RemovedChars && '>' in RemovedChars
  {
    var s := SymbolsToRemove;
    assert s[0] == ['('] && s[1] == [')'] && s[2] == ['['] && s[3] == [']'];
    assert s[4] == ['{'] && s[5] == ['}'] && s[6] == ['<'] && s[7] == ['>'];
  }

  /** The curly quotation marks, the guillemets and the comma are removed. */
  lemma QuotesAndCommaRemoved()
    ensures '\U{201C}' in RemovedChars && '\U{201D}' in RemovedChars && '\U{2018}' in RemovedChars && '\U{2019}' in RemovedChars
    ensures '\U{00AB}' in RemovedChars && '\U{00BB}' in RemovedChars && ',' in RemovedChars
  {
    var s := SymbolsToRemove;
    assert s[8] == ['\U{201C}'] && s[9] == ['\U{201D}'] && s[10] == ['\U{2018}'] && s[11] == ['\U{2019}'];
    assert s[12] == ['\U{00AB}'] && s[13] == ['\U{00BB}'] && s[14] == [','];
  }

  /** The CJK corner brackets, the subword marker and the hyphen are removed. */
  lemma CornerBracketsMarkerAndHyphenRemoved()
    ensures '\U{300C}' in RemovedChars && '\U{300D}' in RemovedChars && '\U{300E}' in RemovedChars && '\U{300F}' in RemovedChars
    ensures '\U{2581}' in RemovedChars && '-' in RemovedChars
  {
    var s := SymbolsToRemove;
    assert s[15] == ['\U{300C}'] && s[16] == ['\U{300D}'] && s[17] == ['\U{300E}'] && s[18] == ['\U{300F}'];
    assert s[19] == ['\U{2581}'] && s[20] == ['-'];
  }

  /** The Khmer signs, the exclamation mark, the zero-width space, the en dash and the space are removed. */
  lemma KhmerSignsAndSpacingRemoved()
    ensures '\U{17D6}' in RemovedChars && '\U{17D4}' in RemovedChars && '\U{17DB}' in RemovedChars && '\U{17D5}' in RemovedChars
    ensures '!' in RemovedChars && '\U{200B}' in RemovedChars && '\U{2013}' in RemovedChars && ' ' in RemovedChars
  {
    var s := SymbolsToRemove;
    assert s[21] == ['\U{17D6}'] && s[22] == ['\U{17D4}'] && s[23] == ['\U{17DB}'] && s[24] == ['\U{17D5}'];
    assert s[25] == ['!'] && s[26] == ['\U{200B}'] && s[27] == ['\U{2013}'] && s[28] == [' '];
  }

  /** Every character of the written-out set is named by the symbol list. */
  lemma ListedWithinRemovedChars()
    ensures ListedChars <= RemovedChars
  {
    LatinBracketsRemoved();
    QuotesAndCommaRemoved();
    CornerBracketsMarkerAndHyphenRemoved();
    KhmerSignsAndSpacingRemoved();
  }

  /** The removal set derived from the symbol list is exactly the written-out set. */
  lemma RemovedCharsListed()
    ensures RemovedChars == ListedChars
  {
    RemovedCharsWithinListed();
    ListedWithinRemovedChars();
  }

  /** Filtering "hello world" with any removal set that holds the space but none of its
      letters gives "helloworld". */
  lemma HelloWorldStrip(removed: set<char>)
    requires ' ' in removed
    requires forall c :: c in "helloworld" ==> c !in removed
    ensures Strip("hello world", removed) == "helloworld"
  {
    assert "hello world" == "hello" + " " + "world";
    StripAppend("hello" + " ", "world", removed);
    StripAppend("hello", " ", removed);
    StripUntouched("hello", removed);
    StripUntouched("world", removed);
    StripEverything(" ", removed);
  }

  /** The end-to-end example: the space between the words is removed and nothing else. */
  lemma HelloWorldNormalised()
    ensures Normalize("hello world") == "helloworld"
  {
    RemovedCharsWithinListed();
    assert SymbolsToRemove[28] == " ";
    HelloWorldStrip(RemovedChars);
  }

}
