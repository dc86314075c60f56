/**
 * Worked examples of `extractKeywords`: a stop word dropped from a query, the
 * length filter applied before punctuation is stripped, and the UTF-16 length
 * of a token outside the Basic Multilingual Plane.
 */
module KeywordExamples {
  import opened Text
  import opened HomePage

  /** A two-character token counts as three when one character lies outside the Basic Multilingual Plane. */
  lemma NonBmpTokenIsMeaningful()
    ensures Utf16Length("x\U{1F600}") == 3 && IsMeaningful("x\U{1F600}")
  {
    NonBmpCountsTwo();
  }

  /** No stop word is longer than four characters. */
  lemma CommonWordsShort()
    ensures forall w :: w in CommonWords ==> |w| <= 4
  {
    forall i | 0 <= i < |CommonWords| ensures |CommonWords[i]| <= 4 {
    }
  }

  /** `"Interstellar but funnier"` lower-cases to `"interstellar but funnier"`. */
  lemma InterstellarLowered()
    ensures ToLower("Interstellar but funnier") == "interstellar but funnier"
  {
  }

  lemma InterstellarLastPiece(s: string)
    requires s == "interstellar but funnier"
    ensures SplitWsFrom(s, 17) == ["funnier"]
  {
    LettersNoSpace(s, 17, 24);
    SplitWsFromLast(s, 17);
    assert s[17..] == "funnier";
  }

  lemma InterstellarMiddlePiece(s: string)
    requires s == "interstellar but funnier"
    ensures SplitWsFrom(s, 13) == ["but"] + SplitWsFrom(s, 17)
  {
    LettersNoSpace(s, 13, 16);
    SplitWsFromStep(s, 13, 16, 17);
    assert s[13..16] == "but";
  }

  lemma InterstellarFirstPiece(s: string)
    requires s == "interstellar but funnier"
    ensures SplitWsFrom(s, 0) == ["interstellar"] + SplitWsFrom(s, 13)
  {
    LettersNoSpace(s, 0, 12);
    SplitWsFromStep(s, 0, 12, 13);
    assert s[0..12] == "interstellar";
  }

  /** `"interstellar but funnier"` splits into its three words. */
  lemma InterstellarSplit(s: string)
    requires s == "interstellar but funnier"
    ensures SplitWs(s) == ["interstellar", "but", "funnier"]
  {
    InterstellarLastPiece(s);
    InterstellarMiddlePiece(s);
    InterstellarFirstPiece(s);
  }

  /** `"Interstellar but funnier"` lower-cases and splits into its three words. */
  lemma InterstellarTokens()
    ensures Tokens("Interstellar but funnier") == ["interstellar", "but", "funnier"]
  {
    InterstellarLowered();
    InterstellarSplit("interstellar but funnier");
  }

  lemma InterstellarIsMeaningful()
    ensures IsMeaningful("interstellar")
  {
    CommonWordsShort();
  }

  lemma FunnierIsMeaningful()
    ensures IsMeaningful("funnier")
  {
    CommonWordsShort();
  }

  lemma ButIsStopWord()
    ensures !IsMeaningful("but")
  {
    assert CommonWords[4] == "but";
  }

  /** The length and stop-word filter keeps the first and the last of the three words. */
  lemma InterstellarMeaningful()
    ensures Filter(["interstellar", "but", "funnier"], IsMeaningful, 0) == ["interstellar", "funnier"]
  {
    var tokens := ["interstellar", "but", "funnier"];
    InterstellarIsMeaningful();
    FunnierIsMeaningful();
    ButIsStopWord();
    assert Filter(tokens, IsMeaningful, 3) == [];
    assert Filter(tokens, IsMeaningful, 2) == ["funnier"];
    assert Filter(tokens, IsMeaningful, 1) == ["funnier"];
  }

  lemma InterstellarUnstripped()
    ensures StripNonWord("interstellar") == "interstellar"
  {
    StripNonWordLetters("interstellar");
  }

  lemma FunnierUnstripped()
    ensures StripNonWord("funnier") == "funnier"
  {
    StripNonWordLetters("funnier");
  }

  lemma StripAllPair(a: string, b: string)
    ensures StripAll([a, b]) == [StripNonWord(a), StripNonWord(b)]
  {
  }

  /** Stop words go and the order of the rest stays: `"Interstellar but funnier"` has the keywords `interstellar` and `funnier`. */
  lemma StopWordsDropped()
    ensures ExtractKeywords("Interstellar but funnier") == ["interstellar", "funnier"]
  {
    InterstellarTokens();
    InterstellarMeaningful();
    InterstellarUnstripped();
    FunnierUnstripped();
    StripAllPair("interstellar", "funnier");
  }

  /** `"ab! xy"` splits into `"ab!"` and `"xy"`. */
  lemma PunctuatedTokens()
    ensures Tokens("ab! xy") == ["ab!", "xy"]
  {
    var s := "ab! xy";
    assert ToLower(s) == s;
    LettersNoSpace(s, 4, 6);
    SplitWsFromLast(s, 4);
    SplitWsFromStep(s, 0, 3, 4);
    assert s[0..3] == "ab!" && s[4..] == "xy";
  }

  /** `"ab!"` loses its punctuation. */
  lemma PunctuationStripped()
    ensures StripNonWord("ab!") == "ab"
  {
    assert "!"[1..] == [] && "b!"[1..] == "!" && "ab!"[1..] == "b!";
    assert StripNonWord("!") == [];
    assert StripNonWord("b!") == "b" + StripNonWord("!");
    assert StripNonWord("ab!") == "a" + StripNonWord("b!");
  }

  /**
   * The length filter sees the token before its punctuation is stripped, so a
   * keyword can be shorter than three characters: `"ab! xy"` yields `["ab"]`.
   */
  lemma FilterBeforeStrip()
    ensures ExtractKeywords("ab! xy") == ["ab"]
  {
    PunctuatedTokens();
    assert "ab!" !in CommonWords;
    var tokens := ["ab!", "xy"];
    assert Filter(tokens, IsMeaningful, 2) == [];
    assert Filter(tokens, IsMeaningful, 1) == [];
    assert Filter(tokens, IsMeaningful, 0) == ["ab!"];
    PunctuationStripped();
    assert StripAll(["ab!"]) == ["ab"];
  }
}
