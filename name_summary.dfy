/**
 * Truncation of the item name (`summarize_text`): a name of at most
 * `maxWords` whitespace-separated words is kept verbatim, a longer one is cut
 * to its first `maxWords` words joined by single spaces.
 */
module NameSummary {
  import opened Text

  /** The word limit the label sequencer uses (the default of `max_words`). */
  const DefaultMaxWords: nat := 10

  /** `[w.strip() for w in words if w.strip()]`. */
  function StrippedWords(words: seq<string>): seq<string>
    decreases |words|
  {
    if words == [] then []
    else
      var w := Strip(words[0]);
      (if w != [] then [w] else []) + StrippedWords(words[1..])
  }

  /** The list comprehension over `str.split()` changes nothing: its tokens are already stripped words. */
  lemma {:induction false} StrippedWordsOfWords(words: seq<string>)
    requires forall w :: w in words ==> IsWord(w)
    ensures StrippedWords(words) == words
    decreases |words|
  {
    if words != [] {
      assert words[0] in words;
      StripStripped(words[0]);
      assert forall w :: w in words[1..] ==> w in words;
      StrippedWordsOfWords(words[1..]);
      assert [words[0]] + words[1..] == words;
    }
  }

  function SummarizeText(text: string, maxWords: nat): string {
    if text == [] then []
    else
      var words := StrippedWords(Words(text));
      if |words| <= maxWords then text else Join(words[..maxWords], ' ')
  }

  /**
   * The empty name stays empty; a name of at most `maxWords` words comes back
   * verbatim (original spacing included); a longer one becomes exactly its
   * first `maxWords` words joined by single spaces.
   */
  lemma SummarizeTextSpec(text: string, maxWords: nat)
    ensures text == [] ==> SummarizeText(text, maxWords) == []
    ensures |Words(text)| <= maxWords ==> SummarizeText(text, maxWords) == text
    ensures |Words(text)| > maxWords ==>
      SummarizeText(text, maxWords) == Join(Words(text)[..maxWords], ' ')
  {
    StrippedWordsOfWords(Words(text));
  }

  /**
   * The words of the summary are the first `maxWords` words of the name (all
   * of them when there are fewer), so a truncated name holds exactly
   * `maxWords` words.
   */
  lemma SummarizeTextWords(text: string, maxWords: nat)
    ensures var n := if |Words(text)| <= maxWords then |Words(text)| else maxWords;
      Words(SummarizeText(text, maxWords)) == Words(text)[..n]
    ensures |Words(SummarizeText(text, maxWords))| <= maxWords
  {
    SummarizeTextSpec(text, maxWords);
    var ws := Words(text);
    if |ws| > maxWords {
      assert forall w :: w in ws[..maxWords] ==> w in ws;
      WordsJoin(ws[..maxWords]);
    } else {
      assert ws[..|ws|] == ws;
    }
  }
}
