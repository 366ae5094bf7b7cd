/**
  core/tokenizer.go: the vocabulary and the word-level tokenizer that feeds the
  embedding model.

  Unicode letter/number classification and rune lower-casing are parameters
  (`isWordRune`, `lower`), standing for unicode.IsLetter || unicode.IsNumber
  and unicode.ToLower.  The vocabulary file arrives as its lines, or as None
  when it cannot be opened.
 */
module Tokenizer {
  import opened Wrappers
  import opened Text

  const TokenCLS: int := 101
  const TokenSEP: int := 102
  const TokenUNK: int := 100
  const MaxTokens: nat := 512

  // ---------------------------------------------------------------------
  // The vocabulary

  /** Each line mapped to its 0-based line number, a later duplicate replacing an earlier one. */
  function VocabOf(lines: seq<string>): map<string, int>
  {
    if lines == [] then map[]
    else VocabOf(lines[..|lines| - 1])[lines[|lines| - 1] := |lines| - 1]
  }

  /** A line's id is the number of its last occurrence; nothing else is in the vocabulary. */
  lemma {:induction false} VocabOfLastLine(lines: seq<string>)
    ensures forall w :: w in VocabOf(lines) <==> w in lines
    ensures forall w | w in VocabOf(lines) ::
      var i := VocabOf(lines)[w];
      0 <= i < |lines| && lines[i] == w && forall j | i < j < |lines| :: lines[j] != w
    decreases |lines|
  {
    if lines != [] {
      var init := lines[..|lines| - 1];
      VocabOfLastLine(init);
      assert lines == init + [lines[|lines| - 1]];
      forall w | w in VocabOf(lines)
        ensures var i := VocabOf(lines)[w]; 0 <= i < |lines| && lines[i] == w && forall j | i < j < |lines| :: lines[j] != w
      {
        if w != lines[|lines| - 1] {
          var i := VocabOf(init)[w];
          assert lines[i] == init[i];
          forall j | i < j < |lines| ensures lines[j] != w {
            if j < |init| {
              assert lines[j] == init[j];
            }
          }
        }
      }
    }
  }

  class Tokenizer {
    /** The global Vocab map. */
    var vocab: map<string, int>

    constructor()
      ensures vocab == map[]
    {
      vocab := map[];
    }

    /** InitTokenizer: a file that cannot be opened leaves the vocabulary as it was; otherwise
        a fresh map is filled line by line. */
    method InitTokenizer(file: Option<seq<string>>)
      modifies this
      ensures file.None? ==> vocab == old(vocab)
      ensures file.Some? ==> vocab == VocabOf(file.value)
    {
      if file.None? {
        return;
      }
      var lines := file.value;
      vocab := map[];
      var id := 0;
      while id < |lines|
        invariant 0 <= id <= |lines|
        invariant vocab == VocabOf(lines[..id])
      {
        assert lines[..id + 1][..id] == lines[..id];
        vocab := vocab[lines[id] := id];
        id := id + 1;
      }
      assert lines[..id] == lines;
    }

    /** Tokenize: CLS, one id per word, SEP, cut back to 512 ids ending in SEP. */
    method Tokenize(text: string, lower: char -> char, isWordRune: char -> bool) returns (ids: seq<int>)
      ensures ids == TokenIds(vocab, Words(text, lower, isWordRune))
    {
      var tokens := SplitWords(Lowered(text, lower), isWordRune);
      ids := [TokenCLS];
      var k := 0;
      while k < |tokens|
        invariant 0 <= k <= |tokens|
        invariant ids == [TokenCLS] + WordIds(vocab, tokens[..k])
      {
        assert tokens[..k + 1][..k] == tokens[..k];
        if tokens[k] in vocab {
          ids := ids + [vocab[tokens[k]]];
        } else {
          ids := ids + [TokenUNK];
        }
        k := k + 1;
      }
      assert tokens[..k] == tokens;
      ids := ids + [TokenSEP];
      if |ids| > MaxTokens {
        ids := ids[..MaxTokens - 1];
        ids := ids + [TokenSEP];
      }
    }
  }

  /** The first loop of Tokenize: letters and numbers accumulate into the current word,
      any other rune ends it. */
  method SplitWords(lowered: string, isWordRune: char -> bool) returns (tokens: seq<string>)
    ensures tokens == SplitRuns(lowered, isWordRune)
  {
    tokens := [];
    var current: string := [];
    var i := 0;
    assert current + lowered[i..] == lowered;
    while i < |lowered|
      invariant Splitting(lowered, isWordRune, tokens, current, i)
    {
      var r := lowered[i];
      if isWordRune(r) {
        WordRuneStep(lowered, isWordRune, tokens, current, i);
        current := current + [r];
      } else {
        SeparatorStep(lowered, isWordRune, tokens, current, i);
        if |current| > 0 {
          tokens := tokens + [current];
          current := [];
        }
      }
      i := i + 1;
    }
    FinishStep(lowered, isWordRune, tokens, current);
    if |current| > 0 {
      tokens := tokens + [current];
    }
  }

  /** SplitWords' loop invariant: the words found so far, then the words of the current word
      followed by the unread runes, are the words of the whole text. */
  ghost predicate Splitting(lowered: string, keep: char -> bool, tokens: seq<string>, current: string, i: int) {
    && 0 <= i <= |lowered|
    && (forall k | 0 <= k < |current| :: keep(current[k]))
    && SplitRuns(lowered, keep) == tokens + SplitRuns(current + lowered[i..], keep)
  }

  lemma WordRuneStep(lowered: string, keep: char -> bool, tokens: seq<string>, current: string, i: int)
    requires Splitting(lowered, keep, tokens, current, i) && i < |lowered| && keep(lowered[i])
    ensures Splitting(lowered, keep, tokens, current + [lowered[i]], i + 1)
  {
    assert current + lowered[i..] == (current + [lowered[i]]) + lowered[i + 1..];
  }

  lemma SeparatorStep(lowered: string, keep: char -> bool, tokens: seq<string>, current: string, i: int)
    requires Splitting(lowered, keep, tokens, current, i) && i < |lowered| && !keep(lowered[i])
    ensures Splitting(lowered, keep, if |current| > 0 then tokens + [current] else tokens, [], i + 1)
  {
    assert lowered[i..] == [lowered[i]] + lowered[i + 1..];
    assert [] + lowered[i + 1..] == lowered[i + 1..];
    if |current| > 0 {
      RunThenSeparator(current, lowered[i..], keep);
      AppendAssoc(tokens, [current], SplitRuns(lowered[i + 1..], keep));
    } else {
      assert current + lowered[i..] == lowered[i..];
    }
  }

  lemma FinishStep(lowered: string, keep: char -> bool, tokens: seq<string>, current: string)
    requires Splitting(lowered, keep, tokens, current, |lowered|)
    ensures SplitRuns(lowered, keep) == if |current| > 0 then tokens + [current] else tokens
  {
    assert lowered[|lowered|..] == [];
    assert current + [] == current;
    if |current| > 0 {
      RunThenSeparator(current, [], keep);
    }
  }

  /** A run of word runes followed by the end of the text or by a separator is one word. */
  lemma {:induction false} RunThenSeparator(w: string, rest: string, keep: char -> bool)
    requires w != [] && forall k | 0 <= k < |w| :: keep(w[k])
    requires rest == [] || !keep(rest[0])
    ensures SplitRuns(w + rest, keep) == [w] + SplitRuns(if rest == [] then [] else rest[1..], keep)
  {
    RunLengthOfRun(w, rest, keep);
    assert (w + rest)[..|w|] == w;
    assert (w + rest)[|w|..] == rest;
  }

  lemma {:induction false} RunLengthOfRun(w: string, rest: string, keep: char -> bool)
    requires forall k | 0 <= k < |w| :: keep(w[k])
    requires rest == [] || !keep(rest[0])
    ensures RunLength(w + rest, keep) == |w|
    decreases |w|
  {
    if w != [] {
      assert (w + rest)[1..] == w[1..] + rest;
      RunLengthOfRun(w[1..], rest, keep);
    }
  }

  /** strings.ToLower, rune by rune. */
  function Lowered(text: string, lower: char -> char): (r: string)
    ensures |r| == |text|
  {
    seq(|text|, i requires 0 <= i < |text| => lower(text[i]))
  }

  /** The words: maximal runs of letter or number runes of the lowered text. */
  function Words(text: string, lower: char -> char, isWordRune: char -> bool): seq<string> {
    SplitRuns(Lowered(text, lower), isWordRune)
  }

  /** The id of a word: its vocabulary entry, or UNK. */
  function IdOf(vocab: map<string, int>, word: string): int {
    if word in vocab then vocab[word] else TokenUNK
  }

  function WordIds(vocab: map<string, int>, words: seq<string>): (ids: seq<int>)
    ensures |ids| == |words|
    ensures forall i | 0 <= i < |words| :: ids[i] == IdOf(vocab, words[i])
  {
    if words == [] then []
    else WordIds(vocab, words[..|words| - 1]) + [IdOf(vocab, words[|words| - 1])]
  }

  /** The ids Tokenize returns for a list of words: CLS first, SEP last, min(words + 2, 512)
      ids, and the words' ids in input order between them as far as they fit. */
  function TokenIds(vocab: map<string, int>, words: seq<string>): (ids: seq<int>)
    ensures |ids| == (if |words| + 2 < MaxTokens then |words| + 2 else MaxTokens)
    ensures ids[0] == TokenCLS && ids[|ids| - 1] == TokenSEP
    ensures forall i | 0 <= i < |ids| - 2 :: ids[i + 1] == IdOf(vocab, words[i])
  {
    var framed := [TokenCLS] + WordIds(vocab, words) + [TokenSEP];
    if |framed| > MaxTokens then framed[..MaxTokens - 1] + [TokenSEP] else framed
  }

  /** Text with no letter or number gives just CLS, SEP. */
  lemma NoWordsFramed(vocab: map<string, int>, text: string, lower: char -> char, isWordRune: char -> bool)
    requires forall i | 0 <= i < |text| :: !isWordRune(lower(text[i]))
    ensures TokenIds(vocab, Words(text, lower, isWordRune)) == [TokenCLS, TokenSEP]
  {
    SplitRunsEmpty(Lowered(text, lower), isWordRune);
  }

  /** Every word is a non-empty run of letter or number runes. */
  lemma WordsAreRuns(text: string, lower: char -> char, isWordRune: char -> bool)
    ensures forall w | w in Words(text, lower, isWordRune) :: w != [] && forall j | 0 <= j < |w| :: isWordRune(w[j])
  {
    SplitRunsChars(Lowered(text, lower), isWordRune, isWordRune);
  }
}
