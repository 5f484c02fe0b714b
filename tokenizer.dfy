/** tokenizer.py: the tokenizer of the index builder. Words are runs of
    ASCII letters, digits, apostrophes and hyphens; they are lower-cased;
    the input is a list of text items, read up to the first empty one, and
    a word left pending at the end of an item is carried into the next. */
module Tokenizer {
  import opened Letters
  import opened Scanner
  import opened Counts
  import opened Results

  /** `tokenize(content)` (tokenizer.py:35-61), with its item loop as
      written: the token pending at the end of an item is flushed but also
      carried into the next item. */
  method Tokenize(content: seq<string>) returns (tokens: seq<Token>)
    ensures tokens == TokenizeItemsFrom(content, WordCharacters, [])
  {
    tokens := [];
    var current: string := [];
    var i := 0;
    while i < |content|
      invariant i <= |content|
      invariant TokenizeItemsFrom(content, WordCharacters, [])
             == tokens + TokenizeItemsFrom(content[i..], WordCharacters, current)
    {
      var item := content[i];
      ItemFromStep(content, i, WordCharacters, current);
      if item == [] {
        assert tokens + [] == tokens;
        break;
      }
      ghost var before, start := tokens, current;
      assert item[0..] == item;
      for j := 0 to |item|
        invariant tokens + Scan(item[j..], WordCharacters, current) == before + Scan(item, WordCharacters, start)
        invariant Pending(item[j..], WordCharacters, current) == Pending(item, WordCharacters, start)
      {
        var ch := item[j];
        ScanStep(item, j, WordCharacters, current);
        PendingStep(item, j, WordCharacters, current);
        if InClass(WordCharacters, ch) {
          current := current + [LowerChar(ch)];
        } else {
          FlushInto(tokens, current, Scan(item[j + 1..], WordCharacters, []));
          if current != [] {
            tokens := tokens + [Token(current)];
            current := [];
          }
        }
      }
      assert item[|item|..] == [];
      ghost var rest := TokenizeItemsFrom(content[i + 1..], WordCharacters, current);
      assert before + Scan(item, WordCharacters, start) == tokens + Flush(current);
      Regroup(before, Scan(item, WordCharacters, start), tokens, Flush(current), rest);
      FlushInto(tokens, current, rest);
      if current != [] {
        tokens := tokens + [Token(current)];
      }
      i := i + 1;
    }
    if i == |content| {
      assert tokens + [] == tokens;
    }
  }

  /** Every token is non-empty and holds only small ASCII letters, digits,
      apostrophes and hyphens; every other character is a separator and
      never part of a token. */
  lemma TokensAreWords(content: seq<string>)
    ensures forall k :: 0 <= k < |TokenizeItemsFrom(content, WordCharacters, [])| ==>
              var t := TokenizeItemsFrom(content, WordCharacters, [])[k].data;
              t != [] && forall m :: 0 <= m < |t| ==>
                'a' <= t[m] <= 'z' || '0' <= t[m] <= '9' || t[m] == '\'' || t[m] == '-'
  {
    TokenizeFromClean(content, WordCharacters, []);
  }

  /** A hyphen or an apostrophe between two words keeps them one token:
      `built-in` stays `built-in` and `Jinx's` becomes `jinx's`. */
  lemma JoinedWordsStayWhole(a: string, c: char, b: string)
    requires c == '-' || c == '\''
    requires forall k :: 0 <= k < |a| ==> IsAlphanumeric(a[k])
    requires forall k :: 0 <= k < |b| ==> IsAlphanumeric(b[k])
    ensures Tokens(a + [c] + b, WordCharacters) == [Token(Lower(a + [c] + b))]
  {
    var w := a + [c] + b;
    assert forall k :: 0 <= k < |w| ==> InClass(WordCharacters, w[k]) by {
      forall k | 0 <= k < |w| ensures InClass(WordCharacters, w[k]) {
        if k < |a| {
          assert w[k] == a[k];
        } else if k > |a| {
          assert w[k] == b[k - |a| - 1];
        }
      }
    }
    ScanWord(w, WordCharacters, []);
    assert [] + Lower(w) == Lower(w);
  }

  // ---------------------------------------------------------------------
  // Word frequencies

  /** Every token's text, lower-cased. */
  function LowerData(tokens: seq<Token>): (ws: seq<string>)
    ensures |ws| == |tokens| && forall i :: 0 <= i < |tokens| ==> ws[i] == Lower(tokens[i].data)
  {
    seq(|tokens|, i requires 0 <= i < |tokens| => Lower(tokens[i].data))
  }

  /** `compute_word_frequencies(tokens)` (tokenizer.py:67-85): each key is a
      lower-cased token text, its value the number of tokens with that
      text, at least one; the values add up to the number of tokens. */
  method ComputeWordFrequencies(tokens: seq<Token>) returns (freq: Items)
    ensures freq == Frequencies(LowerData(tokens))
    ensures Distinct(freq) && Keys(freq) == FirstOccurrences(LowerData(tokens))
    ensures forall w :: Get(freq, w) == if Count(LowerData(tokens), w) == 0 then None else Some(Count(LowerData(tokens), w))
    ensures Total(freq) == |tokens|
  {
    freq := [];
    for i := 0 to |tokens|
      invariant freq == Frequencies(LowerData(tokens[..i]))
    {
      var w := Lower(tokens[i].data);
      assert LowerData(tokens[..i + 1])[..i] == LowerData(tokens[..i]);
      match Get(freq, w)
      case Some(n) =>
        freq := Put(freq, w, n + 1);
      case None =>
        freq := Put(freq, w, 1);
    }
    assert tokens[..|tokens|] == tokens;
    FrequenciesCount(LowerData(tokens));
  }
}
