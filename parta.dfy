/** PartA.py: the word counter of the first assignment. Words are runs of
    ASCII letters and digits, lower-cased, read from a text file line by
    line; they are counted, and the counts are listed from the most to the
    least frequent. */
module PartA {
  import opened Letters
  import opened Scanner
  import opened Counts
  import opened Results
  import opened Sorting
  import IndexText

  // ---------------------------------------------------------------------
  // Tokenizing a file

  /** The lines `book.readline()` returns from offset `p`, each with its
      newline, until it returns the empty string at the end of the text. */
  function LinesFrom(text: string, p: nat): (ls: seq<string>)
    requires p <= |text|
    ensures forall k :: 0 <= k < |ls| ==> ls[k] != []
    decreases |text| - p
  {
    if p == |text| then []
    else [IndexText.ReadLine(text, p)] + LinesFrom(text, IndexText.LineEnd(text, p))
  }

  /** One round of the line loop. */
  lemma NextLine(text: string, p: nat)
    requires p <= |text|
    ensures TokenizeItems(LinesFrom(text, p), Alphanumeric)
         == if p == |text| then [] else
              Tokens(IndexText.ReadLine(text, p), Alphanumeric)
              + TokenizeItems(LinesFrom(text, IndexText.LineEnd(text, p)), Alphanumeric)
  {
    if p < |text| {
      var ls := LinesFrom(text, p);
      assert ls[0] == IndexText.ReadLine(text, p);
      assert ls[1..] == LinesFrom(text, IndexText.LineEnd(text, p));
    }
  }

  /** One round of the line loop as written. */
  lemma NextLineFrom(text: string, p: nat, current: string)
    requires p <= |text|
    ensures TokenizeItemsFrom(LinesFrom(text, p), Alphanumeric, current)
         == if p == |text| then [] else
              var line := IndexText.ReadLine(text, p);
              Scan(line, Alphanumeric, current)
              + TokenizeItemsFrom(LinesFrom(text, IndexText.LineEnd(text, p)), Alphanumeric, Pending(line, Alphanumeric, current))
  {
    if p < |text| {
      var ls := LinesFrom(text, p);
      assert ls[0] == IndexText.ReadLine(text, p);
      assert ls[1..] == LinesFrom(text, IndexText.LineEnd(text, p));
    }
  }

  /** Every line read but the last ends with its line break. */
  lemma {:induction false} LinesEndInBreaks(text: string, p: nat)
    requires p <= |text|
    ensures var ls := LinesFrom(text, p);
            forall k :: 0 <= k < |ls| - 1 ==> ls[k][|ls[k]| - 1] == '\n'
    decreases |text| - p
  {
    if p < |text| {
      var q := IndexText.LineEnd(text, p);
      var ls := LinesFrom(text, p);
      LinesEndInBreaks(text, q);
      assert ls[1..] == LinesFrom(text, q);
      if q < |text| {
        assert ls[0] == text[p..q] && ls[0][|ls[0]| - 1] == text[q - 1];
      } else {
        assert |ls| == 1;
      }
    }
  }

  /** `tokenize(file)` (PartA.py:42-74), on the text of the file, with its
      line loop as written: the token pending at the end of a line is
      flushed but not cleared. Since every line but the last ends with its
      line break, nothing is pending there, and the tokens are every
      line's own. */
  method Tokenize(text: string) returns (tokens: seq<Token>)
    ensures tokens == TokenizeItemsFrom(LinesFrom(text, 0), Alphanumeric, [])
    ensures tokens == TokenizeItems(LinesFrom(text, 0), Alphanumeric)
  {
    tokens := [];
    var current: string := [];
    var pos := 0;
    while true
      invariant pos <= |text|
      invariant TokenizeItemsFrom(LinesFrom(text, 0), Alphanumeric, [])
             == tokens + TokenizeItemsFrom(LinesFrom(text, pos), Alphanumeric, current)
      decreases |text| - pos
    {
      NextLineFrom(text, pos, current);
      var line := IndexText.ReadLine(text, pos);
      pos := IndexText.LineEnd(text, pos);
      if line == [] {
        assert tokens + [] == tokens;
        break;
      }
      ghost var before, start := tokens, current;
      assert line[0..] == line;
      for j := 0 to |line|
        invariant tokens + Scan(line[j..], Alphanumeric, current) == before + Scan(line, Alphanumeric, start)
        invariant Pending(line[j..], Alphanumeric, current) == Pending(line, Alphanumeric, start)
      {
        var ch := line[j];
        ScanStep(line, j, Alphanumeric, current);
        PendingStep(line, j, Alphanumeric, current);
        if InClass(Alphanumeric, ch) {
          current := current + [LowerChar(ch)];
        } else {
          FlushInto(tokens, current, Scan(line[j + 1..], Alphanumeric, []));
          if current != [] {
            tokens := tokens + [Token(current)];
            current := [];
          }
        }
      }
      assert line[|line|..] == [];
      ghost var rest := TokenizeItemsFrom(LinesFrom(text, pos), Alphanumeric, current);
      Regroup(before, Scan(line, Alphanumeric, start), tokens, Flush(current), rest);
      FlushInto(tokens, current, rest);
      if current != [] {
        tokens := tokens + [Token(current)];
      }
    }
    LinesEndInBreaks(text, 0);
    ClearedAtItemEnds(LinesFrom(text, 0), Alphanumeric);
  }

  /** The tokens of the text from a line's start are the line's own and
      those after it. */
  lemma OneLine(text: string, p: nat)
    requires p < |text|
    ensures Tokens(text[p..], Alphanumeric)
         == Tokens(IndexText.ReadLine(text, p), Alphanumeric) + Tokens(text[IndexText.LineEnd(text, p)..], Alphanumeric)
  {
    var q := IndexText.LineEnd(text, p);
    var line := IndexText.ReadLine(text, p);
    if q < |text| {
      var body := text[p..q - 1];
      assert text[p..] == body + ['\n'] + text[q..];
      ScanSplits(body, '\n', text[q..], Alphanumeric, []);
      assert line == body + ['\n'] + [];
      ScanSplits(body, '\n', [], Alphanumeric, []);
      assert Tokens(body, Alphanumeric) + [] == Tokens(body, Alphanumeric);
    } else {
      assert text[q..] == [] && line == text[p..];
      assert Tokens(text[q..], Alphanumeric) == [];
      assert line + [] == line;
    }
  }

  /** Reading line by line changes nothing: the newline is a separator, so
      the tokens of the lines are those of the whole text and no token
      spans two lines. */
  lemma {:induction false} LinesAreTransparent(text: string, p: nat)
    requires p <= |text|
    ensures TokenizeItems(LinesFrom(text, p), Alphanumeric) == Tokens(text[p..], Alphanumeric)
    decreases |text| - p
  {
    NextLine(text, p);
    if p < |text| {
      LinesAreTransparent(text, IndexText.LineEnd(text, p));
      OneLine(text, p);
    }
  }

  /** Every token is non-empty and holds only small ASCII letters and
      digits. */
  lemma {:induction false} TokensAreWords(text: string)
    ensures forall k :: 0 <= k < |TokenizeItems(LinesFrom(text, 0), Alphanumeric)| ==>
              var t := TokenizeItems(LinesFrom(text, 0), Alphanumeric)[k].data;
              t != [] && forall m :: 0 <= m < |t| ==> 'a' <= t[m] <= 'z' || '0' <= t[m] <= '9'
  {
    LinesAreTransparent(text, 0);
    ScanClean(text[0..], Alphanumeric, []);
  }

  /** An apostrophe or a hyphen splits a word: `Jinx's` gives `jinx` and
      `s`, `built-in` gives `built` and `in`. */
  lemma SeparatorsSplitWords(a: string, c: char, b: string)
    requires c == '-' || c == '\''
    requires a != [] && forall k :: 0 <= k < |a| ==> IsAlphanumeric(a[k])
    requires b != [] && forall k :: 0 <= k < |b| ==> IsAlphanumeric(b[k])
    ensures Tokens(a + [c] + b, Alphanumeric) == [Token(Lower(a)), Token(Lower(b))]
  {
    ScanSplits(a, c, b, Alphanumeric, []);
    ScanWord(a, Alphanumeric, []);
    ScanWord(b, Alphanumeric, []);
    assert [] + Lower(a) == Lower(a) && [] + Lower(b) == Lower(b);
  }

  // ---------------------------------------------------------------------
  // Counting, as written

  /** One round of `compute_word_frequencies` (PartA.py:94-97): the test
      looks for the lower-cased text but the update uses the text itself. */
  function CountAsWritten(d: Items, data: string): Result<Items>
  {
    if Get(d, Lower(data)).Some? then
      match Get(d, data)
      case Some(n) => Ok(Put(d, data, n + 1))
      case None => Err(KeyError(data))
    else Ok(Put(d, data, 1))
  }

  /** What `compute_word_frequencies(tokens)` returns or raises. */
  function FrequenciesAsWritten(tokens: seq<Token>): Result<Items>
  {
    if tokens == [] then Ok([])
    else match FrequenciesAsWritten(tokens[..|tokens| - 1])
      case Err(e) => Err(e)
      case Ok(d) => CountAsWritten(d, tokens[|tokens| - 1].data)
  }

  /** Every token's text. */
  function Texts(tokens: seq<Token>): (ws: seq<string>)
    ensures |ws| == |tokens| && forall i :: 0 <= i < |tokens| ==> ws[i] == tokens[i].data
  {
    seq(|tokens|, i requires 0 <= i < |tokens| => tokens[i].data)
  }

  /** One more token: an error so far stays, otherwise the round above. */
  lemma AsWrittenStep(tokens: seq<Token>, i: nat)
    requires i < |tokens|
    ensures FrequenciesAsWritten(tokens[..i + 1])
         == match FrequenciesAsWritten(tokens[..i])
            case Err(e) => Err(e)
            case Ok(d) => CountAsWritten(d, tokens[i].data)
  {
    assert tokens[..i + 1][..i] == tokens[..i];
  }

  /** No tokens, an empty dict. */
  lemma NothingCounted(tokens: seq<Token>)
    requires |tokens| == 0
    ensures FrequenciesAsWritten(tokens) == Ok([])
  {
  }

  /** One more token after the dict `d` so far, whose lower-cased text
      is a key and whose own text is the key `n` is stored under. */
  lemma CountFound(tokens: seq<Token>, i: nat, d: Items, n: int)
    requires i < |tokens| && FrequenciesAsWritten(tokens[..i]) == Ok(d)
    requires Get(d, Lower(tokens[i].data)).Some? && Get(d, tokens[i].data) == Some(n)
    ensures FrequenciesAsWritten(tokens[..i + 1]) == Ok(Put(d, tokens[i].data, n + 1))
  {
    AsWrittenStep(tokens, i);
  }

  /** One more token whose lower-cased text is a key but whose own text
      is not: the lookup raises. */
  lemma CountMissed(tokens: seq<Token>, i: nat, d: Items)
    requires i < |tokens| && FrequenciesAsWritten(tokens[..i]) == Ok(d)
    requires Get(d, Lower(tokens[i].data)).Some? && Get(d, tokens[i].data).None?
    ensures FrequenciesAsWritten(tokens[..i + 1]) == Err(KeyError(tokens[i].data))
  {
    AsWrittenStep(tokens, i);
  }

  /** One more token whose lower-cased text is not a key: its own text is
      stored with count one. */
  lemma CountNew(tokens: seq<Token>, i: nat, d: Items)
    requires i < |tokens| && FrequenciesAsWritten(tokens[..i]) == Ok(d)
    requires Get(d, Lower(tokens[i].data)).None?
    ensures FrequenciesAsWritten(tokens[..i + 1]) == Ok(Put(d, tokens[i].data, 1))
  {
    AsWrittenStep(tokens, i);
  }

  /** Once raised, the error is what the whole call raises. */
  lemma {:induction false} ErrorStays(tokens: seq<Token>, i: nat, e: Failure)
    requires i <= |tokens| && FrequenciesAsWritten(tokens[..i]) == Err(e)
    ensures FrequenciesAsWritten(tokens) == Err(e)
    decreases |tokens| - i
  {
    if i == |tokens| {
      assert tokens[..i] == tokens;
    } else {
      AsWrittenStep(tokens, i);
      ErrorStays(tokens, i + 1, e);
    }
  }

  /** `compute_word_frequencies(tokens)` (PartA.py:80-98). */
  method ComputeWordFrequencies(tokens: seq<Token>) returns (r: Result<Items>)
    ensures r == FrequenciesAsWritten(tokens)
  {
    var freq: Items := [];
    NothingCounted(tokens[..0]);
    for i := 0 to |tokens|
      invariant FrequenciesAsWritten(tokens[..i]) == Ok(freq)
    {
      var data := tokens[i].data;
      if Get(freq, Lower(data)).Some? {
        match Get(freq, data)
        case Some(n) =>
          CountFound(tokens, i, freq, n);
          freq := Put(freq, data, n + 1);
        case None =>
          CountMissed(tokens, i, freq);
          ErrorStays(tokens, i + 1, KeyError(data));
          return Err(KeyError(data));
      } else {
        CountNew(tokens, i, freq);
        freq := Put(freq, data, 1);
      }
    }
    assert tokens[..|tokens|] == tokens;
    r := Ok(freq);
  }

  /** On tokens without capitals the count is exact: the same dict as
      counting the texts one by one. */
  lemma {:induction false} AsWrittenOnLowerCase(tokens: seq<Token>)
    requires forall i :: 0 <= i < |tokens| ==> Lower(tokens[i].data) == tokens[i].data
    ensures FrequenciesAsWritten(tokens) == Ok(Frequencies(Texts(tokens)))
    decreases |tokens|
  {
    if tokens != [] {
      var front := tokens[..|tokens| - 1];
      AsWrittenOnLowerCase(front);
      assert Texts(tokens)[..|tokens| - 1] == Texts(front);
    }
  }

  /** What `tokenize` produces is counted exactly: each word's count is
      its number of occurrences, and the counts add up to the number of
      tokens. */
  lemma CountsOfTokenizedText(text: string)
    ensures var tokens := TokenizeItems(LinesFrom(text, 0), Alphanumeric);
            FrequenciesAsWritten(tokens) == Ok(Frequencies(Texts(tokens))) &&
            Total(Frequencies(Texts(tokens))) == |tokens| &&
            forall w :: Get(Frequencies(Texts(tokens)), w)
                        == if Count(Texts(tokens), w) == 0 then None else Some(Count(Texts(tokens), w))
  {
    var tokens := TokenizeItems(LinesFrom(text, 0), Alphanumeric);
    TokensAreWords(text);
    forall i | 0 <= i < |tokens| ensures Lower(tokens[i].data) == tokens[i].data {
      LowerWithoutCapitals(tokens[i].data);
    }
    AsWrittenOnLowerCase(tokens);
    FrequenciesCount(Texts(tokens));
  }

  /** A word with a capital, seen twice, is counted once. */
  lemma CapitalizedCountedOnce(w: string)
    requires Lower(w) != w
    ensures FrequenciesAsWritten([Token(w), Token(w)]) == Ok([(w, 1)])
  {
    var ts := [Token(w), Token(w)];
    AsWrittenStep(ts, 0);
    AsWrittenStep(ts, 1);
    assert ts[..0] == [] && ts[..2] == ts;
    var d: Items := [(w, 1)];
    assert Put([], w, 1) == d;
    assert FrequenciesAsWritten(ts[..1]) == Ok(d);
    assert IndexOf(d, Lower(w)) == None;
    assert IndexOf(d, w) == Some(0);
    assert Put(d, w, 1) == d;
  }

  /** A word seen in small letters and then with a capital raises
      `KeyError`. */
  lemma MixedCaseRaises(w: string)
    requires Lower(w) != w
    ensures FrequenciesAsWritten([Token(Lower(w)), Token(w)]) == Err(KeyError(w))
  {
    var ts := [Token(Lower(w)), Token(w)];
    AsWrittenStep(ts, 0);
    AsWrittenStep(ts, 1);
    assert ts[..0] == [] && ts[..2] == ts;
    LowerIsLower(w);
    var d: Items := [(Lower(w), 1)];
    assert Put([], Lower(w), 1) == d;
    assert FrequenciesAsWritten(ts[..1]) == Ok(d);
    assert IndexOf(d, Lower(w)) == Some(0);
    assert IndexOf(d, w) == None;
  }

  // ---------------------------------------------------------------------
  // The order of the listing

  /** The sort key of `sorted(..., key=lambda item: item[1], reverse=True)`:
      a stable sort in descending value is a stable sort in ascending
      negated value. */
  function Descending(item: (string, int)): int
  {
    -item.1
  }

  /** The items whose value is not zero, in order (`if value:`). */
  function NonZero(s: Items): (r: Items)
    ensures |r| <= |s|
  {
    if s == [] then []
    else (if s[0].1 != 0 then [s[0]] else []) + NonZero(s[1..])
  }

  /** The items `print_frequencies(tokens)` prints, in the order it prints
      them (PartA.py:111-114). */
  function PrintOrder(d: Items): Items
  {
    NonZero(SortBy(d, Descending))
  }

  lemma {:induction false} NonZeroFacts(s: Items)
    ensures forall i :: 0 <= i < |NonZero(s)| ==> NonZero(s)[i].1 != 0
    ensures forall x :: multiset(NonZero(s))[x] == if x.1 != 0 then multiset(s)[x] else 0
    decreases |s|
  {
    if s != [] {
      NonZeroFacts(s[1..]);
      assert s == [s[0]] + s[1..];
      if s[0].1 == 0 {
        assert [] + NonZero(s[1..]) == NonZero(s[1..]);
      }
    }
  }

  /** Values that never increase along the list. */
  ghost predicate NonIncreasing(s: Items)
  {
    forall i, j :: 0 <= i < j < |s| ==> s[i].1 >= s[j].1
  }

  /** A bound above every value of `s` stays above every value kept. */
  lemma {:induction false} NonZeroBelow(s: Items, b: int)
    requires forall i :: 0 <= i < |s| ==> s[i].1 <= b
    ensures forall i :: 0 <= i < |NonZero(s)| ==> NonZero(s)[i].1 <= b
    decreases |s|
  {
    if s != [] {
      NonZeroBelow(s[1..], b);
      var c := if s[0].1 != 0 then [s[0]] else [];
      assert forall i :: 0 <= i < |c + NonZero(s[1..])| ==>
        (c + NonZero(s[1..]))[i] == if i < |c| then s[0] else NonZero(s[1..])[i - |c|];
    }
  }

  lemma TailNonIncreasing(s: Items)
    requires s != [] && NonIncreasing(s)
    ensures NonIncreasing(s[1..])
  {
    forall i, j | 0 <= i < j < |s[1..]| ensures s[1..][i].1 >= s[1..][j].1 {
      assert s[1..][i] == s[i + 1] && s[1..][j] == s[j + 1];
    }
  }

  lemma ConsNonIncreasing(x: (string, int), rest: Items)
    requires NonIncreasing(rest) && forall i :: 0 <= i < |rest| ==> rest[i].1 <= x.1
    ensures NonIncreasing([x] + rest)
  {
    var r := [x] + rest;
    forall i, j | 0 <= i < j < |r| ensures r[i].1 >= r[j].1 {
      assert r[j] == rest[j - 1];
      if i > 0 {
        assert r[i] == rest[i - 1];
      }
    }
  }

  lemma {:induction false} NonZeroSorted(s: Items)
    requires NonIncreasing(s)
    ensures NonIncreasing(NonZero(s))
    decreases |s|
  {
    if s != [] {
      TailNonIncreasing(s);
      NonZeroSorted(s[1..]);
      if s[0].1 != 0 {
        assert forall i :: 0 <= i < |s[1..]| ==> s[1..][i].1 <= s[0].1 by {
          forall i | 0 <= i < |s[1..]| ensures s[1..][i].1 <= s[0].1 {
            assert s[1..][i] == s[i + 1];
          }
        }
        NonZeroBelow(s[1..], s[0].1);
        ConsNonIncreasing(s[0], NonZero(s[1..]));
      } else {
        assert [] + NonZero(s[1..]) == NonZero(s[1..]);
      }
    }
  }

  lemma {:induction false} NonZeroKeepsTies(s: Items, k: int)
    requires k != 0
    ensures WithKey(NonZero(s), Descending, k) == WithKey(s, Descending, k)
    decreases |s|
  {
    if s != [] {
      NonZeroKeepsTies(s[1..], k);
      var c := if s[0].1 != 0 then [s[0]] else [];
      WithKeyAppend(c, NonZero(s[1..]), Descending, k);
      if s[0].1 != 0 {
        assert WithKey(c, Descending, k) == (if Descending(s[0]) == k then [s[0]] else []) + WithKey([], Descending, k);
      } else {
        assert WithKey(c, Descending, k) == [];
      }
    }
  }

  /** The printed items come by non-increasing value; a zero value is
      never printed; each other item is printed exactly once; items of
      equal value keep the dict's order (for each non-zero sort key `k`,
      that is value `-k`). */
  lemma PrintOrderFacts(d: Items)
    ensures forall i, j :: 0 <= i < j < |PrintOrder(d)| ==> PrintOrder(d)[i].1 >= PrintOrder(d)[j].1
    ensures forall i :: 0 <= i < |PrintOrder(d)| ==> PrintOrder(d)[i].1 != 0
    ensures forall x :: multiset(PrintOrder(d))[x] == if x.1 != 0 then multiset(d)[x] else 0
    ensures forall k :: k != 0 ==> WithKey(PrintOrder(d), Descending, k) == WithKey(d, Descending, k)
  {
    var sorted := SortBy(d, Descending);
    SortByFacts(d, Descending);
    assert NonIncreasing(sorted) by {
      forall i, j | 0 <= i < j < |sorted| ensures sorted[i].1 >= sorted[j].1 {
        assert Descending(sorted[i]) <= Descending(sorted[j]);
      }
    }
    NonZeroSorted(sorted);
    NonZeroFacts(sorted);
    var r := PrintOrder(d);
    forall k | k != 0 ensures WithKey(r, Descending, k) == WithKey(d, Descending, k) {
      NonZeroKeepsTies(sorted, k);
    }
  }
}
