/** The character loop shared by tokenizer.py and PartA.py: characters of a
    chosen class are lower-cased and gathered into the pending token
    `current`; any other character ends it; an empty item ends the whole
    scan. At the end of an item the pending token is flushed but, as the
    loops are written, not cleared, so it is carried into the next item
    (`TokenizeItemsFrom`); `TokenizeItems` is the loop that clears it there.
    Each file fixes its own class. */
module Scanner {
  import opened Letters

  /** The characters a file keeps in its tokens: PartA.py keeps ASCII
      letters and digits (PartA.py:65); tokenizer.py also keeps apostrophes
      and hyphens (tokenizer.py:53). */
  datatype CharClass = Alphanumeric | WordCharacters

  predicate IsAlphanumeric(c: char)
  {
    'A' <= c <= 'Z' || 'a' <= c <= 'z' || '0' <= c <= '9'
  }

  predicate InClass(cls: CharClass, c: char)
  {
    match cls
    case Alphanumeric => IsAlphanumeric(c)
    case WordCharacters => IsAlphanumeric(c) || c == '\'' || c == '-'
  }

  /** `Token(data)`: one word of the text. */
  datatype Token = Token(data: string)

  /** The pending token, as the tokens it is flushed into. */
  function Flush(current: string): seq<Token>
  {
    if current == [] then [] else [Token(current)]
  }

  /** The loop over the characters of one item, from the pending token
      `current`. */
  function Scan(item: string, cls: CharClass, current: string): seq<Token>
    decreases |item|
  {
    if item == [] then Flush(current)
    else if InClass(cls, item[0]) then Scan(item[1..], cls, current + [LowerChar(item[0])])
    else Flush(current) + Scan(item[1..], cls, [])
  }

  /** The tokens of one item, which starts with nothing pending. */
  function Tokens(item: string, cls: CharClass): seq<Token>
  {
    Scan(item, cls, [])
  }

  /** The pending token left when the loop over `item` ends. */
  function Pending(item: string, cls: CharClass, current: string): string
    decreases |item|
  {
    if item == [] then current
    else if InClass(cls, item[0]) then Pending(item[1..], cls, current + [LowerChar(item[0])])
    else Pending(item[1..], cls, [])
  }

  /** The loop over the items as written (tokenizer.py:47-60,
      PartA.py:56-73): the end of an item flushes the pending token but
      leaves it in place, so the next item starts from it. */
  function TokenizeItemsFrom(content: seq<string>, cls: CharClass, current: string): seq<Token>
    decreases |content|
  {
    if content == [] || content[0] == [] then []
    else Scan(content[0], cls, current) + TokenizeItemsFrom(content[1..], cls, Pending(content[0], cls, current))
  }

  /** The loop over the items with the pending token cleared at the end of
      each item: every item's own tokens in order, up to the first empty
      item. */
  function TokenizeItems(content: seq<string>, cls: CharClass): seq<Token>
    decreases |content|
  {
    if content == [] || content[0] == [] then []
    else Tokens(content[0], cls) + TokenizeItems(content[1..], cls)
  }

  // ---------------------------------------------------------------------
  // An independent description of the tokens

  /** The kept characters of `item`, lower-cased, in order. */
  function Kept(item: string, cls: CharClass): (r: string)
    ensures |r| <= |item|
  {
    if item == [] then []
    else (if InClass(cls, item[0]) then [LowerChar(item[0])] else []) + Kept(item[1..], cls)
  }

  /** The tokens run together. */
  function Spelled(ts: seq<Token>): string
  {
    if ts == [] then [] else ts[0].data + Spelled(ts[1..])
  }

  /** Text made of kept characters and no capitals. */
  ghost predicate Plain(s: string, cls: CharClass)
  {
    forall k :: 0 <= k < |s| ==> InClass(cls, s[k]) && !IsUpper(s[k])
  }

  /** What every token is: non-empty, kept characters, no capitals. */
  ghost predicate Clean(t: Token, cls: CharClass)
  {
    t.data != [] && Plain(t.data, cls)
  }

  // ---------------------------------------------------------------------
  // Properties of the scan

  /** One step of the character loop, at position `j` of the item. */
  lemma ScanStep(item: string, j: nat, cls: CharClass, current: string)
    requires j < |item|
    ensures Scan(item[j..], cls, current)
         == if InClass(cls, item[j]) then Scan(item[j + 1..], cls, current + [LowerChar(item[j])])
            else Flush(current) + Scan(item[j + 1..], cls, [])
  {
    assert item[j..][0] == item[j] && item[j..][1..] == item[j + 1..];
  }

  /** One step of the item loop, at item `i`. */
  lemma ItemStep(content: seq<string>, i: nat, cls: CharClass)
    requires i < |content|
    ensures TokenizeItems(content[i..], cls)
         == if content[i] == [] then [] else Tokens(content[i], cls) + TokenizeItems(content[i + 1..], cls)
  {
    assert content[i..][0] == content[i] && content[i..][1..] == content[i + 1..];
  }

  /** One step of the character loop, for the pending token. */
  lemma PendingStep(item: string, j: nat, cls: CharClass, current: string)
    requires j < |item|
    ensures Pending(item[j..], cls, current)
         == if InClass(cls, item[j]) then Pending(item[j + 1..], cls, current + [LowerChar(item[j])])
            else Pending(item[j + 1..], cls, [])
  {
    assert item[j..][0] == item[j] && item[j..][1..] == item[j + 1..];
  }

  /** One step of the item loop as written, at item `i`. */
  lemma ItemFromStep(content: seq<string>, i: nat, cls: CharClass, current: string)
    requires i < |content|
    ensures TokenizeItemsFrom(content[i..], cls, current)
         == if content[i] == [] then []
            else Scan(content[i], cls, current) + TokenizeItemsFrom(content[i + 1..], cls, Pending(content[i], cls, current))
  {
    assert content[i..][0] == content[i] && content[i..][1..] == content[i + 1..];
  }

  /** Two equal lists stay equal when the same tail is added to both. */
  lemma Regroup(a: seq<Token>, x: seq<Token>, b: seq<Token>, y: seq<Token>, rest: seq<Token>)
    requires a + x == b + y
    ensures a + (x + rest) == b + (y + rest)
  {
    assert a + (x + rest) == (a + x) + rest;
    assert b + (y + rest) == (b + y) + rest;
  }

  /** Flushing the pending token onto the list so far. */
  lemma FlushInto(tokens: seq<Token>, current: string, rest: seq<Token>)
    ensures tokens + (Flush(current) + rest)
         == (if current == [] then tokens else tokens + [Token(current)]) + rest
  {
    if current == [] {
      assert Flush(current) + rest == rest;
    }
  }

  /** Every token is non-empty and made only of kept characters without
      capitals. */
  lemma {:induction false} ScanClean(item: string, cls: CharClass, current: string)
    requires Plain(current, cls)
    ensures forall k :: 0 <= k < |Scan(item, cls, current)| ==> Clean(Scan(item, cls, current)[k], cls)
    decreases |item|
  {
    if item != [] {
      if InClass(cls, item[0]) {
        var c := LowerChar(item[0]);
        assert InClass(cls, c) && !IsUpper(c);
        ScanClean(item[1..], cls, current + [c]);
      } else {
        ScanClean(item[1..], cls, []);
      }
    }
  }

  lemma {:induction false} SpelledAppend(a: seq<Token>, b: seq<Token>)
    ensures Spelled(a + b) == Spelled(a) + Spelled(b)
    decreases |a|
  {
    if a == [] {
      assert a + b == b;
    } else {
      assert (a + b)[0] == a[0] && (a + b)[1..] == a[1..] + b;
      SpelledAppend(a[1..], b);
    }
  }

  /** Run together, the tokens spell the pending text followed by the kept
      characters of the item, lower-cased: nothing kept is lost and nothing
      else gets in. */
  lemma {:induction false} ScanSpells(item: string, cls: CharClass, current: string)
    ensures Spelled(Scan(item, cls, current)) == current + Kept(item, cls)
    decreases |item|
  {
    if item == [] {
      assert current + [] == current;
    } else {
      var c := LowerChar(item[0]);
      if InClass(cls, item[0]) {
        ScanSpells(item[1..], cls, current + [c]);
        assert (current + [c]) + Kept(item[1..], cls) == current + ([c] + Kept(item[1..], cls));
      } else {
        ScanSpells(item[1..], cls, []);
        SpelledAppend(Flush(current), Scan(item[1..], cls, []));
        assert [] + Kept(item[1..], cls) == Kept(item[1..], cls);
        assert Kept(item, cls) == Kept(item[1..], cls);
      }
    }
  }

  /** A character outside the class splits the text: no token reaches
      across it. */
  lemma {:induction false} ScanSplits(a: string, d: char, b: string, cls: CharClass, current: string)
    requires !InClass(cls, d)
    ensures Scan(a + [d] + b, cls, current) == Scan(a, cls, current) + Tokens(b, cls)
    decreases |a|
  {
    var s := a + [d] + b;
    if a == [] {
      assert s[0] == d && s[1..] == b;
    } else {
      assert s[0] == a[0] && s[1..] == a[1..] + [d] + b;
      if InClass(cls, a[0]) {
        ScanSplits(a[1..], d, b, cls, current + [LowerChar(a[0])]);
      } else {
        ScanSplits(a[1..], d, b, cls, []);
        assert Flush(current) + (Scan(a[1..], cls, []) + Tokens(b, cls))
            == (Flush(current) + Scan(a[1..], cls, [])) + Tokens(b, cls);
      }
    }
  }

  /** A run of kept characters is one token, lower-cased. */
  lemma {:induction false} ScanWord(w: string, cls: CharClass, current: string)
    requires forall k :: 0 <= k < |w| ==> InClass(cls, w[k])
    ensures Scan(w, cls, current) == Flush(current + Lower(w))
    decreases |w|
  {
    if w == [] {
      assert current + Lower(w) == current;
    } else {
      ScanWord(w[1..], cls, current + [LowerChar(w[0])]);
      assert Lower(w) == [LowerChar(w[0])] + Lower(w[1..]);
      assert (current + [LowerChar(w[0])]) + Lower(w[1..]) == current + Lower(w);
    }
  }

  /** The tokens of items that are all non-empty: each item's own, so no
      token spans two items. */
  lemma {:induction false} TokenizeAppend(a: seq<string>, b: seq<string>, cls: CharClass)
    requires forall k :: 0 <= k < |a| ==> a[k] != []
    ensures TokenizeItems(a + b, cls) == TokenizeItems(a, cls) + TokenizeItems(b, cls)
    decreases |a|
  {
    if a == [] {
      assert a + b == b;
    } else {
      assert (a + b)[0] == a[0] && (a + b)[1..] == a[1..] + b;
      TokenizeAppend(a[1..], b, cls);
      assert Tokens(a[0], cls) + (TokenizeItems(a[1..], cls) + TokenizeItems(b, cls))
          == (Tokens(a[0], cls) + TokenizeItems(a[1..], cls)) + TokenizeItems(b, cls);
    }
  }

  // ---------------------------------------------------------------------
  // The item loop as written, where the pending token outlives its item

  /** The pending token stays made of kept characters without capitals. */
  lemma {:induction false} PendingPlain(item: string, cls: CharClass, current: string)
    requires Plain(current, cls)
    ensures Plain(Pending(item, cls, current), cls)
    decreases |item|
  {
    if item != [] {
      if InClass(cls, item[0]) {
        var c := LowerChar(item[0]);
        assert InClass(cls, c) && !IsUpper(c);
        PendingPlain(item[1..], cls, current + [c]);
      } else {
        PendingPlain(item[1..], cls, []);
      }
    }
  }

  /** Every token of the loop as written is non-empty and made only of kept
      characters without capitals, whatever token is carried over. */
  lemma {:induction false} TokenizeFromClean(content: seq<string>, cls: CharClass, current: string)
    requires Plain(current, cls)
    ensures forall k :: 0 <= k < |TokenizeItemsFrom(content, cls, current)| ==>
              Clean(TokenizeItemsFrom(content, cls, current)[k], cls)
    decreases |content|
  {
    if content != [] && content[0] != [] {
      ScanClean(content[0], cls, current);
      PendingPlain(content[0], cls, current);
      TokenizeFromClean(content[1..], cls, Pending(content[0], cls, current));
    }
  }

  /** An empty item ends the loop as written: the items after it give no
      tokens. */
  lemma {:induction false} TokenizeStops(content: seq<string>, j: nat, cls: CharClass, current: string)
    requires j < |content| && content[j] == []
    ensures TokenizeItemsFrom(content, cls, current) == TokenizeItemsFrom(content[..j], cls, current)
    decreases j
  {
    if j > 0 {
      assert content[1..][j - 1] == content[j];
      TokenizeStops(content[1..], j - 1, cls, Pending(content[0], cls, current));
      assert content[..j][0] == content[0] && content[..j][1..] == content[1..][..j - 1];
    }
  }

  /** The token pending at the end of an item is flushed there and then
      flushed again as the start of the next item's first token: the items
      `ab` and `cd` give `ab` and `abcd`. */
  lemma CarriesAcrossItems()
    ensures TokenizeItemsFrom(["ab", "cd"], WordCharacters, []) == [Token("ab"), Token("abcd")]
  {
    var content: seq<string> := ["ab", "cd"];
    var last: seq<string> := content[1..];
    assert last == ["cd"] && last[1..] == [];
    assert LowerChar('a') == 'a' && LowerChar('b') == 'b' && LowerChar('c') == 'c' && LowerChar('d') == 'd';
    ScanPair('a', 'b', WordCharacters, []);
    ScanPair('c', 'd', WordCharacters, "ab");
    assert "ab" + "cd" == "abcd" && [] + "ab" == "ab";
    assert TokenizeItemsFrom(last, WordCharacters, "ab") == [Token("abcd")] + TokenizeItemsFrom([], WordCharacters, "abcd");
    assert TokenizeItemsFrom(content, WordCharacters, []) == [Token("ab")] + TokenizeItemsFrom(last, WordCharacters, "ab");
  }

  /** With the pending token cleared at the end of each item, the same
      items give `ab` and `cd`. */
  lemma ClearedPerItem()
    ensures TokenizeItems(["ab", "cd"], WordCharacters) == [Token("ab"), Token("cd")]
  {
    var content: seq<string> := ["ab", "cd"];
    var last: seq<string> := content[1..];
    assert last == ["cd"] && last[1..] == [];
    assert LowerChar('a') == 'a' && LowerChar('b') == 'b' && LowerChar('c') == 'c' && LowerChar('d') == 'd';
    ScanPair('a', 'b', WordCharacters, []);
    ScanPair('c', 'd', WordCharacters, []);
    assert [] + "ab" == "ab" && [] + "cd" == "cd";
    assert TokenizeItems(last, WordCharacters) == [Token("cd")] + TokenizeItems([], WordCharacters);
    assert TokenizeItems(content, WordCharacters) == [Token("ab")] + TokenizeItems(last, WordCharacters);
  }

  /** Two kept characters from pending text `current`. */
  lemma ScanPair(a: char, b: char, cls: CharClass, current: string)
    requires InClass(cls, a) && InClass(cls, b)
    ensures Scan([a, b], cls, current) == [Token(current + [LowerChar(a), LowerChar(b)])]
    ensures Pending([a, b], cls, current) == current + [LowerChar(a), LowerChar(b)]
  {
    var w: string := [a, b];
    var once := current + [LowerChar(a)];
    var twice := once + [LowerChar(b)];
    assert w[0] == a && w[1..] == [b] && w[1..][0] == b && w[1..][1..] == [];
    assert Scan(w, cls, current) == Scan([b], cls, once) == Scan([], cls, twice);
    assert Pending(w, cls, current) == Pending([b], cls, once) == Pending([], cls, twice);
    assert twice == current + [LowerChar(a), LowerChar(b)];
  }

  /** An item that ends with a character outside the class leaves nothing
      pending. */
  lemma {:induction false} PendingCleared(item: string, cls: CharClass, current: string)
    requires item != [] && !InClass(cls, item[|item| - 1])
    ensures Pending(item, cls, current) == []
    decreases |item|
  {
    if |item| == 1 {
      assert item[1..] == [];
    } else {
      assert item[1..][|item[1..]| - 1] == item[|item| - 1];
      if InClass(cls, item[0]) {
        PendingCleared(item[1..], cls, current + [LowerChar(item[0])]);
      } else {
        PendingCleared(item[1..], cls, []);
      }
    }
  }

  /** When every item but the last ends with a character outside the class
      (as every line read with its line break does), nothing is carried over
      and the loop as written gives each item's own tokens. */
  lemma {:induction false} ClearedAtItemEnds(content: seq<string>, cls: CharClass)
    requires forall k :: 0 <= k < |content| - 1 ==> content[k] != [] && !InClass(cls, content[k][|content[k]| - 1])
    ensures TokenizeItemsFrom(content, cls, []) == TokenizeItems(content, cls)
    decreases |content|
  {
    if content != [] && content[0] != [] {
      if |content| > 1 {
        PendingCleared(content[0], cls, []);
        assert forall k :: 0 <= k < |content[1..]| - 1 ==> content[1..][k] == content[k + 1];
        ClearedAtItemEnds(content[1..], cls);
      } else {
        assert content[1..] == [];
      }
    }
  }
}
