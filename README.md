# Index merge, seek-table search and tokenizers, in Dafny

This project models the core of a small search engine written in Python. It covers four parts:

- **The merger** (`merge.py`). Each in-memory partial index is written as a term-sorted partition file, one `term\t[[docid, tfidf], ...]` line per term. A min-heap N-way merge then joins the partition files into the master index. Equal terms have their postings joined and sorted by document id.
- **The searcher** (`search.py`, class `Searcher`). It records the offset of every term's line once. It answers a query of several words by reading each word's postings at its offset. It intersects those lists shortest first by walking two lists side by side.
- **The tokenizer and word counter** (`tokenizer.py`). Runs of ASCII letters, digits, apostrophes and hyphens are lower-cased and counted.
- **The first word counter** (`PartA.py`). It uses a narrower character class and reads its file line by line. It has its own counter and a print order.

The posting record of `posting.py` is a datatype.

Modules, one per file:

- `Results` (`results.dfy`): Python's `None` and raised exceptions as values. `Option`, `Result` and the `KeyError`, `ValueError` and `DecodeError` failures.
- `StringOrder` (`order.dfy`): Python's `<` on `str`, which is a strict total order, and strictly ascending sequences.
- `Sorting` (`sorting.dfy`): `list.sort(key=...)` and `sorted(..., key=...)`, written as a stable insertion sort.
- `Postings` (`postings.dfy`): `Posting`, the `[docid, tfidf]` pair `Entry`, and an index `Line`.
- `PostingsJson` (`json.dfy`): `json.dumps` of a postings list, and the reading back that `json.loads` does.
- `Merge` (`merge.dfy`): both steps of `merge.py`.
  - Partition files are sequences of already parsed lines.
  - The heap is a sequence of `(term, postings, file)` items.
  - A ghost count per file records how many of its lines have been merged.
- `IndexText` (`indexfile.dfy`): the master index as text. It covers `readline` from an offset, `strip`, `split('\t', 1)` and the seek table. It also writes lines back to text.
- `Search` (`search.dfy`): the `Searcher` class.
  - Its fields are the index text, the file position and `term_offsets`.
  - Specification functions give what `get_postings` and `search` compute.
- `Letters` (`letters.dfy`): `str.lower()` on ASCII.
- `Scanner` (`scanner.dfy`): the character loop that both tokenizers share, over a chosen character class, and an independent description of its tokens.
  - The item loop as written (`TokenizeItemsFrom`) flushes the pending token at the end of an item but does not clear it, so it is carried into the next item.
  - `TokenizeItems` is the loop that clears it there, as evidently intended (see Findings).
- `Counts` (`counts.dfy`): a Python `dict` from words to counts, kept as its items in insertion order, and the count both counters build.
- `Tokenizer` (`tokenizer.dfy`): `tokenize` and `compute_word_frequencies` of `tokenizer.py`.
- `PartA` (`parta.dfy`): `tokenize`, `compute_word_frequencies` and the print order of `PartA.py`.

Loops stay loops:

- the conversion and merge loops;
- the heap seeding;
- the minimum search standing in for `heappop`;
- the seek-table scan, the side-by-side intersection and the term loop and fold of `search`;
- both character loops and both counting loops.

Each is a `method` proved against a specification function or predicate. The properties the source promises are proved about that function as lemmas.

## Model

| member | source | states |
|---|---|---|
| `Merge.LeastTerm` | merge.py:35 | The term returned is in the set and below every other term of it. |
| `Merge.SortedTerms` | merge.py:35 | `sorted(keys)` is strictly ascending, holds exactly the keys and has one element per key. |
| `StringOrder.AscendingIsUnique` | merge.py:35 | Two strictly ascending sequences with the same elements are equal, so the sorted key order is determined. |
| `StringOrder.LessTotal` | merge.py:35 | Any two different terms are ordered one way or the other by Python's string `<`. |
| `StringOrder.LessTransitive` | merge.py:35 | Python's string `<` is transitive. |
| `Merge.SerializePartition` | merge.py:33-43 | Writing one partial index gives one line per key with terms strictly ascending. Each line holds its term's postings in stored order, projected to `[docid, tfidf]`, with the url dropped. |
| `Merge.ConvertPartialIndexes` | merge.py:14-48 | Each partial index gives one partition file written as above, so every partition file is locally sorted by term. |
| `PostingsJson.DecodeEncode` | merge.py:42 | Reading back the text `json.dumps` writes for a postings list gives the same list. |
| `PostingsJson.EncodeIsPlain` | merge.py:43 | The encoded list is bracketed and holds no tab or line break, so it fits after the tab of one index line. |
| `Merge.SeedHeap` | merge.py:62-68 | After seeding, the heap holds exactly one item per non-empty file, that file's first line, and nothing for an empty file. Each file's cursor stands just after its first line. |
| `Merge.MinIndex` | merge.py:75 | The popped item has a term that no other heap item is below. |
| `Merge.HeapStep` | merge.py:75-96 | Popping file i's item and pushing file i's next line, if it has one, keeps exactly one item per unfinished file, each that file's first unmerged line. |
| `Merge.CursorStep` | merge.py:92-96 | The `readline` after a pop returns the line after the popped one from the same file, or nothing at the end of that file. |
| `Merge.RemainingStep` | merge.py:74-96 | Each round merges one more line, so the number of unmerged lines falls by one and the loop ends. |
| `Merge.EmptyHeapMeansDone` | merge.py:74 | An empty heap means every line of every file has been merged. |
| `Merge.FlushLine` | merge.py:82-86 | Writing the pending term adds its joined postings, sorted by document id, as one new line. Per-term postings, the posting count and the term set grow by exactly that line. |
| `Sorting.SortByFacts` | merge.py:84 | `sort(key=...)` returns a permutation of its input, ordered by key, and keeps elements with equal keys in input order. |
| `Merge.AccountStep` | merge.py:77-89 | After each pop, the written lines plus the pending postings hold exactly the postings of every merged line, per term as a multiset, in total and as a set of terms. Every written line stays sorted by document id. |
| `Merge.OrderStep` | merge.py:74-96 | With locally sorted files, written terms stay strictly ascending and below the pending term, and no heap item is below the pending term. |
| `Merge.MergeFinish` | merge.py:98-102 | The final write leaves the master index holding exactly what the partition files hold. |
| `Merge.MergeSortedFiles` | merge.py:50-104 | Per term, the merged postings are as a multiset exactly the postings of every file for that term, with no duplicates removed. Postings are conserved and the output terms are the union of the input terms. Each line is sorted by document id, and all-empty inputs give an empty output. With locally sorted inputs, terms are strictly ascending, so each appears once, and each line holds all of its term's postings. |
| `Merge.NoTermsMeansEmpty` | merge.py:74 | No term in any file exactly when every file is empty. |
| `Merge.GatherUnique` | merge.py:99-102 | In lines with strictly ascending terms, a line's postings are all the postings its term has. |
| `IndexText.LineEnd` | search.py:21 | `readline` from an offset stops just after the next line break, or at the end of the text, and passes no other line break. |
| `IndexText.SplitTab` | search.py:25-26 | `split('\t', 1)` gives two parts exactly when the line holds a tab. |
| `IndexText.SeekTableSound` | search.py:19-27 | Every term of the seek table maps to the start of a line whose text before its first tab is that term. |
| `IndexText.SeekTableComplete` | search.py:19-27 | Every line holding a tab has its term in the table, at that line's offset or a later one, so for a repeated term the last line wins. |
| `IndexText.StripRenderedLine` | search.py:38 | `strip()` removes only the line break from a written index line. |
| `IndexText.ReadRenderedLine` | search.py:36-37 | On a written index, `readline` at line k's offset returns line k and moves to line k + 1's offset. |
| `IndexText.FetchRendered` | search.py:36-39 | On a written index, reading at line k's offset returns line k's postings. |
| `IndexText.RenderTableFrom` | search.py:19-27 | On a written index with ascending, clean terms, the seek table holds exactly the terms of the lines, each at its own line's offset. |
| `IndexText.LookupRendered` | search.py:33-39 | On a written index, a term is in the seek table exactly when it has a line, and its offset leads back to that line's postings. |
| `Search.Searcher.constructor` | search.py:8-12 | A new searcher holds the seek table of the whole index text and stands at its end. |
| `Search.Searcher.ReadLine` | search.py:20-21 | `readline()` returns the text up to and including the next line break, moves past it, and returns empty only at the end. |
| `Search.Searcher.BuildSeekIndex` | search.py:14-27 | The scan adds the seek table of the text from the current position on, later lines overriding earlier ones, and ends at the end of the text. |
| `Search.Searcher.GetPostings` | search.py:29-39 | `get_postings` returns an empty list for a term without an entry and leaves the file where it was. Otherwise it returns the decoded postings of the line at the recorded offset, or the `ValueError` or `DecodeError` that reading it raises, and leaves the file just after that line. |
| `Search.PostingsOfRendered` | search.py:29-39 | On a master index written by the merger, `get_postings` returns each term's own postings and an empty list for a term without a line. |
| `Search.Searcher.Intersect` | search.py:41-58 | Every kept entry comes from `p1` with a document id that `p2` has, and the answer is no longer than either list. When `p1`'s ids strictly increase and `p2` is sorted, it keeps exactly the entries of `p1` whose id is in `p2`. So intersecting with an empty list gives nothing. |
| `Search.KeepAll` | search.py:49-58 | Keeping the entries whose ids lie in a superset keeps everything, so a strictly ascending list intersected with itself is itself. |
| `Search.KeepDocIds` | search.py:49-58 | The ids the intersection keeps are exactly the ids common to both lists. |
| `Search.KeepAscending` | search.py:49-58 | The intersection of a strictly ascending list stays strictly ascending. |
| `Search.Words` | search.py:64 | Every word of `split()` is non-empty and holds no whitespace. |
| `Search.WordsAroundSpace` | search.py:64 | A whitespace character separates words: `split()` of `a + [c] + b` is the words of `a` followed by the words of `b`. |
| `Search.Searcher.GatherPostings` | search.py:68-74 | The term loop collects one postings list per term in order. It stops at the first term whose lookup raises, with that error, or at the first term with no postings. It leaves the file after the line of the last term it looked up that has an entry, or where it was if none has. |
| `Search.OutcomeCases` | search.py:70-74 | Either every term gave a non-empty list, and list k is term k's, or the loop stopped at an error or empty answer with every earlier answer a non-empty list. |
| `Search.CommonReordered` | search.py:76 | Sorting the lists by length does not change the document ids common to all of them. |
| `Sorting.SortByFirstIsLeast` | search.py:76-78 | After `sort(key=len)` the first list is a shortest one. |
| `Sorting.FirstLeast` | search.py:76-78 | The position of the first element of least key: no element has a smaller key, and every element before it has a larger one. |
| `Sorting.SortByFirst` | search.py:76-78 | Because the sort is stable, the first list after `sort(key=len)` is the first shortest list in query order. |
| `Search.Searcher.Fold` | search.py:78-82 | The fold intersects the shortest list with each next list, stopping once the answer is empty. |
| `Search.FoldDone` | search.py:76-84 | When the fold stops, the answer is what `search` promises: every entry's document is in every list, every entry comes from the first shortest list in query order, and the answer is no longer than any list. A single list is returned unchanged. With strictly ascending lists, the answer's ids are exactly the common ids, still ascending. |
| `Search.Searcher.Conjoin` | search.py:76-84 | Sorting by length and folding gives the answer described for `FoldDone`. |
| `Search.Searcher.Search` | search.py:60-84 | A query with no words gives an empty answer, and a word without postings gives an empty answer. An error raised by a lookup is raised. Otherwise the answer is the conjunction above of the lists of the query's lower-cased, whitespace-split words. The file is left where the term loop leaves it, and unmoved for a query with no words. |
| `Tokenizer.Tokenize` | tokenizer.py:35-61 | The loop over items and characters returns exactly the tokens of the item loop as written, up to the first empty item: a token pending at the end of an item is written there and also carried into the next item. |
| `Tokenizer.TokensAreWords` | tokenizer.py:47-60 | Every token is non-empty and holds only small ASCII letters, digits, apostrophes and hyphens. |
| `Tokenizer.JoinedWordsStayWhole` | tokenizer.py:53 | A hyphen or an apostrophe between alphanumeric runs stays inside one lower-cased token. |
| `Scanner.ScanSpells` | tokenizer.py:52-58 | Run together, an item's tokens spell exactly its kept characters, lower-cased: nothing kept is lost and no other character gets in. |
| `Scanner.ScanSplits` | tokenizer.py:55-58 | A character outside the class splits the text: no token reaches across it. |
| `Scanner.TokenizeStops` | tokenizer.py:50-51 | In the loop as written, the items after the first empty one contribute no tokens, whatever token is pending. |
| `Scanner.CarriesAcrossItems` | tokenizer.py:59-60 | As written, the items `ab` and `cd` give the tokens `ab` and `abcd`. |
| `Scanner.ClearedPerItem` | tokenizer.py:59-60 | With the pending token cleared at the end of each item, the same items give `ab` and `cd`. |
| `Scanner.TokenizeAppend` | tokenizer.py:59-60 | With the pending token cleared at the end of each item, each non-empty item contributes its own tokens, so no token spans two items. |
| `Scanner.ClearedAtItemEnds` | PartA.py:72-73 | When every item but the last ends with a character outside the class, nothing is carried over and the loop as written gives each item's own tokens. |
| `Tokenizer.ComputeWordFrequencies` | tokenizer.py:67-85 | Each key is a lower-cased token text, first appearances in order. Each key's value is the number of tokens with that lower-cased text. The values add up to the number of tokens. |
| `Counts.FrequenciesCount` | tokenizer.py:79-85 | The counted dict has one key per distinct word, in first-appearance order. Each key's value is its number of occurrences, an absent word has none, and the values add up to the number of words. |
| `Counts.CountsPositive` | tokenizer.py:79-85 | Every count is at least one. |
| `Counts.PutFacts` | tokenizer.py:82-84 | `d[k] = v` stores `v` under `k` and changes no other key. It keeps keys distinct and adds a new key at the end. |
| `Letters.LowerIsLower` | tokenizer.py:54 | Lower-casing leaves no capital and is idempotent. |
| `PartA.Tokenize` | PartA.py:42-74 | The `readline` loop over the file's text, which also flushes without clearing at the end of a line, returns exactly the tokens of the loop as written. These are each line's own tokens, since every line but the last ends with its line break. |
| `PartA.LinesEndInBreaks` | PartA.py:57 | Every line `readline` returns, except the last, ends with its line break. |
| `PartA.LinesAreTransparent` | PartA.py:56-73 | Reading line by line gives the tokens of the whole text, because the newline is a separator and no token spans two lines. |
| `PartA.TokensAreWords` | PartA.py:65-73 | Every token is non-empty and holds only small ASCII letters and digits. |
| `PartA.SeparatorsSplitWords` | PartA.py:65-71 | An apostrophe or a hyphen splits a word: `Jinx's` gives `jinx` and `s`, and `built-in` gives `built` and `in`. |
| `PartA.ComputeWordFrequencies` | PartA.py:80-98 | The loop returns the dict that the as-written count builds, or the `KeyError` it raises. |
| `PartA.AsWrittenOnLowerCase` | PartA.py:92-98 | On tokens without capitals the as-written count is exact: the same dict as counting the texts one by one. |
| `PartA.CountsOfTokenizedText` | PartA.py:92-98 | On what `tokenize` returns, each word's count is its number of occurrences and the counts add up to the number of tokens. |
| `PartA.CapitalizedCountedOnce` | PartA.py:94-97 | A word with a capital, seen twice, is counted once. |
| `PartA.MixedCaseRaises` | PartA.py:94-97 | A word seen in small letters and then with a capital raises `KeyError`. |
| `PartA.ErrorStays` | PartA.py:93-97 | Once the count raises, the whole call raises that error. |
| `PartA.PrintOrderFacts` | PartA.py:111-114 | Items are printed by non-increasing value, and an item with value zero is never printed. Every other item is printed exactly once. Items of equal value keep the dict's order. |

## Left out

- Files, directories and pickles are not modelled. That covers `os.listdir`, `os.makedirs`, `pickle.load`, `open`, `ExitStack`, `tell` and `seek` on a real file, writing the output file, and `del partial_index`. Partial indexes and partition files are values. The searcher's file is its whole text, with a position in it.
- Offsets are character positions in the text. `tell()` on a UTF-8 text file reports an opaque cookie, which is a byte position in CPython, so offsets differ for text that is not ASCII.
- Universal-newline translation of `'\r'` and `'\r\n'` when reading in text mode is not modelled. A line ends at `'\n'`.
- Merge reads partition files as already parsed lines. The `strip().split('\t', 1)` and `json.loads` of each merge input line are not modelled, because the files it reads are the ones `SerializePartition` writes. Blank or malformed lines in a partition file are not considered.
- `PostingsJson.Decode` accepts exactly the text `json.dumps` writes for a list of integer pairs, and numbers with leading zeros, which `json.loads` rejects. Any other JSON is a `DecodeError`, including other spacing, floats, other nesting and escapes.
- `str.lower()` is modelled on ASCII only. `str.isspace()` is modelled for every whitespace code point Python recognises.
- Merge.MinIndex: the popped item is any item with a least term. Python's tuple comparison would break ties between equal terms by the postings lists and then the file index. The order in which equal terms' postings are joined is therefore not pinned down. Every result is stated per term as a multiset, and after the stable sort by document id.
- Merge.MergeSortedFiles: the ordering results need every partition file strictly ascending by term, which is what `SerializePartition` writes. Without that, only conservation, the term set and the per-line document-id sort are stated.
- Search.Searcher.Intersect: the exact result is stated only when `p1`'s ids strictly increase and `p2` is sorted by id. On other inputs only the bounds and membership are stated, since the side-by-side walk then skips entries.
- Search.FoldDone: the answer's ids are stated to equal the common ids only when every list's ids strictly increase. For other lists, only that every id is common is stated.
- The searcher's `__del__`, the interactive query loop, `RESULTS_TO_PRINT` and printing are not modelled. Neither are `main`, `sys.argv` and the printing in `PartA.py`. `print_frequencies` is modelled as the list of items it prints, in order.
- The `FileNotFoundError` branch of `PartA.tokenize`, which prints and returns `None`, is not modelled, because file opening is outside the model.
- `Token.get_data` is the accessor of the `data` field of the `Token` datatype.
- `scraper.py` and `build_index.py` are not part of this model. That includes the builder that fills the partial indexes and what it stores in `tfidf`.

## Findings

| source | as written | input that shows it | evidently intended | confidence | as-written member | corrected member |
|---|---|---|---|---|---|---|
| PartA.py:94-97 | `compute_word_frequencies` tests `token.data.lower() in freq` but reads and writes `freq[token.data]`. | Tokens `"a"`, `"A"` raise `KeyError: 'A'`. Tokens `"A"`, `"A"` count `"A"` once, not twice. | Count under the lower-cased text, as `tokenizer.py:81-84` does. | not executed; latent for text that `PartA.tokenize` produces, which is lower-case | `PartA.MixedCaseRaises` | `Tokenizer.ComputeWordFrequencies` |
| tokenizer.py:59-60 | At the end of an item the pending token is appended but `current` is not cleared, so it carries into the next item. | Items `"ab"`, `"cd"` give `ab`, `abcd`. | Clear `current` after the end-of-item flush, so each item gives its own tokens: `ab`, `cd`. PartA.py:72-73 has the same missing reset, harmless there because every line but the last ends with its line break. | not executed | `Scanner.CarriesAcrossItems` | `Scanner.TokenizeAppend` |
