/** merge.py: turning partial indexes into term-sorted partition files, and
    the min-heap N-way merge of those files into the master index.

    A file is modelled as the sequence of its lines, each already split into
    its term and its decoded postings (`line.strip().split('\t', 1)` and
    `json.loads`); a read cursor is an index into that sequence. */
module Merge {
  import opened StringOrder
  import opened Sorting
  import opened Postings
  import opened Results

  /** Terms strictly ascending from line to line. */
  ghost predicate TermsAscending(lines: seq<Line>)
  {
    forall i, j :: 0 <= i < j < |lines| ==> Less(lines[i].term, lines[j].term)
  }

  /** The terms that have a line in `lines`. */
  function Terms(lines: seq<Line>): (r: set<string>)
    ensures forall t :: t in r <==> exists k :: 0 <= k < |lines| && lines[k].term == t
  {
    set k | 0 <= k < |lines| :: lines[k].term
  }

  // ---------------------------------------------------------------------
  // convert_pickles_to_sorted_text

  /** The least element of a non-empty set of terms. */
  method LeastTerm(s: set<string>) returns (m: string)
    requires s != {}
    ensures m in s
    ensures forall x :: x in s && x != m ==> Less(m, x)
  {
    m :| m in s;
    var rest := s - {m};
    while rest != {}
      invariant m in s && rest <= s && m !in rest
      invariant forall x :: x in s - rest && x != m ==> Less(m, x)
      decreases rest
    {
      var x :| x in rest;
      if Less(x, m) {
        forall y | y in s - rest && y != x
          ensures Less(x, y)
        {
          if y != m {
            LessTransitive(x, m, y);
          }
        }
        m := x;
      } else {
        NotLessIsLessOrEqual(m, x);
      }
      rest := rest - {x};
    }
  }

  /** `sorted(keys)`: the keys in strictly ascending order, each once. By
      `AscendingIsUnique` no other sequence has these properties. */
  method SortedTerms(keys: set<string>) returns (ts: seq<string>)
    ensures StrictlyAscending(ts)
    ensures forall x :: x in ts <==> x in keys
    ensures |ts| == |keys|
  {
    var remaining := keys;
    ts := [];
    while remaining != {}
      invariant remaining <= keys
      invariant StrictlyAscending(ts)
      invariant forall x :: x in ts <==> x in keys - remaining
      invariant forall x, y :: x in ts && y in remaining ==> Less(x, y)
      invariant |ts| + |remaining| == |keys|
      decreases remaining
    {
      var t := LeastTerm(remaining);
      forall i, j | 0 <= i < j < |ts + [t]|
        ensures Less((ts + [t])[i], (ts + [t])[j])
      {
        if j == |ts| {
          assert ts[i] in ts;
        } else {
          assert (ts + [t])[i] == ts[i] && (ts + [t])[j] == ts[j];
        }
      }
      ts := ts + [t];
      remaining := remaining - {t};
    }
  }

  /** One partial index (term -> postings) written as a partition file: one
      line per term, terms ascending, each line the term's postings in their
      stored order with the url dropped. */
  method SerializePartition(index: map<string, seq<Posting>>) returns (lines: seq<Line>)
    ensures |lines| == |index|
    ensures TermsAscending(lines)
    ensures forall t :: t in index <==> t in Terms(lines)
    ensures forall k :: 0 <= k < |lines| ==>
              lines[k].term in index && lines[k].postings == ProjectAll(index[lines[k].term])
  {
    var terms := SortedTerms(index.Keys);
    lines := [];
    for k := 0 to |terms|
      invariant |lines| == k
      invariant forall m :: 0 <= m < k ==> lines[m] == Line(terms[m], ProjectAll(index[terms[m]]))
    {
      assert terms[k] in terms;
      var postingsList := ProjectAll(index[terms[k]]);
      lines := lines + [Line(terms[k], postingsList)];
    }
    LinesOfTerms(index, terms, lines);
  }

  /** One line per sorted term, in the order of the terms, is the
      partition file. */
  lemma LinesOfTerms(index: map<string, seq<Posting>>, terms: seq<string>, lines: seq<Line>)
    requires StrictlyAscending(terms) && (forall x :: x in terms <==> x in index.Keys) && |terms| == |index.Keys|
    requires |lines| == |terms|
    requires forall m :: 0 <= m < |terms| ==> terms[m] in index && lines[m] == Line(terms[m], ProjectAll(index[terms[m]]))
    ensures |lines| == |index|
    ensures TermsAscending(lines)
    ensures forall t :: t in index <==> t in Terms(lines)
    ensures forall k :: 0 <= k < |lines| ==>
              lines[k].term in index && lines[k].postings == ProjectAll(index[lines[k].term])
  {
    assert |index| == |index.Keys|;
    forall i, j | 0 <= i < j < |lines|
      ensures Less(lines[i].term, lines[j].term)
    {
      assert lines[i].term == terms[i] && lines[j].term == terms[j];
    }
    forall t | t in index
      ensures t in Terms(lines)
    {
      var m :| 0 <= m < |terms| && terms[m] == t;
      assert lines[m].term == t;
    }
  }

  /** `lines` is partial index `index` written out: one line per term,
      terms ascending, each line the term's postings without urls. */
  ghost predicate Serializes(index: map<string, seq<Posting>>, lines: seq<Line>)
  {
    && |lines| == |index|
    && TermsAscending(lines)
    && (forall t :: t in index <==> t in Terms(lines))
    && forall k :: 0 <= k < |lines| ==>
         lines[k].term in index && lines[k].postings == ProjectAll(index[lines[k].term])
  }

  /** The conversion loop over every partial index: one partition file per
      index, each term-sorted, which is what the merge relies on. */
  method ConvertPartialIndexes(indexes: seq<map<string, seq<Posting>>>) returns (files: seq<seq<Line>>)
    ensures |files| == |indexes|
    ensures forall i :: 0 <= i < |files| ==> Serializes(indexes[i], files[i])
    ensures AllAscending(files)
  {
    files := [];
    for n := 0 to |indexes|
      invariant |files| == n
      invariant forall i :: 0 <= i < n ==> Serializes(indexes[i], files[i])
    {
      var lines := SerializePartition(indexes[n]);
      files := files + [lines];
    }
  }

  // ---------------------------------------------------------------------
  // merge_sorted_text_files: what the heap and the cursors stand for

  /** A heap item `(term, postings, file_idx)`. */
  datatype HeapEntry = HeapEntry(term: string, postings: seq<Entry>, file: nat)

  /** Every input file is locally sorted, as `SerializePartition` writes it. */
  ghost predicate AllAscending(files: seq<seq<Line>>)
  {
    forall i :: 0 <= i < |files| ==> TermsAscending(files[i])
  }

  /** `taken[i]` lines of file `i` have been popped off the heap so far. */
  ghost predicate WellTaken(files: seq<seq<Line>>, taken: seq<nat>)
  {
    |taken| == |files| && forall i :: 0 <= i < |files| ==> taken[i] <= |files[i]|
  }

  /** The heap item for the first line of file `i` not yet merged. */
  function HeadEntry(files: seq<seq<Line>>, taken: seq<nat>, i: nat): HeapEntry
    requires |taken| == |files| && i < |files| && taken[i] < |files[i]|
  {
    HeapEntry(files[i][taken[i]].term, files[i][taken[i]].postings, i)
  }

  /** Some heap item comes from file `i`. */
  ghost predicate HasFile(heap: seq<HeapEntry>, i: nat)
  {
    exists m :: 0 <= m < |heap| && heap[m].file == i
  }

  /** No two heap items come from the same file. */
  ghost predicate OnePerFile(heap: seq<HeapEntry>)
  {
    forall a, b :: 0 <= a < b < |heap| ==> heap[a].file != heap[b].file
  }

  /** The heap holds the first unmerged line of every unfinished file, one
      item per file, and nothing else. */
  ghost predicate HeapHoldsHeads(files: seq<seq<Line>>, taken: seq<nat>, heap: seq<HeapEntry>)
  {
    && WellTaken(files, taken)
    && OnePerFile(heap)
    && (forall m :: 0 <= m < |heap| ==>
          heap[m].file < |files| && taken[heap[m].file] < |files[heap[m].file]| &&
          heap[m] == HeadEntry(files, taken, heap[m].file))
    && (forall i :: 0 <= i < |files| && taken[i] < |files[i]| ==> HasFile(heap, i))
  }

  /** Where the file cursors stand once `taken` lines are merged: each
      unfinished file has had exactly its head read ahead. */
  ghost predicate CursorsAt(files: seq<seq<Line>>, taken: seq<nat>, cursor: seq<nat>)
    requires WellTaken(files, taken)
  {
    |cursor| == |files| &&
    forall i :: 0 <= i < |files| ==>
      cursor[i] == if taken[i] < |files[i]| then taken[i] + 1 else |files[i]|
  }

  /** The heap after popping item `k` and pushing `pushed`. */
  function Replaced(heap: seq<HeapEntry>, k: nat, pushed: seq<HeapEntry>): seq<HeapEntry>
    requires k < |heap|
  {
    heap[..k] + heap[k + 1..] + pushed
  }

  /** File `i`'s next line as a heap item, if it has one. */
  function NextOf(files: seq<seq<Line>>, taken: seq<nat>, i: nat): seq<HeapEntry>
    requires |taken| == |files| && i < |files|
  {
    if taken[i] < |files[i]| then [HeadEntry(files, taken, i)] else []
  }

  lemma ReplacedAt(heap: seq<HeapEntry>, k: nat, pushed: seq<HeapEntry>, m: nat)
    requires k < |heap| && m < |Replaced(heap, k, pushed)|
    ensures Replaced(heap, k, pushed)[m] ==
              if m < k then heap[m] else if m < |heap| - 1 then heap[m + 1] else pushed[m - |heap| + 1]
  {
  }

  /** Popping item `k` (file `i`), merging that line and pushing file `i`'s
      next line if there is one keeps the heap's meaning. */
  lemma HeapStep(files: seq<seq<Line>>, taken: seq<nat>, heap: seq<HeapEntry>, k: nat)
    requires HeapHoldsHeads(files, taken, heap) && k < |heap|
    ensures var i := heap[k].file;
            var taken' := taken[i := taken[i] + 1];
            && WellTaken(files, taken')
            && HeapHoldsHeads(files, taken', Replaced(heap, k, NextOf(files, taken', i)))
  {
    var i := heap[k].file;
    var taken' := taken[i := taken[i] + 1];
    var pushed := NextOf(files, taken', i);
    HeapStepItems(files, taken, heap, k);
    HeapStepOnePerFile(files, taken, heap, k);
    HeapStepComplete(files, taken, heap, k);
  }

  lemma HeapStepItems(files: seq<seq<Line>>, taken: seq<nat>, heap: seq<HeapEntry>, k: nat)
    requires HeapHoldsHeads(files, taken, heap) && k < |heap|
    ensures var i := heap[k].file;
            var taken' := taken[i := taken[i] + 1];
            var heap' := Replaced(heap, k, NextOf(files, taken', i));
            && WellTaken(files, taken')
            && forall m :: 0 <= m < |heap'| ==>
                 heap'[m].file < |files| && taken'[heap'[m].file] < |files[heap'[m].file]| &&
                 heap'[m] == HeadEntry(files, taken', heap'[m].file)
  {
    var i := heap[k].file;
    var taken' := taken[i := taken[i] + 1];
    var heap' := Replaced(heap, k, NextOf(files, taken', i));
    forall m | 0 <= m < |heap'|
      ensures heap'[m].file < |files| && taken'[heap'[m].file] < |files[heap'[m].file]|
      ensures heap'[m] == HeadEntry(files, taken', heap'[m].file)
    {
      ReplacedAt(heap, k, NextOf(files, taken', i), m);
      if m < |heap| - 1 {
        var src := if m < k then m else m + 1;
        assert heap'[m] == heap[src] && src != k;
        assert heap[src].file != i;
      }
    }
  }

  lemma HeapStepOnePerFile(files: seq<seq<Line>>, taken: seq<nat>, heap: seq<HeapEntry>, k: nat)
    requires HeapHoldsHeads(files, taken, heap) && k < |heap|
    ensures var i := heap[k].file;
            var taken' := taken[i := taken[i] + 1];
            |taken'| == |files| && OnePerFile(Replaced(heap, k, NextOf(files, taken', i)))
  {
    var i := heap[k].file;
    var taken' := taken[i := taken[i] + 1];
    var heap' := Replaced(heap, k, NextOf(files, taken', i));
    forall a, b | 0 <= a < b < |heap'|
      ensures heap'[a].file != heap'[b].file
    {
      ReplacedAt(heap, k, NextOf(files, taken', i), a);
      ReplacedAt(heap, k, NextOf(files, taken', i), b);
      var sa := if a < k then a else a + 1;
      if b < |heap| - 1 {
        var sb := if b < k then b else b + 1;
        assert heap'[a] == heap[sa] && heap'[b] == heap[sb] && sa < sb;
      } else {
        assert heap'[a] == heap[sa] && sa != k;
      }
    }
  }

  lemma HeapStepComplete(files: seq<seq<Line>>, taken: seq<nat>, heap: seq<HeapEntry>, k: nat)
    requires HeapHoldsHeads(files, taken, heap) && k < |heap|
    ensures var i := heap[k].file;
            var taken' := taken[i := taken[i] + 1];
            |taken'| == |files| &&
            forall j :: 0 <= j < |files| && taken'[j] < |files[j]| ==>
              HasFile(Replaced(heap, k, NextOf(files, taken', i)), j)
  {
    var i := heap[k].file;
    var taken' := taken[i := taken[i] + 1];
    var pushed := NextOf(files, taken', i);
    forall j | 0 <= j < |files| && taken'[j] < |files[j]|
      ensures HasFile(Replaced(heap, k, pushed), j)
    {
      if j == i {
        PushedIsThere(heap, k, pushed);
      } else {
        assert HasFile(heap, j);
        var m :| 0 <= m < |heap| && heap[m].file == j;
        KeptIsThere(heap, k, pushed, m);
      }
    }
  }

  lemma PushedIsThere(heap: seq<HeapEntry>, k: nat, pushed: seq<HeapEntry>)
    requires k < |heap| && |pushed| == 1
    ensures HasFile(Replaced(heap, k, pushed), pushed[0].file)
  {
    assert Replaced(heap, k, pushed)[|heap| - 1] == pushed[0];
  }

  lemma KeptIsThere(heap: seq<HeapEntry>, k: nat, pushed: seq<HeapEntry>, m: nat)
    requires k < |heap| && m < |heap| && m != k
    ensures HasFile(Replaced(heap, k, pushed), heap[m].file)
  {
    var m' := if m < k then m else m - 1;
    assert Replaced(heap, k, pushed)[m'] == heap[m];
  }

  /** An empty heap means every file is used up. */
  lemma EmptyHeapMeansDone(files: seq<seq<Line>>, taken: seq<nat>, heap: seq<HeapEntry>)
    requires HeapHoldsHeads(files, taken, heap) && heap == []
    ensures forall i :: 0 <= i < |files| ==> taken[i] == |files[i]|
  {
    forall i | 0 <= i < |files|
      ensures taken[i] == |files[i]|
    {
    }
  }

  /** Lines still to be merged: the termination measure. */
  ghost function Remaining(files: seq<seq<Line>>, taken: seq<nat>, n: nat): nat
    requires WellTaken(files, taken) && n <= |files|
  {
    if n == 0 then 0 else Remaining(files, taken, n - 1) + (|files[n - 1]| - taken[n - 1])
  }

  lemma {:induction false} RemainingStep(files: seq<seq<Line>>, taken: seq<nat>, i: nat, n: nat)
    requires WellTaken(files, taken) && i < n <= |files| && taken[i] < |files[i]|
    ensures WellTaken(files, taken[i := taken[i] + 1])
    ensures Remaining(files, taken[i := taken[i] + 1], n) + 1 == Remaining(files, taken, n)
    decreases n
  {
    if i < n - 1 {
      RemainingStep(files, taken, i, n - 1);
    } else if n > 1 {
      RemainingSame(files, taken, i, n - 1);
    }
  }

  lemma {:induction false} RemainingSame(files: seq<seq<Line>>, taken: seq<nat>, i: nat, n: nat)
    requires WellTaken(files, taken) && n <= i < |files| && taken[i] < |files[i]|
    ensures WellTaken(files, taken[i := taken[i] + 1])
    ensures Remaining(files, taken[i := taken[i] + 1], n) == Remaining(files, taken, n)
    decreases n
  {
    if n > 0 {
      RemainingSame(files, taken, i, n - 1);
    }
  }

  /** No file has been read yet. */
  ghost function Zeros(n: nat): (r: seq<nat>)
    ensures |r| == n && forall i :: 0 <= i < n ==> r[i] == 0
  {
    seq(n, i => 0)
  }

  /** The lines merged so far, file by file. */
  ghost function Taken(files: seq<seq<Line>>, taken: seq<nat>): (r: seq<seq<Line>>)
    requires WellTaken(files, taken)
    ensures |r| == |files| && forall i :: 0 <= i < |files| ==> r[i] == files[i][..taken[i]]
  {
    seq(|files|, i requires 0 <= i < |files| => files[i][..taken[i]])
  }

  lemma TakeStep(files: seq<seq<Line>>, taken: seq<nat>, i: nat)
    requires WellTaken(files, taken) && i < |files| && taken[i] < |files[i]|
    ensures WellTaken(files, taken[i := taken[i] + 1])
    ensures Taken(files, taken[i := taken[i] + 1])
            == Taken(files, taken)[i := Taken(files, taken)[i] + [files[i][taken[i]]]]
  {
    assert files[i][..taken[i] + 1] == files[i][..taken[i]] + [files[i][taken[i]]];
  }

  // ---------------------------------------------------------------------
  // What the lines carry, per term

  /** The postings that the lines of `lines` with term `t` carry, in order. */
  function Gather(lines: seq<Line>, t: string): seq<Entry>
  {
    if lines == [] then []
    else Gather(lines[..|lines| - 1], t) +
         (if lines[|lines| - 1].term == t then lines[|lines| - 1].postings else [])
  }

  /** The postings for `t` in all the files `fs`, file after file. */
  function GatherAll(fs: seq<seq<Line>>, t: string): seq<Entry>
  {
    if fs == [] then [] else GatherAll(fs[..|fs| - 1], t) + Gather(fs[|fs| - 1], t)
  }

  /** The terms of any line of any of the files `fs`. */
  function TermsAll(fs: seq<seq<Line>>): set<string>
  {
    if fs == [] then {} else TermsAll(fs[..|fs| - 1]) + Terms(fs[|fs| - 1])
  }

  /** The number of postings the lines carry. */
  function PostingCount(lines: seq<Line>): nat
  {
    if lines == [] then 0
    else PostingCount(lines[..|lines| - 1]) + |lines[|lines| - 1].postings|
  }

  /** The number of postings in all the files `fs`. */
  function PostingCountAll(fs: seq<seq<Line>>): nat
  {
    if fs == [] then 0 else PostingCountAll(fs[..|fs| - 1]) + PostingCount(fs[|fs| - 1])
  }

  /** What `l` adds to the postings of term `t`. */
  function For(l: Line, t: string): seq<Entry>
  {
    if l.term == t then l.postings else []
  }

  lemma LineAppend(lines: seq<Line>, l: Line)
    ensures forall t :: Gather(lines + [l], t) == Gather(lines, t) + For(l, t)
    ensures PostingCount(lines + [l]) == PostingCount(lines) + |l.postings|
    ensures Terms(lines + [l]) == Terms(lines) + {l.term}
  {
    assert (lines + [l])[..|lines|] == lines;
  }

  /** Appending line `l` to file `i` adds `l`'s postings to its term's bag. */
  lemma {:induction false} GrowFileGather(fs: seq<seq<Line>>, i: nat, l: Line, t: string)
    requires i < |fs|
    ensures multiset(GatherAll(fs[i := fs[i] + [l]], t))
            == multiset(GatherAll(fs, t)) + multiset(For(l, t))
    decreases |fs|
  {
    var n := |fs| - 1;
    if i == n {
      GrowLastGather(fs, l, t);
    } else {
      GrowFileGather(fs[..n], i, l, t);
      GrowEarlierGather(fs, i, l, t);
    }
  }

  lemma GrowLastGather(fs: seq<seq<Line>>, l: Line, t: string)
    requires fs != []
    ensures GatherAll(fs[|fs| - 1 := fs[|fs| - 1] + [l]], t) == GatherAll(fs, t) + For(l, t)
  {
    var n := |fs| - 1;
    var fs' := fs[n := fs[n] + [l]];
    assert fs'[..n] == fs[..n];
    assert (fs[n] + [l])[..|fs[n]|] == fs[n];
  }

  lemma GrowEarlierGather(fs: seq<seq<Line>>, i: nat, l: Line, t: string)
    requires i < |fs| - 1
    requires var n := |fs| - 1;
             multiset(GatherAll(fs[..n][i := fs[i] + [l]], t))
             == multiset(GatherAll(fs[..n], t)) + multiset(For(l, t))
    ensures multiset(GatherAll(fs[i := fs[i] + [l]], t))
            == multiset(GatherAll(fs, t)) + multiset(For(l, t))
  {
    var f := fs[i] + [l];
    UpdateBelowLast(fs, i, f);
    GatherAllBag(fs[i := f], t);
    GatherAllBag(fs, t);
    SwapUnion(multiset(GatherAll(fs[..|fs| - 1], t)), multiset(For(l, t)), multiset(Gather(fs[|fs| - 1], t)));
  }

  /** The bag of all the files' postings is the bag of all but the last
      file's plus the last file's. */
  lemma GatherAllBag(fs: seq<seq<Line>>, t: string)
    requires fs != []
    ensures multiset(GatherAll(fs, t))
         == multiset(GatherAll(fs[..|fs| - 1], t)) + multiset(Gather(fs[|fs| - 1], t))
  {
  }

  lemma SwapUnion(x: multiset<Entry>, y: multiset<Entry>, z: multiset<Entry>)
    ensures (x + y) + z == (x + z) + y
  {
  }

  /** Replacing a file before the last one leaves the last one alone. */
  lemma UpdateBelowLast(fs: seq<seq<Line>>, i: nat, f: seq<Line>)
    requires i < |fs| - 1
    ensures var g := fs[i := f];
            g[..|g| - 1] == fs[..|fs| - 1][i := f] && g[|g| - 1] == fs[|fs| - 1]
  {
  }

  lemma {:induction false} GrowFileCount(fs: seq<seq<Line>>, i: nat, l: Line)
    requires i < |fs|
    ensures PostingCountAll(fs[i := fs[i] + [l]]) == PostingCountAll(fs) + |l.postings|
    decreases |fs|
  {
    var f := fs[i] + [l];
    LineAppend(fs[i], l);
    if i == |fs| - 1 {
      UpdateLast(fs, f);
    } else {
      GrowFileCount(fs[..|fs| - 1], i, l);
      UpdateBelowLast(fs, i, f);
    }
  }

  lemma {:induction false} GrowFileTerms(fs: seq<seq<Line>>, i: nat, l: Line)
    requires i < |fs|
    ensures TermsAll(fs[i := fs[i] + [l]]) == TermsAll(fs) + {l.term}
    decreases |fs|
  {
    var f := fs[i] + [l];
    LineAppend(fs[i], l);
    if i == |fs| - 1 {
      UpdateLast(fs, f);
    } else {
      GrowFileTerms(fs[..|fs| - 1], i, l);
      UpdateBelowLast(fs, i, f);
      SwapSetUnion(TermsAll(fs[..|fs| - 1]), {l.term}, Terms(fs[|fs| - 1]));
    }
  }

  /** Replacing the last file leaves the others alone. */
  lemma UpdateLast(fs: seq<seq<Line>>, f: seq<Line>)
    requires fs != []
    ensures var g := fs[|fs| - 1 := f];
            g[..|g| - 1] == fs[..|fs| - 1] && g[|g| - 1] == f
  {
  }

  lemma SwapSetUnion(x: set<string>, y: set<string>, z: set<string>)
    ensures (x + y) + z == (x + z) + y
  {
  }

  /** Per term, the result and the postings being joined hold exactly the
      postings of the lines merged so far. */
  ghost predicate Bagged(fs: seq<seq<Line>>, out: seq<Line>, current: Option<string>, joined: seq<Entry>)
  {
    forall t :: multiset(Gather(out, t)) + multiset(Joining(current, joined, t))
                == multiset(GatherAll(fs, t))
  }

  /** The result and the postings being joined account for every line
      merged so far: per term, in total, and as a set of terms. */
  ghost predicate Accounted(files: seq<seq<Line>>, taken: seq<nat>, out: seq<Line>,
                            current: Option<string>, joined: seq<Entry>)
    requires WellTaken(files, taken)
  {
    && Covers(Taken(files, taken), out, current, joined)
    && (current.None? ==> out == [] && joined == [])
  }

  /** `out` and the pending `joined` postings of `current` hold what the
      lines `fs` hold, and every line of `out` is sorted by document id. */
  ghost predicate Covers(fs: seq<seq<Line>>, out: seq<Line>, current: Option<string>, joined: seq<Entry>)
  {
    && Bagged(fs, out, current, joined)
    && PostingCount(out) + |joined| == PostingCountAll(fs)
    && Terms(out) + (if current.Some? then {current.value} else {}) == TermsAll(fs)
    && (forall k :: 0 <= k < |out| ==> DocIdsSorted(out[k].postings))
  }

  /** The postings being joined, if they are for term `t`. */
  function Joining(current: Option<string>, joined: seq<Entry>, t: string): seq<Entry>
  {
    if current == Some(t) then joined else []
  }

  /** A term's joined postings, sorted by document id, as a finished line. */
  lemma FlushLine(out: seq<Line>, term: string, joined: seq<Entry>)
    ensures var out' := out + [Line(term, SortBy(joined, DocId))];
            && (forall t :: multiset(Gather(out', t))
                            == multiset(Gather(out, t)) + multiset(Joining(Some(term), joined, t)))
            && PostingCount(out') == PostingCount(out) + |joined|
            && Terms(out') == Terms(out) + {term}
            && DocIdsSorted(SortBy(joined, DocId))
  {
    var sorted := SortBy(joined, DocId);
    SortByFacts(joined, DocId);
    LineAppend(out, Line(term, sorted));
    assert |sorted| == |multiset(sorted)| == |multiset(joined)| == |joined|;
    assert forall i, j :: 0 <= i < j < |sorted| ==> DocId(sorted[i]) <= DocId(sorted[j]);
  }

  /** How the result and the joined postings change when line `l` is popped. */
  ghost predicate Absorbs(l: Line, out: seq<Line>, current: Option<string>, joined: seq<Entry>,
                          out': seq<Line>, joined': seq<Entry>)
  {
    if current == Some(l.term) then out' == out && joined' == joined + l.postings
    else joined' == l.postings &&
         out' == out + (if current.Some? then [Line(current.value, SortBy(joined, DocId))] else [])
  }

  lemma BaggedStep(fs: seq<seq<Line>>, i: nat, l: Line, out: seq<Line>, current: Option<string>,
                   joined: seq<Entry>, out': seq<Line>, joined': seq<Entry>)
    requires i < |fs| && Bagged(fs, out, current, joined)
    requires Absorbs(l, out, current, joined, out', joined')
    ensures Bagged(fs[i := fs[i] + [l]], out', Some(l.term), joined')
  {
    forall t
      ensures multiset(Gather(out', t)) + multiset(Joining(Some(l.term), joined', t))
              == multiset(GatherAll(fs[i := fs[i] + [l]], t))
    {
      GrowFileGather(fs, i, l, t);
      BaggedStepAt(l, out, current, joined, out', joined', t);
    }
  }

  /** One term's share of `BaggedStep`. */
  lemma BaggedStepAt(l: Line, out: seq<Line>, current: Option<string>, joined: seq<Entry>,
                     out': seq<Line>, joined': seq<Entry>, t: string)
    requires Absorbs(l, out, current, joined, out', joined')
    ensures multiset(Gather(out', t)) + multiset(Joining(Some(l.term), joined', t))
            == multiset(Gather(out, t)) + multiset(Joining(current, joined, t)) + multiset(For(l, t))
  {
    if current == Some(l.term) {
      assert Joining(Some(l.term), joined', t) == Joining(current, joined, t) + For(l, t);
    } else {
      assert Joining(Some(l.term), joined', t) == For(l, t);
      if current.Some? {
        FlushLine(out, current.value, joined);
      } else {
        assert out' == out;
      }
    }
  }

  /** Merging line `l` of file `i` keeps every line accounted for, whether
      it extends the term being joined or starts a new one. */
  lemma AccountStep(files: seq<seq<Line>>, taken: seq<nat>, i: nat,
                    out: seq<Line>, current: Option<string>, joined: seq<Entry>,
                    out': seq<Line>, joined': seq<Entry>)
    requires WellTaken(files, taken) && i < |files| && taken[i] < |files[i]|
    requires Accounted(files, taken, out, current, joined)
    requires Absorbs(files[i][taken[i]], out, current, joined, out', joined')
    ensures WellTaken(files, taken[i := taken[i] + 1])
    ensures Accounted(files, taken[i := taken[i] + 1], out', Some(files[i][taken[i]].term), joined')
  {
    var l := files[i][taken[i]];
    var taken' := taken[i := taken[i] + 1];
    TakeStep(files, taken, i);
    var fs := Taken(files, taken);
    assert Taken(files, taken') == fs[i := fs[i] + [l]];
    CoversStep(fs, i, l, out, current, joined, out', joined');
  }

  /** Merging line `l`, counted as one more line of file `i`, keeps the
      result and the joined postings covering the lines merged so far. */
  lemma CoversStep(fs: seq<seq<Line>>, i: nat, l: Line, out: seq<Line>, current: Option<string>,
                   joined: seq<Entry>, out': seq<Line>, joined': seq<Entry>)
    requires i < |fs| && Covers(fs, out, current, joined) && (current.None? ==> joined == [])
    requires Absorbs(l, out, current, joined, out', joined')
    ensures Covers(fs[i := fs[i] + [l]], out', Some(l.term), joined')
  {
    GrowFileCount(fs, i, l);
    GrowFileTerms(fs, i, l);
    BaggedStep(fs, i, l, out, current, joined, out', joined');
    if current == Some(l.term) {
      assert |joined'| == |joined| + |l.postings|;
    } else if current.None? {
      assert out' == out + [] == out;
    } else {
      FlushLine(out, current.value, joined);
      forall k | 0 <= k < |out'|
        ensures DocIdsSorted(out'[k].postings)
      {
        if k < |out| {
          assert out'[k] == out[k];
        }
      }
    }
  }

  /** Terms ascending in the result, every result term below the one being
      joined, and nothing on the heap below it either. */
  ghost predicate InOrder(out: seq<Line>, current: Option<string>, heap: seq<HeapEntry>)
  {
    && TermsAscending(out)
    && (current.None? ==> out == [])
    && (current.Some? ==>
          && (forall k :: 0 <= k < |out| ==> Less(out[k].term, current.value))
          && (forall m :: 0 <= m < |heap| ==> !Less(heap[m].term, current.value)))
  }

  /** Popping a least item keeps the order facts, when the files are
      locally sorted. */
  lemma OrderStep(files: seq<seq<Line>>, taken: seq<nat>, heap: seq<HeapEntry>, k: nat,
                  out: seq<Line>, current: Option<string>, joined: seq<Entry>, out': seq<Line>)
    requires HeapHoldsHeads(files, taken, heap) && k < |heap|
    requires forall j :: 0 <= j < |heap| ==> !Less(heap[j].term, heap[k].term)
    requires AllAscending(files) ==> InOrder(out, current, heap)
    requires current == Some(heap[k].term) ==> out' == out
    requires current != Some(heap[k].term) ==>
               out' == out + (if current.Some? then [Line(current.value, SortBy(joined, DocId))] else [])
    ensures var i := heap[k].file;
            var taken' := taken[i := taken[i] + 1];
            |taken'| == |files| && i < |files| &&
            (AllAscending(files) ==>
               InOrder(out', Some(heap[k].term), Replaced(heap, k, NextOf(files, taken', i))))
  {
    if AllAscending(files) {
      OrderStepSorted(files, taken, heap, k, out, current, joined, out');
    }
  }

  lemma OrderStepSorted(files: seq<seq<Line>>, taken: seq<nat>, heap: seq<HeapEntry>, k: nat,
                  out: seq<Line>, current: Option<string>, joined: seq<Entry>, out': seq<Line>)
    requires AllAscending(files) && HeapHoldsHeads(files, taken, heap) && k < |heap|
    requires forall j :: 0 <= j < |heap| ==> !Less(heap[j].term, heap[k].term)
    requires InOrder(out, current, heap)
    requires current == Some(heap[k].term) ==> out' == out
    requires current != Some(heap[k].term) ==>
               out' == out + (if current.Some? then [Line(current.value, SortBy(joined, DocId))] else [])
    ensures var i := heap[k].file;
            var taken' := taken[i := taken[i] + 1];
            |taken'| == |files| && i < |files| &&
            InOrder(out', Some(heap[k].term), Replaced(heap, k, NextOf(files, taken', i)))
  {
    var e := heap[k];
    var i := e.file;
    var taken' := taken[i := taken[i] + 1];
    var heap' := Replaced(heap, k, NextOf(files, taken', i));
    forall m | 0 <= m < |heap'|
      ensures !Less(heap'[m].term, e.term)
    {
      ReplacedAt(heap, k, NextOf(files, taken', i), m);
      if m >= |heap| - 1 {
        // the pushed line follows the popped one in file i
        assert heap'[m].term == files[i][taken[i] + 1].term;
        assert Less(files[i][taken[i]].term, files[i][taken[i] + 1].term);
        LessAsymmetric(e.term, heap'[m].term);
      }
    }
    if current != Some(e.term) && current.Some? {
      var c := current.value;
      NotLessIsLessOrEqual(c, e.term);
      forall a, b | 0 <= a < b < |out'|
        ensures Less(out'[a].term, out'[b].term)
      {
        if b == |out| {
          assert out'[a] == out[a];
        } else {
          assert out'[a] == out[a] && out'[b] == out[b];
        }
      }
      forall a | 0 <= a < |out'|
        ensures Less(out'[a].term, e.term)
      {
        if a < |out| {
          assert out'[a] == out[a];
          LessTransitive(out[a].term, c, e.term);
        }
      }
    }
  }

  /** `heappop`: the position of an item whose term no other item is below.
      Which of several items with that term Python's tuple order would pick
      is left open. */
  method MinIndex(heap: seq<HeapEntry>) returns (k: nat)
    requires heap != []
    ensures k < |heap|
    ensures forall j :: 0 <= j < |heap| ==> !Less(heap[j].term, heap[k].term)
  {
    k := 0;
    LessIrreflexive(heap[0].term);
    for j := 1 to |heap|
      invariant k < j
      invariant forall m :: 0 <= m < j ==> !Less(heap[m].term, heap[k].term)
    {
      if Less(heap[j].term, heap[k].term) {
        forall m | 0 <= m <= j
          ensures !Less(heap[m].term, heap[j].term)
        {
          if m == j {
            LessIrreflexive(heap[j].term);
          } else if Less(heap[m].term, heap[j].term) {
            LessTransitive(heap[m].term, heap[j].term, heap[k].term);
          }
        }
        k := j;
      }
    }
  }

  /** The heap holds the first line of each non-empty file below `i`, one
      item per file, and nothing else. */
  ghost predicate SeededBelow(files: seq<seq<Line>>, heap: seq<HeapEntry>, i: nat)
  {
    && (forall m :: 0 <= m < |heap| ==>
          heap[m].file < i && heap[m].file < |files| && 0 < |files[heap[m].file]| &&
          heap[m] == HeapEntry(files[heap[m].file][0].term, files[heap[m].file][0].postings, heap[m].file))
    && OnePerFile(heap)
    && (forall j :: 0 <= j < i && j < |files| && 0 < |files[j]| ==> HasFile(heap, j))
  }

  lemma SeedStep(files: seq<seq<Line>>, heap: seq<HeapEntry>, i: nat)
    requires i < |files| && SeededBelow(files, heap, i)
    ensures 0 < |files[i]| ==>
              SeededBelow(files, heap + [HeapEntry(files[i][0].term, files[i][0].postings, i)], i + 1)
    ensures |files[i]| == 0 ==> SeededBelow(files, heap, i + 1)
  {
    var heap' := heap + [HeapEntry(if 0 < |files[i]| then files[i][0].term else "",
                                   if 0 < |files[i]| then files[i][0].postings else [], i)];
    if 0 < |files[i]| {
      forall j | 0 <= j < i + 1 && j < |files| && 0 < |files[j]|
        ensures HasFile(heap', j)
      {
        if j == i {
          assert heap'[|heap|].file == i;
        } else {
          var m :| 0 <= m < |heap| && heap[m].file == j;
          assert heap'[m] == heap[m];
        }
      }
      forall a, b | 0 <= a < b < |heap'|
        ensures heap'[a].file != heap'[b].file
      {
        assert heap'[a] == heap[a];
      }
    }
  }

  lemma SeedDone(files: seq<seq<Line>>, heap: seq<HeapEntry>)
    requires SeededBelow(files, heap, |files|)
    ensures HeapHoldsHeads(files, Zeros(|files|), heap)
  {
  }

  /** The heap seeding of merge.py: the first line of every non-empty file,
      each pushed with its file's index; an empty file pushes nothing. */
  method SeedHeap(files: seq<seq<Line>>) returns (heap: seq<HeapEntry>, cursor: seq<nat>)
    ensures HeapHoldsHeads(files, Zeros(|files|), heap)
    ensures CursorsAt(files, Zeros(|files|), cursor)
  {
    heap := [];
    cursor := [];
    for i := 0 to |files|
      invariant |cursor| == i
      invariant forall j :: 0 <= j < i ==> cursor[j] == if 0 < |files[j]| then 1 else 0
      invariant SeededBelow(files, heap, i)
    {
      SeedStep(files, heap, i);
      if 0 < |files[i]| {
        var line := files[i][0];
        heap := heap + [HeapEntry(line.term, line.postings, i)];
        cursor := cursor + [1];
      } else {
        cursor := cursor + [0];
      }
    }
    SeedDone(files, heap);
  }

  /** Once every file is used up, the merged lines are the files. */
  lemma TakenAllOf(files: seq<seq<Line>>, taken: seq<nat>)
    requires WellTaken(files, taken)
    requires forall i :: 0 <= i < |files| ==> taken[i] == |files[i]|
    ensures Taken(files, taken) == files
  {
    forall i | 0 <= i < |files|
      ensures Taken(files, taken)[i] == files[i]
    {
      assert files[i][..|files[i]|] == files[i];
    }
  }

  /** Before anything is read, no line is merged. */
  lemma {:induction false} NothingTaken(fs: seq<seq<Line>>)
    requires forall i :: 0 <= i < |fs| ==> fs[i] == []
    ensures forall t :: GatherAll(fs, t) == []
    ensures PostingCountAll(fs) == 0
    ensures TermsAll(fs) == {}
    decreases |fs|
  {
    if fs != [] {
      NothingTaken(fs[..|fs| - 1]);
    }
  }

  /** A term occurs in some file exactly when it is in `TermsAll`. */
  lemma {:induction false} InTermsAll(fs: seq<seq<Line>>, t: string)
    ensures t in TermsAll(fs) <==> exists i :: 0 <= i < |fs| && t in Terms(fs[i])
    decreases |fs|
  {
    if fs != [] {
      var p := fs[..|fs| - 1];
      InTermsAll(p, t);
      if t in TermsAll(p) {
        var i :| 0 <= i < |p| && t in Terms(p[i]);
        assert fs[i] == p[i];
      }
      if t !in TermsAll(fs) {
        forall i | 0 <= i < |fs|
          ensures t !in Terms(fs[i])
        {
          if i < |p| {
            assert fs[i] == p[i];
          }
        }
      }
    }
  }

  /** All files empty exactly when no file has a term. */
  lemma NoTermsMeansEmpty(fs: seq<seq<Line>>)
    ensures TermsAll(fs) == {} <==> forall i :: 0 <= i < |fs| ==> fs[i] == []
  {
    if TermsAll(fs) == {} {
      forall i | 0 <= i < |fs|
        ensures fs[i] == []
      {
        if fs[i] != [] {
          assert fs[i][0].term in Terms(fs[i]);
          InTermsAll(fs, fs[i][0].term);
          assert false;
        }
      }
    } else {
      var t :| t in TermsAll(fs);
      InTermsAll(fs, t);
    }
  }

  /** With terms strictly ascending, a line's postings are all its term has. */
  lemma {:induction false} GatherUnique(lines: seq<Line>, k: nat)
    requires TermsAscending(lines) && k < |lines|
    ensures Gather(lines, lines[k].term) == lines[k].postings
    decreases |lines|
  {
    var n := |lines| - 1;
    var p := lines[..n];
    assert TermsAscending(p);
    if k < n {
      GatherUnique(p, k);
      LessIrreflexive(lines[k].term);
      assert lines[n].term != lines[k].term;
    } else {
      GatherAbsent(p, lines[k].term);
    }
  }

  lemma {:induction false} GatherAbsent(lines: seq<Line>, t: string)
    requires forall k :: 0 <= k < |lines| ==> Less(lines[k].term, t)
    ensures Gather(lines, t) == []
    decreases |lines|
  {
    if lines != [] {
      GatherAbsent(lines[..|lines| - 1], t);
      LessIrreflexive(t);
    }
  }

  /** `files[file_idx].readline()` after the pop: the popped item was the
      file's head, so its cursor stands one line on; reading the next line
      (if any) keeps the cursors in step with the merged lines. */
  lemma CursorStep(files: seq<seq<Line>>, taken: seq<nat>, heap: seq<HeapEntry>, k: nat, cursor: seq<nat>)
    requires HeapHoldsHeads(files, taken, heap) && k < |heap| && CursorsAt(files, taken, cursor)
    ensures var i := heap[k].file;
            var taken' := taken[i := taken[i] + 1];
            && i < |files| && taken[i] < |files[i]| && cursor[i] == taken'[i]
            && WellTaken(files, taken')
            && (cursor[i] < |files[i]| ==> CursorsAt(files, taken', cursor[i := cursor[i] + 1]))
            && (cursor[i] >= |files[i]| ==> CursorsAt(files, taken', cursor))
            && NextOf(files, taken', i) ==
                 if cursor[i] < |files[i]|
                 then [HeapEntry(files[i][cursor[i]].term, files[i][cursor[i]].postings, i)]
                 else []
  {
  }

  ghost predicate MergeInv(files: seq<seq<Line>>, taken: seq<nat>, heap: seq<HeapEntry>, cursor: seq<nat>,
                           out: seq<Line>, current: Option<string>, joined: seq<Entry>)
  {
    && HeapHoldsHeads(files, taken, heap)
    && CursorsAt(files, taken, cursor)
    && Accounted(files, taken, out, current, joined)
    && (AllAscending(files) ==> InOrder(out, current, heap))
  }

  /** What the master index holds, given the partition files. */
  ghost predicate MergedIndex(files: seq<seq<Line>>, out: seq<Line>)
  {
    && (forall t :: multiset(Gather(out, t)) == multiset(GatherAll(files, t)))
    && PostingCount(out) == PostingCountAll(files)
    && Terms(out) == TermsAll(files)
    && (forall k :: 0 <= k < |out| ==> DocIdsSorted(out[k].postings))
    && (out == [] <==> forall i :: 0 <= i < |files| ==> files[i] == [])
    && (AllAscending(files) ==> TermsAscending(out))
    && (AllAscending(files) ==>
          forall k :: 0 <= k < |out| ==>
            multiset(out[k].postings) == multiset(GatherAll(files, out[k].term)))
  }

  /** The final flush, and what the whole merge then guarantees. */
  lemma MergeFinish(files: seq<seq<Line>>, taken: seq<nat>, cursor: seq<nat>, out: seq<Line>,
                    current: Option<string>, joined: seq<Entry>, out': seq<Line>)
    requires MergeInv(files, taken, [], cursor, out, current, joined)
    requires out' == out + (if current.Some? then [Line(current.value, SortBy(joined, DocId))] else [])
    ensures MergedIndex(files, out')
  {
    EmptyHeapMeansDone(files, taken, []);
    FlushAccounted(files, taken, out, current, joined, out');
    DoneFacts(files, out');
    if AllAscending(files) {
      FlushOrdered(out, current, joined, out');
      forall k | 0 <= k < |out'|
        ensures multiset(out'[k].postings) == multiset(GatherAll(files, out'[k].term))
      {
        GatherUnique(out', k);
      }
    }
  }

  /** Writing the lingering term leaves nothing pending. */
  lemma FlushAccounted(files: seq<seq<Line>>, taken: seq<nat>, out: seq<Line>,
                       current: Option<string>, joined: seq<Entry>, out': seq<Line>)
    requires WellTaken(files, taken) && forall i :: 0 <= i < |files| ==> taken[i] == |files[i]|
    requires WellTaken(files, taken) && Accounted(files, taken, out, current, joined)
    requires out' == out + (if current.Some? then [Line(current.value, SortBy(joined, DocId))] else [])
    ensures Covers(files, out', None, [])
  {
    TakenAllOf(files, taken);
    if current.Some? {
      FlushLine(out, current.value, joined);
      forall t
        ensures multiset(Gather(out', t)) + multiset(Joining(None, [], t))
                == multiset(GatherAll(files, t))
      {
        assert Joining(None, [], t) == [];
        assert multiset(Gather(out', t)) == multiset(Gather(out, t)) + multiset(Joining(current, joined, t));
      }
      forall k | 0 <= k < |out'|
        ensures DocIdsSorted(out'[k].postings)
      {
        if k < |out| {
          assert out'[k] == out[k];
        }
      }
    } else {
      assert out' == out;
    }
  }

  lemma FlushOrdered(out: seq<Line>, current: Option<string>, joined: seq<Entry>, out': seq<Line>)
    requires InOrder(out, current, [])
    requires out' == out + (if current.Some? then [Line(current.value, SortBy(joined, DocId))] else [])
    ensures TermsAscending(out')
  {
    if current.Some? {
      forall a, b | 0 <= a < b < |out'|
        ensures Less(out'[a].term, out'[b].term)
      {
        assert out'[a] == out[a];
        if b < |out| {
          assert out'[b] == out[b];
        }
      }
    }
  }

  /** With every line merged and nothing pending, the result accounts for
      the whole input. */
  lemma DoneFacts(files: seq<seq<Line>>, out: seq<Line>)
    requires Covers(files, out, None, [])
    ensures forall t :: multiset(Gather(out, t)) == multiset(GatherAll(files, t))
    ensures PostingCount(out) == PostingCountAll(files)
    ensures Terms(out) == TermsAll(files)
    ensures out == [] <==> forall i :: 0 <= i < |files| ==> files[i] == []
  {
    NoTermsMeansEmpty(files);
    forall t
      ensures multiset(Gather(out, t)) == multiset(GatherAll(files, t))
    {
      assert Joining(None, [], t) == [];
    }
    if out != [] {
      assert out[0].term in Terms(out);
    }
  }

  /** The heap and cursors after the pop and the `readline` of the popped
      item's file. */
  ghost predicate Advanced(files: seq<seq<Line>>, heap: seq<HeapEntry>, cursor: seq<nat>, k: nat,
                           heap': seq<HeapEntry>, cursor': seq<nat>)
    requires k < |heap|
  {
    var i := heap[k].file;
    i < |files| && |cursor| == |files| &&
    if cursor[i] < |files[i]|
    then cursor' == cursor[i := cursor[i] + 1] &&
         heap' == heap[..k] + heap[k + 1..] + [HeapEntry(files[i][cursor[i]].term, files[i][cursor[i]].postings, i)]
    else cursor' == cursor && heap' == heap[..k] + heap[k + 1..]
  }

  lemma AdvancedHeap(files: seq<seq<Line>>, taken: seq<nat>, heap: seq<HeapEntry>, cursor: seq<nat>, k: nat,
                     heap': seq<HeapEntry>, cursor': seq<nat>)
    requires HeapHoldsHeads(files, taken, heap) && CursorsAt(files, taken, cursor) && k < |heap|
    requires Advanced(files, heap, cursor, k, heap', cursor')
    ensures var i := heap[k].file;
            var taken' := taken[i := taken[i] + 1];
            && WellTaken(files, taken')
            && heap' == Replaced(heap, k, NextOf(files, taken', i))
            && CursorsAt(files, taken', cursor')
  {
    CursorStep(files, taken, heap, k, cursor);
    assert heap[..k] + heap[k + 1..] + [] == heap[..k] + heap[k + 1..];
  }

  /** One turn of the merge loop keeps `MergeInv` and consumes a line. */
  lemma LoopStep(files: seq<seq<Line>>, taken: seq<nat>, heap: seq<HeapEntry>, cursor: seq<nat>,
                 out: seq<Line>, current: Option<string>, joined: seq<Entry>, k: nat,
                 heap': seq<HeapEntry>, cursor': seq<nat>, out': seq<Line>, joined': seq<Entry>)
    requires MergeInv(files, taken, heap, cursor, out, current, joined) && k < |heap|
    requires forall j :: 0 <= j < |heap| ==> !Less(heap[j].term, heap[k].term)
    requires Absorbs(Line(heap[k].term, heap[k].postings), out, current, joined, out', joined')
    requires Advanced(files, heap, cursor, k, heap', cursor')
    ensures var i := heap[k].file;
            var taken' := taken[i := taken[i] + 1];
            && WellTaken(files, taken')
            && Remaining(files, taken', |files|) < Remaining(files, taken, |files|)
            && MergeInv(files, taken', heap', cursor', out', Some(heap[k].term), joined')
  {
    var i := heap[k].file;
    AdvancedHeap(files, taken, heap, cursor, k, heap', cursor');
    HeapStep(files, taken, heap, k);
    RemainingStep(files, taken, i, |files|);
    assert Line(heap[k].term, heap[k].postings) == files[i][taken[i]];
    AccountStep(files, taken, i, out, current, joined, out', joined');
    OrderStep(files, taken, heap, k, out, current, joined, out');
  }

  /** The state right after seeding: nothing merged, nothing written. */
  lemma MergeStart(files: seq<seq<Line>>, heap: seq<HeapEntry>, cursor: seq<nat>)
    requires HeapHoldsHeads(files, Zeros(|files|), heap)
    requires CursorsAt(files, Zeros(|files|), cursor)
    ensures MergeInv(files, Zeros(|files|), heap, cursor, [], None, [])
  {
    NothingTaken(Taken(files, Zeros(|files|)));
  }

  /** merge.py's k-way merge of partition files into the master index; see
      `MergedIndex` for what it guarantees. */
  method MergeSortedFiles(files: seq<seq<Line>>) returns (out: seq<Line>)
    ensures MergedIndex(files, out)
  {
    var heap: seq<HeapEntry>, cursor: seq<nat> := SeedHeap(files);
    ghost var taken := Zeros(|files|);
    MergeStart(files, heap, cursor);
    out := [];
    var current: Option<string> := None;
    var currentPostings: seq<Entry> := [];
    while heap != []
      invariant MergeInv(files, taken, heap, cursor, out, current, currentPostings)
      decreases Remaining(files, taken, |files|)
    {
      var k := MinIndex(heap);
      var e := heap[k];
      ghost var heap0, cursor0, out0, joined0, current0 := heap, cursor, out, currentPostings, current;
      var i := e.file;
      heap := heap[..k] + heap[k + 1..];
      if current == Some(e.term) {
        currentPostings := currentPostings + e.postings;
      } else {
        if current.Some? {
          var sorted := SortBy(currentPostings, DocId);
          out := out + [Line(current.value, sorted)];
        }
        current := Some(e.term);
        currentPostings := e.postings;
      }
      if cursor[i] < |files[i]| {
        var next := files[i][cursor[i]];
        cursor := cursor[i := cursor[i] + 1];
        heap := heap + [HeapEntry(next.term, next.postings, i)];
      }
      LoopStep(files, taken, heap0, cursor0, out0, current0, joined0, k, heap, cursor, out, currentPostings);
      taken := taken[i := taken[i] + 1];
    }
    ghost var out0 := out;
    if current.Some? {
      out := out + [Line(current.value, SortBy(currentPostings, DocId))];
    }
    MergeFinish(files, taken, cursor, out0, current, currentPostings, out);
  }
}
