/** search.py: a searcher over the master index text. It records the
    offset of every term's line once, then answers a query of several words
    by reading each word's postings list at its offset and intersecting the
    lists, shortest first. */
module Search {
  import opened Postings
  import opened Results
  import opened Sorting
  import opened IndexText
  import opened PostingsJson
  import opened Letters

  // ---------------------------------------------------------------------
  // The query text

  /** The length of the run of non-whitespace at the front of `s`. */
  function WordLen(s: string): (n: nat)
    ensures n <= |s| && forall k :: 0 <= k < n ==> !IsSpace(s[k])
    ensures n < |s| ==> IsSpace(s[n])
  {
    if s != [] && !IsSpace(s[0]) then 1 + WordLen(s[1..]) else 0
  }

  /** `s.split()`: the maximal runs of non-whitespace, in order. */
  function Words(s: string): (ws: seq<string>)
    ensures forall k :: 0 <= k < |ws| ==> CleanTerm(ws[k])
    decreases |s|
  {
    if s == [] then []
    else if IsSpace(s[0]) then Words(s[1..])
    else
      var n := WordLen(s);
      [s[..n]] + Words(s[n..])
  }

  /** Whitespace between two texts separates their words. */
  lemma {:induction false} WordsAroundSpace(a: string, c: char, b: string)
    requires IsSpace(c)
    ensures Words(a + [c] + b) == Words(a) + Words(b)
    decreases |a|
  {
    var s := a + [c] + b;
    Cut(a, c, b, 0);
    if a == [] {
      Cut(a, c, b, 1);
      assert Words(a) + Words(b) == Words(b);
    } else if IsSpace(a[0]) {
      Cut(a, c, b, 1);
      WordsAroundSpace(a[1..], c, b);
    } else {
      var n := WordLen(a);
      WordLenPrefix(a, [c] + b);
      Cut(a, c, b, n);
      WordsAroundSpace(a[n..], c, b);
      assert [s[..n]] + (Words(a[n..]) + Words(b)) == ([a[..n]] + Words(a[n..])) + Words(b);
    }
  }

  /** The text `a`, then `c`, then `b`, cut at position `n` of `a`. */
  lemma Cut(a: string, c: char, b: string, n: nat)
    requires n <= |a| || (a == [] && n == 1)
    ensures var s := a + [c] + b;
            |s| == |a| + 1 + |b| && s[|a|] == c && s[|a| + 1..] == b &&
            s == a + ([c] + b) && (n < |a| ==> s[n] == a[n]) &&
            (n <= |a| ==> s[..n] == a[..n] && s[n..] == a[n..] + [c] + b)
  {
  }

  lemma {:induction false} WordLenPrefix(a: string, rest: string)
    requires rest != [] && IsSpace(rest[0])
    ensures WordLen(a + rest) == WordLen(a)
    decreases |a|
  {
    if a == [] {
      assert a + rest == rest;
    } else {
      assert (a + rest)[0] == a[0];
      assert (a + rest)[1..] == a[1..] + rest;
      if !IsSpace(a[0]) {
        WordLenPrefix(a[1..], rest);
      }
    }
  }

  // ---------------------------------------------------------------------
  // What get_postings and search compute

  /** Every recorded offset lies inside the text. */
  predicate InRange(content: string, table: map<string, nat>)
  {
    forall t :: t in table ==> table[t] <= |content|
  }

  /** `get_postings(term)` (search.py:29-39): no entry for a term not in the
      table, otherwise the line at the recorded offset read back. */
  function PostingsOf(content: string, table: map<string, nat>, term: string): Result<seq<Entry>>
    requires InRange(content, table)
  {
    if term !in table then Ok([]) else Fetch(content, table[term])
  }

  /** On a written index, `get_postings` finds each term's own postings
      and nothing for a term without a line. */
  lemma {:induction false} PostingsOfRendered(lines: seq<Line>, t: string)
    requires CleanTerms(lines) && Merge.TermsAscending(lines)
    ensures InRange(Render(lines), SeekTable(Render(lines), 0))
    ensures forall k :: 0 <= k < |lines| && lines[k].term == t ==>
              PostingsOf(Render(lines), SeekTable(Render(lines), 0), t) == Ok(lines[k].postings)
    ensures t !in Merge.Terms(lines) ==> PostingsOf(Render(lines), SeekTable(Render(lines), 0), t) == Ok([])
  {
    var s := Render(lines);
    SeekTableSound(s, 0);
    LookupRendered(lines, t);
  }

  /** How the term loop of `search` ends: an error raised by
      `get_postings`, a term with no postings, or one list per term. */
  datatype Collected = Failed(error: Failure) | Missing | Lists(lists: seq<seq<Entry>>)

  function Join(ls: seq<seq<Entry>>, c: Collected): Collected
  {
    if c.Lists? then Lists(ls + c.lists) else c
  }

  /** What `get_postings` answers for each term of the query, in order. */
  function Fetches(content: string, table: map<string, nat>, terms: seq<string>): (rs: seq<Result<seq<Entry>>>)
    requires InRange(content, table)
    ensures |rs| == |terms|
  {
    if terms == [] then [] else [PostingsOf(content, table, terms[0])] + Fetches(content, table, terms[1..])
  }

  /** Answer `k` is the one for term `k`. */
  lemma {:induction false} FetchesAt(content: string, table: map<string, nat>, terms: seq<string>, k: nat)
    requires InRange(content, table) && k < |terms|
    ensures Fetches(content, table, terms)[k] == PostingsOf(content, table, terms[k])
    decreases k
  {
    if k > 0 {
      FetchesAt(content, table, terms[1..], k - 1);
    }
  }

  /** The term loop of search.py:70-74 over those answers: the first error
      or the first empty list stops it. */
  function Outcome(rs: seq<Result<seq<Entry>>>): (c: Collected)
    ensures c.Lists? ==> |c.lists| == |rs|
  {
    if rs == [] then Lists([])
    else if rs[0].Err? then Failed(rs[0].error)
    else if rs[0].value == [] then Missing
    else Join([rs[0].value], Outcome(rs[1..]))
  }

  /** The whole term loop of `search`. */
  function Collect(content: string, table: map<string, nat>, terms: seq<string>): Collected
    requires InRange(content, table)
  {
    Outcome(Fetches(content, table, terms))
  }

  /** The loop stopped at answer `j` with outcome `c`: every answer before
      it was a non-empty list, and answer `j` was the error or the empty
      list that `c` reports. */
  ghost predicate StopsAt(rs: seq<Result<seq<Entry>>>, j: nat, c: Collected)
    requires j < |rs|
  {
    (forall k :: 0 <= k < j ==> rs[k].Ok? && rs[k].value != []) &&
    (if c.Failed? then rs[j] == Err(c.error) else rs[j] == Ok([]))
  }

  /** When the loop runs to the end, list k is the non-empty answer for
      term k; otherwise it stopped at an error or an empty answer, and every
      answer before that one was a non-empty list. */
  lemma {:induction false} OutcomeCases(rs: seq<Result<seq<Entry>>>)
    ensures var c := Outcome(rs);
            c.Lists? ==> forall k :: 0 <= k < |rs| ==> c.lists[k] != [] && rs[k] == Ok(c.lists[k])
    ensures var c := Outcome(rs);
            !c.Lists? ==> (exists j :: 0 <= j < |rs| && StopsAt(rs, j, c))
  {
    if rs != [] {
      var c := Outcome(rs);
      var rest := Outcome(rs[1..]);
      OutcomeCases(rs[1..]);
      if c.Lists? {
        forall k | 0 <= k < |rs|
          ensures c.lists[k] != [] && rs[k] == Ok(c.lists[k])
        {
          if k > 0 {
            assert rs[k] == rs[1..][k - 1];
            assert c.lists[k] == rest.lists[k - 1];
          }
        }
      } else if rs[0].Ok? && rs[0].value != [] {
        var j :| 0 <= j < |rs[1..]| && StopsAt(rs[1..], j, rest);
        assert rs[j + 1] == rs[1..][j];
        forall k | 0 <= k < j + 1 ensures rs[k].Ok? && rs[k].value != [] {
          if k > 0 {
            assert rs[k] == rs[1..][k - 1];
          }
        }
        assert StopsAt(rs, j + 1, c);
      } else {
        assert StopsAt(rs, 0, c);
      }
    }
  }

  lemma {:induction false} JoinJoin(a: seq<seq<Entry>>, b: seq<seq<Entry>>, c: Collected)
    ensures Join(a, Join(b, c)) == Join(a + b, c)
  {
    if c.Lists? {
      assert a + (b + c.lists) == (a + b) + c.lists;
    }
  }

  /** One round of the term loop: what the answer for term `i` makes of
      the whole loop, given the lists gathered before it. */
  lemma {:induction false} OutcomeStep(rs: seq<Result<seq<Entry>>>, i: nat, all: seq<seq<Entry>>)
    requires i < |rs|
    requires Outcome(rs) == Join(all, Outcome(rs[i..]))
    ensures rs[i].Err? ==> Outcome(rs) == Failed(rs[i].error)
    ensures rs[i].Ok? && rs[i].value == [] ==> Outcome(rs) == Missing
    ensures rs[i].Ok? && rs[i].value != [] ==> Outcome(rs) == Join(all + [rs[i].value], Outcome(rs[i + 1..]))
  {
    assert rs[i..][0] == rs[i] && rs[i..][1..] == rs[i + 1..];
    if rs[i].Ok? && rs[i].value != [] {
      JoinJoin(all, [rs[i].value], Outcome(rs[i + 1..]));
    }
  }

  /** Where the term loop leaves the index file, from position `p`: a term
      in the table moves it to the end of that term's line, a term not in
      the table leaves it; the loop stops after the first error or the
      first term without postings. */
  function Sought(content: string, table: map<string, nat>, terms: seq<string>, p: nat): (q: nat)
    requires InRange(content, table) && p <= |content|
    ensures q <= |content|
    ensures terms == [] ==> q == p
  {
    if terms == [] then p
    else
      var next := if terms[0] in table then LineEnd(content, table[terms[0]]) else p;
      var r := PostingsOf(content, table, terms[0]);
      if r.Err? || r.value == [] then next else Sought(content, table, terms[1..], next)
  }

  /** One round of the term loop, for the position of the file. */
  lemma SoughtStep(content: string, table: map<string, nat>, terms: seq<string>, i: nat, p: nat)
    requires InRange(content, table) && p <= |content| && i < |terms|
    ensures var next := if terms[i] in table then LineEnd(content, table[terms[i]]) else p;
            var r := PostingsOf(content, table, terms[i]);
            Sought(content, table, terms[i..], p)
            == if r.Err? || r.value == [] then next else Sought(content, table, terms[i + 1..], next)
  {
    assert terms[i..][0] == terms[i] && terms[i..][1..] == terms[i + 1..];
  }

  /** The document ids that every list mentions. */
  function Common(ls: seq<seq<Entry>>): (r: set<int>)
    requires ls != []
    ensures forall d :: d in r <==> forall k :: 0 <= k < |ls| ==> d in DocIds(ls[k])
  {
    set d | d in DocIds(ls[0]) && forall k :: 0 <= k < |ls| ==> d in DocIds(ls[k])
  }

  lemma {:induction false} CommonStep(ls: seq<seq<Entry>>, k: nat)
    requires 0 < k < |ls|
    ensures Common(ls[..k + 1]) == Common(ls[..k]) * DocIds(ls[k])
  {
    assert forall m :: 0 <= m < k ==> ls[..k + 1][m] == ls[..k][m];
    assert ls[..k + 1][k] == ls[k];
  }

  lemma {:induction false} CommonShrinks(ls: seq<seq<Entry>>, k: nat)
    requires 0 < k <= |ls|
    ensures Common(ls) <= Common(ls[..k])
  {
    assert forall m :: 0 <= m < k ==> ls[..k][m] == ls[m];
  }

  /** Reordering the lists changes nothing of what they have in common. */
  lemma {:induction false} CommonReordered(a: seq<seq<Entry>>, b: seq<seq<Entry>>)
    requires a != [] && multiset(a) == multiset(b)
    ensures b != [] && Common(a) == Common(b)
  {
    assert a[0] in multiset(b);
    forall d | d in Common(a) ensures d in Common(b) {
      forall k | 0 <= k < |b| ensures d in DocIds(b[k]) {
        assert b[k] in multiset(a);
        var m :| 0 <= m < |a| && a[m] == b[k];
      }
    }
    forall d | d in Common(b) ensures d in Common(a) {
      forall k | 0 <= k < |a| ensures d in DocIds(a[k]) {
        assert a[k] in multiset(b);
        var m :| 0 <= m < |b| && b[m] == a[k];
      }
    }
  }

  ghost predicate AllAscending(ls: seq<seq<Entry>>)
  {
    forall k :: 0 <= k < |ls| ==> DocIdsAscending(ls[k])
  }

  /** What `search` promises about the answer to lists `ls` (search.py:76-84):
      every answer's document is in every list; the answer is no longer
      than the shortest list and every entry of it comes from the first
      shortest list in query order, as the stable sort puts that one first;
      a single list is the answer itself; and when the lists have
      strictly increasing ids the answer's ids are exactly those common to
      all lists, still strictly increasing. */
  ghost predicate AndOf(ls: seq<seq<Entry>>, result: seq<Entry>)
    requires ls != []
  {
    (forall e :: e in result ==> e.docid in Common(ls)) &&
    (forall m :: 0 <= m < |ls| ==> |result| <= |ls[m]|) &&
    (forall e :: e in result ==> e in ls[FirstLeast(ls, Len)]) &&
    (|ls| == 1 ==> result == ls[0]) &&
    (AllAscending(ls) ==> DocIdsAscending(result) && DocIds(result) == Common(ls))
  }

  /** The answer `search` gives for the (non-empty) words `terms`. */
  ghost predicate Answers(content: string, table: map<string, nat>, terms: seq<string>, r: Result<seq<Entry>>)
    requires InRange(content, table) && terms != []
  {
    var c := Collect(content, table, terms);
    match c
    case Failed(e) => r == Err(e)
    case Missing => r == Ok([])
    case Lists(ls) => r.Ok? && AndOf(ls, r.value)
  }

  // ---------------------------------------------------------------------
  // The filter `intersect` computes

  /** The entries of `ps` whose document id is in `d`, in order. */
  function Keep(ps: seq<Entry>, d: set<int>): (r: seq<Entry>)
    ensures |r| <= |ps|
  {
    if ps == [] then []
    else Keep(ps[..|ps| - 1], d) + (if ps[|ps| - 1].docid in d then [ps[|ps| - 1]] else [])
  }

  /** The kept ids are the ids of `ps` that are in `d`. */
  lemma {:induction false} KeepDocIds(ps: seq<Entry>, d: set<int>)
    ensures DocIds(Keep(ps, d)) == DocIds(ps) * d
    decreases |ps|
  {
    if ps != [] {
      var init := ps[..|ps| - 1];
      KeepDocIds(init, d);
      assert DocIds(ps) == DocIds(init) + {ps[|ps| - 1].docid} by {
        assert forall k :: 0 <= k < |init| ==> init[k] == ps[k];
      }
      var last := ps[|ps| - 1];
      var tail := if last.docid in d then [last] else [];
      assert DocIds(tail) == {last.docid} * d by {
        if last.docid in d {
          assert tail[0] == last;
        }
      }
      DocIdsAppend(Keep(init, d), tail);
    }
  }

  lemma {:induction false} DocIdsAppend(a: seq<Entry>, b: seq<Entry>)
    ensures DocIds(a + b) == DocIds(a) + DocIds(b)
  {
    forall x | x in DocIds(a + b) ensures x in DocIds(a) + DocIds(b) {
      var k :| 0 <= k < |a + b| && (a + b)[k].docid == x;
      if k >= |a| { assert b[k - |a|].docid == x; }
    }
    forall x | x in DocIds(a) ensures x in DocIds(a + b) {
      var k :| 0 <= k < |a| && a[k].docid == x;
      assert (a + b)[k].docid == x;
    }
    forall x | x in DocIds(b) ensures x in DocIds(a + b) {
      var k :| 0 <= k < |b| && b[k].docid == x;
      assert (a + b)[|a| + k].docid == x;
    }
  }

  /** Filtering keeps strictly increasing ids strictly increasing. */
  lemma {:induction false} KeepAscending(ps: seq<Entry>, d: set<int>)
    requires DocIdsAscending(ps)
    ensures DocIdsAscending(Keep(ps, d))
    decreases |ps|
  {
    if ps != [] {
      var init, last := ps[..|ps| - 1], ps[|ps| - 1];
      KeepAscending(init, d);
      if last.docid in d {
        var r := Keep(init, d);
        KeepDocIds(init, d);
        forall i | 0 <= i < |r| ensures r[i].docid < last.docid {
          assert r[i].docid in DocIds(r);
          assert r[i].docid in DocIds(init);
          var k :| 0 <= k < |init| && init[k].docid == r[i].docid;
        }
      }
    }
  }

  /** A filter that admits every id of `ps` keeps all of it. */
  lemma {:induction false} KeepAll(ps: seq<Entry>, d: set<int>)
    requires DocIds(ps) <= d
    ensures Keep(ps, d) == ps
    decreases |ps|
  {
    if ps != [] {
      var init := ps[..|ps| - 1];
      assert DocIds(init) <= DocIds(ps) by {
        assert forall k :: 0 <= k < |init| ==> init[k] == ps[k];
      }
      assert ps[|ps| - 1].docid in DocIds(ps);
      KeepAll(init, d);
      assert init + [ps[|ps| - 1]] == ps;
    }
  }

  /** Entries past `i` whose ids are all outside `d` add nothing. */
  lemma {:induction false} KeepNoMore(ps: seq<Entry>, d: set<int>, i: nat)
    requires i <= |ps|
    requires forall m :: i <= m < |ps| ==> ps[m].docid !in d
    ensures Keep(ps, d) == Keep(ps[..i], d)
    decreases |ps| - i
  {
    if i < |ps| {
      var init := ps[..|ps| - 1];
      KeepNoMore(init, d, i);
      assert init[..i] == ps[..i];
    } else {
      assert ps[..i] == ps;
    }
  }

  /** An id below the first id of a sorted list past position `j`, and
      above every id before `j`, is not in the list. */
  lemma {:induction false} NotInSorted(p2: seq<Entry>, j: nat, x: int)
    requires DocIdsSorted(p2) && j < |p2| && x < p2[j].docid
    requires forall m :: 0 <= m < j ==> p2[m].docid < x
    ensures x !in DocIds(p2)
  {
    forall m | 0 <= m < |p2|
      ensures p2[m].docid != x
    {
      if m >= j {
        assert p2[j].docid <= p2[m].docid;
      }
    }
  }

  /** The promise kept by the shortest-first fold of search.py:78-82 after
      `k` lists: see `AndOf`. */
  ghost predicate Folded(all: seq<seq<Entry>>, sorted: seq<seq<Entry>>, k: nat, result: seq<Entry>)
  {
    0 < k <= |sorted| &&
    (forall e :: e in result ==> e in sorted[0] && e.docid in Common(sorted[..k])) &&
    (forall m :: 0 <= m < |all| ==> |result| <= |all[m]|) &&
    (AllAscending(sorted) ==> DocIdsAscending(result) && DocIds(result) == Common(sorted[..k]))
  }

  lemma {:induction false} FoldStart(all: seq<seq<Entry>>)
    requires all != []
    ensures multiset(SortBy(all, Len)) == multiset(all) && |SortBy(all, Len)| == |all|
    ensures SortBy(all, Len)[0] == all[FirstLeast(all, Len)]
    ensures Folded(all, SortBy(all, Len), 1, SortBy(all, Len)[0])
  {
    var sorted := SortBy(all, Len);
    SortByFacts(all, Len);
    SortByFirst(all, Len);
    var first := sorted[0];
    assert forall d :: d in Common(sorted[..1]) <==> d in DocIds(first) by {
      assert sorted[..1][0] == first;
    }
    forall e | e in first ensures e.docid in Common(sorted[..1]) {
      var k :| 0 <= k < |first| && first[k] == e;
    }
  }

  lemma {:induction false} FoldStep(all: seq<seq<Entry>>, sorted: seq<seq<Entry>>, k: nat,
                                    result: seq<Entry>, next: seq<Entry>)
    requires Folded(all, sorted, k, result) && k < |sorted|
    requires |next| <= |result|
    requires forall e :: e in next ==> e in result && e.docid in DocIds(sorted[k])
    requires DocIdsAscending(result) && DocIdsSorted(sorted[k]) ==> next == Keep(result, DocIds(sorted[k]))
    ensures Folded(all, sorted, k + 1, next)
  {
    CommonStep(sorted, k);
    if AllAscending(sorted) {
      KeepDocIds(result, DocIds(sorted[k]));
      KeepAscending(result, DocIds(sorted[k]));
    }
  }

  lemma {:induction false} FoldDone(all: seq<seq<Entry>>, sorted: seq<seq<Entry>>, k: nat, result: seq<Entry>)
    requires all != [] && multiset(sorted) == multiset(all)
    requires Folded(all, sorted, k, result) && (k == |sorted| || result == [])
    requires sorted[0] == all[FirstLeast(all, Len)]
    requires |all| == 1 ==> result == sorted[0]
    ensures AndOf(all, result)
  {
    CommonReordered(all, sorted);
    CommonShrinks(sorted, k);
    if |all| == 1 {
      SingleReordered(all, sorted);
    }
    if AllAscending(all) {
      AscendingReordered(all, sorted);
    }
    if k == |sorted| {
      WholePrefix(sorted);
    }
  }

  lemma SingleReordered(all: seq<seq<Entry>>, sorted: seq<seq<Entry>>)
    requires |all| == 1 && multiset(sorted) == multiset(all)
    ensures sorted != [] && sorted[0] == all[0]
  {
    assert all[0] in multiset(sorted);
    assert sorted[0] in multiset(all);
  }

  lemma AscendingReordered(all: seq<seq<Entry>>, sorted: seq<seq<Entry>>)
    requires AllAscending(all) && multiset(sorted) == multiset(all)
    ensures AllAscending(sorted)
  {
    forall m | 0 <= m < |sorted| ensures DocIdsAscending(sorted[m]) {
      assert sorted[m] in multiset(all);
    }
  }

  lemma WholePrefix(ls: seq<seq<Entry>>)
    ensures ls[..|ls|] == ls
  {
  }

  /** The sort key of `all_postings.sort(key=len)`. */
  function Len(p: seq<Entry>): int
  {
    |p|
  }

  // ---------------------------------------------------------------------
  // The searcher

  class Searcher {
    /** The text of the index file. */
    const content: string
    /** The position of the open index file, as `tell()` reports it. */
    var pos: nat
    /** `term_offsets`: the offset of each term's line. */
    var termOffsets: map<string, nat>

    ghost predicate Valid()
      reads this
    {
      pos <= |content| && InRange(content, termOffsets)
    }

    /** `Searcher(index_path)` (search.py:8-12): opens the index and builds
        the seek table of its whole text. */
    constructor (text: string)
      ensures content == text && Valid()
      ensures termOffsets == SeekTable(text, 0) && pos == |text|
    {
      content := text;
      pos := 0;
      termOffsets := map[];
      new;
      BuildSeekIndex();
    }

    /** `readline()`: the text up to and including the next line break, or
        to the end; empty at the end of the text. */
    method ReadLine() returns (line: string)
      requires Valid()
      modifies this`pos
      ensures Valid() && pos == LineEnd(content, old(pos))
      ensures line == IndexText.ReadLine(content, old(pos))
      ensures line == [] <==> old(pos) == |content|
    {
      var q := pos;
      while q < |content| && content[q] != '\n'
        invariant pos <= q <= |content|
        invariant LineEnd(content, pos) == LineEnd(content, q)
        decreases |content| - q
      {
        q := q + 1;
      }
      if q < |content| {
        q := q + 1;
      }
      line := content[pos..q];
      pos := q;
    }

    /** `_build_seek_index` (search.py:14-27): reads every line from the
        current position on and records the offset of each line that holds
        a tab under the text before the tab. */
    method BuildSeekIndex()
      requires Valid()
      modifies this`pos, this`termOffsets
      ensures Valid() && pos == |content|
      ensures termOffsets == old(termOffsets) + SeekTable(content, old(pos))
    {
      while true
        invariant Valid()
        invariant termOffsets + SeekTable(content, pos) == old(termOffsets) + SeekTable(content, old(pos))
        decreases |content| - pos
      {
        var offset := pos;
        var line := ReadLine();
        SeekTableUnfold(content, offset);
        if line == [] {
          assert termOffsets + map[] == termOffsets;
          break;
        }
        var parts := SplitTab(line);
        ghost var before := termOffsets;
        if |parts| == 2 {
          termOffsets := termOffsets[parts[0] := offset];
        }
        RecordInto(before, line, offset);
        UnionAssociates(before, Record(line, offset), SeekTable(content, pos));
      }
    }

    /** `get_postings(term)` (search.py:29-39). The file is left after the
        line it read. */
    method GetPostings(term: string) returns (r: Result<seq<Entry>>)
      requires Valid()
      modifies this`pos
      ensures Valid()
      ensures r == PostingsOf(content, termOffsets, term)
      ensures term in termOffsets ==> pos == LineEnd(content, termOffsets[term])
      ensures term !in termOffsets ==> pos == old(pos)
    {
      if term !in termOffsets {
        return Ok([]);
      }
      pos := termOffsets[term];
      var line := ReadLine();
      var parts := SplitTab(Strip(line));
      if |parts| != 2 {
        return Err(ValueError);
      }
      r := Decode(parts[1]);
    }

    /** `intersect(p1, p2)` (search.py:41-58): the side-by-side walk. Each
        kept entry comes from `p1` with an id `p2` also has; on a strictly
        increasing `p1` and a sorted `p2` it keeps exactly the entries of
        `p1` whose id is in `p2`. */
    method Intersect(p1: seq<Entry>, p2: seq<Entry>) returns (answer: seq<Entry>)
      ensures |answer| <= |p1| && |answer| <= |p2|
      ensures forall e :: e in answer ==> e in p1 && e.docid in DocIds(p2)
      ensures DocIdsAscending(p1) && DocIdsSorted(p2) ==> answer == Keep(p1, DocIds(p2))
    {
      ghost var sorted := DocIdsAscending(p1) && DocIdsSorted(p2);
      answer := [];
      var i, j := 0, 0;
      while i < |p1| && j < |p2|
        invariant 0 <= i <= |p1| && 0 <= j <= |p2|
        invariant |answer| <= i && |answer| <= j
        invariant forall e :: e in answer ==> e in p1 && e.docid in DocIds(p2)
        invariant sorted ==> answer == Keep(p1[..i], DocIds(p2))
        invariant sorted && i < |p1| ==> forall m :: 0 <= m < j ==> p2[m].docid < p1[i].docid
        decreases |p1| - i + |p2| - j
      {
        assert p1[..i + 1][..i] == p1[..i];
        if p1[i].docid == p2[j].docid {
          answer := answer + [p1[i]];
          i, j := i + 1, j + 1;
        } else if p1[i].docid < p2[j].docid {
          if sorted {
            NotInSorted(p2, j, p1[i].docid);
          }
          i := i + 1;
        } else {
          j := j + 1;
        }
      }
      if sorted {
        if i < |p1| {
          forall m | i <= m < |p1| ensures p1[m].docid !in DocIds(p2) {
            forall n | 0 <= n < |p2| ensures p2[n].docid != p1[m].docid {
              assert p2[n].docid < p1[i].docid;
            }
          }
        }
        KeepNoMore(p1, DocIds(p2), i);
      }
    }

    /** `search(query)` (search.py:60-84): the lower-cased words of the
        query; no words, no answer; otherwise the postings of every word,
        stopping at an error or at a word without postings, then the lists
        intersected shortest first, stopping once nothing is left. */
    method Search(query: string) returns (r: Result<seq<Entry>>)
      requires Valid()
      modifies this`pos
      ensures Valid()
      ensures Words(Lower(query)) == [] ==> r == Ok([])
      ensures Words(Lower(query)) != [] ==> Answers(content, termOffsets, Words(Lower(query)), r)
      ensures pos == Sought(content, termOffsets, Words(Lower(query)), old(pos))
    {
      var terms := Words(Lower(query));
      if terms == [] {
        return Ok([]);
      }
      var c := GatherPostings(terms);
      match c
      case Failed(e) =>
        r := Err(e);
      case Missing =>
        r := Ok([]);
      case Lists(all) =>
        var result := Conjoin(all);
        r := Ok(result);
    }

    /** The term loop of `search` (search.py:68-74): the postings of every
        term in turn, stopping at the first error or the first term
        without postings. */
    method GatherPostings(terms: seq<string>) returns (c: Collected)
      requires Valid() && terms != []
      modifies this`pos
      ensures Valid()
      ensures c == Collect(content, termOffsets, terms)
      ensures pos == Sought(content, termOffsets, terms, old(pos))
    {
      ghost var rs := Fetches(content, termOffsets, terms);
      var all: seq<seq<Entry>> := [];
      assert terms[0..] == terms;
      for i := 0 to |terms|
        invariant Valid() && |all| == i
        invariant Outcome(rs) == Join(all, Outcome(rs[i..]))
        invariant Sought(content, termOffsets, terms, old(pos)) == Sought(content, termOffsets, terms[i..], pos)
      {
        SoughtStep(content, termOffsets, terms, i, pos);
        var p := GetPostings(terms[i]);
        FetchesAt(content, termOffsets, terms, i);
        OutcomeStep(rs, i, all);
        if p.Err? {
          return Failed(p.error);
        }
        if p.value == [] {
          return Missing;
        }
        all := all + [p.value];
      }
      assert rs[|terms|..] == [] && terms[|terms|..] == [];
      assert all + [] == all;
      c := Lists(all);
    }

    /** The second half of `search` (search.py:76-84): the lists sorted by
        length, then the shortest intersected with each of the others in
        turn, stopping as soon as nothing is left. See `AndOf`. */
    method Conjoin(all: seq<seq<Entry>>) returns (result: seq<Entry>)
      requires all != []
      ensures AndOf(all, result)
    {
      var sorted := SortBy(all, Len);
      FoldStart(all);
      ghost var k;
      result, k := Fold(all, sorted);
      FoldDone(all, sorted, k, result);
    }

    /** The fold of search.py:80-84 over the sorted lists: the shortest
        intersected with each of the others in turn, stopping as soon as
        nothing is left, which happens after the first `k` lists. */
    method Fold(all: seq<seq<Entry>>, sorted: seq<seq<Entry>>) returns (result: seq<Entry>, ghost k: nat)
      requires sorted != [] && Folded(all, sorted, 1, sorted[0])
      ensures Folded(all, sorted, k, result) && (k == |sorted| || result == [])
      ensures k == 1 ==> result == sorted[0]
    {
      result := sorted[0];
      var i := 1;
      while i < |sorted|
        invariant Folded(all, sorted, i, result)
        invariant i == 1 ==> result == sorted[0]
        decreases |sorted| - i
      {
        var next := Intersect(result, sorted[i]);
        FoldStep(all, sorted, i, result, next);
        result := next;
        i := i + 1;
        if result == [] {
          break;
        }
      }
      k := i;
    }
  }

  lemma {:induction false} UnionAssociates(a: map<string, nat>, b: map<string, nat>, c: map<string, nat>)
    ensures (a + b) + c == a + (b + c)
  {
  }
}
