/** The master index as text, and the line-level operations the searcher
    performs on it: `readline` from an offset, `str.strip()`,
    `str.split('\t', 1)`, and the table from terms to line offsets that
    `Searcher._build_seek_index` collects (search.py:14-27). Offsets are
    positions in the text. */
module IndexText {
  import opened Postings
  import opened Results
  import opened PostingsJson
  import opened StringOrder
  import Merge

  /** Python's `str.isspace()` for one character. */
  predicate IsSpace(c: char)
  {
    ('\t' <= c <= '\r') || ('\U{1c}' <= c <= '\U{1f}') || c == ' ' || c == '\U{85}' || c == '\U{a0}'
    || c == '\U{1680}' || ('\U{2000}' <= c <= '\U{200a}') || c == '\U{2028}' || c == '\U{2029}'
    || c == '\U{202f}' || c == '\U{205f}' || c == '\U{3000}'
  }

  /** `s.lstrip()`: the suffix after the leading whitespace. */
  function StripLeft(s: string): (r: string)
    ensures |r| <= |s| && r == s[|s| - |r|..]
    ensures r == [] || !IsSpace(r[0])
    ensures forall k :: 0 <= k < |s| - |r| ==> IsSpace(s[k])
  {
    if s != [] && IsSpace(s[0]) then StripLeft(s[1..]) else s
  }

  /** `s.rstrip()`: the prefix before the trailing whitespace. */
  function StripRight(s: string): (r: string)
    ensures |r| <= |s| && r == s[..|r|]
    ensures r == [] || !IsSpace(r[|r| - 1])
    ensures forall k :: |r| <= k < |s| ==> IsSpace(s[k])
  {
    if s != [] && IsSpace(s[|s| - 1]) then StripRight(s[..|s| - 1]) else s
  }

  /** `s.strip()`. */
  function Strip(s: string): string
  {
    StripRight(StripLeft(s))
  }

  /** The position of the first tab in `s`, if any. */
  function FirstTab(s: string): (r: Option<nat>)
    ensures r.Some? ==> r.value < |s| && s[r.value] == '\t'
    ensures r.Some? ==> forall m :: 0 <= m < r.value ==> s[m] != '\t'
    ensures r.None? ==> forall m :: 0 <= m < |s| ==> s[m] != '\t'
  {
    if s == [] then None
    else if s[0] == '\t' then Some(0)
    else
      var r := FirstTab(s[1..]);
      if r.None? then None else Some(r.value + 1)
  }

  /** `s.split('\t', 1)`: the text before the first tab and the text after
      it, or `s` alone when it holds no tab. */
  function SplitTab(s: string): (parts: seq<string>)
    ensures 1 <= |parts| <= 2
    ensures |parts| == 2 <==> FirstTab(s).Some?
  {
    var k := FirstTab(s);
    if k.None? then [s] else [s[..k.value], s[k.value + 1..]]
  }

  /** Where `readline` from `p` stops: just after the next line break, or
      at the end of the text. */
  function LineEnd(s: string, p: nat): (q: nat)
    requires p <= |s|
    ensures p <= q <= |s|
    ensures p < |s| ==> p < q && (q == |s| || s[q - 1] == '\n')
    ensures forall m :: p <= m < q - 1 ==> s[m] != '\n'
    decreases |s| - p
  {
    if p == |s| then p
    else if s[p] == '\n' then p + 1
    else LineEnd(s, p + 1)
  }

  /** `readline()` at offset `p`: empty at the end of the text. */
  function ReadLine(s: string, p: nat): string
    requires p <= |s|
  {
    s[p..LineEnd(s, p)]
  }

  /** What one line read at offset `p` adds to the seek table: its text
      before the first tab, mapped to `p`, when it holds a tab. */
  function Record(line: string, p: nat): map<string, nat>
  {
    var parts := SplitTab(line);
    if |parts| == 2 then map[parts[0] := p] else map[]
  }

  /** The table `_build_seek_index` builds reading the lines from `p` on,
      a later line overwriting an earlier one. */
  function SeekTable(s: string, p: nat): map<string, nat>
    requires p <= |s|
    decreases |s| - p
  {
    if p == |s| then map[]
    else
      var q := LineEnd(s, p);
      Record(s[p..q], p) + SeekTable(s, q)
  }

  /** Recording a line into a table is adding its record. */
  lemma {:induction false} RecordInto(m: map<string, nat>, line: string, p: nat)
    ensures |SplitTab(line)| == 2 ==> m[SplitTab(line)[0] := p] == m + Record(line, p)
    ensures |SplitTab(line)| != 2 ==> m == m + Record(line, p)
  {
  }

  /** Reading one line at `p` and then the rest. */
  lemma {:induction false} SeekTableUnfold(s: string, p: nat)
    requires p <= |s|
    ensures p < |s| ==> SeekTable(s, p) == Record(ReadLine(s, p), p) + SeekTable(s, LineEnd(s, p))
    ensures p == |s| ==> SeekTable(s, p) == map[]
  {
  }

  /** `p` is where a line begins: the start of the text or just after a
      line break. */
  predicate LineStart(s: string, p: nat)
  {
    p < |s| && (p == 0 || s[p - 1] == '\n')
  }

  /** Every term of the table maps to the start of a line at or after
      `p` whose text before its first tab is that term. */
  lemma {:induction false} SeekTableSound(s: string, p: nat)
    requires p <= |s| && (p == 0 || p == |s| || s[p - 1] == '\n')
    ensures forall t :: t in SeekTable(s, p) ==>
              var o := SeekTable(s, p)[t];
              p <= o && LineStart(s, o) && |SplitTab(ReadLine(s, o))| == 2 && SplitTab(ReadLine(s, o))[0] == t
    decreases |s| - p
  {
    if p < |s| {
      var q := LineEnd(s, p);
      var line, later := ReadLine(s, p), SeekTable(s, q);
      SeekTableSound(s, q);
      SeekTableUnfold(s, p);
      UnionValues(Record(line, p), later);
      forall t | t in SeekTable(s, p) && t !in later
        ensures SeekTable(s, p)[t] == p && SplitTab(line)[0] == t && |SplitTab(line)| == 2
      {
        assert t in Record(line, p);
      }
    }
  }

  /** Where a key of a union of two tables takes its value from. */
  lemma UnionValues(m: map<string, nat>, later: map<string, nat>)
    ensures forall u :: u in m + later <==> u in m || u in later
    ensures forall u :: u in later ==> (m + later)[u] == later[u]
    ensures forall u :: u in m && u !in later ==> (m + later)[u] == m[u]
  {
  }

  /** Every line at or after `p` that holds a tab has its term in the
      table, at that line or a later one. */
  lemma {:induction false} SeekTableComplete(s: string, p: nat, o: nat)
    requires p <= o && LineStart(s, o) && (p == 0 || s[p - 1] == '\n')
    requires |SplitTab(ReadLine(s, o))| == 2
    ensures SplitTab(ReadLine(s, o))[0] in SeekTable(s, p)
    ensures o <= SeekTable(s, p)[SplitTab(ReadLine(s, o))[0]]
    decreases |s| - p
  {
    var q := LineEnd(s, p);
    SeekTableSound(s, q);
    if o != p {
      assert q <= o;
      SeekTableComplete(s, q, o);
    }
  }

  // ---------------------------------------------------------------------
  // The master index written out

  /** `f"{term}\t{merged_str}\n"` (merge.py:86, merge.py:102). */
  function RenderLine(l: Line): string
  {
    l.term + "\t" + Encode(l.postings) + "\n"
  }

  /** The text of an index file holding `lines` in order. */
  function Render(lines: seq<Line>): string
  {
    if lines == [] then "" else RenderLine(lines[0]) + Render(lines[1..])
  }

  /** A term that survives the round trip through a line: not empty and no
      whitespace in it (every token the tokenizers produce is one). */
  predicate CleanTerm(t: string)
  {
    t != [] && forall k :: 0 <= k < |t| ==> !IsSpace(t[k])
  }

  predicate CleanTerms(lines: seq<Line>)
  {
    forall k :: 0 <= k < |lines| ==> CleanTerm(lines[k].term)
  }

  /** What `get_postings` does with the line at offset `o`: strip it,
      split it at its first tab (a `ValueError` when there is none) and
      decode the text after the tab. */
  function Fetch(s: string, o: nat): Result<seq<Entry>>
    requires o <= |s|
  {
    var parts := SplitTab(Strip(ReadLine(s, o)));
    if |parts| != 2 then Err(ValueError) else Decode(parts[1])
  }

  lemma {:induction false} LineEndShift(a: string, b: string, p: nat)
    requires p <= |b|
    ensures LineEnd(a + b, |a| + p) == |a| + LineEnd(b, p)
    decreases |b| - p
  {
    if p < |b| {
      assert (a + b)[|a| + p] == b[p];
      if b[p] != '\n' {
        LineEndShift(a, b, p + 1);
      }
    }
  }

  /** A text with no line break before its last character, which is one,
      is read as a single line. */
  lemma {:induction false} LineEndOfOneLine(a: string, rest: string, p: nat)
    requires p < |a| && a[|a| - 1] == '\n'
    requires forall m :: p <= m < |a| - 1 ==> a[m] != '\n'
    ensures LineEnd(a + rest, p) == |a|
    decreases |a| - p
  {
    assert (a + rest)[p] == a[p];
    if p < |a| - 1 {
      LineEndOfOneLine(a, rest, p + 1);
    }
  }

  /** A term without a tab, a tab and more text split back into the term
      and the text. */
  lemma {:induction false} SplitAfterTerm(t: string, rest: string)
    requires forall k :: 0 <= k < |t| ==> t[k] != '\t'
    ensures SplitTab(t + "\t" + rest) == [t, rest]
  {
    var s := t + "\t" + rest;
    assert s[|t|] == '\t';
    assert forall m :: 0 <= m < |t| ==> s[m] == t[m];
    assert FirstTab(s) == Some(|t|);
    assert s[..|t|] == t && s[|t| + 1..] == rest;
  }

  /** A written line has one line break, at its end. */
  lemma {:induction false} RenderLineBreaks(l: Line)
    requires CleanTerm(l.term)
    ensures var s := RenderLine(l);
            s[|s| - 1] == '\n' && forall m :: 0 <= m < |s| - 1 ==> s[m] != '\n'
  {
    var t, e := l.term, Encode(l.postings);
    var s := RenderLine(l);
    EncodeIsPlain(l.postings);
    forall m | 0 <= m < |s| - 1
      ensures s[m] != '\n'
    {
      if m < |t| {
        assert s[m] == t[m];
      } else if m > |t| {
        assert s[m] == e[m - |t| - 1];
      }
    }
  }

  /** `strip()` takes only the line break off a written line. */
  lemma {:induction false} StripRenderedLine(l: Line)
    requires CleanTerm(l.term)
    ensures Strip(RenderLine(l)) == l.term + "\t" + Encode(l.postings)
  {
    var t, e := l.term, Encode(l.postings);
    var body := t + "\t" + e;
    var s := RenderLine(l);
    EncodeIsPlain(l.postings);
    assert s[0] == t[0];
    assert StripLeft(s) == s;
    assert s[..|s| - 1] == body;
    assert StripRight(s) == StripRight(body);
    assert body[|body| - 1] == e[|e| - 1];
  }

  lemma {:induction false} RenderAppend(a: seq<Line>, b: seq<Line>)
    ensures Render(a + b) == Render(a) + Render(b)
    decreases |a|
  {
    if a == [] {
      assert a + b == b;
    } else {
      assert (a + b)[1..] == a[1..] + b;
      RenderAppend(a[1..], b);
    }
  }

  /** Where line `k` of a written index begins. */
  function LineOffset(lines: seq<Line>, k: nat): (o: nat)
    requires k <= |lines|
    ensures o <= |Render(lines)|
  {
    RenderPrefix(lines, k);
    |Render(lines[..k])|
  }

  /** The text of the first `k` lines is where the index starts. */
  lemma RenderPrefix(lines: seq<Line>, k: nat)
    requires k <= |lines|
    ensures Render(lines) == Render(lines[..k]) + Render(lines[k..])
  {
    Rejoin(lines, k);
    RenderAppend(lines[..k], lines[k..]);
  }

  lemma Rejoin(lines: seq<Line>, k: nat)
    requires k <= |lines|
    ensures lines[..k] + lines[k..] == lines
  {
  }

  /** The index is the lines before line `k`, line `k`, and the rest. */
  lemma {:induction false} RenderAt(lines: seq<Line>, k: nat)
    requires k < |lines|
    ensures Render(lines) == Render(lines[..k]) + (RenderLine(lines[k]) + Render(lines[k + 1..]))
    ensures LineOffset(lines, k + 1) == LineOffset(lines, k) + |RenderLine(lines[k])|
  {
    RenderPrefix(lines, k);
    RenderFrom(lines, k);
    RenderUpTo(lines, k);
  }

  lemma RenderFrom(lines: seq<Line>, k: nat)
    requires k < |lines|
    ensures Render(lines[k..]) == RenderLine(lines[k]) + Render(lines[k + 1..])
  {
    assert lines[k..][0] == lines[k] && lines[k..][1..] == lines[k + 1..];
  }

  lemma RenderUpTo(lines: seq<Line>, k: nat)
    requires k < |lines|
    ensures Render(lines[..k + 1]) == Render(lines[..k]) + RenderLine(lines[k])
  {
    var a := lines[..k];
    assert lines[..k + 1] == a + [lines[k]];
    RenderAppend(a, [lines[k]]);
    assert Render([lines[k]]) == RenderLine(lines[k]) + Render([]);
  }

  /** Reading the index at the offset of line `k` gives line `k`, and
      leaves the reader at the offset of the next line. */
  lemma {:induction false} ReadRenderedLine(lines: seq<Line>, k: nat)
    requires k < |lines| && CleanTerm(lines[k].term)
    ensures LineOffset(lines, k) < |Render(lines)|
    ensures LineEnd(Render(lines), LineOffset(lines, k)) == LineOffset(lines, k + 1)
    ensures ReadLine(Render(lines), LineOffset(lines, k)) == RenderLine(lines[k])
  {
    var pre, l, post := Render(lines[..k]), RenderLine(lines[k]), Render(lines[k + 1..]);
    RenderAt(lines, k);
    RenderLineBreaks(lines[k]);
    LineEndOfOneLine(l, post, 0);
    LineEndShift(pre, l + post, 0);
    assert (pre + (l + post))[|pre|..|pre| + |l|] == l;
  }

  /** Fetching at the offset of line `k` gives that line's postings. */
  lemma {:induction false} FetchRendered(lines: seq<Line>, k: nat)
    requires k < |lines| && CleanTerm(lines[k].term)
    ensures Fetch(Render(lines), LineOffset(lines, k)) == Ok(lines[k].postings)
  {
    var l := lines[k];
    ReadRenderedLine(lines, k);
    StripRenderedLine(l);
    SplitAfterTerm(l.term, Encode(l.postings));
    DecodeEncode(l.postings);
  }

  /** Reading line `k` of a written index records its term at its
      offset, before the lines after it are read. */
  lemma {:induction false} RenderTableStep(lines: seq<Line>, k: nat)
    requires k < |lines| && CleanTerm(lines[k].term)
    ensures SeekTable(Render(lines), LineOffset(lines, k))
         == map[lines[k].term := LineOffset(lines, k)] + SeekTable(Render(lines), LineOffset(lines, k + 1))
  {
    var l := lines[k];
    ReadRenderedLine(lines, k);
    assert RenderLine(l) == l.term + "\t" + (Encode(l.postings) + "\n");
    SplitAfterTerm(l.term, Encode(l.postings) + "\n");
  }

  lemma {:induction false} TermsFrom(lines: seq<Line>, k: nat)
    requires k < |lines|
    ensures Merge.Terms(lines[k..]) == {lines[k].term} + Merge.Terms(lines[k + 1..])
  {
    forall t | t in Merge.Terms(lines[k..])
      ensures t in {lines[k].term} + Merge.Terms(lines[k + 1..])
    {
      var j :| 0 <= j < |lines[k..]| && lines[k..][j].term == t;
      if j > 0 { assert lines[k + 1..][j - 1].term == t; }
    }
    assert lines[k..][0] == lines[k];
    forall t | t in Merge.Terms(lines[k + 1..])
      ensures t in Merge.Terms(lines[k..])
    {
      var j :| 0 <= j < |lines[k + 1..]| && lines[k + 1..][j].term == t;
      assert lines[k..][j + 1].term == t;
    }
  }

  /** In ascending lines, the term of line `k` has no line after it. */
  lemma {:induction false} TermNotLater(lines: seq<Line>, k: nat)
    requires k < |lines| && Merge.TermsAscending(lines)
    ensures lines[k].term !in Merge.Terms(lines[k + 1..])
    ensures forall j :: k < j < |lines| ==> lines[j].term != lines[k].term
  {
    LessIrreflexive(lines[k].term);
  }

  /** The seek table read from line `k` of a written index with ascending
      clean terms holds exactly the terms of lines `k..`, each at the
      offset of its line. */
  lemma {:induction false} RenderTableFrom(lines: seq<Line>, k: nat)
    requires k <= |lines| && CleanTerms(lines) && Merge.TermsAscending(lines)
    ensures SeekTable(Render(lines), LineOffset(lines, k)).Keys == Merge.Terms(lines[k..])
    ensures forall j :: k <= j < |lines| ==>
              SeekTable(Render(lines), LineOffset(lines, k))[lines[j].term] == LineOffset(lines, j)
    decreases |lines| - k
  {
    if k == |lines| {
      assert lines[..k] == lines;
      assert lines[k..] == [];
    } else {
      var s := Render(lines);
      var o, o' := LineOffset(lines, k), LineOffset(lines, k + 1);
      RenderTableStep(lines, k);
      RenderTableFrom(lines, k + 1);
      TermsFrom(lines, k);
      TermNotLater(lines, k);
      var later := SeekTable(s, o');
      AddFront(lines[k].term, o, later);
      forall j | k <= j < |lines|
        ensures SeekTable(s, o)[lines[j].term] == LineOffset(lines, j)
      {
        if j > k {
          assert lines[j].term in later;
        }
      }
    }
  }

  /** A term put in front of a table that does not hold it. */
  lemma AddFront(t: string, o: nat, later: map<string, nat>)
    requires t !in later
    ensures (map[t := o] + later).Keys == {t} + later.Keys
    ensures (map[t := o] + later)[t] == o
    ensures forall u :: u in later ==> (map[t := o] + later)[u] == later[u]
  {
  }

  /** The end-to-end lookup: in a written index with ascending clean terms,
      a term is in the seek table exactly when it has a line, and its
      recorded offset leads to that line's postings. */
  lemma {:induction false} LookupRendered(lines: seq<Line>, t: string)
    requires CleanTerms(lines) && Merge.TermsAscending(lines)
    ensures t in SeekTable(Render(lines), 0) <==> t in Merge.Terms(lines)
    ensures forall k :: 0 <= k < |lines| && lines[k].term == t ==>
              SeekTable(Render(lines), 0)[t] <= |Render(lines)| &&
              Fetch(Render(lines), SeekTable(Render(lines), 0)[t]) == Ok(lines[k].postings)
  {
    assert lines[..0] == [] && lines[0..] == lines;
    assert LineOffset(lines, 0) == 0;
    RenderTableFrom(lines, 0);
    forall k | 0 <= k < |lines| && lines[k].term == t
      ensures Fetch(Render(lines), SeekTable(Render(lines), 0)[t]) == Ok(lines[k].postings)
    {
      FetchRendered(lines, k);
    }
  }
}
