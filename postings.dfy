/** The records that flow through the indexing pipeline. */
module Postings {

  /** posting.py: one (document, term) pair of a partial index. The builder
      that fills `tfidf` stores a term count there; `url` defaults to "none". */
  datatype Posting = Posting(docid: int, tfidf: int, url: string)

  /** The two-element list `[docid, tfidf]` that partition files, the master
      index and query results carry in place of a `Posting`. */
  datatype Entry = Entry(docid: int, tfidf: int)

  /** One line of a partition file or of the master index, already split into
      its term and its decoded postings list. */
  datatype Line = Line(term: string, postings: seq<Entry>)

  /** The projection `[p.docid, p.tfidf]` of merge.py:40: the url is dropped. */
  function Project(p: Posting): Entry
  {
    Entry(p.docid, p.tfidf)
  }

  /** `[[p.docid, p.tfidf] for p in postings]`. */
  function ProjectAll(ps: seq<Posting>): (r: seq<Entry>)
    ensures |r| == |ps|
    ensures forall k :: 0 <= k < |ps| ==> r[k].docid == ps[k].docid && r[k].tfidf == ps[k].tfidf
  {
    seq(|ps|, k requires 0 <= k < |ps| => Project(ps[k]))
  }

  /** The sort key of `list.sort(key=lambda x: x[0])`. */
  function DocId(e: Entry): int
  {
    e.docid
  }

  /** Document ids non-decreasing, as `sort(key=lambda x: x[0])` leaves them. */
  ghost predicate DocIdsSorted(ps: seq<Entry>)
  {
    forall i, j :: 0 <= i < j < |ps| ==> ps[i].docid <= ps[j].docid
  }

  /** Document ids strictly increasing: sorted and without a repeated id. */
  ghost predicate DocIdsAscending(ps: seq<Entry>)
  {
    forall i, j :: 0 <= i < j < |ps| ==> ps[i].docid < ps[j].docid
  }

  /** The document ids a postings list mentions. */
  function DocIds(ps: seq<Entry>): (r: set<int>)
    ensures forall d :: d in r <==> exists k :: 0 <= k < |ps| && ps[k].docid == d
  {
    set k | 0 <= k < |ps| :: ps[k].docid
  }
}
