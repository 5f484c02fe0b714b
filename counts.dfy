/** A Python `dict` from words to counts, kept as its items in insertion
    order (the order `dict.items()` gives back), and the word count that
    both frequency functions build in one. */
module Counts {
  import opened Results

  /** The items of a dict, in insertion order. */
  type Items = seq<(string, int)>

  /** No key twice. */
  ghost predicate Distinct(d: Items)
  {
    forall i, j :: 0 <= i < j < |d| ==> d[i].0 != d[j].0
  }

  /** The keys, in insertion order. */
  function Keys(d: Items): (ks: seq<string>)
    ensures |ks| == |d| && forall i :: 0 <= i < |d| ==> ks[i] == d[i].0
  {
    seq(|d|, i requires 0 <= i < |d| => d[i].0)
  }

  /** Where key `k` is stored, if anywhere. */
  function IndexOf(d: Items, k: string): (r: Option<nat>)
    ensures r.Some? ==> r.value < |d| && d[r.value].0 == k
    ensures r.None? ==> forall i :: 0 <= i < |d| ==> d[i].0 != k
  {
    if d == [] then None
    else if d[0].0 == k then Some(0)
    else match IndexOf(d[1..], k)
      case Some(i) => Some(i + 1)
      case None => None
  }

  /** `d[k]` if `k in d`. */
  function Get(d: Items, k: string): Option<int>
  {
    match IndexOf(d, k)
    case Some(i) => Some(d[i].1)
    case None => None
  }

  /** `d[k] = v`: the value replaced where the key stands, or a new item at
      the end. */
  function Put(d: Items, k: string, v: int): Items
  {
    match IndexOf(d, k)
    case Some(i) => d[i := (k, v)]
    case None => d + [(k, v)]
  }

  /** The sum of the values. */
  function Total(d: Items): int
  {
    if d == [] then 0 else d[0].1 + Total(d[1..])
  }

  /** In a dict without repeated keys, `Get` answers for the item holding
      the key. */
  lemma GetAt(d: Items, i: nat)
    requires Distinct(d) && i < |d|
    ensures Get(d, d[i].0) == Some(d[i].1)
  {
  }

  /** `d[k] = v` stores `v` under `k`, changes no other key, keeps the
      keys distinct and adds `k` at the end when it is new. */
  lemma PutFacts(d: Items, k: string, v: int)
    requires Distinct(d)
    ensures Distinct(Put(d, k, v))
    ensures Get(Put(d, k, v), k) == Some(v)
    ensures forall k' :: k' != k ==> Get(Put(d, k, v), k') == Get(d, k')
    ensures Keys(Put(d, k, v)) == if Get(d, k).Some? then Keys(d) else Keys(d) + [k]
    ensures Total(Put(d, k, v)) == Total(d) + v - (if Get(d, k).Some? then Get(d, k).value else 0)
  {
    var r := Put(d, k, v);
    match IndexOf(d, k)
    case Some(i) =>
      GetAt(r, i);
      forall k' | k' != k ensures Get(r, k') == Get(d, k') {
        match IndexOf(d, k')
        case Some(j) => GetAt(r, j);
        case None =>
      }
      TotalUpdate(d, i, (k, v));
    case None =>
      GetAt(r, |d|);
      forall k' | k' != k ensures Get(r, k') == Get(d, k') {
        match IndexOf(d, k')
        case Some(j) => GetAt(r, j);
        case None =>
      }
      TotalAppend(d, [(k, v)]);
  }

  lemma {:induction false} TotalAppend(a: Items, b: Items)
    ensures Total(a + b) == Total(a) + Total(b)
    decreases |a|
  {
    if a == [] {
      assert a + b == b;
    } else {
      assert (a + b)[0] == a[0] && (a + b)[1..] == a[1..] + b;
      TotalAppend(a[1..], b);
    }
  }

  lemma {:induction false} TotalUpdate(d: Items, i: nat, x: (string, int))
    requires i < |d|
    ensures Total(d[i := x]) == Total(d) - d[i].1 + x.1
  {
    assert d == d[..i] + [d[i]] + d[i + 1..];
    assert d[i := x] == d[..i] + [x] + d[i + 1..];
    TotalAppend(d[..i] + [d[i]], d[i + 1..]);
    TotalAppend(d[..i], [d[i]]);
    TotalAppend(d[..i] + [x], d[i + 1..]);
    TotalAppend(d[..i], [x]);
  }

  // ---------------------------------------------------------------------
  // Counting words

  /** `if w in d: d[w] += 1 else: d[w] = 1`. */
  function Bump(d: Items, w: string): Items
  {
    match Get(d, w)
    case Some(n) => Put(d, w, n + 1)
    case None => Put(d, w, 1)
  }

  /** The dict that counting `words` one after the other builds. */
  function Frequencies(words: seq<string>): Items
  {
    if words == [] then [] else Bump(Frequencies(words[..|words| - 1]), words[|words| - 1])
  }

  /** How many of `words` are `w`. */
  function Count(words: seq<string>, w: string): nat
  {
    if words == [] then 0
    else Count(words[..|words| - 1], w) + (if words[|words| - 1] == w then 1 else 0)
  }

  /** The distinct words, in the order each first appears. */
  function FirstOccurrences(words: seq<string>): seq<string>
  {
    if words == [] then []
    else
      var p := FirstOccurrences(words[..|words| - 1]);
      if words[|words| - 1] in p then p else p + [words[|words| - 1]]
  }

  /** A key is present exactly when `Get` finds it. */
  lemma InKeys(d: Items, k: string)
    ensures k in Keys(d) <==> Get(d, k).Some?
  {
    if k in Keys(d) {
      var i :| 0 <= i < |d| && Keys(d)[i] == k;
    }
  }

  /** Counting one more word keeps the keys distinct, adds the word at the
      end when it is new, and adds one to the total. */
  lemma BumpFacts(d: Items, w: string)
    requires Distinct(d)
    ensures Distinct(Bump(d, w))
    ensures Keys(Bump(d, w)) == if w in Keys(d) then Keys(d) else Keys(d) + [w]
    ensures Total(Bump(d, w)) == Total(d) + 1
  {
    InKeys(d, w);
    match Get(d, w)
    case Some(n) => PutFacts(d, w, n + 1);
    case None => PutFacts(d, w, 1);
  }

  /** Counting `w` adds one to its count (from nothing to one when it is
      new) and leaves the count of every other key `k` as it was. */
  lemma BumpAt(d: Items, w: string, k: string)
    requires Distinct(d)
    ensures Get(Bump(d, w), k) == if k == w then Some(if Get(d, w).Some? then Get(d, w).value + 1 else 1) else Get(d, k)
  {
    match Get(d, w)
    case Some(n) => PutFacts(d, w, n + 1);
    case None => PutFacts(d, w, 1);
  }

  /** The counted dict has one key per distinct word, in first-appearance
      order; each key's value is the number of times it occurs, at least
      one; and the values add up to the number of words. */
  lemma {:induction false} FrequenciesCount(words: seq<string>)
    ensures Distinct(Frequencies(words))
    ensures Keys(Frequencies(words)) == FirstOccurrences(words)
    ensures forall k :: Get(Frequencies(words), k) == if Count(words, k) == 0 then None else Some(Count(words, k))
    ensures Total(Frequencies(words)) == |words|
    decreases |words|
  {
    if words != [] {
      var front, w := words[..|words| - 1], words[|words| - 1];
      var d := Frequencies(front);
      FrequenciesCount(front);
      BumpFacts(d, w);
      assert Frequencies(words) == Bump(d, w);
      forall k ensures Get(Frequencies(words), k) == if Count(words, k) == 0 then None else Some(Count(words, k)) {
        CountAt(words, k);
      }
    }
  }

  /** The count of one word `k` after counting the last of `words`. */
  lemma CountAt(words: seq<string>, k: string)
    requires words != [] && Distinct(Frequencies(words[..|words| - 1]))
    requires var front := words[..|words| - 1];
             Get(Frequencies(front), k) == if Count(front, k) == 0 then None else Some(Count(front, k))
    ensures Get(Frequencies(words), k) == if Count(words, k) == 0 then None else Some(Count(words, k))
  {
    var front, w := words[..|words| - 1], words[|words| - 1];
    BumpAt(Frequencies(front), w, k);
    assert Count(words, k) == Count(front, k) + (if w == k then 1 else 0);
  }

  /** Every value of the counted dict is at least one. */
  lemma CountsPositive(words: seq<string>)
    ensures forall i :: 0 <= i < |Frequencies(words)| ==> Frequencies(words)[i].1 >= 1
  {
    var d := Frequencies(words);
    FrequenciesCount(words);
    forall i | 0 <= i < |d| ensures d[i].1 >= 1 {
      GetAt(d, i);
    }
  }
}
