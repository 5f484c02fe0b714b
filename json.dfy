/** The text form of a postings list: what `json.dumps` writes for a list
    of `[docid, tfidf]` pairs of Python ints, and `json.loads` read back. The
    decoder accepts exactly the text the encoder produces (and leading zeros
    in a number); other JSON is a `DecodeError`. */
module PostingsJson {
  import opened Postings
  import opened Results

  predicate IsDigit(c: char)
  {
    '0' <= c <= '9'
  }

  function DigitChar(d: nat): (c: char)
    requires d < 10
    ensures IsDigit(c)
  {
    ('0' as int + d) as char
  }

  function DigitValue(c: char): (d: nat)
    requires IsDigit(c)
    ensures d < 10 && DigitChar(d) == c
  {
    (c as int - '0' as int) as nat
  }

  /** `str(n)` for a non-negative int: decimal, no leading zeros. */
  function NatText(n: nat): (s: string)
    ensures s != [] && forall k :: 0 <= k < |s| ==> IsDigit(s[k])
  {
    if n < 10 then [DigitChar(n)] else NatText(n / 10) + [DigitChar(n % 10)]
  }

  /** `str(n)` for any int. */
  function IntText(n: int): string
  {
    if n < 0 then "-" + NatText(-n) else NatText(n)
  }

  /** The text of one pair: `[d, t]`. */
  function EntryText(e: Entry): string
  {
    "[" + IntText(e.docid) + ", " + IntText(e.tfidf) + "]"
  }

  /** The pairs, separated by ", ". */
  function ItemsText(ps: seq<Entry>): string
  {
    if ps == [] then ""
    else if |ps| == 1 then EntryText(ps[0])
    else EntryText(ps[0]) + ", " + ItemsText(ps[1..])
  }

  /** `json.dumps(postings)`. */
  function Encode(ps: seq<Entry>): string
  {
    "[" + ItemsText(ps) + "]"
  }

  // ---------------------------------------------------------------------
  // Decoding

  /** The value of the digits `s`, appended to `acc`. */
  function DigitsValue(s: string, acc: nat): nat
    requires forall k :: 0 <= k < |s| ==> IsDigit(s[k])
  {
    if s == [] then acc else DigitsValue(s[1..], acc * 10 + DigitValue(s[0]))
  }

  /** The length of the run of digits at the front of `s`. */
  function DigitRun(s: string): (n: nat)
    ensures n <= |s| && forall k :: 0 <= k < n ==> IsDigit(s[k])
    ensures n < |s| ==> !IsDigit(s[n])
  {
    if s != [] && IsDigit(s[0]) then 1 + DigitRun(s[1..]) else 0
  }

  /** A number at the front of `s` and the text after it. */
  function ParseInt(s: string): Result<(int, string)>
  {
    var neg := s != [] && s[0] == '-';
    var body := if neg then s[1..] else s;
    var n := DigitRun(body);
    if n == 0 then Err(DecodeError)
    else
      var v: int := DigitsValue(body[..n], 0);
      Ok((if neg then -v else v, body[n..]))
  }

  /** `lit` at the front of `s`: the text after it. */
  function Expect(s: string, lit: string): Result<string>
  {
    if |lit| <= |s| && s[..|lit|] == lit then Ok(s[|lit|..]) else Err(DecodeError)
  }

  /** One `[d, t]` at the front of `s` and the text after it. */
  function ParseEntry(s: string): Result<(Entry, string)>
  {
    var r0 := Expect(s, "[");
    if r0.Err? then Err(DecodeError) else
    var r1 := ParseInt(r0.value);
    if r1.Err? then Err(DecodeError) else
    var r2 := Expect(r1.value.1, ", ");
    if r2.Err? then Err(DecodeError) else
    var r3 := ParseInt(r2.value);
    if r3.Err? then Err(DecodeError) else
    var r4 := Expect(r3.value.1, "]");
    if r4.Err? then Err(DecodeError) else
    Ok((Entry(r1.value.0, r3.value.0), r4.value))
  }

  /** The pairs of `s`, which must be the whole text between the brackets. */
  function ParseItems(s: string): Result<seq<Entry>>
    decreases |s|
  {
    if s == [] then Ok([])
    else
      var r := ParseEntry(s);
      if r.Err? then Err(DecodeError)
      else if r.value.1 == [] then Ok([r.value.0])
      else if |r.value.1| < |s| then
        var rest := Expect(r.value.1, ", ");
        if rest.Err? || rest.value == [] then Err(DecodeError)
        else
          var tail := ParseItems(rest.value);
          if tail.Err? then Err(DecodeError) else Ok([r.value.0] + tail.value)
      else Err(DecodeError)
  }

  /** `json.loads(s)` for a postings list. */
  function Decode(s: string): Result<seq<Entry>>
  {
    if 2 <= |s| && s[0] == '[' && s[|s| - 1] == ']' then ParseItems(s[1..|s| - 1])
    else Err(DecodeError)
  }

  // ---------------------------------------------------------------------
  // Round trip

  lemma {:induction false} DigitsValueAppend(a: string, b: string, acc: nat)
    requires forall k :: 0 <= k < |a| ==> IsDigit(a[k])
    requires forall k :: 0 <= k < |b| ==> IsDigit(b[k])
    ensures forall k :: 0 <= k < |a + b| ==> IsDigit((a + b)[k])
    ensures DigitsValue(a + b, acc) == DigitsValue(b, DigitsValue(a, acc))
    decreases |a|
  {
    if a != [] {
      assert (a + b)[0] == a[0];
      assert (a + b)[1..] == a[1..] + b;
      DigitsValueAppend(a[1..], b, acc * 10 + DigitValue(a[0]));
    } else {
      assert a + b == b;
    }
  }

  /** Reading back the digits of `n` gives `n`. */
  lemma {:induction false} NatTextValue(n: nat)
    ensures DigitsValue(NatText(n), 0) == n
    decreases n
  {
    if n >= 10 {
      NatTextValue(n / 10);
      DigitsValueAppend(NatText(n / 10), [DigitChar(n % 10)], 0);
    }
  }

  lemma {:induction false} DigitRunPrefix(a: string, b: string)
    requires forall k :: 0 <= k < |a| ==> IsDigit(a[k])
    requires b == [] || !IsDigit(b[0])
    ensures DigitRun(a + b) == |a|
    decreases |a|
  {
    if a != [] {
      assert (a + b)[1..] == a[1..] + b;
      DigitRunPrefix(a[1..], b);
    } else {
      assert a + b == b;
    }
  }

  /** Digits followed by anything that is not a digit: `DigitRun` stops
      at the end of the digits. */
  lemma {:induction false} DigitsFront(a: string, rest: string)
    requires a != [] && forall k :: 0 <= k < |a| ==> IsDigit(a[k])
    requires rest == [] || !IsDigit(rest[0])
    ensures DigitRun(a + rest) == |a| && (a + rest)[..|a|] == a && (a + rest)[|a|..] == rest
  {
    DigitRunPrefix(a, rest);
  }

  /** Unsigned digits read back as their value. */
  lemma {:induction false} ParseDigits(a: string, rest: string)
    requires a != [] && forall k :: 0 <= k < |a| ==> IsDigit(a[k])
    requires rest == [] || !IsDigit(rest[0])
    ensures ParseInt(a + rest) == Ok((DigitsValue(a, 0) as int, rest))
  {
    var body := a + rest;
    DigitsFront(a, rest);
    assert IsDigit(body[0]);
  }

  /** A minus sign and digits read back as the negated value. */
  lemma {:induction false} ParseMinusDigits(a: string, rest: string)
    requires a != [] && forall k :: 0 <= k < |a| ==> IsDigit(a[k])
    requires rest == [] || !IsDigit(rest[0])
    ensures ParseInt("-" + (a + rest)) == Ok((-(DigitsValue(a, 0) as int), rest))
  {
    var s := "-" + (a + rest);
    DigitsFront(a, rest);
    assert s[0] == '-' && s[1..] == a + rest;
  }

  lemma {:induction false} ParseNatText(n: int, rest: string)
    requires n >= 0
    requires rest == [] || !IsDigit(rest[0])
    ensures ParseInt(IntText(n) + rest) == Ok((n, rest))
  {
    NatTextValue(n);
    ParseDigits(NatText(n), rest);
  }

  lemma {:induction false} ParseNegText(n: int, rest: string)
    requires n < 0
    requires rest == [] || !IsDigit(rest[0])
    ensures ParseInt(IntText(n) + rest) == Ok((n, rest))
  {
    var a := NatText(-n);
    NatTextValue(-n);
    ParseMinusDigits(a, rest);
    Regroup("-", a, rest);
  }

  lemma Regroup(x: string, y: string, z: string)
    ensures (x + y) + z == x + (y + z)
  {
  }

  /** A number followed by anything that is not a digit reads back. */
  lemma {:induction false} ParseIntText(n: int, rest: string)
    requires rest == [] || !IsDigit(rest[0])
    ensures ParseInt(IntText(n) + rest) == Ok((n, rest))
  {
    if n < 0 {
      ParseNegText(n, rest);
    } else {
      ParseNatText(n, rest);
    }
  }

  lemma {:induction false} ExpectFront(lit: string, rest: string)
    ensures Expect(lit + rest, lit) == Ok(rest)
  {
    assert (lit + rest)[..|lit|] == lit;
  }

  /** One pair reads back, whatever follows it. */
  lemma {:induction false} ParseEntryText(e: Entry, rest: string)
    ensures ParseEntry(EntryText(e) + rest) == Ok((e, rest))
  {
    var d, t := IntText(e.docid), IntText(e.tfidf);
    var s4 := "]" + rest;
    var s3 := t + s4;
    var s2 := ", " + s3;
    var s1 := d + s2;
    EntryTextFront(e, rest);
    ExpectFront("[", s1);
    ParseIntText(e.docid, s2);
    ExpectFront(", ", s3);
    ParseIntText(e.tfidf, s4);
    ExpectFront("]", rest);
  }

  /** The text of a pair and what follows it, grouped from the right. */
  lemma EntryTextFront(e: Entry, rest: string)
    ensures EntryText(e) + rest
         == "[" + (IntText(e.docid) + (", " + (IntText(e.tfidf) + ("]" + rest))))
  {
    var d, t := IntText(e.docid), IntText(e.tfidf);
    Regroup((("[" + d) + ", ") + t, "]", rest);
    Regroup(("[" + d) + ", ", t, "]" + rest);
    Regroup("[" + d, ", ", t + ("]" + rest));
    Regroup("[", d, ", " + (t + ("]" + rest)));
  }

  lemma {:induction false} EntryTextNonEmpty(e: Entry)
    ensures |EntryText(e)| >= 6
  {
    assert |IntText(e.docid)| >= 1 && |IntText(e.tfidf)| >= 1;
  }

  /** A pair, a separator and more pairs read back as one more pair. */
  lemma {:induction false} ParseItemsCons(e: Entry, tail: string, ps: seq<Entry>)
    requires tail != [] && ParseItems(tail) == Ok(ps)
    ensures ParseItems(EntryText(e) + (", " + tail)) == Ok([e] + ps)
  {
    var s := EntryText(e) + (", " + tail);
    ParseEntryText(e, ", " + tail);
    EntryTextNonEmpty(e);
    ExpectFront(", ", tail);
    assert ParseEntry(s).value.1 == ", " + tail;
  }

  lemma {:induction false} ItemsTextNonEmpty(ps: seq<Entry>)
    requires ps != []
    ensures ItemsText(ps) != []
  {
    EntryTextNonEmpty(ps[0]);
  }

  lemma {:induction false} ParseItemsText(ps: seq<Entry>)
    ensures ParseItems(ItemsText(ps)) == Ok(ps)
    decreases |ps|
  {
    if |ps| == 1 {
      ParseEntryText(ps[0], []);
      assert EntryText(ps[0]) + [] == EntryText(ps[0]);
      EntryTextNonEmpty(ps[0]);
      assert ps == [ps[0]];
    } else if |ps| > 1 {
      var tail := ItemsText(ps[1..]);
      assert ItemsText(ps) == EntryText(ps[0]) + (", " + tail);
      ItemsTextNonEmpty(ps[1..]);
      ParseItemsText(ps[1..]);
      ParseItemsCons(ps[0], tail, ps[1..]);
      assert [ps[0]] + ps[1..] == ps;
    }
  }

  /** `json.loads(json.dumps(ps)) == ps`. */
  lemma {:induction false} DecodeEncode(ps: seq<Entry>)
    ensures Decode(Encode(ps)) == Ok(ps)
  {
    ParseItemsText(ps);
    assert Encode(ps)[1..|Encode(ps)| - 1] == ItemsText(ps);
  }

  /** `s` holds no line break and no tab. */
  predicate Plain(s: string)
  {
    forall k :: 0 <= k < |s| ==> s[k] != '\n' && s[k] != '\t'
  }

  lemma {:induction false} PlainConcat(a: string, b: string)
    requires Plain(a) && Plain(b)
    ensures Plain(a + b)
  {
    forall k | 0 <= k < |a + b|
      ensures (a + b)[k] != '\n' && (a + b)[k] != '\t'
    {
      if k < |a| { assert (a + b)[k] == a[k]; } else { assert (a + b)[k] == b[k - |a|]; }
    }
  }

  lemma {:induction false} EntryPlain(e: Entry)
    ensures Plain(EntryText(e))
  {
    var d, t := IntText(e.docid), IntText(e.tfidf);
    assert Plain(d) && Plain(t);
    PlainConcat("[", d);
    PlainConcat("[" + d, ", ");
    PlainConcat("[" + d + ", ", t);
    PlainConcat("[" + d + ", " + t, "]");
  }

  lemma {:induction false} ItemsPlain(ps: seq<Entry>)
    ensures Plain(ItemsText(ps))
    decreases |ps|
  {
    if |ps| == 1 {
      EntryPlain(ps[0]);
    } else if |ps| > 1 {
      EntryPlain(ps[0]);
      ItemsPlain(ps[1..]);
      PlainConcat(EntryText(ps[0]), ", ");
      PlainConcat(EntryText(ps[0]) + ", ", ItemsText(ps[1..]));
    }
  }

  /** The encoding is bracketed and holds no line break or tab, so a line
      can carry it after a tab. */
  lemma {:induction false} EncodeIsPlain(ps: seq<Entry>)
    ensures var s := Encode(ps);
            2 <= |s| && s[0] == '[' && s[|s| - 1] == ']' && Plain(s)
  {
    ItemsPlain(ps);
    PlainConcat("[", ItemsText(ps));
    PlainConcat("[" + ItemsText(ps), "]");
  }
}
