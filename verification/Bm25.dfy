/** The BM25 keyword index.  Documents are given as token lists; the logarithm in
    the inverse document frequency is an arbitrary function. */
module Bm25 {
  import opened Sorting
  import opened VectorSearch

  type Posting = (nat, nat)
  type Document = seq<string>

  const K1 := 1.2
  const B := 0.75

  // ---- The naive view of a collection ------------------------------------------

  function Count(doc: Document, t: string): nat {
    if doc == [] then 0 else Count(doc[..|doc| - 1], t) + if doc[|doc| - 1] == t then 1 else 0
  }

  lemma {:induction false} CountPositive(doc: Document, t: string)
    ensures Count(doc, t) > 0 <==> t in doc
  {
    if doc != [] {
      CountPositive(doc[..|doc| - 1], t);
      assert doc == doc[..|doc| - 1] + [doc[|doc| - 1]];
    }
  }

  /** Live documents below `n` containing `t`, with the number of occurrences. */
  function Postings(docs: seq<Document>, tombstones: seq<nat>, t: string, n: nat): seq<Posting>
    requires n <= |docs|
  {
    if n == 0 then []
    else
      var before := Postings(docs, tombstones, t, n - 1);
      if Live(tombstones, n - 1) && t in docs[n - 1] then before + [(n - 1, Count(docs[n - 1], t))] else before
  }

  /** Strictly increasing documents; exactly the live ones containing `t`; correct counts. */
  ghost predicate PostingsExact(ps: seq<Posting>, docs: seq<Document>, tombstones: seq<nat>, t: string, n: nat)
    requires n <= |docs|
  {
    && (forall i, j :: 0 <= i < j < |ps| ==> ps[i].0 < ps[j].0)
    && (forall i :: 0 <= i < |ps| ==>
          ps[i].0 < n && Live(tombstones, ps[i].0) && t in docs[ps[i].0] && ps[i].1 == Count(docs[ps[i].0], t) > 0)
    && (forall d: nat :: d < n && Live(tombstones, d) && t in docs[d] ==> (d, Count(docs[d], t)) in ps)
  }

  lemma {:induction false} PostingsAreExact(docs: seq<Document>, tombstones: seq<nat>, t: string, n: nat)
    requires n <= |docs|
    ensures PostingsExact(Postings(docs, tombstones, t, n), docs, tombstones, t, n)
  {
    hide Live, Count;
    if n > 0 {
      PostingsAreExact(docs, tombstones, t, n - 1);
      CountPositive(docs[n - 1], t);
      var before, after := Postings(docs, tombstones, t, n - 1), Postings(docs, tombstones, t, n);
      var listed := Live(tombstones, n - 1) && t in docs[n - 1];
      assert after == if listed then before + [(n - 1, Count(docs[n - 1], t))] else before;
      hide Postings;
    }
  }

  function TokenSet(doc: Document): set<string> { set t | t in doc }

  ghost function Vocabulary(docs: seq<Document>, tombstones: seq<nat>, n: nat): set<string>
    requires n <= |docs|
  {
    if n == 0 then {}
    else Vocabulary(docs, tombstones, n - 1) + if Live(tombstones, n - 1) then TokenSet(docs[n - 1]) else {}
  }

  lemma {:induction false} VocabularyExact(docs: seq<Document>, tombstones: seq<nat>, t: string, n: nat)
    requires n <= |docs|
    ensures t in Vocabulary(docs, tombstones, n) <==> Postings(docs, tombstones, t, n) != []
  {
    if n > 0 { VocabularyExact(docs, tombstones, t, n - 1); }
  }

  function LiveCount(docs: seq<Document>, tombstones: seq<nat>, n: nat): nat
    requires n <= |docs|
  {
    if n == 0 then 0 else LiveCount(docs, tombstones, n - 1) + if Live(tombstones, n - 1) then 1 else 0
  }

  function TotalLength(docs: seq<Document>, tombstones: seq<nat>, n: nat): nat
    requires n <= |docs|
  {
    if n == 0 then 0 else TotalLength(docs, tombstones, n - 1) + if Live(tombstones, n - 1) then |docs[n - 1]| else 0
  }

  function AverageLength(docs: seq<Document>, tombstones: seq<nat>): real {
    var count := LiveCount(docs, tombstones, |docs|);
    if count > 0 then TotalLength(docs, tombstones, |docs|) as real / count as real else 0.0
  }

  lemma {:induction false} LiveTokenCounts(docs: seq<Document>, tombstones: seq<nat>, d: nat, n: nat)
    requires d < n <= |docs| && Live(tombstones, d) && docs[d] != []
    ensures LiveCount(docs, tombstones, n) > 0 && TotalLength(docs, tombstones, n) > 0
  {
    if d < n - 1 { LiveTokenCounts(docs, tombstones, d, n - 1); }
  }

  lemma RatioPositive(x: nat, y: nat)
    requires x > 0 && y > 0
    ensures x as real / y as real > 0.0
  {
  }

  /** The average length is positive wherever the search divides by it. */
  lemma AveragePositive(docs: seq<Document>, tombstones: seq<nat>, d: nat)
    requires d < |docs| && Live(tombstones, d) && docs[d] != []
    ensures AverageLength(docs, tombstones) > 0.0
  {
    LiveTokenCounts(docs, tombstones, d, |docs|);
    RatioPositive(TotalLength(docs, tombstones, |docs|), LiveCount(docs, tombstones, |docs|));
  }

  function Idf(ln: real -> real, numDocs: nat, df: nat): real {
    ln((numDocs as real - df as real + 0.5) / (df as real + 0.5) + 1.0)
  }

  lemma LengthNormPositive(dl: nat, avg: real)
    requires avg > 0.0
    ensures K1 * (1.0 - B + B * dl as real / avg) > 0.0
  {
    assert B * dl as real / avg >= 0.0;
  }

  function TermFrequencyScore(freq: nat, dl: nat, avg: real): real
    requires freq > 0 && avg > 0.0
  {
    LengthNormPositive(dl, avg);
    freq as real * (K1 + 1.0) / (freq as real + K1 * (1.0 - B + B * dl as real / avg))
  }

  lemma DivideOrders(a: real, b: real, c: real, d: real)
    requires b > 0.0 && d > 0.0
    ensures a / b < c / d <==> a * d < c * b
  {
    var x, y := a / b, c / d;
    assert x * b == a && y * d == c;
    var p := b * d;
    assert p > 0.0;
    assert a * d == x * p && c * b == y * p;
    if x < y {
      assert x * p < y * p;
    } else {
      assert x * p >= y * p;
    }
  }

  ghost predicate StrictlyIncreasing(ln: real -> real) { forall x, y :: 0.0 < x < y ==> ln(x) < ln(y) }

  /** A rarer term weighs more, and every term weighs something. */
  lemma IdfOrders(ln: real -> real, numDocs: nat, df: nat, df': nat)
    requires StrictlyIncreasing(ln) && df < df' <= numDocs
    ensures Idf(ln, numDocs, df) > Idf(ln, numDocs, df')
    ensures ln(1.0) == 0.0 ==> Idf(ln, numDocs, df') > 0.0
  {
    var n, a, b := numDocs as real, df as real, df' as real;
    DivideOrders(n - b + 0.5, b + 0.5, n - a + 0.5, a + 0.5);
    assert (n - b + 0.5) * (a + 0.5) < (n - a + 0.5) * (b + 0.5) by {
      assert (n - a + 0.5) * (b + 0.5) - (n - b + 0.5) * (a + 0.5) == (n + 1.0) * (b - a);
    }
    DivideOrders(0.0, 1.0, n - b + 0.5, b + 0.5);
  }

  lemma Saturates(f: real, n: real, c: real)
    requires f > 0.0 && n > 0.0 && c > 0.0
    ensures f * c / (f + n) < (f + 1.0) * c / (f + 1.0 + n)
    ensures f * c / (f + n) < c
  {
    DivideOrders(f * c, f + n, (f + 1.0) * c, f + 1.0 + n);
    DivideOrders(f * c, f + n, c, 1.0);
    Expand(f, n, c);
    assert c * n > 0.0;
  }

  lemma Expand(f: real, n: real, c: real)
    ensures (f + 1.0) * c * (f + n) - f * c * (f + 1.0 + n) == c * n
    ensures c * (f + n) - f * c == c * n
  {
    var p, q := f * c, c * n;
    assert (f + 1.0) * c == p + c;
    assert p * (f + 1.0 + n) == p * (f + n) + p;
    assert (p + c) * (f + n) == p * (f + n) + c * (f + n);
    assert c * (f + n) == c * f + c * n;
  }

  lemma Shrinks(x: real, m: real, n: real)
    requires x > 0.0 && 0.0 < m < n
    ensures x / n < x / m
  {
    DivideOrders(x, n, x, m);
    assert x * m < x * n;
  }

  /** The term frequency's part: it grows with the occurrences, up to a limit, shrinks with the length of the
      document, and is one for one occurrence in a document of average length. */
  lemma TermFrequencyOrders(freq: nat, dl: nat, avg: real)
    requires freq > 0 && avg > 0.0
    ensures TermFrequencyScore(freq, dl, avg) < TermFrequencyScore(freq + 1, dl, avg)
    ensures TermFrequencyScore(freq, dl, avg) < K1 + 1.0
    ensures TermFrequencyScore(freq, dl + 1, avg) < TermFrequencyScore(freq, dl, avg)
    ensures dl as real == avg ==> TermFrequencyScore(1, dl, avg) == 1.0
  {
    hide LengthNorm, TermFrequencyScore;
    var f, c := freq as real, K1 + 1.0;
    ScoreByNorm(freq, dl, avg);
    ScoreByNorm(freq + 1, dl, avg);
    ScoreByNorm(freq, dl + 1, avg);
    ScoreByNorm(1, dl, avg);
    LengthNormGrows(dl, avg);
    Saturates(f, LengthNorm(dl, avg), c);
    Shrinks(f * c, f + LengthNorm(dl, avg), f + LengthNorm(dl + 1, avg));
    if dl as real == avg {
      AverageNorm(dl, avg);
    }
  }

  lemma ScoreByNorm(freq: nat, dl: nat, avg: real)
    requires freq > 0 && avg > 0.0
    ensures LengthNorm(dl, avg) > 0.0
    ensures TermFrequencyScore(freq, dl, avg) == freq as real * (K1 + 1.0) / (freq as real + LengthNorm(dl, avg))
  {
    LengthNormPositive(dl, avg);
  }

  lemma AverageNorm(dl: nat, avg: real)
    requires avg > 0.0 && dl as real == avg
    ensures LengthNorm(dl, avg) == K1
  {
    assert B * avg / avg == B;
  }

  /** The denominator's share of the document's length. */
  function LengthNorm(dl: nat, avg: real): real
    requires avg > 0.0
  {
    K1 * (1.0 - B + B * dl as real / avg)
  }

  lemma LengthNormGrows(dl: nat, avg: real)
    requires avg > 0.0
    ensures LengthNorm(dl, avg) < LengthNorm(dl + 1, avg)
  {
    DivideOrders(B * dl as real, avg, B * (dl + 1) as real, avg);
    assert B * dl as real * avg < B * (dl + 1) as real * avg;
  }

  /** What one query token adds to a document's score. */
  function TokenScore(ln: real -> real, docs: seq<Document>, tombstones: seq<nat>, t: string, d: nat): real
    requires d < |docs| && Live(tombstones, d)
  {
    if t in docs[d] then
      AveragePositive(docs, tombstones, d);
      CountPositive(docs[d], t);
      Idf(ln, LiveCount(docs, tombstones, |docs|), |Postings(docs, tombstones, t, |docs|)|)
        * TermFrequencyScore(Count(docs[d], t), |docs[d]|, AverageLength(docs, tombstones))
    else 0.0
  }

  function NaiveScore(ln: real -> real, docs: seq<Document>, tombstones: seq<nat>, query: seq<string>, d: nat): real
    requires d < |docs| && Live(tombstones, d)
  {
    if query == [] then 0.0
    else
      NaiveScore(ln, docs, tombstones, query[..|query| - 1], d) +
      TokenScore(ln, docs, tombstones, query[|query| - 1], d)
  }

  // ---- What the scores are made of ----------------------------------------------------

  lemma {:induction false} CountIsMultiplicity(doc: Document, t: string)
    ensures Count(doc, t) == multiset(doc)[t]
  {
    if doc != [] {
      var before, last := doc[..|doc| - 1], doc[|doc| - 1];
      CountIsMultiplicity(before, t);
      assert doc == before + [last];
    }
  }

  ghost function LiveIds(tombstones: seq<nat>, n: nat): set<nat> { set d: nat | d < n && Live(tombstones, d) }

  /** The live documents that contain `t`. */
  ghost function IdsWith(docs: seq<Document>, tombstones: seq<nat>, t: string, n: nat): set<nat>
    requires n <= |docs|
  {
    set d: nat | d < n && Live(tombstones, d) && t in docs[d]
  }

  lemma SizeGrows(small: set<nat>, large: set<nat>, x: nat, grows: bool)
    requires x !in small && forall y :: y in large <==> y in small || (grows && y == x)
    ensures |large| == |small| + if grows then 1 else 0
  {
    assert large == if grows then small + {x} else small;
  }

  lemma {:induction false} LiveCountIsSize(docs: seq<Document>, tombstones: seq<nat>, n: nat)
    requires n <= |docs|
    ensures LiveCount(docs, tombstones, n) == |LiveIds(tombstones, n)|
  {
    hide Live;
    if n > 0 {
      LiveCountIsSize(docs, tombstones, n - 1);
      SizeGrows(LiveIds(tombstones, n - 1), LiveIds(tombstones, n), n - 1, Live(tombstones, n - 1));
    }
  }

  lemma {:induction false} PostingsSize(docs: seq<Document>, tombstones: seq<nat>, t: string, n: nat)
    requires n <= |docs|
    ensures |Postings(docs, tombstones, t, n)| == |IdsWith(docs, tombstones, t, n)|
  {
    hide Live, Count;
    if n > 0 {
      PostingsSize(docs, tombstones, t, n - 1);
      SizeGrows(IdsWith(docs, tombstones, t, n - 1), IdsWith(docs, tombstones, t, n), n - 1,
                Live(tombstones, n - 1) && t in docs[n - 1]);
    }
  }

  lemma SameLogarithm(ln: real -> real, x: real, y: real)
    requires x == y
    ensures ln(x) == ln(y)
  {
  }

  /** The inverse document frequency in closed form. */
  lemma IdfClosedForm(ln: real -> real, numDocs: nat, df: nat)
    ensures Idf(ln, numDocs, df) == ln((numDocs as real + 1.0) / (df as real + 0.5))
  {
    var n, a := numDocs as real, df as real + 0.5;
    var x, y := (n - df as real + 0.5) / a, (n + 1.0) / a;
    assert x * a == n - df as real + 0.5 && y * a == n + 1.0;
    OneMore(x, a);
    SameQuotient(x + 1.0, y, a);
    SameLogarithm(ln, (n - df as real + 0.5) / (df as real + 0.5) + 1.0, (n + 1.0) / (df as real + 0.5));
  }

  lemma OneMore(x: real, a: real)
    ensures (x + 1.0) * a == x * a + a
  {
  }

  lemma SameQuotient(x: real, y: real, a: real)
    requires a > 0.0 && x * a == y * a
    ensures x == y
  {
  }

  /** The BM25 formula: `live` live documents, `holders` of them with the token, which stands `f` times in this
      one. A token that is not in the document adds nothing. */
  lemma TokenScoreIsBm25(ln: real -> real, docs: seq<Document>, tombstones: seq<nat>, t: string, d: nat)
    requires d < |docs| && Live(tombstones, d)
    ensures t !in docs[d] ==> TokenScore(ln, docs, tombstones, t, d) == 0.0
    ensures t in docs[d] ==> AverageLength(docs, tombstones) > 0.0
    ensures t in docs[d] ==> multiset(docs[d])[t] > 0
    ensures t in docs[d] ==>
      var live, holders := |LiveIds(tombstones, |docs|)|, |IdsWith(docs, tombstones, t, |docs|)|;
      TokenScore(ln, docs, tombstones, t, d) == ln((live as real + 1.0) / (holders as real + 0.5))
        * TermFrequencyScore(multiset(docs[d])[t], |docs[d]|, AverageLength(docs, tombstones))
  {
    hide TermFrequencyScore, Idf, LiveIds, IdsWith;
    if t in docs[d] {
      AveragePositive(docs, tombstones, d);
      CountIsMultiplicity(docs[d], t);
      CountPositive(docs[d], t);
      LiveCountIsSize(docs, tombstones, |docs|);
      PostingsSize(docs, tombstones, t, |docs|);
      IdfClosedForm(ln, LiveCount(docs, tombstones, |docs|), |Postings(docs, tombstones, t, |docs|)|);
    }
  }

  /** A query scores as its parts together, so the order of its tokens does not matter. */
  lemma {:induction false} ScoreAdds(ln: real -> real, docs: seq<Document>, tombstones: seq<nat>, p: seq<string>,
                                     q: seq<string>, d: nat)
    requires d < |docs| && Live(tombstones, d)
    ensures NaiveScore(ln, docs, tombstones, p + q, d)
         == NaiveScore(ln, docs, tombstones, p, d) + NaiveScore(ln, docs, tombstones, q, d)
  {
    hide TokenScore;
    if q == [] {
      assert p + q == p;
    } else {
      assert (p + q)[..|p + q| - 1] == p + q[..|q| - 1];
      ScoreAdds(ln, docs, tombstones, p, q[..|q| - 1], d);
    }
  }

  predicate Matches(docs: seq<Document>, tombstones: seq<nat>, query: seq<string>, d: nat) {
    d < |docs| && Live(tombstones, d) && exists t :: t in query && t in docs[d]
  }

  /** The scan of all documents: those sharing a token with the query, with their scores. */
  function NaiveHits(ln: real -> real, docs: seq<Document>, tombstones: seq<nat>, query: seq<string>,
                     n: nat): seq<Scored>
    requires n <= |docs|
  {
    if n == 0 then []
    else
      var before := NaiveHits(ln, docs, tombstones, query, n - 1);
      if Matches(docs, tombstones, query, n - 1)
      then before + [(n - 1, NaiveScore(ln, docs, tombstones, query, n - 1))] else before
  }

  lemma {:induction false} NaiveHitsExact(ln: real -> real, docs: seq<Document>, tombstones: seq<nat>,
                                          query: seq<string>, n: nat)
    requires n <= |docs|
    ensures var h := NaiveHits(ln, docs, tombstones, query, n);
      (forall p: Scored :: p in h <==> p.0 < n && Matches(docs, tombstones, query, p.0) &&
                                       p.1 == NaiveScore(ln, docs, tombstones, query, p.0)) &&
      DistinctIndices(h)
  {
    hide NaiveScore;
    if n > 0 {
      NaiveHitsExact(ln, docs, tombstones, query, n - 1);
      var before, after := NaiveHits(ln, docs, tombstones, query, n - 1), NaiveHits(ln, docs, tombstones, query, n);
      if Matches(docs, tombstones, query, n - 1) {
        assert after == before + [(n - 1, NaiveScore(ln, docs, tombstones, query, n - 1))];
        hide NaiveHits;
        forall i | 0 <= i < |before|
          ensures before[i].0 != n - 1
        {
          assert before[i] in before;
        }
      }
    }
  }

  // ---- The index ------------------------------------------------------------------

  function DocKey(p: Posting): real { p.0 as real }

  method TermFrequencies(doc: Document) returns (freqs: map<string, nat>)
    ensures freqs.Keys == TokenSet(doc)
    ensures forall t :: t in freqs ==> freqs[t] == Count(doc, t)
  {
    freqs := map[];
    for i := 0 to |doc|
      invariant freqs.Keys == TokenSet(doc[..i])
      invariant forall t :: t in freqs ==> freqs[t] == Count(doc[..i], t)
    {
      var t := doc[i];
      CountPositive(doc[..i], t);
      assert doc[..i + 1][..i] == doc[..i];
      assert doc[..i + 1] == doc[..i] + [t];
      freqs := freqs[t := (if t in freqs then freqs[t] else 0) + 1];
    }
    assert doc[..|doc|] == doc;
  }

  function ListOf(inverted: map<string, seq<Posting>>, t: string): seq<Posting> {
    if t in inverted then inverted[t] else []
  }

  /** `inverted` is `before` with document `i` added to the lists of `terms`. */
  ghost predicate Extended(before: map<string, seq<Posting>>, inverted: map<string, seq<Posting>>, i: nat,
                           freqs: map<string, nat>, terms: set<string>)
    requires terms <= freqs.Keys
  {
    inverted.Keys == before.Keys + terms &&
    forall t :: t in inverted ==> inverted[t] == ListOf(before, t) + if t in terms then [(i, freqs[t])] else []
  }

  lemma ExtendedByOne(before: map<string, seq<Posting>>, inverted: map<string, seq<Posting>>, i: nat,
                      freqs: map<string, nat>, terms: set<string>, t: string)
    requires terms <= freqs.Keys && Extended(before, inverted, i, freqs, terms) && t in freqs && t !in terms
    ensures Extended(before, inverted[t := ListOf(inverted, t) + [(i, freqs[t])]], i, freqs, terms + {t})
  {
  }

  /** Posting lists after one more document, whatever order its terms are visited in. */
  method AddDocument(before: map<string, seq<Posting>>, i: nat, freqs: map<string, nat>)
    returns (inverted: map<string, seq<Posting>>)
    ensures Extended(before, inverted, i, freqs, freqs.Keys)
  {
    hide Extended, ListOf;
    inverted := before;
    var todo := freqs.Keys;
    ghost var done: set<string> := {};
    ExtendedByNone(before, i, freqs);
    while todo != {}
      invariant done + todo == freqs.Keys && done !! todo
      invariant Extended(before, inverted, i, freqs, done)
      decreases todo
    {
      var t :| t in todo;
      ExtendedByOne(before, inverted, i, freqs, done, t);
      inverted := inverted[t := ListOf(inverted, t) + [(i, freqs[t])]];
      done, todo := done + {t}, todo - {t};
    }
    assert done == freqs.Keys;
  }

  lemma ExtendedByNone(before: map<string, seq<Posting>>, i: nat, freqs: map<string, nat>)
    ensures Extended(before, before, i, freqs, {})
  {
  }

  lemma PostingsSorted(docs: seq<Document>, tombstones: seq<nat>, t: string)
    ensures StableSort(Postings(docs, tombstones, t, |docs|), DocKey) == Postings(docs, tombstones, t, |docs|)
  {
    PostingsAreExact(docs, tombstones, t, |docs|);
    hide Postings;
    SortOfSorted(Postings(docs, tombstones, t, |docs|), DocKey);
  }

  class BM25Index {
    const ln: real -> real
    var inverted: map<string, seq<Posting>>
    var idfCache: map<string, real>
    var docLengths: seq<nat>
    var avgDl: real
    var numDocs: nat

    /** The posting lists after the first `n` documents. */
    ghost predicate ListsUpTo(docs: seq<Document>, tombstones: seq<nat>, n: nat)
      requires n <= |docs|
      reads this
    {
      inverted.Keys == Vocabulary(docs, tombstones, n) &&
      forall t :: t in inverted ==> inverted[t] == Postings(docs, tombstones, t, n)
    }

    ghost predicate LengthsUpTo(docs: seq<Document>, tombstones: seq<nat>, n: nat)
      requires n <= |docs|
      reads this
    {
      |docLengths| == |docs| &&
      forall d: nat :: d < |docs| ==> docLengths[d] == if d < n && Live(tombstones, d) then |docs[d]| else 0
    }

    /** Every field is what the collection determines. */
    ghost predicate Indexes(docs: seq<Document>, tombstones: seq<nat>)
      reads this
    {
      && ListsUpTo(docs, tombstones, |docs|) && LengthsUpTo(docs, tombstones, |docs|)
      && idfCache.Keys == inverted.Keys
      && (forall t :: t in idfCache ==> idfCache[t] == Idf(ln, numDocs, |inverted[t]|))
      && numDocs == LiveCount(docs, tombstones, |docs|) && avgDl == AverageLength(docs, tombstones)
    }

    constructor Build(ln: real -> real, docs: seq<Document>, tombstones: seq<nat>)
      ensures Indexes(docs, tombstones) && this.ln == ln
    {
      this.ln := ln;
      inverted, idfCache, docLengths, avgDl, numDocs := map[], map[], seq(|docs|, _ => 0), 0.0, 0;
      new;
      IndexDocuments(docs, tombstones);
    }

    /** Top `k` of the documents sharing a token with the query; equal scores may come in any order. */
    method Search(query: seq<string>, k: nat, ghost docs: seq<Document>, ghost tombstones: seq<nat>)
      returns (results: seq<Scored>)
      requires Indexes(docs, tombstones)
      ensures IsTopK(results, NaiveHits(ln, docs, tombstones, query, |docs|), k)
    {
      hide IsTopK, NaiveHits, ScoresOf, Vocabulary, Postings, AverageLength, PostingsExact, Known;
      if numDocs == 0 || k == 0 {
        EarlyReturn(ln, docs, tombstones, query, k);
        return [];
      }
      var terms := CollectTerms(query);
      KnownTokensInverted(inverted, query);
      var scores: map<nat, real> := map[];
      NoTokensNoScores(ln, docs, tombstones);
      if terms == [] {
        ScoresGiveTopK(ln, docs, tombstones, inverted, query, scores, [], k);
        return [];
      }
      hide StableSort;
      var threshold, top := 0.0, [];
      for i := 0 to |terms|
        invariant ScoresOf(scores, ln, docs, tombstones, terms[..i]) && |top| <= k
      {
        var t := terms[i];
        assert t in terms;
        PostingsAreExact(docs, tombstones, t, |docs|);
        scores, threshold, top := AccumulateTerm(ln, docs, tombstones, terms[..i], t, idfCache[t], inverted[t],
                                                 docLengths, avgDl, scores, i == |terms| - 1, k, threshold, top);
        assert terms[..i] + [t] == terms[..i + 1];
      }
      assert terms[..|terms|] == terms;
      var items := Items(scores);
      ScoresGiveTopK(ln, docs, tombstones, inverted, query, scores, items, k);
      results := Take(k, StableSort(items, Descending));
    }

    method CollectTerms(query: seq<string>) returns (terms: seq<string>)
      ensures terms == Known(inverted, query)
    {
      terms := [];
      for i := 0 to |query|
        invariant terms == Known(inverted, query[..i])
      {
        assert query[..i + 1][..i] == query[..i];
        if query[i] in inverted { terms := terms + [query[i]]; }
      }
      assert query[..|query|] == query;
    }

    method Rebuild(docs: seq<Document>, tombstones: seq<nat>)
      modifies this
      ensures Indexes(docs, tombstones)
    {
      inverted, idfCache := map[], map[];
      docLengths := seq(|docs|, _ => 0);
      avgDl, numDocs := 0.0, 0;
      IndexDocuments(docs, tombstones);
    }

    method IndexDocuments(docs: seq<Document>, tombstones: seq<nat>)
      requires inverted == map[] && idfCache == map[] && docLengths == seq(|docs|, _ => 0)
      modifies this
      ensures Indexes(docs, tombstones)
    {
      var totalLength, count := 0, 0;
      for i := 0 to |docs|
        invariant ListsUpTo(docs, tombstones, i) && LengthsUpTo(docs, tombstones, i)
        invariant totalLength == TotalLength(docs, tombstones, i) && count == LiveCount(docs, tombstones, i)
      {
        if i < |tombstones| && tombstones[i] != 0 { continue; }
        docLengths := docLengths[i := |docs[i]|];
        totalLength, count := totalLength + |docs[i]|, count + 1;
        var freqs := TermFrequencies(docs[i]);
        hide Count, ListOf;
        ghost var before := inverted;
        inverted := AddDocument(inverted, i, freqs);
        ListsStep(docs, tombstones, i, before, inverted, freqs);
      }
      SortAndScore(docs, tombstones, totalLength, count);
    }

    /** The closing passes: average length, sorting of the lists, cached frequencies. */
    method SortAndScore(docs: seq<Document>, tombstones: seq<nat>, totalLength: nat, count: nat)
      requires ListsUpTo(docs, tombstones, |docs|) && LengthsUpTo(docs, tombstones, |docs|)
      requires totalLength == TotalLength(docs, tombstones, |docs|) && count == LiveCount(docs, tombstones, |docs|)
      modifies this
      ensures Indexes(docs, tombstones)
    {
      hide Postings, Vocabulary, Idf, StableSort, Live;
      numDocs := count;
      avgDl := if count > 0 then totalLength as real / count as real else 0.0;
      forall t { PostingsSorted(docs, tombstones, t); }
      inverted := map t | t in inverted :: StableSort(inverted[t], DocKey);
      idfCache := map t | t in inverted :: Idf(ln, numDocs, |inverted[t]|);
    }
  }

  /** Adding a live document to the lists of the first `i` gives the lists of the first `i + 1`. */
  lemma ListsStep(docs: seq<Document>, tombstones: seq<nat>, i: nat, before: map<string, seq<Posting>>,
                  after: map<string, seq<Posting>>, freqs: map<string, nat>)
    requires i < |docs| && Live(tombstones, i)
    requires before.Keys == Vocabulary(docs, tombstones, i)
    requires forall t :: t in before ==> before[t] == Postings(docs, tombstones, t, i)
    requires freqs.Keys == TokenSet(docs[i]) && forall t :: t in freqs ==> freqs[t] == Count(docs[i], t)
    requires Extended(before, after, i, freqs, freqs.Keys)
    ensures after.Keys == Vocabulary(docs, tombstones, i + 1)
    ensures forall t :: t in after ==> after[t] == Postings(docs, tombstones, t, i + 1)
  {
    hide Count;
    forall t | t in after
      ensures after[t] == Postings(docs, tombstones, t, i + 1)
    {
      VocabularyExact(docs, tombstones, t, i);
    }
  }

  /** An index is determined by its collection, so rebuilding equals building afresh. */
  lemma IndexDetermined(a: BM25Index, b: BM25Index, docs: seq<Document>, tombstones: seq<nat>)
    requires a.Indexes(docs, tombstones) && b.Indexes(docs, tombstones) && a.ln == b.ln
    ensures a.inverted == b.inverted && a.idfCache == b.idfCache && a.docLengths == b.docLengths
    ensures a.avgDl == b.avgDl && a.numDocs == b.numDocs
  {
    hide Postings, Vocabulary, LiveCount, AverageLength, Idf, Live;
    assert a.inverted == b.inverted;
  }

  // ---- Search -----------------------------------------------------------------------

  lemma {:induction false} NoMatchNoScore(ln: real -> real, docs: seq<Document>, tombstones: seq<nat>,
                                          query: seq<string>, d: nat)
    requires d < |docs| && Live(tombstones, d) && !Matches(docs, tombstones, query, d)
    ensures NaiveScore(ln, docs, tombstones, query, d) == 0.0
  {
    if query != [] {
      assert query[|query| - 1] in query;
      assert forall t :: t in query[..|query| - 1] ==> t in query;
      NoMatchNoScore(ln, docs, tombstones, query[..|query| - 1], d);
    }
  }

  /** One more token: a document matches if it did or contains the token, and gains the token's score. */
  lemma QuerySnoc(ln: real -> real, docs: seq<Document>, tombstones: seq<nat>, query: seq<string>, t: string, d: nat)
    requires d < |docs| && Live(tombstones, d)
    ensures Matches(docs, tombstones, query + [t], d) <==> Matches(docs, tombstones, query, d) || t in docs[d]
    ensures NaiveScore(ln, docs, tombstones, query + [t], d) ==
            NaiveScore(ln, docs, tombstones, query, d) + TokenScore(ln, docs, tombstones, t, d)
  {
    assert (query + [t])[..|query|] == query;
    assert forall x :: x in query + [t] <==> x in query || x == t;
    assert t in query + [t];
  }

  /** The score map of the tokens handled so far. */
  ghost predicate ScoresOf(scores: map<nat, real>, ln: real -> real, docs: seq<Document>, tombstones: seq<nat>,
                           query: seq<string>)
  {
    (forall d: nat :: d in scores <==> Matches(docs, tombstones, query, d)) &&
    forall d: nat :: d in scores ==> scores[d] == NaiveScore(ln, docs, tombstones, query, d)
  }

  predicate Listed(ps: seq<Posting>, n: nat, d: nat)
    requires n <= |ps|
  {
    exists j :: 0 <= j < n && ps[j].0 == d
  }

  /** The score map while token `t` is being added for the documents of its first `n` postings. */
  ghost predicate ScoresDuring(scores: map<nat, real>, ln: real -> real, docs: seq<Document>, tombstones: seq<nat>,
                               query: seq<string>, t: string, ps: seq<Posting>, n: nat)
    requires n <= |ps|
  {
    (forall d: nat :: d in scores <==> Matches(docs, tombstones, query, d) || Listed(ps, n, d)) &&
    (forall d: nat :: d in scores ==> d < |docs| && Live(tombstones, d)) &&
    (forall d: nat :: d in scores ==>
       scores[d] == NaiveScore(ln, docs, tombstones, query, d) +
                    if Listed(ps, n, d) then TokenScore(ln, docs, tombstones, t, d) else 0.0)
  }

  lemma DuringStart(scores: map<nat, real>, ln: real -> real, docs: seq<Document>, tombstones: seq<nat>,
                    query: seq<string>, t: string, ps: seq<Posting>)
    requires ScoresOf(scores, ln, docs, tombstones, query)
    ensures ScoresDuring(scores, ln, docs, tombstones, query, t, ps, 0)
  {
    hide NaiveScore, TokenScore, Live;
  }

  lemma DuringStep(scores: map<nat, real>, ln: real -> real, docs: seq<Document>, tombstones: seq<nat>,
                   query: seq<string>, t: string, ps: seq<Posting>, n: nat)
    requires n < |ps| && ScoresDuring(scores, ln, docs, tombstones, query, t, ps, n)
    requires PostingsExact(ps, docs, tombstones, t, |docs|)
    ensures var d := ps[n].0;
      d < |docs| && Live(tombstones, d) &&
      ScoresDuring(scores[d := (if d in scores then scores[d] else 0.0) + TokenScore(ln, docs, tombstones, t, d)],
                   ln, docs, tombstones, query, t, ps, n + 1)
  {
    hide NaiveScore, TokenScore, Live, Count;
    var d := ps[n].0;
    assert !Listed(ps, n, d) by { assert forall j :: 0 <= j < n ==> ps[j].0 < d; }
    forall x: nat
      ensures Listed(ps, n + 1, x) <==> Listed(ps, n, x) || x == d
    {
      if Listed(ps, n, x) {
        var j :| 0 <= j < n && ps[j].0 == x;
        assert ps[j].0 == x;
      }
    }
    if d !in scores { NoMatchNoScore(ln, docs, tombstones, query, d); }
    hide Listed, Matches, PostingsExact;
  }

  lemma DuringEnd(scores: map<nat, real>, ln: real -> real, docs: seq<Document>, tombstones: seq<nat>,
                  query: seq<string>, t: string, ps: seq<Posting>)
    requires ScoresDuring(scores, ln, docs, tombstones, query, t, ps, |ps|)
    requires PostingsExact(ps, docs, tombstones, t, |docs|)
    ensures ScoresOf(scores, ln, docs, tombstones, query + [t])
  {
    hide NaiveScore, Count, Live;
    forall d: nat
      ensures d in scores <==> Matches(docs, tombstones, query + [t], d)
      ensures d in scores ==> scores[d] == NaiveScore(ln, docs, tombstones, query + [t], d)
    {
      if d < |docs| && Live(tombstones, d) {
        QuerySnoc(ln, docs, tombstones, query, t, d);
        ListedIffContains(ps, docs, tombstones, t, d);
      }
    }
  }

  lemma ListedIffContains(ps: seq<Posting>, docs: seq<Document>, tombstones: seq<nat>, t: string, d: nat)
    requires PostingsExact(ps, docs, tombstones, t, |docs|) && d < |docs| && Live(tombstones, d)
    ensures Listed(ps, |ps|, d) <==> t in docs[d]
  {
    hide Count, Live;
    if t in docs[d] {
      assert (d, Count(docs[d], t)) in ps;
      var j :| 0 <= j < |ps| && ps[j] == (d, Count(docs[d], t));
      assert ps[j].0 == d;
    }
  }

  /** The query tokens that have a posting list, repeats kept. */
  function Known(inverted: map<string, seq<Posting>>, query: seq<string>): seq<string> {
    if query == [] then []
    else
      var before, last := Known(inverted, query[..|query| - 1]), query[|query| - 1];
      if last in inverted then before + [last] else before
  }

  lemma {:induction false} KnownTokensInverted(inverted: map<string, seq<Posting>>, query: seq<string>)
    ensures forall t :: t in Known(inverted, query) ==> t in inverted
  {
    if query != [] { KnownTokensInverted(inverted, query[..|query| - 1]); }
  }

  /** Tokens outside the vocabulary match nothing and score nothing. */
  lemma {:induction false} KnownSuffices(ln: real -> real, docs: seq<Document>, tombstones: seq<nat>,
                                         inverted: map<string, seq<Posting>>, query: seq<string>, d: nat)
    requires inverted.Keys == Vocabulary(docs, tombstones, |docs|) && d < |docs| && Live(tombstones, d)
    ensures Matches(docs, tombstones, Known(inverted, query), d) <==> Matches(docs, tombstones, query, d)
    ensures NaiveScore(ln, docs, tombstones, Known(inverted, query), d) == NaiveScore(ln, docs, tombstones, query, d)
  {
    if query != [] {
      hide Live, Count;
      var before, last := query[..|query| - 1], query[|query| - 1];
      assert query == before + [last];
      KnownSuffices(ln, docs, tombstones, inverted, before, d);
      QuerySnoc(ln, docs, tombstones, before, last, d);
      QuerySnoc(ln, docs, tombstones, Known(inverted, before), last, d);
      if last !in inverted { UnknownNotContained(docs, tombstones, last, d); }
      hide Vocabulary, NaiveScore, Matches;
    }
  }

  lemma UnknownNotContained(docs: seq<Document>, tombstones: seq<nat>, t: string, d: nat)
    requires d < |docs| && Live(tombstones, d) && t !in Vocabulary(docs, tombstones, |docs|)
    ensures t !in docs[d]
  {
    VocabularyExact(docs, tombstones, t, |docs|);
    PostingsAreExact(docs, tombstones, t, |docs|);
  }

  /** The threshold bookkeeping: it keeps at most `k` scores and feeds nothing back. */
  method TrackThreshold(finalScore: real, k: nat, threshold0: real, top0: seq<real>)
    returns (threshold: real, top: seq<real>)
    requires k > 0 && |top0| <= k
    ensures |top| <= k
  {
    threshold, top := threshold0, top0;
    if finalScore > threshold && |top| >= k {
      top := StableSort(top, x => -x);
      if finalScore > top[k - 1] {
        top := StableSort(top[k - 1 := finalScore], x => -x);
        threshold := top[k - 1];
      }
    } else if |top| < k {
      top := top + [finalScore];
      if |top| == k {
        top := StableSort(top, x => -x);
        threshold := top[k - 1];
      }
    }
  }

  /** One term of the query: every posting adds to its document's score. */
  method AccumulateTerm(ghost ln: real -> real, ghost docs: seq<Document>, ghost tombstones: seq<nat>,
                        ghost query: seq<string>,
                        ghost t: string, idf: real, ps: seq<Posting>, docLengths: seq<nat>, avgDl: real,
                        scores0: map<nat, real>, isLast: bool, k: nat, threshold0: real, top0: seq<real>)
    returns (scores: map<nat, real>, threshold: real, top: seq<real>)
    requires k > 0 && |top0| <= k && PostingsExact(ps, docs, tombstones, t, |docs|)
    requires ps == Postings(docs, tombstones, t, |docs|) && idf == Idf(ln, LiveCount(docs, tombstones, |docs|), |ps|)
    requires avgDl == AverageLength(docs, tombstones)
    requires |docLengths| == |docs| && forall d: nat :: d < |docs| && Live(tombstones, d) ==> docLengths[d] == |docs[d]|
    requires ScoresOf(scores0, ln, docs, tombstones, query)
    ensures ScoresOf(scores, ln, docs, tombstones, query + [t]) && |top| <= k
  {
    hide ScoresOf, ScoresDuring, Live, Count, Postings, Idf, AverageLength, LiveCount, NaiveScore;
    scores, threshold, top := scores0, threshold0, top0;
    DuringStart(scores, ln, docs, tombstones, query, t, ps);
    for n := 0 to |ps|
      invariant ScoresDuring(scores, ln, docs, tombstones, query, t, ps, n) && |top| <= k
    {
      var (d, freq) := ps[n];
      DuringStep(scores, ln, docs, tombstones, query, t, ps, n);
      AveragePositive(docs, tombstones, d);
      var dl := docLengths[d];
      var tf := TermFrequencyScore(freq, dl, avgDl);
      var contribution := idf * tf;
      assert contribution == TokenScore(ln, docs, tombstones, t, d);
      var finalScore := (if d in scores then scores[d] else 0.0) + contribution;
      scores := scores[d := finalScore];
      if isLast { threshold, top := TrackThreshold(finalScore, k, threshold, top); }
    }
    DuringEnd(scores, ln, docs, tombstones, query, t, ps);
  }

  lemma NoTokensNoScores(ln: real -> real, docs: seq<Document>, tombstones: seq<nat>)
    ensures ScoresOf(map[], ln, docs, tombstones, [])
  {
  }

  /** Without live documents, or with `k` zero, the empty answer is the top k. */
  lemma EarlyReturn(ln: real -> real, docs: seq<Document>, tombstones: seq<nat>, query: seq<string>, k: nat)
    requires LiveCount(docs, tombstones, |docs|) == 0 || k == 0
    ensures IsTopK([], NaiveHits(ln, docs, tombstones, query, |docs|), k)
  {
    var hits := NaiveHits(ln, docs, tombstones, query, |docs|);
    if k > 0 { NoLiveNoHits(ln, docs, tombstones, query, |docs|); }
    assert Take(k, StableSort(hits, Descending)) == [];
  }

  lemma {:induction false} NoLiveNoHits(ln: real -> real, docs: seq<Document>, tombstones: seq<nat>, query: seq<string>,
                                        n: nat)
    requires n <= |docs| && LiveCount(docs, tombstones, n) == 0
    ensures NaiveHits(ln, docs, tombstones, query, n) == []
  {
    if n > 0 { NoLiveNoHits(ln, docs, tombstones, query, n - 1); }
  }

  /** The entries of a score map, in an arbitrary order. */
  method Items(scores: map<nat, real>) returns (items: seq<Scored>)
    ensures DistinctIndices(items)
    ensures forall p: Scored :: p in items <==> p.0 in scores && scores[p.0] == p.1
  {
    items := [];
    var todo := scores.Keys;
    while todo != {}
      invariant todo <= scores.Keys && DistinctIndices(items)
      invariant forall p: Scored :: p in items <==> p.0 in scores && p.0 !in todo && scores[p.0] == p.1
      decreases todo
    {
      var d :| d in todo;
      assert forall i :: 0 <= i < |items| ==> items[i] in items;
      items := items + [(d, scores[d])];
      todo := todo - {d};
    }
  }

  /** The top k of the score map is the top k of the naive scan. */
  lemma ScoresGiveTopK(ln: real -> real, docs: seq<Document>, tombstones: seq<nat>, inverted: map<string, seq<Posting>>,
                       query: seq<string>, scores: map<nat, real>, items: seq<Scored>, k: nat)
    requires inverted.Keys == Vocabulary(docs, tombstones, |docs|)
    requires ScoresOf(scores, ln, docs, tombstones, Known(inverted, query))
    requires DistinctIndices(items) && forall p: Scored :: p in items <==> p.0 in scores && scores[p.0] == p.1
    ensures IsTopK(Take(k, StableSort(items, Descending)), NaiveHits(ln, docs, tombstones, query, |docs|), k)
  {
    hide NaiveScore, Live, Known, StableSort, Take, Vocabulary;
    var hits := NaiveHits(ln, docs, tombstones, query, |docs|);
    NaiveHitsExact(ln, docs, tombstones, query, |docs|);
    forall p: Scored
      ensures p in items <==> p in hits
    {
      if p.0 < |docs| && Live(tombstones, p.0) { KnownSuffices(ln, docs, tombstones, inverted, query, p.0); }
    }
    SameMembers(items, hits);
  }
}
