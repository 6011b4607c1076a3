/** The Levenshtein distance used for fuzzy entity resolution: the two-row loop
    computes the recursive distance, and that distance is the least number of
    single-character edits between the two strings. */
module EditDistance {

  function Min(x: nat, y: nat): nat { if x <= y then x else y }

  function Cost(x: char, y: char): nat { if x == y then 0 else 1 }

  /** Distance between the first `i` characters of `a` and the first `j` of `b`. */
  function Distance(a: string, b: string, i: nat, j: nat): nat
    requires i <= |a| && j <= |b|
  {
    if i == 0 then j
    else if j == 0 then i
    else
      Min(Min(Distance(a, b, i, j - 1) + 1, Distance(a, b, i - 1, j) + 1),
          Distance(a, b, i - 1, j - 1) + Cost(a[i - 1], b[j - 1]))
  }

  function Levenshtein(a: string, b: string): nat { Distance(a, b, |a|, |b|) }

  /** `row` holds the distances from the first `i` characters of `a` to the first `0..n` of `b`. */
  ghost predicate IsRow(row: seq<nat>, a: string, b: string, i: nat, n: nat)
    requires i <= |a| && n <= |b| < |row|
  {
    forall j :: 0 <= j <= n ==> row[j] == Distance(a, b, i, j)
  }

  /** The two-row loop: `prev` is row i-1, `curr` becomes row i, then they swap. */
  method ComputeLevenshtein(a: string, b: string) returns (d: nat)
    ensures d == Levenshtein(a, b)
  {
    var na, nb := |a|, |b|;
    if na == 0 { return nb; }
    if nb == 0 { return na; }
    var prev := new nat[nb + 1](j => j);
    var curr := new nat[nb + 1](_ => 0);
    for i := 1 to na + 1
      invariant fresh(prev) && fresh(curr) && prev != curr && prev.Length == curr.Length == nb + 1
      invariant IsRow(prev[..], a, b, i - 1, nb)
    {
      FillRow(a, b, i, prev, curr);
      prev, curr := curr, prev;
    }
    return prev[nb];
  }

  method FillRow(a: string, b: string, i: nat, prev: array<nat>, curr: array<nat>)
    requires 0 < i <= |a| && prev != curr && prev.Length == curr.Length == |b| + 1
    requires IsRow(prev[..], a, b, i - 1, |b|)
    modifies curr
    ensures IsRow(curr[..], a, b, i, |b|)
  {
    hide Distance;
    curr[0] := i;
    Unfold(a, b, i, 0);
    for j := 1 to |b| + 1
      invariant IsRow(curr[..], a, b, i, j - 1)
    {
      Unfold(a, b, i, j);
      assert prev[..][j] == prev[j] && prev[..][j - 1] == prev[j - 1] && curr[..][j - 1] == curr[j - 1];
      ghost var before := curr[..];
      curr[j] := Min(Min(curr[j - 1] + 1, prev[j] + 1), prev[j - 1] + Cost(a[i - 1], b[j - 1]));
      assert curr[..] == before[j := curr[j]];
    }
  }

  // ---- The distance is a metric ------------------------------------------

  datatype Edit = Insert | Delete | Replace

  /** Which of the three alternatives attains the minimum. */
  function LastEdit(a: string, b: string, i: nat, j: nat): (e: Edit)
    requires 0 < i <= |a| && 0 < j <= |b|
    ensures Distance(a, b, i, j) ==
      match e
      case Insert => Distance(a, b, i, j - 1) + 1
      case Delete => Distance(a, b, i - 1, j) + 1
      case Replace => Distance(a, b, i - 1, j - 1) + Cost(a[i - 1], b[j - 1])
  {
    if Distance(a, b, i, j) == Distance(a, b, i, j - 1) + 1 then Insert
    else if Distance(a, b, i, j) == Distance(a, b, i - 1, j) + 1 then Delete
    else Replace
  }

  /** One unfolding, for proofs that hide the recursion. */
  lemma Unfold(a: string, b: string, i: nat, j: nat)
    requires i <= |a| && j <= |b|
    ensures i == 0 ==> Distance(a, b, i, j) == j
    ensures j == 0 ==> Distance(a, b, i, j) == i
    ensures i > 0 && j > 0 ==>
      Distance(a, b, i, j) ==
      Min(Min(Distance(a, b, i, j - 1) + 1, Distance(a, b, i - 1, j) + 1),
          Distance(a, b, i - 1, j - 1) + Cost(a[i - 1], b[j - 1]))
  {
  }

  lemma {:induction false} DistanceSymmetric(a: string, b: string, i: nat, j: nat)
    requires i <= |a| && j <= |b|
    ensures Distance(a, b, i, j) == Distance(b, a, j, i)
  {
    hide Distance;
    Unfold(a, b, i, j);
    Unfold(b, a, j, i);
    if i > 0 && j > 0 {
      DistanceSymmetric(a, b, i, j - 1);
      DistanceSymmetric(a, b, i - 1, j);
      DistanceSymmetric(a, b, i - 1, j - 1);
    }
  }

  /** Every edit changes the length by at most one. */
  lemma {:induction false} DistanceAtLeastLengthGap(a: string, b: string, i: nat, j: nat)
    requires i <= |a| && j <= |b|
    ensures Distance(a, b, i, j) >= i - j && Distance(a, b, i, j) >= j - i
  {
    hide Distance;
    Unfold(a, b, i, j);
    if i > 0 && j > 0 {
      DistanceAtLeastLengthGap(a, b, i, j - 1);
      DistanceAtLeastLengthGap(a, b, i - 1, j);
      DistanceAtLeastLengthGap(a, b, i - 1, j - 1);
    }
  }

  lemma {:induction false} DistanceZeroIffEqual(a: string, b: string, i: nat, j: nat)
    requires i <= |a| && j <= |b|
    ensures Distance(a, b, i, j) == 0 <==> a[..i] == b[..j]
  {
    hide Distance;
    Unfold(a, b, i, j);
    if i > 0 && j > 0 {
      DistanceZeroIffEqual(a, b, i - 1, j - 1);
      assert a[..i] == a[..i - 1] + [a[i - 1]] && b[..j] == b[..j - 1] + [b[j - 1]];
    } else {
      assert i == j ==> a[..i] == b[..j] == [];
    }
  }

  lemma {:induction false} DistanceTriangle(a: string, b: string, c: string, i: nat, j: nat, k: nat)
    requires i <= |a| && j <= |b| && k <= |c|
    ensures Distance(a, c, i, k) <= Distance(a, b, i, j) + Distance(b, c, j, k)
    decreases i + j + k
  {
    hide Distance;
    Unfold(a, c, i, k);
    Unfold(a, b, i, j);
    Unfold(b, c, j, k);
    if i == 0 {
      DistanceAtLeastLengthGap(b, c, j, k);
    } else if k == 0 {
      DistanceAtLeastLengthGap(a, b, i, j);
    } else if j == 0 {
      DistanceAtMostSum(a, c, i, k);
    } else {
      var ab, bc := LastEdit(a, b, i, j), LastEdit(b, c, j, k);
      if ab.Delete? {
        DistanceTriangle(a, b, c, i - 1, j, k);
      } else if bc.Insert? {
        DistanceTriangle(a, b, c, i, j, k - 1);
      } else {
        DistanceTriangle(a, b, c, if ab.Insert? then i else i - 1, j - 1, if bc.Delete? then k else k - 1);
      }
    }
  }

  lemma {:induction false} DistanceAtMostSum(a: string, b: string, i: nat, j: nat)
    requires i <= |a| && j <= |b|
    ensures Distance(a, b, i, j) <= i + j
  {
    hide Distance;
    Unfold(a, b, i, j);
    if i > 0 && j > 0 { DistanceAtMostSum(a, b, i - 1, j); }
  }

  lemma LevenshteinIsMetric(a: string, b: string, c: string)
    ensures Levenshtein(a, b) == 0 <==> a == b
    ensures Levenshtein(a, b) == Levenshtein(b, a)
    ensures Levenshtein(a, c) <= Levenshtein(a, b) + Levenshtein(b, c)
  {
    DistanceZeroIffEqual(a, b, |a|, |b|);
    assert a[..|a|] == a && b[..|b|] == b;
    DistanceSymmetric(a, b, |a|, |b|);
    DistanceTriangle(a, b, c, |a|, |b|, |c|);
  }

  // ---- The distance counts edits ------------------------------------------

  /** `t` is `s` with one character inserted at `p`. */
  predicate InsertedAt(s: string, t: string, p: nat) {
    p < |t| && s == t[..p] + t[p + 1..]
  }

  /** `t` is `s` with the character at `p` replaced (possibly by itself). */
  predicate ReplacedAt(s: string, t: string, p: nat) {
    p < |s| == |t| && t == s[p := t[p]]
  }

  predicate OneEditAt(s: string, t: string, p: nat) {
    InsertedAt(s, t, p) || InsertedAt(t, s, p) || ReplacedAt(s, t, p)
  }

  ghost predicate OneEdit(s: string, t: string) { exists p: nat :: OneEditAt(s, t, p) }

  /** A chain of strings, each one edit from the next. */
  ghost predicate EditChain(chain: seq<string>, a: string, b: string) {
    |chain| > 0 && chain[0] == a && chain[|chain| - 1] == b &&
    forall i :: 0 <= i < |chain| - 1 ==> OneEdit(chain[i], chain[i + 1])
  }

  lemma {:induction false} CommonPrefixIsFree(s: string, t: string, p: nat)
    requires p <= |s| && p <= |t| && s[..p] == t[..p]
    ensures Distance(s, t, p, p) == 0
  {
    if p > 0 {
      assert s[..p - 1] == s[..p][..p - 1] == t[..p - 1];
      assert s[p - 1] == s[..p][p - 1] == t[p - 1];
      CommonPrefixIsFree(s, t, p - 1);
    }
  }

  lemma {:induction false} InsertionCostsOne(s: string, t: string, p: nat, i: nat)
    requires InsertedAt(s, t, p) && p <= i <= |s|
    ensures Distance(s, t, i, i + 1) <= 1
    decreases i
  {
    if i == p {
      assert s[..p] == t[..p];
      CommonPrefixIsFree(s, t, p);
    } else {
      InsertionCostsOne(s, t, p, i - 1);
      assert s[i - 1] == t[i];
    }
  }

  lemma {:induction false} ReplacementCostsOne(s: string, t: string, p: nat, i: nat)
    requires ReplacedAt(s, t, p) && p < i <= |s|
    ensures Distance(s, t, i, i) <= 1
    decreases i
  {
    if i == p + 1 {
      assert s[..p] == t[..p];
      CommonPrefixIsFree(s, t, p);
    } else {
      ReplacementCostsOne(s, t, p, i - 1);
      assert s[i - 1] == t[i - 1];
    }
  }

  lemma OneEditCostsOne(s: string, t: string)
    requires OneEdit(s, t)
    ensures Levenshtein(s, t) <= 1
  {
    hide Distance;
    var p: nat :| OneEditAt(s, t, p);
    if InsertedAt(s, t, p) {
      InsertionCostsOne(s, t, p, |s|);
    } else if InsertedAt(t, s, p) {
      InsertionCostsOne(t, s, p, |t|);
      DistanceSymmetric(s, t, |s|, |t|);
    } else {
      ReplacementCostsOne(s, t, p, |s|);
    }
  }

  /** No chain of edits is shorter than the distance. */
  lemma {:induction false} ChainNoShorter(chain: seq<string>, a: string, b: string)
    requires EditChain(chain, a, b)
    ensures Levenshtein(a, b) <= |chain| - 1
    decreases |chain|
  {
    if |chain| == 1 {
      LevenshteinIsMetric(a, b, b);
    } else {
      var before := chain[..|chain| - 1];
      var m := before[|before| - 1];
      ChainNoShorter(before, a, m);
      assert OneEdit(chain[|chain| - 2], chain[|chain| - 2 + 1]);
      OneEditCostsOne(m, b);
      LevenshteinIsMetric(a, m, b);
    }
  }

  lemma OneEditUnderAppend(s: string, t: string, x: char)
    requires OneEdit(s, t)
    ensures OneEdit(s + [x], t + [x])
  {
    var p: nat :| OneEditAt(s, t, p);
    if InsertedAt(s, t, p) {
      assert s + [x] == (t + [x])[..p] + (t + [x])[p + 1..];
    } else if InsertedAt(t, s, p) {
      assert t + [x] == (s + [x])[..p] + (s + [x])[p + 1..];
    } else {
      assert t + [x] == (s + [x])[p := (t + [x])[p]];
    }
    assert OneEditAt(s + [x], t + [x], p);
  }

  lemma ChainUnderAppend(chain: seq<string>, a: string, b: string, x: char) returns (longer: seq<string>)
    requires EditChain(chain, a, b)
    ensures EditChain(longer, a + [x], b + [x]) && |longer| == |chain|
  {
    longer := seq(|chain|, i requires 0 <= i < |chain| => chain[i] + [x]);
    forall i | 0 <= i < |longer| - 1
      ensures OneEdit(longer[i], longer[i + 1])
    {
      OneEditUnderAppend(chain[i], chain[i + 1], x);
    }
  }

  lemma ChainExtended(chain: seq<string>, a: string, b: string, c: string) returns (longer: seq<string>)
    requires EditChain(chain, a, b) && OneEdit(b, c)
    ensures EditChain(longer, a, c) && |longer| == |chain| + 1
  {
    longer := chain + [c];
    forall i | 0 <= i < |longer| - 1
      ensures OneEdit(longer[i], longer[i + 1])
    {
      if i < |chain| - 1 { assert OneEdit(chain[i], chain[i + 1]); }
    }
  }

  lemma ChainPrepended(z: string, chain: seq<string>, a: string, b: string) returns (longer: seq<string>)
    requires OneEdit(z, a) && EditChain(chain, a, b)
    ensures EditChain(longer, z, b) && |longer| == |chain| + 1
  {
    longer := [z] + chain;
    forall i | 0 <= i < |longer| - 1
      ensures OneEdit(longer[i], longer[i + 1])
    {
      if i > 0 { assert OneEdit(chain[i - 1], chain[i - 1 + 1]); }
    }
  }

  /** Some chain of edits has exactly as many steps as the distance. */
  lemma {:induction false} ShortestChain(a: string, b: string, i: nat, j: nat) returns (chain: seq<string>)
    requires i <= |a| && j <= |b|
    ensures EditChain(chain, a[..i], b[..j]) && |chain| - 1 == Distance(a, b, i, j)
    decreases i + j
  {
    hide Distance;
    Unfold(a, b, i, j);
    var d := Distance(a, b, i, j);
    if i == 0 && j == 0 {
      assert a[..i] == b[..j];
      chain := [a[..i]];
    } else if j > 0 && (i == 0 || d == Distance(a, b, i, j - 1) + 1) {
      var shorter := ShortestChain(a, b, i, j - 1);
      Unfold(a, b, i, j - 1);
      assert InsertedAt(b[..j - 1], b[..j], j - 1);
      assert OneEditAt(b[..j - 1], b[..j], j - 1);
      chain := ChainExtended(shorter, a[..i], b[..j - 1], b[..j]);
    } else if i > 0 && (j == 0 || d == Distance(a, b, i - 1, j) + 1) {
      var shorter := ShortestChain(a, b, i - 1, j);
      Unfold(a, b, i - 1, j);
      assert InsertedAt(a[..i - 1], a[..i], i - 1);
      assert OneEditAt(a[..i], a[..i - 1], i - 1);
      chain := ChainPrepended(a[..i], shorter, a[..i - 1], b[..j]);
    } else {
      var shorter := ShortestChain(a, b, i - 1, j - 1);
      var x := a[i - 1];
      assert a[..i] == a[..i - 1] + [x];
      chain := ChainUnderAppend(shorter, a[..i - 1], b[..j - 1], x);
      if x == b[j - 1] {
        assert b[..j] == b[..j - 1] + [x];
      } else {
        assert ReplacedAt(b[..j - 1] + [x], b[..j], j - 1);
        assert OneEditAt(b[..j - 1] + [x], b[..j], j - 1);
        chain := ChainExtended(chain, a[..i], b[..j - 1] + [x], b[..j]);
      }
    }
  }

  /** The distance is the length of a shortest chain of single-character edits. */
  lemma LevenshteinCountsEdits(a: string, b: string)
    ensures exists chain :: EditChain(chain, a, b) && |chain| - 1 == Levenshtein(a, b)
    ensures forall chain :: EditChain(chain, a, b) ==> |chain| - 1 >= Levenshtein(a, b)
  {
    assert a[..|a|] == a && b[..|b|] == b;
    var chain := ShortestChain(a, b, |a|, |b|);
    forall other | EditChain(other, a, b)
      ensures |other| - 1 >= Levenshtein(a, b)
    {
      ChainNoShorter(other, a, b);
    }
  }
}
