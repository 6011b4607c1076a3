/** The Fletcher-32 checksum of the acceleration crate: the scalar reference
    reduces after every 16-bit word, the AVX2/NEON form after every block of
    at most 360 words.  Machine words are a newtype, so every addition below
    carries the obligation that it does not overflow 32 bits. */
module Fletcher32 {

  newtype u32 = x: int | 0 <= x < 0x1_0000_0000

  type Byte = x: int | 0 <= x < 256

  const MODULUS := 65535
  const BLOCK_WORDS := 360

  /** The big-endian word at word position `n`; a trailing odd byte is the high half. */
  function Word(data: seq<Byte>, n: nat): (w: nat)
    requires 2 * n < |data|
    ensures w < 65536
  {
    var high: int := data[2 * n];
    var low: int := if 2 * n + 1 < |data| then data[2 * n + 1] else 0;
    high * 256 + low
  }

  /** Number of words, counting a trailing odd byte as one. */
  function WordCount(data: seq<Byte>): (m: nat)
    ensures 2 * m == |data| || 2 * m == |data| + 1
  {
    (|data| + 1) / 2
  }

  /** Both running sums after `n` words, reduced after each word. */
  function Sums(data: seq<Byte>, n: nat): (s: (nat, nat))
    requires n <= WordCount(data)
    ensures n == 0 ==> s == (MODULUS, MODULUS)
    ensures n > 0 ==> s.0 < MODULUS && s.1 < MODULUS
  {
    if n == 0 then (MODULUS, MODULUS)
    else
      var (a, b) := Sums(data, n - 1);
      var a' := (a + Word(data, n - 1)) % MODULUS;
      (a', (b + a') % MODULUS)
  }

  function Checksum(data: seq<Byte>): (c: nat)
  {
    var (a, b) := Sums(data, WordCount(data));
    b * 65536 + a
  }

  // ---- What the two sums are -------------------------------------------

  function PlainSum(data: seq<Byte>, n: nat): nat
    requires n <= WordCount(data)
  {
    if n == 0 then 0 else PlainSum(data, n - 1) + Word(data, n - 1)
  }

  /** Each word counts once for every position from its own to the last. */
  function WeightedSum(data: seq<Byte>, m: nat, n: nat): nat
    requires n <= m <= WordCount(data)
  {
    if n == 0 then 0 else WeightedSum(data, m, n - 1) + (m - (n - 1)) * Word(data, n - 1)
  }

  lemma {:induction false} WeightedSumGrows(data: seq<Byte>, m: nat, n: nat)
    requires n <= m < WordCount(data)
    ensures WeightedSum(data, m + 1, n) == WeightedSum(data, m, n) + PlainSum(data, n)
  {
    if n > 0 { WeightedSumGrows(data, m, n - 1); }
  }

  lemma WeightedSumStep(data: seq<Byte>, n: nat)
    requires n < WordCount(data)
    ensures WeightedSum(data, n + 1, n + 1) == WeightedSum(data, n, n) + (PlainSum(data, n) + Word(data, n))
  {
    WeightedSumGrows(data, n, n);
    assert (n + 1 - n) * Word(data, n) == Word(data, n);
  }

  /** Reducing a summand first does not change a sum modulo 65535. */
  lemma ModAdd(x: int, y: int, z: int)
    requires x % MODULUS == y % MODULUS
    ensures (x + z) % MODULUS == (y + z) % MODULUS
  {
    var k := x / MODULUS - y / MODULUS;
    assert x + z == y + z + k * MODULUS;
  }

  lemma ModReduced(x: nat)
    requires x < MODULUS
    ensures x % MODULUS == x
  {
  }

  /** One step of the reduced sums follows one step of any unreduced pair congruent to it. */
  lemma SumsStep(data: seq<Byte>, n: nat, x: nat, y: nat)
    requires n < WordCount(data)
    requires x % MODULUS == Sums(data, n).0 % MODULUS && y % MODULUS == Sums(data, n).1 % MODULUS
    ensures (x + Word(data, n)) % MODULUS == Sums(data, n + 1).0 == Sums(data, n + 1).0 % MODULUS
    ensures (y + (x + Word(data, n))) % MODULUS == Sums(data, n + 1).1 == Sums(data, n + 1).1 % MODULUS
  {
    var (a, b) := Sums(data, n);
    var w := Word(data, n);
    ModAdd(x, a, w);
    ModAdd(y, b, x + w);
    ModReduced((a + w) % MODULUS);
    ModAdd(x + w, (a + w) % MODULUS, b);
    ModReduced((b + (a + w) % MODULUS) % MODULUS);
  }

  /** The checksum halves are the word sum and the position-weighted word sum modulo 65535. */
  lemma {:induction false} SumsClosedForm(data: seq<Byte>, n: nat)
    requires n <= WordCount(data)
    ensures Sums(data, n).0 % MODULUS == PlainSum(data, n) % MODULUS
    ensures Sums(data, n).1 % MODULUS == WeightedSum(data, n, n) % MODULUS
  {
    if n > 0 {
      SumsClosedForm(data, n - 1);
      SumsStep(data, n - 1, PlainSum(data, n - 1), WeightedSum(data, n - 1, n - 1));
      WeightedSumStep(data, n - 1);
    }
  }

  /** The two halves of the checksum: the sum of the words, and the sum in which each word counts once for every
      position from its own to the last, both modulo 65535; all ones for no data. */
  lemma ChecksumClosedForm(data: seq<Byte>)
    ensures data == [] ==> Checksum(data) == 0xFFFF_FFFF
    ensures data != [] ==> Checksum(data) % 65536 == PlainSum(data, WordCount(data)) % MODULUS
    ensures data != [] ==> Checksum(data) / 65536 == WeightedSum(data, WordCount(data), WordCount(data)) % MODULUS
  {
    hide Sums, PlainSum, WeightedSum;
    var n := WordCount(data);
    SumsClosedForm(data, n);
    if data != [] {
      ModReduced(Sums(data, n).0);
      ModReduced(Sums(data, n).1);
    }
  }

  lemma {:induction false} SumsOfPadded(data: seq<Byte>, n: nat)
    requires |data| % 2 == 1 && n <= WordCount(data)
    ensures WordCount(data + [0]) == WordCount(data) && Sums(data + [0], n) == Sums(data, n)
  {
    if n > 0 {
      SumsOfPadded(data, n - 1);
      var k := 2 * (n - 1);
      assert (data + [0])[k] == data[k];
      assert (data + [0])[k + 1] == if k + 1 < |data| then data[k + 1] else 0;
    }
  }

  /** A trailing odd byte counts as if a zero byte followed. */
  lemma OddIsPadded(data: seq<Byte>)
    requires |data| % 2 == 1
    ensures Checksum(data + [0]) == Checksum(data)
  {
    SumsOfPadded(data, WordCount(data));
  }

  // ---- The scalar reference --------------------------------------------

  method ScalarChecksum(data: seq<Byte>) returns (c: u32)
    ensures c as int == Checksum(data)
  {
    var sum1: u32, sum2: u32 := 0xFFFF, 0xFFFF;
    var i := 0;
    ghost var n := 0;
    while i + 1 < |data|
      invariant i == 2 * n <= |data|
      invariant (sum1 as int, sum2 as int) == Sums(data, n)
    {
      var word: u32 := data[i] as u32 * 256 + data[i + 1] as u32;
      assert word as int == Word(data, n);
      sum1 := (sum1 + word) % 65535;
      sum2 := (sum2 + sum1) % 65535;
      i, n := i + 2, n + 1;
    }
    c := Finish(data, i / 2, sum1, sum2);
  }

  /** The trailing odd byte, if there is one, and the packing of the two sums. */
  method Finish(data: seq<Byte>, n: nat, s1: u32, s2: u32) returns (c: u32)
    requires 2 * n <= |data| <= 2 * n + 1
    requires (s1 as int, s2 as int) == Sums(data, n)
    ensures c as int == Checksum(data)
  {
    var sum1, sum2 := s1, s2;
    if 2 * n < |data| {
      var word: u32 := data[2 * n] as u32 * 256;
      assert word as int == Word(data, n);
      sum1 := (sum1 + word) % 65535;
      sum2 := (sum2 + sum1) % 65535;
      assert (sum1 as int, sum2 as int) == Sums(data, n + 1);
    }
    c := sum2 * 65536 + sum1;
  }

  // ---- The blocked form ------------------------------------------------

  function Triangle(t: nat): nat { if t == 0 then 0 else Triangle(t - 1) + t }

  /** Largest values the two unreduced sums can reach `t` words into a block. */
  function Ceiling1(t: nat): nat { 65535 * (1 + t) }
  function Ceiling2(t: nat): nat { 65535 * (1 + t + Triangle(t)) }

  lemma {:induction false} TriangleClosedForm(t: nat)
    ensures 2 * Triangle(t) == t * (t + 1)
  {
    if t > 0 { TriangleClosedForm(t - 1); }
  }

  lemma {:induction false} TriangleMonotone(t: nat, u: nat)
    requires t <= u
    ensures Triangle(t) <= Triangle(u)
    decreases u
  {
    if t < u { TriangleMonotone(t, u - 1); }
  }

  /** The second ceiling passes 2^32 between 360 and 361 words. */
  lemma CeilingFits(t: nat)
    ensures t <= BLOCK_WORDS <==> Ceiling2(t) < 0x1_0000_0000
    ensures t <= BLOCK_WORDS ==> Ceiling1(t) < 0x1_0000_0000
  {
    TriangleClosedForm(360);
    TriangleClosedForm(361);
    if t <= BLOCK_WORDS { TriangleMonotone(t, 360); } else { TriangleMonotone(361, t); }
  }

  method BlockedChecksum(data: seq<Byte>) returns (c: u32)
    ensures c as int == Checksum(data)
  {
    var sum1: u32, sum2: u32 := 0xFFFF, 0xFFFF;
    var i := 0;
    ghost var n := 0;
    while i + 1 < |data|
      invariant i == 2 * n <= |data|
      invariant (sum1 as int, sum2 as int) == Sums(data, n)
    {
      var remainingWords := (|data| - i) / 2;
      var blockWords := if remainingWords < BLOCK_WORDS then remainingWords else BLOCK_WORDS;
      ghost var done := n;
      for t := 0 to blockWords
        invariant n == done + t && i == 2 * n
        invariant sum1 as int <= Ceiling1(t) && sum2 as int <= Ceiling2(t)
        invariant sum1 as int % MODULUS == Sums(data, n).0 % MODULUS
        invariant sum2 as int % MODULUS == Sums(data, n).1 % MODULUS
        invariant t > 0 ==> (sum1 as int % MODULUS, sum2 as int % MODULUS) == Sums(data, n)
      {
        CeilingFits(t + 1);
        SumsStep(data, n, sum1 as int, sum2 as int);
        var word: u32 := data[i] as u32 * 256 + data[i + 1] as u32;
        assert word as int == Word(data, n);
        sum1 := sum1 + word;
        sum2 := sum2 + sum1;
        i, n := i + 2, n + 1;
      }
      sum1 := sum1 % 65535;
      sum2 := sum2 % 65535;
    }
    c := Finish(data, i / 2, sum1, sum2);
  }

  // ---- 360 is the largest block without overflow ------------------------

  /** Both sums after adding `words` without any reduction. */
  function RawSums(start: (nat, nat), words: seq<nat>): (s: (nat, nat))
  {
    if words == [] then start
    else
      var (a, b) := RawSums(start, words[..|words| - 1]);
      var a' := a + words[|words| - 1];
      (a', b + a')
  }

  lemma {:induction false} RawSumsCeiling(start: (nat, nat), words: seq<nat>)
    requires start.0 <= 65535 && start.1 <= 65535
    requires forall i :: 0 <= i < |words| ==> words[i] <= 65535
    ensures RawSums(start, words).0 <= Ceiling1(|words|)
    ensures RawSums(start, words).1 <= Ceiling2(|words|)
  {
    if words != [] {
      RawSumsCeiling(start, words[..|words| - 1]);
    }
  }

  lemma {:induction false} RawSumsReachCeiling(n: nat)
    ensures RawSums((65535, 65535), seq(n, _ => 65535)) == (Ceiling1(n), Ceiling2(n))
  {
    if n > 0 {
      RawSumsReachCeiling(n - 1);
      assert seq(n, _ => 65535)[..n - 1] == seq(n - 1, _ => 65535);
    }
  }

  ghost predicate SafeBlock(n: nat) {
    forall start: (nat, nat), words: seq<nat> ::
      start.0 <= 65535 && start.1 <= 65535 && |words| == n && (forall i :: 0 <= i < n ==> words[i] <= 65535) ==>
        RawSums(start, words).0 < 0x1_0000_0000 && RawSums(start, words).1 < 0x1_0000_0000
  }

  lemma BlockSafeExactlyUpTo360(n: nat)
    ensures SafeBlock(n) <==> n <= BLOCK_WORDS
  {
    if n <= BLOCK_WORDS {
      forall start: (nat, nat), words: seq<nat> |
        start.0 <= 65535 && start.1 <= 65535 && |words| == n && (forall i :: 0 <= i < n ==> words[i] <= 65535)
        ensures RawSums(start, words).0 < 0x1_0000_0000 && RawSums(start, words).1 < 0x1_0000_0000
      {
        RawSumsCeiling(start, words);
        CeilingFits(n);
      }
    } else {
      RawSumsReachCeiling(n);
      CeilingFits(n);
      ghost var worst := seq(n, _ => 65535);
      ghost var start: (nat, nat) := (65535, 65535);
      assert RawSums(start, worst).1 >= 0x1_0000_0000;
    }
  }
}
