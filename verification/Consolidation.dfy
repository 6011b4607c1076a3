/** Three-tier consolidation: Working, Episodic and Semantic records, promotion
    between the tiers and eviction of the most decayed records. */
module Consolidation {
  import opened Sorting

  datatype Tier = Working | Episodic | Semantic

  datatype Record = Record(id: nat, chunk: string, tier: Tier, importance: real, accessCount: nat, lastAccessed: real,
                           createdAt: real)

  datatype Config = Config(workingCapacity: nat, episodicCapacity: nat, lambda: real, importanceThreshold: real,
                           accessThreshold: nat)

  function Rank(t: Tier): nat { match t case Working => 0 case Episodic => 1 case Semantic => 2 }

  function Elapsed(now: real, r: Record): real { if now - r.lastAccessed > 0.0 then now - r.lastAccessed else 0.0 }

  function Exponent(lambda: real, elapsed: real): real { -lambda * elapsed }

  function Decay(exp: real -> real, lambda: real, now: real, r: Record): real {
    r.importance * (r.accessCount + 1) as real * exp(Exponent(lambda, Elapsed(now, r)))
  }

  ghost predicate Grows(exp: real -> real) {
    (forall x :: exp(x) > 0.0) && forall x, y :: x < y ==> exp(x) < exp(y)
  }

  ghost predicate Multiplies(exp: real -> real) { exp(0.0) == 1.0 && forall x, y :: exp(x + y) == exp(x) * exp(y) }

  lemma ProductNoLess(a: real, b: real, c: real, d: real)
    requires a >= b >= 0.0 && c >= d >= 0.0
    ensures a * c >= b * d
  {
    assert a * c >= b * c >= b * d;
  }

  lemma LaterIsLess(exp: real -> real, lambda: real, x: real, y: real)
    requires Grows(exp) && lambda >= 0.0 && 0.0 <= x <= y
    ensures exp(Exponent(lambda, x)) >= exp(Exponent(lambda, y)) > 0.0
  {
    hide Exponent, Grows;
    ExponentFalls(lambda, x, y);
    GrowsAt(exp, Exponent(lambda, y), Exponent(lambda, x));
  }

  lemma ExponentFalls(lambda: real, x: real, y: real)
    requires lambda >= 0.0 && 0.0 <= x <= y
    ensures Exponent(lambda, x) >= Exponent(lambda, y)
  {
    ProductNoLess(lambda, lambda, y, x);
    assert -lambda * x == -(lambda * x) && -lambda * y == -(lambda * y);
  }

  lemma GrowsAt(exp: real -> real, x: real, y: real)
    requires Grows(exp) && x <= y
    ensures 0.0 < exp(x) <= exp(y)
  {
  }

  /** More important, more often and more recently accessed: no more decayed. */
  lemma DecayOrders(exp: real -> real, lambda: real, now: real, a: Record, b: Record)
    requires Grows(exp) && lambda >= 0.0
    requires a.importance >= b.importance >= 0.0 && a.accessCount >= b.accessCount && a.lastAccessed >= b.lastAccessed
    ensures Decay(exp, lambda, now, a) >= Decay(exp, lambda, now, b)
  {
    hide Grows, Exponent;
    var x, y := Exponent(lambda, Elapsed(now, a)), Exponent(lambda, Elapsed(now, b));
    LaterIsLess(exp, lambda, Elapsed(now, a), Elapsed(now, b));
    var m, n := (a.accessCount + 1) as real, (b.accessCount + 1) as real;
    ProductNoLess(a.importance, b.importance, m, n);
    ProductNoLess(a.importance * m, b.importance * n, exp(x), exp(y));
  }

  lemma ExponentAdds(lambda: real, x: real, d: real)
    ensures Exponent(lambda, x + d) == Exponent(lambda, x) + Exponent(lambda, d) && Exponent(lambda, 0.0) == 0.0
  {
  }

  lemma MultipliesAt(exp: real -> real, x: real, y: real, z: real)
    requires Multiplies(exp) && z == x + y
    ensures exp(z) == exp(x) * exp(y) && exp(0.0) == 1.0
  {
    assert exp(z) == exp(x + y);
  }

  lemma Regroup(a: real, b: real, c: real, d: real)
    requires d == b * c
    ensures a * d == a * b * c
  {
  }

  /** Left alone, a record decays exponentially; just accessed, it counts its importance once per access and once
      for its creation. */
  lemma DecaysExponentially(exp: real -> real, lambda: real, now: real, d: real, r: Record)
    requires Multiplies(exp) && now >= r.lastAccessed && d >= 0.0
    ensures Decay(exp, lambda, now + d, r) == Decay(exp, lambda, now, r) * exp(Exponent(lambda, d))
    ensures Decay(exp, lambda, r.lastAccessed, r) == r.importance * (r.accessCount + 1) as real
  {
    hide Multiplies, Exponent;
    var x := now - r.lastAccessed;
    assert Elapsed(now, r) == x && Elapsed(now + d, r) == x + d && Elapsed(r.lastAccessed, r) == 0.0;
    ExponentAdds(lambda, x, d);
    var p, q, t := Exponent(lambda, x), Exponent(lambda, d), Exponent(lambda, x + d);
    MultipliesAt(exp, p, q, t);
    Regroup(r.importance * (r.accessCount + 1) as real, exp(p), exp(q), exp(t));
  }

  /** The rank that `n` records of tier `t` carry together. */
  function RankOf(n: nat, t: Tier): nat { match t case Working => 0 case Episodic => n case Semantic => 2 * n }

  // ---- Lists of records ----------------------------------------------------------

  function Ids(records: seq<Record>): set<nat> { set r | r in records :: r.id }

  /** Ids grow along the list; in particular no id repeats. */
  ghost predicate Increasing(records: seq<Record>) {
    forall i, j :: 0 <= i < j < |records| ==> records[i].id < records[j].id
  }

  function OfTier(records: seq<Record>, t: Tier): seq<Record> {
    if records == [] then []
    else
      var before, last := OfTier(records[..|records| - 1], t), records[|records| - 1];
      if last.tier == t then before + [last] else before
  }

  function RankSum(records: seq<Record>): nat {
    if records == [] then 0 else RankSum(records[..|records| - 1]) + Rank(records[|records| - 1].tier)
  }

  /** The records whose id is not in `ids`, in order. */
  function Retain(records: seq<Record>, ids: set<nat>): seq<Record> {
    if records == [] then []
    else
      var before, last := Retain(records[..|records| - 1], ids), records[|records| - 1];
      if last.id in ids then before else before + [last]
  }

  // ---- Eviction --------------------------------------------------------------------

  /** The most decayed records of tier `t` beyond the capacity. */
  function Victims(records: seq<Record>, t: Tier, cap: nat, decay: Record -> real): seq<Record> {
    var tier := OfTier(records, t);
    if |tier| > cap then StableSort(tier, decay)[..|tier| - cap] else []
  }

  function EvictTier(records: seq<Record>, t: Tier, cap: nat, decay: Record -> real): seq<Record> {
    Retain(records, Ids(Victims(records, t, cap, decay)))
  }

  lemma {:induction false} OfTierExact(records: seq<Record>, t: Tier)
    ensures forall r :: r in OfTier(records, t) <==> r in records && r.tier == t
    ensures Increasing(records) ==> Increasing(OfTier(records, t))
  {
    if records != [] {
      hide Increasing;
      var before, last := records[..|records| - 1], records[|records| - 1];
      assert records == before + [last];
      OfTierExact(before, t);
      if Increasing(records) {
        IncreasingInit(before, last);
        IncreasingSnoc(OfTier(before, t), last);
      }
    }
  }

  lemma IncreasingInit(before: seq<Record>, last: Record)
    requires Increasing(before + [last])
    ensures Increasing(before) && forall r :: r in before ==> r.id < last.id
  {
    var records := before + [last];
    assert records[|before|] == last && forall i :: 0 <= i < |before| ==> records[i] == before[i];
  }

  lemma IncreasingSnoc(before: seq<Record>, last: Record)
    requires Increasing(before) && forall r :: r in before ==> r.id < last.id
    ensures Increasing(before + [last])
  {
    assert forall i :: 0 <= i < |before| ==> before[i] in before;
  }

  lemma {:induction false} RetainExact(records: seq<Record>, ids: set<nat>)
    ensures forall r :: r in Retain(records, ids) <==> r in records && r.id !in ids
    ensures Increasing(records) ==> Increasing(Retain(records, ids))
  {
    if records != [] {
      hide Increasing;
      var before, last := records[..|records| - 1], records[|records| - 1];
      assert records == before + [last];
      RetainExact(before, ids);
      if Increasing(records) {
        IncreasingInit(before, last);
        IncreasingSnoc(Retain(before, ids), last);
      }
    }
  }

  lemma Snoc(before: seq<Record>, last: Record, ids: set<nat>, t: Tier)
    ensures OfTier(before + [last], t) == if last.tier == t then OfTier(before, t) + [last] else OfTier(before, t)
    ensures RankSum(before + [last]) == RankSum(before) + Rank(last.tier)
    ensures Retain(before + [last], ids) == if last.id in ids then Retain(before, ids) else Retain(before, ids) + [last]
    ensures Ids(before + [last]) == Ids(before) + {last.id}
  {
    assert (before + [last])[..|before|] == before;
  }

  /** Every id names a record, and every record named is of tier `t`. */
  ghost predicate NamesTier(records: seq<Record>, ids: set<nat>, t: Tier) {
    ids <= Ids(records) && forall r :: r in records && r.id in ids ==> r.tier == t
  }

  lemma NamesTierInit(before: seq<Record>, last: Record, ids: set<nat>, t: Tier)
    requires Increasing(before + [last]) && NamesTier(before + [last], ids, t)
    ensures Increasing(before) && NamesTier(before, ids - {last.id}, t)
    ensures last.id in ids ==> last.tier == t
    ensures Retain(before, ids) == Retain(before, ids - {last.id})
  {
    var records := before + [last];
    assert records[|before|] == last && forall i :: 0 <= i < |before| ==> records[i] == before[i];
    assert last in records && forall r :: r in before ==> r in records && r.id < last.id;
    RetainUntouched(before, ids, last.id);
  }

  /** Retaining loses exactly the named records, and each lost record takes its rank along. */
  lemma {:induction false} RetainCounts(records: seq<Record>, ids: set<nat>, t: Tier)
    requires Increasing(records) && NamesTier(records, ids, t)
    ensures |Retain(records, ids)| == |records| - |ids|
    ensures |OfTier(Retain(records, ids), t)| == |OfTier(records, t)| - |ids|
    ensures RankSum(Retain(records, ids)) == RankSum(records) - RankOf(|ids|, t)
    decreases |records|
  {
    if records == [] {
      assert ids == {};
    } else {
      RetainCountsStep(records[..|records| - 1], records[|records| - 1], ids, t);
    }
  }

  lemma {:induction false} RetainCountsStep(before: seq<Record>, last: Record, ids: set<nat>, t: Tier)
    requires Increasing(before + [last]) && NamesTier(before + [last], ids, t)
    ensures |Retain(before + [last], ids)| == |before| + 1 - |ids|
    ensures |OfTier(Retain(before + [last], ids), t)| == |OfTier(before + [last], t)| - |ids|
    ensures RankSum(Retain(before + [last], ids)) == RankSum(before + [last]) - RankOf(|ids|, t)
    decreases |before| + 1, 0
  {
    hide OfTier, RankSum, Retain, NamesTier, Increasing;
    var rest := ids - {last.id};
    Snoc(before, last, ids, t);
    NamesTierInit(before, last, ids, t);
    RetainCounts(before, rest, t);
    Snoc(Retain(before, ids), last, ids, t);
    if last.id !in ids {
      assert rest == ids;
    }
  }

  lemma {:induction false} RetainOtherTiers(records: seq<Record>, ids: set<nat>, u: Tier)
    requires forall r :: r in records && r.id in ids ==> r.tier != u
    ensures OfTier(Retain(records, ids), u) == OfTier(records, u)
    decreases |records|
  {
    if records != [] {
      hide RankSum, Ids;
      var before, last := records[..|records| - 1], records[|records| - 1];
      assert records == before + [last];
      Snoc(before, last, ids, u);
      RetainOtherTiers(before, ids, u);
      Snoc(Retain(before, ids), last, ids, u);
    }
  }

  lemma {:induction false} RetainUntouched(records: seq<Record>, ids: set<nat>, id: nat)
    requires forall r :: r in records ==> r.id != id
    ensures Retain(records, ids) == Retain(records, ids - {id})
  {
    if records != [] {
      var before := records[..|records| - 1];
      assert forall r :: r in before ==> r in records;
      assert records[|records| - 1] in records;
      RetainUntouched(before, ids, id);
    }
  }

  lemma {:induction false} IdsSize(records: seq<Record>)
    requires forall i, j :: 0 <= i < j < |records| ==> records[i].id != records[j].id
    ensures |Ids(records)| == |records|
  {
    if records != [] {
      var before, last := records[..|records| - 1], records[|records| - 1];
      IdsSize(before);
      assert records == before + [last];
      assert Ids(records) == Ids(before) + {last.id};
      assert last.id !in Ids(before);
    }
  }

  /** Rearranging records keeps ids distinct and membership. */
  lemma SortedTier(tier: seq<Record>, decay: Record -> real)
    requires Increasing(tier)
    ensures var s := StableSort(tier, decay);
      Sorted(s, decay) && (forall r :: r in s <==> r in tier) &&
      forall i, j :: 0 <= i < j < |s| ==> s[i].id != s[j].id
  {
    var s := StableSort(tier, decay);
    SortIsStableSort(tier, decay);
    hide StableSort;
    forall r
      ensures r in s <==> r in tier
    {
      assert r in multiset(s) <==> r in multiset(tier);
    }
    forall i, j | 0 <= i < j < |s|
      ensures s[i].id != s[j].id
    {
      assert s == s[..i] + [s[i]] + s[i + 1..j] + [s[j]] + s[j + 1..];
      assert multiset(s) >= multiset{s[i], s[j]};
      TwiceNeverEqual(tier, s[i], s[j]);
    }
  }

  lemma {:induction false} TwiceNeverEqual(tier: seq<Record>, a: Record, b: Record)
    requires Increasing(tier) && multiset{a, b} <= multiset(tier)
    ensures a.id != b.id
  {
    if tier != [] {
      var before, last := tier[..|tier| - 1], tier[|tier| - 1];
      assert tier == before + [last];
      assert multiset(tier) == multiset(before) + multiset{last};
      if a != last && b != last {
        TwiceNeverEqual(before, a, b);
      } else {
        var other := if a == last then b else a;
        assert other in multiset(before);
        assert other in before;
      }
    }
  }

  /** What eviction from one tier does, for any decay function. */
  ghost predicate Evicts(records: seq<Record>, kept: seq<Record>, t: Tier, cap: nat, decay: Record -> real) {
    var n := |OfTier(records, t)|;
    var evicted := if n > cap then n - cap else 0;
    && Increasing(kept) && |kept| == |records| - evicted
    && (forall r :: r in kept ==> r in records)
    && |OfTier(kept, t)| == (if n > cap then cap else n)
    && (forall u :: u != t ==> OfTier(kept, u) == OfTier(records, u))
    && RankSum(kept) == RankSum(records) - RankOf(evicted, t)
    && (forall v, u :: v in records && v !in kept && u in kept && u.tier == t ==> v.tier == t && decay(v) <= decay(u))
    && (forall v :: v in records && v !in kept ==> v.tier == t)
  }

  lemma FrontLowest(s: seq<Record>, n: nat, decay: Record -> real, v: Record, u: Record)
    requires Sorted(s, decay) && n <= |s| && v in s[..n] && u in s && u !in s[..n]
    ensures decay(v) <= decay(u)
  {
    var i :| 0 <= i < n && s[..n][i] == v;
    var j :| 0 <= j < |s| && s[j] == u;
    assert j >= n;
  }

  /** The victims are records of the tier with distinct ids, none less decayed than a survivor. */
  lemma VictimsExact(records: seq<Record>, t: Tier, cap: nat, decay: Record -> real)
    requires Increasing(records)
    ensures var victims := Victims(records, t, cap, decay);
      var n := |OfTier(records, t)|;
      |Ids(victims)| == |victims| == (if n > cap then n - cap else 0) &&
      (forall v :: v in victims ==> v in records && v.tier == t) &&
      (forall r :: r in records && r.id in Ids(victims) ==> r in victims) &&
      forall v, u :: v in victims && u in records && u.tier == t && u !in victims ==> decay(v) <= decay(u)
  {
    hide StableSort, OfTier, Sorted;
    var tier, victims := OfTier(records, t), Victims(records, t, cap, decay);
    var s := StableSort(tier, decay);
    OfTierExact(records, t);
    SortedTier(tier, decay);
    IdsSize(victims);
    assert forall v :: v in victims ==> v in s;
    forall r | r in records && r.id in Ids(victims)
      ensures r in victims
    {
      var v :| v in victims && v.id == r.id;
      SameIdSame(records, r, v);
    }
    forall v, u | v in victims && u in records && u.tier == t && u !in victims
      ensures decay(v) <= decay(u)
    {
      assert u in tier && u in s;
      FrontLowest(s, |victims|, decay, v, u);
    }
  }

  /** The counts after an eviction. */
  lemma EvictTierCounts(records: seq<Record>, t: Tier, cap: nat, decay: Record -> real)
    requires Increasing(records)
    ensures var n := |OfTier(records, t)|;
      var evicted := if n > cap then n - cap else 0;
      var kept := EvictTier(records, t, cap, decay);
      && |kept| == |records| - evicted && |OfTier(kept, t)| == n - evicted
      && RankSum(kept) == RankSum(records) - RankOf(evicted, t)
      && forall u :: u != t ==> OfTier(kept, u) == OfTier(records, u)
  {
    hide OfTier, Retain, RankSum, Victims, RankOf;
    var ids := Ids(Victims(records, t, cap, decay));
    VictimsExact(records, t, cap, decay);
    assert NamesTier(records, ids, t);
    RetainCounts(records, ids, t);
    forall u | u != t { RetainOtherTiers(records, ids, u); }
  }

  /** Which records an eviction keeps. */
  lemma EvictTierKeeps(records: seq<Record>, t: Tier, cap: nat, decay: Record -> real)
    requires Increasing(records)
    ensures var victims, kept := Victims(records, t, cap, decay), EvictTier(records, t, cap, decay);
      && Increasing(kept) && (forall r :: r in kept <==> r in records && r !in victims)
  {
    hide OfTier, Retain, Victims, Increasing;
    var victims := Victims(records, t, cap, decay);
    VictimsExact(records, t, cap, decay);
    RetainExact(records, Ids(victims));
    assert forall u :: u in victims ==> u.id in Ids(victims);
  }

  lemma EvictTierEvicts(records: seq<Record>, t: Tier, cap: nat, decay: Record -> real)
    requires Increasing(records)
    ensures Evicts(records, EvictTier(records, t, cap, decay), t, cap, decay)
  {
    hide OfTier, EvictTier, RankSum, Victims, RankOf, Increasing, Ids;
    EvictTierCounts(records, t, cap, decay);
    EvictTierKeeps(records, t, cap, decay);
    VictimsExact(records, t, cap, decay);
  }

  lemma SameIdSame(records: seq<Record>, a: Record, b: Record)
    requires Increasing(records) && a in records && b in records && a.id == b.id
    ensures a == b
  {
    var i :| 0 <= i < |records| && records[i] == a;
    var j :| 0 <= j < |records| && records[j] == b;
    assert i == j;
  }

  // ---- Promotion and access: one record at a time, ids untouched ------------------

  function ToEpisodic(threshold: real, r: Record): Record {
    if r.tier == Working && r.importance > threshold then r.(tier := Episodic) else r
  }

  function ToSemantic(threshold: nat, r: Record): Record {
    if r.tier == Episodic && r.accessCount > threshold then r.(tier := Semantic) else r
  }

  function Touched(id: nat, now: real, r: Record): Record {
    if r.id == id then r.(accessCount := r.accessCount + 1, lastAccessed := now) else r
  }

  function EpisodicStep(config: Config): Record -> Record { (r: Record) => ToEpisodic(config.importanceThreshold, r) }

  function SemanticStep(config: Config): Record -> Record { (r: Record) => ToSemantic(config.accessThreshold, r) }

  function DecayAt(exp: real -> real, lambda: real, now: real): Record -> real {
    (r: Record) => Decay(exp, lambda, now, r)
  }

  function EpisodicDue(config: Config): Record -> bool { (r: Record) => r.importance > config.importanceThreshold }

  function SemanticDue(config: Config): Record -> bool { (r: Record) => r.accessCount > config.accessThreshold }

  /** `f` moves exactly the due records of `source` one tier up. */
  ghost predicate Promotes(f: Record -> Record, source: Tier, target: Tier, due: Record -> bool) {
    && Rank(target) == Rank(source) + 1
    && forall r :: f(r) == if r.tier == source && due(r) then r.(tier := target) else r
  }

  lemma PromotesOne(f: Record -> Record, source: Tier, target: Tier, due: Record -> bool, r: Record)
    requires Promotes(f, source, target, due)
    ensures f(r) == if r.tier == source && due(r) then r.(tier := target) else r
    ensures Rank(f(r).tier) - Rank(r.tier) == if r.tier == source && due(r) then 1 else 0
  {
  }

  lemma EpisodicPromotes(config: Config)
    ensures Promotes(EpisodicStep(config), Working, Episodic, EpisodicDue(config))
  {
  }

  lemma SemanticPromotes(config: Config)
    ensures Promotes(SemanticStep(config), Episodic, Semantic, SemanticDue(config))
  {
    forall r: Record
      ensures SemanticStep(config)(r) == ToSemantic(config.accessThreshold, r)
      ensures SemanticDue(config)(r) == (r.accessCount > config.accessThreshold)
    {
    }
  }

  function Mapped(records: seq<Record>, f: Record -> Record): (mapped: seq<Record>)
    ensures |mapped| == |records| && forall i :: 0 <= i < |records| ==> mapped[i] == f(records[i])
  {
    seq(|records|, i requires 0 <= i < |records| => f(records[i]))
  }

  /** `later` is `earlier` some operations on: same identity and content, tier and accesses no lower. */
  ghost predicate Carries(earlier: Record, later: Record) {
    && earlier.id == later.id && earlier.chunk == later.chunk && earlier.importance == later.importance
    && earlier.createdAt == later.createdAt
    && earlier.accessCount <= later.accessCount && Rank(earlier.tier) <= Rank(later.tier)
  }

  function Raised(records: seq<Record>, f: Record -> Record): int {
    RankSum(Mapped(records, f)) - RankSum(records)
  }

  lemma MappedSnoc(before: seq<Record>, last: Record, f: Record -> Record)
    ensures Mapped(before + [last], f) == Mapped(before, f) + [f(last)]
    ensures Raised(before + [last], f) == Raised(before, f) + Rank(f(last).tier) - Rank(last.tier)
  {
    assert Mapped(before + [last], f) == Mapped(before, f) + [f(last)];
    Snoc(before, last, {}, Working);
    Snoc(Mapped(before, f), f(last), {}, Working);
  }

  lemma RaisedEmpty(f: Record -> Record)
    ensures Mapped([], f) == [] && Raised([], f) == 0
  {
    assert Mapped([], f) == [];
  }

  lemma MappedIncreasing(records: seq<Record>, f: Record -> Record)
    requires Increasing(records) && forall r :: f(r).id == r.id
    ensures Increasing(Mapped(records, f))
  {
  }

  /** A map that lets no record into tier `t` leaves no more records there. */
  lemma {:induction false} MappedTierShrinks(records: seq<Record>, f: Record -> Record, t: Tier)
    requires forall r :: f(r).tier == t ==> r.tier == t
    ensures |OfTier(Mapped(records, f), t)| <= |OfTier(records, t)|
    decreases |records|
  {
    if records == [] {
      assert Mapped(records, f) == [];
    } else {
      hide OfTier, Mapped;
      var before, last := records[..|records| - 1], records[|records| - 1];
      assert records == before + [last];
      MappedTierShrinks(before, f, t);
      MappedSnoc(before, last, f);
      Snoc(before, last, {}, t);
      Snoc(Mapped(before, f), f(last), {}, t);
    }
  }

  // ---- The engine as a state machine ------------------------------------------------

  /** `forgotten` counts the Episodic evictions among `evictions`. */
  datatype State = State(records: seq<Record>, nextId: nat, evictions: nat, promotions: int, forgotten: nat)

  datatype Action =
    | Add(chunk: string, importance: real, at: real)
    | Access(id: nat, at: real)
    | Consolidate(decay: Record -> real)

  function Start(): State { State([], 0, 0, 0, 0) }

  function Step(config: Config, s: State, a: Action): State {
    match a
    case Add(chunk, importance, at) =>
      s.(records := s.records + [Record(s.nextId, chunk, Working, importance, 0, at, at)], nextId := s.nextId + 1)
    case Access(id, at) => s.(records := Mapped(s.records, (r: Record) => Touched(id, at, r)))
    case Consolidate(decay) =>
      var kept := EvictTier(s.records, Working, config.workingCapacity, decay);
      var toEpisodic := EpisodicStep(config);
      var toSemantic := SemanticStep(config);
      var raised := Mapped(Mapped(kept, toEpisodic), toSemantic);
      var left := EvictTier(raised, Episodic, config.episodicCapacity, decay);
      State(left, s.nextId,
            s.evictions + Overflow(s.records, Working, config.workingCapacity)
                        + Overflow(raised, Episodic, config.episodicCapacity),
            s.promotions + Raised(kept, toEpisodic) + Raised(Mapped(kept, toEpisodic), toSemantic),
            s.forgotten + Overflow(raised, Episodic, config.episodicCapacity))
  }

  function Overflow(records: seq<Record>, t: Tier, cap: nat): nat {
    var n := |OfTier(records, t)|;
    if n > cap then n - cap else 0
  }

  function Run(config: Config, s: State, actions: seq<Action>): State
    decreases |actions|
  {
    if actions == [] then s else Run(config, Step(config, s, actions[0]), actions[1..])
  }

  /** Every id handed out is on a record or was evicted; every promotion still shows in a
      record's tier or left with a forgotten Episodic record. */
  ghost predicate Inv(s: State) {
    && Increasing(s.records) && (forall r :: r in s.records ==> r.id < s.nextId)
    && s.nextId == |s.records| + s.evictions
    && s.promotions == RankSum(s.records) + s.forgotten
    && s.forgotten <= s.evictions
  }

  lemma AddKeepsInv(config: Config, s: State, a: Action)
    requires Inv(s) && a.Add?
    ensures Inv(Step(config, s, a))
  {
    var last := Record(s.nextId, a.chunk, Working, a.importance, 0, a.at, a.at);
    Snoc(s.records, last, {}, Working);
    forall i, j | 0 <= i < j < |s.records| + 1
      ensures (s.records + [last])[i].id < (s.records + [last])[j].id
    {
      assert s.records[i] in s.records;
    }
  }

  lemma {:induction false} TouchKeepsRanks(records: seq<Record>, f: Record -> Record)
    requires forall r :: f(r).tier == r.tier
    ensures Raised(records, f) == 0
    decreases |records|
  {
    if records == [] {
      assert Mapped(records, f) == [];
    } else {
      var before, last := records[..|records| - 1], records[|records| - 1];
      assert records == before + [last];
      TouchKeepsRanks(before, f);
      MappedSnoc(before, last, f);
    }
  }

  lemma MappedIds(records: seq<Record>, f: Record -> Record, bound: nat)
    requires (forall r :: f(r).id == r.id) && forall r :: r in records ==> r.id < bound
    ensures forall r :: r in Mapped(records, f) ==> r.id < bound
  {
    forall r | r in Mapped(records, f)
      ensures r.id < bound
    {
      var i :| 0 <= i < |records| && Mapped(records, f)[i] == r;
      assert records[i] in records;
    }
  }

  lemma AccessKeepsInv(config: Config, s: State, a: Action)
    requires Inv(s) && a.Access?
    ensures Inv(Step(config, s, a))
  {
    var f := (r: Record) => Touched(a.id, a.at, r);
    MappedIncreasing(s.records, f);
    TouchKeepsRanks(s.records, f);
    MappedIds(s.records, f, s.nextId);
  }

  /** The four lists a consolidation goes through. */
  lemma ConsolidateStages(config: Config, s: State, a: Action)
    returns (kept: seq<Record>, middle: seq<Record>, raised: seq<Record>, t: State)
    requires Inv(s) && a.Consolidate?
    ensures kept == EvictTier(s.records, Working, config.workingCapacity, a.decay)
    ensures middle == Mapped(kept, EpisodicStep(config))
    ensures raised == Mapped(middle, SemanticStep(config))
    ensures t == Step(config, s, a) && t.records == EvictTier(raised, Episodic, config.episodicCapacity, a.decay)
    ensures Evicts(s.records, kept, Working, config.workingCapacity, a.decay)
    ensures Increasing(s.records) && Increasing(middle) && Increasing(raised)
    ensures t.nextId == s.nextId
    ensures t.promotions == s.promotions + Raised(kept, EpisodicStep(config)) + Raised(middle, SemanticStep(config))
    ensures t.forgotten == s.forgotten + Overflow(raised, Episodic, config.episodicCapacity)
    ensures t.evictions == s.evictions + Overflow(s.records, Working, config.workingCapacity)
                         + Overflow(raised, Episodic, config.episodicCapacity)
    ensures Evicts(raised, t.records, Episodic, config.episodicCapacity, a.decay)
  {
    hide EvictTier, Evicts, OfTier, RankSum;
    t := Step(config, s, a);
    kept := EvictTier(s.records, Working, config.workingCapacity, a.decay);
    EvictTierEvicts(s.records, Working, config.workingCapacity, a.decay);
    assert Increasing(kept) by { EvictsIncreasing(s.records, kept, Working, config.workingCapacity, a.decay); }
    var f, g := EpisodicStep(config), SemanticStep(config);
    middle := Mapped(kept, f);
    MappedIncreasing(kept, f);
    raised := Mapped(middle, g);
    MappedIncreasing(middle, g);
    EvictTierEvicts(raised, Episodic, config.episodicCapacity, a.decay);
  }

  lemma EvictsIncreasing(records: seq<Record>, kept: seq<Record>, t: Tier, cap: nat, decay: Record -> real)
    requires Evicts(records, kept, t, cap, decay)
    ensures Increasing(kept) && |kept| == |records| - Overflow(records, t, cap)
    ensures RankSum(kept) == RankSum(records) - RankOf(Overflow(records, t, cap), t)
    ensures |OfTier(kept, t)| <= cap
    ensures forall r :: r in kept ==> r in records
  {
  }

  lemma ConsolidateKeepsInv(config: Config, s: State, a: Action)
    requires Inv(s) && a.Consolidate?
    ensures Inv(Step(config, s, a))
  {
    hide EvictTier, Evicts, OfTier, RankSum, Mapped, Increasing, Overflow;
    var kept, middle, raised, t := ConsolidateStages(config, s, a);
    var f, g := EpisodicStep(config), SemanticStep(config);
    EvictsIncreasing(s.records, kept, Working, config.workingCapacity, a.decay);
    MappedIds(kept, f, s.nextId);
    MappedIds(middle, g, s.nextId);
    EvictsIncreasing(raised, t.records, Episodic, config.episodicCapacity, a.decay);
  }

  /** Both tiers are within capacity after every consolidation, whatever came before it. */
  lemma ConsolidateBounds(config: Config, s: State, a: Action)
    requires Inv(s) && a.Consolidate?
    ensures var t := Step(config, s, a);
      |OfTier(t.records, Working)| <= config.workingCapacity && |OfTier(t.records, Episodic)| <= config.episodicCapacity
  {
    hide EvictTier, OfTier, RankSum, Mapped, Increasing;
    var kept, middle, raised, t := ConsolidateStages(config, s, a);
    var f, g := EpisodicStep(config), SemanticStep(config);
    EvictsIncreasing(s.records, kept, Working, config.workingCapacity, a.decay);
    MappedTierShrinks(kept, f, Working);
    MappedTierShrinks(middle, g, Working);
    EvictsIncreasing(raised, t.records, Episodic, config.episodicCapacity, a.decay);
    assert OfTier(t.records, Working) == OfTier(raised, Working);
  }

  /** `x` is `r` after promotion: an important Working record goes up to Episodic, and from there, as any Episodic
      record, up to Semantic if it was accessed often enough. */
  ghost predicate Climbs(config: Config, r: Record, x: Record) {
    && x == r.(tier := x.tier)
    && (r.tier == Working ==> (x.tier == Working <==> r.importance <= config.importanceThreshold))
    && (r.tier == Working && r.importance > config.importanceThreshold ==>
          x.tier == if r.accessCount > config.accessThreshold then Semantic else Episodic)
    && (r.tier == Episodic ==> x.tier == if r.accessCount > config.accessThreshold then Semantic else Episodic)
    && (r.tier == Semantic ==> x.tier == Semantic)
  }

  /** A consolidation, declaratively: first the Working overflow goes, then records climb, by importance and then by
      accesses, and then the Episodic overflow goes. */
  lemma ConsolidateFates(config: Config, s: State, a: Action) returns (kept: seq<Record>, raised: seq<Record>)
    requires Inv(s) && a.Consolidate?
    ensures Evicts(s.records, kept, Working, config.workingCapacity, a.decay)
    ensures |raised| == |kept| && forall i :: 0 <= i < |kept| ==> Climbs(config, kept[i], raised[i])
    ensures Evicts(raised, Step(config, s, a).records, Episodic, config.episodicCapacity, a.decay)
  {
    hide EvictTier, Evicts, OfTier, RankSum, Increasing, Overflow, Step;
    var middle, t;
    kept, middle, raised, t := ConsolidateStages(config, s, a);
    forall i | 0 <= i < |kept|
      ensures Climbs(config, kept[i], raised[i])
    {
      assert middle[i] == ToEpisodic(config.importanceThreshold, kept[i]);
      assert raised[i] == ToSemantic(config.accessThreshold, middle[i]);
    }
  }

  // ---- Whole runs --------------------------------------------------------------------

  ghost predicate HasAncestor(records: seq<Record>, later: Record) { exists r :: r in records && Carries(r, later) }

  ghost predicate HasHeir(records: seq<Record>, earlier: Record) {
    exists r :: r in records && r.tier == Semantic && Carries(earlier, r)
  }

  /** Every record of `later` that is not newer than `earlier` was already there, in no higher
      a tier; every Semantic record of `earlier` is still there and still Semantic. */
  ghost predicate Descends(earlier: seq<Record>, later: seq<Record>, bound: nat) {
    && (forall r :: r in later && r.id < bound ==> HasAncestor(earlier, r))
    && (forall r :: r in earlier && r.tier == Semantic ==> HasHeir(later, r))
  }

  lemma DescendsChains(a: seq<Record>, b: seq<Record>, c: seq<Record>, bound: nat, next: nat)
    requires Descends(a, b, bound) && Descends(b, c, next) && bound <= next
    ensures Descends(a, c, bound)
  {
    forall r | r in c && r.id < bound
      ensures HasAncestor(a, r)
    {
      assert HasAncestor(b, r);
      var m :| m in b && Carries(m, r);
      assert HasAncestor(a, m);
    }
    forall r | r in a && r.tier == Semantic
      ensures HasHeir(c, r)
    {
      assert HasHeir(b, r);
      var m :| m in b && m.tier == Semantic && Carries(r, m);
      assert HasHeir(c, m);
    }
  }

  lemma MappedDescends(records: seq<Record>, f: Record -> Record, bound: nat)
    requires forall r :: Carries(r, f(r))
    ensures Descends(records, Mapped(records, f), bound)
  {
    var mapped := Mapped(records, f);
    forall r | r in mapped && r.id < bound
      ensures HasAncestor(records, r)
    {
      var i :| 0 <= i < |mapped| && mapped[i] == r;
      assert records[i] in records && Carries(records[i], r);
    }
    forall r | r in records && r.tier == Semantic
      ensures HasHeir(mapped, r)
    {
      var i :| 0 <= i < |records| && records[i] == r;
      assert mapped[i] in mapped && Carries(r, f(r));
    }
  }

  lemma EvictsDescends(records: seq<Record>, kept: seq<Record>, t: Tier, cap: nat, decay: Record -> real, bound: nat)
    requires Evicts(records, kept, t, cap, decay) && t != Semantic
    ensures Descends(records, kept, bound)
  {
    hide OfTier, RankSum;
    forall r | r in kept && r.id < bound
      ensures HasAncestor(records, r)
    {
      assert r in records && Carries(r, r);
    }
    forall r | r in records && r.tier == Semantic
      ensures HasHeir(kept, r)
    {
      assert r in kept && Carries(r, r);
    }
  }

  lemma StepDescends(config: Config, s: State, a: Action)
    requires Inv(s)
    ensures Inv(Step(config, s, a)) && s.nextId <= Step(config, s, a).nextId
    ensures Descends(s.records, Step(config, s, a).records, s.nextId)
  {
    hide Inv, EvictTier, Evicts, Descends, OfTier, RankSum, Mapped, Increasing, Overflow;
    match a
    case Add(chunk, importance, at) =>
      AddKeepsInv(config, s, a);
      AddDescends(s.records, Record(s.nextId, chunk, Working, importance, 0, at, at));
    case Access(id, at) =>
      AccessKeepsInv(config, s, a);
      MappedDescends(s.records, (r: Record) => Touched(id, at, r), s.nextId);
    case Consolidate(decay) =>
      ConsolidateKeepsInv(config, s, a);
      var kept, middle, raised, t := ConsolidateStages(config, s, a);
      EvictsDescends(s.records, kept, Working, config.workingCapacity, decay, s.nextId);
      MappedDescends(kept, EpisodicStep(config), s.nextId);
      DescendsChains(s.records, kept, middle, s.nextId, s.nextId);
      MappedDescends(middle, SemanticStep(config), s.nextId);
      DescendsChains(s.records, middle, raised, s.nextId, s.nextId);
      EvictsDescends(raised, t.records, Episodic, config.episodicCapacity, decay, s.nextId);
      DescendsChains(s.records, raised, t.records, s.nextId, s.nextId);
  }

  lemma AddDescends(records: seq<Record>, added: Record)
    ensures Descends(records, records + [added], added.id)
  {
    forall r | r in records + [added] && r.id < added.id
      ensures HasAncestor(records, r)
    {
      assert r in records && Carries(r, r);
    }
    forall r | r in records && r.tier == Semantic
      ensures HasHeir(records + [added], r)
    {
      assert r in records + [added] && Carries(r, r);
    }
  }

  /** Over any run from any reachable state: the accounting holds, no record's tier ever moves
      back, no Semantic record is ever lost, and no id is ever reissued. */
  lemma {:induction false} RunDescends(config: Config, s: State, actions: seq<Action>)
    requires Inv(s)
    ensures Inv(Run(config, s, actions)) && s.nextId <= Run(config, s, actions).nextId
    ensures Descends(s.records, Run(config, s, actions).records, s.nextId)
    decreases |actions|
  {
    hide Inv, Descends, Step;
    if actions == [] {
      MappedDescends(s.records, (r: Record) => r, s.nextId);
      assert Mapped(s.records, (r: Record) => r) == s.records;
    } else {
      var t := Step(config, s, actions[0]);
      StepDescends(config, s, actions[0]);
      RunDescends(config, t, actions[1..]);
      DescendsChains(s.records, t.records, Run(config, s, actions).records, s.nextId, t.nextId);
    }
  }

  // ---- The engine itself --------------------------------------------------------------

  class ConsolidationEngine {
    const config: Config
    var records: seq<Record>
    var nextId: nat
    var totalEvictions: nat
    var totalPromotions: int
    ghost var forgotten: nat

    ghost function View(): State reads this { State(records, nextId, totalEvictions, totalPromotions, forgotten) }

    ghost predicate Valid() reads this { Inv(View()) }

    constructor (config: Config)
      ensures this.config == config && View() == Start() && Valid()
    {
      this.config := config;
      records, nextId, totalEvictions, totalPromotions, forgotten := [], 0, 0, 0, 0;
    }

    method AddMemory(chunk: string, importance: real, now: real) returns (id: nat)
      requires Valid()
      modifies this
      ensures Valid() && View() == Step(config, old(View()), Action.Add(chunk, importance, now))
      ensures id == old(nextId) && forall r :: r in old(records) ==> r.id != id
      ensures records == old(records) + [Record(id, chunk, Working, importance, 0, now, now)]
    {
      AddKeepsInv(config, View(), Action.Add(chunk, importance, now));
      id := nextId;
      nextId := nextId + 1;
      records := records + [Record(id, chunk, Working, importance, 0, now, now)];
    }

    method AccessMemory(id: nat, now: real)
      requires Valid()
      modifies this
      ensures Valid() && View() == Step(config, old(View()), Action.Access(id, now))
      ensures |records| == |old(records)|
      ensures forall i :: 0 <= i < |records| && old(records)[i].id != id ==> records[i] == old(records)[i]
      ensures forall i :: 0 <= i < |records| && old(records)[i].id == id ==>
        records[i] == old(records)[i].(accessCount := old(records)[i].accessCount + 1, lastAccessed := now)
    {
      hide OfTier, RankSum, EvictTier, Raised, Overflow, Increasing, Mapped, Carries;
      AccessKeepsInv(config, View(), Action.Access(id, now));
      ghost var before := records;
      var i := 0;
      while i < |records| && records[i].id != id
        invariant i <= |records| && records == before
        invariant forall k :: 0 <= k < i ==> records[k].id != id
      {
        i := i + 1;
      }
      TouchFirst(records, i, id, now);
      if i < |records| {
        records := records[i := Touched(id, now, records[i])];
      }
    }

    /** The loop of one promotion step. */
    method Promote(ghost f: Record -> Record, source: Tier, target: Tier, due: Record -> bool) returns (promotions: nat)
      requires Promotes(f, source, target, due)
      modifies this`records
      ensures records == Mapped(old(records), f) && promotions == Raised(old(records), f)
    {
      hide Raised, RankSum, Rank, Mapped, Promotes;
      ghost var before := records;
      promotions := 0;
      RaisedEmpty(f);
      for i := 0 to |records|
        invariant |records| == |before| && records[i..] == before[i..]
        invariant records[..i] == Mapped(before[..i], f)
        invariant promotions == Raised(before[..i], f)
      {
        assert records[i] == records[i..][0] == before[i];
        assert before[..i + 1] == before[..i] + [before[i]];
        MappedSnoc(before[..i], before[i], f);
        PromotesOne(f, source, target, due, before[i]);
        ghost var front := records[..i];
        if records[i].tier == source && due(records[i]) {
          records := records[i := records[i].(tier := target)];
          promotions := promotions + 1;
        }
        assert records[..i + 1] == front + [f(before[i])];
        assert records[i + 1..] == before[i..][1..] == before[i + 1..];
      }
      assert before[..|before|] == before && records[..|records|] == records;
    }

    /** Evicts the most decayed records of a tier beyond its capacity. */
    method Evict(t: Tier, cap: nat, decay: Record -> real)
      requires Increasing(records)
      modifies this`records, this`totalEvictions
      ensures records == EvictTier(old(records), t, cap, decay)
      ensures totalEvictions == old(totalEvictions) + Overflow(old(records), t, cap)
    {
      hide OfTier, Retain, StableSort, Ids, EvictTier, Increasing;
      NothingEvicted(records, t, cap, decay);
      var tier := OfTier(records, t);
      if |tier| > cap {
        var victims := StableSort(tier, decay)[..|tier| - cap];
        assert EvictTier(records, t, cap, decay) == Retain(records, Ids(victims)) by {
          EvictedAre(records, t, cap, decay);
        }
        records := Retain(records, Ids(victims));
        totalEvictions := totalEvictions + (|tier| - cap);
      }
    }

    method ConsolidateAll(exp: real -> real, now: real)
      requires Valid()
      modifies this
      ensures Valid()
      ensures View() == Step(config, old(View()), Action.Consolidate(DecayAt(exp, config.lambda, now)))
    {
      hide EvictTier, Evicts, OfTier, RankSum, Mapped, Increasing, Overflow, Raised, DecayAt, Step, Inv;
      hide EpisodicStep, SemanticStep, EpisodicDue, SemanticDue, Promotes;
      EpisodicPromotes(config);
      SemanticPromotes(config);
      var decay := DecayAt(exp, config.lambda, now);
      ghost var s := View();
      ConsolidateKeepsInv(config, s, Action.Consolidate(decay));
      ghost var kept, middle, raised, t := ConsolidateStages(config, s, Action.Consolidate(decay));
      Evict(Working, config.workingCapacity, decay);
      var promotions := Promote(EpisodicStep(config), Working, Episodic, EpisodicDue(config));
      totalPromotions := totalPromotions + promotions;
      promotions := Promote(SemanticStep(config), Episodic, Semantic, SemanticDue(config));
      totalPromotions := totalPromotions + promotions;
      forgotten := forgotten + Overflow(records, Episodic, config.episodicCapacity);
      Evict(Episodic, config.episodicCapacity, decay);
    }
  }

  lemma NothingEvicted(records: seq<Record>, t: Tier, cap: nat, decay: Record -> real)
    ensures |OfTier(records, t)| <= cap ==> EvictTier(records, t, cap, decay) == records
  {
    hide OfTier, Retain, StableSort;
    RetainNone(records);
    assert Ids([]) == {};
  }

  lemma EvictedAre(records: seq<Record>, t: Tier, cap: nat, decay: Record -> real)
    requires |OfTier(records, t)| > cap
    ensures |StableSort(OfTier(records, t), decay)| == |OfTier(records, t)|
    ensures EvictTier(records, t, cap, decay)
         == Retain(records, Ids(StableSort(OfTier(records, t), decay)[..|OfTier(records, t)| - cap]))
  {
    hide OfTier, Retain, Ids;
  }

  /** Touching the first record with the id touches every record with it. */
  lemma TouchFirst(records: seq<Record>, i: nat, id: nat, now: real)
    requires Increasing(records) && i <= |records| && (forall k :: 0 <= k < i ==> records[k].id != id)
    requires i < |records| ==> records[i].id == id
    ensures Mapped(records, (r: Record) => Touched(id, now, r))
         == if i < |records| then records[i := Touched(id, now, records[i])] else records
  {
    assert Mapped(records, (r: Record) => Touched(id, now, r))
        == if i < |records| then records[i := Touched(id, now, records[i])] else records;
  }

  lemma {:induction false} RetainNone(records: seq<Record>)
    ensures Retain(records, {}) == records
  {
    if records != [] {
      RetainNone(records[..|records| - 1]);
    }
  }
}
