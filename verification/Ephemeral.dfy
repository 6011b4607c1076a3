/** The ephemeral tier: a bounded key-value store whose entries expire.  The store
    drops expired entries lazily; the reference map drops them at once. */
module Ephemeral {
  import opened Wrappers

  type Bytes = seq<nat>
  type Store = map<string, Entry>

  /** `expiresAt == 0.0` means the entry never expires. */
  datatype Entry = Entry(value: Bytes, createdAt: real, lastAccessed: real, expiresAt: real, accessCount: nat)

  datatype Config = Config(maxEntries: nat, defaultTtl: real, trackAccess: bool)

  datatype Op =
    | Set(key: string, value: Bytes, ttl: Option<real>)
    | Get(key: string)
    | Exists(key: string)
    | Keys
    | Cleanup

  datatype Out =
    | Stored(evicted: Option<string>)
    | Found(bytes: Option<Bytes>)
    | Flag(present: bool)
    | Listing(keys: set<string>)
    | Done

  predicate Alive(e: Entry, now: real) { e.expiresAt == 0.0 || now <= e.expiresAt }

  /** The entries that have not expired. */
  function Live(m: Store, now: real): Store { map k | k in m && Alive(m[k], now) :: m[k] }

  predicate NotAfter(a: Entry, b: Entry) {
    a.accessCount < b.accessCount || (a.accessCount == b.accessCount && a.lastAccessed <= b.lastAccessed)
  }

  /** Least access count, oldest access among equals. */
  ghost predicate LeastUsed(m: Store, k: string) {
    && k in m
    && forall j :: j in m ==>
      || m[k].accessCount < m[j].accessCount
      || (m[k].accessCount == m[j].accessCount && m[k].lastAccessed <= m[j].lastAccessed)
  }

  function NewEntry(config: Config, value: Bytes, ttl: Option<real>, now: real): Entry {
    var t := if ttl.Some? then ttl.value else config.defaultTtl;
    Entry(value, now, now, if t > 0.0 then now + t else 0.0, 0)
  }

  function Touched(config: Config, e: Entry, now: real): Entry {
    e.(lastAccessed := now, accessCount := if config.trackAccess then e.accessCount + 1 else e.accessCount)
  }

  predicate WellFormed(m: Store) { forall k :: k in m ==> m[k].expiresAt >= 0.0 }

  // ---- The reference: expired entries are never there ---------------------------

  /** One operation on a map that holds live entries only. */
  ghost predicate EagerStep(config: Config, m: Store, m': Store, op: Op, now: real, out: Out) {
    match op
    case Set(key, value, ttl) =>
      var e := NewEntry(config, value, ttl, now);
      if key in m || |m| < config.maxEntries then m' == m[key := e] && out == Stored(None)
      else
        && out.Stored? && out.evicted.Some? && LeastUsed(m, out.evicted.value)
        && m' == (m - {out.evicted.value})[key := e]
    case Get(key) =>
      if key in m then m' == m[key := Touched(config, m[key], now)] && out == Found(Some(m[key].value))
      else m' == m && out == Found(None)
    case Exists(key) => m' == m && out == Flag(key in m)
    case Keys => m' == m && out == Listing(m.Keys)
    case Cleanup => m' == m && out == Done
  }

  // ---- The store: expired entries stay until something removes them -----------------

  /** Making room for a new key in a full store. */
  ghost predicate MakesRoom(m: Store, m': Store, now: real, cap: nat, evicted: Option<string>) {
    var kept := Live(m, now);
    if |kept| < |m| || |kept| < cap || m == map[] then m' == kept && evicted == None
    else evicted.Some? && LeastUsed(m, evicted.value) && m' == m - {evicted.value}
  }

  ghost predicate LazySet(config: Config, m: Store, m': Store, key: string, e: Entry, now: real,
                          evicted: Option<string>)
  {
    if key in m || |m| < config.maxEntries then m' == m[key := e] && evicted == None
    else exists r: Store :: MakesRoom(m, r, now, config.maxEntries, evicted) && m' == r[key := e]
  }

  ghost predicate LazyStep(config: Config, m: Store, m': Store, op: Op, now: real, out: Out) {
    match op
    case Set(key, value, ttl) =>
      out.Stored? && LazySet(config, m, m', key, NewEntry(config, value, ttl, now), now, out.evicted)
    case Get(key) =>
      if key in m && Alive(m[key], now) then
        m' == m[key := Touched(config, m[key], now)] && out == Found(Some(m[key].value))
      else m' == m - {key} && out == Found(None)
    case Exists(key) => m' == m && out == Flag(key in m && Alive(m[key], now))
    case Keys => m' == m && out == Listing(Live(m, now).Keys)
    case Cleanup => m' == Live(m, now) && out == Done
  }

  class EphemeralStore {
    const config: Config
    var entries: Store
    var hitCount: nat
    var missCount: nat
    var lastExpiredCount: nat
    var evictedCount: nat

    /** No entry expires before the clock's origin; zero stands for never. */
    ghost predicate Valid() reads this { WellFormed(entries) }

    constructor (config: Config)
      ensures Valid() && this.config == config && entries == map[]
      ensures hitCount == 0 && missCount == 0 && lastExpiredCount == 0 && evictedCount == 0
    {
      this.config := config;
      entries, hitCount, missCount, lastExpiredCount, evictedCount := map[], 0, 0, 0, 0;
    }

    method CleanupExpiredInternal(now: real) returns (removed: nat)
      modifies this`entries
      ensures entries == Live(old(entries), now) && removed == |old(entries)| - |entries|
    {
      var before := |entries|;
      LiveIsSmaller(entries, now);
      entries := Live(entries, now);
      removed := before - |entries|;
    }

    /** Removes a least-used entry; which one of several is up to the map's iteration order. */
    method EvictOne() returns (evicted: Option<string>)
      modifies this`entries, this`evictedCount
      ensures old(entries) == map[] ==> evicted == None && entries == old(entries) && evictedCount == old(evictedCount)
      ensures old(entries) != map[] ==> evicted.Some? && LeastUsed(old(entries), evicted.value)
      ensures old(entries) != map[] ==>
        entries == old(entries) - {evicted.value} && evictedCount == old(evictedCount) + 1
    {
      evicted := None;
      var todo := entries.Keys;
      while todo != {}
        invariant todo <= entries.Keys && entries == old(entries) && evictedCount == old(evictedCount)
        invariant evicted.None? ==> todo == entries.Keys
        invariant evicted.Some? ==> evicted.value in entries
        invariant evicted.Some? ==> forall j :: j in entries && j !in todo ==>
          NotAfter(entries[evicted.value], entries[j])
        decreases todo
      {
        var k :| k in todo;
        if evicted.None? || !NotAfter(entries[evicted.value], entries[k]) { evicted := Some(k); }
        todo := todo - {k};
      }
      if evicted.Some? {
        entries := entries - {evicted.value};
        evictedCount := evictedCount + 1;
      }
    }

    /** The clock counts seconds since the epoch, so `now` is not negative. */
    method Set(key: string, value: Bytes, ttl: Option<real>, now: real) returns (ghost out: Out)
      requires Valid() && now >= 0.0
      modifies this`entries, this`evictedCount
      ensures Valid() && LazyStep(config, old(entries), entries, Op.Set(key, value, ttl), now, out)
      ensures key in entries && entries[key].value == value && entries[key].accessCount == 0
      ensures entries[key].createdAt == now && entries[key].lastAccessed == now
      ensures evictedCount == old(evictedCount) + if out.evicted.Some? then 1 else 0
    {
      var evicted: Option<string> := None;
      if key !in entries && |entries| >= config.maxEntries {
        LiveIsSmaller(entries, now);
        var removed := CleanupExpiredInternal(now);
        if removed == 0 && |entries| >= config.maxEntries {
          assert entries == old(entries) by { FullLiveIsAll(old(entries), now); }
          evicted := EvictOne();
        }
        assert MakesRoom(old(entries), entries, now, config.maxEntries, evicted);
      }
      entries := entries[key := NewEntry(config, value, ttl, now)];
      out := Stored(evicted);
      StepKeepsWellFormed(config, old(entries), entries, Op.Set(key, value, ttl), now, out);
    }

    method Get(key: string, now: real) returns (r: Option<Bytes>)
      requires Valid()
      modifies this
      ensures Valid() && LazyStep(config, old(entries), entries, Op.Get(key), now, Found(r))
      ensures r.Some? <==>
        (key in old(entries) && (old(entries)[key].expiresAt == 0.0 || now <= old(entries)[key].expiresAt))
      ensures r.Some? ==> key in entries && r.value == entries[key].value && entries[key].lastAccessed == now
      ensures r.Some? ==>
        entries[key].accessCount == old(entries)[key].accessCount + if config.trackAccess then 1 else 0
      ensures hitCount == old(hitCount) + (if r.Some? then 1 else 0)
      ensures missCount == old(missCount) + (if r.None? then 1 else 0)
      ensures evictedCount == old(evictedCount) && lastExpiredCount == old(lastExpiredCount)
    {
      if key !in entries {
        missCount := missCount + 1;
        assert entries == entries - {key};
        return None;
      }
      var e := entries[key];
      if e.expiresAt > 0.0 && now > e.expiresAt {
        entries := entries - {key};
        missCount := missCount + 1;
        return None;
      }
      hitCount := hitCount + 1;
      entries := entries[key := Touched(config, e, now)];
      return Some(entries[key].value);
    }

    method ExistsKey(key: string, now: real) returns (b: bool)
      ensures LazyStep(config, entries, entries, Op.Exists(key), now, Flag(b))
    {
      if key !in entries { return false; }
      if entries[key].expiresAt == 0.0 { return true; }
      return now <= entries[key].expiresAt;
    }

    method LiveKeys(now: real) returns (keys: set<string>)
      ensures LazyStep(config, entries, entries, Op.Keys, now, Listing(keys))
    {
      keys := set k | k in entries && (entries[k].expiresAt == 0.0 || now <= entries[k].expiresAt);
      assert keys == Live(entries, now).Keys;
    }

    method CleanupExpired(now: real) returns (removed: nat)
      requires Valid()
      modifies this`entries, this`lastExpiredCount
      ensures Valid() && LazyStep(config, old(entries), entries, Op.Cleanup, now, Done)
      ensures removed == |old(entries)| - |entries| && lastExpiredCount == removed
    {
      removed := CleanupExpiredInternal(now);
      lastExpiredCount := removed;
      StepKeepsWellFormed(config, old(entries), entries, Op.Cleanup, now, Done);
    }

    method Delete(key: string) returns (existed: bool)
      requires Valid()
      modifies this`entries
      ensures Valid() && entries == old(entries) - {key} && existed == (key in old(entries))
    {
      existed := key in entries;
      entries := entries - {key};
    }

    method SetTtl(key: string, ttl: real, now: real) returns (found: bool)
      requires Valid() && now >= 0.0
      modifies this`entries
      ensures Valid() && found == (key in old(entries)) && entries == Retimed(old(entries), key, ttl, now)
    {
      found := key in entries;
      if found { entries := entries[key := entries[key].(expiresAt := if ttl > 0.0 then now + ttl else 0.0)]; }
    }
  }

  function Retimed(m: Store, key: string, ttl: real, now: real): Store {
    if key in m then m[key := m[key].(expiresAt := if ttl > 0.0 then now + ttl else 0.0)] else m
  }

  // ---- How long an entry lives ----------------------------------------------------------

  /** An entry set at time `s` is found at time `now` exactly when its lifetime has not run out; a lifetime that is
      not positive never does. */
  lemma SetLivesExactly(config: Config, m: Store, m': Store, m'': Store, key: string, value: Bytes, ttl: Option<real>,
                        s: real, now: real, stored: Out, got: Out)
    requires s >= 0.0
    requires LazyStep(config, m, m', Op.Set(key, value, ttl), s, stored)
    requires LazyStep(config, m', m'', Op.Get(key), now, got)
    ensures var lifetime := if ttl.Some? then ttl.value else config.defaultTtl;
      got == Found(if lifetime <= 0.0 || now <= s + lifetime then Some(value) else None)
  {
    assert m'[key] == NewEntry(config, value, ttl, s);
  }

  /** The same after a new lifetime is given to an entry that is there, expired or not. */
  lemma RetimedLivesExactly(config: Config, m: Store, m': Store, key: string, ttl: real, s: real, now: real, got: Out)
    requires s >= 0.0 && key in m && LazyStep(config, Retimed(m, key, ttl, s), m', Op.Get(key), now, got)
    ensures got == Found(if ttl <= 0.0 || now <= s + ttl then Some(m[key].value) else None)
  {
  }

  // ---- Facts about the live view --------------------------------------------------------

  lemma {:induction false} SubmapSize(a: Store, b: Store)
    requires a.Keys <= b.Keys
    ensures |a| <= |b| && (|a| == |b| ==> a.Keys == b.Keys)
  {
    assert b.Keys == a.Keys + (b.Keys - a.Keys);
    assert |b.Keys| == |a.Keys| + |b.Keys - a.Keys|;
    assert |a| == |a.Keys| && |b| == |b.Keys|;
  }

  lemma LiveIsSmaller(m: Store, now: real)
    ensures |Live(m, now)| <= |m|
  {
    SubmapSize(Live(m, now), m);
  }

  lemma FullLiveIsAll(m: Store, now: real)
    requires |Live(m, now)| == |m|
    ensures Live(m, now) == m
  {
    SubmapSize(Live(m, now), m);
  }

  /** Looking later at a live view is looking later at the store. */
  lemma LiveOfLive(m: Store, t: real, u: real)
    requires t <= u
    ensures Live(Live(m, t), u) == Live(m, u)
  {
  }

  // ---- Refinement ---------------------------------------------------------------------------

  lemma LiveAfterPut(m: Store, key: string, e: Entry, now: real)
    requires Alive(e, now)
    ensures Live(m[key := e], now) == Live(m, now)[key := e]
  {
  }

  lemma LiveAfterRemove(m: Store, key: string, now: real)
    ensures Live(m - {key}, now) == Live(m, now) - {key}
    ensures key !in m || !Alive(m[key], now) ==> Live(m - {key}, now) == Live(m, now)
  {
  }

  lemma SizeAfterPut(m: Store, key: string, e: Entry)
    ensures |m[key := e]| == |m| + if key in m then 0 else 1
  {
    assert m[key := e].Keys == m.Keys + {key};
    assert |m[key := e]| == |m[key := e].Keys| && |m| == |m.Keys|;
  }

  lemma SizeAfterRemove(m: Store, key: string)
    requires key in m
    ensures |m - {key}| == |m| - 1
  {
    assert (m - {key}).Keys == m.Keys - {key};
    assert |m - {key}| == |(m - {key}).Keys| && |m| == |m.Keys|;
  }

  lemma SetRefines(config: Config, m: Store, m': Store, key: string, value: Bytes, ttl: Option<real>, now: real,
                   evicted: Option<string>)
    requires config.maxEntries > 0 && |m| <= config.maxEntries
    requires LazySet(config, m, m', key, NewEntry(config, value, ttl, now), now, evicted)
    ensures EagerStep(config, Live(m, now), Live(m', now), Set(key, value, ttl), now, Stored(evicted))
    ensures |m'| <= config.maxEntries
  {
    var e, kept := NewEntry(config, value, ttl, now), Live(m, now);
    LiveIsSmaller(m, now);
    if key in m || |m| < config.maxEntries {
      LiveAfterPut(m, key, e, now);
      SizeAfterPut(m, key, e);
      if key !in kept && |kept| == |m| { FullLiveIsAll(m, now); }
    } else {
      var r: Store :| MakesRoom(m, r, now, config.maxEntries, evicted) && m' == r[key := e];
      LiveAfterPut(r, key, e, now);
      SizeAfterPut(r, key, e);
      if |kept| < |m| {
        LiveOfLive(m, now, now);
      } else {
        FullLiveIsAll(m, now);
        LiveAfterRemove(m, evicted.value, now);
        SizeAfterRemove(m, evicted.value);
      }
    }
  }

  /** Every step of the store is a step of the reference on the live views, with the same answer. */
  lemma StepRefines(config: Config, m: Store, m': Store, op: Op, now: real, out: Out)
    requires config.maxEntries > 0 && |m| <= config.maxEntries && LazyStep(config, m, m', op, now, out)
    ensures EagerStep(config, Live(m, now), Live(m', now), op, now, out)
    ensures |m'| <= config.maxEntries
  {
    match op {
      case Set(key, value, ttl) =>
        SetRefines(config, m, m', key, value, ttl, now, out.evicted);
      case Get(key) =>
        if key in m && Alive(m[key], now) {
          LiveAfterPut(m, key, Touched(config, m[key], now), now);
          SizeAfterPut(m, key, Touched(config, m[key], now));
        } else {
          LiveAfterRemove(m, key, now);
          SubmapSize(m', m);
        }
      case Cleanup =>
        LiveOfLive(m, now, now);
        LiveIsSmaller(m, now);
      case _ =>
    }
  }

  /** A run of the store from empty under a clock that never goes back. */
  ghost predicate LazyRun(config: Config, ms: seq<Store>, ops: seq<Op>, ts: seq<real>, outs: seq<Out>) {
    |ms| == |ops| + 1 && |ts| == |outs| == |ops| && ms[0] == map[] &&
    (forall i, j :: 0 <= i < j < |ts| ==> ts[i] <= ts[j]) &&
    forall i :: 0 <= i < |ops| ==> LazyStep(config, ms[i], ms[i + 1], ops[i], ts[i], outs[i])
  }

  /** A run of the reference: it drops expired entries as time passes, then steps. */
  ghost predicate EagerRun(config: Config, vs: seq<Store>, ops: seq<Op>, ts: seq<real>, outs: seq<Out>) {
    |vs| == |ops| + 1 && |ts| == |outs| == |ops| && vs[0] == map[] &&
    forall i :: 0 <= i < |ops| ==> EagerStep(config, Live(vs[i], ts[i]), vs[i + 1], ops[i], ts[i], outs[i])
  }

  lemma {:induction false} RunBounded(config: Config, ms: seq<Store>, ops: seq<Op>, ts: seq<real>, outs: seq<Out>,
                                      n: nat)
    requires config.maxEntries > 0 && LazyRun(config, ms, ops, ts, outs) && n <= |ops|
    ensures |ms[n]| <= config.maxEntries
  {
    if n > 0 {
      RunBounded(config, ms, ops, ts, outs, n - 1);
      hide LazyStep;
      assert LazyStep(config, ms[n - 1], ms[n - 1 + 1], ops[n - 1], ts[n - 1], outs[n - 1]);
      StepRefines(config, ms[n - 1], ms[n], ops[n - 1], ts[n - 1], outs[n - 1]);
    }
  }

  /** Lazy expiry refines eager expiry over every run: same answers, same victims, same live view. */
  lemma RunRefines(config: Config, ms: seq<Store>, ops: seq<Op>, ts: seq<real>, outs: seq<Out>) returns (vs: seq<Store>)
    requires config.maxEntries > 0 && LazyRun(config, ms, ops, ts, outs)
    ensures EagerRun(config, vs, ops, ts, outs)
    ensures forall i :: 0 < i <= |ops| ==> vs[i] == Live(ms[i], ts[i - 1])
    ensures forall i :: 0 <= i <= |ops| ==> |ms[i]| <= config.maxEntries
  {
    hide LazyStep, EagerStep, Live;
    vs := seq(|ms|, i requires 0 <= i < |ms| => if i == 0 then map[] else Live(ms[i], ts[i - 1]));
    forall i | 0 <= i <= |ops|
      ensures |ms[i]| <= config.maxEntries
    {
      RunBounded(config, ms, ops, ts, outs, i);
    }
    forall i | 0 <= i < |ops|
      ensures EagerStep(config, Live(vs[i], ts[i]), vs[i + 1], ops[i], ts[i], outs[i])
    {
      assert LazyStep(config, ms[i], ms[i + 1], ops[i], ts[i], outs[i]);
      StepRefines(config, ms[i], ms[i + 1], ops[i], ts[i], outs[i]);
      if i > 0 { LiveOfLive(ms[i], ts[i - 1], ts[i]); }
    }
  }

  /** The stored expiry times stay well formed as long as the clock is not negative. */
  lemma StepKeepsWellFormed(config: Config, m: Store, m': Store, op: Op, now: real, out: Out)
    requires WellFormed(m) && (op.Set? ==> now >= 0.0) && LazyStep(config, m, m', op, now, out)
    ensures WellFormed(m')
  {
    if op.Set? && op.key !in m && |m| >= config.maxEntries {
      var r: Store :| MakesRoom(m, r, now, config.maxEntries, out.evicted) &&
                      m' == r[op.key := NewEntry(config, op.value, op.ttl, now)];
    }
  }

  // ---- Where the store and the reference part -------------------------------------------------

  /** A store configured for no entries still keeps the one just set. */
  lemma CapacityHoldsIffPositive(config: Config, m: Store, m': Store, key: string, e: Entry, now: real,
                                 evicted: Option<string>)
    requires |m| <= config.maxEntries && LazySet(config, m, m', key, e, now, evicted)
    ensures |m'| <= config.maxEntries <==> config.maxEntries > 0
  {
    if key in m || |m| < config.maxEntries {
      SizeAfterPut(m, key, e);
    } else {
      var r: Store :| MakesRoom(m, r, now, config.maxEntries, evicted) && m' == r[key := e];
      SizeAfterPut(r, key, e);
      LiveIsSmaller(m, now);
      if evicted.Some? { SizeAfterRemove(m, evicted.value); }
      if r == Live(m, now) && |r| == |m| { FullLiveIsAll(m, now); }
    }
  }

  predicate ExpiredPresent(m: Store, key: string, now: real) { key in m && !Alive(m[key], now) }

  /** Retiming acts on the live view as on the reference exactly when the key is not an expired leftover;
      an expired leftover comes back to life. */
  lemma SetTtlRefinesIff(m: Store, key: string, ttl: real, now: real)
    ensures Live(Retimed(m, key, ttl, now), now) == Retimed(Live(m, now), key, ttl, now) <==>
      !ExpiredPresent(m, key, now)
  {
    var l, r := Live(Retimed(m, key, ttl, now), now), Retimed(Live(m, now), key, ttl, now);
    if ExpiredPresent(m, key, now) {
      assert key in l && key !in r;
    } else {
      assert l == r;
    }
  }

  /** Deleting agrees on the live view always; its answer agrees exactly when the key is not an expired leftover. */
  lemma DeleteRefinesIff(m: Store, key: string, now: real)
    ensures Live(m - {key}, now) == Live(m, now) - {key}
    ensures (key in m <==> key in Live(m, now)) <==> !ExpiredPresent(m, key, now)
  {
    LiveAfterRemove(m, key, now);
  }

  // ---- Where the lazy store shows -------------------------------------------------------------

  /** An entry that expired at time 1, looked at at time 2. */
  function Leftover(): Store { map["k" := Entry([], 0.0, 0.0, 1.0, 0)] }

  /** Retiming brings an expired entry back to life. */
  lemma SetTtlRevives()
    ensures "k" !in Live(Leftover(), 2.0) && "k" in Live(Retimed(Leftover(), "k", 5.0, 2.0), 2.0)
    ensures "k" !in Retimed(Live(Leftover(), 2.0), "k", 5.0, 2.0)
  {
    SetTtlRefinesIff(Leftover(), "k", 5.0, 2.0);
  }

  /** Deletion reports an entry that no reader could see any more. */
  lemma DeleteReportsExpired()
    ensures "k" in Leftover() && "k" !in Live(Leftover(), 2.0)
  {
    DeleteRefinesIff(Leftover(), "k", 2.0);
  }

  /** A store of capacity zero takes an entry and keeps it. */
  lemma ZeroCapacityOverflows()
    ensures var config := Config(0, 0.0, true);
      var e := Entry([], 0.0, 0.0, 0.0, 0);
      LazySet(config, map[], map["k" := e], "k", e, 0.0, None) && |map["k" := e]| > config.maxEntries
  {
    var config, e := Config(0, 0.0, true), Entry([], 0.0, 0.0, 0.0, 0);
    var none: Store := map[];
    assert Live(none, 0.0) == none;
    assert MakesRoom(none, none, 0.0, 0, None);
    assert none["k" := e] == map["k" := e];
    assert LazySet(config, none, none["k" := e], "k", e, 0.0, None);
  }
}
