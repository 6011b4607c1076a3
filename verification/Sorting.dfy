/** Stable sorting by a real key, as the library sort used throughout the
    search code, and the algebra of "sort, then keep the first k". */
module Sorting {

  ghost predicate Sorted<T>(xs: seq<T>, key: T -> real) {
    forall i, j :: 0 <= i < j < |xs| ==> key(xs[i]) <= key(xs[j])
  }

  /** Puts `x` in front of the first element whose key is not smaller. */
  function Insert<T>(x: T, xs: seq<T>, key: T -> real): (r: seq<T>)
    ensures |r| == |xs| + 1
  {
    if xs == [] then [x]
    else if key(x) <= key(xs[0]) then [x] + xs
    else [xs[0]] + Insert(x, xs[1..], key)
  }

  /** The stable ascending sort: equal keys keep their order. */
  function StableSort<T>(xs: seq<T>, key: T -> real): (r: seq<T>)
    ensures |r| == |xs|
  {
    if xs == [] then [] else Insert(xs[0], StableSort(xs[1..], key), key)
  }

  function Take<T>(k: nat, xs: seq<T>): seq<T> { if |xs| <= k then xs else xs[..k] }

  // ---- The sort is the only sorted, order-preserving rearrangement ---------

  /** The elements with key `v`, in order. */
  function WithKey<T>(xs: seq<T>, key: T -> real, v: real): seq<T> {
    if xs == [] then []
    else (if key(xs[0]) == v then [xs[0]] else []) + WithKey(xs[1..], key, v)
  }

  /** `ys` is sorted and has the same elements as `xs`, each key class in its original order. */
  ghost predicate IsStableSort<T>(xs: seq<T>, ys: seq<T>, key: T -> real) {
    Sorted(ys, key) && forall v :: WithKey(xs, key, v) == WithKey(ys, key, v)
  }

  lemma {:induction false} InsertPermutes<T>(x: T, xs: seq<T>, key: T -> real)
    ensures multiset(Insert(x, xs, key)) == multiset{x} + multiset(xs)
  {
    if xs != [] && key(x) > key(xs[0]) {
      InsertPermutes(x, xs[1..], key);
      assert xs == [xs[0]] + xs[1..];
    }
  }

  lemma {:induction false} InsertSorted<T>(x: T, xs: seq<T>, key: T -> real)
    requires Sorted(xs, key)
    ensures Sorted(Insert(x, xs, key), key)
  {
    if xs != [] && key(x) > key(xs[0]) {
      var tail := Insert(x, xs[1..], key);
      assert Insert(x, xs, key) == [xs[0]] + tail;
      InsertSorted(x, xs[1..], key);
      InsertPermutes(x, xs[1..], key);
      hide Insert;
      forall j | 0 <= j < |tail|
        ensures key(xs[0]) <= key(tail[j])
      {
        assert tail[j] in multiset(tail);
      }
    }
  }

  lemma {:induction false} InsertKeepsClasses<T>(x: T, xs: seq<T>, key: T -> real, v: real)
    ensures WithKey(Insert(x, xs, key), key, v) == (if key(x) == v then [x] else []) + WithKey(xs, key, v)
  {
    var l := Insert(x, xs, key);
    if xs != [] && key(x) > key(xs[0]) {
      InsertKeepsClasses(x, xs[1..], key, v);
      assert l[1..] == Insert(x, xs[1..], key);
    } else {
      assert l[1..] == xs;
    }
  }

  lemma {:induction false} SortIsStableSort<T>(xs: seq<T>, key: T -> real)
    ensures IsStableSort(xs, StableSort(xs, key), key)
    ensures multiset(StableSort(xs, key)) == multiset(xs)
  {
    if xs != [] {
      SortIsStableSort(xs[1..], key);
      var tail := StableSort(xs[1..], key);
      InsertPermutes(xs[0], tail, key);
      InsertSorted(xs[0], tail, key);
      forall v { InsertKeepsClasses(xs[0], tail, key, v); }
      assert xs == [xs[0]] + xs[1..];
    }
  }

  lemma {:induction false} WithKeyHead<T>(xs: seq<T>, key: T -> real, i: nat)
    requires i < |xs|
    ensures WithKey(xs, key, key(xs[i])) != []
  {
    if i > 0 {
      assert xs[1..][i - 1] == xs[i];
      WithKeyHead(xs[1..], key, i - 1);
    }
  }

  lemma {:induction false} WithKeyMember<T>(xs: seq<T>, key: T -> real, v: real)
    requires WithKey(xs, key, v) != []
    ensures exists i :: 0 <= i < |xs| && key(xs[i]) == v
  {
    if key(xs[0]) != v {
      WithKeyMember(xs[1..], key, v);
      var i :| 0 <= i < |xs[1..]| && key(xs[1..][i]) == v;
      assert key(xs[i + 1]) == v;
    }
  }

  lemma FirstKeyNotAbove<T>(xs: seq<T>, ys: seq<T>, key: T -> real)
    requires Sorted(xs, key) && ys != []
    requires forall v :: WithKey(xs, key, v) == WithKey(ys, key, v)
    ensures xs != [] && key(xs[0]) <= key(ys[0])
  {
    WithKeyHead(ys, key, 0);
    WithKeyMember(xs, key, key(ys[0]));
  }

  lemma TailClasses<T>(xs: seq<T>, key: T -> real, v: real)
    requires xs != []
    ensures WithKey(xs[1..], key, v) == if key(xs[0]) == v then WithKey(xs, key, v)[1..] else WithKey(xs, key, v)
    ensures key(xs[0]) == v ==> WithKey(xs, key, v) != [] && WithKey(xs, key, v)[0] == xs[0]
  {
  }

  /** Two sorted sequences with the same key classes are equal. */
  lemma {:induction false} SortedClassesDetermine<T>(xs: seq<T>, ys: seq<T>, key: T -> real)
    requires Sorted(xs, key) && Sorted(ys, key)
    requires forall v :: WithKey(xs, key, v) == WithKey(ys, key, v)
    ensures xs == ys
    decreases |xs|
  {
    if ys != [] { FirstKeyNotAbove(xs, ys, key); }
    if xs != [] {
      FirstKeyNotAbove(ys, xs, key);
      TailClasses(xs, key, key(xs[0]));
      TailClasses(ys, key, key(xs[0]));
      forall v
        ensures WithKey(xs[1..], key, v) == WithKey(ys[1..], key, v)
      {
        TailClasses(xs, key, v);
        TailClasses(ys, key, v);
      }
      hide WithKey;
      SortedClassesDetermine(xs[1..], ys[1..], key);
      assert xs == [xs[0]] + xs[1..] && ys == [ys[0]] + ys[1..];
    }
  }

  lemma StableSortUnique<T>(xs: seq<T>, ys: seq<T>, key: T -> real)
    ensures IsStableSort(xs, ys, key) <==> ys == StableSort(xs, key)
  {
    SortIsStableSort(xs, key);
    if IsStableSort(xs, ys, key) { SortedClassesDetermine(ys, StableSort(xs, key), key); }
  }

  lemma SortOfSorted<T>(xs: seq<T>, key: T -> real)
    requires Sorted(xs, key)
    ensures StableSort(xs, key) == xs
  {
    StableSortUnique(xs, xs, key);
  }

  // ---- Sorting a concatenation is merging ----------------------------------

  /** The stable merge: on equal keys the left element goes first. */
  function Merge<T>(xs: seq<T>, ys: seq<T>, key: T -> real): seq<T> {
    if xs == [] then ys
    else if ys == [] then xs
    else if key(xs[0]) <= key(ys[0]) then [xs[0]] + Merge(xs[1..], ys, key)
    else [ys[0]] + Merge(xs, ys[1..], key)
  }

  lemma {:induction false} MergeInsert<T>(x: T, xs: seq<T>, ys: seq<T>, key: T -> real)
    ensures Merge(Insert(x, xs, key), ys, key) == Insert(x, Merge(xs, ys, key), key)
    decreases |xs| + |ys|
  {
    var l := Insert(x, xs, key);
    if ys == [] {
    } else if key(l[0]) <= key(ys[0]) {
      if xs == [] || key(x) <= key(xs[0]) {
        assert l[1..] == xs;
      } else {
        assert l[1..] == Insert(x, xs[1..], key);
        MergeInsert(x, xs[1..], ys, key);
      }
    } else {
      MergeInsert(x, xs, ys[1..], key);
    }
  }

  lemma {:induction false} SortOfConcat<T>(xs: seq<T>, ys: seq<T>, key: T -> real)
    ensures StableSort(xs + ys, key) == Merge(StableSort(xs, key), StableSort(ys, key), key)
  {
    if xs == [] {
      assert xs + ys == ys;
    } else {
      assert (xs + ys)[1..] == xs[1..] + ys;
      SortOfConcat(xs[1..], ys, key);
      MergeInsert(xs[0], StableSort(xs[1..], key), StableSort(ys, key), key);
    }
  }

  /** Only the first k of either side can be among the first k of a merge. */
  lemma {:induction false} TakeOfMerge<T>(k: nat, xs: seq<T>, ys: seq<T>, key: T -> real, m: nat, n: nat)
    requires k <= m && k <= n
    ensures Take(k, Merge(Take(m, xs), Take(n, ys), key)) == Take(k, Merge(xs, ys, key))
    decreases |xs| + |ys|
  {
    hide Merge, Take;
    MergeUnfold(xs, ys, key);
    MergeUnfold(Take(m, xs), Take(n, ys), key);
    if k == 0 {
      TakeNone(Merge(xs, ys, key));
      TakeNone(Merge(Take(m, xs), Take(n, ys), key));
    } else if xs != [] && ys != [] {
      TakeOfTail(m, xs);
      TakeOfTail(n, ys);
      if key(xs[0]) <= key(ys[0]) {
        TakeOfMerge(k - 1, xs[1..], ys, key, m - 1, n);
        TakeOfCons(k, xs[0], Merge(xs[1..], ys, key));
        TakeOfCons(k, xs[0], Merge(Take(m, xs)[1..], Take(n, ys), key));
      } else {
        TakeOfMerge(k - 1, xs, ys[1..], key, m, n - 1);
        TakeOfCons(k, ys[0], Merge(xs, ys[1..], key));
        TakeOfCons(k, ys[0], Merge(Take(m, xs), Take(n, ys)[1..], key));
      }
    } else {
      TakeOfTake(k, m, xs);
      TakeOfTake(k, n, ys);
    }
  }

  lemma MergeUnfold<T>(xs: seq<T>, ys: seq<T>, key: T -> real)
    ensures xs == [] ==> Merge(xs, ys, key) == ys
    ensures ys == [] ==> Merge(xs, ys, key) == xs
    ensures xs != [] && ys != [] ==>
      Merge(xs, ys, key) == if key(xs[0]) <= key(ys[0]) then [xs[0]] + Merge(xs[1..], ys, key)
                            else [ys[0]] + Merge(xs, ys[1..], key)
  {
  }

  lemma TakeNone<T>(xs: seq<T>)
    ensures Take(0, xs) == []
  {
  }

  lemma TakeOfTake<T>(k: nat, m: nat, xs: seq<T>)
    requires k <= m
    ensures Take(k, Take(m, xs)) == Take(k, xs)
    ensures xs == [] ==> Take(m, xs) == []
  {
  }

  lemma TakeOfTail<T>(k: nat, xs: seq<T>)
    requires k > 0 && xs != []
    ensures Take(k, xs) != [] && Take(k, xs)[0] == xs[0] && Take(k, xs)[1..] == Take(k - 1, xs[1..])
  {
  }

  lemma TakeOfCons<T>(k: nat, x: T, xs: seq<T>)
    requires k > 0
    ensures Take(k, [x] + xs) == [x] + Take(k - 1, xs)
  {
  }

  // ---- Chunked top-k ---------------------------------------------------------

  function Concat<T>(chunks: seq<seq<T>>): seq<T> {
    if chunks == [] then [] else chunks[0] + Concat(chunks[1..])
  }

  /** Each chunk sorted and cut to its first k, in chunk order. */
  function ChunkTops<T>(k: nat, chunks: seq<seq<T>>, key: T -> real): seq<T> {
    if chunks == [] then []
    else Take(k, StableSort(chunks[0], key)) + ChunkTops(k, chunks[1..], key)
  }

  lemma SortOfTop<T>(k: nat, xs: seq<T>, key: T -> real)
    ensures StableSort(Take(k, StableSort(xs, key)), key) == Take(k, StableSort(xs, key))
  {
    SortIsStableSort(xs, key);
    SortOfSorted(Take(k, StableSort(xs, key)), key);
  }

  /** Sorting and cutting every chunk, then sorting and cutting the rest, loses nothing, ties included. */
  lemma {:induction false} ChunkedTopK<T>(k: nat, chunks: seq<seq<T>>, key: T -> real)
    ensures Take(k, StableSort(ChunkTops(k, chunks, key), key)) == Take(k, StableSort(Concat(chunks), key))
  {
    if chunks != [] {
      var s, t := StableSort(chunks[0], key), ChunkTops(k, chunks[1..], key);
      var st, sr := StableSort(t, key), StableSort(Concat(chunks[1..]), key);
      SortOfConcat(Take(k, s), t, key);
      SortOfTop(k, chunks[0], key);
      SortOfConcat(chunks[0], Concat(chunks[1..]), key);
      ChunkedTopK(k, chunks[1..], key);
      calc {
        Take(k, Merge(Take(k, s), st, key));
        { TakeOfMerge(k, Take(k, s), st, key, k, k); assert Take(k, Take(k, s)) == Take(k, s); }
        Take(k, Merge(Take(k, s), Take(k, st), key));
        Take(k, Merge(Take(k, s), Take(k, sr), key));
        { TakeOfMerge(k, s, sr, key, k, k); }
        Take(k, Merge(s, sr, key));
      }
    }
  }

  // ---- What survives when the input order is arbitrary -----------------------

  function Keys<T>(xs: seq<T>, key: T -> real): (ks: seq<real>)
    ensures |ks| == |xs| && forall i :: 0 <= i < |xs| ==> ks[i] == key(xs[i])
  {
    seq(|xs|, i requires 0 <= i < |xs| => key(xs[i]))
  }

  /** Keys after an insertion depend on the keys before it only. */
  lemma {:induction false} InsertKeysAgree<T>(x: T, xs: seq<T>, y: T, ys: seq<T>, key: T -> real)
    requires key(x) == key(y) && Keys(xs, key) == Keys(ys, key)
    ensures Keys(Insert(x, xs, key), key) == Keys(Insert(y, ys, key), key)
    decreases |xs|
  {
    assert |xs| == |ys|;
    if xs != [] {
      assert key(xs[0]) == Keys(xs, key)[0] == Keys(ys, key)[0] == key(ys[0]);
      if key(x) > key(xs[0]) {
        KeysOfCons(xs[0], xs[1..], key);
        KeysOfCons(ys[0], ys[1..], key);
        assert xs == [xs[0]] + xs[1..] && ys == [ys[0]] + ys[1..];
        assert Keys(xs[1..], key) == Keys(xs, key)[1..] == Keys(ys[1..], key);
        InsertKeysAgree(x, xs[1..], y, ys[1..], key);
        KeysOfCons(xs[0], Insert(x, xs[1..], key), key);
        KeysOfCons(ys[0], Insert(y, ys[1..], key), key);
      } else {
        KeysOfCons(x, xs, key);
        KeysOfCons(y, ys, key);
      }
    }
  }

  lemma KeysOfCons<T>(x: T, xs: seq<T>, key: T -> real)
    ensures Keys([x] + xs, key) == [key(x)] + Keys(xs, key)
  {
  }

  lemma {:induction false} InsertKeysCommute<T>(x: T, y: T, xs: seq<T>, key: T -> real)
    ensures Keys(Insert(x, Insert(y, xs, key), key), key) == Keys(Insert(y, Insert(x, xs, key), key), key)
  {
    if xs != [] && key(xs[0]) < key(x) && key(xs[0]) < key(y) {
      InsertKeysCommute(x, y, xs[1..], key);
      var xy, yx := Insert(x, Insert(y, xs[1..], key), key), Insert(y, Insert(x, xs[1..], key), key);
      assert Insert(y, xs, key)[1..] == Insert(y, xs[1..], key) && Insert(x, xs, key)[1..] == Insert(x, xs[1..], key);
      KeysOfCons(xs[0], xy, key);
      KeysOfCons(xs[0], yx, key);
    }
  }

  /** Taking any one element out and inserting it last gives the same sorted keys. */
  lemma {:induction false} SortKeysPullOut<T>(xs: seq<T>, key: T -> real, p: nat)
    requires p < |xs|
    ensures Keys(StableSort(xs, key), key) == Keys(Insert(xs[p], StableSort(xs[..p] + xs[p + 1..], key), key), key)
    decreases p
  {
    if p == 0 {
      assert xs[..0] + xs[1..] == xs[1..];
    } else {
      var rest := xs[..p] + xs[p + 1..];
      SortKeysPullOut(xs[1..], key, p - 1);
      assert rest[1..] == xs[1..][..p - 1] + xs[1..][p..];
      var inner := StableSort(rest[1..], key);
      InsertKeysAgree(xs[0], StableSort(xs[1..], key), xs[0], Insert(xs[p], inner, key), key);
      InsertKeysCommute(xs[0], xs[p], inner, key);
    }
  }

  lemma RemoveMatch<T>(xs: seq<T>, ys: seq<T>) returns (p: nat)
    requires multiset(xs) == multiset(ys) && xs != []
    ensures p < |ys| && ys[p] == xs[0] && multiset(ys[..p] + ys[p + 1..]) == multiset(xs[1..])
  {
    assert xs[0] in multiset(ys);
    p :| 0 <= p < |ys| && ys[p] == xs[0];
    assert ys == ys[..p] + [ys[p]] + ys[p + 1..];
    assert xs == [xs[0]] + xs[1..];
    assert multiset(ys[..p] + ys[p + 1..]) == multiset(ys) - multiset{xs[0]};
  }

  /** Sorting any two arrangements of the same elements gives the same key sequence. */
  lemma {:induction false} SortKeysOrderFree<T>(xs: seq<T>, ys: seq<T>, key: T -> real)
    requires multiset(xs) == multiset(ys)
    ensures Keys(StableSort(xs, key), key) == Keys(StableSort(ys, key), key)
    decreases |xs|
  {
    if xs == [] {
      assert |multiset(ys)| == |ys|;
    } else {
      var p := RemoveMatch(xs, ys);
      var rest := ys[..p] + ys[p + 1..];
      SortKeysOrderFree(xs[1..], rest, key);
      SortKeysPullOut(ys, key, p);
      InsertKeysAgree(xs[0], StableSort(xs[1..], key), xs[0], StableSort(rest, key), key);
    }
  }
}
